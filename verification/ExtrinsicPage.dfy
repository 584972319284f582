/**
 * The page of latest extrinsics, merged from the tip buffer and the database
 * (`latest_extrinsics` of src/data/indexed/provider.rs, the bounded query of
 * src/data/indexed/queries/extrinsics.rs, the predicate of src/data/filters.rs).
 */
module ExtrinsicPage {
  import opened Wrappers
  import opened Ints
  import opened Domain
  import opened Feeds
  import opened Cursor
  import opened PendingBuffer

  datatype Filters = Filters(signed: Option<bool>, pallet: Option<string>, call: Option<string>, success: Option<bool>)

  function KeyOf(e: Extrinsic): Key { (e.blockNumber, e.index) }

  predicate Matches(e: Extrinsic, filters: Filters) {
    && (filters.signed.Some? ==> e.signed == filters.signed.value)
    && (filters.pallet.Some? ==> e.pallet == filters.pallet.value)
    && (filters.call.Some? ==> e.call == filters.call.value)
    && (filters.success.Some? ==> e.success == filters.success.value)
  }

  /** The timestamp inherent of a block. */
  predicate Inherent(e: Extrinsic) { e.index == 0 && !e.signed }

  /** The filters under which the database shows inherents. The buffer never does. */
  predicate ShowsInherents(filters: Filters) {
    filters.signed == Some(false) || filters.pallet == Some("Timestamp")
  }

  predicate Under(e: Extrinsic, bound: Option<Key>) {
    bound.Some? ==> Lt(KeyOf(e), bound.value)
  }

  // ---- the database query ----

  /** The bound as the query binds it: BIGINT and INT. */
  predicate UnderBound(e: Extrinsic, bound: Key) {
    var (block, idx) := (AsI64(bound.0), AsI32(bound.1));
    e.blockNumber < block || (e.blockNumber == block && e.index < idx)
  }

  function DbWants(upper: Option<Key>, filters: Filters): Extrinsic -> bool {
    (e: Extrinsic) =>
      && (!Inherent(e) || ShowsInherents(filters))
      && (upper.Some? ==> UnderBound(e, upper.value))
      && Matches(e, filters)
  }

  function PrintKey(k: Key): string { PrintExtrinsic(ExtrinsicCursor(k.0, k.1)) }

  /** `db` is every stored row, newest first; one row more than asked for is fetched. */
  function DbQuery(db: seq<Extrinsic>, count: nat, upper: Option<Key>, filters: Filters): Page<Extrinsic> {
    if count == 0 then EmptyPage()
    else
      var rows := Take(Pick(db, DbWants(upper, filters)), count + 1);
      if |rows| > count
      then Page(rows[..count], Some(PrintKey(KeyOf(rows[count - 1]))), true)
      else Page(rows, None, false)
  }

  // ---- the pending slice ----

  /** The buffered rows, newest first. */
  function BufferedRows(buffer: seq<BufferedBlock>): seq<Extrinsic> {
    if buffer == [] then []
    else Reversed(buffer[|buffer| - 1].extrinsics) + BufferedRows(buffer[..|buffer| - 1])
  }

  /**
   * The rows kept from the buffer, and the key of the last row that was looked at past the cursor,
   * wanted or not.
   */
  function Scan(rows: seq<Extrinsic>, items: seq<Extrinsic>, last: Option<Key>,
                count: nat, cursor: Option<Key>, filters: Filters): (seq<Extrinsic>, Option<Key>)
    decreases |rows|
  {
    if rows == [] then (items, last)
    else
      var e, rest := rows[0], rows[1..];
      if Inherent(e) || !Under(e, cursor) then Scan(rest, items, last, count, cursor, filters)
      else if !Matches(e, filters) then Scan(rest, items, Some(KeyOf(e)), count, cursor, filters)
      else if |items| >= count then (items, Some(KeyOf(e)))
      else Scan(rest, items + [e], Some(KeyOf(e)), count, cursor, filters)
  }

  function OrElse(a: Option<Key>, b: Option<Key>): Option<Key> { if a.Some? then a else b }

  /** The page, once the buffer has been scanned: filled up from the database, or only probed against it. */
  function Assemble(items: seq<Extrinsic>, upper: Option<Key>, db: seq<Extrinsic>, count: nat, filters: Filters)
    : Page<Extrinsic>
    requires 0 < count
  {
    if |items| >= count then
      var hasMore := DbQuery(db, 1, upper, filters).items != [];
      Page(items, if hasMore then Some(PrintKey(KeyOf(items[|items| - 1]))) else None, hasMore)
    else
      var page := DbQuery(db, count - |items|, upper, filters);
      Page(items + page.items, page.nextCursor, page.hasMore)
  }

  function PageOf(buffer: seq<BufferedBlock>, db: seq<Extrinsic>, count: nat, cursor: Option<Key>, filters: Filters)
    : Page<Extrinsic>
    requires 0 < count
  {
    var (items, last) := Scan(BufferedRows(buffer), [], None, count, cursor, filters);
    Assemble(items, OrElse(last, cursor), db, count, filters)
  }

  // ---- the code ----

  method PendingSlice(buffer: seq<BufferedBlock>, count: nat, cursor: Option<Key>, filters: Filters)
    returns (items: seq<Extrinsic>, lastBuffered: Option<Key>)
    ensures (items, lastBuffered) == Scan(BufferedRows(buffer), [], None, count, cursor, filters)
  {
    hide Reversed;
    items, lastBuffered := [], None;
    ghost var all := BufferedRows(buffer);
    var b := |buffer|;
    assert buffer[..b] == buffer;
    while b > 0
      invariant 0 <= b <= |buffer|
      invariant Scan(BufferedRows(buffer[..b]), items, lastBuffered, count, cursor, filters)
             == Scan(all, [], None, count, cursor, filters)
    {
      var rows := Reversed(buffer[b - 1].extrinsics);
      ghost var older := BufferedRows(buffer[..b - 1]);
      assert buffer[..b][..b - 1] == buffer[..b - 1];
      assert rows[0..] == rows;
      for k := 0 to |rows|
        invariant Scan(rows[k..] + older, items, lastBuffered, count, cursor, filters)
               == Scan(all, [], None, count, cursor, filters)
      {
        var ext := rows[k];
        assert (rows[k..] + older)[0] == ext && (rows[k..] + older)[1..] == rows[k + 1..] + older;
        if ext.index == 0 && !ext.signed {
          continue;
        }
        if cursor.Some? && !Lt((ext.blockNumber, ext.index), cursor.value) {
          continue;
        }
        lastBuffered := Some((ext.blockNumber, ext.index));
        if !Matches(ext, filters) {
          continue;
        }
        if |items| >= count {
          return;
        }
        items := items + [ext];
      }
      assert rows[|rows|..] + older == older;
      b := b - 1;
    }
  }

  method LatestExtrinsics(buffer: seq<BufferedBlock>, db: seq<Extrinsic>, req: PageRequest, filters: Filters)
    returns (r: Result<Page<Extrinsic>, ParseError>)
    ensures req.count == 0 ==> r == Ok(EmptyPage())
    ensures req.count > 0 && req.cursor.None? ==> r == Ok(PageOf(buffer, db, req.count, None, filters))
    ensures req.count > 0 && req.cursor.Some? ==> (r ==
      match ParseExtrinsic(req.cursor.value)
      case Err(e) => Err(e)
      case Ok(c) => Ok(PageOf(buffer, db, req.count, Some((c.block, c.index)), filters)))
  {
    hide ParseExtrinsic, Scan, DbWants, PrintKey;
    if req.count == 0 { return Ok(EmptyPage()); }
    var cursor: Option<Key> := None;
    if req.cursor.Some? {
      match ParseExtrinsic(req.cursor.value) {
        case Err(e) => return Err(e);
        case Ok(c) => cursor := Some((c.block, c.index));
      }
    }
    var items, lastBuffered := PendingSlice(buffer, req.count, cursor, filters);
    var upper := OrElse(lastBuffered, cursor);
    if |items| >= req.count {
      var probe := DbQuery(db, 1, upper, filters);
      var hasMore := probe.items != [];
      var next := if hasMore then Some(PrintKey(KeyOf(items[|items| - 1]))) else None;
      return Ok(Page(items, next, hasMore));
    }
    var need := req.count - |items|;
    var dbPage := DbQuery(db, need, upper, filters);
    var hasMore, next := dbPage.hasMore, dbPage.nextCursor;
    items := items + dbPage.items;
    if hasMore && next.None? {
      assert false; // the defensive fallback: the query always gives a cursor when it has more
    }
    return Ok(Page(items, next, hasMore));
  }

  // ---- the integer columns ----

  /** A stored key fits its BIGINT and INT columns. */
  predicate Fits(k: Key) { k.0 < TWO_63 && k.1 < TWO_31 }

  ghost predicate RowsFit(rows: seq<Extrinsic>) {
    forall e :: e in rows ==> Fits(KeyOf(e))
  }

  /** A bound out of the columns' range wraps to a smaller one: rows are lost, never let through. */
  lemma BoundIsSound(e: Extrinsic, bound: Key)
    requires Fits(KeyOf(e)) && bound.0 <= U64_MAX && bound.1 <= U32_MAX
    ensures UnderBound(e, bound) ==> Lt(KeyOf(e), bound)
    ensures Fits(bound) ==> (UnderBound(e, bound) <==> Lt(KeyOf(e), bound))
  {
  }

  /** The bound means what the cursor says iff its fields fit the columns. */
  lemma BoundExactIff(bound: Key, template: Extrinsic)
    requires bound.0 <= U64_MAX && bound.1 <= U32_MAX
    ensures (forall e: Extrinsic :: Fits(KeyOf(e)) ==> (UnderBound(e, bound) <==> Lt(KeyOf(e), bound))) <==> Fits(bound)
  {
    if !Fits(bound) {
      var e := template.(blockNumber := if bound.0 < TWO_63 then bound.0 else 0, index := 0);
      assert Fits(KeyOf(e)) && Lt(KeyOf(e), bound) && !UnderBound(e, bound);
    }
  }

  // ---- the combined feed ----

  function BufferWants(cursor: Option<Key>, filters: Filters): Extrinsic -> bool {
    (e: Extrinsic) => !Inherent(e) && Under(e, cursor) && Matches(e, filters)
  }

  function StoredWants(cursor: Option<Key>, filters: Filters): Extrinsic -> bool {
    (e: Extrinsic) => (!Inherent(e) || ShowsInherents(filters)) && Under(e, cursor) && Matches(e, filters)
  }

  function FromBuffer(buffer: seq<BufferedBlock>, cursor: Option<Key>, filters: Filters): seq<Extrinsic> {
    Pick(BufferedRows(buffer), BufferWants(cursor, filters))
  }

  function FromDb(db: seq<Extrinsic>, cursor: Option<Key>, filters: Filters): seq<Extrinsic> {
    Pick(db, StoredWants(cursor, filters))
  }

  /** Everything visible below the cursor, newest first. */
  function Combined(buffer: seq<BufferedBlock>, db: seq<Extrinsic>, cursor: Option<Key>, filters: Filters): seq<Extrinsic> {
    FromBuffer(buffer, cursor, filters) + FromDb(db, cursor, filters)
  }

  /** Both sources descend and fit their columns. */
  ghost predicate Sources(buffer: seq<BufferedBlock>, db: seq<Extrinsic>) {
    && Descending(BufferedRows(buffer), KeyOf) && Descending(db, KeyOf)
    && RowsFit(BufferedRows(buffer)) && RowsFit(db)
  }

  /** Nothing stored is as new as anything buffered. */
  ghost predicate Above(buffer: seq<BufferedBlock>, db: seq<Extrinsic>) {
    forall x, y :: x in BufferedRows(buffer) && y in db ==> Lt(KeyOf(y), KeyOf(x))
  }

  ghost predicate CursorFits(cursor: Option<Key>) { cursor.Some? ==> Fits(cursor.value) }

  /** Blocks in ascending order, each with its own extrinsics in ascending order. */
  ghost predicate Ascending(buffer: seq<BufferedBlock>) {
    && (forall i, j :: 0 <= i < j < |buffer| ==> buffer[i].number < buffer[j].number)
    && (forall i :: 0 <= i < |buffer| ==> InBlockOrder(buffer[i]))
  }

  ghost predicate InBlockOrder(b: BufferedBlock) {
    && (forall j :: 0 <= j < |b.extrinsics| ==> b.extrinsics[j].blockNumber == b.number)
    && (forall j, k :: 0 <= j < k < |b.extrinsics| ==> b.extrinsics[j].index < b.extrinsics[k].index)
  }

  /** A buffer that ascends, as blocks are appended, is read back newest first. */
  lemma {:induction false} AscendingBufferDescends(buffer: seq<BufferedBlock>)
    requires Ascending(buffer)
    ensures Descending(BufferedRows(buffer), KeyOf)
    ensures forall e :: e in BufferedRows(buffer) ==> exists i :: 0 <= i < |buffer| && e.blockNumber == buffer[i].number
    decreases |buffer|
  {
    if buffer != [] {
      var n := |buffer| - 1;
      var front, here := buffer[..n], Reversed(buffer[n].extrinsics);
      AscendingBufferDescends(front);
      assert InBlockOrder(buffer[n]);
      forall x, y | x in here && y in BufferedRows(front) ensures Lt(KeyOf(y), KeyOf(x)) {
        var i :| 0 <= i < n && y.blockNumber == front[i].number;
        assert front[i] == buffer[i] && x.blockNumber == buffer[n].number;
      }
      DescendingConcat(here, BufferedRows(front), KeyOf);
      forall e | e in BufferedRows(buffer) ensures exists i :: 0 <= i < |buffer| && e.blockNumber == buffer[i].number {
        if e in here {
          assert e.blockNumber == buffer[n].number;
        } else {
          var i :| 0 <= i < n && e.blockNumber == front[i].number;
          assert e.blockNumber == buffer[i].number;
        }
      }
    }
  }

  lemma {:induction false} ScanItems(rows: seq<Extrinsic>, items: seq<Extrinsic>, last: Option<Key>,
                                     count: nat, cursor: Option<Key>, filters: Filters)
    requires |items| <= count
    ensures Scan(rows, items, last, count, cursor, filters).0 == Take(items + Pick(rows, BufferWants(cursor, filters)), count)
    decreases |rows|
  {
    var wants := BufferWants(cursor, filters);
    hide Take, Matches;
    if rows == [] {
      assert items + [] == items;
      TakeShort(items, count);
    } else {
      var e, rest := rows[0], Pick(rows[1..], wants);
      if !wants(e) {
        assert Pick(rows, wants) == rest;
        ScanItems(rows[1..], items, if Inherent(e) || !Under(e, cursor) then last else Some(KeyOf(e)), count, cursor, filters);
      } else if |items| >= count {
        TakeAppend(items, Pick(rows, wants), count);
        TakeShort(items, count);
      } else {
        ScanItems(rows[1..], items + [e], Some(KeyOf(e)), count, cursor, filters);
        assert items + ([e] + rest) == items + [e] + rest;
      }
    }
  }

  /** What the scan remembers: a row of the buffer below the cursor, not above any kept row. */
  lemma {:induction false} ScanLast(rows: seq<Extrinsic>, items: seq<Extrinsic>, last: Option<Key>,
                                    count: nat, cursor: Option<Key>, filters: Filters) returns (e: Option<Extrinsic>)
    requires Descending(rows, KeyOf)
    requires forall x, y :: x in items && y in rows ==> Lt(KeyOf(y), KeyOf(x))
    requires forall x :: x in items ==> last.Some? && !Lt(KeyOf(x), last.value)
    ensures var (items', last') := Scan(rows, items, last, count, cursor, filters);
      && (e.None? ==> last' == last)
      && (e.Some? ==> e.value in rows && Under(e.value, cursor) && last' == Some(KeyOf(e.value)))
      && (forall x :: x in items' ==> last'.Some? && !Lt(KeyOf(x), last'.value))
    decreases |rows|
  {
    e := None;
    if rows != [] {
      hide Matches;
      var first, rest := rows[0], rows[1..];
      assert rows == [first] + rest;
      assert forall y :: y in rest ==> Lt(KeyOf(y), KeyOf(first));
      if Inherent(first) || !Under(first, cursor) {
        e := ScanLast(rest, items, last, count, cursor, filters);
      } else if !Matches(first, filters) {
        e := ScanLast(rest, items, Some(KeyOf(first)), count, cursor, filters);
        if e.None? { e := Some(first); }
      } else if |items| >= count {
        e := Some(first);
      } else {
        e := ScanLast(rest, items + [first], Some(KeyOf(first)), count, cursor, filters);
        if e.None? { e := Some(first); }
      }
    }
  }

  /** When everything stored lies below the buffer, the bound of the query is as good as the cursor. */
  lemma BoundIsCursor(buffer: seq<BufferedBlock>, db: seq<Extrinsic>, count: nat, cursor: Option<Key>, filters: Filters)
    requires Sources(buffer, db) && Above(buffer, db) && CursorFits(cursor)
    ensures var upper := OrElse(Scan(BufferedRows(buffer), [], None, count, cursor, filters).1, cursor);
      Pick(db, DbWants(upper, filters)) == FromDb(db, cursor, filters)
  {
    var e := ScanLast(BufferedRows(buffer), [], None, count, cursor, filters);
    var upper := OrElse(Scan(BufferedRows(buffer), [], None, count, cursor, filters).1, cursor);
    hide Scan, BufferedRows;
    forall y | y in db ensures DbWants(upper, filters)(y) == StoredWants(cursor, filters)(y) {
      if e.Some? { BoundIsSound(y, KeyOf(e.value)); }
      if e.None? && cursor.Some? { BoundIsSound(y, cursor.value); }
    }
    PickSame(db, DbWants(upper, filters), StoredWants(cursor, filters));
  }

  lemma DbQueryIs(db: seq<Extrinsic>, count: nat, upper: Option<Key>, filters: Filters)
    requires 0 < count
    ensures var all := Pick(db, DbWants(upper, filters));
      var page := DbQuery(db, count, upper, filters);
      && page.items == Take(all, count)
      && (page.hasMore <==> |all| > count)
      && page.nextCursor == (if page.hasMore then Some(PrintKey(KeyOf(all[count - 1]))) else None)
  {
    hide Pick, PrintKey;
    var all := Pick(db, DbWants(upper, filters));
    if |all| > count { assert all[..count + 1][..count] == all[..count]; }
  }

  /** The page in terms of what the two sources hold below the cursor. */
  ghost predicate IsPage(page: Page<Extrinsic>, buffered: seq<Extrinsic>, stored: seq<Extrinsic>, count: nat)
    requires 0 < count
  {
    if |buffered| >= count then
      && page.items == buffered[..count]
      && (page.hasMore <==> stored != [])
      && page.nextCursor == (if page.hasMore then Some(PrintKey(KeyOf(buffered[count - 1]))) else None)
    else
      var need := count - |buffered|;
      && page.items == buffered + Take(stored, need)
      && (page.hasMore <==> |stored| > need)
      && page.nextCursor == (if page.hasMore then Some(PrintKey(KeyOf(stored[need - 1]))) else None)
  }

  lemma AssembleIs(items: seq<Extrinsic>, buffered: seq<Extrinsic>, upper: Option<Key>, db: seq<Extrinsic>,
                   count: nat, filters: Filters)
    requires 0 < count && items == Take(buffered, count)
    ensures IsPage(Assemble(items, upper, db, count, filters), buffered, Pick(db, DbWants(upper, filters)), count)
  {
    hide DbQuery, Pick, DbWants, PrintKey;
    if |buffered| >= count {
      DbQueryIs(db, 1, upper, filters);
    } else {
      DbQueryIs(db, count - |items|, upper, filters);
    }
  }

  lemma MergedItemsOf(page: Page<Extrinsic>, buffered: seq<Extrinsic>, stored: seq<Extrinsic>, count: nat)
    requires 0 < count && IsPage(page, buffered, stored, count)
    ensures page.items == Take(buffered + stored, count)
  {
    hide PrintKey;
    if |buffered| >= count { TakeAppend(buffered, stored, count); }
  }

  lemma FullPageOf(page: Page<Extrinsic>, buffered: seq<Extrinsic>, stored: seq<Extrinsic>, count: nat)
    requires 0 < count && IsPage(page, buffered, stored, count) && page.hasMore
    ensures |buffered + stored| > count
    ensures page.nextCursor == Some(PrintKey(KeyOf((buffered + stored)[count - 1])))
  {
    hide PrintKey;
  }

  lemma PageIs(buffer: seq<BufferedBlock>, db: seq<Extrinsic>, count: nat, cursor: Option<Key>, filters: Filters)
    requires 0 < count && Sources(buffer, db) && Above(buffer, db) && CursorFits(cursor)
    ensures IsPage(PageOf(buffer, db, count, cursor, filters),
                   FromBuffer(buffer, cursor, filters), FromDb(db, cursor, filters), count)
  {
    hide Assemble, IsPage, Sources, Above, DbWants, FromDb;
    var buffered := FromBuffer(buffer, cursor, filters);
    var (items, last) := Scan(BufferedRows(buffer), [], None, count, cursor, filters);
    ScanItems(BufferedRows(buffer), [], None, count, cursor, filters);
    assert [] + buffered == buffered;
    AssembleIs(items, buffered, OrElse(last, cursor), db, count, filters);
    BoundIsCursor(buffer, db, count, cursor, filters);
  }

  /**
   * The items are the first `count` rows of the combined feed below the cursor, when the buffer sits
   * above the stored rows.
   */
  lemma MergedItems(buffer: seq<BufferedBlock>, db: seq<Extrinsic>, count: nat, cursor: Option<Key>, filters: Filters)
    requires 0 < count && Sources(buffer, db) && Above(buffer, db) && CursorFits(cursor)
    ensures PageOf(buffer, db, count, cursor, filters).items == Take(Combined(buffer, db, cursor, filters), count)
  {
    PageIs(buffer, db, count, cursor, filters);
    hide PageOf, FromBuffer, FromDb, PrintKey, Sources, Above, IsPage;
    MergedItemsOf(PageOf(buffer, db, count, cursor, filters),
      FromBuffer(buffer, cursor, filters), FromDb(db, cursor, filters), count);
  }

  // ---- a database that already holds buffered blocks ----

  /** The stored row is older than every buffered row that the scan looks at. */
  ghost predicate BelowSeen(buffer: seq<BufferedBlock>, cursor: Option<Key>, e: Extrinsic) {
    forall x :: x in BufferedRows(buffer) && !Inherent(x) && Under(x, cursor) ==> Lt(KeyOf(e), KeyOf(x))
  }

  ghost function StoredBelow(buffer: seq<BufferedBlock>, cursor: Option<Key>, filters: Filters): Extrinsic -> bool {
    (e: Extrinsic) => StoredWants(cursor, filters)(e) && BelowSeen(buffer, cursor, e)
  }

  /** A scan that does not fill the page ends at the oldest row it looks at, if there is one. */
  lemma {:induction false} ScanOldest(rows: seq<Extrinsic>, items: seq<Extrinsic>, last: Option<Key>,
                                      count: nat, cursor: Option<Key>, filters: Filters)
    requires Descending(rows, KeyOf)
    requires |items| + |Pick(rows, BufferWants(cursor, filters))| <= count
    ensures var last' := Scan(rows, items, last, count, cursor, filters).1;
      && (forall x :: x in rows && !Inherent(x) && Under(x, cursor) ==> last'.Some? && !Lt(KeyOf(x), last'.value))
      && (last' == last || exists x :: x in rows && !Inherent(x) && Under(x, cursor) && last' == Some(KeyOf(x)))
    decreases |rows|
  {
    if rows != [] {
      hide Matches, Inherent;
      var first, rest := rows[0], rows[1..];
      assert rows == [first] + rest;
      assert forall y :: y in rest ==> Lt(KeyOf(y), KeyOf(first));
      if Inherent(first) || !Under(first, cursor) {
        ScanOldest(rest, items, last, count, cursor, filters);
      } else if !Matches(first, filters) {
        ScanOldest(rest, items, Some(KeyOf(first)), count, cursor, filters);
      } else {
        ScanOldest(rest, items + [first], Some(KeyOf(first)), count, cursor, filters);
      }
    }
  }

  /** When the buffer does not fill the page, the query selects what lies below all the scan looked at. */
  lemma BoundIsOldest(buffer: seq<BufferedBlock>, db: seq<Extrinsic>, count: nat, cursor: Option<Key>, filters: Filters)
    requires Sources(buffer, db) && CursorFits(cursor) && |FromBuffer(buffer, cursor, filters)| <= count
    ensures var upper := OrElse(Scan(BufferedRows(buffer), [], None, count, cursor, filters).1, cursor);
      Pick(db, DbWants(upper, filters)) == Pick(db, StoredBelow(buffer, cursor, filters))
  {
    ScanOldest(BufferedRows(buffer), [], None, count, cursor, filters);
    var last := Scan(BufferedRows(buffer), [], None, count, cursor, filters).1;
    hide Scan, BufferedRows, Inherent, Matches;
    forall y | y in db ensures DbWants(OrElse(last, cursor), filters)(y) == StoredBelow(buffer, cursor, filters)(y) {
      if last.Some? {
        var x :| x in BufferedRows(buffer) && !Inherent(x) && Under(x, cursor) && last == Some(KeyOf(x));
        assert UnderBound(y, last.value) <==> Lt(KeyOf(y), last.value) by { BoundIsSound(y, last.value); }
        assert BelowSeen(buffer, cursor, y) <==> Lt(KeyOf(y), last.value);
        assert Lt(KeyOf(y), last.value) ==> Under(y, cursor);
      } else {
        assert BelowSeen(buffer, cursor, y);
        if cursor.Some? { BoundIsSound(y, cursor.value); }
      }
      assert StoredBelow(buffer, cursor, filters)(y) == (StoredWants(cursor, filters)(y) && BelowSeen(buffer, cursor, y));
    }
    PickSame(db, DbWants(OrElse(last, cursor), filters), StoredBelow(buffer, cursor, filters));
  }

  /**
   * Whatever the database holds, overlapping the buffer or not: the items are the first `count` of the
   * buffered rows followed by the stored rows below every buffered row looked at.
   */
  lemma ItemsOfAny(buffer: seq<BufferedBlock>, db: seq<Extrinsic>, count: nat, cursor: Option<Key>, filters: Filters)
    requires 0 < count && Sources(buffer, db) && CursorFits(cursor)
    ensures PageOf(buffer, db, count, cursor, filters).items ==
      Take(FromBuffer(buffer, cursor, filters) + Pick(db, StoredBelow(buffer, cursor, filters)), count)
  {
    hide Assemble, IsPage, Sources, DbWants, StoredBelow;
    var buffered := FromBuffer(buffer, cursor, filters);
    var (items, last) := Scan(BufferedRows(buffer), [], None, count, cursor, filters);
    ScanItems(BufferedRows(buffer), [], None, count, cursor, filters);
    assert [] + buffered == buffered;
    var upper := OrElse(last, cursor);
    AssembleIs(items, buffered, upper, db, count, filters);
    MergedItemsOf(PageOf(buffer, db, count, cursor, filters), buffered, Pick(db, DbWants(upper, filters)), count);
    if |buffered| <= count {
      BoundIsOldest(buffer, db, count, cursor, filters);
    } else {
      TakeAppend(buffered, Pick(db, DbWants(upper, filters)), count);
      TakeAppend(buffered, Pick(db, StoredBelow(buffer, cursor, filters)), count);
    }
  }

  /** A stored row is older than the whole buffer or is itself buffered. */
  ghost predicate Overlaps(buffer: seq<BufferedBlock>, db: seq<Extrinsic>) {
    forall x, y :: x in BufferedRows(buffer) && y in db && y !in BufferedRows(buffer) ==> Lt(KeyOf(y), KeyOf(x))
  }

  /** The stored rows that the buffer does not hold. */
  function Unbuffered(buffer: seq<BufferedBlock>, db: seq<Extrinsic>): seq<Extrinsic> {
    Pick(db, (e: Extrinsic) => e !in BufferedRows(buffer))
  }

  /** A buffered inherent that the filters show and that has no other buffered row under the cursor below it. */
  ghost predicate LooseInherent(buffer: seq<BufferedBlock>, cursor: Option<Key>, filters: Filters, e: Extrinsic) {
    && e in BufferedRows(buffer) && Inherent(e) && ShowsInherents(filters)
    && Matches(e, filters) && Under(e, cursor) && BelowSeen(buffer, cursor, e)
  }

  lemma CopyShownIff(buffer: seq<BufferedBlock>, cursor: Option<Key>, filters: Filters, e: Extrinsic)
    requires e in BufferedRows(buffer)
    ensures StoredBelow(buffer, cursor, filters)(e) <==> LooseInherent(buffer, cursor, filters, e)
  {
    hide BufferedRows, Matches;
    assert StoredBelow(buffer, cursor, filters)(e) == (StoredWants(cursor, filters)(e) && BelowSeen(buffer, cursor, e));
    assert !Lt(KeyOf(e), KeyOf(e));
  }

  lemma UnbufferedFeed(buffer: seq<BufferedBlock>, db: seq<Extrinsic>, cursor: Option<Key>, filters: Filters)
    requires Overlaps(buffer, db)
    ensures var below, unseen := Pick(db, StoredBelow(buffer, cursor, filters)), FromDb(Unbuffered(buffer, db), cursor, filters);
      && ((forall e :: e in db ==> !LooseInherent(buffer, cursor, filters, e)) ==> below == unseen)
      && ((exists e :: e in db && LooseInherent(buffer, cursor, filters, e)) ==> |below| > |unseen|)
  {
    var once := (e: Extrinsic) => e !in BufferedRows(buffer);
    var both := (e: Extrinsic) => once(e) && StoredWants(cursor, filters)(e);
    PickBoth(db, once, StoredWants(cursor, filters), both);
    forall e | e in db && e in BufferedRows(buffer)
      ensures StoredBelow(buffer, cursor, filters)(e) <==> LooseInherent(buffer, cursor, filters, e)
    {
      CopyShownIff(buffer, cursor, filters, e);
    }
    hide BufferedRows, Inherent, Matches;
    if e :| e in db && LooseInherent(buffer, cursor, filters, e) {
      PickShorter(db, both, StoredBelow(buffer, cursor, filters), e);
    } else {
      PickSame(db, both, StoredBelow(buffer, cursor, filters));
    }
  }

  /**
   * While committed blocks are still buffered, pages of every size are those of a database that holds only
   * what the buffer does not, iff it stores no loose inherent: a buffered inherent that the filters show and
   * that lies below every other buffered row under the cursor. The buffer hides it, its stored copy shows.
   */
  lemma OverlapIsInvisibleIff(buffer: seq<BufferedBlock>, db: seq<Extrinsic>, cursor: Option<Key>, filters: Filters)
    requires Sources(buffer, db) && Overlaps(buffer, db) && CursorFits(cursor)
    ensures (forall n: nat :: 0 < n ==>
              PageOf(buffer, db, n, cursor, filters).items == Take(Combined(buffer, Unbuffered(buffer, db), cursor, filters), n))
       <==> (forall e :: e in db ==> !LooseInherent(buffer, cursor, filters, e))
  {
    var below := Pick(db, StoredBelow(buffer, cursor, filters));
    var unbuffered := FromDb(Unbuffered(buffer, db), cursor, filters);
    var buffered := FromBuffer(buffer, cursor, filters);
    UnbufferedFeed(buffer, db, cursor, filters);
    forall n: nat | 0 < n ensures PageOf(buffer, db, n, cursor, filters).items == Take(buffered + below, n) {
      ItemsOfAny(buffer, db, n, cursor, filters);
    }
    hide PageOf, FromBuffer, FromDb, Unbuffered, StoredBelow, LooseInherent, Sources, Overlaps;
    if |below| > |unbuffered| {
      var n := |buffered + below|;
      assert PageOf(buffer, db, n, cursor, filters).items == buffered + below;
      assert |Take(Combined(buffer, Unbuffered(buffer, db), cursor, filters), n)| < n;
    }
  }

  lemma SliceDescends(rows: seq<Extrinsic>, count: nat, cursor: Option<Key>, filters: Filters)
    requires Descending(rows, KeyOf) && RowsFit(rows)
    ensures var (items, last) := Scan(rows, [], None, count, cursor, filters);
      && Descending(items, KeyOf)
      && (last.Some? ==> Fits(last.value))
      && forall x :: x in items ==> last.Some? && !Lt(KeyOf(x), last.value)
  {
    hide Scan, Pick;
    var wants := BufferWants(cursor, filters);
    ScanItems(rows, [], None, count, cursor, filters);
    PickDescending(rows, wants, KeyOf);
    assert [] + Pick(rows, wants) == Pick(rows, wants);
    var e := ScanLast(rows, [], None, count, cursor, filters);
  }

  lemma DbQueryDescends(db: seq<Extrinsic>, count: nat, upper: Option<Key>, filters: Filters)
    requires 0 < count && Descending(db, KeyOf) && RowsFit(db)
    ensures Descending(DbQuery(db, count, upper, filters).items, KeyOf)
    ensures upper.Some? && Fits(upper.value) ==>
      forall y :: y in DbQuery(db, count, upper, filters).items ==> Lt(KeyOf(y), upper.value)
  {
    var wants := DbWants(upper, filters);
    DbQueryIs(db, count, upper, filters);
    PickDescending(db, wants, KeyOf);
    hide DbQuery;
    if upper.Some? && Fits(upper.value) {
      forall y | y in DbQuery(db, count, upper, filters).items ensures Lt(KeyOf(y), upper.value) {
        assert y in Pick(db, wants);
        PickMembers(db, wants, y);
        BoundIsSound(y, upper.value);
      }
    }
  }

  lemma AssembleDescends(items: seq<Extrinsic>, upper: Option<Key>, db: seq<Extrinsic>, count: nat, filters: Filters)
    requires 0 < count && Descending(items, KeyOf) && Descending(db, KeyOf) && RowsFit(db)
    requires forall x :: x in items ==> upper.Some? && Fits(upper.value) && !Lt(KeyOf(x), upper.value)
    ensures Descending(Assemble(items, upper, db, count, filters).items, KeyOf)
  {
    if |items| < count {
      DbQueryDescends(db, count - |items|, upper, filters);
      hide DbQuery, RowsFit;
      DescendingConcat(items, DbQuery(db, count - |items|, upper, filters).items, KeyOf);
    }
  }

  /**
   * No page ever repeats a row or breaks the order, even while the database already holds blocks that
   * are still buffered.
   */
  lemma PageDescends(buffer: seq<BufferedBlock>, db: seq<Extrinsic>, count: nat, cursor: Option<Key>, filters: Filters)
    requires 0 < count && Sources(buffer, db)
    ensures Descending(PageOf(buffer, db, count, cursor, filters).items, KeyOf)
  {
    hide Assemble, Scan, Descending;
    var (items, last) := Scan(BufferedRows(buffer), [], None, count, cursor, filters);
    SliceDescends(BufferedRows(buffer), count, cursor, filters);
    AssembleDescends(items, OrElse(last, cursor), db, count, filters);
  }

  /**
   * `has_more` is right except when the buffer alone has more matching rows than fit while the
   * database has none below them.
   */
  lemma HasMoreExactIff(buffer: seq<BufferedBlock>, db: seq<Extrinsic>, count: nat, cursor: Option<Key>, filters: Filters)
    requires 0 < count && Sources(buffer, db) && Above(buffer, db) && CursorFits(cursor)
    ensures (PageOf(buffer, db, count, cursor, filters).hasMore <==> |Combined(buffer, db, cursor, filters)| > count)
       <==> !(|FromBuffer(buffer, cursor, filters)| > count && FromDb(db, cursor, filters) == [])
  {
    PageIs(buffer, db, count, cursor, filters);
    hide PageOf, FromBuffer, FromDb, PrintKey;
  }

  /** The feed as the database alone would show it: inherents appear when the filters ask for them. */
  function Uniform(buffer: seq<BufferedBlock>, db: seq<Extrinsic>, cursor: Option<Key>, filters: Filters): seq<Extrinsic> {
    Pick(BufferedRows(buffer) + db, StoredWants(cursor, filters))
  }

  /**
   * The combined feed is that one iff no buffered inherent matches filters that show inherents: a
   * pending inherent stays hidden even from a caller who asks for unsigned rows.
   */
  lemma CombinedIsUniformIff(buffer: seq<BufferedBlock>, db: seq<Extrinsic>, cursor: Option<Key>, filters: Filters)
    ensures Combined(buffer, db, cursor, filters) == Uniform(buffer, db, cursor, filters) <==>
      !(ShowsInherents(filters)
        && exists e :: e in BufferedRows(buffer) && Inherent(e) && Under(e, cursor) && Matches(e, filters))
  {
    var rows := BufferedRows(buffer);
    var strict, loose := BufferWants(cursor, filters), StoredWants(cursor, filters);
    PickConcat(rows, db, loose);
    if ShowsInherents(filters) && exists e :: e in rows && Inherent(e) && Under(e, cursor) && Matches(e, filters) {
      var e :| e in rows && Inherent(e) && Under(e, cursor) && Matches(e, filters);
      PickShorter(rows, strict, loose, e);
    } else {
      PickSame(rows, strict, loose);
    }
  }

  /** A strictly weaker wish selects strictly more. */
  lemma {:induction false} PickShorter(rows: seq<Extrinsic>, strict: Extrinsic -> bool, loose: Extrinsic -> bool, e: Extrinsic)
    requires forall x :: x in rows && strict(x) ==> loose(x)
    requires e in rows && loose(e) && !strict(e)
    ensures |Pick(rows, strict)| < |Pick(rows, loose)|
    decreases |rows|
  {
    assert rows == [rows[0]] + rows[1..];
    if e in rows[1..] {
      PickShorter(rows[1..], strict, loose, e);
    } else {
      PickNoLonger(rows[1..], strict, loose);
    }
  }

  lemma {:induction false} PickNoLonger(rows: seq<Extrinsic>, strict: Extrinsic -> bool, loose: Extrinsic -> bool)
    requires forall x :: x in rows && strict(x) ==> loose(x)
    ensures |Pick(rows, strict)| <= |Pick(rows, loose)|
    decreases |rows|
  {
    if rows != [] {
      assert rows[0] in rows;
      PickNoLonger(rows[1..], strict, loose);
    }
  }

  // ---- the next page ----

  lemma CombinedDescends(buffer: seq<BufferedBlock>, db: seq<Extrinsic>, cursor: Option<Key>, filters: Filters)
    requires Sources(buffer, db) && Above(buffer, db)
    ensures Descending(Combined(buffer, db, cursor, filters), KeyOf)
  {
    var rows := BufferedRows(buffer);
    PickDescending(rows, BufferWants(cursor, filters), KeyOf);
    PickDescending(db, StoredWants(cursor, filters), KeyOf);
    forall x, y | x in FromBuffer(buffer, cursor, filters) && y in FromDb(db, cursor, filters)
      ensures Lt(KeyOf(y), KeyOf(x))
    {
      PickMembers(rows, BufferWants(cursor, filters), x);
      PickMembers(db, StoredWants(cursor, filters), y);
    }
    DescendingConcat(FromBuffer(buffer, cursor, filters), FromDb(db, cursor, filters), KeyOf);
  }

  /** A cursor taken from the feed resumes right after its row. */
  lemma CombinedResumes(buffer: seq<BufferedBlock>, db: seq<Extrinsic>, cursor: Option<Key>, filters: Filters, i: nat)
    requires Sources(buffer, db) && Above(buffer, db) && i < |Combined(buffer, db, cursor, filters)|
    ensures var feed := Combined(buffer, db, cursor, filters);
      Combined(buffer, db, Some(KeyOf(feed[i])), filters) == feed[i + 1..]
  {
    var feed := Combined(buffer, db, cursor, filters);
    var k := KeyOf(feed[i]);
    var rows := BufferedRows(buffer);
    var below := (e: Extrinsic) => Lt(KeyOf(e), k);
    CombinedDescends(buffer, db, cursor, filters);
    PickBelow(feed, i, below, KeyOf);
    PickConcat(FromBuffer(buffer, cursor, filters), FromDb(db, cursor, filters), below);
    assert Under(feed[i], cursor) by {
      PickMembers(rows, BufferWants(cursor, filters), feed[i]);
      PickMembers(db, StoredWants(cursor, filters), feed[i]);
    }
    PickBoth(rows, BufferWants(cursor, filters), below, BufferWants(Some(k), filters));
    PickBoth(db, StoredWants(cursor, filters), below, StoredWants(Some(k), filters));
  }

  lemma {:induction false} PickBoth<T>(s: seq<T>, p: T -> bool, q: T -> bool, both: T -> bool)
    requires forall x :: x in s ==> (both(x) <==> p(x) && q(x))
    ensures Pick(Pick(s, p), q) == Pick(s, both)
    decreases |s|
  {
    if s != [] {
      assert s[0] in s;
      PickBoth(s[1..], p, q, both);
      PickConcat(if p(s[0]) then [s[0]] else [], Pick(s[1..], p), q);
      assert [s[0]][1..] == [];
    }
  }

  /** When there is a next cursor it parses, and the next page starts right after this one. */
  lemma NextPageResumes(buffer: seq<BufferedBlock>, db: seq<Extrinsic>, count: nat, cursor: Option<Key>, filters: Filters)
    requires 0 < count && Sources(buffer, db) && Above(buffer, db) && CursorFits(cursor)
    requires PageOf(buffer, db, count, cursor, filters).hasMore
    ensures |Combined(buffer, db, cursor, filters)| > count
    ensures var page := PageOf(buffer, db, count, cursor, filters);
      && page.nextCursor.Some?
      && ParseExtrinsic(page.nextCursor.value).Ok?
      && var c := ParseExtrinsic(page.nextCursor.value).value;
         Combined(buffer, db, Some((c.block, c.index)), filters)
           == Combined(buffer, db, cursor, filters)[count..]
  {
    hide PageOf, BufferedRows, ParseExtrinsic;
    var feed := Combined(buffer, db, cursor, filters);
    FullPage(buffer, db, count, cursor, filters);
    var last := feed[count - 1];
    PickMembers(BufferedRows(buffer), BufferWants(cursor, filters), last);
    PickMembers(db, StoredWants(cursor, filters), last);
    PairRoundTrip(last.blockNumber, last.index);
    CombinedResumes(buffer, db, cursor, filters, count - 1);
  }

  lemma FullPage(buffer: seq<BufferedBlock>, db: seq<Extrinsic>, count: nat, cursor: Option<Key>, filters: Filters)
    requires 0 < count && Sources(buffer, db) && Above(buffer, db) && CursorFits(cursor)
    requires PageOf(buffer, db, count, cursor, filters).hasMore
    ensures |Combined(buffer, db, cursor, filters)| > count
    ensures PageOf(buffer, db, count, cursor, filters).nextCursor
         == Some(PrintKey(KeyOf(Combined(buffer, db, cursor, filters)[count - 1])))
  {
    PageIs(buffer, db, count, cursor, filters);
    hide PageOf, FromBuffer, FromDb, PrintKey, IsPage, Sources, Above;
    FullPageOf(PageOf(buffer, db, count, cursor, filters),
      FromBuffer(buffer, cursor, filters), FromDb(db, cursor, filters), count);
  }

  // ---- following the pages ----

  /** Past a buffered row nothing stored is gone yet. */
  lemma StoredUntouched(buffer: seq<BufferedBlock>, db: seq<Extrinsic>, cursor: Option<Key>, filters: Filters, x: Extrinsic)
    requires Above(buffer, db) && x in BufferedRows(buffer) && Under(x, cursor)
    ensures FromDb(db, Some(KeyOf(x)), filters) == FromDb(db, cursor, filters)
  {
    hide Matches;
    PickSame(db, StoredWants(Some(KeyOf(x)), filters), StoredWants(cursor, filters));
  }

  /** Past a stored row nothing buffered is left. */
  lemma BufferExhausted(buffer: seq<BufferedBlock>, db: seq<Extrinsic>, filters: Filters, y: Extrinsic)
    requires Above(buffer, db) && y in db
    ensures FromBuffer(buffer, Some(KeyOf(y)), filters) == []
  {
    hide Matches;
    PickNone(BufferedRows(buffer), BufferWants(Some(KeyOf(y)), filters));
  }

  /** The walk stops early: the buffer has more than a page and the database nothing. */
  ghost predicate StopsEarly(buffer: seq<BufferedBlock>, db: seq<Extrinsic>, count: nat, cursor: Option<Key>, filters: Filters) {
    |FromBuffer(buffer, cursor, filters)| > count && FromDb(db, cursor, filters) == []
  }

  function NextKey(page: Page<Extrinsic>): Option<Key> {
    if page.nextCursor.None? then None
    else
      match ParseExtrinsic(page.nextCursor.value)
      case Ok(c) => Some((c.block, c.index))
      case Err(_) => None
  }

  /** The row a page ends with when there are more. */
  lemma LastRow(buffer: seq<BufferedBlock>, db: seq<Extrinsic>, cursor: Option<Key>, filters: Filters, i: nat)
    requires Sources(buffer, db) && i < |Combined(buffer, db, cursor, filters)|
    ensures var e := Combined(buffer, db, cursor, filters)[i];
      && Fits(KeyOf(e)) && Under(e, cursor)
      && (i < |FromBuffer(buffer, cursor, filters)| ==> e in BufferedRows(buffer))
      && (i >= |FromBuffer(buffer, cursor, filters)| ==> e in db)
  {
    var e := Combined(buffer, db, cursor, filters)[i];
    PickMembers(BufferedRows(buffer), BufferWants(cursor, filters), e);
    PickMembers(db, StoredWants(cursor, filters), e);
    hide BufferedRows, Pick, Matches;
    if i < |FromBuffer(buffer, cursor, filters)| {
      assert e == FromBuffer(buffer, cursor, filters)[i];
    } else {
      assert e == FromDb(db, cursor, filters)[i - |FromBuffer(buffer, cursor, filters)|];
    }
  }

  /** A page that says it has more and is filled by the buffer has stored rows below it. */
  lemma MoreStored(buffer: seq<BufferedBlock>, db: seq<Extrinsic>, count: nat, cursor: Option<Key>, filters: Filters)
    requires 0 < count && Sources(buffer, db) && Above(buffer, db) && CursorFits(cursor)
    requires PageOf(buffer, db, count, cursor, filters).hasMore
    ensures |FromBuffer(buffer, cursor, filters)| >= count ==> FromDb(db, cursor, filters) != []
  {
    PageIs(buffer, db, count, cursor, filters);
    hide PageOf, FromBuffer, FromDb, Sources, Above, PrintKey;
  }

  /** Once a page has more after it, the page after it does not stop early. */
  lemma NextNeverStops(buffer: seq<BufferedBlock>, db: seq<Extrinsic>, count: nat, cursor: Option<Key>, filters: Filters)
    requires 0 < count && Sources(buffer, db) && Above(buffer, db) && CursorFits(cursor)
    requires PageOf(buffer, db, count, cursor, filters).hasMore
    requires |Combined(buffer, db, cursor, filters)| > count
    ensures !StopsEarly(buffer, db, count, Some(KeyOf(Combined(buffer, db, cursor, filters)[count - 1])), filters)
  {
    hide PageOf, BufferedRows, FromBuffer, FromDb, Sources, Above, Combined, Under, Fits;
    MoreStored(buffer, db, count, cursor, filters);
    LastRow(buffer, db, cursor, filters, count - 1);
    var last := Combined(buffer, db, cursor, filters)[count - 1];
    if count <= |FromBuffer(buffer, cursor, filters)| {
      StoredUntouched(buffer, db, cursor, filters, last);
    } else {
      BufferExhausted(buffer, db, filters, last);
    }
  }

  lemma NextPage(buffer: seq<BufferedBlock>, db: seq<Extrinsic>, count: nat, cursor: Option<Key>, filters: Filters)
    requires 0 < count && Sources(buffer, db) && Above(buffer, db) && CursorFits(cursor)
    requires PageOf(buffer, db, count, cursor, filters).hasMore
    ensures var next := NextKey(PageOf(buffer, db, count, cursor, filters));
      && next.Some? && CursorFits(next)
      && |Combined(buffer, db, cursor, filters)| > count
      && Combined(buffer, db, next, filters) == Combined(buffer, db, cursor, filters)[count..]
      && !StopsEarly(buffer, db, count, next, filters)
  {
    hide PageOf, BufferedRows, Combined, ParseExtrinsic, PrintExtrinsic, Sources, Above, StopsEarly;
    FullPage(buffer, db, count, cursor, filters);
    var last := Combined(buffer, db, cursor, filters)[count - 1];
    LastRow(buffer, db, cursor, filters, count - 1);
    PairRoundTrip(last.blockNumber, last.index);
    CombinedResumes(buffer, db, cursor, filters, count - 1);
    NextNeverStops(buffer, db, count, cursor, filters);
    assert NextKey(PageOf(buffer, db, count, cursor, filters)) == Some(KeyOf(last));
  }

  /** The pages one gets by following `next_cursor`. */
  function Walk(buffer: seq<BufferedBlock>, db: seq<Extrinsic>, count: nat, cursor: Option<Key>, filters: Filters): seq<Page<Extrinsic>>
    requires 0 < count && Sources(buffer, db) && Above(buffer, db) && CursorFits(cursor)
    decreases |Combined(buffer, db, cursor, filters)|
  {
    var page := PageOf(buffer, db, count, cursor, filters);
    if !page.hasMore then [page]
    else
      NextPage(buffer, db, count, cursor, filters);
      [page] + Walk(buffer, db, count, NextKey(page), filters)
  }

  function ItemsOf(pages: seq<Page<Extrinsic>>): seq<Extrinsic> {
    if pages == [] then [] else pages[0].items + ItemsOf(pages[1..])
  }

  lemma LastPage(buffer: seq<BufferedBlock>, db: seq<Extrinsic>, count: nat, cursor: Option<Key>, filters: Filters)
    requires 0 < count && Sources(buffer, db) && Above(buffer, db) && CursorFits(cursor)
    requires !PageOf(buffer, db, count, cursor, filters).hasMore
    ensures PageOf(buffer, db, count, cursor, filters).items == Combined(buffer, db, cursor, filters)
      <==> !StopsEarly(buffer, db, count, cursor, filters)
  {
    MergedItems(buffer, db, count, cursor, filters);
    HasMoreExactIff(buffer, db, count, cursor, filters);
    hide PageOf, FromBuffer, FromDb, Sources, Above;
  }

  lemma JoinItems(page: Page<Extrinsic>, rest: seq<Page<Extrinsic>>, feed: seq<Extrinsic>, count: nat)
    requires count <= |feed| && page.items == feed[..count] && ItemsOf(rest) == feed[count..]
    ensures ItemsOf([page] + rest) == feed
  {
    assert ([page] + rest)[1..] == rest;
  }

  /**
   * Following `next_cursor` ends, and yields the whole combined feed iff it does not stop at the first
   * page: the buffer alone fills it and more, while the database has nothing below. Later pages never
   * stop early.
   */
  lemma {:induction false} WalkIsCombinedIff(buffer: seq<BufferedBlock>, db: seq<Extrinsic>, count: nat, cursor: Option<Key>, filters: Filters)
    requires 0 < count && Sources(buffer, db) && Above(buffer, db) && CursorFits(cursor)
    ensures ItemsOf(Walk(buffer, db, count, cursor, filters)) == Combined(buffer, db, cursor, filters)
      <==> !StopsEarly(buffer, db, count, cursor, filters)
    decreases |Combined(buffer, db, cursor, filters)|
  {
    hide PageOf, Combined, FromBuffer, FromDb, Sources, Above, NextKey;
    var page := PageOf(buffer, db, count, cursor, filters);
    if page.hasMore {
      NextPage(buffer, db, count, cursor, filters);
      MergedItems(buffer, db, count, cursor, filters);
      MoreStored(buffer, db, count, cursor, filters);
      WalkIsCombinedIff(buffer, db, count, NextKey(page), filters);
      JoinItems(page, Walk(buffer, db, count, NextKey(page), filters), Combined(buffer, db, cursor, filters), count);
    } else {
      LastPage(buffer, db, count, cursor, filters);
      assert [page][1..] == [] && page.items + [] == page.items;
    }
  }

  // ---- what a walk shows, in terms of the buffer's blocks and the stored rows ----

  /** Some block of the buffer holds the extrinsic. */
  ghost predicate InBuffer(buffer: seq<BufferedBlock>, e: Extrinsic) {
    exists i :: 0 <= i < |buffer| && e in buffer[i].extrinsics
  }

  lemma InBufferSnoc(front: seq<BufferedBlock>, b: BufferedBlock, e: Extrinsic)
    ensures InBuffer(front + [b], e) <==> InBuffer(front, e) || e in b.extrinsics
  {
    var all := front + [b];
    assert all[|front|] == b;
    if i :| 0 <= i < |front| && e in front[i].extrinsics { assert all[i] == front[i]; }
    if i :| 0 <= i < |all| && e in all[i].extrinsics { assert i < |front| ==> all[i] == front[i]; }
  }

  lemma BufferedRowsSnoc(front: seq<BufferedBlock>, b: BufferedBlock, e: Extrinsic)
    ensures e in BufferedRows(front + [b]) <==> e in b.extrinsics || e in BufferedRows(front)
  {
    assert (front + [b])[..|front|] == front;
    ReversedMembers(b.extrinsics, e);
    hide Reversed;
    assert BufferedRows(front + [b]) == Reversed(b.extrinsics) + BufferedRows(front);
    hide BufferedRows;
  }

  /** Every extrinsic of every buffered block is among the rows read back, and nothing else is. */
  lemma {:induction false} BufferedIff(buffer: seq<BufferedBlock>, e: Extrinsic)
    ensures e in BufferedRows(buffer) <==> InBuffer(buffer, e)
    decreases |buffer|
  {
    if buffer != [] {
      var n := |buffer| - 1;
      hide InBuffer, BufferedRows;
      BufferedIff(buffer[..n], e);
      assert buffer == buffer[..n] + [buffer[n]];
      InBufferSnoc(buffer[..n], buffer[n], e);
      BufferedRowsSnoc(buffer[..n], buffer[n], e);
    }
  }

  /** The filters, spelled out. */
  predicate Asked(e: Extrinsic, filters: Filters) {
    && (filters.signed == Some(true) ==> e.signed) && (filters.signed == Some(false) ==> !e.signed)
    && (filters.success == Some(true) ==> e.success) && (filters.success == Some(false) ==> !e.success)
    && (filters.pallet == None || filters.pallet == Some(e.pallet))
    && (filters.call == None || filters.call == Some(e.call))
  }

  /** Shown from the buffer: asked for, and not a timestamp inherent. */
  function FromBufferShown(filters: Filters): Extrinsic -> bool {
    (e: Extrinsic) => Asked(e, filters) && (e.index != 0 || e.signed)
  }

  /** Shown from the database: inherents too, when the filters ask for unsigned ones or their pallet. */
  predicate FromDbShown(e: Extrinsic, filters: Filters) {
    Asked(e, filters) && (e.index != 0 || e.signed || filters.signed == Some(false) || filters.pallet == Some("Timestamp"))
  }

  ghost predicate Shown(buffer: seq<BufferedBlock>, db: seq<Extrinsic>, filters: Filters, e: Extrinsic) {
    (InBuffer(buffer, e) && FromBufferShown(filters)(e)) || (e in db && FromDbShown(e, filters))
  }

  /** How many buffered extrinsics are shown. */
  function ShownCount(buffer: seq<BufferedBlock>, filters: Filters): nat {
    if buffer == [] then 0
    else ShownCount(buffer[..|buffer| - 1], filters) + |Pick(buffer[|buffer| - 1].extrinsics, FromBufferShown(filters))|
  }

  lemma WantedIsShown(e: Extrinsic, filters: Filters)
    ensures BufferWants(None, filters)(e) == FromBufferShown(filters)(e)
    ensures StoredWants(None, filters)(e) == FromDbShown(e, filters)
  {
  }

  lemma {:induction false} ShownCountIs(buffer: seq<BufferedBlock>, filters: Filters)
    ensures |FromBuffer(buffer, None, filters)| == ShownCount(buffer, filters)
    decreases |buffer|
  {
    if buffer != [] {
      var n := |buffer| - 1;
      var exts := buffer[n].extrinsics;
      ShownCountIs(buffer[..n], filters);
      PickConcat(Reversed(exts), BufferedRows(buffer[..n]), BufferWants(None, filters));
      PickReversed(exts, BufferWants(None, filters));
      forall e ensures BufferWants(None, filters)(e) == FromBufferShown(filters)(e) { WantedIsShown(e, filters); }
      PickSame(exts, BufferWants(None, filters), FromBufferShown(filters));
    }
  }

  lemma CombinedShows(buffer: seq<BufferedBlock>, db: seq<Extrinsic>, filters: Filters, e: Extrinsic)
    ensures e in Combined(buffer, db, None, filters) <==> Shown(buffer, db, filters, e)
  {
    BufferedIff(buffer, e);
    WantedIsShown(e, filters);
    PickMembers(BufferedRows(buffer), BufferWants(None, filters), e);
    PickMembers(db, StoredWants(None, filters), e);
    hide BufferedRows, InBuffer, Pick, BufferWants, StoredWants, FromBufferShown, FromDbShown;
  }

  /** An ascending buffer above the stored rows, all within their columns. */
  ghost predicate Tip(buffer: seq<BufferedBlock>, db: seq<Extrinsic>) {
    && Ascending(buffer) && Descending(db, KeyOf)
    && (forall x, y :: InBuffer(buffer, x) && y in db ==> Lt(KeyOf(y), KeyOf(x)))
    && (forall x :: InBuffer(buffer, x) || x in db ==> x.blockNumber < TWO_63 && x.index < TWO_31)
  }

  lemma TipIsSources(buffer: seq<BufferedBlock>, db: seq<Extrinsic>)
    requires Tip(buffer, db)
    ensures Sources(buffer, db) && Above(buffer, db)
  {
    AscendingBufferDescends(buffer);
    forall e ensures e in BufferedRows(buffer) <==> InBuffer(buffer, e) { BufferedIff(buffer, e); }
    hide BufferedRows, InBuffer;
  }

  lemma EarlyStopLoses(buffer: seq<BufferedBlock>, db: seq<Extrinsic>, count: nat, filters: Filters)
    returns (e: Extrinsic)
    requires 0 < count && Sources(buffer, db) && Above(buffer, db) && StopsEarly(buffer, db, count, None, filters)
    ensures e in Combined(buffer, db, None, filters) && e !in ItemsOf(Walk(buffer, db, count, None, filters))
  {
    var feed := Combined(buffer, db, None, filters);
    var page := PageOf(buffer, db, count, None, filters);
    MergedItems(buffer, db, count, None, filters);
    HasMoreExactIff(buffer, db, count, None, filters);
    CombinedDescends(buffer, db, None, filters);
    hide PageOf, FromBuffer, FromDb, Sources, Above;
    e := feed[count];
    assert [page][1..] == [] && page.items + [] == page.items;
    assert forall i :: 0 <= i < count ==> Lt(KeyOf(feed[count]), KeyOf(feed[i]));
  }

  /**
   * Following the pages from no cursor shows extrinsics newest first and each once, and only those that are
   * buffered or stored and asked for; it shows all of them iff the buffer does not have more to show than one
   * page while the database has nothing to show.
   */
  lemma WalkShowsIff(buffer: seq<BufferedBlock>, db: seq<Extrinsic>, count: nat, filters: Filters)
    requires 0 < count && Tip(buffer, db)
    ensures Sources(buffer, db) && Above(buffer, db)
    ensures var all := ItemsOf(Walk(buffer, db, count, None, filters));
      && Descending(all, KeyOf)
      && (forall e :: e in all ==> Shown(buffer, db, filters, e))
      && ((forall e :: e in all <==> Shown(buffer, db, filters, e))
            <==> !(ShownCount(buffer, filters) > count && forall e :: e in db ==> !FromDbShown(e, filters)))
  {
    TipIsSources(buffer, db);
    var all, feed := ItemsOf(Walk(buffer, db, count, None, filters)), Combined(buffer, db, None, filters);
    WalkIsCombinedIff(buffer, db, count, None, filters);
    CombinedDescends(buffer, db, None, filters);
    ShownCountIs(buffer, filters);
    assert FromDb(db, None, filters) == [] <==> forall e :: e in db ==> !FromDbShown(e, filters) by { NoneShownIff(db, filters); }
    hide Walk, Sources, Above, Tip, Shown, FromBuffer, FromDb, FromDbShown, ShownCount, Combined;
    forall e ensures e in feed <==> Shown(buffer, db, filters, e) { CombinedShows(buffer, db, filters, e); }
    if StopsEarly(buffer, db, count, None, filters) {
      var e := EarlyStopLoses(buffer, db, count, filters);
      FirstPageOnly(buffer, db, count, filters);
    }
  }

  lemma NoneShownIff(db: seq<Extrinsic>, filters: Filters)
    ensures FromDb(db, None, filters) == [] <==> forall e :: e in db ==> !FromDbShown(e, filters)
  {
    forall e | e in db ensures FromDbShown(e, filters) <==> e in FromDb(db, None, filters) {
      WantedIsShown(e, filters);
      PickMembers(db, StoredWants(None, filters), e);
    }
    hide FromDbShown, StoredWants;
    if FromDb(db, None, filters) != [] {
      var e := FromDb(db, None, filters)[0];
      PickMembers(db, StoredWants(None, filters), e);
      assert e in db;
    }
  }

  lemma FirstPageOnly(buffer: seq<BufferedBlock>, db: seq<Extrinsic>, count: nat, filters: Filters)
    requires 0 < count && Sources(buffer, db) && Above(buffer, db) && StopsEarly(buffer, db, count, None, filters)
    ensures var all, feed := ItemsOf(Walk(buffer, db, count, None, filters)), Combined(buffer, db, None, filters);
      |all| <= |feed| && all == feed[..|all|]
  {
    var page := PageOf(buffer, db, count, None, filters);
    MergedItems(buffer, db, count, None, filters);
    HasMoreExactIff(buffer, db, count, None, filters);
    hide PageOf, FromBuffer, FromDb, Sources, Above;
    assert [page][1..] == [] && page.items + [] == page.items;
  }
}
