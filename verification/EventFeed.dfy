/**
 * The event feed that walks blocks backwards from the head (`latest_events` and
 * `mock_events_for_block` of src/data/mock.rs). The generated chain is an arbitrary function from
 * block number to block.
 */
module EventFeed {
  import opened Wrappers
  import opened Ints
  import opened Bytes
  import opened Domain
  import opened Feeds
  import opened Cursor

  datatype EventRef = EventRef(pallet: string, name: string, fields: seq<byte>)
  datatype ExtrinsicEvents = ExtrinsicEvents(index: nat, events: seq<EventRef>)
  datatype MockBlock = MockBlock(timestampMs: int, extrinsics: seq<ExtrinsicEvents>)

  /** An event of a block; its phase is always the application of extrinsic `phase`. */
  datatype BlockEvent = BlockEvent(
    blockNumber: nat, index: nat, phase: nat, pallet: string, name: string, fields: seq<byte>, timestampMs: int)

  datatype Filters = Filters(pallet: Option<string>, variant: Option<string>)

  type Blocks = nat -> MockBlock

  // ---- the events of one block ----

  function EventOf(block: nat, timestampMs: int, index: nat, phase: nat, ev: EventRef): BlockEvent {
    BlockEvent(block, index, phase, ev.pallet, ev.name, ev.fields, timestampMs)
  }

  /** The events of one extrinsic, numbered on from `start`. */
  function Numbered(block: nat, timestampMs: int, start: nat, ext: ExtrinsicEvents): seq<BlockEvent> {
    seq(|ext.events|, i requires 0 <= i < |ext.events| =>
      EventOf(block, timestampMs, start + i, ext.index, ext.events[i]))
  }

  function Flatten(block: nat, timestampMs: int, exts: seq<ExtrinsicEvents>): seq<BlockEvent> {
    if exts == [] then []
    else
      var before := Flatten(block, timestampMs, exts[..|exts| - 1]);
      before + Numbered(block, timestampMs, |before|, exts[|exts| - 1])
  }

  function EventsOf(chain: Blocks, block: nat): seq<BlockEvent> {
    Flatten(block, chain(block).timestampMs, chain(block).extrinsics)
  }

  /** The running event index is a u32. */
  ghost predicate IndexesFit(chain: Blocks) {
    forall b :: |EventsOf(chain, b)| <= U32_MAX
  }

  method MockEventsForBlock(chain: Blocks, block: nat) returns (out: seq<BlockEvent>)
    ensures out == EventsOf(chain, block)
  {
    var b := chain(block);
    out := [];
    var idx: nat := 0;
    for e := 0 to |b.extrinsics|
      invariant out == Flatten(block, b.timestampMs, b.extrinsics[..e]) && idx == |out|
    {
      assert b.extrinsics[..e + 1][..e] == b.extrinsics[..e];
      var ext := b.extrinsics[e];
      ghost var before := out;
      for k := 0 to |ext.events|
        invariant out == before + Numbered(block, b.timestampMs, |before|, ext)[..k] && idx == |out|
      {
        out := out + [EventOf(block, b.timestampMs, idx, ext.index, ext.events[k])];
        idx := idx + 1;
      }
    }
    assert b.extrinsics[..|b.extrinsics|] == b.extrinsics;
  }

  /** Every event carries its block's number and its own position. */
  ghost predicate Indexed(events: seq<BlockEvent>, block: nat) {
    forall i :: 0 <= i < |events| ==> events[i].blockNumber == block && events[i].index == i
  }

  lemma {:induction false} FlattenIndexes(block: nat, timestampMs: int, exts: seq<ExtrinsicEvents>)
    ensures Indexed(Flatten(block, timestampMs, exts), block)
    decreases |exts|
  {
    if exts != [] {
      var front, last := exts[..|exts| - 1], exts[|exts| - 1];
      FlattenIndexes(block, timestampMs, front);
      var before := Flatten(block, timestampMs, front);
      var more := Numbered(block, timestampMs, |before|, last);
      assert Flatten(block, timestampMs, exts) == before + more;
      hide Flatten;
      assert forall k :: 0 <= k < |more| ==> more[k].blockNumber == block && more[k].index == |before| + k;
    }
  }

  /** How many events the extrinsics have together. */
  function EventCount(exts: seq<ExtrinsicEvents>): nat {
    if exts == [] then 0 else EventCount(exts[..|exts| - 1]) + |exts[|exts| - 1].events|
  }

  /** The event is the `j`th of the `k`th extrinsic, numbered after all events of the extrinsics before. */
  ghost predicate EmittedAt(block: nat, timestampMs: int, exts: seq<ExtrinsicEvents>, e: BlockEvent, k: int, j: int) {
    && 0 <= k < |exts| && 0 <= j < |exts[k].events|
    && var ev := exts[k].events[j];
    e == BlockEvent(block, EventCount(exts[..k]) + j, exts[k].index, ev.pallet, ev.name, ev.fields, timestampMs)
  }

  ghost predicate Emitted(block: nat, timestampMs: int, exts: seq<ExtrinsicEvents>, e: BlockEvent) {
    exists k, j :: EmittedAt(block, timestampMs, exts, e, k, j)
  }

  lemma EmittedSnoc(block: nat, timestampMs: int, front: seq<ExtrinsicEvents>, ext: ExtrinsicEvents, e: BlockEvent)
    ensures Emitted(block, timestampMs, front + [ext], e) <==>
      Emitted(block, timestampMs, front, e) || e in Numbered(block, timestampMs, EventCount(front), ext)
  {
    var all := front + [ext];
    var n, here := |front|, Numbered(block, timestampMs, EventCount(front), ext);
    assert all[n] == ext && all[..n] == front;
    forall k, j ensures k < n ==> (EmittedAt(block, timestampMs, all, e, k, j) <==> EmittedAt(block, timestampMs, front, e, k, j)) {
      if 0 <= k < n { assert all[k] == front[k] && all[..k] == front[..k]; }
    }
    if e in here {
      var j :| 0 <= j < |here| && here[j] == e;
      assert EmittedAt(block, timestampMs, all, e, n, j);
    }
    if j :| EmittedAt(block, timestampMs, all, e, n, j) { assert here[j] == e; }
    hide Numbered, EventCount;
    if Emitted(block, timestampMs, front, e) {
      var k, j :| EmittedAt(block, timestampMs, front, e, k, j);
      assert EmittedAt(block, timestampMs, all, e, k, j);
    }
    if Emitted(block, timestampMs, all, e) {
      var k, j :| EmittedAt(block, timestampMs, all, e, k, j);
      assert k < n ==> EmittedAt(block, timestampMs, front, e, k, j);
      assert k == n || k < n;
    }
  }

  /** A block's events are exactly the events of its extrinsics, with their pallets, names, fields and places. */
  lemma {:induction false} FlattenIff(block: nat, timestampMs: int, exts: seq<ExtrinsicEvents>, e: BlockEvent)
    ensures |Flatten(block, timestampMs, exts)| == EventCount(exts)
    ensures e in Flatten(block, timestampMs, exts) <==> Emitted(block, timestampMs, exts, e)
    decreases |exts|
  {
    if exts != [] {
      var front, ext := exts[..|exts| - 1], exts[|exts| - 1];
      assert exts == front + [ext];
      FlattenIff(block, timestampMs, front, e);
      EmittedSnoc(block, timestampMs, front, ext, e);
      hide Emitted;
    }
  }

  lemma EventsOfIndexes(chain: Blocks, block: nat, e: BlockEvent)
    requires e in EventsOf(chain, block)
    ensures e.blockNumber == block && e.index < |EventsOf(chain, block)|
  {
    FlattenIndexes(block, chain(block).timestampMs, chain(block).extrinsics);
    hide Flatten;
    var events := EventsOf(chain, block);
    var i :| 0 <= i < |events| && events[i] == e;
  }

  // ---- the whole feed ----

  function KeyOf(e: BlockEvent): Key { (e.blockNumber, e.index) }

  /** Every event of blocks `block..=0`, newest first. */
  function Everything(chain: Blocks, block: nat): seq<BlockEvent> {
    Reversed(EventsOf(chain, block)) + if block == 0 then [] else Everything(chain, block - 1)
  }

  predicate Matches(e: BlockEvent, filters: Filters) {
    && (filters.pallet.Some? ==> e.pallet == filters.pallet.value)
    && (filters.variant.Some? ==> e.name == filters.variant.value)
  }

  predicate Below(e: BlockEvent, cursor: Option<EventCursor>) {
    cursor.Some? ==> Lt(KeyOf(e), (cursor.value.block, cursor.value.index))
  }

  /** Wanted on a page: past the cursor and matching the filters. */
  function Wanted(cursor: Option<EventCursor>, filters: Filters): BlockEvent -> bool {
    (e: BlockEvent) => Below(e, cursor) && Matches(e, filters)
  }

  /** The filtered feed from `head`, below the cursor. */
  function FeedBelow(chain: Blocks, head: nat, cursor: Option<EventCursor>, filters: Filters): seq<BlockEvent> {
    Pick(Everything(chain, head), Wanted(cursor, filters))
  }

  // ---- one page ----

  function CursorAt(e: BlockEvent): EventCursor {
    EventCursor(e.blockNumber, ApplyExtrinsic, e.index)
  }

  function PageFrom(found: seq<BlockEvent>, count: nat): Page<BlockEvent> {
    if |found| > count then
      var items := found[..count];
      Page(items, if items == [] then None else Some(PrintEvent(CursorAt(items[|items| - 1]))), true)
    else Page(found, None, false)
  }

  /** The page for an already parsed cursor: at most `count.saturating_add(1)` events are looked at. */
  function PageOf(chain: Blocks, head: nat, count: nat, cursor: Option<EventCursor>, filters: Filters): Page<BlockEvent> {
    if count == 0 then EmptyPage()
    else PageFrom(Take(FeedBelow(chain, head, cursor, filters), SatAdd(count, 1, U32_MAX)), count)
  }

  /** The inner loop: one block's events, newest first, until the target is reached. */
  method CollectBlock(events: seq<BlockEvent>, cursor: Option<EventCursor>, filters: Filters,
                      target: nat, items: seq<BlockEvent>) returns (res: seq<BlockEvent>)
    requires |items| <= target
    ensures res == Take(items + Pick(events, Wanted(cursor, filters)), target) && |res| <= target
  {
    ghost var keep := Wanted(cursor, filters);
    hide Pick, Take;
    res := items;
    for k := 0 to |events|
      invariant |res| <= target
      invariant Take(res + Pick(events[k..], keep), target) == Take(items + Pick(events, keep), target)
    {
      var ev := events[k];
      PickHead(events, k, keep);
      ghost var rest := Pick(events[k + 1..], keep);
      if cursor.Some? && !Lt((ev.blockNumber, ev.index), (cursor.value.block, cursor.value.index)) {
        assert Pick(events[k..], keep) == rest;
        continue;
      }
      if !Matches(ev, filters) {
        assert Pick(events[k..], keep) == rest;
        continue;
      }
      if |res| >= target {
        TakeAppend(res, Pick(events[k..], keep), target);
        TakeShort(res, target);
        return;
      }
      assert res + ([ev] + rest) == res + [ev] + rest;
      res := res + [ev];
    }
    PickNone(events[|events|..], keep);
    assert res + [] == res;
    TakeShort(res, target);
  }

  /** The outer loop: blocks from `tip` down, until the target is reached or the genesis block is done. */
  method Collect(chain: Blocks, tip: nat, cursor: Option<EventCursor>, filters: Filters, target: nat)
    returns (items: seq<BlockEvent>)
    ensures items == Take(FeedBelow(chain, tip, cursor, filters), target)
  {
    hide FeedBelow, Take, Pick, Everything, Reversed, EventsOf;
    items := [];
    var block := tip;
    assert items + FeedBelow(chain, block, cursor, filters) == FeedBelow(chain, block, cursor, filters);
    while true
      invariant |items| <= target
      invariant Take(items + FeedBelow(chain, block, cursor, filters), target)
             == Take(FeedBelow(chain, tip, cursor, filters), target)
      decreases block
    {
      var events := MockEventsForBlock(chain, block);
      ghost var before := items;
      ghost var rest := if block == 0 then [] else FeedBelow(chain, block - 1, cursor, filters);
      FeedSplits(chain, block, cursor, filters);
      items := CollectBlock(Reversed(events), cursor, filters, target, items);
      TakeTwice(before, Pick(Reversed(events), Wanted(cursor, filters)), rest, target);
      if |items| >= target || block == 0 {
        if |items| >= target { TakeAppend(items, rest, target); } else { assert items + rest == items; }
        TakeShort(items, target);
        break;
      }
      block := block - 1;
    }
  }

  lemma FeedSplits(chain: Blocks, block: nat, cursor: Option<EventCursor>, filters: Filters)
    ensures FeedBelow(chain, block, cursor, filters)
         == Pick(Reversed(EventsOf(chain, block)), Wanted(cursor, filters))
            + if block == 0 then [] else FeedBelow(chain, block - 1, cursor, filters)
  {
    PickConcat(Reversed(EventsOf(chain, block)), if block == 0 then [] else Everything(chain, block - 1), Wanted(cursor, filters));
  }

  lemma TakeTwice<T>(a: seq<T>, b: seq<T>, c: seq<T>, n: nat)
    ensures Take(Take(a + b, n) + c, n) == Take(a + (b + c), n)
  {
    assert a + (b + c) == a + b + c;
  }

  method LatestEvents(chain: Blocks, head: nat, req: PageRequest, filters: Filters)
    returns (r: Result<Page<BlockEvent>, ParseError>)
    ensures req.count == 0 ==> r == Ok(EmptyPage())
    ensures req.count != 0 && req.cursor.None? ==> r == Ok(PageOf(chain, head, req.count, None, filters))
    ensures req.count != 0 && req.cursor.Some? ==> (r ==
      match ParseEvent(req.cursor.value)
      case Err(e) => Err(e)
      case Ok(c) => Ok(PageOf(chain, head, req.count, Some(c), filters)))
  {
    hide FeedBelow, ParseEvent, PrintEvent;
    if req.count == 0 { return Ok(EmptyPage()); }
    var cursor: Option<EventCursor> := None;
    if req.cursor.Some? {
      match ParseEvent(req.cursor.value) {
        case Err(e) => return Err(e);
        case Ok(c) => cursor := Some(c);
      }
    }
    var scanTip := match cursor case Some(c) => Min(c.block, head) case None => head;
    if cursor.Some? { ScanTipSuffices(chain, head, cursor.value, filters); }
    var target := SatAdd(req.count, 1, U32_MAX);
    var items := Collect(chain, scanTip, cursor, filters, target);
    var hasMore := |items| > req.count;
    if hasMore { items := items[..req.count]; }
    var nextCursor := if hasMore && |items| > 0 then Some(PrintEvent(CursorAt(items[|items| - 1]))) else None;
    return Ok(Page(items, nextCursor, hasMore));
  }

  // ---- facts about the feed ----

  lemma BlockDescends(chain: Blocks, block: nat)
    ensures Descending(Reversed(EventsOf(chain, block)), KeyOf)
    ensures forall e :: e in Reversed(EventsOf(chain, block)) ==> e.blockNumber == block
  {
    FlattenIndexes(block, chain(block).timestampMs, chain(block).extrinsics);
    hide Flatten;
    var events := EventsOf(chain, block);
    var here := Reversed(events);
    assert forall i :: 0 <= i < |here| ==> KeyOf(here[i]) == (block, |events| - 1 - i);
  }

  /** The feed is strictly descending, and holds the events of blocks up to its head. */
  lemma {:induction false} EverythingDescends(chain: Blocks, block: nat)
    ensures Descending(Everything(chain, block), KeyOf)
    ensures forall e :: e in Everything(chain, block) ==> e.blockNumber <= block
    decreases block
  {
    BlockDescends(chain, block);
    hide EventsOf, Reversed;
    if block > 0 {
      EverythingDescends(chain, block - 1);
      DescendingConcat(Reversed(EventsOf(chain, block)), Everything(chain, block - 1), KeyOf);
    } else {
      assert Everything(chain, 0) == Reversed(EventsOf(chain, 0));
    }
  }

  lemma {:induction false} EverythingMembers(chain: Blocks, head: nat, e: BlockEvent)
    ensures e in Everything(chain, head) <==> e.blockNumber <= head && e in EventsOf(chain, e.blockNumber)
    decreases head
  {
    hide EventsOf, Reversed;
    var here := EventsOf(chain, head);
    ReversedMembers(here, e);
    if e in here { EventsOfIndexes(chain, head, e); }
    if head > 0 {
      EverythingMembers(chain, head - 1, e);
    } else {
      assert Everything(chain, 0) == Reversed(here);
    }
  }

  /** The whole filtered feed: strictly descending, and exactly the matching events up to the head. */
  lemma FeedIsComplete(chain: Blocks, head: nat, filters: Filters)
    ensures Descending(FeedBelow(chain, head, None, filters), KeyOf)
    ensures forall e :: (e in FeedBelow(chain, head, None, filters) <==>
      e.blockNumber <= head && e in EventsOf(chain, e.blockNumber) && Matches(e, filters))
  {
    EverythingDescends(chain, head);
    PickDescending(Everything(chain, head), Wanted(None, filters), KeyOf);
    forall e ensures e in FeedBelow(chain, head, None, filters) <==>
      e.blockNumber <= head && e in EventsOf(chain, e.blockNumber) && Matches(e, filters)
    {
      PickMembers(Everything(chain, head), Wanted(None, filters), e);
      EverythingMembers(chain, head, e);
    }
  }

  /** Blocks above the cursor's hold nothing below it. */
  lemma {:induction false} ScanTipSuffices(chain: Blocks, head: nat, c: EventCursor, filters: Filters)
    ensures FeedBelow(chain, Min(c.block, head), Some(c), filters) == FeedBelow(chain, head, Some(c), filters)
    decreases head
  {
    hide EventsOf, Reversed, Pick, FeedBelow;
    if c.block < head {
      ScanTipSuffices(chain, head - 1, c, filters);
      FeedSplits(chain, head, Some(c), filters);
      BlockDescends(chain, head);
      PickNone(Reversed(EventsOf(chain, head)), Wanted(Some(c), filters));
    }
  }

  // ---- following the pages ----

  /** A cursor that came from the feed resumes right after its event. */
  lemma CursorResumes(chain: Blocks, head: nat, cursor: Option<EventCursor>, filters: Filters, i: nat)
    requires i < |FeedBelow(chain, head, cursor, filters)|
    ensures var feed := FeedBelow(chain, head, cursor, filters);
      FeedBelow(chain, head, Some(CursorAt(feed[i])), filters) == feed[i + 1..]
  {
    var all, feed := Everything(chain, head), FeedBelow(chain, head, cursor, filters);
    var wanted, next := Wanted(cursor, filters), Wanted(Some(CursorAt(feed[i])), filters);
    PickMembers(all, wanted, feed[i]);
    PickTwice(all, wanted, next);
    EverythingDescends(chain, head);
    PickDescending(all, wanted, KeyOf);
    forall x | x in feed ensures next(x) <==> Lt(KeyOf(x), KeyOf(feed[i])) {
      PickMembers(all, wanted, x);
    }
    PickBelow(feed, i, next, KeyOf);
  }

  lemma FeedKeysFit(chain: Blocks, head: nat, cursor: Option<EventCursor>, filters: Filters, e: BlockEvent)
    requires head <= U64_MAX && IndexesFit(chain)
    requires e in FeedBelow(chain, head, cursor, filters)
    ensures e.blockNumber <= U64_MAX && e.index <= U32_MAX
  {
    hide EventsOf;
    PickMembers(Everything(chain, head), Wanted(cursor, filters), e);
    EverythingMembers(chain, head, e);
    EventsOfIndexes(chain, e.blockNumber, e);
  }

  /** What one page is: the next `count` events, and a cursor that resumes after them iff there are more. */
  lemma PageIsExact(chain: Blocks, head: nat, count: nat, cursor: Option<EventCursor>, filters: Filters)
    requires head <= U64_MAX && IndexesFit(chain) && 0 < count < U32_MAX
    ensures var feed := FeedBelow(chain, head, cursor, filters);
      var page := PageOf(chain, head, count, cursor, filters);
      && page.items == Take(feed, count)
      && (page.hasMore <==> |feed| > count)
      && (page.hasMore ==>
            page.nextCursor == Some(PrintEvent(EventCursor(feed[count - 1].blockNumber, ApplyExtrinsic, feed[count - 1].index))))
      && (page.hasMore <==> page.nextCursor.Some?)
      && (page.hasMore ==>
            && ParseEvent(page.nextCursor.value).Ok?
            && FeedBelow(chain, head, Some(ParseEvent(page.nextCursor.value).value), filters) == feed[count..])
  {
    hide FeedBelow, ParseEvent, PrintEvent;
    var feed := FeedBelow(chain, head, cursor, filters);
    if |feed| > count {
      assert feed[..count + 1][..count] == feed[..count];
      var last := feed[count - 1];
      FeedKeysFit(chain, head, cursor, filters, last);
      EventRoundTrip(CursorAt(last));
      CursorResumes(chain, head, cursor, filters, count - 1);
    }
  }

  /** `has_more` is exact except when the request asks for the largest count and the feed is longer. */
  lemma HasMoreExactIff(chain: Blocks, head: nat, count: nat, cursor: Option<EventCursor>, filters: Filters)
    requires 0 < count <= U32_MAX
    ensures (PageOf(chain, head, count, cursor, filters).hasMore <==> |FeedBelow(chain, head, cursor, filters)| > count)
       <==> !(count == U32_MAX && |FeedBelow(chain, head, cursor, filters)| > U32_MAX)
  {
  }

  /** The pages one gets by following `next_cursor`. */
  function Walk(chain: Blocks, head: nat, count: nat, cursor: Option<EventCursor>, filters: Filters): seq<Page<BlockEvent>>
    requires head <= U64_MAX && IndexesFit(chain) && 0 < count < U32_MAX
    decreases |FeedBelow(chain, head, cursor, filters)|
  {
    var page := PageOf(chain, head, count, cursor, filters);
    PageIsExact(chain, head, count, cursor, filters);
    if page.nextCursor.None? then [page]
    else [page] + Walk(chain, head, count, Some(ParseEvent(page.nextCursor.value).value), filters)
  }

  function ItemsOf(pages: seq<Page<BlockEvent>>): seq<BlockEvent> {
    if pages == [] then [] else pages[0].items + ItemsOf(pages[1..])
  }

  /** Every page but the last is full, and the last alone says there is no more. */
  ghost predicate WellPaged(pages: seq<Page<BlockEvent>>, count: nat) {
    && pages != []
    && !pages[|pages| - 1].hasMore
    && forall i :: 0 <= i < |pages| - 1 ==> pages[i].hasMore && |pages[i].items| == count
  }

  lemma PrependPage(page: Page<BlockEvent>, rest: seq<Page<BlockEvent>>, count: nat)
    requires WellPaged(rest, count) && page.hasMore && |page.items| == count
    ensures WellPaged([page] + rest, count) && ItemsOf([page] + rest) == page.items + ItemsOf(rest)
  {
    assert ([page] + rest)[1..] == rest;
  }

  /**
   * Walking pages is exact: the pages, one after the other, are the filtered feed below the cursor
   * they started from, every page but the last is full and the last alone says there is no more.
   */
  lemma {:induction false} WalkIsFeed(chain: Blocks, head: nat, count: nat, cursor: Option<EventCursor>, filters: Filters)
    requires head <= U64_MAX && IndexesFit(chain) && 0 < count < U32_MAX
    ensures ItemsOf(Walk(chain, head, count, cursor, filters)) == FeedBelow(chain, head, cursor, filters)
    ensures WellPaged(Walk(chain, head, count, cursor, filters), count)
    decreases |FeedBelow(chain, head, cursor, filters)|
  {
    hide FeedBelow, PageOf, ParseEvent;
    var feed := FeedBelow(chain, head, cursor, filters);
    var page := PageOf(chain, head, count, cursor, filters);
    PageIsExact(chain, head, count, cursor, filters);
    if page.nextCursor.None? {
      assert [page][1..] == [] && page.items + [] == page.items;
    } else {
      var next := Some(ParseEvent(page.nextCursor.value).value);
      WalkIsFeed(chain, head, count, next, filters);
      hide ItemsOf, WellPaged;
      PrependPage(page, Walk(chain, head, count, next, filters), count);
      assert feed == feed[..count] + feed[count..];
    }
  }

  /** From no cursor: the whole filtered feed, newest first, every event once. */
  lemma WalkEnumeratesFeed(chain: Blocks, head: nat, count: nat, filters: Filters)
    requires head <= U64_MAX && IndexesFit(chain) && 0 < count < U32_MAX
    ensures var all := ItemsOf(Walk(chain, head, count, None, filters));
      && Descending(all, KeyOf)
      && forall e :: (e in all <==> e.blockNumber <= head && e in EventsOf(chain, e.blockNumber) && Matches(e, filters))
  {
    WalkIsFeed(chain, head, count, None, filters);
    FeedIsComplete(chain, head, filters);
  }

  /**
   * The same, down to the blocks: an event is shown iff an extrinsic of a block up to the head emits it, and
   * it has the pallet and the name asked for.
   */
  lemma WalkShowsEmitted(chain: Blocks, head: nat, count: nat, filters: Filters, e: BlockEvent)
    requires head <= U64_MAX && IndexesFit(chain) && 0 < count < U32_MAX
    ensures e in ItemsOf(Walk(chain, head, count, None, filters)) <==>
      && e.blockNumber <= head
      && Emitted(e.blockNumber, chain(e.blockNumber).timestampMs, chain(e.blockNumber).extrinsics, e)
      && (filters.pallet == None || filters.pallet == Some(e.pallet))
      && (filters.variant == None || filters.variant == Some(e.name))
  {
    WalkEnumeratesFeed(chain, head, count, filters);
    FlattenIff(e.blockNumber, chain(e.blockNumber).timestampMs, chain(e.blockNumber).extrinsics, e);
    hide Walk, Flatten, Emitted, ItemsOf;
  }
}
