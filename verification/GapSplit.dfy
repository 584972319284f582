/**
 * The decomposition of the missing blocks of `[0, head]` into backfill chunks
 * (`split_gaps_into_chunks` and `push_chunked` of src/indexer/backfill.rs).
 *
 * `Split` is the specification of the two loops: the gaps the outer loop finds, each cut into chunks
 * by the inner one. The lemmas show that it partitions the missing blocks, and for which heads.
 */
module GapSplit {
  import opened Ints
  import Arith

  /** Inclusive block range. */
  type Range = (nat, nat)

  // ---- the loops, as functions ----

  function PushChunked(lo: nat, hi: nat, size: nat): seq<Range>
    requires 0 < size && lo <= hi <= U64_MAX
    decreases hi - lo
  {
    var end := Min(SatAdd(lo, size - 1, U64_MAX), hi);
    if end == hi then [(lo, end)] else [(lo, end)] + PushChunked(end + 1, hi, size)
  }

  predicate Skipped(head: nat, cursor: nat, present: nat) {
    present > head || present < cursor
  }

  /** The gaps found before the cursor, and the cursor, once the present blocks are scanned. */
  function Scan(head: nat, existing: seq<nat>): (seq<Range>, nat)
    requires head <= U64_MAX
  {
    if existing == [] then ([], 0)
    else
      var n := |existing| - 1;
      var (gaps, cursor) := Scan(head, existing[..n]);
      var present := existing[n];
      if Skipped(head, cursor, present) then (gaps, cursor)
      else
        (if present > cursor then gaps + [(cursor, present - 1)] else gaps, SatAdd(present, 1, U64_MAX))
  }

  function Gaps(head: nat, existing: seq<nat>): seq<Range>
    requires head <= U64_MAX
  {
    var (gaps, cursor) := Scan(head, existing);
    if cursor <= head then gaps + [(cursor, head)] else gaps
  }

  predicate InRange(ranges: seq<Range>) {
    forall r :: r in ranges ==> r.0 <= r.1 <= U64_MAX
  }

  function ChunkAll(gaps: seq<Range>, size: nat): seq<Range>
    requires 0 < size && InRange(gaps)
  {
    if gaps == [] then []
    else
      var n := |gaps| - 1;
      ChunkAll(gaps[..n], size) + PushChunked(gaps[n].0, gaps[n].1, size)
  }

  function Split(head: nat, existing: seq<nat>, size: nat): seq<Range>
    requires 0 < size && head <= U64_MAX
  {
    GapsShape(head, existing);
    ChunkAll(Gaps(head, existing), size)
  }

  // ---- the loops, as the source runs them ----

  method PushChunkedLoop(out: seq<Range>, lo: nat, hi: nat, size: nat) returns (res: seq<Range>)
    requires 0 < size && lo <= hi <= U64_MAX
    ensures res == out + PushChunked(lo, hi, size)
  {
    var f := lo;
    res := out;
    while true
      invariant lo <= f <= hi
      invariant res + PushChunked(f, hi, size) == out + PushChunked(lo, hi, size)
      decreases hi - f
    {
      var end := Min(SatAdd(f, size - 1, U64_MAX), hi);
      ghost var before := res;
      res := res + [(f, end)];
      if end == hi {
        assert PushChunked(f, hi, size) == [(f, end)];
        break;
      }
      assert before + PushChunked(f, hi, size) == res + PushChunked(end + 1, hi, size);
      f := end + 1;
    }
  }

  method SplitGapsIntoChunks(head: nat, existing: seq<nat>, size: nat) returns (chunks: seq<Range>)
    requires 0 < size && head <= U64_MAX
    ensures chunks == Split(head, existing, size)
  {
    chunks := [];
    var cursor: nat := 0;
    assert ChunkAll([], size) == [];
    hide ChunkAll, PushChunked;
    ghost var gaps: seq<Range> := [];
    for i := 0 to |existing|
      invariant (gaps, cursor) == Scan(head, existing[..i])
      invariant InRange(gaps) && chunks == ChunkAll(gaps, size)
    {
      assert existing[..i + 1][..i] == existing[..i];
      var present := existing[i];
      if present > head || present < cursor {
        continue;
      }
      if present > cursor {
        chunks := PushChunkedLoop(chunks, cursor, present - 1, size);
        ChunkAllSnoc(gaps, (cursor, present - 1), size);
        gaps := gaps + [(cursor, present - 1)];
      }
      cursor := SatAdd(present, 1, U64_MAX);
    }
    assert existing[..|existing|] == existing;
    if cursor <= head {
      chunks := PushChunkedLoop(chunks, cursor, head, size);
      ChunkAllSnoc(gaps, (cursor, head), size);
    }
  }

  // ---- what a list of ranges means ----

  ghost predicate Covers(ranges: seq<Range>, b: nat) {
    exists i :: 0 <= i < |ranges| && ranges[i].0 <= b <= ranges[i].1
  }

  /** The ranges lie inside `[lo, hi]` and ascend without overlap. */
  ghost predicate Tiled(ranges: seq<Range>, lo: int, hi: int) {
    && (forall i :: 0 <= i < |ranges| ==> lo <= ranges[i].0 <= ranges[i].1 <= hi)
    && (forall i, j :: 0 <= i < j < |ranges| ==> ranges[i].1 < ranges[j].0)
  }

  ghost predicate NoWider(ranges: seq<Range>, size: nat) {
    forall i :: 0 <= i < |ranges| ==> ranges[i].1 - ranges[i].0 < size
  }

  ghost predicate Ascending(s: seq<nat>) {
    forall i, j :: 0 <= i < j < |s| ==> s[i] <= s[j]
  }

  /** The one head at which the saturating cursor re-offers a block that is present. */
  ghost predicate SaturatedHead(head: nat, existing: seq<nat>) {
    head == U64_MAX && U64_MAX in existing
  }

  lemma CoversConcat(a: seq<Range>, c: seq<Range>, b: nat)
    ensures Covers(a + c, b) <==> Covers(a, b) || Covers(c, b)
  {
    if Covers(a, b) {
      var i :| 0 <= i < |a| && a[i].0 <= b <= a[i].1;
      assert (a + c)[i] == a[i];
    }
    if Covers(c, b) {
      var i :| 0 <= i < |c| && c[i].0 <= b <= c[i].1;
      assert (a + c)[|a| + i] == c[i];
    }
  }

  lemma CoversOne(r: Range, b: nat)
    ensures Covers([r], b) <==> r.0 <= b <= r.1
  {
    if r.0 <= b <= r.1 { assert [r][0] == r; }
  }

  lemma TiledConcat(a: seq<Range>, c: seq<Range>, lo: int, mid: int, hi: int)
    requires lo <= mid <= hi + 1
    requires Tiled(a, lo, mid - 1) && Tiled(c, mid, hi)
    ensures Tiled(a + c, lo, hi)
  {
  }

  // ---- the gaps ----

  lemma AppendGap(gaps: seq<Range>, lo: nat, hi: nat)
    requires Tiled(gaps, 0, lo - 1) && lo <= hi
    ensures Tiled(gaps + [(lo, hi)], 0, hi)
    ensures forall b: nat :: (Covers(gaps + [(lo, hi)], b) <==> Covers(gaps, b) || lo <= b <= hi)
  {
    TiledConcat(gaps, [(lo, hi)], 0, lo, hi);
    forall b: nat ensures Covers(gaps + [(lo, hi)], b) <==> Covers(gaps, b) || lo <= b <= hi {
      CoversConcat(gaps, [(lo, hi)], b);
      CoversOne((lo, hi), b);
    }
  }

  /** Ascending, disjoint gaps that leave no missing block out, whatever the order of the input. */
  lemma {:induction false} ScanShape(head: nat, existing: seq<nat>)
    requires head <= U64_MAX
    ensures var (gaps, cursor) := Scan(head, existing);
      && cursor <= Min(head + 1, U64_MAX)
      && Tiled(gaps, 0, cursor - 1)
      && forall b: nat :: b < cursor && b !in existing ==> Covers(gaps, b)
    decreases |existing|
  {
    if existing != [] {
      var n := |existing| - 1;
      var front, present := existing[..n], existing[n];
      assert existing == front + [present];
      ScanShape(head, front);
      var (gaps, cursor) := Scan(head, front);
      if !Skipped(head, cursor, present) && present > cursor {
        AppendGap(gaps, cursor, present - 1);
      }
    }
  }

  lemma GapsShape(head: nat, existing: seq<nat>)
    requires head <= U64_MAX
    ensures Tiled(Gaps(head, existing), 0, head) && InRange(Gaps(head, existing))
    ensures forall b: nat :: b <= head && b !in existing ==> Covers(Gaps(head, existing), b)
  {
    ScanShape(head, existing);
    var (gaps, cursor) := Scan(head, existing);
    if cursor <= head { AppendGap(gaps, cursor, head); }
  }

  /** For ascending input the cursor stands one past the last scanned block, above all of them. */
  lemma {:induction false} ScanCursor(head: nat, existing: seq<nat>)
    requires head <= U64_MAX && Ascending(existing) && !SaturatedHead(head, existing)
    ensures var cursor := Scan(head, existing).1;
      && (cursor == 0 || cursor - 1 in existing)
      && forall b :: b in existing && b <= head ==> b < cursor
    decreases |existing|
  {
    if existing != [] {
      var n := |existing| - 1;
      var front, present := existing[..n], existing[n];
      ScanCursor(head, front);
      var cursor := Scan(head, front).1;
      var cursor' := Scan(head, existing).1;
      forall b | b in existing && b <= head ensures b < cursor' {
        var i :| 0 <= i < |existing| && existing[i] == b;
        assert b <= present && present in existing;
        if i < n {
          assert front[i] == b;
          assert b in front;
        }
      }
    }
  }

  /** For ascending input no gap holds a present block. */
  lemma {:induction false} ScanOnlyMissing(head: nat, existing: seq<nat>, b: nat)
    requires head <= U64_MAX && Ascending(existing) && !SaturatedHead(head, existing)
    requires Covers(Scan(head, existing).0, b)
    ensures b !in existing
    decreases |existing|
  {
    var n := |existing| - 1;
    var front, present := existing[..n], existing[n];
    assert existing == front + [present];
    ScanShape(head, front);
    ScanCursor(head, front);
    var (gaps, cursor) := Scan(head, front);
    assert Scan(head, existing).0 == gaps
      || (cursor < present && Scan(head, existing).0 == gaps + [(cursor, present - 1)]);
    hide Scan, NoWider;
    if Covers(gaps, b) {
      ScanOnlyMissing(head, front, b);
      assert b < cursor && cursor - 1 in front;
      var i :| 0 <= i < n && front[i] == cursor - 1;
      assert existing[i] <= present;
    } else {
      CoversConcat(gaps, [(cursor, present - 1)], b);
      CoversOne((cursor, present - 1), b);
    }
  }

  /** A maximal run of missing blocks: each end touches a present block or an end of `[0, head]`. */
  ghost predicate MaximalRun(r: Range, head: nat, existing: seq<nat>) {
    && r.0 <= r.1 <= head
    && (forall b :: r.0 <= b <= r.1 ==> b !in existing)
    && (r.0 == 0 || r.0 - 1 in existing)
    && (r.1 == head || r.1 + 1 in existing)
  }

  lemma {:induction false} ScanBounds(head: nat, existing: seq<nat>, r: Range)
    requires head <= U64_MAX && Ascending(existing) && !SaturatedHead(head, existing)
    requires r in Scan(head, existing).0
    ensures (r.0 == 0 || r.0 - 1 in existing) && r.1 + 1 in existing
    decreases |existing|
  {
    var n := |existing| - 1;
    var front, present := existing[..n], existing[n];
    var (gaps, cursor) := Scan(head, front);
    ScanCursor(head, front);
    if r in gaps { ScanBounds(head, front, r); }
  }

  /** For ascending input the gaps are the maximal runs of missing blocks, all of them. */
  lemma GapsAreMaximalRuns(head: nat, existing: seq<nat>)
    requires head <= U64_MAX && Ascending(existing) && !SaturatedHead(head, existing)
    ensures forall r :: r in Gaps(head, existing) ==> MaximalRun(r, head, existing)
    ensures forall b: nat :: (Covers(Gaps(head, existing), b) <==> b <= head && b !in existing)
  {
    var gaps := Gaps(head, existing);
    GapsShape(head, existing);
    ScanCursor(head, existing);
    var (inner, cursor) := Scan(head, existing);
    forall b: nat | Covers(gaps, b) ensures b !in existing {
      CoversConcat(inner, [(cursor, head)], b);
      CoversOne((cursor, head), b);
      if Covers(inner, b) { ScanOnlyMissing(head, existing, b); }
    }
    forall r | r in gaps ensures MaximalRun(r, head, existing) {
      forall b | r.0 <= b <= r.1 ensures b !in existing {
        var i :| 0 <= i < |gaps| && gaps[i] == r;
        assert Covers(gaps, b);
      }
      if r in inner { ScanBounds(head, existing, r); }
    }
  }

  // ---- cutting the gaps ----

  /** One gap is tiled end to end: exactly its blocks, in order, no chunk too wide. */
  lemma {:induction false} PushChunkedTiles(lo: nat, hi: nat, size: nat)
    requires 0 < size && lo <= hi <= U64_MAX
    ensures Tiled(PushChunked(lo, hi, size), lo, hi) && NoWider(PushChunked(lo, hi, size), size)
    ensures forall b: nat :: (Covers(PushChunked(lo, hi, size), b) <==> lo <= b <= hi)
    decreases hi - lo
  {
    var end := Min(SatAdd(lo, size - 1, U64_MAX), hi);
    if end == hi {
      forall b: nat { CoversOne((lo, end), b); }
    } else {
      var rest := PushChunked(end + 1, hi, size);
      PushChunkedTiles(end + 1, hi, size);
      TiledConcat([(lo, end)], rest, lo, end + 1, hi);
      forall b: nat ensures Covers([(lo, end)] + rest, b) <==> lo <= b <= hi {
        CoversConcat([(lo, end)], rest, b);
        CoversOne((lo, end), b);
      }
    }
  }

  /** Chunks needed for one gap: its width over `size`, rounded up. */
  function CeilDiv(width: nat, size: nat): nat
    requires 0 < size
  {
    (width + size - 1) / size
  }

  lemma {:induction false} PushChunkedCount(lo: nat, hi: nat, size: nat)
    requires 0 < size && lo <= hi <= U64_MAX
    ensures |PushChunked(lo, hi, size)| == CeilDiv(hi - lo + 1, size)
    decreases hi - lo
  {
    var end := Min(SatAdd(lo, size - 1, U64_MAX), hi);
    if end == hi {
      Arith.DivUnique(hi - lo + size, size, 1);
    } else {
      PushChunkedCount(end + 1, hi, size);
      Arith.DivAddOne(hi - end + size - 1, size);
    }
  }

  lemma ChunkAllSnoc(gaps: seq<Range>, gap: Range, size: nat)
    requires 0 < size && InRange(gaps) && gap.0 <= gap.1 <= U64_MAX
    ensures InRange(gaps + [gap])
    ensures ChunkAll(gaps + [gap], size) == ChunkAll(gaps, size) + PushChunked(gap.0, gap.1, size)
  {
    assert (gaps + [gap])[..|gaps|] == gaps;
  }

  /** Cutting keeps the blocks, the order and the disjointness, and makes the ranges narrow. */
  lemma {:induction false} ChunkAllTiles(gaps: seq<Range>, size: nat, hi: int)
    requires 0 < size && InRange(gaps) && Tiled(gaps, 0, hi) && -1 <= hi
    ensures Tiled(ChunkAll(gaps, size), 0, hi) && NoWider(ChunkAll(gaps, size), size)
    ensures forall b: nat :: (Covers(ChunkAll(gaps, size), b) <==> Covers(gaps, b))
    decreases |gaps|
  {
    if gaps != [] {
      var n := |gaps| - 1;
      var front, gap := gaps[..n], gaps[n];
      assert gaps == front + [gap];
      ChunkAllTiles(front, size, gap.0 as int - 1);
      PushChunkedTiles(gap.0, gap.1, size);
      var last := PushChunked(gap.0, gap.1, size);
      assert Tiled(last, gap.0, hi);
      TiledConcat(ChunkAll(front, size), last, 0, gap.0, hi);
      forall b: nat ensures Covers(ChunkAll(gaps, size), b) <==> Covers(gaps, b) {
        CoversConcat(ChunkAll(front, size), last, b);
        CoversConcat(front, [gap], b);
        CoversOne(gap, b);
      }
    }
  }

  function SumCeil(gaps: seq<Range>, size: nat): nat
    requires 0 < size && InRange(gaps)
  {
    if gaps == [] then 0
    else
      var n := |gaps| - 1;
      SumCeil(gaps[..n], size) + CeilDiv(gaps[n].1 - gaps[n].0 + 1, size)
  }

  lemma {:induction false} ChunkAllCount(gaps: seq<Range>, size: nat)
    requires 0 < size && InRange(gaps)
    ensures |ChunkAll(gaps, size)| == SumCeil(gaps, size)
    decreases |gaps|
  {
    if gaps != [] {
      var n := |gaps| - 1;
      ChunkAllCount(gaps[..n], size);
      PushChunkedCount(gaps[n].0, gaps[n].1, size);
    }
  }

  // ---- the whole split ----

  /**
   * The chunks ascend, do not overlap and are at most `size` wide; every missing block is in one of
   * them whatever the order of the input.
   */
  lemma SplitTilesAndCovers(head: nat, existing: seq<nat>, size: nat)
    requires 0 < size && head <= U64_MAX
    ensures Tiled(Split(head, existing, size), 0, head) && NoWider(Split(head, existing, size), size)
    ensures forall b: nat :: b <= head && b !in existing ==> Covers(Split(head, existing, size), b)
  {
    GapsShape(head, existing);
    ChunkAllTiles(Gaps(head, existing), size, head);
  }

  lemma ScanStopsAtMax(existing: seq<nat>)
    ensures Covers(Gaps(U64_MAX, existing), U64_MAX)
  {
    ScanShape(U64_MAX, existing);
    var (gaps, cursor) := Scan(U64_MAX, existing);
    AppendGap(gaps, cursor, U64_MAX);
  }

  /**
   * For ascending input the chunks hold exactly the missing blocks, unless the head is the largest
   * u64 and already present; then, and only then, a present block is offered again. Seeding never
   * passes such a list: at that head its query finds no block at all (`ChunkQueue.PlanExactIff`).
   */
  lemma SplitExactIffNotSaturated(head: nat, existing: seq<nat>, size: nat)
    requires 0 < size && head <= U64_MAX && Ascending(existing)
    ensures (forall b: nat :: (Covers(Split(head, existing, size), b) <==> b <= head && b !in existing))
       <==> !SaturatedHead(head, existing)
  {
    GapsShape(head, existing);
    ChunkAllTiles(Gaps(head, existing), size, head);
    if SaturatedHead(head, existing) {
      ScanStopsAtMax(existing);
      assert Covers(Split(head, existing, size), U64_MAX);
    } else {
      GapsAreMaximalRuns(head, existing);
    }
  }

  /**
   * The number of chunks is the sum over the gaps of `ceil(gap / size)`, where the gaps are the
   * maximal runs of missing blocks.
   */
  lemma SplitCount(head: nat, existing: seq<nat>, size: nat)
    requires 0 < size && head <= U64_MAX && Ascending(existing) && !SaturatedHead(head, existing)
    ensures forall r :: r in Gaps(head, existing) ==> MaximalRun(r, head, existing)
    ensures forall b: nat :: (Covers(Gaps(head, existing), b) <==> b <= head && b !in existing)
    ensures InRange(Gaps(head, existing))
    ensures |Split(head, existing, size)| == SumCeil(Gaps(head, existing), size)
  {
    GapsShape(head, existing);
    GapsAreMaximalRuns(head, existing);
    ChunkAllCount(Gaps(head, existing), size);
  }
}
