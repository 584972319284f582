/**
 * The `backfill_chunks` work queue (`seed_chunks`, `claim_chunk`, `mark_chunk_done`,
 * `mark_chunk_failed` and `open_chunk_count` of src/indexer/backfill.rs).
 *
 * A chunk's id is its position: ids are handed out in insertion order and rows are never deleted.
 */
module ChunkQueue {
  import opened Wrappers
  import opened Collections
  import opened Ints
  import opened GapSplit

  datatype Status = Pending | Running(leaseUntil: Option<nat>) | Done
  datatype Chunk = Chunk(lo: nat, hi: nat, status: Status)

  /** Five minutes, in the seconds of `now`. */
  const LEASE_SECS: nat := 300

  // ---- the statements, as functions ----

  predicate Claimable(chunk: Chunk, now: nat) {
    match chunk.status
    case Pending => true
    case Running(lease) => lease.None? || lease.value < now
    case Done => false
  }

  /** No worker may take it: it is done, or its lease has not run out. */
  predicate Taken(chunk: Chunk, now: nat) {
    || chunk.status == Done
    || (chunk.status.Running? && chunk.status.leaseUntil.Some? && now <= chunk.status.leaseUntil.value)
  }

  predicate HasRange(queue: seq<Chunk>, r: Range) {
    exists i :: 0 <= i < |queue| && queue[i].lo == r.0 && queue[i].hi == r.1
  }

  /**
   * The indexed block numbers up to the head, ascending, as the query reads them: it compares with the
   * head as an i64, which is negative from 2^63 on, and then finds none.
   */
  function IndexedUpTo(blocks: set<nat>, head: nat): seq<nat> {
    if AsI64(head) < 0 then [] else Below(blocks, AsI64(head) + 1)
  }

  /** The missing ranges of `[0, head]`, given the indexed block numbers. */
  function PlanFor(blocks: set<nat>, head: nat, size: nat): seq<Range>
    requires 0 < size && head <= U64_MAX
  {
    Split(head, IndexedUpTo(blocks, head), size)
  }

  /** One pending row per range, unless that range has a row already. */
  function InsertRanges(queue: seq<Chunk>, ranges: seq<Range>): seq<Chunk>
    decreases |ranges|
  {
    if ranges == [] then queue
    else
      var r := ranges[0];
      InsertRanges(if HasRange(queue, r) then queue else queue + [Chunk(r.0, r.1, Pending)], ranges[1..])
  }

  function SetStatus(queue: seq<Chunk>, id: nat, status: Status): seq<Chunk> {
    if id < |queue| then queue[id := queue[id].(status := status)] else queue
  }

  function OpenCount(queue: seq<Chunk>): nat {
    if queue == [] then 0
    else OpenCount(queue[..|queue| - 1]) + if queue[|queue| - 1].status.Done? then 0 else 1
  }

  // ---- the statements, as the source issues them ----

  class Queue {
    var chunks: seq<Chunk>

    constructor ()
      ensures chunks == []
    {
      chunks := [];
    }

    /** `blocks` are the indexed block numbers. Returns the number of new rows. */
    method SeedChunks(blocks: set<nat>, head: nat, size: nat) returns (inserted: nat)
      requires 0 < size && head <= U64_MAX
      modifies this
      ensures chunks == InsertRanges(old(chunks), PlanFor(blocks, head, size))
      ensures inserted == |chunks| - |old(chunks)|
    {
      var existing := IndexedUpTo(blocks, head);
      var ranges := SplitGapsIntoChunks(head, existing, size);
      inserted := 0;
      for i := 0 to |ranges|
        invariant InsertRanges(chunks, ranges[i..]) == InsertRanges(old(chunks), ranges)
        invariant inserted == |chunks| - |old(chunks)|
      {
        assert ranges[i..][1..] == ranges[i + 1..];
        if !HasRange(chunks, ranges[i]) {
          chunks := chunks + [Chunk(ranges[i].0, ranges[i].1, Pending)];
          inserted := inserted + 1;
        }
      }
      assert ranges[|ranges|..] == [];
    }

    /**
     * Claims the claimable chunk with the smallest id among those no peer has locked. `locked` are
     * the rows other transactions hold at that moment.
     */
    method ClaimChunk(now: nat, locked: set<nat>) returns (claimed: Option<nat>)
      modifies this
      ensures claimed.None? ==> chunks == old(chunks)
      ensures claimed.None? <==> forall i :: 0 <= i < |old(chunks)| && i !in locked ==> Taken(old(chunks)[i], now)
      ensures claimed.Some? ==>
        var id := claimed.value;
        && id < |old(chunks)| && id !in locked && !Taken(old(chunks)[id], now)
        && (forall i :: 0 <= i < id && i !in locked ==> Taken(old(chunks)[i], now))
        && chunks == old(chunks)[id := old(chunks)[id].(status := Running(Some(now + 300)))]
    {
      for i := 0 to |chunks|
        invariant chunks == old(chunks)
        invariant forall k :: 0 <= k < i && k !in locked ==> !Claimable(chunks[k], now)
      {
        if i !in locked && Claimable(chunks[i], now) {
          chunks := SetStatus(chunks, i, Running(Some(now + LEASE_SECS)));
          return Some(i);
        }
      }
      return None;
    }

    /** Ownership is not checked. */
    method MarkChunkDone(id: nat)
      modifies this
      ensures chunks == SetStatus(old(chunks), id, Done)
    {
      if id < |chunks| { chunks := chunks[id := chunks[id].(status := Done)]; }
    }

    /** Ownership is not checked. */
    method MarkChunkFailed(id: nat)
      modifies this
      ensures chunks == SetStatus(old(chunks), id, Pending)
    {
      if id < |chunks| { chunks := chunks[id := chunks[id].(status := Pending)]; }
    }

    method OpenChunkCount() returns (count: nat)
      ensures count == |set i | 0 <= i < |chunks| && (chunks[i].status.Pending? || chunks[i].status.Running?)|
    {
      OpenCountIs(chunks);
      count := 0;
      for i := 0 to |chunks|
        invariant count == OpenCount(chunks[..i])
      {
        assert chunks[..i + 1][..i] == chunks[..i];
        if chunks[i].status.Pending? || chunks[i].status.Running? { count := count + 1; }
      }
      assert chunks[..|chunks|] == chunks;
    }
  }

  // ---- facts ----

  /** The open count is the number of chunks that are pending or running. */
  lemma {:induction false} OpenCountIs(queue: seq<Chunk>)
    ensures OpenCount(queue) == |set i | 0 <= i < |queue| && (queue[i].status.Pending? || queue[i].status.Running?)|
    decreases |queue|
  {
    if queue != [] {
      var n := |queue| - 1;
      var front := queue[..n];
      OpenCountIs(front);
      var before := set i | 0 <= i < |front| && (front[i].status.Pending? || front[i].status.Running?);
      var all := set i | 0 <= i < |queue| && (queue[i].status.Pending? || queue[i].status.Running?);
      assert all == before + if queue[n].status.Done? then {} else {n};
    }
  }

  /** Every block up to the head is indexed or planned, and every planned range is a real one. */
  lemma PlanCovers(blocks: set<nat>, head: nat, size: nat)
    requires 0 < size && head <= U64_MAX
    ensures forall b: nat :: b <= head && b !in blocks ==> Covers(PlanFor(blocks, head, size), b)
    ensures forall r :: r in PlanFor(blocks, head, size) ==> r.0 <= r.1 <= head
  {
    SplitTilesAndCovers(head, IndexedUpTo(blocks, head), size);
  }

  /**
   * The planned ranges hold exactly the missing blocks iff the head fits an i64 or no block up to it is
   * indexed. So the head at which the split saturates is planned as if nothing were indexed.
   */
  lemma PlanExactIff(blocks: set<nat>, head: nat, size: nat)
    requires 0 < size && head <= U64_MAX
    ensures (forall b: nat :: Covers(PlanFor(blocks, head, size), b) <==> b <= head && b !in blocks)
       <==> head < TWO_63 || forall b :: b in blocks ==> head < b
  {
    hide Split, Covers;
    SplitExactIffNotSaturated(head, IndexedUpTo(blocks, head), size);
  }

  /** No two rows describe the same range. */
  ghost predicate UniqueRanges(queue: seq<Chunk>) {
    forall i, j :: 0 <= i < j < |queue| ==> (queue[i].lo, queue[i].hi) != (queue[j].lo, queue[j].hi)
  }

  lemma {:induction false} InsertRangesExtends(queue: seq<Chunk>, ranges: seq<Range>)
    ensures queue <= InsertRanges(queue, ranges)
    ensures forall i :: |queue| <= i < |InsertRanges(queue, ranges)| ==> (
      && InsertRanges(queue, ranges)[i].status == Pending
      && (InsertRanges(queue, ranges)[i].lo, InsertRanges(queue, ranges)[i].hi) in ranges)
    ensures forall k :: 0 <= k < |ranges| ==> HasRange(InsertRanges(queue, ranges), ranges[k])
    ensures UniqueRanges(queue) ==> UniqueRanges(InsertRanges(queue, ranges))
    decreases |ranges|
  {
    if ranges != [] {
      var r := ranges[0];
      var queue' := if HasRange(queue, r) then queue else queue + [Chunk(r.0, r.1, Pending)];
      InsertRangesExtends(queue', ranges[1..]);
      var res := InsertRanges(queue, ranges);
      assert HasRange(queue', r) by {
        if !HasRange(queue, r) { assert queue'[|queue|].lo == r.0 && queue'[|queue|].hi == r.1; }
      }
      var i :| 0 <= i < |queue'| && queue'[i].lo == r.0 && queue'[i].hi == r.1;
      assert res[i] == queue'[i];
      assert HasRange(res, r);
      forall k | 0 <= k < |ranges| ensures HasRange(res, ranges[k]) {
        if k > 0 { assert ranges[k] == ranges[1..][k - 1]; }
      }
    }
  }

  lemma {:induction false} NothingOpenMeansAllDone(queue: seq<Chunk>)
    ensures OpenCount(queue) == 0 <==> forall i :: 0 <= i < |queue| ==> queue[i].status.Done?
  {
    if queue != [] {
      NothingOpenMeansAllDone(queue[..|queue| - 1]);
    }
  }
}
