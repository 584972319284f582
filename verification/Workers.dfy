/**
 * The worker loops (`LiveWorker::run` of src/indexer/live.rs, `BackfillWorker::run` and
 * `index_chunk` of src/indexer/backfill.rs): one turn of each loop, and the steps of the protocol
 * that a turn amounts to.
 */
module Workers {
  import opened Wrappers
  import opened Collections
  import opened Ints
  import opened ChunkQueue
  import opened Chain
  import opened Sink
  import Ats
  import KeyedRows
  import opened Indexer

  /**
   * Indexing `next..=hi` in order until a block fails: the tables, and the first block not indexed.
   * `faults` are the blocks whose RPC calls or connection fail during this turn.
   */
  function Advance(c: Chain, t: Tables, next: nat, hi: nat, faults: set<nat>): (Tables, nat)
    decreases hi + 1 - next
  {
    if next > hi || next in faults then (t, next)
    else
      match Commit(c, next, t)
      case None => (t, next)
      case Some(t') => Advance(c, t', next + 1, hi, faults)
  }

  function LiveStart(last: Option<nat>, head: nat): nat {
    match last case Some(x) => SatAdd(x, 1, U64_MAX) case None => head
  }

  // ---- what a run of commits amounts to ----

  /** The blocks `lo..end - 1` committed in order; None if one of them cannot be. */
  function CommitRange(c: Chain, t: Tables, lo: nat, end: nat): Option<Tables>
    decreases end - lo
  {
    if lo >= end then Some(t)
    else
      match Commit(c, lo, t)
      case None => None
      case Some(t') => CommitRange(c, t', lo + 1, end)
  }

  lemma CommitAddsBlock(c: Chain, n: nat, t: Tables)
    requires Commit(c, n, t).Some?
    ensures Commit(c, n, t).value.rows.blocks.Keys == t.rows.blocks.Keys + {n}
  {
    hide Ats.ApplyAts, Ats.Project, AccountsAfter;
    KeyedRows.InsertAbsentKeys(t.rows.blocks, BlockRows(c, n));
    assert KeyedRows.KeysOf(BlockRows(c, n)) == {n} by {
      assert BlockRows(c, n)[0].0 == n;
    }
  }

  lemma {:induction false} CommitRangeAddsBlocks(c: Chain, t: Tables, lo: nat, end: nat)
    requires CommitRange(c, t, lo, end).Some?
    ensures forall b :: (b in CommitRange(c, t, lo, end).value.rows.blocks <==> b in t.rows.blocks || lo <= b < end)
    decreases end - lo
  {
    hide Commit;
    if lo < end {
      CommitAddsBlock(c, lo, t);
      CommitRangeAddsBlocks(c, Commit(c, lo, t).value, lo + 1, end);
    }
  }

  /** The loop commits exactly the blocks before the first one that is faulty or cannot be committed. */
  lemma {:induction false} AdvanceIs(c: Chain, t: Tables, next: nat, hi: nat, faults: set<nat>)
    ensures var (t', stop) := Advance(c, t, next, hi, faults);
      && next <= stop && (next <= hi + 1 ==> stop <= hi + 1)
      && CommitRange(c, t, next, stop) == Some(t')
      && (forall b :: next <= b < stop ==> b !in faults)
      && (stop <= hi ==> stop in faults || Commit(c, stop, t').None?)
    decreases hi + 1 - next
  {
    hide Commit;
    if next <= hi && next !in faults && Commit(c, next, t).Some? {
      AdvanceIs(c, Commit(c, next, t).value, next + 1, hi, faults);
    }
  }

  /** It gets through iff no block is faulty and all of them can be committed. */
  lemma {:induction false} AdvanceCompletesIff(c: Chain, t: Tables, next: nat, hi: nat, faults: set<nat>)
    ensures var stop := Advance(c, t, next, hi, faults).1;
      stop > hi <==> (forall b :: next <= b <= hi ==> b !in faults) && CommitRange(c, t, next, hi + 1).Some?
    decreases hi + 1 - next
  {
    hide Commit;
    if next <= hi && next !in faults && Commit(c, next, t).Some? {
      AdvanceCompletesIff(c, Commit(c, next, t).value, next + 1, hi, faults);
    }
  }

  lemma ChunkOutcome(c: Chain, t: Tables, lo: nat, hi: nat, faults: set<nat>)
    ensures var (t', stop) := Advance(c, t, lo, hi, faults);
      && (stop > hi <==> (forall b :: lo <= b <= hi ==> b !in faults) && CommitRange(c, t, lo, hi + 1).Some?)
      && (stop > hi ==> CommitRange(c, t, lo, hi + 1) == Some(t') && forall b :: lo <= b <= hi ==> b in t'.rows.blocks)
  {
    AdvanceIs(c, t, lo, hi, faults);
    AdvanceCompletesIff(c, t, lo, hi, faults);
    if lo <= hi + 1 { hide Advance; }
    hide Commit;
    if CommitRange(c, t, lo, hi + 1).Some? { CommitRangeAddsBlocks(c, t, lo, hi + 1); }
  }

  class LiveWorker {
    const db: Database
    var last: Option<nat>

    /** Boot: the stored cursor. */
    constructor (db: Database)
      ensures this.db == db && last == db.cursor
    {
      this.db := db;
      last := db.cursor;
    }

    /** One turn of the watch loop, for the head seen at its start. */
    method ObserveHead(c: Chain, head: nat, faults: set<nat>)
      requires NoDup(c.endowed) && head <= U64_MAX
      requires last == db.cursor && (last.Some? ==> last.value <= U64_MAX)
      modifies this, db
      ensures var start := LiveStart(old(last), head);
        var (tables, next) := Advance(c, old(db.tables), start, head, faults);
        && db.tables == tables
        && last == (if next > start then Some(next - 1) else old(last))
      ensures last == db.cursor
      ensures var next := if db.cursor.Some? then db.cursor.value + 1 else head;
        next <= head ==> next in faults || Commit(c, next, db.tables).None?
      ensures old(db.cursor).None? && db.cursor.Some? ==>
        db.cursor.value <= head && CommitRange(c, old(db.tables), head, head + 1) == Some(db.tables)
      ensures old(db.cursor).Some? && old(db.cursor).value < U64_MAX ==>
        && db.cursor.Some? && old(db.cursor).value <= db.cursor.value <= Max(old(db.cursor).value, head)
        && CommitRange(c, old(db.tables), old(db.cursor).value + 1, db.cursor.value + 1) == Some(db.tables)
      ensures db.cursor.None? ==> db.tables == old(db.tables)
      ensures old(db.cursor).None? && head !in faults && Commit(c, head, old(db.tables)).Some? ==>
        db.cursor == Some(head) && head in db.tables.rows.blocks
    {
      hide Commit;
      ghost var before := db.tables;
      AdvanceIs(c, before, LiveStart(last, head), head, faults);
      var start := match last case Some(x) => SatAdd(x, 1, U64_MAX) case None => head;
      var num := start;
      while num <= head
        invariant start <= num
        invariant Advance(c, db.tables, num, head, faults) == Advance(c, old(db.tables), start, head, faults)
        invariant last == db.cursor && (last.Some? ==> last.value <= num)
        invariant last == if num > start then Some(num - 1) else old(last)
        decreases head + 1 - num
      {
        var ok := db.IndexBlock(c, num, true, num in faults);
        if !ok { break; }
        last := Some(num);
        num := num + 1;
      }
      if start == head && num > head { CommitRangeAddsBlocks(c, before, head, head + 1); }
    }
  }

  class BackfillWorker {
    const db: Database
    const queue: Queue

    constructor (db: Database, queue: Queue)
      ensures this.db == db && this.queue == queue
    {
      this.db, this.queue := db, queue;
    }

    /** True when the whole chunk was indexed; the first failure ends it. */
    method IndexChunk(c: Chain, lo: nat, hi: nat, faults: set<nat>) returns (ok: bool)
      requires NoDup(c.endowed)
      modifies db
      ensures db.tables == Advance(c, old(db.tables), lo, hi, faults).0
      ensures ok <==> Advance(c, old(db.tables), lo, hi, faults).1 > hi
      ensures db.cursor == old(db.cursor)
    {
      hide Commit;
      var num := lo;
      while num <= hi
        invariant Advance(c, db.tables, num, hi, faults) == Advance(c, old(db.tables), lo, hi, faults)
        invariant db.cursor == old(db.cursor)
        decreases hi + 1 - num
      {
        ok := db.IndexBlock(c, num, false, num in faults);
        if !ok { return; }
        num := num + 1;
      }
      return true;
    }

    /** One turn of the worker loop: claim, index, retire. */
    method RunOnce(c: Chain, now: nat, locked: set<nat>, faults: set<nat>) returns (claimed: Option<nat>)
      requires NoDup(c.endowed)
      modifies db, queue
      ensures db.cursor == old(db.cursor)
      ensures claimed.None? ==> queue.chunks == old(queue.chunks) && db.tables == old(db.tables)
      ensures claimed.None? <==> forall i :: 0 <= i < |old(queue.chunks)| && i !in locked ==> Taken(old(queue.chunks)[i], now)
      ensures claimed.Some? ==>
        && claimed.value < |old(queue.chunks)| && claimed.value !in locked
        && !Taken(old(queue.chunks)[claimed.value], now)
        && (forall i :: 0 <= i < claimed.value && i !in locked ==> Taken(old(queue.chunks)[i], now))
      ensures claimed.Some? ==>
        var id, chunk := claimed.value, old(queue.chunks)[claimed.value];
        && var (tables, next) := Advance(c, old(db.tables), chunk.lo, chunk.hi, faults);
        && db.tables == tables
        && queue.chunks == old(queue.chunks)[id := chunk.(status := if next > chunk.hi then Done else Pending)]
      ensures claimed.Some? ==>
        var chunk := old(queue.chunks)[claimed.value];
        && (queue.chunks[claimed.value].status == Done <==>
              && (forall b :: chunk.lo <= b <= chunk.hi ==> b !in faults)
              && CommitRange(c, old(db.tables), chunk.lo, chunk.hi + 1).Some?)
        && (queue.chunks[claimed.value].status == Done ==>
              && CommitRange(c, old(db.tables), chunk.lo, chunk.hi + 1) == Some(db.tables)
              && forall b :: chunk.lo <= b <= chunk.hi ==> b in db.tables.rows.blocks)
    {
      hide Advance, CommitRange, Commit, Taken;
      claimed := queue.ClaimChunk(now, locked);
      if claimed.Some? {
        var id := claimed.value;
        var chunk := queue.chunks[id];
        ghost var before := db.tables;
        var ok := IndexChunk(c, chunk.lo, chunk.hi, faults);
        ChunkOutcome(c, before, chunk.lo, chunk.hi, faults);
        if ok { queue.MarkChunkDone(id); } else { queue.MarkChunkFailed(id); }
      }
    }
  }

  // ---- a turn is a sequence of protocol steps ----

  function RunFrom(c: Chain, s: State, actions: seq<Action>): Option<State>
    decreases |actions|
  {
    if actions == [] then Some(s)
    else
      match Next(c, s, actions[0])
      case None => None
      case Some(t) => RunFrom(c, t, actions[1..])
  }

  function Repeat(a: Action, times: nat): seq<Action> {
    if times == 0 then [] else [a] + Repeat(a, times - 1)
  }

  lemma {:induction false} AdvanceIsForward(c: Chain, t: Tables, next: nat, hi: nat, faults: set<nat>)
    ensures next <= Advance(c, t, next, hi, faults).1
    ensures next <= hi + 1 ==> Advance(c, t, next, hi, faults).1 <= hi + 1
    decreases hi + 1 - next
  {
    hide Commit;
    if next <= hi && next !in faults && Commit(c, next, t).Some? {
      AdvanceIsForward(c, Commit(c, next, t).value, next + 1, hi, faults);
    }
  }

  /** The state after the live worker has committed `from..stop` in the protocol. */
  ghost predicate LiveMoved(s: State, s': State, tables: Tables, start: nat, stop: nat) {
    && s'.tables == tables
    && s'.live == Up(s'.cursor)
    && s'.cursor == (if stop > start then Some(stop - 1) else s.cursor)
    && s'.queue == s.queue && s'.holds == s.holds
  }

  /**
   * One turn of the live loop is a run of live commits, one per block it passed, and leaves the
   * tables and the cursor that `ObserveHead` leaves.
   */
  lemma {:induction false} LiveTurnIsRun(c: Chain, s: State, start: nat, head: nat, faults: set<nat>)
    returns (s': State)
    requires s.live == Up(s.cursor) && start == LiveStart(s.cursor, head) && head <= U64_MAX
    requires s.cursor.Some? ==> s.cursor.value <= U64_MAX
    ensures var (tables, stop) := Advance(c, s.tables, start, head, faults);
      && start <= stop
      && RunFrom(c, s, Repeat(LiveCommit(head), stop - start)) == Some(s')
      && LiveMoved(s, s', tables, start, stop)
    decreases head + 1 - start
  {
    hide Commit;
    s' := s;
    AdvanceIsForward(c, s.tables, start, head, faults);
    if start <= head && start !in faults && Commit(c, start, s.tables).Some? {
      var a := LiveCommit(head);
      var t := Next(c, s, a).value;
      if start < U64_MAX {
        AdvanceIsForward(c, t.tables, start + 1, head, faults);
        s' := LiveTurnIsRun(c, t, start + 1, head, faults);
        var stop := Advance(c, t.tables, start + 1, head, faults).1;
        var rest := Repeat(a, stop - (start + 1));
        assert Repeat(a, stop - start) == [a] + rest && ([a] + rest)[1..] == rest;
      } else {
        s' := t;
        assert Repeat(a, 1) == [a] && [a][1..] == [];
      }
    }
  }

  /** A worker holding a chunk, at its `next` block. */
  ghost predicate Holding(s: State, w: nat, lo: nat, hi: nat) {
    w in s.holds && s.holds[w].chunk < |s.queue| && s.holds[w].next == lo && s.queue[s.holds[w].chunk].hi == hi
  }

  lemma {:induction false} BackfillTurnCommits(c: Chain, s: State, w: nat, lo: nat, hi: nat, faults: set<nat>)
    returns (s': State)
    requires Holding(s, w, lo, hi)
    ensures var (tables, stop) := Advance(c, s.tables, lo, hi, faults);
      && lo <= stop
      && RunFrom(c, s, Repeat(BackfillCommit(w), stop - lo)) == Some(s')
      && Holding(s', w, stop, hi)
      && s'.tables == tables && s'.queue == s.queue && s'.cursor == s.cursor
      && s'.holds == s.holds[w := s.holds[w].(next := stop)]
    decreases hi + 1 - lo
  {
    hide Commit;
    s' := s;
    AdvanceIsForward(c, s.tables, lo, hi, faults);
    if lo <= hi && lo !in faults && Commit(c, lo, s.tables).Some? {
      var a := BackfillCommit(w);
      var t := Next(c, s, a).value;
      AdvanceIsForward(c, t.tables, lo + 1, hi, faults);
      s' := BackfillTurnCommits(c, t, w, lo + 1, hi, faults);
      var stop := Advance(c, t.tables, lo + 1, hi, faults).1;
      var rest := Repeat(a, stop - (lo + 1));
      assert Repeat(a, stop - lo) == [a] + rest && ([a] + rest)[1..] == rest;
    } else {
      assert s.holds[w].(next := lo) == s.holds[w];
    }
  }

  lemma {:induction false} RunFromConcat(c: Chain, s: State, a: seq<Action>, b: seq<Action>)
    requires RunFrom(c, s, a).Some?
    ensures RunFrom(c, s, a + b) == RunFrom(c, RunFrom(c, s, a).value, b)
    decreases |a|
  {
    hide Next;
    if a == [] {
      assert a + b == b;
    } else {
      assert (a + b)[1..] == a[1..] + b;
      RunFromConcat(c, Next(c, s, a[0]).value, a[1..], b);
    }
  }

  /**
   * One turn of the backfill loop is a claim, a run of commits and a retirement: done if the whole
   * chunk was indexed, failed otherwise. It leaves the tables and the queue that `RunOnce` leaves.
   */
  lemma BackfillTurnIsRun(c: Chain, s: State, w: nat, id: nat, faults: set<nat>)
    returns (actions: seq<Action>, s': State)
    requires w !in s.holds && id < |s.queue| && Claimable(s.queue[id], s.now)
    requires s.queue[id].lo <= s.queue[id].hi
    ensures RunFrom(c, s, actions) == Some(s')
    ensures var (tables, stop) := Advance(c, s.tables, s.queue[id].lo, s.queue[id].hi, faults);
      && s'.tables == tables
      && s'.queue == SetStatus(s.queue, id, if stop > s.queue[id].hi then Done else Pending)
      && s'.holds == s.holds && s'.cursor == s.cursor
  {
    hide Commit;
    var lo, hi := s.queue[id].lo, s.queue[id].hi;
    var claim := [Claim(w, id)];
    var s1 := Next(c, s, Claim(w, id)).value;
    assert claim[1..] == [] && RunFrom(c, s, claim) == Some(s1);
    var s2 := BackfillTurnCommits(c, s1, w, lo, hi, faults);
    var stop := Advance(c, s.tables, lo, hi, faults).1;
    var commits := Repeat(BackfillCommit(w), stop - lo);
    RunFromConcat(c, s, claim, commits);
    var retire := if stop > hi then MarkDone(w) else MarkFailed(w);
    s' := Next(c, s2, retire).value;
    assert [retire][1..] == [] && RunFrom(c, s2, [retire]) == Some(s');
    RunFromConcat(c, s, claim + commits, [retire]);
    actions := claim + commits + [retire];
    assert s'.holds == s.holds;
  }
}
