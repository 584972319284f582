/**
 * What holds in every run of the indexer, for every interleaving of the live worker, the backfill
 * workers, the seeders, crashes, steals and restarts.
 */
module IndexerRuns {
  import opened Wrappers
  import opened Collections
  import opened Ints
  import opened GapSplit
  import opened ChunkQueue
  import opened Bytes
  import opened Chain
  import opened Snapshots
  import opened Sink
  import opened Replay
  import opened Indexer
  import Ats
  import AtsHistory
  import AtsOrder
  import AtsContents
  import AtsRefusals
  import KeyedRows
  import Movements
  import StoredMovements
  import TableContents

  // ---- refinement ----

  /**
   * Concurrent indexing refines sequential replay: in every reachable state the blocks, extrinsics,
   * events, balance movements and account balances are those of committing each indexed block once,
   * in ascending order.
   */
  lemma ConcurrentRefinesSequential(c: Chain, states: seq<State>, actions: seq<Action>, k: nat)
    requires NoDup(c.endowed) && IsRun(c, states, actions) && k < |states|
    ensures var rows := states[k].tables.rows;
      rows == ReplayRows(c, InOrder(rows.blocks.Keys))
  {
    InvAlways(c, states, actions, k);
    var s := states[k];
    BlocksAreCommitted(c, s.tables, s.log);
    CommitOrderIrrelevant(c, s.log);
  }

  lemma AccountRowAfterReplay(c: Chain, log: seq<nat>, a: AccountId)
    requires NoDup(c.endowed)
    ensures RowHolds(ReplayRows(c, log).accounts, a, AppliedSet(c, SetOf(log), a), c.world, ClockOf(c))
  {
    ReplayRowsHold(c, log);
    hide ReplayRows, RowHolds, SetOf, AppliedSet;
    assert AppliedTo(c, SetOf(log))(a) == AppliedSet(c, SetOf(log), a);
  }

  /**
   * In every reachable state an account has a row iff an indexed block touched it, and the row holds
   * its balances at the highest such block, its largest nonce, and its first and last appearance.
   */
  lemma AccountRowsAreLatest(c: Chain, states: seq<State>, actions: seq<Action>, k: nat, a: AccountId)
    requires NoDup(c.endowed) && IsRun(c, states, actions) && k < |states|
    ensures var rows := states[k].tables.rows;
      RowHolds(rows.accounts, a, AppliedSet(c, rows.blocks.Keys, a), c.world, ClockOf(c))
  {
    InvAlways(c, states, actions, k);
    var s := states[k];
    BlocksAreCommitted(c, s.tables, s.log);
    hide IsRun, Inv, SetOf, NoDup;
    AccountRowAfterReplay(c, s.log, a);
  }

  lemma RowsAreHeld(c: Chain, states: seq<State>, actions: seq<Action>, k: nat)
    requires NoDup(c.endowed) && IsRun(c, states, actions) && k < |states|
    ensures RowsHold(c, states[k].tables.rows, states[k].tables.rows.blocks.Keys)
  {
    InvAlways(c, states, actions, k);
    var s := states[k];
    BlocksAreCommitted(c, s.tables, s.log);
    ReplayRowsHold(c, s.log);
    hide IsRun, NoDup, RowsHold, ReplayRows;
  }

  /**
   * In every reachable state the extrinsics and events stored are those of the indexed blocks, each under its
   * block and position.
   */
  lemma ExtrinsicsAndEventsAreTheChains(c: Chain, states: seq<State>, actions: seq<Action>, k: nat, n: nat, i: nat)
    requires NoDup(c.endowed) && IsRun(c, states, actions) && k < |states|
    ensures var rows := states[k].tables.rows;
      && ((n, i) in rows.extrinsics <==> n in rows.blocks && i < |c.extrinsics(n)|)
      && ((n, i) in rows.extrinsics ==>
            rows.extrinsics[(n, i)] == Stamped(c.extrinsics(n)[i], c.header(n).timestampMs))
      && ((n, i) in rows.events <==> n in rows.blocks && i < |c.events(n)|)
      && ((n, i) in rows.events ==> rows.events[(n, i)] == Stamped(c.events(n)[i], c.header(n).timestampMs))
  {
    RowsAreHeld(c, states, actions, k);
    hide IsRun, NoDup, RowsHold;
    var rows := states[k].tables.rows;
    TableContents.ExtrinsicsHeld(c, rows, rows.blocks.Keys, n, i);
    TableContents.EventsHeld(c, rows, rows.blocks.Keys, n, i);
  }

  /** In every reachable state the movements stored are those that the events of the indexed blocks report. */
  lemma MovementsAreTheChains(
    c: Chain, states: seq<State>, actions: seq<Action>, k: nat, n: nat, idx: nat, a: AccountId)
    requires NoDup(c.endowed) && IsRun(c, states, actions) && k < |states| && Movements.AmountsFit(c.balanceEvents(n))
    ensures var rows := states[k].tables.rows;
      && ((n, idx, a) in rows.movements <==> n in rows.blocks && TableContents.Moves(c.balanceEvents(n), idx, a))
      && ((n, idx, a) in rows.movements ==>
            && rows.movements[(n, idx, a)].account == a
            && TableContents.Recorded(rows.movements[(n, idx, a)], c.balanceEvents(n), n, idx))
  {
    RowsAreHeld(c, states, actions, k);
    hide IsRun, NoDup, RowsHold, Movements.AmountsFit, TableContents.Moves, TableContents.Recorded;
    var rows := states[k].tables.rows;
    TableContents.MovementsHeld(c, rows, rows.blocks.Keys, n, idx, a);
  }

  /** In every reachable state the accounts stored are those that the indexed blocks take readings of. */
  lemma AccountsAreTheChains(c: Chain, states: seq<State>, actions: seq<Action>, k: nat, a: AccountId)
    requires NoDup(c.endowed) && IsRun(c, states, actions) && k < |states|
    ensures var rows := states[k].tables.rows; var seen := TableContents.SeenIn(c, rows.blocks.Keys, a);
      && (a in rows.accounts <==> seen != {})
      && (a in rows.accounts ==>
            Represents(rows.accounts[a], seen, (m: nat) => c.world(m, a), (m: nat) => c.header(m).timestampMs))
  {
    RowsAreHeld(c, states, actions, k);
    hide IsRun, NoDup, RowsHold;
    var rows := states[k].tables.rows;
    TableContents.AccountsHeld(c, rows, rows.blocks.Keys, a);
  }

  lemma MovementRowsHeld(c: Chain, s: State)
    requires NoDup(c.endowed) && Inv(c, s)
    ensures KeyedRows.Holds(s.tables.rows.movements, MovementRowsOf(c), s.tables.rows.blocks.Keys)
  {
    BlocksAreCommitted(c, s.tables, s.log);
    ReplayRowsHold(c, s.log);
    hide KeyedRows.Holds, Inv, ReplayRows;
  }

  /**
   * In every reachable state the stored movements of an indexed block cancel iff every self-transfer in
   * it moves nothing.
   */
  lemma StoredMovementsCancelIff(c: Chain, states: seq<State>, actions: seq<Action>, k: nat, n: nat)
    requires NoDup(c.endowed) && IsRun(c, states, actions) && k < |states|
    requires n in states[k].tables.rows.blocks
    requires forall e :: e in Movements.DecodeFrom(c.balanceEvents(n), 0) ==> e.1.amount < Movements.TWO_127
    ensures StoredMovements.TableSum(StoredMovements.OfBlock(states[k].tables.rows.movements, n)) == 0 <==>
      forall e :: e in Movements.DecodeFrom(c.balanceEvents(n), 0) && Movements.SelfTransfer(e.1) ==> e.1.amount == 0
  {
    InvAlways(c, states, actions, k);
    MovementRowsHeld(c, states[k]);
    hide IsRun, Inv, NoDup, KeyedRows.Holds, Movements.DecodeFrom, StoredMovements.TableSum, StoredMovements.OfBlock;
    StoredMovements.HeldRowsOfBlock(c, states[k].tables.rows.movements, states[k].tables.rows.blocks.Keys, n);
    StoredMovements.StoredBalanceIff(c, n);
  }

  // ---- the queue ----

  /**
   * While a block up to a seeded head is missing, a pending or running chunk holds it; so an empty
   * queue means that everything up to that head is indexed.
   */
  lemma DrainedQueueMeansCompleteHistory(c: Chain, states: seq<State>, actions: seq<Action>, k: nat, head: nat)
    requires NoDup(c.endowed) && IsRun(c, states, actions) && k < |states|
    requires head in states[k].seeded
    ensures var s := states[k];
      && (forall b: nat :: b <= head && b !in s.tables.rows.blocks ==>
            exists i :: 0 <= i < |s.queue| && s.queue[i].lo <= b <= s.queue[i].hi && !s.queue[i].status.Done?)
      && (OpenCount(s.queue) == 0 ==>
            forall b: nat :: b <= head ==> b in s.tables.rows.blocks && s.tables.rows.blocks[b] == c.header(b))
  {
    InvAlways(c, states, actions, k);
    var s := states[k];
    BlocksAreCommitted(c, s.tables, s.log);
    forall b: nat | b <= head && b !in s.tables.rows.blocks
      ensures exists i :: 0 <= i < |s.queue| && s.queue[i].lo <= b <= s.queue[i].hi && !s.queue[i].status.Done?
    {
      assert b !in s.log by { assert b in s.log ==> b in SetOf(s.log); }
      assert Queued(s.queue, b);
      var i :| 0 <= i < |s.queue| && s.queue[i].lo <= b <= s.queue[i].hi;
      assert ChunkHonest(s.queue[i], s.log);
    }
    NothingOpenMeansAllDone(s.queue);
    if OpenCount(s.queue) == 0 {
      forall b: nat | b <= head ensures b in s.tables.rows.blocks && s.tables.rows.blocks[b] == c.header(b) {
        assert b in SetOf(s.log);
      }
    }
  }

  // ---- the live worker ----

  /** One step never shortens the history, lowers the cursor or moves the anchor. */
  ghost predicate NotBehind(s: State, t: State) {
    && s.log <= t.log
    && (s.cursor.Some? ==> t.cursor.Some? && s.cursor.value <= t.cursor.value)
    && (s.anchor.Some? ==> t.anchor == s.anchor)
  }

  lemma {:induction false} RunsAdvance(c: Chain, states: seq<State>, actions: seq<Action>, i: nat, k: nat)
    requires IsRun(c, states, actions) && i <= k < |states|
    ensures NotBehind(states[i], states[k])
    decreases k
  {
    hide Commit;
    if i < k {
      RunsAdvance(c, states, actions, i, k - 1);
      assert Next(c, states[k - 1], actions[k - 1]) == Some(states[k]);
    }
  }

  lemma StoredProgressIndexed(c: Chain, s: State)
    requires NoDup(c.endowed) && Inv(c, s)
    ensures s.cursor.Some? <==> s.anchor.Some?
    ensures s.cursor.Some? ==> forall b: nat :: s.anchor.value <= b <= s.cursor.value ==> b in s.tables.rows.blocks
  {
    BlocksAreCommitted(c, s.tables, s.log);
    if s.cursor.Some? {
      forall b: nat | s.anchor.value <= b <= s.cursor.value ensures b in s.tables.rows.blocks {
        assert b in SetOf(s.log);
      }
    }
  }

  /**
   * Live progress has no holes: every block from the first live commit to the stored cursor is
   * indexed, in every reachable state, across crashes and restarts; the cursor never decreases and
   * the first live commit stays what it was.
   */
  lemma LiveProgressHasNoHoles(c: Chain, states: seq<State>, actions: seq<Action>, i: nat, k: nat)
    requires NoDup(c.endowed) && IsRun(c, states, actions) && i <= k < |states|
    ensures var s, t := states[i], states[k];
      && (t.cursor.Some? <==> t.anchor.Some?)
      && (t.cursor.Some? ==> forall b: nat :: t.anchor.value <= b <= t.cursor.value ==> b in t.tables.rows.blocks)
      && (s.cursor.Some? ==> s.anchor.Some? && t.cursor.Some? && s.cursor.value <= t.cursor.value && s.anchor == t.anchor)
  {
    InvAlways(c, states, actions, i);
    InvAlways(c, states, actions, k);
    RunsAdvance(c, states, actions, i, k);
    StoredProgressIndexed(c, states[i]);
    StoredProgressIndexed(c, states[k]);
  }

  /**
   * Once a cursor is stored no block is skipped: a live commit is the block right after it. Before that
   * a commit is of the head then seen, so a head that failed earlier is forgotten.
   */
  lemma LiveNeverSkips(c: Chain, states: seq<State>, actions: seq<Action>, k: nat)
    requires NoDup(c.endowed) && IsRun(c, states, actions) && k < |actions| && actions[k].LiveCommit?
    ensures var s, t := states[k], states[k + 1];
      && t.cursor.Some?
      && t.log == s.log + [t.cursor.value]
      && (s.cursor.Some? && s.cursor.value < U64_MAX ==> t.cursor.value == s.cursor.value + 1)
      && (s.cursor.None? ==> t.cursor.value == actions[k].head)
  {
    InvAlways(c, states, actions, k);
    var s := states[k];
    assert Next(c, s, actions[k]) == Some(states[k + 1]);
    assert s.live == Up(s.cursor);
    LiveAdvances(s.cursor, s.anchor, s.log, actions[k].head, NextLive(s.cursor, actions[k].head).value);
  }

  ghost predicate Reached(seeded: set<nat>, b: nat) {
    exists h :: h in seeded && b <= h
  }

  ghost predicate PlansWithin(plans: seq<Plan>) {
    forall p, r :: 0 <= p < |plans| && r in plans[p].ranges ==> r.1 <= plans[p].head
  }

  ghost predicate QueueWithin(queue: seq<Chunk>, seeded: set<nat>) {
    forall i :: 0 <= i < |queue| ==> Reached(seeded, queue[i].hi)
  }

  ghost predicate LogWithin(log: seq<nat>, seeded: set<nat>, anchor: Option<nat>) {
    forall b :: b in log ==> Reached(seeded, b) || (anchor.Some? && anchor.value <= b)
  }

  /** Nothing is planned above its head, nor indexed above every seeded head and below the first live commit. */
  ghost predicate Within(s: State) {
    PlansWithin(s.plans) && QueueWithin(s.queue, s.seeded) && LogWithin(s.log, s.seeded, s.anchor)
  }

  lemma ReachedMore(seeded: set<nat>, h: nat, b: nat)
    ensures Reached(seeded, b) ==> Reached(seeded + {h}, b)
    ensures b <= h ==> Reached(seeded + {h}, b)
  {
    if Reached(seeded, b) {
      var g :| g in seeded && b <= g;
      assert g in seeded + {h};
    }
    assert h in seeded + {h};
  }

  lemma SeedInsertWithin(s: State, p: nat, t: State)
    requires Within(s) && SeedInsertNext(s, p) == Some(t)
    ensures Within(t)
  {
    var plan := s.plans[p];
    InsertRangesExtends(s.queue, plan.ranges);
    hide Reached;
    forall i | 0 <= i < |t.queue| ensures Reached(t.seeded, t.queue[i].hi) {
      ReachedMore(s.seeded, plan.head, t.queue[i].hi);
      if i < |s.queue| { assert t.queue[i] == s.queue[i]; } else { assert (t.queue[i].lo, t.queue[i].hi) in plan.ranges; }
    }
    forall b | b in t.log ensures Reached(t.seeded, b) || (t.anchor.Some? && t.anchor.value <= b) {
      ReachedMore(s.seeded, plan.head, b);
    }
  }

  lemma BackfillWithin(c: Chain, s: State, w: nat, t: State)
    requires Within(s) && BackfillCommitNext(c, s, w) == Some(t)
    ensures Within(t)
  {
    hide Commit;
    var h := s.holds[w];
    var g :| g in s.seeded && s.queue[h.chunk].hi <= g;
    assert Reached(s.seeded, h.next);
  }

  lemma LiveWithin(c: Chain, s: State, head: nat, t: State)
    requires Inv(c, s) && Within(s) && LiveCommitNext(c, s, head) == Some(t)
    ensures Within(t)
  {
    hide Commit, TablesReplay, QueueHonest, NothingForgotten, UniqueRanges, Reached, RangeCommitted;
  }

  lemma StepWithin(c: Chain, s: State, a: Action, t: State)
    requires Inv(c, s) && Within(s) && Next(c, s, a) == Some(t)
    ensures Within(t)
  {
    match a {
      case SeedRead(head, size) =>
        PlanCovers(s.tables.rows.blocks.Keys, head, size);
        hide PlanFor, Reached;
      case SeedInsert(p) => SeedInsertWithin(s, p, t);
      case BackfillCommit(w) => BackfillWithin(c, s, w, t);
      case LiveCommit(head) => LiveWithin(c, s, head, t);
      case _ => hide Reached;
    }
  }

  lemma {:induction false} WithinAlways(c: Chain, states: seq<State>, actions: seq<Action>, k: nat)
    requires NoDup(c.endowed) && IsRun(c, states, actions) && k < |states|
    ensures Within(states[k])
    decreases k
  {
    if k > 0 {
      hide Next, Inv, NoDup, Within;
      WithinAlways(c, states, actions, k - 1);
      InvAlways(c, states, actions, k - 1);
      assert Next(c, states[k - 1], actions[k - 1]) == Some(states[k]);
      StepWithin(c, states[k - 1], actions[k - 1], states[k]);
    }
  }

  /**
   * With the queue drained, what is missing up to the cursor is exactly what lies above the largest
   * seeded head and below the first live commit; so nothing is missing iff the live worker's first
   * commit was at most one past that head.
   */
  lemma BackfillAndLiveMeet(c: Chain, states: seq<State>, actions: seq<Action>, k: nat, head: nat)
    requires NoDup(c.endowed) && IsRun(c, states, actions) && k < |states|
    requires head in states[k].seeded && forall h :: h in states[k].seeded ==> h <= head
    requires OpenCount(states[k].queue) == 0 && states[k].cursor.Some?
    ensures var s := states[k];
      && s.anchor.Some?
      && (forall b: nat :: b <= s.cursor.value ==> (b !in s.tables.rows.blocks <==> head < b < s.anchor.value))
      && ((forall b: nat :: b <= s.cursor.value ==> b in s.tables.rows.blocks) <==> s.anchor.value <= head + 1)
  {
    DrainedQueueMeansCompleteHistory(c, states, actions, k, head);
    LiveProgressHasNoHoles(c, states, actions, k, k);
    InvAlways(c, states, actions, k);
    WithinAlways(c, states, actions, k);
    var s := states[k];
    BlocksAreCommitted(c, s.tables, s.log);
    hide IsRun, NoDup, TablesReplay, QueueHonest, NothingForgotten;
    forall b: nat | head < b < s.anchor.value ensures b !in s.tables.rows.blocks {
      assert b in s.tables.rows.blocks ==> b in SetOf(s.log);
    }
    assert s.anchor.value > head + 1 ==> head + 1 !in s.tables.rows.blocks;
  }

  // ---- the ATS tables ----

  /** The ATS tables are consistent in every reachable state, whatever order commits succeed in. */
  lemma AtsAlwaysConsistent(c: Chain, states: seq<State>, actions: seq<Action>, k: nat)
    requires WellFormed(c) && IsRun(c, states, actions) && k < |states|
    ensures Ats.Consistent(states[k].tables.ats)
  {
    InvAlways(c, states, actions, k);
    ReplayAllSplits(c, states[k].log);
    AtsHistory.ReplayConsistent(c.ats, states[k].log);
  }

  /** No step lowers the version count of a registry row that survives it. */
  lemma AtsCountNeverFalls(c: Chain, states: seq<State>, actions: seq<Action>, k: nat, id: nat)
    requires WellFormed(c) && IsRun(c, states, actions) && k < |actions|
    requires id in states[k].tables.ats.registry && id in states[k + 1].tables.ats.registry
    ensures states[k].tables.ats.registry[id].count <= states[k + 1].tables.ats.registry[id].count
  {
    AtsAlwaysConsistent(c, states, actions, k);
    var s, a := states[k], actions[k];
    assert Next(c, s, a) == Some(states[k + 1]);
    if a.BackfillCommit? {
      var n := s.holds[a.worker].next;
      Ats.ApplyAtsConsistent(s.tables.ats, c.ats(n), n);
    } else if a.LiveCommit? {
      var n := NextLive(s.live.last, a.head).value;
      Ats.ApplyAtsConsistent(s.tables.ats, c.ats(n), n);
    }
  }

  lemma AtsTablesReplay(c: Chain, s: State)
    requires NoDup(c.endowed) && Inv(c, s)
    ensures AtsHistory.ReplayAts(c.ats, s.log) == Some(s.tables.ats)
    ensures s.tables.rows.blocks.Keys == SetOf(s.log)
  {
    BlocksAreCommitted(c, s.tables, s.log);
    ReplayAllSplits(c, s.log);
    hide ReplayRows, AtsHistory.ReplayAts;
  }

  /** In every reachable state each ATS row carries the fields of an event of an indexed block. */
  lemma AtsRowsAreTheChains(c: Chain, states: seq<State>, actions: seq<Action>, k: nat, id: nat, v: int)
    requires NoDup(c.endowed) && IsRun(c, states, actions) && k < |states|
    ensures var ats := states[k].tables.ats;
      && (id in ats.registry ==> AtsContents.CreatedInLog(c.ats, states[k].log, id, ats.registry[id]))
      && ((id, v) in ats.versions ==> AtsContents.WrittenInLog(c.ats, states[k].log, (id, v), ats.versions[(id, v)]))
  {
    InvAlways(c, states, actions, k);
    AtsTablesReplay(c, states[k]);
    hide IsRun, Inv, NoDup, AtsHistory.ReplayAts, AtsContents.CreatedInLog, AtsContents.WrittenInLog;
    AtsContents.AtsRowsAreEvents(c.ats, states[k].log);
  }

  /**
   * Unlike the other tables, the ATS tables of a reachable state agree with sequential indexing of the
   * same blocks only if every revoked id was last touched by its revocation, and then they do.
   */
  lemma AtsAgreesWithSequentialIff(c: Chain, states: seq<State>, actions: seq<Action>, k: nat, count: nat)
    requires NoDup(c.endowed) && IsRun(c, states, actions) && k < |states|
    requires AtsHistory.PalletHistory(c.ats, count).Some?
    requires forall n :: n in states[k].log ==> n < count
    ensures var s := states[k];
      var sequential := AtsHistory.ReplayAts(c.ats, InOrder(s.tables.rows.blocks.Keys));
      sequential.Some? && (s.tables.ats == sequential.value <==> AtsOrder.RevokedLast(c.ats, s.log))
  {
    InvAlways(c, states, actions, k);
    hide IsRun, Inv, NoDup, AtsHistory.PalletHistory, AtsHistory.ReplayAts, AtsOrder.RevokedLast, InOrder;
    AtsTablesReplay(c, states[k]);
    AtsOrder.AtsOrderIrrelevantIff(c.ats, count, states[k].log);
  }

  /** The live worker starts at block 1, which revokes what block 0 creates. */
  lemma LiveFirst(c: Chain, ext: nat, id: nat) returns (states: seq<State>, actions: seq<Action>)
    requires NoDup(c.endowed) && c.ats(1) == [(ext, Ats.Revoked(id))]
    ensures IsRun(c, states, actions)
    ensures var s := states[|states| - 1];
      && s.log == [1] && s.cursor == Some(1) && s.now == 0
      && s.queue == [] && s.plans == [] && s.holds == map[] && s.seeded == {}
  {
    hide CommitRows;
    var s: State;
    states, actions := [INITIAL], [];
    s, states, actions := Extend(c, states, actions, LiveBoot);
    AtsHistory.EventStepIsCommit(INITIAL.tables.ats, ext, Ats.Revoked(id), 1);
    assert Commit(c, 1, INITIAL.tables).Some?;
    hide Commit;
    s, states, actions := Extend(c, states, actions, LiveCommit(1));
  }

  lemma OnlyOneBelow(blocks: set<nat>)
    requires blocks == {1}
    ensures Below(blocks, 2) == [1]
  {
    assert Below(blocks, 0) == [];
    assert Below(blocks, 1) == Below(blocks, 0);
    assert Below(blocks, 2) == Below(blocks, 1) + [1];
  }

  lemma OneGapScanned(existing: seq<nat>)
    requires existing == [1]
    ensures Gaps(1, existing) == [(0, 0)]
  {
    assert existing[..0] == [];
    assert Scan(1, existing[..0]) == ([], 0);
  }

  /** With block 1 indexed, the plan up to it is block 0. */
  lemma OneGap(blocks: set<nat>)
    requires blocks == {1}
    ensures PlanFor(blocks, 1, 1) == [(0, 0)]
  {
    OnlyOneBelow(blocks);
    OneGapScanned(Below(blocks, 2));
    hide Below, Gaps;
    var gaps: seq<Range> := [(0, 0)];
    assert gaps[..0] == [] && PushChunked(0, 0, 1) == gaps;
    assert ChunkAll(gaps[..0], 1) == [];
  }

  /** A seeder plans block 0 behind it. */
  lemma GenesisPlanned(c: Chain, ext: nat, id: nat) returns (states: seq<State>, actions: seq<Action>)
    requires NoDup(c.endowed) && c.ats(1) == [(ext, Ats.Revoked(id))]
    ensures IsRun(c, states, actions)
    ensures var s := states[|states| - 1];
      && s.log == [1] && s.cursor == Some(1) && s.now == 0
      && s.queue == [] && s.plans == [Plan(1, [(0, 0)])] && s.holds == map[] && s.seeded == {}
  {
    hide Commit, PlanFor, Below;
    states, actions := LiveFirst(c, ext, id);
    var s := states[|states| - 1];
    InvAlways(c, states, actions, |states| - 1);
    AtsTablesReplay(c, s);
    hide Inv, NoDup;
    assert SetOf(s.log) == {1};
    OneGap(s.tables.rows.blocks.Keys);
    s, states, actions := Extend(c, states, actions, SeedRead(1, 1));
  }

  /** Worker 1 claims it. */
  lemma GenesisClaimed(c: Chain, ext: nat, id: nat) returns (states: seq<State>, actions: seq<Action>)
    requires NoDup(c.endowed) && c.ats(1) == [(ext, Ats.Revoked(id))]
    ensures IsRun(c, states, actions)
    ensures var s := states[|states| - 1];
      && s.log == [1] && s.cursor == Some(1) && s.seeded == {1}
      && s.queue == [Chunk(0, 0, Running(Some(300)))] && s.holds == map[1 := Hold(0, 0, 300)]
  {
    hide Commit, PlanFor, NoDup;
    var s: State;
    states, actions := GenesisPlanned(c, ext, id);
    s := states[|states| - 1];
    assert s.plans[0].ranges[1..] == [];
    s, states, actions := Extend(c, states, actions, SeedInsert(0));
    assert s.queue == [Chunk(0, 0, Pending)];
    s, states, actions := Extend(c, states, actions, Claim(1, 0));
  }

  /**
   * The order at boot is such an order: the live worker indexes the head, the backfill then indexes the
   * blocks below it. The queue is drained and the history complete, and still a row is there that
   * sequential indexing deletes.
   */
  lemma BootOrderRevives(c: Chain, created: Ats.AtsEvent, ext: nat, ext': nat)
    returns (states: seq<State>, actions: seq<Action>)
    requires NoDup(c.endowed) && created.Created?
    requires c.ats(0) == [(ext, created)] && c.ats(1) == [(ext', Ats.Revoked(created.id))]
    ensures IsRun(c, states, actions)
    ensures var s := states[|states| - 1];
      && OpenCount(s.queue) == 0 && 1 in s.seeded && s.cursor == Some(1)
      && s.tables.rows.blocks.Keys == {0, 1}
      && created.id in s.tables.ats.registry
      && AtsHistory.ReplayAts(c.ats, [0, 1]) == Some(AtsHistory.EMPTY)
  {
    hide CommitRows, AtsHistory.ReplayAts;
    var s: State;
    states, actions := GenesisClaimed(c, ext', created.id);
    s := states[|states| - 1];
    InvAlways(c, states, actions, |states| - 1);
    AtsTablesReplay(c, s);
    hide Inv;
    AtsOrder.LateCreateDoesNotCommute(c.ats, 0, 1, created, ext, ext');
    AtsHistory.EventStepIsCommit(s.tables.ats, ext, created, 0);
    assert Commit(c, 0, s.tables).Some?;
    hide Commit;
    s, states, actions := Extend(c, states, actions, BackfillCommit(1));
    s, states, actions := Extend(c, states, actions, MarkDone(1));
    assert s.log == [1, 0] && s.queue == [Chunk(0, 0, Done)];
    InvAlways(c, states, actions, |states| - 1);
    AtsTablesReplay(c, s);
    assert SetOf([1 as nat, 0]) == {0, 1};
    NothingOpenMeansAllDone(s.queue);
  }

  // ---- leases ----

  /** Every holder retires its chunk, or dies, before its lease runs out. */
  ghost predicate Punctual(states: seq<State>) {
    forall k, w :: 0 <= k < |states| && w in states[k].holds ==> states[k].now <= states[k].holds[w].deadline
  }

  /** A held chunk runs under its holder's lease, and nobody else holds it. */
  ghost predicate Exclusive(queue: seq<Chunk>, holds: map<nat, Hold>) {
    && (forall w :: w in holds ==>
          holds[w].chunk < |queue| && queue[holds[w].chunk].status == Running(Some(holds[w].deadline)))
    && (forall v, w :: v in holds && w in holds && v != w ==> holds[v].chunk != holds[w].chunk)
  }

  ghost predicate DoneStays(queue: seq<Chunk>, queue': seq<Chunk>) {
    && |queue| <= |queue'|
    && forall i :: 0 <= i < |queue| && queue[i].status.Done? ==> queue'[i].status.Done?
  }

  lemma ClaimStaysExclusive(queue: seq<Chunk>, holds: map<nat, Hold>, now: nat, w: nat, i: nat, h: Hold)
    requires Exclusive(queue, holds) && w !in holds && i < |queue| && Claimable(queue[i], now)
    requires forall v :: v in holds ==> now <= holds[v].deadline
    requires h.chunk == i
    ensures Exclusive(SetStatus(queue, i, Running(Some(h.deadline))), holds[w := h])
    ensures DoneStays(queue, SetStatus(queue, i, Running(Some(h.deadline))))
  {
    forall v | v in holds ensures holds[v].chunk != i {
      assert !Claimable(queue[holds[v].chunk], now);
    }
  }

  lemma RetireStaysExclusive(queue: seq<Chunk>, holds: map<nat, Hold>, w: nat, status: Status)
    requires Exclusive(queue, holds) && w in holds
    ensures Exclusive(SetStatus(queue, holds[w].chunk, status), holds - {w})
    ensures DoneStays(queue, SetStatus(queue, holds[w].chunk, status))
  {
  }

  lemma HoldAdvances(queue: seq<Chunk>, holds: map<nat, Hold>, w: nat, h: Hold)
    requires Exclusive(queue, holds) && w in holds && h.chunk == holds[w].chunk && h.deadline == holds[w].deadline
    ensures Exclusive(queue, holds[w := h])
  {
  }

  lemma ExclusiveStep(c: Chain, s: State, a: Action, t: State)
    requires Exclusive(s.queue, s.holds) && Next(c, s, a) == Some(t)
    requires forall w :: w in s.holds ==> s.now <= s.holds[w].deadline
    ensures Exclusive(t.queue, t.holds) && DoneStays(s.queue, t.queue)
  {
    hide Commit, InsertRanges, PlanFor;
    match a {
      case SeedInsert(p) =>
        InsertRangesExtends(s.queue, s.plans[p].ranges);
        assert forall i :: 0 <= i < |s.queue| ==> t.queue[i] == s.queue[i];
      case Claim(w, i) => ClaimStaysExclusive(s.queue, s.holds, s.now, w, i, t.holds[w]);
      case MarkDone(w) => RetireStaysExclusive(s.queue, s.holds, w, Done);
      case MarkFailed(w) => RetireStaysExclusive(s.queue, s.holds, w, Pending);
      case BackfillCommit(w) => HoldAdvances(s.queue, s.holds, w, t.holds[w]);
      case _ =>
    }
  }

  /**
   * If every holder retires its chunk or dies before its lease expires, then at any time at most
   * one worker holds a chunk, and a done chunk is never claimed or reopened.
   */
  lemma {:induction false} LeasesAreExclusive(c: Chain, states: seq<State>, actions: seq<Action>, i: nat, k: nat)
    requires IsRun(c, states, actions) && Punctual(states) && i <= k < |states|
    ensures Exclusive(states[k].queue, states[k].holds) && DoneStays(states[i].queue, states[k].queue)
    decreases k
  {
    if k > 0 {
      hide Next, Exclusive;
      LeasesAreExclusive(c, states, actions, if i < k then i else 0, k - 1);
      assert Next(c, states[k - 1], actions[k - 1]) == Some(states[k]);
      ExclusiveStep(c, states[k - 1], actions[k - 1], states[k]);
    }
  }

  /**
   * Without that discipline exactly one kind of step reopens a done chunk: `mark_chunk_failed` by a
   * holder whose chunk another worker has already retired.
   */
  lemma DoneReopenedIff(c: Chain, s: State, a: Action, t: State, i: nat)
    requires Inv(c, s) && Next(c, s, a) == Some(t)
    requires i < |s.queue| && s.queue[i].status.Done?
    ensures i < |t.queue|
    ensures !t.queue[i].status.Done? <==> a.MarkFailed? && s.holds[a.worker].chunk == i
  {
    if a.SeedInsert? {
      InsertRangesExtends(s.queue, s.plans[a.plan].ranges);
      assert t.queue[i] == s.queue[i];
    }
  }

  /** One more action at the end of a run. */
  lemma Extend(c: Chain, states: seq<State>, actions: seq<Action>, a: Action)
    returns (t: State, states': seq<State>, actions': seq<Action>)
    requires IsRun(c, states, actions) && Next(c, states[|states| - 1], a).Some?
    ensures Some(t) == Next(c, states[|states| - 1], a)
    ensures IsRun(c, states', actions') && states' == states + [t]
  {
    hide Next;
    t := Next(c, states[|states| - 1], a).value;
    states', actions' := states + [t], actions + [a];
  }

  /** Block 0 is planned, inserted and claimed by worker 1. */
  lemma FirstClaim(c: Chain) returns (states: seq<State>, actions: seq<Action>)
    ensures IsRun(c, states, actions)
    ensures var s := states[|states| - 1];
      && s.tables == INITIAL.tables && s.now == 0 && s.log == []
      && s.queue == [Chunk(0, 0, Running(Some(300)))] && s.holds == map[1 := Hold(0, 0, 300)]
      && s.seeded == {0} && s.cursor == None && s.live == Down && |s.plans| == 1
  {
    var s: State;
    states, actions := [INITIAL], [];
    s, states, actions := Extend(c, states, actions, SeedRead(0, 1));
    assert INITIAL.tables.rows.blocks.Keys == {};
    assert Below({}, 1) == [] && PlanFor({}, 0, 1) == [(0, 0)];
    assert s.plans[0].ranges[1..] == [];
    s, states, actions := Extend(c, states, actions, SeedInsert(0));
    assert s.queue == [Chunk(0, 0, Pending)];
    s, states, actions := Extend(c, states, actions, Claim(1, 0));
  }

  /** The lease runs out; worker 2 steals the chunk. */
  lemma Steal(c: Chain) returns (states: seq<State>, actions: seq<Action>)
    ensures IsRun(c, states, actions)
    ensures var s := states[|states| - 1];
      && s.tables == INITIAL.tables
      && s.queue == [Chunk(0, 0, Running(Some(601)))]
      && s.holds == map[1 := Hold(0, 0, 300), 2 := Hold(0, 0, 601)]
  {
    var s: State;
    states, actions := FirstClaim(c);
    s, states, actions := Extend(c, states, actions, Tick(301));
    s, states, actions := Extend(c, states, actions, Claim(2, 0));
  }

  /** Worker 2 indexes block 0 and retires the chunk, while worker 1 still believes it holds it. */
  lemma StolenDone(c: Chain) returns (states: seq<State>, actions: seq<Action>)
    requires c.ats(0) == []
    ensures IsRun(c, states, actions)
    ensures var s := states[|states| - 1];
      s.queue == [Chunk(0, 0, Done)] && s.holds == map[1 := Hold(0, 0, 300)]
  {
    hide CommitRows;
    var s: State;
    states, actions := Steal(c);
    assert Commit(c, 0, INITIAL.tables).Some? by {
      assert Ats.Project([], 0) == Ats.AtsOps([], [], [], []);
    }
    hide Commit;
    s, states, actions := Extend(c, states, actions, BackfillCommit(2));
    s, states, actions := Extend(c, states, actions, MarkDone(2));
    assert s.holds == map[1 := Hold(0, 0, 300)];
  }

  /**
   * Such a step is reachable: the first holder overruns its lease, a second one steals the chunk,
   * indexes it and retires it, and then the first reports failure.
   */
  lemma StaleHolderReopensDone(c: Chain) returns (states: seq<State>, actions: seq<Action>)
    requires c.ats(0) == []
    ensures IsRun(c, states, actions) && |states| > 1
    ensures var s, t := states[|states| - 2], states[|states| - 1];
      |s.queue| == |t.queue| == 1 && s.queue[0].status.Done? && t.queue[0].status.Pending?
  {
    hide Commit;
    var s: State;
    states, actions := StolenDone(c);
    s, states, actions := Extend(c, states, actions, MarkFailed(1));
  }

  // ---- a late start ----

  /** In a reachable state a block commits iff its ATS events do. */
  lemma CommitIff(c: Chain, s: State, n: nat)
    requires NoDup(c.endowed) && Inv(c, s)
    ensures Commit(c, n, s.tables).Some? <==> AtsHistory.ReplayAts(c.ats, s.log + [n]).Some?
  {
    ReplayAllSnoc(c, s.log, n, s.tables);
    ReplayAllSplits(c, s.log + [n]);
    hide ReplayAll, Commit, AtsHistory.ReplayAts;
  }

  /** Block 0 is seeded, indexed and retired before the live worker stores anything. */
  lemma GenesisDone(c: Chain) returns (states: seq<State>, actions: seq<Action>)
    requires NoDup(c.endowed) && AtsHistory.ReplayAts(c.ats, [0]).Some?
    ensures IsRun(c, states, actions)
    ensures var s := states[|states| - 1];
      && s.log == [0] && s.cursor == None && s.live == Down && s.seeded == {0} && |s.plans| == 1 && s.now == 0
      && s.queue == [Chunk(0, 0, Done)] && s.holds == map[]
  {
    hide AtsHistory.ReplayAts, Commit, NoDup;
    var s: State;
    states, actions := FirstClaim(c);
    s := states[|states| - 1];
    InvAlways(c, states, actions, |states| - 1);
    CommitIff(c, s, 0);
    hide Inv;
    assert s.log + [0] == [0];
    s, states, actions := Extend(c, states, actions, BackfillCommit(1));
    s, states, actions := Extend(c, states, actions, MarkDone(1));
  }

  /**
   * A run that leaves a gap: everything up to the seeded head 0 is indexed, the live worker fails on the
   * heads 0 and 1, which shows as no step at all, and then stores head 2. Block 1 is missing, and neither the
   * queue nor the cursor shows it.
   */
  lemma LateStartLeavesGap(c: Chain) returns (states: seq<State>, actions: seq<Action>)
    requires NoDup(c.endowed) && AtsHistory.ReplayAts(c.ats, [0]).Some? && AtsHistory.ReplayAts(c.ats, [0, 2]).Some?
    ensures IsRun(c, states, actions)
    ensures var s := states[|states| - 1];
      && s.log == [0, 2] && s.cursor == Some(2) && s.seeded == {0} && |s.plans| == 1 && s.now == 0
      && s.queue == [Chunk(0, 0, Done)] && s.holds == map[]
      && OpenCount(s.queue) == 0 && s.tables.rows.blocks.Keys == {0, 2}
  {
    hide AtsHistory.ReplayAts, Commit, NoDup;
    var s: State;
    states, actions := GenesisDone(c);
    s, states, actions := Extend(c, states, actions, LiveBoot);
    InvAlways(c, states, actions, |states| - 1);
    CommitIff(c, s, 2);
    hide Inv;
    assert s.log + [2] == [0, 2];
    s, states, actions := Extend(c, states, actions, LiveCommit(2));
    InvAlways(c, states, actions, |states| - 1);
    AtsTablesReplay(c, s);
    assert SetOf([0 as nat, 2]) == {0, 2};
    NothingOpenMeansAllDone(s.queue);
  }

  // ---- a block that cannot be committed ----

  /**
   * A block whose commit is refused stays missing, and keeps the queue open at every seeded head above it,
   * for as long as no block that creates an id it writes is committed again. Retrying it does not help.
   */
  lemma RefusedKeepsQueueOpen(c: Chain, states: seq<State>, actions: seq<Action>, i: nat, k: nat, count: nat, m: nat)
    requires NoDup(c.endowed) && IsRun(c, states, actions) && i <= k < |states|
    requires AtsHistory.PalletHistory(c.ats, count).Some? && AtsOrder.Within(states[k].log, count)
    requires m !in states[i].log && AtsHistory.ReplayAts(c.ats, states[i].log + [m]) == None
    requires forall j :: |states[i].log| <= j < |states[k].log| && states[k].log[j] != m ==>
      !AtsRefusals.CreatesFor(c.ats, states[k].log[j], m)
    ensures m !in states[k].tables.rows.blocks
    ensures forall head :: head in states[k].seeded && m <= head ==> OpenCount(states[k].queue) > 0
  {
    var before, s := states[i].log, states[k];
    RunsAdvance(c, states, actions, i, k);
    InvAlways(c, states, actions, k);
    AtsTablesReplay(c, s);
    hide Inv, AtsHistory.ReplayAts, AtsHistory.PalletHistory, AtsRefusals.CreatesFor, AtsOrder.Within;
    var more := s.log[|before|..];
    assert s.log == before + more;
    forall n | n in more && n != m ensures !AtsRefusals.CreatesFor(c.ats, n, m) {
      var j :| 0 <= j < |more| && more[j] == n;
      assert s.log[|before| + j] == n;
    }
    AtsRefusals.RefusedStays(c.ats, count, before, more, m);
    assert m in SetOf(s.log) ==> m in s.log;
    forall head | head in s.seeded && m <= head ensures OpenCount(s.queue) > 0 {
      DrainedQueueMeansCompleteHistory(c, states, actions, k, head);
    }
  }

  /** The plan for one missing block is that block. */
  lemma OneMissing(blocks: set<nat>, head: nat, b: nat)
    requires head < TWO_63 && b <= head && forall n: nat :: n <= head && n !in blocks <==> n == b
    ensures PlanFor(blocks, head, 1) == [(b, b)]
  {
    var ranges := PlanFor(blocks, head, 1);
    PlanCovers(blocks, head, 1);
    PlanExactIff(blocks, head, 1);
    SplitTilesAndCovers(head, IndexedUpTo(blocks, head), 1);
    assert Tiled(ranges, 0, head) && Covers(ranges, b);
    hide PlanFor, Split;
    forall i | 0 <= i < |ranges| ensures ranges[i] == (b, b) {
      assert Covers(ranges, ranges[i].0) && Covers(ranges, ranges[i].1);
    }
    assert |ranges| > 1 ==> ranges[0].1 < ranges[1].0;
  }

  /** The gap is seeded and claimed. */
  lemma GapClaimed(c: Chain) returns (states: seq<State>, actions: seq<Action>)
    requires NoDup(c.endowed) && AtsHistory.ReplayAts(c.ats, [0]).Some? && AtsHistory.ReplayAts(c.ats, [0, 2]).Some?
    ensures IsRun(c, states, actions)
    ensures var s := states[|states| - 1];
      && s.log == [0, 2] && s.cursor == Some(2) && s.seeded == {0, 2}
      && s.queue == [Chunk(0, 0, Done), Chunk(1, 1, Running(Some(300)))] && s.holds == map[2 := Hold(1, 1, 300)]
  {
    hide AtsHistory.ReplayAts, Commit, NoDup, PlanFor;
    var s: State;
    states, actions := LateStartLeavesGap(c);
    OneMissing({0, 2}, 2, 1);
    s, states, actions := Extend(c, states, actions, SeedRead(2, 1));
    assert s.plans[1] == Plan(2, [(1, 1)]) && s.plans[1].ranges[1..] == [];
    s, states, actions := Extend(c, states, actions, SeedInsert(1));
    assert s.queue == [Chunk(0, 0, Done), Chunk(1, 1, Pending)];
    s, states, actions := Extend(c, states, actions, Claim(2, 1));
  }

  lemma HandBack(c: Chain, states: seq<State>, actions: seq<Action>, w: nat, i: nat, n: nat)
    returns (t: State, states': seq<State>, actions': seq<Action>)
    requires NoDup(c.endowed) && IsRun(c, states, actions)
    requires var s := states[|states| - 1];
      && w in s.holds && s.holds[w].chunk == i < |s.queue| && s.holds[w].next == n
      && AtsHistory.ReplayAts(c.ats, s.log + [n]) == None
    ensures Next(c, states[|states| - 1], BackfillCommit(w)) == None
    ensures IsRun(c, states', actions') && states' == states + [t]
    ensures var s := states[|states| - 1];
      t == s.(queue := SetStatus(s.queue, i, Pending), holds := s.holds - {w})
  {
    hide AtsHistory.ReplayAts, Commit, NoDup, Inv;
    InvAlways(c, states, actions, |states| - 1);
    CommitIff(c, states[|states| - 1], n);
    t, states', actions' := Extend(c, states, actions, MarkFailed(w));
  }

  /**
   * Such a run: an id is created in block 0, updated in block 1 and revoked in block 2, and 0 and 2 are
   * committed first. The holder of block 1 cannot commit it and hands the chunk back, to be tried again.
   */
  lemma UpdateIsRefused(c: Chain, created: Ats.AtsEvent, updated: Ats.AtsEvent)
    returns (states: seq<State>, actions: seq<Action>)
    requires NoDup(c.endowed)
    requires created.Created? && updated.Updated? && updated.id == created.id && updated.version == 1
    requires c.ats(0) == [(0, created)] && c.ats(1) == [(0, updated)] && c.ats(2) == [(0, Ats.Revoked(created.id))]
    ensures IsRun(c, states, actions) && |states| > 1
    ensures AtsHistory.PalletHistory(c.ats, 3).Some?
    ensures var s, t := states[|states| - 2], states[|states| - 1];
      && 2 in s.holds && s.holds[2].next == 1 && Next(c, s, BackfillCommit(2)) == None
      && t.log == [0, 2] && AtsHistory.ReplayAts(c.ats, t.log + [1]) == None
      && t.seeded == {0, 2} && t.queue == [Chunk(0, 0, Done), Chunk(1, 1, Pending)]
  {
    hide AtsHistory.ReplayAts, AtsHistory.PalletHistory, NoDup, Next;
    AtsRefusals.RevokedBeforeUpdate(c.ats, created, updated);
    var t: State;
    states, actions := GapClaimed(c);
    assert [0, 2] + [1] == [0, 2, 1];
    t, states, actions := HandBack(c, states, actions, 2, 1, 1);
  }
}
