/**
 * The indexer of one network as a concurrent protocol: one live worker, any number of backfill
 * workers and seeders, sharing the tables, the chunk queue and the live cursor
 * (src/indexer/live.rs, src/indexer/backfill.rs).
 *
 * Every committed transaction is one atomic step with a known outcome. Workers may crash and restart
 * at any point; a backfill worker that crashes, or that is merely slow, keeps its chunk marked
 * running until the lease runs out and another worker takes it.
 */
module Indexer {
  import opened Wrappers
  import opened Collections
  import opened Ints
  import opened GapSplit
  import opened ChunkQueue
  import opened Chain
  import opened Sink
  import opened Replay
  import AtsHistory

  /** A backfill worker between claiming a chunk and retiring it: blocks below `next` are indexed. */
  datatype Hold = Hold(chunk: nat, next: nat, deadline: nat)

  datatype Live = Down | Up(last: Option<nat>)

  /** A seeder between reading the indexed blocks and inserting its chunks. */
  datatype Plan = Plan(head: nat, ranges: seq<Range>)

  datatype State = State(
    tables: Tables,
    cursor: Option<nat>,
    queue: seq<Chunk>,
    holds: map<nat, Hold>,
    live: Live,
    plans: seq<Plan>,
    now: nat,
    // history: the commits in order, the first live commit, the heads whose seeding completed
    log: seq<nat>,
    anchor: Option<nat>,
    seeded: set<nat>)

  const INITIAL: State :=
    State(Tables(NO_ROWS, AtsHistory.EMPTY), None, [], map[], Down, [], 0, [], None, {})

  datatype Action =
    | SeedRead(head: nat, size: nat)
    | SeedInsert(plan: nat)
    | Claim(worker: nat, chunk: nat)
    | BackfillCommit(worker: nat)
    | MarkDone(worker: nat)
    | MarkFailed(worker: nat)
    | BackfillCrash(worker: nat)
    | LiveBoot
    | LiveCommit(head: nat)
    | LiveCrash
    | Tick(seconds: nat)

  /** The next block the live worker indexes when it sees `head`; None if it has caught up. */
  function NextLive(last: Option<nat>, head: nat): Option<nat> {
    var start := match last case Some(x) => SatAdd(x, 1, U64_MAX) case None => head;
    if start <= head then Some(start) else None
  }

  // ---- the steps; None when a step is not possible ----

  function SeedReadNext(s: State, head: nat, size: nat): Option<State> {
    if size == 0 || head > U64_MAX then None
    else Some(s.(plans := s.plans + [Plan(head, PlanFor(s.tables.rows.blocks.Keys, head, size))]))
  }

  function SeedInsertNext(s: State, p: nat): Option<State> {
    if p >= |s.plans| then None
    else Some(s.(queue := InsertRanges(s.queue, s.plans[p].ranges), seeded := s.seeded + {s.plans[p].head}))
  }

  /** Any claimable chunk: which ones peers have locked at that moment is not known. */
  function ClaimNext(s: State, w: nat, i: nat): Option<State> {
    if w in s.holds || i >= |s.queue| || !Claimable(s.queue[i], s.now) then None
    else
      var deadline := s.now + LEASE_SECS;
      Some(s.(queue := SetStatus(s.queue, i, Running(Some(deadline))),
              holds := s.holds[w := Hold(i, s.queue[i].lo, deadline)]))
  }

  function BackfillCommitNext(c: Chain, s: State, w: nat): Option<State> {
    if w !in s.holds || s.holds[w].chunk >= |s.queue| || s.holds[w].next > s.queue[s.holds[w].chunk].hi then None
    else
      var h := s.holds[w];
      match Commit(c, h.next, s.tables)
      case None => None
      case Some(t) => Some(s.(tables := t, log := s.log + [h.next], holds := s.holds[w := h.(next := h.next + 1)]))
  }

  function MarkDoneNext(s: State, w: nat): Option<State> {
    if w !in s.holds || s.holds[w].chunk >= |s.queue| || s.holds[w].next <= s.queue[s.holds[w].chunk].hi then None
    else Some(s.(queue := SetStatus(s.queue, s.holds[w].chunk, Done), holds := s.holds - {w}))
  }

  function MarkFailedNext(s: State, w: nat): Option<State> {
    if w !in s.holds then None
    else Some(s.(queue := SetStatus(s.queue, s.holds[w].chunk, Pending), holds := s.holds - {w}))
  }

  function BackfillCrashNext(s: State, w: nat): Option<State> {
    if w !in s.holds then None else Some(s.(holds := s.holds - {w}))
  }

  function LiveBootNext(s: State): Option<State> {
    if s.live.Up? then None else Some(s.(live := Up(s.cursor)))
  }

  function LiveCommitNext(c: Chain, s: State, head: nat): Option<State> {
    if s.live.Down? || head > U64_MAX || NextLive(s.live.last, head).None? then None
    else
      var n := NextLive(s.live.last, head).value;
      match Commit(c, n, s.tables)
      case None => None
      case Some(t) => Some(s.(
        tables := t, log := s.log + [n], cursor := BumpCursor(s.cursor, n), live := Up(Some(n)),
        anchor := if s.anchor.None? then Some(n) else s.anchor))
  }

  function LiveCrashNext(s: State): Option<State> {
    if s.live.Down? then None else Some(s.(live := Down))
  }

  /**
   * A failed RPC call or a transaction that rolls back changes nothing shared, so it shows only as
   * the worker not committing: the live worker retries from the same `last`, a backfill worker goes
   * on to `MarkFailed`.
   */
  function Next(c: Chain, s: State, a: Action): Option<State> {
    match a
    case SeedRead(head, size) => SeedReadNext(s, head, size)
    case SeedInsert(p) => SeedInsertNext(s, p)
    case Claim(w, i) => ClaimNext(s, w, i)
    case BackfillCommit(w) => BackfillCommitNext(c, s, w)
    case MarkDone(w) => MarkDoneNext(s, w)
    case MarkFailed(w) => MarkFailedNext(s, w)
    case BackfillCrash(w) => BackfillCrashNext(s, w)
    case LiveBoot => LiveBootNext(s)
    case LiveCommit(head) => LiveCommitNext(c, s, head)
    case LiveCrash => LiveCrashNext(s)
    case Tick(seconds) => Some(s.(now := s.now + seconds))
  }

  /** A run: `states[0]` is the empty database, and each action leads to the next state. */
  ghost predicate IsRun(c: Chain, states: seq<State>, actions: seq<Action>) {
    && |states| == |actions| + 1
    && states[0] == INITIAL
    && forall i :: 0 <= i < |actions| ==> Next(c, states[i], actions[i]) == Some(states[i + 1])
  }

  // ---- invariants ----

  ghost predicate RangeCommitted(log: seq<nat>, lo: nat, end: nat) {
    forall b :: lo <= b < end ==> b in log
  }

  /** The tables are the replay of the commits, in the order they happened. */
  ghost predicate TablesReplay(c: Chain, tables: Tables, log: seq<nat>) {
    ReplayAll(c, log) == Some(tables)
  }

  /** The range is a real one, and if it is marked done it has been indexed. */
  ghost predicate ChunkHonest(chunk: Chunk, log: seq<nat>) {
    && chunk.lo <= chunk.hi
    && (chunk.status.Done? ==> RangeCommitted(log, chunk.lo, chunk.hi + 1))
  }

  /** What a holder has passed has been indexed. */
  ghost predicate HoldHonest(h: Hold, queue: seq<Chunk>, log: seq<nat>) {
    && h.chunk < |queue|
    && queue[h.chunk].lo <= h.next <= queue[h.chunk].hi + 1
    && RangeCommitted(log, queue[h.chunk].lo, h.next)
  }

  ghost predicate QueueHonest(queue: seq<Chunk>, holds: map<nat, Hold>, log: seq<nat>) {
    && (forall i :: 0 <= i < |queue| ==> ChunkHonest(queue[i], log))
    && (forall w :: w in holds ==> HoldHonest(holds[w], queue, log))
  }

  /** Some chunk, whatever its status, holds the block. */
  ghost predicate Queued(queue: seq<Chunk>, b: nat) {
    exists i :: 0 <= i < |queue| && queue[i].lo <= b <= queue[i].hi
  }

  /** Every block up to the head that is not indexed is in the planned ranges. */
  ghost predicate PlanHonest(plan: Plan, log: seq<nat>) {
    && (forall b: nat :: b <= plan.head && b !in log ==> Covers(plan.ranges, b))
    && (forall r :: r in plan.ranges ==> r.0 <= r.1)
  }

  /** Nothing is forgotten between reading, planning and inserting. */
  ghost predicate NothingForgotten(plans: seq<Plan>, seeded: set<nat>, queue: seq<Chunk>, log: seq<nat>) {
    && (forall p :: 0 <= p < |plans| ==> PlanHonest(plans[p], log))
    && (forall h, b: nat :: h in seeded && b <= h && b !in log ==> Queued(queue, b))
  }

  /** The live worker's stored progress has no holes, and a running worker agrees with it. */
  ghost predicate LiveContiguous(cursor: Option<nat>, anchor: Option<nat>, live: Live, log: seq<nat>) {
    && (cursor.Some? <==> anchor.Some?)
    && (cursor.Some? ==> anchor.value <= cursor.value <= U64_MAX && RangeCommitted(log, anchor.value, cursor.value + 1))
    && (live.Up? ==> live.last == cursor)
  }

  ghost predicate Inv(c: Chain, s: State) {
    && TablesReplay(c, s.tables, s.log)
    && QueueHonest(s.queue, s.holds, s.log)
    && UniqueRanges(s.queue)
    && NothingForgotten(s.plans, s.seeded, s.queue, s.log)
    && LiveContiguous(s.cursor, s.anchor, s.live, s.log)
  }

  // ---- more commits break nothing ----

  lemma QueueHonestGrows(queue: seq<Chunk>, holds: map<nat, Hold>, log: seq<nat>, n: nat)
    requires QueueHonest(queue, holds, log)
    ensures QueueHonest(queue, holds, log + [n])
  {
    forall i | 0 <= i < |queue| ensures ChunkHonest(queue[i], log + [n]) {
      assert ChunkHonest(queue[i], log);
    }
    forall w | w in holds ensures HoldHonest(holds[w], queue, log + [n]) {
      assert HoldHonest(holds[w], queue, log);
    }
  }

  lemma NothingForgottenGrows(plans: seq<Plan>, seeded: set<nat>, queue: seq<Chunk>, log: seq<nat>, n: nat)
    requires NothingForgotten(plans, seeded, queue, log)
    ensures NothingForgotten(plans, seeded, queue, log + [n])
  {
    forall p | 0 <= p < |plans| ensures PlanHonest(plans[p], log + [n]) {
      assert PlanHonest(plans[p], log);
    }
  }

  /** Changing a chunk's status moves no range. */
  lemma NothingForgottenStatus(plans: seq<Plan>, seeded: set<nat>, queue: seq<Chunk>, log: seq<nat>, id: nat, status: Status)
    requires NothingForgotten(plans, seeded, queue, log)
    ensures NothingForgotten(plans, seeded, SetStatus(queue, id, status), log)
  {
    var queue' := SetStatus(queue, id, status);
    forall h, b: nat | h in seeded && b <= h && b !in log ensures Queued(queue', b) {
      var i :| 0 <= i < |queue| && queue[i].lo <= b <= queue[i].hi;
      assert queue'[i].lo == queue[i].lo && queue'[i].hi == queue[i].hi;
    }
  }

  lemma QueueHonestStatus(queue: seq<Chunk>, holds: map<nat, Hold>, log: seq<nat>, id: nat, status: Status)
    requires QueueHonest(queue, holds, log)
    requires status.Done? && id < |queue| ==> RangeCommitted(log, queue[id].lo, queue[id].hi + 1)
    ensures QueueHonest(SetStatus(queue, id, status), holds, log)
  {
    var queue' := SetStatus(queue, id, status);
    forall i | 0 <= i < |queue'| ensures ChunkHonest(queue'[i], log) {
      assert ChunkHonest(queue[i], log);
    }
    forall w | w in holds ensures HoldHonest(holds[w], queue', log) {
      assert HoldHonest(holds[w], queue, log);
    }
  }

  lemma ReplayAllSnoc(c: Chain, log: seq<nat>, n: nat, t: Tables)
    requires ReplayAll(c, log) == Some(t)
    ensures ReplayAll(c, log + [n]) == Commit(c, n, t)
  {
    assert (log + [n])[..|log|] == log;
  }

  // ---- each step keeps the invariants ----

  /** The block table lists exactly the committed blocks, each with the chain's header. */
  lemma BlocksAreCommitted(c: Chain, tables: Tables, log: seq<nat>)
    requires NoDup(c.endowed) && TablesReplay(c, tables, log)
    ensures tables.rows == ReplayRows(c, log)
    ensures tables.rows.blocks.Keys == SetOf(log)
    ensures forall n :: n in log ==> tables.rows.blocks[n] == c.header(n)
  {
    ReplayAllSplits(c, log);
    ReplayRowsHold(c, log);
    BlocksHeld(c, tables.rows, SetOf(log));
    assert forall n :: n in log ==> n in SetOf(log);
  }

  lemma PlanIsHonest(blocks: set<nat>, head: nat, size: nat, log: seq<nat>)
    requires 0 < size && head <= U64_MAX && blocks == SetOf(log)
    ensures PlanHonest(Plan(head, PlanFor(blocks, head, size)), log)
  {
    PlanCovers(blocks, head, size);
  }

  lemma SeedReadKeeps(c: Chain, s: State, head: nat, size: nat, s': State)
    requires Inv(c, s) && NoDup(c.endowed) && SeedReadNext(s, head, size) == Some(s')
    ensures Inv(c, s')
  {
    BlocksAreCommitted(c, s.tables, s.log);
    PlanIsHonest(s.tables.rows.blocks.Keys, head, size, s.log);
  }

  lemma QueueHonestInsert(queue: seq<Chunk>, holds: map<nat, Hold>, log: seq<nat>, ranges: seq<Range>)
    requires QueueHonest(queue, holds, log) && forall r :: r in ranges ==> r.0 <= r.1
    ensures QueueHonest(InsertRanges(queue, ranges), holds, log)
  {
    var queue' := InsertRanges(queue, ranges);
    InsertRangesExtends(queue, ranges);
    forall i | 0 <= i < |queue'| ensures ChunkHonest(queue'[i], log) {
      if i < |queue| { assert queue'[i] == queue[i]; }
      else { assert (queue'[i].lo, queue'[i].hi) in ranges; }
    }
    forall w | w in holds ensures HoldHonest(holds[w], queue', log) {
      assert HoldHonest(holds[w], queue, log);
      assert queue'[holds[w].chunk] == queue[holds[w].chunk];
    }
  }

  lemma NothingForgottenInsert(plans: seq<Plan>, seeded: set<nat>, queue: seq<Chunk>, log: seq<nat>, plan: Plan)
    requires NothingForgotten(plans, seeded, queue, log) && PlanHonest(plan, log)
    ensures NothingForgotten(plans, seeded + {plan.head}, InsertRanges(queue, plan.ranges), log)
  {
    var queue' := InsertRanges(queue, plan.ranges);
    InsertRangesExtends(queue, plan.ranges);
    forall h, b: nat | h in seeded + {plan.head} && b <= h && b !in log ensures Queued(queue', b) {
      if h in seeded {
        var i :| 0 <= i < |queue| && queue[i].lo <= b <= queue[i].hi;
        assert queue'[i] == queue[i];
      } else {
        var k :| 0 <= k < |plan.ranges| && plan.ranges[k].0 <= b <= plan.ranges[k].1;
        assert HasRange(queue', plan.ranges[k]);
      }
    }
  }

  lemma SeedInsertKeeps(c: Chain, s: State, p: nat, s': State)
    requires Inv(c, s) && SeedInsertNext(s, p) == Some(s')
    ensures Inv(c, s')
  {
    assert PlanHonest(s.plans[p], s.log);
    QueueHonestInsert(s.queue, s.holds, s.log, s.plans[p].ranges);
    NothingForgottenInsert(s.plans, s.seeded, s.queue, s.log, s.plans[p]);
    InsertRangesExtends(s.queue, s.plans[p].ranges);
  }

  lemma HoldsChange(queue: seq<Chunk>, holds: map<nat, Hold>, log: seq<nat>, w: nat, h: Hold)
    requires QueueHonest(queue, holds, log) && HoldHonest(h, queue, log)
    ensures QueueHonest(queue, holds[w := h], log)
  {
    var holds' := holds[w := h];
    forall v | v in holds' ensures HoldHonest(holds'[v], queue, log) {
      if v != w { assert HoldHonest(holds[v], queue, log); }
    }
  }

  lemma EmptyRange(log: seq<nat>, lo: nat)
    ensures RangeCommitted(log, lo, lo)
  {
  }

  lemma ClaimKeeps(c: Chain, s: State, w: nat, i: nat, s': State)
    requires Inv(c, s) && ClaimNext(s, w, i) == Some(s')
    ensures Inv(c, s')
  {
    hide ReplayAll, Queued, PlanHonest, RangeCommitted;
    var status := Running(Some(s.now + LEASE_SECS));
    assert ChunkHonest(s.queue[i], s.log);
    assert RangeCommitted(s.log, s.queue[i].lo, s.queue[i].lo) by { EmptyRange(s.log, s.queue[i].lo); }
    QueueHonestStatus(s.queue, s.holds, s.log, i, status);
    NothingForgottenStatus(s.plans, s.seeded, s.queue, s.log, i, status);
    HoldsChange(s'.queue, s.holds, s.log, w, s'.holds[w]);
  }

  lemma BackfillCommitKeeps(c: Chain, s: State, w: nat, s': State)
    requires Inv(c, s) && BackfillCommitNext(c, s, w) == Some(s')
    ensures Inv(c, s')
  {
    hide Commit;
    var h := s.holds[w];
    ReplayAllSnoc(c, s.log, h.next, s.tables);
    QueueHonestGrows(s.queue, s.holds, s.log, h.next);
    NothingForgottenGrows(s.plans, s.seeded, s.queue, s.log, h.next);
    assert HoldHonest(h, s.queue, s.log);
    HoldsChange(s.queue, s.holds, s'.log, w, s'.holds[w]);
  }

  lemma HoldsDrop(queue: seq<Chunk>, holds: map<nat, Hold>, log: seq<nat>, w: nat)
    requires QueueHonest(queue, holds, log)
    ensures QueueHonest(queue, holds - {w}, log)
  {
    var holds' := holds - {w};
    forall v | v in holds' ensures HoldHonest(holds'[v], queue, log) {
      assert HoldHonest(holds[v], queue, log);
    }
  }

  lemma RetireKeeps(c: Chain, s: State, w: nat, status: Status, s': State)
    requires Inv(c, s) && w in s.holds
    requires status.Done? ==> MarkDoneNext(s, w) == Some(s')
    requires !status.Done? ==> status.Pending? && MarkFailedNext(s, w) == Some(s')
    ensures Inv(c, s')
  {
    assert HoldHonest(s.holds[w], s.queue, s.log);
    QueueHonestStatus(s.queue, s.holds, s.log, s.holds[w].chunk, status);
    NothingForgottenStatus(s.plans, s.seeded, s.queue, s.log, s.holds[w].chunk, status);
    HoldsDrop(s'.queue, s.holds, s.log, w);
  }

  /** Committing the block the loop picks extends the stored progress by one, or starts it. */
  lemma LiveAdvances(cursor: Option<nat>, anchor: Option<nat>, log: seq<nat>, head: nat, n: nat)
    requires LiveContiguous(cursor, anchor, Up(cursor), log)
    requires head <= U64_MAX && NextLive(cursor, head) == Some(n)
    ensures BumpCursor(cursor, n) == Some(n)
    ensures LiveContiguous(Some(n), if anchor.None? then Some(n) else anchor, Up(Some(n)), log + [n])
  {
    assert n in log + [n];
  }

  lemma LiveCommitKeeps(c: Chain, s: State, head: nat, s': State)
    requires Inv(c, s) && LiveCommitNext(c, s, head) == Some(s')
    ensures Inv(c, s')
  {
    hide Commit;
    var n := NextLive(s.live.last, head).value;
    assert s.live == Up(s.cursor);
    ReplayAllSnoc(c, s.log, n, s.tables);
    QueueHonestGrows(s.queue, s.holds, s.log, n);
    NothingForgottenGrows(s.plans, s.seeded, s.queue, s.log, n);
    LiveAdvances(s.cursor, s.anchor, s.log, head, n);
  }

  /** Every step keeps the invariants. */
  lemma StepKeepsInv(c: Chain, s: State, a: Action, s': State)
    requires Inv(c, s) && NoDup(c.endowed) && Next(c, s, a) == Some(s')
    ensures Inv(c, s')
  {
    match a {
      case SeedRead(head, size) => SeedReadKeeps(c, s, head, size, s');
      case SeedInsert(p) => SeedInsertKeeps(c, s, p, s');
      case Claim(w, i) => ClaimKeeps(c, s, w, i, s');
      case BackfillCommit(w) => BackfillCommitKeeps(c, s, w, s');
      case MarkDone(w) => RetireKeeps(c, s, w, Done, s');
      case MarkFailed(w) => RetireKeeps(c, s, w, Pending, s');
      case BackfillCrash(w) => HoldsDrop(s.queue, s.holds, s.log, w);
      case LiveCommit(head) => LiveCommitKeeps(c, s, head, s');
      case LiveBoot =>
      case LiveCrash =>
      case Tick(_) =>
    }
  }

  /** Every reachable state satisfies the invariants. */
  lemma {:induction false} InvAlways(c: Chain, states: seq<State>, actions: seq<Action>, k: nat)
    requires NoDup(c.endowed) && IsRun(c, states, actions) && k < |states|
    ensures Inv(c, states[k])
    decreases k
  {
    if k > 0 {
      hide Next, Inv, NoDup;
      InvAlways(c, states, actions, k - 1);
      assert Next(c, states[k - 1], actions[k - 1]) == Some(states[k]);
      StepKeepsInv(c, states[k - 1], actions[k - 1], states[k]);
    }
  }
}
