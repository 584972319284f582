/**
 * Replaying blocks: whatever order blocks are committed in, and however often, the five row tables
 * are those of committing each of them once in ascending order.
 */
module Replay {
  import opened Wrappers
  import opened Bytes
  import opened Collections
  import opened KeyedRows
  import opened Chain
  import opened Snapshots
  import opened Sink
  import AtsHistory

  function ReplayRows(c: Chain, log: seq<nat>): RowTables
    decreases |log|
  {
    if log == [] then NO_ROWS else CommitRows(c, log[|log| - 1], ReplayRows(c, log[..|log| - 1]))
  }

  /** The rows are those of the blocks in `done`. Nothing here depends on an order. */
  ghost predicate RowsHold(c: Chain, t: RowTables, done: set<nat>) {
    && Holds(t.blocks, BlockRowsOf(c), done)
    && Holds(t.extrinsics, ExtrinsicRowsOf(c), done)
    && Holds(t.events, EventRowsOf(c), done)
    && Holds(t.movements, MovementRowsOf(c), done)
    && AccountsHold(t.accounts, AppliedTo(c, done), c.world, ClockOf(c))
  }

  ghost function Plus(before: AccountId -> set<nat>, touched: seq<AccountId>, n: nat): AccountId -> set<nat> {
    (a: AccountId) => before(a) + if a in touched then {n} else {}
  }

  lemma AccountsHoldSame(t: Accounts, f: AccountId -> set<nat>, g: AccountId -> set<nat>, world: World, ms: Clock)
    requires AccountsHold(t, f, world, ms) && forall a :: f(a) == g(a)
    ensures AccountsHold(t, g, world, ms)
  {
    forall a ensures RowHolds(t, a, g(a), world, ms) { assert RowHolds(t, a, f(a), world, ms); }
  }

  lemma TouchedHold(c: Chain, accounts: Accounts, touched: seq<AccountId>, n: nat, before: AccountId -> set<nat>)
    requires NoDup(touched) && AccountsHold(accounts, before, c.world, ClockOf(c))
    ensures AccountsHold(Upsert(accounts, RowsAt(touched, n, c.world, TimestampAt(c, n))),
                         Plus(before, touched, n), c.world, ClockOf(c))
  {
    hide AccountsHold, RowsAt, Upsert;
    AccountsHoldUpsert(accounts, touched, n, before, Plus(before, touched, n), c.world, ClockOf(c));
  }

  lemma AccountsAfterHold(c: Chain, accounts: Accounts, done: set<nat>, n: nat)
    requires NoDup(c.endowed)
    requires AccountsHold(accounts, AppliedTo(c, done), c.world, ClockOf(c))
    ensures AccountsHold(AccountsAfter(c, n, accounts), AppliedTo(c, done + {n}), c.world, ClockOf(c))
  {
    hide AccountsHold, RowsAt, Upsert, TouchedAt, AppliedSet;
    var before := AppliedTo(c, done);
    var mid := Plus(before, TouchedAt(c, n), n);
    TouchedNoDup(c, n);
    TouchedHold(c, accounts, TouchedAt(c, n), n, before);
    var last := if n == 0 then Plus(mid, c.endowed, 0) else mid;
    if n == 0 {
      TouchedHold(c, Upsert(accounts, RowsAt(TouchedAt(c, n), n, c.world, TimestampAt(c, n))), c.endowed, 0, mid);
    }
    forall a: AccountId ensures last(a) == AppliedTo(c, done + {n})(a) { AppliedSetGrows(c, done, n, a); }
    AccountsHoldSame(AccountsAfter(c, n, accounts), last, AppliedTo(c, done + {n}), c.world, ClockOf(c));
  }

  lemma CommitRowsHold(c: Chain, t: RowTables, done: set<nat>, n: nat)
    requires NoDup(c.endowed) && RowsHold(c, t, done)
    ensures RowsHold(c, CommitRows(c, n, t), done + {n})
  {
    RowsSeparate(c);
    HoldsInsert(t.blocks, BlockRowsOf(c), done, n);
    HoldsInsert(t.extrinsics, ExtrinsicRowsOf(c), done, n);
    HoldsInsert(t.events, EventRowsOf(c), done, n);
    HoldsInsert(t.movements, MovementRowsOf(c), done, n);
    AccountsAfterHold(c, t.accounts, done, n);
  }

  lemma {:induction false} ReplayRowsHold(c: Chain, log: seq<nat>)
    requires NoDup(c.endowed)
    ensures RowsHold(c, ReplayRows(c, log), SetOf(log))
    decreases |log|
  {
    if log == [] {
      assert SetOf(log) == {};
    } else {
      var n, front := log[|log| - 1], log[..|log| - 1];
      assert log == front + [n];
      SetOfSnoc(front, n);
      ReplayRowsHold(c, front);
      CommitRowsHold(c, ReplayRows(c, front), SetOf(front), n);
    }
  }

  lemma RowsHoldUnique(c: Chain, s: RowTables, t: RowTables, done: set<nat>)
    requires RowsHold(c, s, done) && RowsHold(c, t, done)
    ensures s == t
  {
    HoldsUnique(s.blocks, t.blocks, BlockRowsOf(c), done);
    HoldsUnique(s.extrinsics, t.extrinsics, ExtrinsicRowsOf(c), done);
    HoldsUnique(s.events, t.events, EventRowsOf(c), done);
    HoldsUnique(s.movements, t.movements, MovementRowsOf(c), done);
    AccountsHoldUnique(s.accounts, t.accounts, AppliedTo(c, done), c.world, ClockOf(c));
  }

  /** Any sequence of commits leaves the rows of the ascending, repetition-free one. */
  lemma CommitOrderIrrelevant(c: Chain, log: seq<nat>)
    requires NoDup(c.endowed)
    ensures ReplayRows(c, log) == ReplayRows(c, InOrder(SetOf(log)))
  {
    ReplayRowsHold(c, log);
    ReplayRowsHold(c, InOrder(SetOf(log)));
    RowsHoldUnique(c, ReplayRows(c, log), ReplayRows(c, InOrder(SetOf(log))), SetOf(log));
  }

  lemma FirstRowsOne<K, R>(k: K, r: R)
    ensures FirstRows([(k, r)]) == map[k := r]
  {
    var rows := [(k, r)];
    assert rows[1..] == [];
    assert InsertAbsent(map[k := r], rows[1..]) == map[k := r];
  }

  lemma SingletonsHeld<R>(table: map<nat, R>, rowsOf: nat -> seq<(nat, R)>, done: set<nat>, header: nat -> R)
    requires Holds(table, rowsOf, done)
    requires forall n: nat :: rowsOf(n) == [(n, header(n))]
    ensures table.Keys == done
    ensures forall n :: n in done ==> table[n] == header(n)
  {
    forall n: nat ensures FirstRows(rowsOf(n)) == map[n := header(n)] { FirstRowsOne(n, header(n)); }
    forall n | n in done ensures n in table && table[n] == header(n) {
      assert n in FirstRows(rowsOf(n));
    }
  }

  /** Exactly the committed blocks have a block row, and it is the chain's. */
  lemma BlocksHeld(c: Chain, t: RowTables, done: set<nat>)
    requires RowsHold(c, t, done)
    ensures t.blocks.Keys == done
    ensures forall n :: n in done ==> t.blocks[n] == c.header(n)
  {
    SingletonsHeld(t.blocks, BlockRowsOf(c), done, c.header);
  }

  // ---- with the ATS tables, whose commits can fail ----

  /** The tables after committing the blocks of `log` in order; None if a commit failed. */
  function ReplayAll(c: Chain, log: seq<nat>): Option<Tables>
    decreases |log|
  {
    if log == [] then Some(Tables(NO_ROWS, AtsHistory.EMPTY))
    else
      match ReplayAll(c, log[..|log| - 1])
      case None => None
      case Some(t) => Commit(c, log[|log| - 1], t)
  }

  lemma {:induction false} ReplayAllSplits(c: Chain, log: seq<nat>)
    ensures ReplayAll(c, log) ==
      match AtsHistory.ReplayAts(c.ats, log)
      case None => None
      case Some(ats) => Some(Tables(ReplayRows(c, log), ats))
    decreases |log|
  {
    if log != [] { ReplayAllSplits(c, log[..|log| - 1]); }
  }
}
