/**
 * What the five row tables hold, in terms of the chain's blocks and events alone: every row that is there,
 * its key and its fields. `RowsHold` reduces a table to the rows a block inserts; here those rows are read
 * off the chain.
 */
module TableContents {
  import opened Wrappers
  import opened Bytes
  import opened Collections
  import opened KeyedRows
  import opened Chain
  import opened Snapshots
  import opened Sink
  import opened Replay
  import opened Movements
  import StoredMovements
  import Touched

  // ---- extrinsics and events ----

  lemma PositionsOfBlock<R>(rows: seq<((nat, nat), R)>, n: nat, i: nat)
    requires forall j :: 0 <= j < |rows| ==> rows[j].0 == (n, j)
    ensures (n, i) in FirstRows(rows) <==> i < |rows|
    ensures i < |rows| ==> FirstRows(rows)[(n, i)] == rows[i].1
  {
    FirstRowsKeys(rows);
    if i < |rows| {
      assert rows[i].0 == (n, i);
      var j :| 0 <= j < |rows| && rows[j] == ((n, i), FirstRows(rows)[(n, i)]);
    }
  }

  lemma PositionsHeld<R>(table: map<(nat, nat), R>, rowsOf: nat -> seq<((nat, nat), R)>, done: set<nat>, n: nat, i: nat)
    requires Holds(table, rowsOf, done)
    requires forall m: nat, j :: 0 <= j < |rowsOf(m)| ==> rowsOf(m)[j].0 == (m, j)
    ensures (n, i) in table <==> n in done && i < |rowsOf(n)|
    ensures n in done && i < |rowsOf(n)| ==> table[(n, i)] == rowsOf(n)[i].1
  {
    PositionsOfBlock(rowsOf(n), n, i);
    if (n, i) in table {
      var m :| m in done && (n, i) in FirstRows(rowsOf(m));
      FirstRowsKeys(rowsOf(m));
    }
  }

  /** One row per extrinsic of an indexed block, under its block and position, stamped with the block's time. */
  lemma ExtrinsicsHeld(c: Chain, t: RowTables, done: set<nat>, n: nat, i: nat)
    requires RowsHold(c, t, done)
    ensures (n, i) in t.extrinsics <==> n in done && i < |c.extrinsics(n)|
    ensures (n, i) in t.extrinsics ==> t.extrinsics[(n, i)] == Stamped(c.extrinsics(n)[i], c.header(n).timestampMs)
  {
    hide Holds;
    PositionsHeld(t.extrinsics, ExtrinsicRowsOf(c), done, n, i);
  }

  /** One row per event, likewise. */
  lemma EventsHeld(c: Chain, t: RowTables, done: set<nat>, n: nat, i: nat)
    requires RowsHold(c, t, done)
    ensures (n, i) in t.events <==> n in done && i < |c.events(n)|
    ensures (n, i) in t.events ==> t.events[(n, i)] == Stamped(c.events(n)[i], c.header(n).timestampMs)
  {
    hide Holds;
    PositionsHeld(t.events, EventRowsOf(c), done, n, i);
  }

  // ---- movements ----

  /** The event at that position of the block moves value from or to the account. */
  ghost predicate Moves(raws: seq<RawEvent>, idx: nat, a: AccountId) {
    exists evt :: idx < |raws| && Reports(raws[idx], evt)
      && (if StoredCode(evt) in {0, 17, 18} then a in {evt.source, evt.dest} else a == evt.who)
  }

  lemma MovesIff(raws: seq<RawEvent>, block: nat, idx: nat, a: AccountId)
    requires AmountsFit(raws)
    ensures Moves(raws, idx, a) <==>
      exists row :: row in Project(DecodeFrom(raws, 0), block) && row.eventIdx == idx && row.account == a
  {
    hide Project, DecodeFrom, Reports, AmountsFit;
    if Moves(raws, idx, a) {
      var evt :| idx < |raws| && Reports(raws[idx], evt)
        && (if StoredCode(evt) in {0, 17, 18} then a in {evt.source, evt.dest} else a == evt.who);
      var row := BookedRow(block, idx, evt, a);
      BlockRowsIff(raws, block, row);
    }
    if row :| row in Project(DecodeFrom(raws, 0), block) && row.eventIdx == idx && row.account == a {
      BlockRowsIff(raws, block, row);
    }
  }

  lemma BookedRow(block: nat, idx: nat, evt: BalanceEvent, a: AccountId) returns (row: MovementRow)
    requires if StoredCode(evt) in {0, 17, 18} then a in {evt.source, evt.dest} else a == evt.who
    ensures Books(row, block, idx, evt) && row.account == a
  {
    var kind := CodeKind(evt);
    row := if !TwoSided(evt) then
        MovementRow(block, idx, a, kind, if StoredCode(evt) in GAINS then evt.amount else -(evt.amount as int), None)
      else if a == evt.source then MovementRow(block, idx, a, kind, -(evt.amount as int), Some(evt.dest))
      else MovementRow(block, idx, a, kind, evt.amount, Some(evt.source));
  }

  lemma CodeKind(evt: BalanceEvent) returns (kind: MovementKind)
    ensures Code(kind) == StoredCode(evt)
  {
    kind := RowsOfEvent(0, 0, evt)[0].kind;
  }

  /** The row stored for the account at that event: it books the event, and of a self-transfer it is the debit. */
  ghost predicate Recorded(row: MovementRow, raws: seq<RawEvent>, block: nat, idx: nat) {
    exists evt :: idx < |raws| && Reports(raws[idx], evt) && Books(row, block, idx, evt)
      && (row.counterparty == Some(row.account) ==> row.delta == -(evt.amount as int))
  }

  lemma BookedEvent(raws: seq<RawEvent>, block: nat, row: MovementRow) returns (evt: BalanceEvent)
    requires AmountsFit(raws) && row in Project(DecodeFrom(raws, 0), block)
    ensures row.block == block && row.eventIdx < |raws| && Reports(raws[row.eventIdx], evt)
    ensures Books(row, block, row.eventIdx, evt)
  {
    hide Project, DecodeFrom, Reports, AmountsFit;
    BlockRowsIff(raws, block, row);
    var idx, e :| 0 <= idx < |raws| && Reports(raws[idx], e) && Books(row, block, idx, e);
    evt := e;
  }

  lemma PaidToSelf(row: MovementRow, block: nat, evt: BalanceEvent)
    requires Books(row, block, row.eventIdx, evt) && row.counterparty == Some(row.account)
    ensures SelfTransfer(evt) && evt.source == row.account
  {
  }

  lemma ReportFits(raws: seq<RawEvent>, idx: nat, evt: BalanceEvent)
    requires AmountsFit(raws) && idx < |raws| && Reports(raws[idx], evt)
    ensures evt.amount < TWO_127
  {
  }

  lemma SelfPaid(raws: seq<RawEvent>, block: nat, row: MovementRow, evt: BalanceEvent)
    requires AmountsFit(raws) && row.eventIdx < |raws| && Reports(raws[row.eventIdx], evt)
    requires Books(row, block, row.eventIdx, evt) && row.counterparty == Some(row.account)
    ensures var stored := StoredMovements.Stored(DecodeFrom(raws, 0), block);
      (block, row.eventIdx, row.account) in stored
      && stored[(block, row.eventIdx, row.account)].delta == -(evt.amount as int)
  {
    hide DecodeFrom, StoredMovements.Stored, Books, Reports, AmountsFit, RowsOfEvent, Project;
    var decoded := DecodeFrom(raws, 0);
    DecodeFromIndexes(raws, 0);
    DecodedIff(raws, 0, row.eventIdx, evt);
    PaidToSelf(row, block, evt);
    ReportFits(raws, row.eventIdx, evt);
    var k :| 0 <= k < |decoded| && decoded[k] == (row.eventIdx, evt);
    StoredMovements.SelfDebitStored(decoded, block, k);
  }

  lemma KeyedAt(rows: seq<MovementRow>, block: nat, idx: nat, a: AccountId)
    requires forall row :: row in rows ==> row.block == block
    ensures var stored := FirstRows(KeyedMovements(rows));
      && ((block, idx, a) in stored <==> exists row :: row in rows && row.eventIdx == idx && row.account == a)
      && ((block, idx, a) in stored ==>
            var row := stored[(block, idx, a)]; row in rows && row.eventIdx == idx && row.account == a)
  {
    var keyed := KeyedMovements(rows);
    FirstRowsKeys(keyed);
    hide FirstRows;
    if row :| row in rows && row.eventIdx == idx && row.account == a {
      var j :| 0 <= j < |rows| && rows[j] == row;
      assert keyed[j].0 == (block, idx, a);
    }
    if (block, idx, a) in FirstRows(keyed) {
      var j :| 0 <= j < |keyed| && keyed[j] == ((block, idx, a), FirstRows(keyed)[(block, idx, a)]);
      assert rows[j] in rows;
    }
  }

  lemma BlockMovementsAt(c: Chain, n: nat, idx: nat, a: AccountId)
    requires AmountsFit(c.balanceEvents(n))
    ensures var stored := FirstRows(MovementRows(c, n));
      && ((n, idx, a) in stored <==> Moves(c.balanceEvents(n), idx, a))
      && ((n, idx, a) in stored ==>
            stored[(n, idx, a)].account == a && Recorded(stored[(n, idx, a)], c.balanceEvents(n), n, idx))
  {
    var raws := c.balanceEvents(n);
    var rows := Project(DecodeFrom(raws, 0), n);
    assert FirstRows(MovementRows(c, n)) == FirstRows(KeyedMovements(rows)) == StoredMovements.Stored(DecodeFrom(raws, 0), n);
    hide Project, DecodeFrom, Reports, AmountsFit, Moves, Books, FirstRows, StoredMovements.Stored, KeyedMovements, MovementRows;
    forall row | row in rows ensures row.block == n { var _ := BookedEvent(raws, n, row); }
    KeyedAt(rows, n, idx, a);
    MovesIff(raws, n, idx, a);
    if (n, idx, a) in FirstRows(KeyedMovements(rows)) {
      var row := FirstRows(KeyedMovements(rows))[(n, idx, a)];
      var evt := BookedEvent(raws, n, row);
      if row.counterparty == Some(row.account) { SelfPaid(raws, n, row, evt); }
    }
  }

  /**
   * One movement row per account that an event of an indexed block moves value from or to, with its signed
   * amount, its stored code and the other account.
   */
  lemma MovementsHeld(c: Chain, t: RowTables, done: set<nat>, n: nat, idx: nat, a: AccountId)
    requires RowsHold(c, t, done) && AmountsFit(c.balanceEvents(n))
    ensures (n, idx, a) in t.movements <==> n in done && Moves(c.balanceEvents(n), idx, a)
    ensures (n, idx, a) in t.movements ==>
      t.movements[(n, idx, a)].account == a && Recorded(t.movements[(n, idx, a)], c.balanceEvents(n), n, idx)
  {
    BlockMovementsAt(c, n, idx, a);
    assert Holds(t.movements, MovementRowsOf(c), done);
    hide RowsHold, AmountsFit, Moves, Recorded, MovementRows, FirstRows;
    if (n, idx, a) in t.movements {
      var m :| m in done && (n, idx, a) in FirstRows(MovementRowsOf(c)(m));
      StoredMovements.KeyNamesBlock(c, m, (n, idx, a));
    }
  }

  // ---- accounts ----

  /** The event names the account, which is not the destination of a repatriated reserve. */
  predicate Touching(raw: RawEvent, a: AccountId) {
    a in Named(raw) && !(raw.RepatriatedReserve? && a != raw.source)
  }

  /** The block takes a reading of the account: an event of it touches the account, or it signs, or genesis endows it. */
  predicate Seen(c: Chain, n: nat, a: AccountId) {
    || (exists i :: 0 <= i < |c.balanceEvents(n)| && Touching(c.balanceEvents(n)[i], a))
    || (exists i :: 0 <= i < |c.extrinsics(n)| && c.extrinsics(n)[i].signer == Some(a))
    || (n == 0 && a in c.endowed)
  }

  ghost function SeenIn(c: Chain, done: set<nat>, a: AccountId): set<nat> {
    set n | n in done && Seen(c, n, a)
  }

  lemma {:induction false} SignersIff(signers: seq<Option<AccountId>>, a: AccountId)
    ensures a in Touched.Signers(signers) <==> exists i :: 0 <= i < |signers| && signers[i] == Some(a)
    decreases |signers|
  {
    if signers != [] {
      var tail := signers[1..];
      SignersIff(tail, a);
      assert forall i :: 0 <= i < |tail| ==> tail[i] == signers[i + 1];
      assert forall i :: 0 < i < |signers| ==> signers[i] == tail[i - 1];
    }
  }

  lemma TouchesIff(raw: RawEvent, a: AccountId)
    ensures a in Touches(raw) <==> Touching(raw, a)
  {
  }

  lemma TouchedByEventsIff(raws: seq<RawEvent>, a: AccountId)
    ensures a in TouchedByEvents(raws) <==> exists i :: 0 <= i < |raws| && Touching(raws[i], a)
  {
    hide TouchedByEvents;
    forall i | 0 <= i < |raws| ensures a in Touches(raws[i]) <==> Touching(raws[i], a) { TouchesIff(raws[i], a); }
    hide Touches, Touching;
    forall i | 0 <= i < |raws| && a in Touches(raws[i]) ensures a in TouchedByEvents(raws) { TouchedContains(raws, i, a); }
    if a in TouchedByEvents(raws) { var _ := TouchedOrigin(raws, a); }
  }

  lemma TouchedAtIff(c: Chain, n: nat, a: AccountId)
    ensures a in TouchedAt(c, n) <==>
      a in TouchedByEvents(c.balanceEvents(n)) || a in Touched.Signers(SignersOf(c, n))
  {
    var fromEvents, signers := TouchedByEvents(c.balanceEvents(n)), Touched.Signers(SignersOf(c, n));
    Touched.FirstTouchOrders(fromEvents + signers);
    hide TouchedByEvents, Touched.Signers, Touched.FirstTouch;
    assert a in TouchedAt(c, n) <==> a in SetOf(TouchedAt(c, n));
    assert a in fromEvents + signers <==> a in SetOf(fromEvents + signers);
  }

  lemma SeenIff(c: Chain, n: nat, a: AccountId)
    ensures WritesSnapshot(c, n, a) <==> Seen(c, n, a)
  {
    TouchedAtIff(c, n, a);
    TouchedByEventsIff(c.balanceEvents(n), a);
    SignersIff(SignersOf(c, n), a);
    assert forall i :: 0 <= i < |c.extrinsics(n)| ==> SignersOf(c, n)[i] == c.extrinsics(n)[i].signer;
    hide TouchedByEvents, Touched.Signers, TouchedAt, Touching, SignersOf;
  }

  lemma SameReadings(row: AccountRow, applied: set<nat>, at: Readings, at': Readings, ms: Clock, ms': Clock)
    requires Represents(row, applied, at, ms)
    requires (forall n :: at(n) == at'(n)) && (forall n :: ms(n) == ms'(n))
    ensures Represents(row, applied, at', ms')
  {
  }

  /**
   * An account has a row iff an indexed block takes a reading of it, and the row is that of the highest such
   * block, with the largest nonce and the first and last block and time.
   */
  lemma AccountsHeld(c: Chain, t: RowTables, done: set<nat>, a: AccountId)
    requires RowsHold(c, t, done)
    ensures a in t.accounts <==> SeenIn(c, done, a) != {}
    ensures a in t.accounts ==>
      Represents(t.accounts[a], SeenIn(c, done, a), (n: nat) => c.world(n, a), (n: nat) => c.header(n).timestampMs)
  {
    forall n ensures WritesSnapshot(c, n, a) <==> Seen(c, n, a) { SeenIff(c, n, a); }
    hide WritesSnapshot, Seen, Holds, Represents;
    assert AppliedSet(c, done, a) == SeenIn(c, done, a);
    assert RowHolds(t.accounts, a, AppliedTo(c, done)(a), c.world, ClockOf(c));
    if a in t.accounts {
      SameReadings(t.accounts[a], SeenIn(c, done, a), Of(c.world, a), (n: nat) => c.world(n, a),
                   ClockOf(c), (n: nat) => c.header(n).timestampMs);
    }
  }
}
