/**
 * The chain as the indexer sees it: an immutable function from block number to projected rows. An
 * account snapshot is a function of the block and the account.
 */
module Chain {
  import opened Wrappers
  import opened Bytes
  import opened Collections
  import opened KeyedRows
  import Movements
  import Touched
  import Snapshots
  import AtsHistory

  datatype BlockRow = BlockRow(
    hash: Hash, parentHash: Hash, author: Option<AccountId>, timestampMs: int, specVersion: nat,
    extrinsicCount: nat, eventCount: nat)

  datatype ExtrinsicRow = ExtrinsicRow(
    hash: Hash, pallet: string, call: string, signer: Option<AccountId>, tip: Option<nat>, fee: nat,
    nonce: Option<nat>, success: bool, args: seq<byte>)

  datatype EventRow = EventRow(
    phaseKind: int, phaseIdx: Option<nat>, pallet: string, variant: string, data: seq<byte>)

  /** A row with the timestamp of its block copied next to it. */
  datatype Stamped<R> = Stamped(row: R, timestampMs: int)

  datatype Chain = Chain(
    header: nat -> BlockRow,
    extrinsics: nat -> seq<ExtrinsicRow>,
    events: nat -> seq<EventRow>,
    balanceEvents: nat -> seq<Movements.RawEvent>,
    ats: AtsHistory.AtsChain,
    world: Snapshots.World,
    endowed: seq<AccountId>)

  /** Genesis accounts are the keys of a storage map; versions fit their column. */
  ghost predicate WellFormed(c: Chain) {
    NoDup(c.endowed) && AtsHistory.AllVersionsFit(c.ats)
  }

  // ---- the rows of one block, with their conflict keys ----

  function TimestampAt(c: Chain, n: nat): int { c.header(n).timestampMs }

  function BlockRows(c: Chain, n: nat): seq<(nat, BlockRow)> { [(n, c.header(n))] }

  function ExtrinsicRows(c: Chain, n: nat): seq<((nat, nat), Stamped<ExtrinsicRow>)> {
    seq(|c.extrinsics(n)|, i requires 0 <= i < |c.extrinsics(n)| =>
      ((n, i), Stamped(c.extrinsics(n)[i], TimestampAt(c, n))))
  }

  function EventRows(c: Chain, n: nat): seq<((nat, nat), Stamped<EventRow>)> {
    seq(|c.events(n)|, i requires 0 <= i < |c.events(n)| =>
      ((n, i), Stamped(c.events(n)[i], TimestampAt(c, n))))
  }

  function BlockMovements(c: Chain, n: nat): seq<Movements.MovementRow> {
    Movements.Project(Movements.DecodeFrom(c.balanceEvents(n), 0), n)
  }

  function KeyedMovements(rows: seq<Movements.MovementRow>): seq<((nat, nat, AccountId), Movements.MovementRow)> {
    seq(|rows|, i requires 0 <= i < |rows| => ((rows[i].block, rows[i].eventIdx, rows[i].account), rows[i]))
  }

  function MovementRows(c: Chain, n: nat): seq<((nat, nat, AccountId), Movements.MovementRow)> {
    KeyedMovements(BlockMovements(c, n))
  }

  // The same rows as functions of the block number.

  function BlockRowsOf(c: Chain): nat -> seq<(nat, BlockRow)> { (n: nat) => BlockRows(c, n) }

  function ExtrinsicRowsOf(c: Chain): nat -> seq<((nat, nat), Stamped<ExtrinsicRow>)> { (n: nat) => ExtrinsicRows(c, n) }

  function EventRowsOf(c: Chain): nat -> seq<((nat, nat), Stamped<EventRow>)> { (n: nat) => EventRows(c, n) }

  function MovementRowsOf(c: Chain): nat -> seq<((nat, nat, AccountId), Movements.MovementRow)> { (n: nat) => MovementRows(c, n) }

  function ClockOf(c: Chain): Snapshots.Clock { (n: nat) => TimestampAt(c, n) }

  function SignersOf(c: Chain, n: nat): seq<Option<AccountId>> {
    seq(|c.extrinsics(n)|, i requires 0 <= i < |c.extrinsics(n)| => c.extrinsics(n)[i].signer)
  }

  /** The accounts snapshotted for block `n` on account of its events and extrinsics. */
  function TouchedAt(c: Chain, n: nat): seq<AccountId> {
    Touched.CollectTouched(Movements.TouchedByEvents(c.balanceEvents(n)), SignersOf(c, n))
  }

  predicate WritesSnapshot(c: Chain, n: nat, a: AccountId) {
    a in TouchedAt(c, n) || (n == 0 && a in c.endowed)
  }

  /** The blocks among `done` that write a snapshot of `a`. */
  ghost function AppliedSet(c: Chain, done: set<nat>, a: AccountId): set<nat> {
    set n | n in done && WritesSnapshot(c, n, a)
  }

  ghost function AppliedTo(c: Chain, done: set<nat>): AccountId -> set<nat> {
    (a: AccountId) => AppliedSet(c, done, a)
  }

  lemma AppliedSetGrows(c: Chain, done: set<nat>, n: nat, a: AccountId)
    ensures AppliedSet(c, done + {n}, a) == AppliedSet(c, done, a) + if WritesSnapshot(c, n, a) then {n} else {}
  {
  }

  lemma TouchedNoDup(c: Chain, n: nat)
    ensures NoDup(TouchedAt(c, n))
  {
    Touched.FirstTouchOrders(Movements.TouchedByEvents(c.balanceEvents(n)) + Touched.Signers(SignersOf(c, n)));
  }

  /** Every account with a movement row in the block is snapshotted for it, and once. */
  lemma MovedAccountsAreSnapshotted(c: Chain, n: nat, j: nat)
    requires j < |BlockMovements(c, n)|
    ensures BlockMovements(c, n)[j].account in TouchedAt(c, n)
    ensures NoDup(TouchedAt(c, n))
    ensures SetOf(TouchedAt(c, n))
         == SetOf(Movements.TouchedByEvents(c.balanceEvents(n)) + Touched.Signers(SignersOf(c, n)))
  {
    var all := Movements.TouchedByEvents(c.balanceEvents(n)) + Touched.Signers(SignersOf(c, n));
    Movements.MovedAccountsAreTouched(c.balanceEvents(n), n, j);
    Touched.FirstTouchOrders(all);
    assert BlockMovements(c, n)[j].account in SetOf(all);
  }

  /** Rows of different blocks never share a key. */
  lemma RowsSeparate(c: Chain)
    ensures Separate(BlockRowsOf(c))
    ensures Separate(ExtrinsicRowsOf(c))
    ensures Separate(EventRowsOf(c))
    ensures Separate(MovementRowsOf(c))
  {
    TaggedIsSeparate(BlockRowsOf(c), (k: nat) => k);
    TaggedIsSeparate(ExtrinsicRowsOf(c), (k: (nat, nat)) => k.0);
    TaggedIsSeparate(EventRowsOf(c), (k: (nat, nat)) => k.0);
    forall n: nat, i | 0 <= i < |MovementRowsOf(c)(n)| ensures MovementRowsOf(c)(n)[i].0.0 == n {
      var _ := Movements.RowOrigin(Movements.DecodeFrom(c.balanceEvents(n), 0), n, i);
    }
    TaggedIsSeparate(MovementRowsOf(c), (k: (nat, nat, AccountId)) => k.0);
  }
}
