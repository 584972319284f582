/**
 * Balance events and the `balance_movements` rows projected from them
 * (src/indexer/projections/balances.rs).
 */
module Movements {
  import opened Wrappers
  import opened Bytes

  datatype MovementKind =
    | KTransfer
    | KDeposit
    | KWithdraw
    | KFee
    | KSlash
    | KReserve
    | KUnreserve
    | KReserveRepatriated
    | KBurn
    | KMinted
    | KFrozen
    | KThawed
    | KLocked
    | KUnlocked
    | KHeld
    | KReleased
    | KBurnedHeld
    | KTransferAndHold
    | KTransferOnHold
    | KEndowed
    | KDustLost
    | KRestored
    | KSuspended

  /** Decoded balance-affecting events. Amounts are u128. */
  datatype BalanceEvent =
    | Transfer(source: AccountId, dest: AccountId, amount: nat)
    | TransferAndHold(source: AccountId, dest: AccountId, amount: nat)
    | TransferOnHold(source: AccountId, dest: AccountId, amount: nat)
    | Deposit(who: AccountId, amount: nat)
    | Withdraw(who: AccountId, amount: nat)
    | Slash(who: AccountId, amount: nat)
    | Reserve(who: AccountId, amount: nat)
    | Unreserve(who: AccountId, amount: nat)
    | ReserveRepatriated(who: AccountId, amount: nat)
    | Burn(who: AccountId, amount: nat)
    | Mint(who: AccountId, amount: nat)
    | Frozen(who: AccountId, amount: nat)
    | Thawed(who: AccountId, amount: nat)
    | Locked(who: AccountId, amount: nat)
    | Unlocked(who: AccountId, amount: nat)
    | Fee(who: AccountId, amount: nat)
    | Held(who: AccountId, amount: nat)
    | Released(who: AccountId, amount: nat)
    | BurnedHeld(who: AccountId, amount: nat)
    | Endowed(who: AccountId, amount: nat)
    | DustLost(who: AccountId, amount: nat)
    | Restored(who: AccountId, amount: nat)
    | Suspended(who: AccountId, amount: nat)

  datatype MovementRow = MovementRow(
    block: nat, eventIdx: nat, account: AccountId, kind: MovementKind, delta: int,
    counterparty: Option<AccountId>)

  // ---- signed amounts ----

  const TWO_127: int := 0x8000_0000_0000_0000_0000_0000_0000_0000

  /** `amount as i128`. */
  function AsI128(amount: nat): int {
    if amount < TWO_127 then amount else amount - 2 * TWO_127
  }

  /** Two's complement negation of an i128: the smallest value is its own negation. */
  function NegI128(x: int): int {
    if x == -TWO_127 then x else -x
  }

  // ---- projection ----

  predicate TwoSided(evt: BalanceEvent) {
    evt.Transfer? || evt.TransferAndHold? || evt.TransferOnHold?
  }

  function Pair(block: nat, idx: nat, kind: MovementKind, source: AccountId, dest: AccountId, amount: nat): seq<MovementRow> {
    [ MovementRow(block, idx, source, kind, NegI128(AsI128(amount)), Some(dest)),
      MovementRow(block, idx, dest, kind, AsI128(amount), Some(source)) ]
  }

  function Single(block: nat, idx: nat, account: AccountId, kind: MovementKind, delta: int): seq<MovementRow> {
    [MovementRow(block, idx, account, kind, delta, None)]
  }

  function RowsOfEvent(block: nat, idx: nat, evt: BalanceEvent): seq<MovementRow> {
    match evt
    case Transfer(source, dest, amount) => Pair(block, idx, KTransfer, source, dest, amount)
    case TransferAndHold(source, dest, amount) => Pair(block, idx, KTransferAndHold, source, dest, amount)
    case TransferOnHold(source, dest, amount) => Pair(block, idx, KTransferOnHold, source, dest, amount)
    case Deposit(who, amount) => Single(block, idx, who, KDeposit, AsI128(amount))
    case Withdraw(who, amount) => Single(block, idx, who, KWithdraw, NegI128(AsI128(amount)))
    case Slash(who, amount) => Single(block, idx, who, KSlash, NegI128(AsI128(amount)))
    case Reserve(who, amount) => Single(block, idx, who, KReserve, AsI128(amount))
    case Unreserve(who, amount) => Single(block, idx, who, KUnreserve, NegI128(AsI128(amount)))
    case ReserveRepatriated(who, amount) => Single(block, idx, who, KReserveRepatriated, NegI128(AsI128(amount)))
    case Burn(who, amount) => Single(block, idx, who, KBurn, NegI128(AsI128(amount)))
    case Mint(who, amount) => Single(block, idx, who, KMinted, AsI128(amount))
    case Frozen(who, amount) => Single(block, idx, who, KFrozen, AsI128(amount))
    case Thawed(who, amount) => Single(block, idx, who, KThawed, NegI128(AsI128(amount)))
    case Locked(who, amount) => Single(block, idx, who, KLocked, AsI128(amount))
    case Unlocked(who, amount) => Single(block, idx, who, KUnlocked, NegI128(AsI128(amount)))
    case Fee(who, amount) => Single(block, idx, who, KFee, NegI128(AsI128(amount)))
    case Held(who, amount) => Single(block, idx, who, KHeld, AsI128(amount))
    case Released(who, amount) => Single(block, idx, who, KReleased, NegI128(AsI128(amount)))
    case BurnedHeld(who, amount) => Single(block, idx, who, KBurnedHeld, NegI128(AsI128(amount)))
    case Endowed(who, amount) => Single(block, idx, who, KEndowed, AsI128(amount))
    case DustLost(who, amount) => Single(block, idx, who, KDustLost, NegI128(AsI128(amount)))
    case Restored(who, amount) => Single(block, idx, who, KRestored, AsI128(amount))
    case Suspended(who, amount) => Single(block, idx, who, KSuspended, NegI128(AsI128(amount)))
  }

  function Project(decoded: seq<(nat, BalanceEvent)>, block: nat): seq<MovementRow>
    decreases |decoded|
  {
    if decoded == [] then []
    else RowsOfEvent(block, decoded[0].0, decoded[0].1) + Project(decoded[1..], block)
  }

  method ProjectLoop(decoded: seq<(nat, BalanceEvent)>, block: nat) returns (out: seq<MovementRow>)
    ensures out == Project(decoded, block)
  {
    out := [];
    for i := 0 to |decoded|
      invariant out + Project(decoded[i..], block) == Project(decoded, block)
    {
      var (idx, evt) := decoded[i];
      assert decoded[i..][1..] == decoded[i + 1..];
      ghost var before := out;
      out := out + RowsOfEvent(block, idx, evt);
      assert out + Project(decoded[i + 1..], block) == before + Project(decoded[i..], block);
    }
  }

  // ---- decoding and the touched accounts ----

  /** A block event as the node reports it. */
  datatype RawEvent =
    | Tracked(evt: BalanceEvent)
    | RepatriatedReserve(source: AccountId, dest: AccountId, amount: nat)
    | BalanceSet(who: AccountId)
    | Upgraded(who: AccountId)
    | Untracked

  /** The accounts `decode_balance_event` pushes, in order. */
  function Touches(raw: RawEvent): seq<AccountId> {
    match raw
    case Tracked(evt) => if TwoSided(evt) then [evt.source, evt.dest] else [evt.who]
    case RepatriatedReserve(source, dest, amount) => [source]
    case BalanceSet(who) => [who]
    case Upgraded(who) => [who]
    case Untracked => []
  }

  /** The movement event it returns. Root overrides and account upgrades have no delta. */
  function Decode(raw: RawEvent): Option<BalanceEvent> {
    match raw
    case Tracked(evt) => Some(evt)
    case RepatriatedReserve(source, dest, amount) => Some(ReserveRepatriated(source, amount))
    case BalanceSet(_) => None
    case Upgraded(_) => None
    case Untracked => None
  }

  function DecodedAt(raw: RawEvent, idx: nat): seq<(nat, BalanceEvent)> {
    match Decode(raw)
    case Some(e) => [(idx, e)]
    case None => []
  }

  /** The decoded events of a block, each with its position in the block-wide event vector. */
  function DecodeFrom(raws: seq<RawEvent>, start: nat): seq<(nat, BalanceEvent)>
    decreases |raws|
  {
    if raws == [] then [] else DecodedAt(raws[0], start) + DecodeFrom(raws[1..], start + 1)
  }

  function TouchedByEvents(raws: seq<RawEvent>): seq<AccountId>
    decreases |raws|
  {
    if raws == [] then [] else Touches(raws[0]) + TouchedByEvents(raws[1..])
  }

  /** `project_block`: the event loop that fills both lists. */
  method ProjectBlock(raws: seq<RawEvent>, block: nat) returns (movements: seq<MovementRow>, touched: seq<AccountId>)
    ensures movements == Project(DecodeFrom(raws, 0), block)
    ensures touched == TouchedByEvents(raws)
  {
    hide Decode, Touches;
    var decoded: seq<(nat, BalanceEvent)> := [];
    touched := [];
    for idx := 0 to |raws|
      invariant decoded + DecodeFrom(raws[idx..], idx) == DecodeFrom(raws, 0)
      invariant touched + TouchedByEvents(raws[idx..]) == TouchedByEvents(raws)
    {
      DecodeHead(raws, idx, decoded, touched);
      touched := touched + Touches(raws[idx]);
      decoded := decoded + DecodedAt(raws[idx], idx);
    }
    assert raws[|raws|..] == [];
    assert decoded == DecodeFrom(raws, 0);
    movements := ProjectLoop(decoded, block);
  }

  lemma DecodeHead(raws: seq<RawEvent>, idx: nat, decoded: seq<(nat, BalanceEvent)>, touched: seq<AccountId>)
    requires idx < |raws|
    ensures decoded + DecodeFrom(raws[idx..], idx) == decoded + DecodedAt(raws[idx], idx) + DecodeFrom(raws[idx + 1..], idx + 1)
    ensures touched + TouchedByEvents(raws[idx..]) == touched + Touches(raws[idx]) + TouchedByEvents(raws[idx + 1..])
  {
    hide DecodedAt, Touches;
    assert raws[idx..][1..] == raws[idx + 1..];
  }

  // ---- what the rows mean ----

  /** Sum of the deltas of the rows that name a counterparty. */
  function TwoSidedSum(rows: seq<MovementRow>): int
    decreases |rows|
  {
    if rows == [] then 0
    else (if rows[0].counterparty.Some? then rows[0].delta else 0) + TwoSidedSum(rows[1..])
  }

  lemma {:induction false} TwoSidedSumConcat(a: seq<MovementRow>, b: seq<MovementRow>)
    ensures TwoSidedSum(a + b) == TwoSidedSum(a) + TwoSidedSum(b)
    decreases |a|
  {
    if a == [] {
      assert a + b == b;
    } else {
      TwoSidedSumConcat(a[1..], b);
      assert (a + b)[1..] == a[1..] + b;
    }
  }

  lemma TwoSidedSumOne(row: MovementRow)
    ensures TwoSidedSum([row]) == if row.counterparty.Some? then row.delta else 0
  {
    assert [row][1..] == [];
  }

  /** One transfer's two rows cancel unless the amount is 2^127, which is its own negation in i128. */
  lemma PairCancelsIff(block: nat, idx: nat, evt: BalanceEvent)
    requires TwoSided(evt) && evt.amount < 2 * TWO_127
    ensures TwoSidedSum(RowsOfEvent(block, idx, evt)) == 0 <==> evt.amount != TWO_127
    ensures RowsOfEvent(block, idx, evt)[1].delta == evt.amount <==> evt.amount < TWO_127
  {
    var rows := RowsOfEvent(block, idx, evt);
    assert rows == [rows[0]] + [rows[1]];
    TwoSidedSumConcat([rows[0]], [rows[1]]);
    TwoSidedSumOne(rows[0]);
    TwoSidedSumOne(rows[1]);
  }

  /** The two-sided events whose amount is its own negation in i128. */
  function WrappedCount(decoded: seq<(nat, BalanceEvent)>): nat
    decreases |decoded|
  {
    if decoded == [] then 0
    else (if TwoSided(decoded[0].1) && decoded[0].1.amount == TWO_127 then 1 else 0) + WrappedCount(decoded[1..])
  }

  lemma {:induction false} WrappedCountIff(decoded: seq<(nat, BalanceEvent)>)
    ensures WrappedCount(decoded) == 0 <==>
      forall i :: 0 <= i < |decoded| && TwoSided(decoded[i].1) ==> decoded[i].1.amount != TWO_127
    decreases |decoded|
  {
    if decoded != [] {
      WrappedCountIff(decoded[1..]);
      assert forall i :: 0 < i < |decoded| ==> decoded[i] == decoded[1..][i - 1];
      assert forall i :: 0 <= i < |decoded| - 1 ==> decoded[1..][i] == decoded[i + 1];
    }
  }

  lemma EventSum(block: nat, idx: nat, evt: BalanceEvent)
    requires evt.amount < 2 * TWO_127
    ensures TwoSidedSum(RowsOfEvent(block, idx, evt))
         == if TwoSided(evt) && evt.amount == TWO_127 then -2 * TWO_127 else 0
  {
    var rows := RowsOfEvent(block, idx, evt);
    if TwoSided(evt) {
      assert rows == [rows[0]] + [rows[1]];
      TwoSidedSumConcat([rows[0]], [rows[1]]);
      TwoSidedSumOne(rows[0]);
      TwoSidedSumOne(rows[1]);
    } else {
      assert rows == [rows[0]] && rows[0].counterparty == None;
      TwoSidedSumOne(rows[0]);
    }
  }

  lemma {:induction false} TwoSidedSumIs(decoded: seq<(nat, BalanceEvent)>, block: nat)
    requires forall i :: 0 <= i < |decoded| ==> decoded[i].1.amount < 2 * TWO_127
    ensures TwoSidedSum(Project(decoded, block)) == -2 * TWO_127 * WrappedCount(decoded)
    decreases |decoded|
  {
    if decoded != [] {
      var (idx, evt) := decoded[0];
      TwoSidedSumIs(decoded[1..], block);
      EventSum(block, idx, evt);
      hide RowsOfEvent;
      TwoSidedSumConcat(RowsOfEvent(block, idx, evt), Project(decoded[1..], block));
    }
  }

  /**
   * The two-sided rows of a block cancel iff no two-sided event moves exactly 2^127: all deviations
   * have one sign, so none makes up for another. Amounts are u128.
   */
  lemma MovementsBalanceIff(decoded: seq<(nat, BalanceEvent)>, block: nat)
    requires forall i :: 0 <= i < |decoded| ==> decoded[i].1.amount < 2 * TWO_127
    ensures TwoSidedSum(Project(decoded, block)) == 0 <==>
      forall i :: 0 <= i < |decoded| && TwoSided(decoded[i].1) ==> decoded[i].1.amount != TWO_127
  {
    TwoSidedSumIs(decoded, block);
    WrappedCountIff(decoded);
  }

  /** The discriminant stored for a kind. */
  function Code(kind: MovementKind): int {
    match kind
    case KTransfer => 0 case KDeposit => 1 case KWithdraw => 2 case KFee => 3 case KSlash => 4
    case KReserve => 5 case KUnreserve => 6 case KReserveRepatriated => 7 case KBurn => 8 case KMinted => 9
    case KFrozen => 10 case KThawed => 11 case KLocked => 12 case KUnlocked => 13 case KHeld => 14
    case KReleased => 15 case KBurnedHeld => 16 case KTransferAndHold => 17 case KTransferOnHold => 18
    case KEndowed => 19 case KDustLost => 20 case KRestored => 21 case KSuspended => 22
  }

  /** The stored kinds with which an account gains: deposit, reserve, mint, freeze, lock, hold, endow, restore. */
  const GAINS: set<int> := {1, 5, 9, 10, 12, 14, 19, 21}

  /**
   * A row without a counterparty carries its event's whole amount, positive iff its stored kind is one
   * with which the account gains.
   */
  lemma SingleRowsAreSigned(decoded: seq<(nat, BalanceEvent)>, block: nat, j: nat) returns (i: nat)
    requires forall k :: 0 <= k < |decoded| ==> decoded[k].1.amount < TWO_127
    requires j < |Project(decoded, block)| && Project(decoded, block)[j].counterparty.None?
    ensures i < |decoded| && !TwoSided(decoded[i].1)
    ensures var row, evt := Project(decoded, block)[j], decoded[i].1;
      && row.account == evt.who && row.eventIdx == decoded[i].0
      && row.delta == if Code(row.kind) in GAINS then evt.amount as int else -(evt.amount as int)
  {
    i := RowOrigin(decoded, block, j);
    EventRowSigned(block, decoded[i].0, decoded[i].1, Project(decoded, block)[j]);
  }

  lemma EventRowSigned(block: nat, idx: nat, evt: BalanceEvent, row: MovementRow)
    requires evt.amount < TWO_127 && row in RowsOfEvent(block, idx, evt) && row.counterparty.None?
    ensures !TwoSided(evt) && row.account == evt.who
    ensures row.delta == if Code(row.kind) in GAINS then evt.amount as int else -(evt.amount as int)
  {
  }

  /** Conflict key of a movement row within a block. */
  function KeyOf(row: MovementRow): (nat, AccountId) {
    (row.eventIdx, row.account)
  }

  ghost predicate KeysDistinct(rows: seq<MovementRow>) {
    forall i, j :: 0 <= i < j < |rows| ==> KeyOf(rows[i]) != KeyOf(rows[j])
  }

  ghost predicate IndexesDistinct(decoded: seq<(nat, BalanceEvent)>) {
    forall i, j :: 0 <= i < j < |decoded| ==> decoded[i].0 != decoded[j].0
  }

  predicate SelfTransfer(evt: BalanceEvent) {
    TwoSided(evt) && evt.source == evt.dest
  }

  lemma EventRowsKeyed(block: nat, idx: nat, evt: BalanceEvent)
    ensures var rows := RowsOfEvent(block, idx, evt);
      forall k :: 0 <= k < |rows| ==> rows[k].eventIdx == idx && rows[k].block == block
  {
  }

  /** Every projected row comes from one decoded event and keeps its index. */
  lemma {:induction false} RowOrigin(decoded: seq<(nat, BalanceEvent)>, block: nat, j: nat) returns (i: nat)
    requires j < |Project(decoded, block)|
    ensures i < |decoded| && Project(decoded, block)[j] in RowsOfEvent(block, decoded[i].0, decoded[i].1)
    ensures Project(decoded, block)[j].eventIdx == decoded[i].0 && Project(decoded, block)[j].block == block
    decreases |decoded|
  {
    var head := RowsOfEvent(block, decoded[0].0, decoded[0].1);
    EventRowsKeyed(block, decoded[0].0, decoded[0].1);
    hide RowsOfEvent;
    if j < |head| {
      assert Project(decoded, block)[j] == head[j];
      i := 0;
    } else {
      var k := RowOrigin(decoded[1..], block, j - |head|);
      i := k + 1;
    }
  }

  // ---- the rows, spelled out ----

  /** The code stored for an event. */
  function StoredCode(evt: BalanceEvent): int {
    match evt
    case Transfer(_, _, _) => 0 case Deposit(_, _) => 1 case Withdraw(_, _) => 2 case Fee(_, _) => 3
    case Slash(_, _) => 4 case Reserve(_, _) => 5 case Unreserve(_, _) => 6 case ReserveRepatriated(_, _) => 7
    case Burn(_, _) => 8 case Mint(_, _) => 9 case Frozen(_, _) => 10 case Thawed(_, _) => 11
    case Locked(_, _) => 12 case Unlocked(_, _) => 13 case Held(_, _) => 14 case Released(_, _) => 15
    case BurnedHeld(_, _) => 16 case TransferAndHold(_, _, _) => 17 case TransferOnHold(_, _, _) => 18
    case Endowed(_, _) => 19 case DustLost(_, _) => 20 case Restored(_, _) => 21 case Suspended(_, _) => 22
  }

  /** A row that books the event: who pays or receives, how much, under which code, and from or to whom. */
  ghost predicate Books(row: MovementRow, block: nat, idx: nat, evt: BalanceEvent) {
    && row.block == block && row.eventIdx == idx && Code(row.kind) == StoredCode(evt)
    && if StoredCode(evt) in {0, 17, 18} then
         || (row.account == evt.source && row.counterparty == Some(evt.dest) && row.delta == -(evt.amount as int))
         || (row.account == evt.dest && row.counterparty == Some(evt.source) && row.delta == evt.amount)
       else
         && row.account == evt.who && row.counterparty == None
         && row.delta == if StoredCode(evt) in GAINS then evt.amount as int else -(evt.amount as int)
  }

  lemma CodeInjective(a: MovementKind, b: MovementKind)
    requires Code(a) == Code(b)
    ensures a == b
  {
  }

  lemma PairRows(block: nat, idx: nat, evt: BalanceEvent)
    requires TwoSided(evt) && evt.amount < TWO_127
    ensures StoredCode(evt) in {0, 17, 18}
    ensures var rows := RowsOfEvent(block, idx, evt);
      && |rows| == 2 && Code(rows[0].kind) == StoredCode(evt) && rows[1].kind == rows[0].kind
      && rows[0] == MovementRow(block, idx, evt.source, rows[0].kind, -(evt.amount as int), Some(evt.dest))
      && rows[1] == MovementRow(block, idx, evt.dest, rows[0].kind, evt.amount, Some(evt.source))
  {
  }

  lemma SingleRow(block: nat, idx: nat, evt: BalanceEvent)
    requires !TwoSided(evt) && evt.amount < TWO_127
    ensures StoredCode(evt) !in {0, 17, 18}
    ensures var rows := RowsOfEvent(block, idx, evt);
      && |rows| == 1 && Code(rows[0].kind) == StoredCode(evt)
      && rows[0] == MovementRow(block, idx, evt.who, rows[0].kind,
                                if StoredCode(evt) in GAINS then evt.amount as int else -(evt.amount as int), None)
  {
  }

  lemma EventRowsBook(row: MovementRow, block: nat, idx: nat, evt: BalanceEvent)
    requires evt.amount < TWO_127
    ensures row in RowsOfEvent(block, idx, evt) <==> Books(row, block, idx, evt)
  {
    var rows := RowsOfEvent(block, idx, evt);
    if TwoSided(evt) {
      PairRows(block, idx, evt);
      hide RowsOfEvent, Code, StoredCode;
      assert rows == [rows[0], rows[1]];
      if Books(row, block, idx, evt) { CodeInjective(row.kind, rows[0].kind); }
    } else {
      SingleRow(block, idx, evt);
      hide RowsOfEvent, Code, StoredCode;
      assert rows == [rows[0]];
      if Books(row, block, idx, evt) { CodeInjective(row.kind, rows[0].kind); }
    }
  }

  /**
   * The projected rows are exactly those that book an event of the block: the payer's debit and the
   * receiver's credit of a two-sided one, and one signed row of any other.
   */
  lemma {:induction false} ProjectedIff(decoded: seq<(nat, BalanceEvent)>, block: nat, row: MovementRow)
    requires forall i :: 0 <= i < |decoded| ==> decoded[i].1.amount < TWO_127
    ensures row in Project(decoded, block) <==>
      exists i :: 0 <= i < |decoded| && Books(row, block, decoded[i].0, decoded[i].1)
    decreases |decoded|
  {
    if decoded != [] {
      var tail := decoded[1..];
      EventRowsBook(row, block, decoded[0].0, decoded[0].1);
      ProjectedIff(tail, block, row);
      hide RowsOfEvent, Books;
      assert forall i :: 0 <= i < |tail| ==> tail[i] == decoded[i + 1];
      assert forall i :: 0 < i < |decoded| ==> decoded[i] == tail[i - 1];
    }
  }

  /** The movement event that a block event reports, if any. */
  ghost predicate Reports(raw: RawEvent, evt: BalanceEvent) {
    || (raw.Tracked? && raw.evt == evt)
    || (raw.RepatriatedReserve? && evt == ReserveRepatriated(raw.source, raw.amount))
  }

  lemma {:induction false} DecodedIff(raws: seq<RawEvent>, start: nat, idx: nat, evt: BalanceEvent)
    ensures (idx, evt) in DecodeFrom(raws, start) <==>
      start <= idx < start + |raws| && Reports(raws[idx - start], evt)
    decreases |raws|
  {
    if raws != [] { DecodedIff(raws[1..], start + 1, idx, evt); }
  }

  ghost predicate AmountsFit(raws: seq<RawEvent>) {
    forall i, evt :: 0 <= i < |raws| && Reports(raws[i], evt) ==> evt.amount < TWO_127
  }

  /** The rows of a block, in terms of the events it reports. */
  lemma BlockRowsIff(raws: seq<RawEvent>, block: nat, row: MovementRow)
    requires AmountsFit(raws)
    ensures row in Project(DecodeFrom(raws, 0), block) <==>
      exists idx, evt :: 0 <= idx < |raws| && Reports(raws[idx], evt) && Books(row, block, idx, evt)
  {
    var decoded := DecodeFrom(raws, 0);
    hide Books, Reports;
    forall i | 0 <= i < |decoded|
      ensures decoded[i].0 < |raws| && Reports(raws[decoded[i].0], decoded[i].1) && decoded[i].1.amount < TWO_127
    {
      assert decoded[i] in decoded;
      DecodedIff(raws, 0, decoded[i].0, decoded[i].1);
    }
    ProjectedIff(decoded, block, row);
    if idx, evt :| 0 <= idx < |raws| && Reports(raws[idx], evt) && Books(row, block, idx, evt) {
      DecodedIff(raws, 0, idx, evt);
      var i :| 0 <= i < |decoded| && decoded[i] == (idx, evt);
    }
  }

  lemma EventKeysDistinctIff(block: nat, idx: nat, evt: BalanceEvent)
    ensures KeysDistinct(RowsOfEvent(block, idx, evt)) <==> !SelfTransfer(evt)
  {
    var rows := RowsOfEvent(block, idx, evt);
    if SelfTransfer(evt) {
      assert KeyOf(rows[0]) == KeyOf(rows[1]);
    }
  }

  lemma KeysDistinctConcat(a: seq<MovementRow>, b: seq<MovementRow>)
    requires forall i, j :: 0 <= i < |a| && 0 <= j < |b| ==> a[i].eventIdx != b[j].eventIdx
    ensures KeysDistinct(a + b) <==> KeysDistinct(a) && KeysDistinct(b)
  {
    var all := a + b;
    if KeysDistinct(all) {
      forall i, j | 0 <= i < j < |a| ensures KeyOf(a[i]) != KeyOf(a[j]) {
        assert KeyOf(all[i]) != KeyOf(all[j]);
      }
      forall i, j | 0 <= i < j < |b| ensures KeyOf(b[i]) != KeyOf(b[j]) {
        assert KeyOf(all[|a| + i]) != KeyOf(all[|a| + j]);
      }
    }
  }

  /** With distinct event indexes the conflict keys are distinct exactly when nobody pays themselves. */
  lemma {:induction false} KeysDistinctIff(decoded: seq<(nat, BalanceEvent)>, block: nat)
    requires IndexesDistinct(decoded)
    ensures KeysDistinct(Project(decoded, block))
       <==> forall i :: 0 <= i < |decoded| ==> !SelfTransfer(decoded[i].1)
    decreases |decoded|
  {
    if decoded != [] {
      var head, tail := RowsOfEvent(block, decoded[0].0, decoded[0].1), decoded[1..];
      var rest := Project(tail, block);
      KeysDistinctIff(tail, block);
      EventKeysDistinctIff(block, decoded[0].0, decoded[0].1);
      forall i, j | 0 <= i < |head| && 0 <= j < |rest| ensures head[i].eventIdx != rest[j].eventIdx {
        var k := RowOrigin(tail, block, j);
        assert tail[k] == decoded[k + 1];
        assert head[i].eventIdx == decoded[0].0;
      }
      KeysDistinctConcat(head, rest);
      assert forall i :: 0 <= i < |tail| ==> tail[i] == decoded[i + 1];
    }
  }

  lemma {:induction false} DecodeFromIndexes(raws: seq<RawEvent>, start: nat)
    ensures IndexesDistinct(DecodeFrom(raws, start))
    ensures forall i :: 0 <= i < |DecodeFrom(raws, start)| ==> (
      && start <= DecodeFrom(raws, start)[i].0 < start + |raws|
      && Decode(raws[DecodeFrom(raws, start)[i].0 - start]) == Some(DecodeFrom(raws, start)[i].1))
    decreases |raws|
  {
    if raws != [] { DecodeFromIndexes(raws[1..], start + 1); }
  }

  lemma {:induction false} TouchedContains(raws: seq<RawEvent>, i: nat, a: AccountId)
    requires i < |raws| && a in Touches(raws[i])
    ensures a in TouchedByEvents(raws)
    decreases |raws|
  {
    if i > 0 { TouchedContains(raws[1..], i - 1, a); }
  }

  lemma EventRowsTouched(raw: RawEvent, block: nat, idx: nat, row: MovementRow)
    requires Decode(raw).Some? && row in RowsOfEvent(block, idx, Decode(raw).value)
    ensures row.account in Touches(raw)
    ensures row.counterparty.Some? ==> row.counterparty.value in Touches(raw)
  {
  }

  /** Every account with a movement row, and every counterparty, is among the touched accounts. */
  lemma MovedAccountsAreTouched(raws: seq<RawEvent>, block: nat, j: nat)
    requires j < |Project(DecodeFrom(raws, 0), block)|
    ensures var row := Project(DecodeFrom(raws, 0), block)[j];
      && row.account in TouchedByEvents(raws)
      && (row.counterparty.Some? ==> row.counterparty.value in TouchedByEvents(raws))
  {
    var decoded := DecodeFrom(raws, 0);
    var row := Project(decoded, block)[j];
    var i := RowOrigin(decoded, block, j);
    DecodeFromIndexes(raws, 0);
    EventRowsTouched(raws[decoded[i].0], block, decoded[i].0, row);
    TouchedContains(raws, decoded[i].0, row.account);
    if row.counterparty.Some? { TouchedContains(raws, decoded[i].0, row.counterparty.value); }
  }

  /** The accounts a block event names. */
  function Named(raw: RawEvent): set<AccountId> {
    match raw
    case Tracked(evt) => if TwoSided(evt) then {evt.source, evt.dest} else {evt.who}
    case RepatriatedReserve(source, dest, amount) => {source, dest}
    case BalanceSet(who) => {who}
    case Upgraded(who) => {who}
    case Untracked => {}
  }

  lemma TouchesNamed(raw: RawEvent, a: AccountId)
    ensures a in Touches(raw) ==> a in Named(raw)
    ensures a in Named(raw) && a !in Touches(raw) ==> raw.RepatriatedReserve? && a == raw.dest
  {
  }

  lemma {:induction false} TouchedOrigin(raws: seq<RawEvent>, a: AccountId) returns (j: nat)
    requires a in TouchedByEvents(raws)
    ensures j < |raws| && a in Touches(raws[j])
    decreases |raws|
  {
    j := 0;
    if a !in Touches(raws[0]) {
      var k := TouchedOrigin(raws[1..], a);
      j := k + 1;
    }
  }

  /**
   * The documentation asks for every account a balance event names. A block delivers that iff the
   * destination of every repatriated reserve is touched by some event of the block.
   */
  lemma NamedAreTouchedIff(raws: seq<RawEvent>)
    ensures (forall i, a :: 0 <= i < |raws| && a in Named(raws[i]) ==> a in TouchedByEvents(raws))
       <==> (forall i :: 0 <= i < |raws| && raws[i].RepatriatedReserve? ==>
              exists j :: 0 <= j < |raws| && raws[i].dest in Touches(raws[j]))
  {
    hide Touches, TouchedByEvents;
    forall i, a | 0 <= i < |raws| && a in Named(raws[i])
      ensures a in TouchedByEvents(raws) || (raws[i].RepatriatedReserve? && a == raws[i].dest)
    {
      TouchesNamed(raws[i], a);
      if a in Touches(raws[i]) { TouchedContains(raws, i, a); }
    }
    forall i | 0 <= i < |raws| && raws[i].RepatriatedReserve?
      ensures raws[i].dest in Named(raws[i])
      ensures raws[i].dest in TouchedByEvents(raws) <==> exists j :: 0 <= j < |raws| && raws[i].dest in Touches(raws[j])
    {
      if raws[i].dest in TouchedByEvents(raws) { var _ := TouchedOrigin(raws, raws[i].dest); }
      if j :| 0 <= j < |raws| && raws[i].dest in Touches(raws[j]) { TouchedContains(raws, j, raws[i].dest); }
    }
  }
}
