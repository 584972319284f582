/**
 * What the `balance_movements` table keeps of a block: the rows left after the conflict key has dropped
 * the second row of each self-transfer (`insert_balance_movements` of src/indexer/sink.rs).
 */
module StoredMovements {
  import opened Bytes
  import opened KeyedRows
  import opened Chain
  import opened Movements

  type Key = (nat, nat, AccountId)
  type Table = map<Key, MovementRow>

  function TwoSidedDelta(row: MovementRow): int { if row.counterparty.Some? then row.delta else 0 }

  /** The sum of the stored two-sided deltas. */
  ghost function TableSum(table: Table): int {
    if table == map[] then 0
    else
      var k :| k in table;
      TwoSidedDelta(table[k]) + TableSum(table - {k})
  }

  lemma {:induction false} TableSumRemove(table: Table, k: Key)
    requires k in table
    ensures TableSum(table) == TwoSidedDelta(table[k]) + TableSum(table - {k})
    decreases |table|
  {
    var first :| first in table && TableSum(table) == TwoSidedDelta(table[first]) + TableSum(table - {first});
    if first != k {
      TableSumRemove(table - {first}, k);
      TableSumRemove(table - {k}, first);
      assert table - {first} - {k} == table - {k} - {first};
    }
  }

  lemma TableSumEmpty()
    ensures TableSum(map[]) == 0
  {
  }

  lemma MergeRemove<K, V>(a: map<K, V>, b: map<K, V>, k: K)
    requires a.Keys !! b.Keys && k in b
    ensures (a + b) - {k} == a + (b - {k}) && (a + b)[k] == b[k]
    ensures (b - {k}).Keys == b.Keys - {k} && a.Keys !! (b - {k}).Keys
  {
  }

  lemma {:induction false} TableSumMerge(a: Table, b: Table)
    requires a.Keys !! b.Keys
    ensures TableSum(a + b) == TableSum(a) + TableSum(b)
    decreases b.Keys
  {
    if b == map[] {
      TableSumEmpty();
      assert a + b == a;
    } else {
      hide TableSum, TwoSidedDelta;
      var k :| k in b;
      MergeRemove(a, b, k);
      TableSumMerge(a, b - {k});
      TableSumRemove(b, k);
      TableSumRemove(a + b, k);
    }
  }

  lemma TableSumOne(k: Key, row: MovementRow)
    ensures TableSum(map[k := row]) == TwoSidedDelta(row)
  {
    TableSumRemove(map[k := row], k);
    assert map[k := row] - {k} == map[];
  }

  /** What a block leaves in the table. */
  function Stored(decoded: seq<(nat, BalanceEvent)>, block: nat): Table {
    FirstRows(KeyedMovements(Project(decoded, block)))
  }

  /** The amounts paid to oneself. */
  function SelfTransfers(decoded: seq<(nat, BalanceEvent)>): nat
    decreases |decoded|
  {
    if decoded == [] then 0
    else (if SelfTransfer(decoded[0].1) then decoded[0].1.amount else 0) + SelfTransfers(decoded[1..])
  }

  function RowKey(row: MovementRow): Key { (row.block, row.eventIdx, row.account) }

  lemma StoredPair(first: MovementRow, second: MovementRow)
    ensures FirstRows(KeyedMovements([first, second])) ==
      if RowKey(first) == RowKey(second) then map[RowKey(first) := first]
      else map[RowKey(first) := first, RowKey(second) := second]
  {
    var keyed: seq<(Key, MovementRow)> := KeyedMovements([first, second]);
    var tail: seq<(Key, MovementRow)> := keyed[1..];
    assert tail == [(RowKey(second), second)];
    assert |tail[1..]| == 0;
    assert FirstRows(keyed) == InsertAbsent(map[RowKey(first) := first], tail);
    var table: Table := if RowKey(first) == RowKey(second) then map[RowKey(first) := first]
      else map[RowKey(first) := first][RowKey(second) := second];
    assert InsertAbsent(map[RowKey(first) := first], tail) == InsertAbsent(table, tail[1..]);
  }

  lemma StoredSingle(row: MovementRow)
    ensures FirstRows(KeyedMovements([row])) == map[RowKey(row) := row]
  {
    var keyed: seq<(Key, MovementRow)> := KeyedMovements([row]);
    assert |keyed[1..]| == 0;
    assert FirstRows(keyed) == InsertAbsent(map[RowKey(row) := row], keyed[1..]);
  }

  /** One event: both rows cancel, unless they share a key and the debit alone is stored. */
  lemma EventStored(block: nat, idx: nat, evt: BalanceEvent)
    requires evt.amount < TWO_127
    ensures TableSum(FirstRows(KeyedMovements(RowsOfEvent(block, idx, evt)))) == if SelfTransfer(evt) then -(evt.amount as int) else 0
  {
    var rows := RowsOfEvent(block, idx, evt);
    if TwoSided(evt) {
      assert rows == [rows[0], rows[1]] && TwoSidedDelta(rows[0]) == -(evt.amount as int) && TwoSidedDelta(rows[1]) == evt.amount;
      hide RowsOfEvent;
      StoredPair(rows[0], rows[1]);
      TableSumOne(RowKey(rows[0]), rows[0]);
      if !SelfTransfer(evt) {
        var table := map[RowKey(rows[0]) := rows[0], RowKey(rows[1]) := rows[1]];
        TableSumRemove(table, RowKey(rows[1]));
        assert table - {RowKey(rows[1])} == map[RowKey(rows[0]) := rows[0]];
      }
    } else {
      assert rows == [rows[0]] && TwoSidedDelta(rows[0]) == 0;
      hide RowsOfEvent;
      StoredSingle(rows[0]);
      TableSumOne(RowKey(rows[0]), rows[0]);
    }
  }

  lemma KeyedConcat(a: seq<MovementRow>, b: seq<MovementRow>)
    ensures KeyedMovements(a + b) == KeyedMovements(a) + KeyedMovements(b)
  {
  }

  /** The rows of one event and of later ones have no key in common. */
  lemma KeysApart(decoded: seq<(nat, BalanceEvent)>, block: nat)
    requires decoded != [] && IndexesDistinct(decoded)
    ensures FirstRows(KeyedMovements(RowsOfEvent(block, decoded[0].0, decoded[0].1))).Keys !! Stored(decoded[1..], block).Keys
  {
    var head, rest := RowsOfEvent(block, decoded[0].0, decoded[0].1), Project(decoded[1..], block);
    EventRowsKeyed(block, decoded[0].0, decoded[0].1);
    hide RowsOfEvent;
    FirstRowsKeys(KeyedMovements(head));
    FirstRowsKeys(KeyedMovements(rest));
    forall i, j | 0 <= i < |head| && 0 <= j < |rest| ensures RowKey(head[i]) != RowKey(rest[j]) {
      var k := RowOrigin(decoded[1..], block, j);
      assert decoded[1..][k] == decoded[k + 1];
    }
  }

  /** The first event's rows and those of the later ones make up the table. */
  lemma StoredSplit(decoded: seq<(nat, BalanceEvent)>, block: nat)
    requires decoded != [] && IndexesDistinct(decoded)
    ensures var head := FirstRows(KeyedMovements(RowsOfEvent(block, decoded[0].0, decoded[0].1)));
      head.Keys !! Stored(decoded[1..], block).Keys && Stored(decoded, block) == Stored(decoded[1..], block) + head
  {
    var head, rest := RowsOfEvent(block, decoded[0].0, decoded[0].1), Project(decoded[1..], block);
    KeysApart(decoded, block);
    hide RowsOfEvent;
    KeyedConcat(head, rest);
    InsertAbsentConcat(map[], KeyedMovements(head), KeyedMovements(rest));
    InsertAbsentKeepsOld(FirstRows(KeyedMovements(head)), KeyedMovements(rest));
  }

  /** The stored two-sided rows of a block sum to minus what was paid to oneself. */
  lemma {:induction false} StoredSumIs(decoded: seq<(nat, BalanceEvent)>, block: nat)
    requires IndexesDistinct(decoded)
    requires forall i :: 0 <= i < |decoded| ==> decoded[i].1.amount < TWO_127
    ensures TableSum(Stored(decoded, block)) == -(SelfTransfers(decoded) as int)
    decreases |decoded|
  {
    if decoded == [] {
      assert KeyedMovements(Project(decoded, block)) == [];
    } else {
      EventStored(block, decoded[0].0, decoded[0].1);
      StoredSplit(decoded, block);
      StoredSumIs(decoded[1..], block);
      hide RowsOfEvent, TableSum, Stored;
      TableSumMerge(Stored(decoded[1..], block), FirstRows(KeyedMovements(RowsOfEvent(block, decoded[0].0, decoded[0].1))));
    }
  }

  /** Of a self-transfer it is the debit that is stored. */
  lemma {:induction false} SelfDebitStored(decoded: seq<(nat, BalanceEvent)>, block: nat, k: nat)
    requires IndexesDistinct(decoded) && k < |decoded| && SelfTransfer(decoded[k].1) && decoded[k].1.amount < TWO_127
    ensures var key := (block, decoded[k].0, decoded[k].1.source);
      key in Stored(decoded, block) && Stored(decoded, block)[key].delta == -(decoded[k].1.amount as int)
    decreases |decoded|
  {
    StoredSplit(decoded, block);
    if k == 0 {
      var rows := RowsOfEvent(block, decoded[0].0, decoded[0].1);
      assert rows == [rows[0], rows[1]] && rows[0].delta == -(decoded[0].1.amount as int) && RowKey(rows[0]) == RowKey(rows[1]);
      hide RowsOfEvent, Stored;
      StoredPair(rows[0], rows[1]);
    } else {
      hide RowsOfEvent, Stored;
      SelfDebitStored(decoded[1..], block, k - 1);
    }
  }

  lemma {:induction false} NothingToSelfIff(decoded: seq<(nat, BalanceEvent)>)
    ensures SelfTransfers(decoded) == 0 <==>
      forall i :: 0 <= i < |decoded| && SelfTransfer(decoded[i].1) ==> decoded[i].1.amount == 0
    decreases |decoded|
  {
    if decoded != [] {
      NothingToSelfIff(decoded[1..]);
      assert forall i :: 0 < i < |decoded| ==> decoded[i] == decoded[1..][i - 1];
      assert forall i :: 0 <= i < |decoded| - 1 ==> decoded[1..][i] == decoded[i + 1];
    }
  }

  /**
   * The stored movements of a block cancel iff every self-transfer in it moves nothing: the table keeps
   * the debit of a self-transfer and drops its credit.
   */
  lemma StoredBalanceIff(c: Chain, n: nat)
    requires forall i :: 0 <= i < |DecodeFrom(c.balanceEvents(n), 0)| ==> DecodeFrom(c.balanceEvents(n), 0)[i].1.amount < TWO_127
    ensures var decoded := DecodeFrom(c.balanceEvents(n), 0);
      && TableSum(FirstRows(MovementRows(c, n))) == -(SelfTransfers(decoded) as int)
      && (TableSum(FirstRows(MovementRows(c, n))) == 0 <==>
            forall i :: 0 <= i < |decoded| && SelfTransfer(decoded[i].1) ==> decoded[i].1.amount == 0)
  {
    var decoded := DecodeFrom(c.balanceEvents(n), 0);
    DecodeFromIndexes(c.balanceEvents(n), 0);
    hide DecodeFrom, TableSum;
    StoredSumIs(decoded, n);
    NothingToSelfIff(decoded);
  }

  /** The rows of a table that belong to one block. */
  ghost function OfBlock(table: Table, n: nat): Table {
    map k | k in table && k.0 == n :: table[k]
  }

  /** In a table filled from any set of blocks, an indexed block has exactly the rows it leaves by itself. */
  lemma HeldRowsOfBlock(c: Chain, table: Table, done: set<nat>, n: nat)
    requires Holds(table, MovementRowsOf(c), done) && n in done
    ensures OfBlock(table, n) == FirstRows(MovementRows(c, n))
  {
    forall m: nat, k | k in FirstRows(MovementRowsOf(c)(m)) ensures k.0 == m { KeyNamesBlock(c, m, k); }
    forall k | k in OfBlock(table, n) ensures k in FirstRows(MovementRowsOf(c)(n)) {
      var m :| m in done && k in FirstRows(MovementRowsOf(c)(m));
    }
  }

  lemma KeyNamesBlock(c: Chain, n: nat, k: Key)
    requires k in FirstRows(MovementRows(c, n))
    ensures k.0 == n
  {
    FirstRowsKeys(MovementRows(c, n));
    var i :| 0 <= i < |MovementRows(c, n)| && MovementRows(c, n)[i].0 == k;
    var _ := RowOrigin(DecodeFrom(c.balanceEvents(n), 0), n, i);
  }
}
