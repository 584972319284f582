/**
 * The `account_balances` upsert (`apply_account_snapshots` of src/indexer/sink.rs).
 *
 * A row is merged with CASE / GREATEST / LEAST. `Represents` says what a row must hold once a given
 * set of blocks has been applied to it; it does not mention their order.
 */
module Snapshots {
  import opened Wrappers
  import opened Bytes
  import opened Collections
  import opened Ints

  /** One `System::Account` reading. */
  datatype Snapshot = Snapshot(free: nat, reserved: nat, frozen: nat, nonce: nat)

  datatype AccountRow = AccountRow(
    free: nat, reserved: nat, frozen: nat, nonce: nat,
    firstSeenBlock: nat, lastActivityBlock: nat, firstSeenMs: int, lastActivityMs: int)

  function FreshRow(snap: Snapshot, block: nat, ms: int): AccountRow {
    AccountRow(snap.free, snap.reserved, snap.frozen, snap.nonce, block, block, ms, ms)
  }

  /** The DO UPDATE clause. */
  function Merge(prior: AccountRow, excluded: AccountRow): AccountRow {
    var newer := excluded.lastActivityBlock >= prior.lastActivityBlock;
    AccountRow(
      if newer then excluded.free else prior.free,
      if newer then excluded.reserved else prior.reserved,
      if newer then excluded.frozen else prior.frozen,
      Max(prior.nonce, excluded.nonce),
      Min(prior.firstSeenBlock, excluded.firstSeenBlock),
      Max(prior.lastActivityBlock, excluded.lastActivityBlock),
      Min(prior.firstSeenMs, excluded.firstSeenMs),
      Max(prior.lastActivityMs, excluded.lastActivityMs))
  }

  // ---- one row ----

  /** The readings of one account, by block, and the block timestamps. */
  type Readings = nat -> Snapshot
  type Clock = nat -> int

  /**
   * `row` is what the blocks in `applied` leave behind: balances at the highest block, the largest
   * nonce, the smallest first-seen and the largest last-activity.
   */
  ghost predicate Represents(row: AccountRow, applied: set<nat>, at: Readings, ms: Clock) {
    && row.lastActivityBlock in applied
    && row.firstSeenBlock in applied
    && (forall n :: n in applied ==> row.firstSeenBlock <= n <= row.lastActivityBlock)
    && row.free == at(row.lastActivityBlock).free
    && row.reserved == at(row.lastActivityBlock).reserved
    && row.frozen == at(row.lastActivityBlock).frozen
    && (exists n :: n in applied && row.nonce == at(n).nonce)
    && (forall n :: n in applied ==> at(n).nonce <= row.nonce)
    && (exists n :: n in applied && row.firstSeenMs == ms(n))
    && (exists n :: n in applied && row.lastActivityMs == ms(n))
    && (forall n :: n in applied ==> row.firstSeenMs <= ms(n) <= row.lastActivityMs)
  }

  /** The set of applied blocks determines the row. */
  lemma RepresentsUnique(a: AccountRow, b: AccountRow, applied: set<nat>, at: Readings, ms: Clock)
    requires Represents(a, applied, at, ms) && Represents(b, applied, at, ms)
    ensures a == b
  {
  }

  lemma FreshRowRepresents(n: nat, at: Readings, ms: Clock)
    ensures Represents(FreshRow(at(n), n, ms(n)), {n}, at, ms)
  {
    assert n in {n};
  }

  /** Merging one more reading adds its block to the set, wherever it falls and however often. */
  lemma MergeRepresents(row: AccountRow, applied: set<nat>, n: nat, at: Readings, ms: Clock)
    requires Represents(row, applied, at, ms)
    ensures Represents(Merge(row, FreshRow(at(n), n, ms(n))), applied + {n}, at, ms)
  {
    var m := Merge(row, FreshRow(at(n), n, ms(n)));
    assert forall k :: k in applied ==> k in applied + {n};
    assert n in applied + {n};
    var nk: nat :| nk in applied && row.nonce == at(nk).nonce;
    assert m.nonce == at(if at(n).nonce >= row.nonce then n else nk).nonce;
    var fk: nat :| fk in applied && row.firstSeenMs == ms(fk);
    assert m.firstSeenMs == ms(if ms(n) <= row.firstSeenMs then n else fk);
    var lk: nat :| lk in applied && row.lastActivityMs == ms(lk);
    assert m.lastActivityMs == ms(if ms(n) >= row.lastActivityMs then n else lk);
  }

  /** The row left by writing the readings of the blocks `order`, in that order. */
  function WriteAll(order: seq<nat>, at: Readings, ms: Clock): AccountRow
    requires order != []
  {
    var n := order[|order| - 1];
    var reading := FreshRow(at(n), n, ms(n));
    if |order| == 1 then reading else Merge(WriteAll(order[..|order| - 1], at, ms), reading)
  }

  lemma {:induction false} WriteAllRepresents(order: seq<nat>, at: Readings, ms: Clock)
    requires order != []
    ensures Represents(WriteAll(order, at, ms), SetOf(order), at, ms)
  {
    var n, front := order[|order| - 1], order[..|order| - 1];
    assert order == front + [n];
    if |order| == 1 {
      FreshRowRepresents(n, at, ms);
      assert SetOf(order) == {n};
    } else {
      WriteAllRepresents(front, at, ms);
      MergeRepresents(WriteAll(front, at, ms), SetOf(front), n, at, ms);
      assert SetOf(order) == SetOf(front) + {n};
    }
  }

  /** Any two orders of the same readings, with any repetitions, leave the same row. */
  lemma WritesCommute(a: seq<nat>, b: seq<nat>, at: Readings, ms: Clock)
    requires a != [] && b != []
    requires SetOf(a) == SetOf(b)
    ensures WriteAll(a, at, ms) == WriteAll(b, at, ms)
  {
    WriteAllRepresents(a, at, ms);
    WriteAllRepresents(b, at, ms);
    RepresentsUnique(WriteAll(a, at, ms), WriteAll(b, at, ms), SetOf(a), at, ms);
  }

  // ---- the table ----

  type Accounts = map<AccountId, AccountRow>

  /** One multi-row upsert, row by row. */
  function Upsert(table: Accounts, rows: seq<(AccountId, AccountRow)>): Accounts
    decreases |rows|
  {
    if rows == [] then table
    else
      var (a, r) := rows[0];
      Upsert(table[a := if a in table then Merge(table[a], r) else r], rows[1..])
  }

  ghost predicate DistinctKeys(rows: seq<(AccountId, AccountRow)>) {
    forall i, j :: 0 <= i < j < |rows| ==> rows[i].0 != rows[j].0
  }

  /**
   * One statement. Postgres refuses to update the same row twice in one statement, so a repeated
   * account fails it.
   */
  ghost function UpsertStatement(table: Accounts, rows: seq<(AccountId, AccountRow)>): Option<Accounts> {
    if DistinctKeys(rows) then Some(Upsert(table, rows)) else None
  }

  /** The statements of one call: the rows in slices of `size`. */
  ghost function UpsertStatements(table: Accounts, rows: seq<(AccountId, AccountRow)>, size: nat): Option<Accounts>
    requires 0 < size
    decreases |rows|
  {
    if |rows| == 0 then Some(table)
    else if |rows| <= size then UpsertStatement(table, rows)
    else
      match UpsertStatement(table, rows[..size])
      case None => None
      case Some(t) => UpsertStatements(t, rows[size..], size)
  }

  lemma {:induction false} UpsertConcat(table: Accounts, a: seq<(AccountId, AccountRow)>, b: seq<(AccountId, AccountRow)>)
    ensures Upsert(table, a + b) == Upsert(Upsert(table, a), b)
    decreases |a|
  {
    if a == [] {
      assert a + b == b;
    } else {
      var (k, r) := a[0];
      assert (a + b)[1..] == a[1..] + b;
      UpsertConcat(table[k := if k in table then Merge(table[k], r) else r], a[1..], b);
    }
  }

  /** With distinct accounts no statement fails and the slicing does not show. */
  lemma {:induction false} DistinctUpsertSucceeds(table: Accounts, rows: seq<(AccountId, AccountRow)>, size: nat)
    requires 0 < size && DistinctKeys(rows)
    ensures UpsertStatements(table, rows, size) == Some(Upsert(table, rows))
    decreases |rows|
  {
    if |rows| > size {
      DistinctUpsertSucceeds(Upsert(table, rows[..size]), rows[size..], size);
      UpsertConcat(table, rows[..size], rows[size..]);
      assert rows == rows[..size] + rows[size..];
    }
  }

  lemma {:induction false} UpsertAt(table: Accounts, rows: seq<(AccountId, AccountRow)>, a: AccountId)
    requires DistinctKeys(rows)
    ensures (exists i :: 0 <= i < |rows| && rows[i].0 == a)
        || ((a in Upsert(table, rows) <==> a in table)
            && (a in table ==> Upsert(table, rows)[a] == table[a]))
    ensures forall i :: 0 <= i < |rows| && rows[i].0 == a ==>
        a in Upsert(table, rows)
        && Upsert(table, rows)[a] == if a in table then Merge(table[a], rows[i].1) else rows[i].1
    decreases |rows|
  {
    if rows != [] {
      var (k, r) := rows[0];
      var table' := table[k := if k in table then Merge(table[k], r) else r];
      UpsertAt(table', rows[1..], a);
      assert forall i :: 0 < i < |rows| ==> rows[i] == rows[1..][i - 1];
      if k == a {
        assert rows[0].0 == a;
        assert forall i :: 0 <= i < |rows| && rows[i].0 == a ==> i == 0;
        assert forall i :: 0 <= i < |rows[1..]| ==> rows[1..][i].0 != a;
      }
    }
  }

  // ---- the table, block by block ----

  /** The readings of every account. */
  type World = (nat, AccountId) -> Snapshot

  function RowsAt(touched: seq<AccountId>, n: nat, world: World, ms: int): (rows: seq<(AccountId, AccountRow)>)
    ensures |rows| == |touched|
    ensures forall i :: 0 <= i < |rows| ==> rows[i] == (touched[i], FreshRow(world(n, touched[i]), n, ms))
  {
    seq(|touched|, i requires 0 <= i < |touched| => (touched[i], FreshRow(world(n, touched[i]), n, ms)))
  }

  function Of(world: World, a: AccountId): Readings {
    (n: nat) => world(n, a)
  }

  /** The account has a row iff some block touched it, and the row is what those blocks leave. */
  ghost predicate RowHolds(table: Accounts, a: AccountId, applied: set<nat>, world: World, ms: Clock) {
    && (a in table <==> applied != {})
    && (a in table ==> Represents(table[a], applied, Of(world, a), ms))
  }

  ghost predicate AccountsHold(table: Accounts, applied: AccountId -> set<nat>, world: World, ms: Clock) {
    forall a :: RowHolds(table, a, applied(a), world, ms)
  }

  lemma AccountsHoldUnique(s: Accounts, t: Accounts, applied: AccountId -> set<nat>, world: World, ms: Clock)
    requires AccountsHold(s, applied, world, ms) && AccountsHold(t, applied, world, ms)
    ensures s == t
  {
    forall a | a in s || a in t
      ensures a in s && a in t && s[a] == t[a]
    {
      assert RowHolds(s, a, applied(a), world, ms) && RowHolds(t, a, applied(a), world, ms);
      RepresentsUnique(s[a], t[a], applied(a), Of(world, a), ms);
    }
  }

  /** Writing the snapshots of block `n` adds `n` to every touched account and nothing else. */
  lemma AccountsHoldUpsert(
    table: Accounts, touched: seq<AccountId>, n: nat,
    before: AccountId -> set<nat>, after: AccountId -> set<nat>, world: World, ms: Clock)
    requires NoDup(touched)
    requires AccountsHold(table, before, world, ms)
    requires forall a :: after(a) == before(a) + (if a in touched then {n} else {})
    ensures AccountsHold(Upsert(table, RowsAt(touched, n, world, ms(n))), after, world, ms)
  {
    var rows := RowsAt(touched, n, world, ms(n));
    var table' := Upsert(table, rows);
    forall a
      ensures RowHolds(table', a, after(a), world, ms)
    {
      UpsertAt(table, rows, a);
      assert RowHolds(table, a, before(a), world, ms);
      if a in touched {
        var i :| 0 <= i < |touched| && touched[i] == a;
        assert rows[i].0 == a && rows[i].1 == FreshRow(Of(world, a)(n), n, ms(n));
        if a in table {
          MergeRepresents(table[a], before(a), n, Of(world, a), ms);
        } else {
          FreshRowRepresents(n, Of(world, a), ms);
          assert after(a) == {n};
        }
      } else {
        assert after(a) == before(a);
      }
    }
  }
}
