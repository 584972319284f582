/**
 * The sink (src/indexer/sink.rs) and the per-block transaction of the two workers
 * (`index_block` of src/indexer/live.rs and src/indexer/backfill.rs).
 *
 * `Commit` is the effect of one committed block; `Database.IndexBlock` runs the writes in the
 * source's order and is proved to have that effect or none.
 */
module Sink {
  import opened Wrappers
  import opened Bytes
  import opened Collections
  import opened Ints
  import opened KeyedRows
  import opened Chain
  import opened Snapshots
  import Movements
  import Touched
  import Ats

  /** The tables written only by inserts and by the snapshot upsert. */
  datatype RowTables = RowTables(
    blocks: map<nat, BlockRow>,
    extrinsics: map<(nat, nat), Stamped<ExtrinsicRow>>,
    events: map<(nat, nat), Stamped<EventRow>>,
    movements: map<(nat, nat, AccountId), Movements.MovementRow>,
    accounts: Accounts)

  datatype Tables = Tables(rows: RowTables, ats: Ats.AtsTables)

  const NO_ROWS: RowTables := RowTables(map[], map[], map[], map[], map[])

  // ---- the effect of one block ----

  function AccountsAfter(c: Chain, n: nat, accounts: Accounts): Accounts {
    var touched := Upsert(accounts, RowsAt(TouchedAt(c, n), n, c.world, TimestampAt(c, n)));
    if n == 0 then Upsert(touched, RowsAt(c.endowed, 0, c.world, TimestampAt(c, 0))) else touched
  }

  function CommitRows(c: Chain, n: nat, t: RowTables): RowTables {
    RowTables(
      InsertAbsent(t.blocks, BlockRows(c, n)),
      InsertAbsent(t.extrinsics, ExtrinsicRows(c, n)),
      InsertAbsent(t.events, EventRows(c, n)),
      InsertAbsent(t.movements, MovementRows(c, n)),
      AccountsAfter(c, n, t.accounts))
  }

  /** None when an ATS version has no registry row yet and the transaction rolls back. */
  function Commit(c: Chain, n: nat, t: Tables): Option<Tables> {
    match Ats.ApplyAts(t.ats, Ats.Project(c.ats(n), n))
    case None => None
    case Some(ats) => Some(Tables(CommitRows(c, n, t.rows), ats))
  }

  /** `bump_cursor`: a regressive value is ignored. */
  function BumpCursor(cursor: Option<nat>, last: nat): Option<nat> {
    if cursor.Some? && cursor.value >= last then cursor else Some(last)
  }

  // ---- the statements ----

  const MAX_BINDS_PER_QUERY: nat := 65000

  /** One multi-row INSERT per slice of rows. */
  method InsertRows<K(==), R>(table: map<K, R>, rows: seq<(K, R)>, cols: nat) returns (res: map<K, R>)
    requires 0 < cols <= MAX_BINDS_PER_QUERY
    ensures res == InsertAbsent(table, rows)
  {
    var chunk := MAX_BINDS_PER_QUERY / cols;
    var i := 0;
    res := table;
    while i < |rows|
      invariant 0 <= i <= |rows|
      invariant InsertAbsent(res, rows[i..]) == InsertAbsent(table, rows)
    {
      var next := Min(i + chunk, |rows|);
      assert rows[i..] == rows[i..next] + rows[next..];
      InsertAbsentConcat(res, rows[i..next], rows[next..]);
      res := InsertAbsent(res, rows[i..next]);
      i := next;
    }
  }

  /** The working copy of one transaction. */
  class Transaction {
    var rows: RowTables
    var ats: Ats.AtsTables
    var cursor: Option<nat>

    constructor (rows: RowTables, ats: Ats.AtsTables, cursor: Option<nat>)
      ensures this.rows == rows && this.ats == ats && this.cursor == cursor
    {
      this.rows, this.ats, this.cursor := rows, ats, cursor;
    }

    /** True when a brand-new row landed. */
    method InsertBlock(c: Chain, n: nat) returns (isNew: bool)
      modifies this`rows
      ensures rows == old(rows).(blocks := InsertAbsent(old(rows).blocks, BlockRows(c, n)))
      ensures isNew <==> n !in old(rows).blocks
    {
      isNew := n !in rows.blocks;
      assert BlockRows(c, n)[1..] == [];
      if isNew {
        rows := rows.(blocks := rows.blocks[n := c.header(n)]);
      }
    }

    method InsertExtrinsics(c: Chain, n: nat)
      modifies this`rows
      ensures rows == old(rows).(extrinsics := InsertAbsent(old(rows).extrinsics, ExtrinsicRows(c, n)))
    {
      if |c.extrinsics(n)| == 0 { return; }
      var table := InsertRows(rows.extrinsics, ExtrinsicRows(c, n), 13);
      rows := rows.(extrinsics := table);
    }

    method InsertEvents(c: Chain, n: nat)
      modifies this`rows
      ensures rows == old(rows).(events := InsertAbsent(old(rows).events, EventRows(c, n)))
    {
      if |c.events(n)| == 0 { return; }
      var table := InsertRows(rows.events, EventRows(c, n), 9);
      rows := rows.(events := table);
    }

    method InsertBalanceMovements(movements: seq<Movements.MovementRow>)
      modifies this`rows
      ensures rows == old(rows).(movements := InsertAbsent(old(rows).movements, KeyedMovements(movements)))
    {
      if |movements| == 0 { return; }
      var table := InsertRows(rows.movements, KeyedMovements(movements), 7);
      rows := rows.(movements := table);
    }

    /** Fails when one statement would update an account twice; distinct accounts never do. */
    method ApplyAccountSnapshots(c: Chain, n: nat, touched: seq<AccountId>) returns (ok: bool)
      modifies this`rows
      ensures ok <==> UpsertStatements(old(rows).accounts, RowsAt(touched, n, c.world, TimestampAt(c, n)), 6500).Some?
      ensures ok ==> Some(rows.accounts) == UpsertStatements(old(rows).accounts, RowsAt(touched, n, c.world, TimestampAt(c, n)), 6500)
      ensures rows == old(rows).(accounts := rows.accounts)
    {
      var pending := RowsAt(touched, n, c.world, TimestampAt(c, n));
      ghost var all, before := pending, rows.accounts;
      while 0 < |pending|
        invariant UpsertStatements(rows.accounts, pending, 6500) == UpsertStatements(before, all, 6500)
        invariant rows == old(rows).(accounts := rows.accounts)
        decreases |pending|
      {
        var size := Min(|pending|, MAX_BINDS_PER_QUERY / 10);
        var statement := pending[..size];
        if exists i, j :: 0 <= i < j < |statement| && statement[i].0 == statement[j].0 {
          return false;
        }
        assert size == |pending| ==> statement == pending;
        rows := rows.(accounts := Upsert(rows.accounts, statement));
        pending := pending[size..];
      }
      return true;
    }

    /** Both snapshot upserts; the accounts of one statement are distinct, so neither fails. */
    method SnapshotAccounts(c: Chain, n: nat, touched: seq<AccountId>) returns (ok: bool)
      requires touched == TouchedAt(c, n) && NoDup(c.endowed)
      modifies this`rows
      ensures ok && rows == old(rows).(accounts := AccountsAfter(c, n, old(rows).accounts))
    {
      TouchedNoDup(c, n);
      hide TouchedAt;
      DistinctUpsertSucceeds(rows.accounts, RowsAt(touched, n, c.world, TimestampAt(c, n)), 6500);
      ok := ApplyAccountSnapshots(c, n, touched);
      if n == 0 {
        DistinctUpsertSucceeds(rows.accounts, RowsAt(c.endowed, 0, c.world, TimestampAt(c, 0)), 6500);
        ok := ApplyAccountSnapshots(c, 0, c.endowed);
      }
    }

    /** The FK on `ats_versions` may refuse the versions; nothing else here fails. */
    method ApplyAts(ops: Ats.AtsOps) returns (ok: bool)
      modifies this`ats
      ensures ok <==> Ats.ApplyAts(old(ats), ops).Some?
      ensures ok ==> Some(ats) == Ats.ApplyAts(old(ats), ops)
    {
      ghost var before := ats;
      if |ops.registryInserts| > 0 {
        ats := ats.(registry := InsertAbsent(ats.registry, ops.registryInserts));
      }
      if |ops.versionInserts| > 0 {
        if exists i :: 0 <= i < |ops.versionInserts|
            && ops.versionInserts[i].0 !in ats.versions && ops.versionInserts[i].0.0 !in ats.registry {
          return false;
        }
        ats := ats.(versions := InsertAbsent(ats.versions, ops.versionInserts));
      }
      ghost var registry1 := ats.registry;
      for i := 0 to |ops.bumps|
        invariant ats == Ats.AtsTables(Ats.ApplyBumps(registry1, ops.bumps[..i]), InsertAbsent(before.versions, ops.versionInserts))
      {
        var bump := ops.bumps[i];
        assert ops.bumps[..i + 1][..i] == ops.bumps[..i];
        if bump.id in ats.registry {
          var row := ats.registry[bump.id];
          ats := ats.(registry := ats.registry[bump.id := row.(count := Max(row.count, bump.count))]);
        }
      }
      assert ops.bumps[..|ops.bumps|] == ops.bumps;
      ghost var inserted := ats;
      for i := 0 to |ops.revocations|
        invariant ats == Ats.RevokeAll(inserted, ops.revocations[..i])
      {
        assert ops.revocations[..i + 1][..i] == ops.revocations[..i];
        ats := Ats.Revoke(ats, ops.revocations[i]);
      }
      assert ops.revocations[..|ops.revocations|] == ops.revocations;
      return true;
    }

    method BumpLiveCursor(last: nat)
      modifies this`cursor
      ensures cursor == BumpCursor(old(cursor), last)
      ensures cursor == Some(if old(cursor).Some? then Max(old(cursor).value, last) else last)
    {
      if cursor.None? || cursor.value < last {
        cursor := Some(last);
      }
    }
  }

  /** What is committed. */
  class Database {
    var tables: Tables
    var cursor: Option<nat>

    constructor ()
      ensures tables == Tables(NO_ROWS, Ats.AtsTables(map[], map[])) && cursor == None
    {
      tables := Tables(NO_ROWS, Ats.AtsTables(map[], map[]));
      cursor := None;
    }

    /**
     * One block, one transaction. `fault` stands for any RPC, decode or connection error on the way;
     * whatever fails, nothing is written. The live worker also moves its cursor.
     */
    method IndexBlock(c: Chain, n: nat, live: bool, fault: bool) returns (ok: bool)
      requires NoDup(c.endowed)
      modifies this
      ensures ok <==> !fault && Commit(c, n, old(tables)).Some?
      ensures ok ==> Some(tables) == Commit(c, n, old(tables))
      ensures ok ==> cursor == if live then BumpCursor(old(cursor), n) else old(cursor)
      ensures !ok ==> tables == old(tables) && cursor == old(cursor)
    {
      hide InsertAbsent, AccountsAfter, Ats.ApplyAts, Ats.Project;
      if fault { return false; }
      var movements, events := Movements.ProjectBlock(c.balanceEvents(n), n);
      var touched := Touched.CollectTouchedLoop(events, SignersOf(c, n));
      var ops := Ats.ProjectLoop(c.ats(n), n);

      var tx := new Transaction(tables.rows, tables.ats, cursor);
      var _ := tx.InsertBlock(c, n);
      tx.InsertExtrinsics(c, n);
      tx.InsertEvents(c, n);
      tx.InsertBalanceMovements(movements);
      ok := tx.SnapshotAccounts(c, n, touched);
      assert tx.rows == CommitRows(c, n, tables.rows);
      ok := tx.ApplyAts(ops);
      if !ok { return; }
      if live { tx.BumpLiveCursor(n); }
      tables, cursor := Tables(tx.rows, tx.ats), tx.cursor;
    }
  }
}
