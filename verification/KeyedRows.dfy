/**
 * Tables written with `INSERT … ON CONFLICT (key) DO NOTHING` (src/indexer/sink.rs): a table is a
 * map from its conflict key to a row, and an insert is a list of keyed rows taken in order.
 *
 * The point of the module is `Holds`: a description of the table that mentions only the set of
 * blocks whose rows were inserted, not the order or the number of the inserts.
 */
module KeyedRows {

  function InsertAbsent<K, R>(table: map<K, R>, rows: seq<(K, R)>): map<K, R>
    decreases |rows|
  {
    if rows == [] then table
    else
      var (k, r) := rows[0];
      InsertAbsent(if k in table then table else table[k := r], rows[1..])
  }

  /** What a list of rows leaves in an empty table: the first row of every key. */
  function FirstRows<K, R>(rows: seq<(K, R)>): map<K, R> {
    InsertAbsent(map[], rows)
  }

  lemma {:induction false} InsertAbsentConcat<K, R>(table: map<K, R>, a: seq<(K, R)>, b: seq<(K, R)>)
    ensures InsertAbsent(table, a + b) == InsertAbsent(InsertAbsent(table, a), b)
    decreases |a|
  {
    if a == [] {
      assert a + b == b;
    } else {
      var (k, r) := a[0];
      assert (a + b)[1..] == a[1..] + b;
      InsertAbsentConcat(if k in table then table else table[k := r], a[1..], b);
    }
  }

  /** Rows already present win; the rest of the result is the first row of each new key. */
  lemma {:induction false} InsertAbsentKeepsOld<K, R>(table: map<K, R>, rows: seq<(K, R)>)
    ensures InsertAbsent(table, rows) == FirstRows(rows) + table
    decreases |rows|
  {
    if rows != [] {
      var (k, r) := rows[0];
      var table' := if k in table then table else table[k := r];
      InsertAbsentKeepsOld(table', rows[1..]);
      InsertAbsentKeepsOld(map[k := r], rows[1..]);
      assert FirstRows(rows) == InsertAbsent(map[][k := r], rows[1..]);
    }
  }

  function KeysOf<K, R>(rows: seq<(K, R)>): set<K> {
    set i | 0 <= i < |rows| :: rows[i].0
  }

  lemma KeysOfSnoc<K, R>(rows: seq<(K, R)>, row: (K, R))
    ensures KeysOf(rows + [row]) == KeysOf(rows) + {row.0}
  {
    assert forall i :: 0 <= i < |rows| ==> (rows + [row])[i] == rows[i];
    assert (rows + [row])[|rows|] == row;
  }

  lemma {:induction false} FirstRowsKeys<K, R>(rows: seq<(K, R)>)
    ensures FirstRows(rows).Keys == KeysOf(rows)
    ensures forall k :: k in FirstRows(rows) ==> (k, FirstRows(rows)[k]) in rows
    decreases |rows|
  {
    if rows != [] {
      var (k0, r0) := rows[0];
      FirstRowsKeys(rows[1..]);
      InsertAbsentKeepsOld(map[k0 := r0], rows[1..]);
      assert FirstRows(rows) == FirstRows(rows[1..]) + map[k0 := r0] by {
        assert FirstRows(rows) == InsertAbsent(map[][k0 := r0], rows[1..]);
      }
      assert KeysOf(rows) == {k0} + KeysOf(rows[1..]) by {
        assert forall i :: 0 < i < |rows| ==> rows[i] == rows[1..][i - 1];
        assert forall i :: 0 <= i < |rows[1..]| ==> rows[1..][i] == rows[i + 1];
        assert rows[0].0 == k0;
      }
    }
  }

  lemma InsertAbsentKeys<K, R>(table: map<K, R>, rows: seq<(K, R)>)
    ensures InsertAbsent(table, rows).Keys == table.Keys + KeysOf(rows)
    ensures forall k :: k in table ==> InsertAbsent(table, rows)[k] == table[k]
    ensures forall k :: k in KeysOf(rows) && k !in table ==> (k, InsertAbsent(table, rows)[k]) in rows
  {
    InsertAbsentKeepsOld(table, rows);
    FirstRowsKeys(rows);
  }

  // ---- tables filled block by block ----

  /** No two blocks produce a row with the same key. */
  ghost predicate Separate<K(!new), R>(rowsOf: nat -> seq<(K, R)>) {
    forall n, m, k :: n != m && k in FirstRows(rowsOf(n)) ==> k !in FirstRows(rowsOf(m))
  }

  /** The table holds exactly the rows of the blocks in `done`. */
  ghost predicate Holds<K(!new), R>(table: map<K, R>, rowsOf: nat -> seq<(K, R)>, done: set<nat>) {
    && (forall k :: k in table ==> exists n :: n in done && k in FirstRows(rowsOf(n)))
    && (forall n, k :: n in done && k in FirstRows(rowsOf(n))
          ==> k in table && table[k] == FirstRows(rowsOf(n))[k])
  }

  /** Inserting a block's rows adds that block, whether or not its rows were there before. */
  lemma HoldsInsert<K(!new), R>(table: map<K, R>, rowsOf: nat -> seq<(K, R)>, done: set<nat>, n: nat)
    requires Separate(rowsOf) && Holds(table, rowsOf, done)
    ensures Holds(InsertAbsent(table, rowsOf(n)), rowsOf, done + {n})
  {
    InsertAbsentKeepsOld(table, rowsOf(n));
    var table' := InsertAbsent(table, rowsOf(n));
    forall k | k in table' ensures exists m :: m in done + {n} && k in FirstRows(rowsOf(m)) {
      if k in table {
        var m :| m in done && k in FirstRows(rowsOf(m));
        assert m in done + {n};
      } else {
        assert n in done + {n} && k in FirstRows(rowsOf(n));
      }
    }
    forall m, k | m in done + {n} && k in FirstRows(rowsOf(m))
      ensures k in table' && table'[k] == FirstRows(rowsOf(m))[k]
    {
      if k in table {
        var j :| j in done && k in FirstRows(rowsOf(j));
        assert j == m;
      } else {
        assert m == n;
      }
    }
  }

  /** The set of blocks determines the table. */
  lemma HoldsUnique<K(!new), R>(a: map<K, R>, b: map<K, R>, rowsOf: nat -> seq<(K, R)>, done: set<nat>)
    requires Holds(a, rowsOf, done) && Holds(b, rowsOf, done)
    ensures a == b
  {
    forall k | k in a ensures k in b && a[k] == b[k] {
      var n :| n in done && k in FirstRows(rowsOf(n));
    }
    forall k | k in b ensures k in a {
      var n :| n in done && k in FirstRows(rowsOf(n));
    }
  }

  /** Rows tagged with their block number never collide across blocks. */
  lemma TaggedIsSeparate<K(!new), R>(rowsOf: nat -> seq<(K, R)>, blockOf: K -> nat)
    requires forall n, i :: 0 <= i < |rowsOf(n)| ==> blockOf(rowsOf(n)[i].0) == n
    ensures Separate(rowsOf)
  {
    forall n, m, k | n != m && k in FirstRows(rowsOf(n))
      ensures k !in FirstRows(rowsOf(m))
    {
      FirstRowsKeys(rowsOf(n));
      FirstRowsKeys(rowsOf(m));
    }
  }
}
