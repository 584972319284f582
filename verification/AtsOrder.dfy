/**
 * When the order of the ATS commits matters. Blocks of a history that the pallet could have emitted are
 * committed in any order, with gaps and repetitions; `Standing` says which of them still show in the
 * tables, id by id.
 */
module AtsOrder {
  import opened Wrappers
  import opened Collections
  import opened KeyedRows
  import opened Ats
  import opened AtsHistory

  // ---- what a pallet history guarantees ----

  lemma {:induction false} HistoryPrefix(chain: AtsChain, n: nat, count: nat)
    requires n <= count && PalletHistory(chain, count).Some?
    ensures PalletHistory(chain, n).Some? && LedgerOk(PalletHistory(chain, n).value)
    decreases count
  {
    hide PalletHistory, LedgerOk, ReplayAts;
    if n < count {
      HistoryStep(chain, count);
      HistoryPrefix(chain, n, count - 1);
    } else {
      AscendingReplayIsFold(chain, count);
    }
  }

  /** What a block wrote is spent ever after, and an id it revoked is dead. */
  lemma {:induction false} HistorySpends(chain: AtsChain, n: nat, count: nat, k: (nat, int))
    requires n < count && PalletHistory(chain, count).Some?
    ensures k in WrittenKeys(chain(n)) ==> Spent(PalletHistory(chain, count).value, k)
    ensures Revokes(chain(n), k.0) ==> Dead(PalletHistory(chain, count).value, k.0)
    decreases count
  {
    HistoryPrefix(chain, count - 1, count);
    HistoryStep(chain, count);
    hide PalletHistory, PalletBlock, Spent, Dead, Revokes, WrittenKeys, LedgerOk;
    var l := PalletHistory(chain, count - 1).value;
    PalletBlockSpends(l, chain(count - 1), count - 1, k);
    if n < count - 1 { HistorySpends(chain, n, count - 1, k); }
  }

  lemma {:induction false} HistoryCreator(chain: AtsChain, count: nat, id: nat) returns (c: nat)
    requires PalletHistory(chain, count).Some? && id in PalletHistory(chain, count).value.used
    ensures c < count && id in CreatedIds(chain(c))
    decreases count
  {
    UsedIsMade(chain, count, id);
    hide PalletHistory, CreatedIds;
    c := count - 1;
    if id !in CreatedIds(chain(c)) { c := HistoryCreator(chain, count - 1, id); }
  }

  lemma UsedIsMade(chain: AtsChain, count: nat, id: nat)
    requires PalletHistory(chain, count).Some? && id in PalletHistory(chain, count).value.used
    ensures 0 < count && PalletHistory(chain, count - 1).Some?
    ensures id in PalletHistory(chain, count - 1).value.used || id in CreatedIds(chain(count - 1))
  {
    hide PalletHistory, PalletBlock, CreatedIds, LedgerOk, ReplayAts, FirstBlocks;
    NoHistory(chain);
    HistoryStep(chain, count);
    HistoryPrefix(chain, count - 1, count);
    PalletBlockIsFold(PalletHistory(chain, count - 1).value, chain(count - 1), count - 1);
  }

  lemma HistoryFits(chain: AtsChain, n: nat, count: nat)
    requires n < count && PalletHistory(chain, count).Some?
    ensures VersionsFit(chain(n))
  {
    HistoryPrefix(chain, n + 1, count);
    HistoryPrefix(chain, n, count);
    HistoryStep(chain, n + 1);
    PalletBlockIsFold(PalletHistory(chain, n).value, chain(n), n);
  }

  /** No two blocks of a history write the same version. */
  lemma WrittenOnce(chain: AtsChain, count: nat, n: nat, m: nat, k: (nat, int))
    requires PalletHistory(chain, count).Some? && n < count && m < count
    requires k in WrittenKeys(chain(n)) && k in WrittenKeys(chain(m))
    ensures n == m
  {
    if n < m { SpentStaysUnwritten(chain, count, n, m, k); }
    if m < n { SpentStaysUnwritten(chain, count, m, n, k); }
  }

  lemma SpentStaysUnwritten(chain: AtsChain, count: nat, n: nat, m: nat, k: (nat, int))
    requires PalletHistory(chain, count).Some? && n < m < count
    ensures k in WrittenKeys(chain(n)) ==> k !in WrittenKeys(chain(m))
    ensures Revokes(chain(n), k.0) ==> !Writes(chain(m), k.0)
  {
    HistoryPrefix(chain, m + 1, count);
    HistoryPrefix(chain, m, count);
    HistorySpends(chain, n, m, k);
    HistoryStep(chain, m + 1);
    PalletBlockSpends(PalletHistory(chain, m).value, chain(m), m, k);
  }

  /** No block writes an id that an earlier one revoked. */
  lemma RevocationEnds(chain: AtsChain, count: nat, r: nat, m: nat, id: nat)
    requires PalletHistory(chain, count).Some? && r < count && m < count
    requires Revokes(chain(r), id) && Writes(chain(m), id)
    ensures m <= r
  {
    if r < m { SpentStaysUnwritten(chain, count, r, m, (id, 0)); }
  }

  /** A block that writes an id does not come before the block that creates it. */
  lemma CreatorFirst(chain: AtsChain, count: nat, u: nat, id: nat) returns (c: nat)
    requires PalletHistory(chain, count).Some? && u < count && Writes(chain(u), id)
    ensures c <= u && id in CreatedIds(chain(c))
  {
    HistoryPrefix(chain, u + 1, count);
    HistoryPrefix(chain, u, count);
    HistoryStep(chain, u + 1);
    PalletBlockUses(PalletHistory(chain, u).value, chain(u), u, id);
    c := HistoryCreator(chain, u + 1, id);
  }

  lemma {:induction false} PalletBlockUses(l: Ledger, decoded: seq<(nat, AtsEvent)>, block: nat, id: nat)
    requires LedgerOk(l) && PalletBlock(l, decoded, block).Some? && Writes(decoded, id)
    ensures id in PalletBlock(l, decoded, block).value.used
    decreases |decoded|
  {
    var n := |decoded| - 1;
    var front := decoded[..n];
    assert decoded == front + [decoded[n]];
    PalletBlockIsFold(l, front, block);
    WritesSnoc(front, decoded[n], id);
    hide Writes, LedgerOk;
    if Writes(front, id) { PalletBlockUses(l, front, block, id); }
  }

  // ---- the rows of one id ----

  function CreatedRows(chain: AtsChain, n: nat): map<nat, RegistryRow> {
    FirstRows(Project(chain(n), n).registryInserts)
  }

  function VersionRows(chain: AtsChain, n: nat): map<(nat, int), VersionRow> {
    FirstRows(Project(chain(n), n).versionInserts)
  }

  lemma RowKeys(chain: AtsChain, n: nat)
    ensures CreatedRows(chain, n).Keys == CreatedIds(chain(n))
    ensures VersionRows(chain, n).Keys == WrittenKeys(chain(n))
  {
    FirstRowsKeys(Project(chain(n), n).registryInserts);
    FirstRowsKeys(Project(chain(n), n).versionInserts);
    ProjectKeys(chain(n), n);
  }

  lemma CreatedWritesZero(decoded: seq<(nat, AtsEvent)>, id: nat)
    requires id in CreatedIds(decoded)
    ensures (id, 0) in WrittenKeys(decoded) && Writes(decoded, id)
  {
    var i :| 0 <= i < |decoded| && decoded[i].1.Created? && decoded[i].1.id == id;
    assert VersionKey(decoded[i].1) == (id, 0);
  }

  lemma WrittenIsWrite(decoded: seq<(nat, AtsEvent)>, k: (nat, int))
    requires k in WrittenKeys(decoded)
    ensures Writes(decoded, k.0)
  {
  }

  lemma WriteIsWritten(decoded: seq<(nat, AtsEvent)>, id: nat) returns (v: int)
    requires Writes(decoded, id)
    ensures (id, v) in WrittenKeys(decoded)
  {
    var i :| 0 <= i < |decoded| && !decoded[i].1.Revoked? && decoded[i].1.id == id;
    v := VersionKey(decoded[i].1).1;
    assert VersionKey(decoded[i].1) == (id, v);
  }

  /** The blocks of the log that write the id and are not followed, nor themselves ended, by its revocation. */
  ghost function Standing(chain: AtsChain, log: seq<nat>, id: nat): set<nat>
    decreases |log|
  {
    if log == [] then {}
    else
      var n := log[|log| - 1];
      if Revokes(chain(n), id) then {}
      else Standing(chain, log[..|log| - 1], id) + if Writes(chain(n), id) then {n} else {}
  }

  ghost predicate StandsAt(chain: AtsChain, log: seq<nat>, id: nat, j: int)
    requires 0 <= j < |log|
  {
    Writes(chain(log[j]), id) && forall k :: j <= k < |log| ==> !Revokes(chain(log[k]), id)
  }

  /** The same by position. */
  lemma {:induction false} StandingIff(chain: AtsChain, log: seq<nat>, id: nat, n: nat)
    ensures n in Standing(chain, log, id) <==> exists j :: 0 <= j < |log| && log[j] == n && StandsAt(chain, log, id, j)
    decreases |log|
  {
    if log != [] {
      hide Writes, Revokes;
      var m := |log| - 1;
      var front, last := log[..m], log[m];
      StandingIff(chain, front, id, n);
      assert forall j :: 0 <= j < m ==> front[j] == log[j];
      if n in Standing(chain, log, id) {
        if n in Standing(chain, front, id) {
          var j :| 0 <= j < m && front[j] == n && StandsAt(chain, front, id, j);
          assert StandsAt(chain, log, id, j);
        } else {
          assert StandsAt(chain, log, id, m);
        }
      }
      if j :| 0 <= j < |log| && log[j] == n && StandsAt(chain, log, id, j) {
        assert !Revokes(chain(log[m]), id);
        if j < m { assert StandsAt(chain, front, id, j); }
      }
    }
  }

  /** The registry row of the id, as created, comes from the blocks in `standing` and only from them. */
  ghost predicate RegistryFrom(chain: AtsChain, t: AtsTables, id: nat, standing: set<nat>) {
    && (id in t.registry ==> exists n :: n in standing && id in CreatedRows(chain, n))
    && (forall n :: n in standing && id in CreatedRows(chain, n) ==> (
          id in t.registry && AsNew(t.registry[id]) == AsNew(CreatedRows(chain, n)[id])))
  }

  /** Likewise one version row. */
  ghost predicate VersionFrom(chain: AtsChain, t: AtsTables, k: (nat, int), standing: set<nat>) {
    && (k in t.versions ==> exists n :: n in standing && k in VersionRows(chain, n))
    && (forall n :: n in standing && k in VersionRows(chain, n) ==> (
          k in t.versions && t.versions[k] == VersionRows(chain, n)[k]))
  }

  ghost predicate RowsFrom(chain: AtsChain, t: AtsTables, id: nat, v: int, standing: set<nat>) {
    RegistryFrom(chain, t, id, standing) && VersionFrom(chain, t, (id, v), standing)
  }

  ghost predicate Within(log: seq<nat>, count: nat) {
    forall n :: n in log ==> n < count
  }

  lemma WithinPrefix(log: seq<nat>, count: nat)
    requires log != [] && Within(log, count)
    ensures Within(log[..|log| - 1], count) && log[|log| - 1] < count
  {
    var front := log[..|log| - 1];
    assert log[|log| - 1] in log;
    forall n | n in front ensures n in log {
      var i :| 0 <= i < |front| && front[i] == n;
      assert log[i] == n;
    }
  }

  lemma RevocationClears(chain: AtsChain, t: AtsTables, n: nat, id: nat, v: int)
    requires ApplyAts(t, Project(chain(n), n)).Some? && Revokes(chain(n), id)
    ensures RowsFrom(chain, ApplyAts(t, Project(chain(n), n)).value, id, v, {})
  {
    ProjectRevocations(chain(n), n, id);
    RevokeAllAt(Inserted(t, Project(chain(n), n)), Project(chain(n), n).revocations);
  }

  lemma {:induction false} ProjectRevocations(decoded: seq<(nat, AtsEvent)>, block: nat, id: nat)
    ensures id in Project(decoded, block).revocations <==> Revokes(decoded, id)
    decreases |decoded|
  {
    if decoded != [] {
      var n := |decoded| - 1;
      assert decoded == decoded[..n] + [decoded[n]];
      ProjectRevocations(decoded[..n], block, id);
      RevokesSnoc(decoded[..n], decoded[n], id);
      hide Revokes;
    }
  }

  function AsNew(row: RegistryRow): RegistryRow { row.(count := 1) }

  /** What a block that does not revoke the id leaves of it. */
  lemma CommitAt(chain: AtsChain, t: AtsTables, n: nat, id: nat, v: int)
    requires ApplyAts(t, Project(chain(n), n)).Some? && !Revokes(chain(n), id)
    ensures var t' := ApplyAts(t, Project(chain(n), n)).value;
      && (id in t'.registry <==> id in t.registry || id in CreatedRows(chain, n))
      && (id in t.registry ==> AsNew(t'.registry[id]) == AsNew(t.registry[id]))
      && (id in t'.registry && id !in t.registry ==> AsNew(t'.registry[id]) == AsNew(CreatedRows(chain, n)[id]))
      && ((id, v) in t'.versions <==> (id, v) in t.versions || (id, v) in VersionRows(chain, n))
      && ((id, v) in t.versions ==> t'.versions[(id, v)] == t.versions[(id, v)])
      && ((id, v) in t'.versions && (id, v) !in t.versions ==> t'.versions[(id, v)] == VersionRows(chain, n)[(id, v)])
  {
    var ops := Project(chain(n), n);
    ProjectRevocations(chain(n), n, id);
    RevokeAllAt(Inserted(t, ops), ops.revocations);
    InsertAbsentKeepsOld(t.registry, ops.registryInserts);
    InsertAbsentKeepsOld(t.versions, ops.versionInserts);
    ApplyBumpsAt(InsertAbsent(t.registry, ops.registryInserts), ops.bumps, id);
    hide InsertAbsent, Project, RevokeAll, ApplyBumps, FirstRows;
  }

  lemma CommitRowsFrom(chain: AtsChain, count: nat, t: AtsTables, n: nat, id: nat, v: int, standing: set<nat>)
    requires PalletHistory(chain, count).Some? && n < count && forall m :: m in standing ==> m < count
    requires ApplyAts(t, Project(chain(n), n)).Some? && !Revokes(chain(n), id)
    requires RowsFrom(chain, t, id, v, standing)
    ensures RowsFrom(chain, ApplyAts(t, Project(chain(n), n)).value, id, v,
                     standing + if Writes(chain(n), id) then {n} else {})
  {
    CommitAt(chain, t, n, id, v);
    RowKeys(chain, n);
    hide Revokes, CreatedRows, VersionRows, ApplyAts, Project, PalletHistory;
    var k := (id, v);
    if id in CreatedIds(chain(n)) { CreatedWritesZero(chain(n), id); }
    if k in WrittenKeys(chain(n)) { WrittenIsWrite(chain(n), k); }
    forall m | m in standing && id in CreatedRows(chain, m) && id in CreatedRows(chain, n) ensures m == n {
      RowKeys(chain, m);
      CreatedWritesZero(chain(m), id);
      WrittenOnce(chain, count, m, n, (id, 0));
    }
    forall m | m in standing && k in VersionRows(chain, m) && k in VersionRows(chain, n) ensures m == n {
      RowKeys(chain, m);
      WrittenOnce(chain, count, m, n, k);
    }
    hide Writes, CreatedIds, WrittenKeys;
    var t' := ApplyAts(t, Project(chain(n), n)).value;
    var standing' := standing + if Writes(chain(n), id) then {n} else {};
    RegistryFromStep(chain, t, t', id, n, standing, standing');
    VersionFromStep(chain, t, t', k, n, standing, standing');
  }

  lemma RegistryFromStep(chain: AtsChain, t: AtsTables, t': AtsTables, id: nat, n: nat, standing: set<nat>, standing': set<nat>)
    requires RegistryFrom(chain, t, id, standing)
    requires standing <= standing' <= standing + {n} && (id in CreatedRows(chain, n) ==> n in standing')
    requires forall m :: m in standing && id in CreatedRows(chain, m) && id in CreatedRows(chain, n) ==> m == n
    requires id in t'.registry <==> id in t.registry || id in CreatedRows(chain, n)
    requires id in t.registry ==> AsNew(t'.registry[id]) == AsNew(t.registry[id])
    requires id in t'.registry && id !in t.registry ==> AsNew(t'.registry[id]) == AsNew(CreatedRows(chain, n)[id])
    ensures RegistryFrom(chain, t', id, standing')
  {
    hide CreatedRows, AsNew;
  }

  lemma VersionFromStep(chain: AtsChain, t: AtsTables, t': AtsTables, k: (nat, int), n: nat, standing: set<nat>, standing': set<nat>)
    requires VersionFrom(chain, t, k, standing)
    requires standing <= standing' <= standing + {n} && (k in VersionRows(chain, n) ==> n in standing')
    requires forall m :: m in standing && k in VersionRows(chain, m) && k in VersionRows(chain, n) ==> m == n
    requires k in t'.versions <==> k in t.versions || k in VersionRows(chain, n)
    requires k in t.versions ==> t'.versions[k] == t.versions[k]
    requires k in t'.versions && k !in t.versions ==> t'.versions[k] == VersionRows(chain, n)[k]
    ensures VersionFrom(chain, t', k, standing')
  {
    hide VersionRows;
  }

  lemma ReplaySnoc(chain: AtsChain, front: seq<nat>, n: nat)
    requires ReplayAts(chain, front + [n]).Some?
    ensures ReplayAts(chain, front).Some?
    ensures ReplayAts(chain, front + [n]) == ApplyAts(ReplayAts(chain, front).value, Project(chain(n), n))
  {
    assert (front + [n])[..|front|] == front;
    hide ApplyAts, Project;
  }

  lemma StandingSnoc(chain: AtsChain, front: seq<nat>, n: nat, id: nat)
    ensures Standing(chain, front + [n], id) ==
      if Revokes(chain(n), id) then {} else Standing(chain, front, id) + if Writes(chain(n), id) then {n} else {}
  {
    assert (front + [n])[..|front|] == front;
    hide Revokes, Writes;
  }

  lemma {:induction false} StandingWithin(chain: AtsChain, log: seq<nat>, id: nat)
    ensures Standing(chain, log, id) <= SetOf(log)
    decreases |log|
  {
    if log != [] {
      hide Writes, Revokes;
      assert log == log[..|log| - 1] + [log[|log| - 1]];
      SetOfSnoc(log[..|log| - 1], log[|log| - 1]);
      StandingWithin(chain, log[..|log| - 1], id);
    }
  }

  lemma StandingBelow(chain: AtsChain, log: seq<nat>, count: nat, id: nat)
    requires Within(log, count)
    ensures forall n :: n in Standing(chain, log, id) ==> n in log && n < count
  {
    StandingWithin(chain, log, id);
    forall n | n in Standing(chain, log, id) ensures n in log { assert n in SetOf(log); }
  }

  lemma NothingStands(chain: AtsChain, id: nat, v: int)
    ensures RowsFrom(chain, EMPTY, id, v, {})
  {
  }

  /** After any commits, the rows of an id are those of the blocks that still stand. */
  lemma {:induction false} StandingRows(chain: AtsChain, count: nat, log: seq<nat>, id: nat, v: int)
    requires PalletHistory(chain, count).Some? && Within(log, count) && ReplayAts(chain, log).Some?
    ensures RowsFrom(chain, ReplayAts(chain, log).value, id, v, Standing(chain, log, id))
    decreases |log|
  {
    hide PalletHistory, ApplyAts, Project, RowsFrom, Writes, Revokes;
    if log == [] {
      NothingStands(chain, id, v);
    } else {
      var n, front := log[|log| - 1], log[..|log| - 1];
      assert log == front + [n];
      WithinPrefix(log, count);
      hide ReplayAts, Standing, Within;
      ReplaySnoc(chain, front, n);
      StandingSnoc(chain, front, n, id);
      StandingRows(chain, count, front, id, v);
      var t := ReplayAts(chain, front).value;
      if Revokes(chain(n), id) {
        RevocationClears(chain, t, n, id, v);
      } else {
        StandingBelow(chain, front, count, id);
        CommitRowsFrom(chain, count, t, n, id, v, Standing(chain, front, id));
      }
    }
  }

  // ---- two logs ----

  lemma LogConsistent(chain: AtsChain, count: nat, log: seq<nat>)
    requires PalletHistory(chain, count).Some? && Within(log, count) && ReplayAts(chain, log).Some?
    ensures Consistent(ReplayAts(chain, log).value)
  {
    forall n | n in log ensures VersionsFit(chain(n)) { HistoryFits(chain, n, count); }
    hide VersionsFit, PalletHistory;
    ReplayConsistent(chain, log);
  }

  /** Counts follow from the versions, so equal versions and equal creations mean equal tables. */
  lemma ConsistentDetermined(s: AtsTables, t: AtsTables)
    requires Consistent(s) && Consistent(t) && s.versions == t.versions
    requires forall id :: id in s.registry <==> id in t.registry
    requires forall id :: id in s.registry && id in t.registry ==> AsNew(s.registry[id]) == AsNew(t.registry[id])
    ensures s == t
  {
    forall id | id in s.registry ensures id in t.registry && s.registry[id] == t.registry[id] {
      assert (id, s.registry[id].count - 1) in t.versions;
      assert (id, t.registry[id].count - 1) in s.versions;
    }
  }

  lemma SameRows(chain: AtsChain, s: AtsTables, t: AtsTables, id: nat, v: int, standing: set<nat>)
    requires RowsFrom(chain, s, id, v, standing) && RowsFrom(chain, t, id, v, standing)
    ensures id in s.registry <==> id in t.registry
    ensures id in s.registry ==> AsNew(s.registry[id]) == AsNew(t.registry[id])
    ensures (id, v) in s.versions <==> (id, v) in t.versions
    ensures (id, v) in s.versions ==> s.versions[(id, v)] == t.versions[(id, v)]
  {
    hide CreatedRows, VersionRows;
  }

  lemma StandingDetermines(chain: AtsChain, count: nat, a: seq<nat>, b: seq<nat>)
    requires PalletHistory(chain, count).Some? && Within(a, count) && Within(b, count)
    requires ReplayAts(chain, a).Some? && ReplayAts(chain, b).Some?
    requires SameStanding(chain, a, b)
    ensures ReplayAts(chain, a) == ReplayAts(chain, b)
  {
    var s, t := ReplayAts(chain, a).value, ReplayAts(chain, b).value;
    LogConsistent(chain, count, a);
    LogConsistent(chain, count, b);
    hide ReplayAts, Standing, RowsFrom, Consistent, PalletHistory, Within;
    forall id: nat, v: int
      ensures id in s.registry <==> id in t.registry
      ensures id in s.registry && id in t.registry ==> AsNew(s.registry[id]) == AsNew(t.registry[id])
      ensures (id, v) in s.versions <==> (id, v) in t.versions
      ensures (id, v) in s.versions && (id, v) in t.versions ==> s.versions[(id, v)] == t.versions[(id, v)]
    {
      StandingRows(chain, count, a, id, v);
      StandingRows(chain, count, b, id, v);
      SameRows(chain, s, t, id, v, Standing(chain, a, id));
    }
    forall id ensures id in s.registry <==> id in t.registry { assert (id, 0) in s.versions <==> (id, 0) in t.versions; }
    forall k ensures k in s.versions <==> k in t.versions { assert k == (k.0, k.1); }
    forall k | k in s.versions ensures s.versions[k] == t.versions[k] { assert k == (k.0, k.1); }
    assert s.versions == t.versions;
    ConsistentDetermined(s, t);
  }

  lemma StandingShows(chain: AtsChain, count: nat, a: seq<nat>, b: seq<nat>, id: nat, n: nat)
    requires PalletHistory(chain, count).Some? && Within(a, count) && Within(b, count)
    requires ReplayAts(chain, a).Some? && ReplayAts(chain, a) == ReplayAts(chain, b)
    requires n in Standing(chain, a, id)
    ensures n in Standing(chain, b, id)
  {
    hide ReplayAts, VersionRows, CreatedRows, PalletHistory, RegistryFrom, Writes, Revokes, WrittenKeys, CreatedIds;
    StandingIff(chain, a, id, n);
    StandingBelow(chain, a, count, id);
    StandingBelow(chain, b, count, id);
    hide Standing, StandsAt, Within;
    assert Writes(chain(n), id) by {
      var j :| 0 <= j < |a| && a[j] == n && StandsAt(chain, a, id, j);
      StandsWrites(chain, a, id, j);
    }
    var v := WriteIsWritten(chain(n), id);
    StandingRows(chain, count, a, id, v);
    StandingRows(chain, count, b, id, v);
    RowKeys(chain, n);
    var t := ReplayAts(chain, a).value;
    assert (id, v) in t.versions;
    var m :| m in Standing(chain, b, id) && (id, v) in VersionRows(chain, m);
    RowKeys(chain, m);
    WrittenOnce(chain, count, n, m, (id, v));
  }

  lemma StandsWrites(chain: AtsChain, log: seq<nat>, id: nat, j: int)
    requires 0 <= j < |log| && StandsAt(chain, log, id, j)
    ensures Writes(chain(log[j]), id)
  {
  }

  lemma TablesShowStanding(chain: AtsChain, count: nat, a: seq<nat>, b: seq<nat>, id: nat)
    requires PalletHistory(chain, count).Some? && Within(a, count) && Within(b, count)
    requires ReplayAts(chain, a).Some? && ReplayAts(chain, a) == ReplayAts(chain, b)
    ensures Standing(chain, a, id) == Standing(chain, b, id)
  {
    hide ReplayAts, Standing, PalletHistory, Within;
    forall n ensures n in Standing(chain, a, id) <==> n in Standing(chain, b, id) {
      if n in Standing(chain, a, id) { StandingShows(chain, count, a, b, id, n); }
      if n in Standing(chain, b, id) { StandingShows(chain, count, b, a, id, n); }
    }
  }

  ghost predicate SameStanding(chain: AtsChain, a: seq<nat>, b: seq<nat>) {
    forall id :: Standing(chain, a, id) == Standing(chain, b, id)
  }

  /**
   * Two successful logs of a pallet history end in the same tables iff, id by id, the same blocks that
   * write the id still stand: committed, and not followed by a block that revokes it.
   */
  lemma SameTablesIff(chain: AtsChain, count: nat, a: seq<nat>, b: seq<nat>)
    requires PalletHistory(chain, count).Some? && Within(a, count) && Within(b, count)
    requires ReplayAts(chain, a).Some? && ReplayAts(chain, b).Some?
    ensures ReplayAts(chain, a) == ReplayAts(chain, b) <==> SameStanding(chain, a, b)
  {
    if SameStanding(chain, a, b) {
      StandingDetermines(chain, count, a, b);
    }
    if ReplayAts(chain, a) == ReplayAts(chain, b) {
      hide ReplayAts, Standing, PalletHistory, Within;
      forall id ensures Standing(chain, a, id) == Standing(chain, b, id) {
        TablesShowStanding(chain, count, a, b, id);
      }
    }
  }

  // ---- a log against its ascending form ----

  /** Whoever writes an id that some block of the log revokes is followed, or is itself, such a block. */
  ghost predicate RevokedLast(chain: AtsChain, log: seq<nat>) {
    forall i, j, id :: 0 <= i < |log| && 0 <= j < |log| && Revokes(chain(log[i]), id) && Writes(chain(log[j]), id)
      ==> exists k :: j <= k < |log| && Revokes(chain(log[k]), id)
  }

  /** The creation of an id that a committed block writes was itself committed. */
  lemma {:induction false} CreatorCommitted(chain: AtsChain, count: nat, log: seq<nat>, u: nat, id: nat) returns (c: nat)
    requires PalletHistory(chain, count).Some? && Within(log, count) && ReplayAts(chain, log).Some?
    requires u in log && Writes(chain(u), id)
    ensures c in log && c <= u && id in CreatedIds(chain(c))
    decreases |log|
  {
    var n, front := log[|log| - 1], log[..|log| - 1];
    assert log == front + [n];
    WithinPrefix(log, count);
    assert forall m :: m in log <==> m in front || m == n;
    hide PalletHistory, ReplayAts, Writes, CreatedIds, ApplyAts, Project, Within;
    ReplaySnoc(chain, front, n);
    if u in front {
      c := CreatorCommitted(chain, count, front, u, id);
    } else {
      c := CreatorFirst(chain, count, u, id);
      if c != u { FirstWriteHasCreator(chain, count, front, u, id, c); }
    }
  }

  lemma FirstWriteHasCreator(chain: AtsChain, count: nat, front: seq<nat>, u: nat, id: nat, c: nat)
    requires PalletHistory(chain, count).Some? && Within(front, count) && u < count && ReplayAts(chain, front).Some?
    requires ApplyAts(ReplayAts(chain, front).value, Project(chain(u), u)).Some?
    requires Writes(chain(u), id) && c < u && id in CreatedIds(chain(c))
    ensures c in front
  {
    hide PalletHistory, ReplayAts, Standing, VersionRows, CreatedRows, VersionFrom, CreatedIds, ApplyAts, Project;
    StandingBelow(chain, front, count, id);
    var v := WriteIsWritten(chain(u), id);
    var t := ReplayAts(chain, front).value;
    LogConsistent(chain, count, front);
    StandingRows(chain, count, front, id, v);
    ParentThere(t, chain(u), u, id, v);
    if id in t.registry {
      var m :| m in Standing(chain, front, id) && id in CreatedRows(chain, m);
      RowKeys(chain, m);
      SameCreator(chain, count, c, m, id);
    } else {
      SameCreator(chain, count, c, u, id);
    }
  }

  lemma SameCreator(chain: AtsChain, count: nat, c: nat, m: nat, id: nat)
    requires PalletHistory(chain, count).Some? && c < count && m < count
    requires id in CreatedIds(chain(c)) && id in CreatedIds(chain(m))
    ensures c == m
  {
    CreatedWritesZero(chain(c), id);
    CreatedWritesZero(chain(m), id);
    WrittenOnce(chain, count, c, m, (id, 0));
  }

  /** A block that commits has a parent for each id it writes. */
  lemma ParentThere(t: AtsTables, decoded: seq<(nat, AtsEvent)>, block: nat, id: nat, v: int)
    requires Consistent(t) && ApplyAts(t, Project(decoded, block)).Some? && (id, v) in WrittenKeys(decoded)
    ensures id in t.registry || id in CreatedIds(decoded)
  {
    ApplyAtsSucceedsIff(t, decoded, block);
    var i :| 0 <= i < |decoded| && !decoded[i].1.Revoked? && VersionKey(decoded[i].1) == (id, v);
    hide ApplyAts, Project;
    if decoded[i].1.Created? { assert decoded[i].1.id in CreatedIds(decoded); }
  }

  /** What precedes a block in the ascending form of a log. */
  lemma AscendingPrefix(asc: seq<nat>, k: nat, c: nat)
    requires StrictlyAscending(asc) && k < |asc|
    ensures c in asc[..k] <==> c in asc && c < asc[k]
  {
    if c in asc && c < asc[k] {
      var j :| 0 <= j < |asc| && asc[j] == c;
      assert j < k;
      assert asc[..k][j] == c;
    }
    if c in asc[..k] {
      var j :| 0 <= j < k && asc[..k][j] == c;
      assert asc[j] == c;
    }
  }

  /** In ascending order every creation of the log stands until it is revoked by a later block. */
  lemma CreatorStands(chain: AtsChain, count: nat, asc: seq<nat>, k: nat, c: nat, id: nat)
    requires PalletHistory(chain, count).Some? && Within(asc, count) && StrictlyAscending(asc) && k < |asc|
    requires c in asc && c < asc[k] && id in CreatedIds(chain(c)) && Writes(chain(asc[k]), id)
    ensures c in Standing(chain, asc[..k], id)
  {
    AscendingPrefix(asc, k, c);
    var front := asc[..k];
    var j :| 0 <= j < k && front[j] == c;
    CreatedWritesZero(chain(c), id);
    hide PalletHistory, Writes, Revokes;
    forall i | j <= i < k ensures !Revokes(chain(front[i]), id) {
      assert front[i] == asc[i] && asc[i] in asc && asc[k] in asc;
      if Revokes(chain(asc[i]), id) { RevocationEnds(chain, count, asc[i], asc[k], id); }
    }
    assert StandsAt(chain, front, id, j);
    StandingIff(chain, front, id, c);
  }

  lemma StepSucceeds(chain: AtsChain, count: nat, log: seq<nat>, asc: seq<nat>, k: nat)
    requires PalletHistory(chain, count).Some? && Within(log, count) && ReplayAts(chain, log).Some?
    requires StrictlyAscending(asc) && SetOf(asc) == SetOf(log) && k < |asc|
    requires ReplayAts(chain, asc[..k]).Some?
    ensures ApplyAts(ReplayAts(chain, asc[..k]).value, Project(chain(asc[k]), asc[k])).Some?
  {
    var u, front := asc[k], asc[..k];
    var t := ReplayAts(chain, front).value;
    forall n | n in asc ensures n in log && n < count { assert n in SetOf(asc); }
    forall n | n in front ensures n in asc {}
    assert Within(front, count);
    LogConsistent(chain, count, front);
    ApplyAtsSucceedsIff(t, chain(u), u);
    hide ReplayAts, ApplyAts, Project, PalletHistory, Consistent, CreatedIds, Standing;
    forall i | 0 <= i < |chain(u)| && chain(u)[i].1.Updated? && VersionKey(chain(u)[i].1) !in t.versions
      ensures chain(u)[i].1.id in t.registry.Keys + CreatedIds(chain(u))
    {
      var id := chain(u)[i].1.id;
      assert Writes(chain(u), id);
      ParentInAscending(chain, count, log, asc, k, id);
    }
  }

  lemma ParentInAscending(chain: AtsChain, count: nat, log: seq<nat>, asc: seq<nat>, k: nat, id: nat)
    requires PalletHistory(chain, count).Some? && Within(log, count) && ReplayAts(chain, log).Some?
    requires StrictlyAscending(asc) && SetOf(asc) == SetOf(log) && Within(asc, count) && k < |asc|
    requires ReplayAts(chain, asc[..k]).Some? && Writes(chain(asc[k]), id)
    ensures id in ReplayAts(chain, asc[..k]).value.registry || id in CreatedIds(chain(asc[k]))
  {
    hide PalletHistory, Writes, CreatedIds, Standing, ReplayAts;
    assert asc[k] in SetOf(asc);
    var c := CreatorCommitted(chain, count, log, asc[k], id);
    if c < asc[k] {
      assert c in SetOf(log);
      CreatorStands(chain, count, asc, k, c, id);
      assert Within(asc[..k], count);
      StandingRows(chain, count, asc[..k], id, 0);
      RowKeys(chain, c);
    }
  }

  lemma {:induction false} AscendingSucceeds(chain: AtsChain, count: nat, log: seq<nat>, asc: seq<nat>, k: nat)
    requires PalletHistory(chain, count).Some? && Within(log, count) && ReplayAts(chain, log).Some?
    requires StrictlyAscending(asc) && SetOf(asc) == SetOf(log) && k <= |asc|
    ensures ReplayAts(chain, asc[..k]).Some?
    decreases k
  {
    if k > 0 {
      hide PalletHistory, ApplyAts, Project, StrictlyAscending;
      AscendingSucceeds(chain, count, log, asc, k - 1);
      StepSucceeds(chain, count, log, asc, k - 1);
      assert asc[..k][..k - 1] == asc[..k - 1];
    }
  }

  /** In ascending order the writers of an id all stand if nobody revokes it, and none does otherwise. */
  lemma AscendingStanding(chain: AtsChain, count: nat, asc: seq<nat>, id: nat, n: nat)
    requires PalletHistory(chain, count).Some? && Within(asc, count) && StrictlyAscending(asc)
    ensures n in Standing(chain, asc, id) <==>
      n in asc && Writes(chain(n), id) && forall i :: 0 <= i < |asc| ==> !Revokes(chain(asc[i]), id)
  {
    StandingIff(chain, asc, id, n);
    hide PalletHistory, Writes, Revokes, Standing;
    if j :| 0 <= j < |asc| && asc[j] == n && StandsAt(chain, asc, id, j) {
      forall i | 0 <= i < |asc| ensures !Revokes(chain(asc[i]), id) {
        if i < j && Revokes(chain(asc[i]), id) {
          assert asc[i] in asc && asc[j] in asc;
          RevocationEnds(chain, count, asc[i], asc[j], id);
        }
      }
    }
    if n in asc && Writes(chain(n), id) && forall i :: 0 <= i < |asc| ==> !Revokes(chain(asc[i]), id) {
      var j :| 0 <= j < |asc| && asc[j] == n;
      assert StandsAt(chain, asc, id, j);
    }
  }

  lemma SameRevokers(chain: AtsChain, log: seq<nat>, asc: seq<nat>, id: nat)
    requires SetOf(asc) == SetOf(log)
    ensures (forall i :: 0 <= i < |asc| ==> !Revokes(chain(asc[i]), id)) <==> forall i :: 0 <= i < |log| ==> !Revokes(chain(log[i]), id)
  {
    hide Revokes;
    if i :| 0 <= i < |log| && Revokes(chain(log[i]), id) {
      assert log[i] in SetOf(log);
      var j :| 0 <= j < |asc| && asc[j] == log[i];
    }
    if i :| 0 <= i < |asc| && Revokes(chain(asc[i]), id) {
      assert asc[i] in SetOf(asc);
      var j :| 0 <= j < |log| && log[j] == asc[i];
    }
  }

  /** The ascending form has the same standing blocks iff no revoked id is written after its last revocation. */
  lemma StandingMatchesIff(chain: AtsChain, count: nat, log: seq<nat>, asc: seq<nat>)
    requires PalletHistory(chain, count).Some? && Within(log, count)
    requires StrictlyAscending(asc) && SetOf(asc) == SetOf(log)
    ensures SameStanding(chain, log, asc) <==> RevokedLast(chain, log)
  {
    forall n | n in asc ensures n < count { assert n in SetOf(asc); }
    hide PalletHistory, Standing, Writes, Revokes, StrictlyAscending;
    if RevokedLast(chain, log) {
      forall id ensures Standing(chain, log, id) == Standing(chain, asc, id) {
        forall n ensures n in Standing(chain, log, id) <==> n in Standing(chain, asc, id) {
          StandingMatchesAt(chain, count, log, asc, id, n);
        }
      }
    } else {
      var i, j, id :| 0 <= i < |log| && 0 <= j < |log| && Revokes(chain(log[i]), id) && Writes(chain(log[j]), id)
        && !(exists k :: j <= k < |log| && Revokes(chain(log[k]), id));
      assert StandsAt(chain, log, id, j);
      StandingIff(chain, log, id, log[j]);
      AscendingStanding(chain, count, asc, id, log[j]);
      SameRevokers(chain, log, asc, id);
    }
  }

  lemma StandingMatchesAt(chain: AtsChain, count: nat, log: seq<nat>, asc: seq<nat>, id: nat, n: nat)
    requires PalletHistory(chain, count).Some? && Within(asc, count) && RevokedLast(chain, log)
    requires StrictlyAscending(asc) && SetOf(asc) == SetOf(log)
    ensures n in Standing(chain, log, id) <==> n in Standing(chain, asc, id)
  {
    hide PalletHistory, Standing, Writes, Revokes, StrictlyAscending;
    StandingIff(chain, log, id, n);
    AscendingStanding(chain, count, asc, id, n);
    SameRevokers(chain, log, asc, id);
    assert n in SetOf(log) <==> n in SetOf(asc);
    if j :| 0 <= j < |log| && log[j] == n && StandsAt(chain, log, id, j) {
      assert n in log;
      assert forall i :: 0 <= i < |log| ==> !Revokes(chain(log[i]), id);
    }
    if n in Standing(chain, asc, id) {
      var j :| 0 <= j < |log| && log[j] == n;
      assert StandsAt(chain, log, id, j);
    }
  }

  /**
   * When order, gaps and repetitions do not matter: a successful log of blocks of a pallet history ends
   * in the tables of its ascending, repetition-free form iff no block that writes a revoked id stands
   * after the id's last revocation in the log. The ascending form always succeeds.
   */
  lemma AtsOrderIrrelevantIff(chain: AtsChain, count: nat, log: seq<nat>)
    requires PalletHistory(chain, count).Some? && Within(log, count) && ReplayAts(chain, log).Some?
    ensures ReplayAts(chain, InOrder(SetOf(log))).Some?
    ensures ReplayAts(chain, log) == ReplayAts(chain, InOrder(SetOf(log))) <==> RevokedLast(chain, log)
  {
    var asc := InOrder(SetOf(log));
    hide PalletHistory, RevokedLast, StrictlyAscending, ReplayAts;
    AscendingSucceeds(chain, count, log, asc, |asc|);
    assert asc[..|asc|] == asc;
    forall n | n in asc ensures n < count { assert n in SetOf(asc); }
    SameTablesIff(chain, count, log, asc);
    StandingMatchesIff(chain, count, log, asc);
  }

  /** Two logs of the same blocks, none of which revokes anything, agree. */
  lemma RevocationFreeConverges(chain: AtsChain, count: nat, a: seq<nat>, b: seq<nat>)
    requires PalletHistory(chain, count).Some? && Within(a, count) && SetOf(a) == SetOf(b)
    requires forall n, id :: n in a ==> !Revokes(chain(n), id)
    requires ReplayAts(chain, a).Some? && ReplayAts(chain, b).Some?
    ensures ReplayAts(chain, a) == ReplayAts(chain, b)
  {
    hide PalletHistory, Revokes, ReplayAts;
    forall n | n in b ensures n in a { assert n in SetOf(b); }
    assert RevokedLast(chain, a) && RevokedLast(chain, b);
    AtsOrderIrrelevantIff(chain, count, a);
    AtsOrderIrrelevantIff(chain, count, b);
  }

  /**
   * Committing a block again is a no-op iff every id it writes still stands by it, and every id it
   * revokes has been written by nobody since.
   */
  lemma RerunIsNoopIff(chain: AtsChain, count: nat, log: seq<nat>, n: nat)
    requires PalletHistory(chain, count).Some? && Within(log, count) && n in log
    requires ReplayAts(chain, log).Some? && ReplayAts(chain, log + [n]).Some?
    ensures ReplayAts(chain, log + [n]) == ReplayAts(chain, log) <==>
      forall id :: (if Revokes(chain(n), id) then Standing(chain, log, id) == {}
                    else Writes(chain(n), id) ==> n in Standing(chain, log, id))
  {
    hide PalletHistory, Revokes, Writes, ReplayAts;
    assert (log + [n])[..|log|] == log;
    forall id ensures Standing(chain, log + [n], id) ==
      if Revokes(chain(n), id) then {} else Standing(chain, log, id) + if Writes(chain(n), id) then {n} else {} {}
    hide Standing;
    SameTablesIff(chain, count, log + [n], log);
  }

  // ---- the smallest history where it matters ----

  lemma ReplayNext(chain: AtsChain, front: seq<nat>, t: AtsTables, n: nat, ext: nat, evt: AtsEvent)
    requires ReplayAts(chain, front) == Some(t) && chain(n) == [(ext, evt)]
    ensures ReplayAts(chain, front + [n]) == EventStep(t, ext, evt, n)
  {
    assert (front + [n])[..|front|] == front;
    EventStepIsCommit(t, ext, evt, n);
    hide ApplyAts, Project, EventStep;
  }

  /**
   * A creation and its revocation. Out of order the revocation finds nothing to delete, and the
   * creation, committed again after it, brings the row back.
   */
  lemma LateCreateDoesNotCommute(chain: AtsChain, a: nat, b: nat, created: AtsEvent, ext: nat, ext': nat)
    requires created.Created? && chain(a) == [(ext, created)] && chain(b) == [(ext', Revoked(created.id))]
    ensures ReplayAts(chain, [a, b]) == Some(EMPTY)
    ensures ReplayAts(chain, [b]) == Some(EMPTY)
    ensures ReplayAts(chain, [b, a]).Some? && created.id in ReplayAts(chain, [b, a]).value.registry
    ensures ReplayAts(chain, [a, b, a]) == ReplayAts(chain, [b, a]) == ReplayAts(chain, [a])
  {
    assert ReplayAts(chain, []) == Some(EMPTY);
    hide ReplayAts;
    var t := Written(EMPTY, ext, created, a);
    assert EventStep(EMPTY, ext, created, a) == Some(t) && created.id in t.registry;
    assert Revoke(t, created.id) == EMPTY && Revoke(EMPTY, created.id) == EMPTY;
    assert [] + [a] == [a] && [] + [b] == [b] && [a] + [b] == [a, b] && [b] + [a] == [b, a] && [a, b] + [a] == [a, b, a];
    ReplayNext(chain, [], EMPTY, a, ext, created);
    ReplayNext(chain, [], EMPTY, b, ext', Revoked(created.id));
    ReplayNext(chain, [a], t, b, ext', Revoked(created.id));
    ReplayNext(chain, [b], EMPTY, a, ext, created);
    ReplayNext(chain, [a, b], EMPTY, a, ext, created);
  }
}
