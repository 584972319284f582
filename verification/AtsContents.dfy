/**
 * What the ATS tables hold, in terms of the chain's events alone: every row comes from an event of a
 * committed block and carries its fields, whatever the order of the commits.
 */
module AtsContents {
  import opened KeyedRows
  import opened Ats
  import opened AtsHistory

  /** The version under which the INT column stores a u32. */
  function StoredVersion(version: nat): int {
    if version < 0x8000_0000 then version else version - 0x1_0000_0000
  }

  /** The row of an id is that of an event of block `n` that creates it. */
  ghost predicate CreatedIn(decoded: seq<(nat, AtsEvent)>, n: nat, id: nat, row: RegistryRow) {
    exists i :: 0 <= i < |decoded| && decoded[i].1.Created? && decoded[i].1.id == id
      && row.owner == decoded[i].1.owner && row.createdBlock == n && row.createdExt == decoded[i].0
  }

  /** The version row is that of an event of block `n` that creates the id, or updates it to that version. */
  ghost predicate WrittenIn(decoded: seq<(nat, AtsEvent)>, n: nat, k: (nat, int), row: VersionRow) {
    exists i :: 0 <= i < |decoded| && !decoded[i].1.Revoked? && decoded[i].1.id == k.0
      && k.1 == (if decoded[i].1.Created? then 0 else StoredVersion(decoded[i].1.version))
      && row == VersionRow(n, decoded[i].0, decoded[i].1.commitment, decoded[i].1.protocol)
  }

  ghost predicate CreatedInLog(chain: AtsChain, log: seq<nat>, id: nat, row: RegistryRow) {
    exists n :: n in log && CreatedIn(chain(n), n, id, row)
  }

  ghost predicate WrittenInLog(chain: AtsChain, log: seq<nat>, k: (nat, int), row: VersionRow) {
    exists n :: n in log && WrittenIn(chain(n), n, k, row)
  }

  lemma CreatedInSnoc(front: seq<(nat, AtsEvent)>, e: (nat, AtsEvent), n: nat, id: nat, row: RegistryRow)
    ensures CreatedIn(front, n, id, row) ==> CreatedIn(front + [e], n, id, row)
    ensures e.1.Created? && e.1.id == id && row.owner == e.1.owner && row.createdBlock == n && row.createdExt == e.0
      ==> CreatedIn(front + [e], n, id, row)
  {
    var all := front + [e];
    assert all[|front|] == e && forall i :: 0 <= i < |front| ==> all[i] == front[i];
  }

  lemma WrittenInSnoc(front: seq<(nat, AtsEvent)>, e: (nat, AtsEvent), n: nat, k: (nat, int), row: VersionRow)
    ensures WrittenIn(front, n, k, row) ==> WrittenIn(front + [e], n, k, row)
    ensures (
      && !e.1.Revoked? && e.1.id == k.0 && k.1 == (if e.1.Created? then 0 else StoredVersion(e.1.version))
      && row == VersionRow(n, e.0, e.1.commitment, e.1.protocol)) ==> WrittenIn(front + [e], n, k, row)
  {
    var all := front + [e];
    assert all[|front|] == e && forall i :: 0 <= i < |front| ==> all[i] == front[i];
  }

  lemma {:induction false} ProjectOrigin(decoded: seq<(nat, AtsEvent)>, n: nat)
    ensures forall r :: r in Project(decoded, n).registryInserts ==> CreatedIn(decoded, n, r.0, r.1)
    ensures forall r :: r in Project(decoded, n).versionInserts ==> WrittenIn(decoded, n, r.0, r.1)
    decreases |decoded|
  {
    if decoded != [] {
      var front, e := decoded[..|decoded| - 1], decoded[|decoded| - 1];
      assert decoded == front + [e];
      ProjectOrigin(front, n);
      hide CreatedIn, WrittenIn;
      forall r | r in Project(decoded, n).registryInserts ensures CreatedIn(decoded, n, r.0, r.1) {
        CreatedInSnoc(front, e, n, r.0, r.1);
      }
      forall r | r in Project(decoded, n).versionInserts ensures WrittenIn(decoded, n, r.0, r.1) {
        WrittenInSnoc(front, e, n, r.0, r.1);
      }
    }
  }

  /** One commit leaves rows that were there and rows of its own events. */
  lemma CommitOrigin(t: AtsTables, decoded: seq<(nat, AtsEvent)>, n: nat)
    requires ApplyAts(t, Project(decoded, n)).Some?
    ensures var t' := ApplyAts(t, Project(decoded, n)).value;
      && (forall id :: id in t'.registry ==>
            || (id in t.registry && t'.registry[id] == t.registry[id].(count := t'.registry[id].count))
            || CreatedIn(decoded, n, id, t'.registry[id]))
      && (forall k :: k in t'.versions ==>
            (k in t.versions && t'.versions[k] == t.versions[k]) || WrittenIn(decoded, n, k, t'.versions[k]))
  {
    var ops := Project(decoded, n);
    var registry := InsertAbsent(t.registry, ops.registryInserts);
    ProjectOrigin(decoded, n);
    InsertAbsentKeys(t.registry, ops.registryInserts);
    InsertAbsentKeys(t.versions, ops.versionInserts);
    RevokeAllAt(Inserted(t, ops), ops.revocations);
    hide Project, InsertAbsent, RevokeAll, ApplyBumps, KeysOf, WrittenIn;
    var t' := ApplyAts(t, ops).value;
    forall id | id in t'.registry
      ensures (id in t.registry && t'.registry[id] == t.registry[id].(count := t'.registry[id].count))
        || CreatedIn(decoded, n, id, t'.registry[id])
    {
      ApplyBumpsAt(registry, ops.bumps, id);
      if id !in t.registry {
        assert (id, registry[id]) in ops.registryInserts;
        assert t'.registry[id] == registry[id].(count := t'.registry[id].count);
      }
    }
  }

  /**
   * After any successful commits, a registry row names the owner, block and extrinsic of a committed event
   * that creates the id, and a version row the block, extrinsic, commitment and protocol of a committed event
   * that writes that version.
   */
  lemma {:induction false} AtsRowsAreEvents(chain: AtsChain, log: seq<nat>)
    requires ReplayAts(chain, log).Some?
    ensures forall id :: id in ReplayAts(chain, log).value.registry ==>
      CreatedInLog(chain, log, id, ReplayAts(chain, log).value.registry[id])
    ensures forall k :: k in ReplayAts(chain, log).value.versions ==>
      WrittenInLog(chain, log, k, ReplayAts(chain, log).value.versions[k])
    decreases |log|
  {
    if log != [] {
      var front, n := log[..|log| - 1], log[|log| - 1];
      assert log == front + [n];
      AtsRowsAreEvents(chain, front);
      var t, t' := ReplayAts(chain, front).value, ReplayAts(chain, log).value;
      CommitOrigin(t, chain(n), n);
      hide ReplayAts, ApplyAts, Project, WrittenIn;
      forall id | id in t'.registry ensures CreatedInLog(chain, log, id, t'.registry[id]) {
        if CreatedIn(chain(n), n, id, t'.registry[id]) {
          assert n in log;
        } else {
          var m :| m in front && CreatedIn(chain(m), m, id, t.registry[id]);
          assert m in log && CreatedIn(chain(m), m, id, t'.registry[id]);
        }
      }
      forall k | k in t'.versions ensures WrittenInLog(chain, log, k, t'.versions[k]) {
        if WrittenIn(chain(n), n, k, t'.versions[k]) {
          assert n in log;
        } else {
          var m :| m in front && WrittenIn(chain(m), m, k, t.versions[k]);
          assert m in log;
        }
      }
    }
  }
}
