/**
 * The ATS registry: projection of `Ats.*` events (src/indexer/projections/ats.rs) and the writes
 * that apply them (`apply_ats` of src/indexer/sink.rs).
 */
module Ats {
  import opened Wrappers
  import opened Bytes
  import opened Ints
  import opened KeyedRows

  datatype AtsEvent =
    | Created(id: nat, owner: AccountId, commitment: Hash, protocol: nat)
    | Updated(id: nat, version: nat, commitment: Hash, protocol: nat)
    | Revoked(id: nat)

  datatype RegistryRow = RegistryRow(owner: AccountId, createdBlock: nat, createdExt: nat, count: int)
  datatype VersionRow = VersionRow(block: nat, ext: nat, commitment: Hash, protocol: nat)

  type Registry = map<nat, RegistryRow>
  /** Keyed by ATS id and the version as stored in its INT column. */
  type Versions = map<(nat, int), VersionRow>
  datatype AtsTables = AtsTables(registry: Registry, versions: Versions)

  datatype Bump = Bump(id: nat, count: int)
  datatype AtsOps = AtsOps(
    registryInserts: seq<(nat, RegistryRow)>, versionInserts: seq<((nat, int), VersionRow)>,
    bumps: seq<Bump>, revocations: seq<nat>)

  // ---- projection ----

  function PushEvent(ops: AtsOps, ext: nat, evt: AtsEvent, block: nat): AtsOps {
    match evt
    case Created(id, owner, commitment, protocol) =>
      ops.(registryInserts := ops.registryInserts + [(id, RegistryRow(owner, block, ext, 1))],
           versionInserts := ops.versionInserts + [((id, 0), VersionRow(block, ext, commitment, protocol))])
    case Updated(id, version, commitment, protocol) =>
      ops.(versionInserts := ops.versionInserts + [((id, AsI32(version)), VersionRow(block, ext, commitment, protocol))],
           bumps := ops.bumps + [Bump(id, AsI32(SatAdd(version, 1, U32_MAX)))])
    case Revoked(id) =>
      ops.(revocations := ops.revocations + [id])
  }

  function Project(decoded: seq<(nat, AtsEvent)>, block: nat): AtsOps
    decreases |decoded|
  {
    if decoded == [] then AtsOps([], [], [], [])
    else
      var n := |decoded| - 1;
      PushEvent(Project(decoded[..n], block), decoded[n].0, decoded[n].1, block)
  }

  method ProjectLoop(decoded: seq<(nat, AtsEvent)>, block: nat) returns (ops: AtsOps)
    ensures ops == Project(decoded, block)
  {
    ops := AtsOps([], [], [], []);
    for i := 0 to |decoded|
      invariant ops == Project(decoded[..i], block)
    {
      assert decoded[..i + 1][..i] == decoded[..i];
      ops := PushEvent(ops, decoded[i].0, decoded[i].1, block);
    }
    assert decoded[..|decoded|] == decoded;
  }

  // ---- applying one block ----

  /** `UPDATE … SET version_count = GREATEST(version_count, n)` for each bump. */
  function ApplyBumps(registry: Registry, bumps: seq<Bump>): Registry
    decreases |bumps|
  {
    if bumps == [] then registry
    else
      var n := |bumps| - 1;
      var before, b := ApplyBumps(registry, bumps[..n]), bumps[n];
      if b.id in before then before[b.id := before[b.id].(count := Max(before[b.id].count, b.count))]
      else before
  }

  /** Deleting a registry row cascades to its versions. */
  function Revoke(tables: AtsTables, id: nat): AtsTables {
    AtsTables(tables.registry - {id}, map k | k in tables.versions && k.0 != id :: tables.versions[k])
  }

  function RevokeAll(tables: AtsTables, ids: seq<nat>): AtsTables
    decreases |ids|
  {
    if ids == [] then tables
    else Revoke(RevokeAll(tables, ids[..|ids| - 1]), ids[|ids| - 1])
  }

  /** The foreign key: a version row that lands needs its registry row. */
  predicate ParentsExist(registry: Registry, versions: Versions, rows: seq<((nat, int), VersionRow)>) {
    forall i :: 0 <= i < |rows| ==> rows[i].0 in versions || rows[i].0.0 in registry
  }

  /** The tables before the deletions, when the foreign key holds. */
  function Inserted(tables: AtsTables, ops: AtsOps): AtsTables {
    AtsTables(
      ApplyBumps(InsertAbsent(tables.registry, ops.registryInserts), ops.bumps),
      InsertAbsent(tables.versions, ops.versionInserts))
  }

  /** None when the foreign key fails and the whole transaction rolls back. */
  function ApplyAts(tables: AtsTables, ops: AtsOps): Option<AtsTables> {
    if ParentsExist(InsertAbsent(tables.registry, ops.registryInserts), tables.versions, ops.versionInserts)
    then Some(RevokeAll(Inserted(tables, ops), ops.revocations))
    else None
  }

  // ---- pointwise descriptions ----

  lemma {:induction false} ApplyBumpsAt(registry: Registry, bumps: seq<Bump>, id: nat)
    ensures ApplyBumps(registry, bumps).Keys == registry.Keys
    ensures id in registry ==> (
      var c := ApplyBumps(registry, bumps)[id].count;
      && ApplyBumps(registry, bumps)[id] == registry[id].(count := c)
      && registry[id].count <= c
      && (forall b :: b in bumps && b.id == id ==> b.count <= c)
      && (c == registry[id].count || Bump(id, c) in bumps))
    decreases |bumps|
  {
    if bumps != [] {
      var n := |bumps| - 1;
      ApplyBumpsAt(registry, bumps[..n], id);
      assert bumps == bumps[..n] + [bumps[n]];
    }
  }

  lemma {:induction false} RevokeAllAt(tables: AtsTables, ids: seq<nat>)
    ensures forall id :: id in RevokeAll(tables, ids).registry <==> id in tables.registry && id !in ids
    ensures forall id :: id in RevokeAll(tables, ids).registry ==> RevokeAll(tables, ids).registry[id] == tables.registry[id]
    ensures forall k :: k in RevokeAll(tables, ids).versions <==> k in tables.versions && k.0 !in ids
    ensures forall k :: k in RevokeAll(tables, ids).versions ==> RevokeAll(tables, ids).versions[k] == tables.versions[k]
    decreases |ids|
  {
    if ids != [] {
      var n := |ids| - 1;
      RevokeAllAt(tables, ids[..n]);
      assert ids == ids[..n] + [ids[n]];
    }
  }

  // ---- consistency ----

  /** Every version has its registry row, and every count is one more than the highest version. */
  ghost predicate Consistent(t: AtsTables) {
    && (forall k :: k in t.versions ==> k.0 in t.registry && 0 <= k.1 < t.registry[k.0].count)
    && (forall id :: id in t.registry ==> (id, t.registry[id].count - 1) in t.versions)
  }

  /** No update whose successor overflows the INT column. */
  ghost predicate VersionsFit(decoded: seq<(nat, AtsEvent)>) {
    forall i :: 0 <= i < |decoded| && decoded[i].1.Updated? ==> decoded[i].1.version < TWO_31 - 1
  }

  /** Every created row and every bump comes with its version row, and conversely. */
  ghost predicate Matched(ops: AtsOps) {
    var keys := KeysOf(ops.versionInserts);
    && (forall r :: r in ops.registryInserts ==> r.1.count == 1 && (r.0, 0) in keys)
    && (forall b :: b in ops.bumps ==> (b.id, b.count - 1) in keys)
    && (forall k :: k in keys ==> 0 <= k.1 && (k.1 == 0 || Bump(k.0, k.1 + 1) in ops.bumps))
  }

  lemma PushMatchedCreated(prev: AtsOps, ext: nat, evt: AtsEvent, block: nat)
    requires Matched(prev) && evt.Created?
    ensures Matched(PushEvent(prev, ext, evt, block))
  {
    KeysOfSnoc(prev.versionInserts, ((evt.id, 0), VersionRow(block, ext, evt.commitment, evt.protocol)));
  }

  lemma PushMatchedUpdated(prev: AtsOps, ext: nat, evt: AtsEvent, block: nat)
    requires Matched(prev) && evt.Updated? && evt.version < TWO_31 - 1
    ensures Matched(PushEvent(prev, ext, evt, block))
  {
    var ops := PushEvent(prev, ext, evt, block);
    var bump := Bump(evt.id, evt.version + 1);
    var keys, keys' := KeysOf(prev.versionInserts), KeysOf(ops.versionInserts);
    assert keys' == keys + {(evt.id, evt.version as int)} by {
      KeysOfSnoc(prev.versionInserts, ((evt.id, evt.version as int), VersionRow(block, ext, evt.commitment, evt.protocol)));
    }
    assert ops.bumps == prev.bumps + [bump];
    hide KeysOf, PushEvent;
    forall b | b in ops.bumps ensures (b.id, b.count - 1) in keys' {
      if b != bump { assert b in prev.bumps; }
    }
    forall k | k in keys' ensures 0 <= k.1 && (k.1 == 0 || Bump(k.0, k.1 + 1) in ops.bumps) {
      if k !in keys { assert Bump(k.0, k.1 + 1) == bump; }
    }
  }

  lemma PushMatched(prev: AtsOps, ext: nat, evt: AtsEvent, block: nat)
    requires Matched(prev)
    requires evt.Updated? ==> evt.version < TWO_31 - 1
    ensures Matched(PushEvent(prev, ext, evt, block))
  {
    if evt.Created? { PushMatchedCreated(prev, ext, evt, block); }
    if evt.Updated? { PushMatchedUpdated(prev, ext, evt, block); }
  }

  lemma {:induction false} ProjectMatched(decoded: seq<(nat, AtsEvent)>, block: nat)
    requires VersionsFit(decoded)
    ensures Matched(Project(decoded, block))
    decreases |decoded|
  {
    if decoded != [] {
      var n := |decoded| - 1;
      ProjectMatched(decoded[..n], block);
      PushMatched(Project(decoded[..n], block), decoded[n].0, decoded[n].1, block);
    }
  }

  lemma InsertedKeys(t: AtsTables, ops: AtsOps)
    ensures Inserted(t, ops).registry.Keys == t.registry.Keys + KeysOf(ops.registryInserts)
    ensures Inserted(t, ops).versions.Keys == t.versions.Keys + KeysOf(ops.versionInserts)
  {
    InsertAbsentKeys(t.registry, ops.registryInserts);
    InsertAbsentKeys(t.versions, ops.versionInserts);
    ApplyBumpsAt(InsertAbsent(t.registry, ops.registryInserts), ops.bumps, 0);
  }

  /** What becomes of one registry row: its count is at least what it was, or 1 if it is new. */
  lemma InsertedAt(t: AtsTables, ops: AtsOps, id: nat)
    requires Matched(ops) && id in Inserted(t, ops).registry
    ensures var row := Inserted(t, ops).registry[id];
      && (id in t.registry ==> row == t.registry[id].(count := row.count) && t.registry[id].count <= row.count)
      && (id !in t.registry ==> 1 <= row.count && (id, 0) in KeysOf(ops.versionInserts))
      && (forall b :: b in ops.bumps && b.id == id ==> b.count <= row.count)
      && (|| (id in t.registry && row.count == t.registry[id].count)
          || (id !in t.registry && row.count == 1)
          || Bump(id, row.count) in ops.bumps)
  {
    var registry1 := InsertAbsent(t.registry, ops.registryInserts);
    InsertAbsentKeys(t.registry, ops.registryInserts);
    ApplyBumpsAt(registry1, ops.bumps, id);
    if id !in t.registry { assert (id, registry1[id]) in ops.registryInserts; }
  }

  lemma NewVersionBelowCount(t: AtsTables, ops: AtsOps, k: (nat, int))
    requires Consistent(t) && Matched(ops) && k.0 in Inserted(t, ops).registry
    requires k in KeysOf(ops.versionInserts)
    ensures 0 <= k.1 < Inserted(t, ops).registry[k.0].count
  {
    hide Matched, Inserted, KeysOf;
    InsertedAt(t, ops, k.0);
    MatchedVersion(ops, k);
    if k.0 in t.registry { assert (k.0, t.registry[k.0].count - 1) in t.versions; }
  }

  lemma InsertedVersionBelowCount(t: AtsTables, ops: AtsOps, k: (nat, int))
    requires Consistent(t) && Matched(ops)
    requires ParentsExist(InsertAbsent(t.registry, ops.registryInserts), t.versions, ops.versionInserts)
    requires k in Inserted(t, ops).versions
    ensures k.0 in Inserted(t, ops).registry && 0 <= k.1 < Inserted(t, ops).registry[k.0].count
  {
    hide Inserted, InsertAbsent, Matched;
    InsertedKeys(t, ops);
    InsertAbsentKeys(t.registry, ops.registryInserts);
    if k in t.versions {
      InsertedAt(t, ops, k.0);
    } else {
      var i :| 0 <= i < |ops.versionInserts| && ops.versionInserts[i].0 == k;
      NewVersionBelowCount(t, ops, k);
    }
  }

  lemma MatchedVersion(ops: AtsOps, k: (nat, int))
    requires Matched(ops) && k in KeysOf(ops.versionInserts)
    ensures 0 <= k.1 && (k.1 == 0 || Bump(k.0, k.1 + 1) in ops.bumps)
  {
  }

  lemma MatchedBump(ops: AtsOps, b: Bump)
    requires Matched(ops) && b in ops.bumps
    ensures (b.id, b.count - 1) in KeysOf(ops.versionInserts)
  {
  }

  lemma InsertedCountIsStored(t: AtsTables, ops: AtsOps, id: nat)
    requires Consistent(t) && Matched(ops) && id in Inserted(t, ops).registry
    ensures (id, Inserted(t, ops).registry[id].count - 1) in Inserted(t, ops).versions
  {
    hide Matched, Inserted, KeysOf;
    InsertedKeys(t, ops);
    InsertedAt(t, ops, id);
    var count := Inserted(t, ops).registry[id].count;
    if Bump(id, count) in ops.bumps {
      MatchedBump(ops, Bump(id, count));
    } else if id in t.registry {
      assert (id, count - 1) in t.versions;
    }
  }

  /** The inserts and bumps of a block keep the tables consistent, whatever was applied before. */
  lemma InsertedConsistent(t: AtsTables, ops: AtsOps)
    requires Consistent(t) && Matched(ops)
    requires ParentsExist(InsertAbsent(t.registry, ops.registryInserts), t.versions, ops.versionInserts)
    ensures Consistent(Inserted(t, ops))
  {
    hide Inserted, Matched, ParentsExist;
    var u := Inserted(t, ops);
    forall k | k in u.versions ensures k.0 in u.registry && 0 <= k.1 < u.registry[k.0].count {
      InsertedVersionBelowCount(t, ops, k);
    }
    forall id | id in u.registry ensures (id, u.registry[id].count - 1) in u.versions {
      InsertedCountIsStored(t, ops, id);
    }
  }

  lemma RevokeAllConsistent(t: AtsTables, ids: seq<nat>)
    requires Consistent(t)
    ensures Consistent(RevokeAll(t, ids))
  {
    RevokeAllAt(t, ids);
    hide RevokeAll;
    var t' := RevokeAll(t, ids);
    forall id | id in t'.registry ensures (id, t'.registry[id].count - 1) in t'.versions {
      assert (id, t.registry[id].count - 1) in t.versions;
    }
  }

  /**
   * A block that commits keeps the tables consistent whatever was committed before it, and a row
   * that is there before and after keeps its creation data and never loses a version.
   */
  lemma ApplyAtsConsistent(t: AtsTables, decoded: seq<(nat, AtsEvent)>, block: nat)
    requires Consistent(t) && VersionsFit(decoded)
    requires ApplyAts(t, Project(decoded, block)).Some?
    ensures var t' := ApplyAts(t, Project(decoded, block)).value;
      && Consistent(t')
      && forall id :: id in t.registry && id in t'.registry ==> (
           && t'.registry[id] == t.registry[id].(count := t'.registry[id].count)
           && t.registry[id].count <= t'.registry[id].count)
  {
    var ops := Project(decoded, block);
    ProjectMatched(decoded, block);
    InsertedConsistent(t, ops);
    RevokeAllConsistent(Inserted(t, ops), ops.revocations);
    RevokeAllAt(Inserted(t, ops), ops.revocations);
    InsertedKeys(t, ops);
    var t' := ApplyAts(t, ops).value;
    forall id | id in t.registry && id in t'.registry
      ensures t'.registry[id] == t.registry[id].(count := t'.registry[id].count)
        && t.registry[id].count <= t'.registry[id].count
    {
      InsertedAt(t, ops, id);
    }
  }

  /** The ids a block creates, and the version keys it writes. */
  ghost function CreatedIds(decoded: seq<(nat, AtsEvent)>): set<nat> {
    set i | 0 <= i < |decoded| && decoded[i].1.Created? :: decoded[i].1.id
  }

  function VersionKey(evt: AtsEvent): (nat, int) {
    if evt.Updated? then (evt.id, AsI32(evt.version)) else (evt.id, 0)
  }

  ghost function WrittenKeys(decoded: seq<(nat, AtsEvent)>): set<(nat, int)> {
    set i | 0 <= i < |decoded| && !decoded[i].1.Revoked? :: VersionKey(decoded[i].1)
  }

  lemma CreatedSnoc(front: seq<(nat, AtsEvent)>, e: (nat, AtsEvent))
    ensures CreatedIds(front + [e]) == CreatedIds(front) + if e.1.Created? then {e.1.id} else {}
  {
    var all := front + [e];
    assert all[|front|] == e;
    assert forall i :: 0 <= i < |front| ==> all[i] == front[i];
  }

  lemma WrittenSnoc(front: seq<(nat, AtsEvent)>, e: (nat, AtsEvent))
    ensures WrittenKeys(front + [e]) == WrittenKeys(front) + if e.1.Revoked? then {} else {VersionKey(e.1)}
  {
    var all := front + [e];
    assert all[|front|] == e;
    assert forall i :: 0 <= i < |front| ==> all[i] == front[i];
  }

  lemma {:induction false} ProjectKeys(decoded: seq<(nat, AtsEvent)>, block: nat)
    ensures KeysOf(Project(decoded, block).registryInserts) == CreatedIds(decoded)
    ensures KeysOf(Project(decoded, block).versionInserts) == WrittenKeys(decoded)
    decreases |decoded|
  {
    if decoded != [] {
      var n := |decoded| - 1;
      var front, evt := decoded[..n], decoded[n].1;
      var prev, ops := Project(front, block), Project(decoded, block);
      ProjectKeys(front, block);
      assert decoded == front + [decoded[n]];
      CreatedSnoc(front, decoded[n]);
      WrittenSnoc(front, decoded[n]);
      if evt.Created? {
        KeysOfSnoc(prev.registryInserts, ops.registryInserts[|prev.registryInserts|]);
      }
      if !evt.Revoked? {
        KeysOfSnoc(prev.versionInserts, ops.versionInserts[|prev.versionInserts|]);
      }
    }
  }

  /** A block commits its ATS writes iff every version it stores has a parent by then. */
  lemma ApplyAtsSucceedsIff(t: AtsTables, decoded: seq<(nat, AtsEvent)>, block: nat)
    requires Consistent(t)
    ensures ApplyAts(t, Project(decoded, block)).Some? <==>
      (forall i :: 0 <= i < |decoded| && decoded[i].1.Updated? && VersionKey(decoded[i].1) !in t.versions
         ==> decoded[i].1.id in t.registry.Keys + CreatedIds(decoded))
  {
    var ops := Project(decoded, block);
    InsertAbsentKeys(t.registry, ops.registryInserts);
    ProjectKeys(decoded, block);
    if ApplyAts(t, ops).Some? {
      forall i | 0 <= i < |decoded| && decoded[i].1.Updated? && VersionKey(decoded[i].1) !in t.versions
        ensures decoded[i].1.id in t.registry.Keys + CreatedIds(decoded)
      {
        assert VersionKey(decoded[i].1) in KeysOf(ops.versionInserts);
      }
    } else {
      var j :| 0 <= j < |ops.versionInserts| && ops.versionInserts[j].0 !in t.versions
        && ops.versionInserts[j].0.0 !in t.registry.Keys + CreatedIds(decoded);
      assert ops.versionInserts[j].0 in WrittenKeys(decoded);
    }
  }

  /**
   * The one way an update breaks the count: applied to a consistent registry of 32-bit counts, a new
   * version keeps the tables consistent iff its successor fits the INT column.
   */
  lemma UpdateConsistentIff(t: AtsTables, ext: nat, evt: AtsEvent, block: nat)
    requires Consistent(t) && evt.Updated? && evt.version <= U32_MAX
    requires evt.id in t.registry && VersionKey(evt) !in t.versions
    requires t.registry[evt.id].count < TWO_31
    ensures ApplyAts(t, Project([(ext, evt)], block)).Some?
    ensures Consistent(ApplyAts(t, Project([(ext, evt)], block)).value) <==> evt.version < TWO_31 - 1
  {
    var decoded := [(ext, evt)];
    ApplyAtsSucceedsIff(t, decoded, block);
    var t' := ApplyAts(t, Project(decoded, block)).value;
    if evt.version < TWO_31 - 1 {
      ApplyAtsConsistent(t, decoded, block);
    } else {
      assert decoded[..0] == [];
      var ops := Project(decoded, block);
      assert ops == PushEvent(AtsOps([], [], [], []), ext, evt, block);
      RevokeAllAt(Inserted(t, ops), []);
      InsertAbsentKeys(t.versions, ops.versionInserts);
      assert ops.versionInserts[0].0 == VersionKey(evt);
      assert VersionKey(evt) in t'.versions;
      ApplyBumpsAt(t.registry, ops.bumps, evt.id);
      assert t'.registry[evt.id].count < TWO_31;
    }
  }
}
