/**
 * Committing ATS blocks one after the other, against what their events say one by one.
 */
module AtsHistory {
  import opened Wrappers
  import opened Ints
  import opened KeyedRows
  import opened Ats

  /** The decoded ATS events of every block. */
  type AtsChain = nat -> seq<(nat, AtsEvent)>

  const EMPTY: AtsTables := AtsTables(map[], map[])

  /** The tables after committing the blocks of `log` in that order; None if one of them failed. */
  function ReplayAts(chain: AtsChain, log: seq<nat>): Option<AtsTables>
    decreases |log|
  {
    if log == [] then Some(EMPTY)
    else
      var n := log[|log| - 1];
      match ReplayAts(chain, log[..|log| - 1])
      case None => None
      case Some(t) => ApplyAts(t, Project(chain(n), n))
  }

  ghost predicate AllVersionsFit(chain: AtsChain) {
    forall n :: VersionsFit(chain(n))
  }

  /** Consistency needs no assumption on the order or completeness of the commits. */
  lemma {:induction false} ReplayConsistent(chain: AtsChain, log: seq<nat>)
    requires ReplayAts(chain, log).Some? && forall n :: n in log ==> VersionsFit(chain(n))
    ensures Consistent(ReplayAts(chain, log).value)
    decreases |log|
  {
    if log != [] {
      var n, front := log[|log| - 1], log[..|log| - 1];
      assert log == front + [n];
      ReplayConsistent(chain, front);
      ApplyAtsConsistent(ReplayAts(chain, front).value, chain(n), n);
    }
  }

  // ---- one event at a time ----

  function AddRow<K, R>(table: map<K, R>, k: K, r: R): map<K, R> {
    if k in table then table else table[k := r]
  }

  function Raise(registry: Registry, b: Bump): Registry {
    if b.id in registry then registry[b.id := registry[b.id].(count := Max(registry[b.id].count, b.count))]
    else registry
  }

  /** A creation or an update as it changes two tables; it looks at rows of its own id only. */
  function Written(t: AtsTables, ext: nat, evt: AtsEvent, block: nat): AtsTables
    requires !evt.Revoked?
  {
    match evt
    case Created(id, owner, commitment, protocol) =>
      AtsTables(AddRow(t.registry, id, RegistryRow(owner, block, ext, 1)),
                AddRow(t.versions, (id, 0), VersionRow(block, ext, commitment, protocol)))
    case Updated(id, version, commitment, protocol) =>
      AtsTables(Raise(t.registry, Bump(id, AsI32(SatAdd(version, 1, U32_MAX)))),
                AddRow(t.versions, (id, AsI32(version)), VersionRow(block, ext, commitment, protocol)))
  }

  /** One event; None if its version has no registry row. */
  function EventStep(t: AtsTables, ext: nat, evt: AtsEvent, block: nat): Option<AtsTables> {
    if evt.Revoked? then Some(Revoke(t, evt.id))
    else if evt.Updated? && VersionKey(evt) !in t.versions && evt.id !in t.registry then None
    else Some(Written(t, ext, evt, block))
  }

  /** The events of a block, one by one. */
  function EventsFold(t: AtsTables, decoded: seq<(nat, AtsEvent)>, block: nat): Option<AtsTables>
    decreases |decoded|
  {
    if decoded == [] then Some(t)
    else
      var n := |decoded| - 1;
      match EventsFold(t, decoded[..n], block)
      case None => None
      case Some(mid) => EventStep(mid, decoded[n].0, decoded[n].1, block)
  }

  lemma ProjectOne(ext: nat, evt: AtsEvent, block: nat)
    ensures Project([(ext, evt)], block) == PushEvent(AtsOps([], [], [], []), ext, evt, block)
  {
    var decoded: seq<(nat, AtsEvent)> := [(ext, evt)];
    assert decoded[..0] == [];
    assert Project(decoded[..0], block) == AtsOps([], [], [], []);
  }

  lemma InsertOne<K, R>(table: map<K, R>, rows: seq<(K, R)>, row: (K, R))
    ensures InsertAbsent(table, rows + [row]) == AddRow(InsertAbsent(table, rows), row.0, row.1)
  {
    InsertAbsentConcat(table, rows, [row]);
    assert [row][1..] == [];
  }

  lemma CreateIsCommit(t: AtsTables, ext: nat, evt: AtsEvent, block: nat)
    requires evt.Created?
    ensures Some(Written(t, ext, evt, block)) == ApplyAts(t, PushEvent(AtsOps([], [], [], []), ext, evt, block))
  {
    var ops := PushEvent(AtsOps([], [], [], []), ext, evt, block);
    var row, ver := (evt.id, RegistryRow(evt.owner, block, ext, 1)), ((evt.id, 0), VersionRow(block, ext, evt.commitment, evt.protocol));
    InsertOne(t.registry, [], row);
    InsertOne(t.versions, [], ver);
    assert ops.registryInserts == [] + [row] && ops.versionInserts == [] + [ver];
    assert InsertAbsent(t.registry, []) == t.registry && InsertAbsent(t.versions, []) == t.versions;
    hide InsertAbsent;
  }

  lemma UpdateIsCommit(t: AtsTables, ext: nat, evt: AtsEvent, block: nat)
    requires evt.Updated?
    ensures EventStep(t, ext, evt, block) == ApplyAts(t, PushEvent(AtsOps([], [], [], []), ext, evt, block))
  {
    var ops := PushEvent(AtsOps([], [], [], []), ext, evt, block);
    var ver := ((evt.id, AsI32(evt.version)), VersionRow(block, ext, evt.commitment, evt.protocol));
    InsertOne(t.versions, [], ver);
    assert ops.versionInserts == [] + [ver] && ops.bumps[..0] == [];
    assert InsertAbsent(t.registry, []) == t.registry && InsertAbsent(t.versions, []) == t.versions;
    hide InsertAbsent;
    assert ops.versionInserts[0] == ver;
    assert ApplyBumps(t.registry, ops.bumps) == Raise(t.registry, ops.bumps[0]);
    assert RevokeAll(Inserted(t, ops), ops.revocations) == Inserted(t, ops);
  }

  /** A block of one event is that event. */
  lemma EventStepIsCommit(t: AtsTables, ext: nat, evt: AtsEvent, block: nat)
    ensures EventStep(t, ext, evt, block) == ApplyAts(t, Project([(ext, evt)], block))
  {
    ProjectOne(ext, evt, block);
    if evt.Created? {
      CreateIsCommit(t, ext, evt, block);
      hide ApplyAts, Written, Project;
    } else if evt.Updated? {
      UpdateIsCommit(t, ext, evt, block);
      hide ApplyAts, Written, Project;
    } else {
      var ops := Project([(ext, evt)], block);
      assert ops.revocations[..0] == [] && Inserted(t, ops) == t;
      hide Project;
      assert RevokeAll(t, ops.revocations) == Revoke(t, evt.id);
    }
  }

  // ---- the batch of a block, event by event ----

  ghost predicate Writes(decoded: seq<(nat, AtsEvent)>, id: nat) {
    exists i :: 0 <= i < |decoded| && !decoded[i].1.Revoked? && decoded[i].1.id == id
  }

  ghost predicate Revokes(decoded: seq<(nat, AtsEvent)>, id: nat) {
    exists i :: 0 <= i < |decoded| && decoded[i].1 == Revoked(id)
  }

  /** Event `j` writes the id after it was revoked in this block, and it is not revoked again. */
  ghost predicate RevivedAt(decoded: seq<(nat, AtsEvent)>, id: nat, j: int)
    requires 0 <= j < |decoded|
  {
    && !decoded[j].1.Revoked? && decoded[j].1.id == id
    && (exists i :: 0 <= i < j && decoded[i].1 == Revoked(id))
    && (forall k :: j < k < |decoded| ==> decoded[k].1 != Revoked(id))
  }

  ghost predicate Revived(decoded: seq<(nat, AtsEvent)>, id: nat) {
    exists j :: 0 <= j < |decoded| && RevivedAt(decoded, id, j)
  }

  lemma RevokesSnoc(front: seq<(nat, AtsEvent)>, e: (nat, AtsEvent), id: nat)
    ensures Revokes(front + [e], id) <==> Revokes(front, id) || e.1 == Revoked(id)
  {
    var all := front + [e];
    assert all[|front|] == e;
    assert forall i :: 0 <= i < |front| ==> all[i] == front[i];
  }

  lemma RevivedSnoc(front: seq<(nat, AtsEvent)>, e: (nat, AtsEvent), id: nat)
    ensures Revived(front + [e], id) <==>
      e.1 != Revoked(id) && (Revived(front, id) || (Revokes(front, id) && !e.1.Revoked? && e.1.id == id))
  {
    var all := front + [e];
    assert all[|front|] == e;
    assert forall i :: 0 <= i < |front| ==> all[i] == front[i];
    if Revived(all, id) {
      var j :| 0 <= j < |all| && RevivedAt(all, id, j);
      if j < |front| { assert RevivedAt(front, id, j); }
    }
    if e.1 != Revoked(id) && Revived(front, id) {
      var j :| 0 <= j < |front| && RevivedAt(front, id, j);
      assert RevivedAt(all, id, j);
    }
    if Revokes(front, id) && !e.1.Revoked? && e.1.id == id {
      assert RevivedAt(all, id, |front|);
    }
  }

  ghost predicate HasParents(t: AtsTables) {
    forall k :: k in t.versions ==> k.0 in t.registry
  }

  /** The two tables hold the same rows of one id. */
  ghost predicate SameAt(s: AtsTables, t: AtsTables, id: nat) {
    && (id in s.registry <==> id in t.registry)
    && (id in s.registry ==> s.registry[id] == t.registry[id])
    && (forall v: int :: (id, v) in s.versions <==> (id, v) in t.versions)
    && (forall v: int :: (id, v) in s.versions && (id, v) in t.versions ==> s.versions[(id, v)] == t.versions[(id, v)])
  }

  lemma SameVersion(s: AtsTables, t: AtsTables, id: nat, v: int)
    requires SameAt(s, t, id)
    ensures (id, v) in s.versions <==> (id, v) in t.versions
    ensures (id, v) in s.versions ==> s.versions[(id, v)] == t.versions[(id, v)]
  {
  }

  lemma SameEverywhere(s: AtsTables, t: AtsTables)
    requires forall id :: SameAt(s, t, id)
    ensures s == t
  {
    forall k ensures k in s.versions <==> k in t.versions { SameVersion(s, t, k.0, k.1); }
    forall k | k in s.versions ensures s.versions[k] == t.versions[k] { SameVersion(s, t, k.0, k.1); }
    forall id ensures id in s.registry <==> id in t.registry { assert SameAt(s, t, id); }
    forall id | id in s.registry ensures s.registry[id] == t.registry[id] { assert SameAt(s, t, id); }
  }

  /** How one id fares in the batch before its deletions (`u`) and in the fold (`f`). */
  ghost predicate Tracked(u: AtsTables, f: AtsTables, id: nat, revoked: bool, revived: bool) {
    && (!revoked ==> SameAt(u, f, id))
    && (revoked ==> (id in f.registry <==> revived))
  }

  ghost predicate KeysTrack(u: AtsTables, ops: AtsOps, f: AtsTables) {
    && HasParents(f) && f.registry.Keys <= u.registry.Keys
    && (forall b :: b in ops.bumps ==> b.id in u.registry)
  }

  ghost predicate RevocationsAre(revocations: seq<nat>, decoded: seq<(nat, AtsEvent)>) {
    forall id :: id in revocations <==> Revokes(decoded, id)
  }

  ghost predicate AllTracked(u: AtsTables, f: AtsTables, decoded: seq<(nat, AtsEvent)>) {
    forall id :: Tracked(u, f, id, Revokes(decoded, id), Revived(decoded, id))
  }

  ghost predicate BatchTracks(u: AtsTables, ops: AtsOps, f: AtsTables, decoded: seq<(nat, AtsEvent)>) {
    KeysTrack(u, ops, f) && RevocationsAre(ops.revocations, decoded) && AllTracked(u, f, decoded)
  }

  lemma {:induction false} BumpsSkip(registry: Registry, bumps: seq<Bump>, id: nat, row: RegistryRow)
    requires forall b :: b in bumps ==> b.id != id
    ensures ApplyBumps(registry[id := row], bumps) == ApplyBumps(registry, bumps)[id := row]
    decreases |bumps|
  {
    if bumps != [] {
      var n := |bumps| - 1;
      assert bumps == bumps[..n] + [bumps[n]];
      BumpsSkip(registry, bumps[..n], id, row);
    }
  }

  lemma InsertedCreate(t: AtsTables, ops: AtsOps, ext: nat, evt: AtsEvent, block: nat)
    requires evt.Created?
    requires forall b :: b in ops.bumps ==> b.id in Inserted(t, ops).registry
    ensures Inserted(t, PushEvent(ops, ext, evt, block)) == Written(Inserted(t, ops), ext, evt, block)
  {
    var row := RegistryRow(evt.owner, block, ext, 1);
    var registry1 := InsertAbsent(t.registry, ops.registryInserts);
    ApplyBumpsAt(registry1, ops.bumps, evt.id);
    InsertOne(t.registry, ops.registryInserts, (evt.id, row));
    InsertOne(t.versions, ops.versionInserts, ((evt.id, 0), VersionRow(block, ext, evt.commitment, evt.protocol)));
    hide InsertAbsent;
    if evt.id !in registry1 { BumpsSkip(registry1, ops.bumps, evt.id, row); }
  }

  lemma InsertedUpdate(t: AtsTables, ops: AtsOps, ext: nat, evt: AtsEvent, block: nat)
    requires evt.Updated?
    ensures Inserted(t, PushEvent(ops, ext, evt, block)) == Written(Inserted(t, ops), ext, evt, block)
  {
    InsertOne(t.versions, ops.versionInserts,
      ((evt.id, AsI32(evt.version)), VersionRow(block, ext, evt.commitment, evt.protocol)));
    assert PushEvent(ops, ext, evt, block).bumps[..|ops.bumps|] == ops.bumps;
  }

  /** Writing the same event to both keeps every other id, and its own id where the two agreed. */
  lemma WrittenTracks(u: AtsTables, f: AtsTables, ext: nat, evt: AtsEvent, block: nat, id: nat)
    requires !evt.Revoked? && HasParents(f)
    requires EventStep(f, ext, evt, block).Some?
    ensures var u', f' := Written(u, ext, evt, block), Written(f, ext, evt, block);
      && HasParents(f')
      && evt.id in f'.registry
      && (id != evt.id ==> SameAt(u, u', id) && SameAt(f, f', id))
      && (SameAt(u, f, id) ==> SameAt(u', f', id))
  {
    if evt.Created? {
      assert Written(f, ext, evt, block).registry.Keys == f.registry.Keys + {evt.id};
    } else {
      assert Written(f, ext, evt, block).registry.Keys == f.registry.Keys;
    }
  }

  lemma ParentsExistPush(t: AtsTables, ops: AtsOps, ext: nat, evt: AtsEvent, block: nat)
    requires ParentsExist(InsertAbsent(t.registry, ops.registryInserts), t.versions, ops.versionInserts)
    requires evt.Updated? ==> evt.id in InsertAbsent(t.registry, ops.registryInserts)
    ensures var ops' := PushEvent(ops, ext, evt, block);
      ParentsExist(InsertAbsent(t.registry, ops'.registryInserts), t.versions, ops'.versionInserts)
  {
    if evt.Created? {
      InsertOne(t.registry, ops.registryInserts, (evt.id, RegistryRow(evt.owner, block, ext, 1)));
    }
    hide InsertAbsent;
  }

  ghost predicate BatchAccepted(t: AtsTables, ops: AtsOps) {
    ParentsExist(InsertAbsent(t.registry, ops.registryInserts), t.versions, ops.versionInserts)
  }

  lemma InsertedWrite(t: AtsTables, ops: AtsOps, ext: nat, evt: AtsEvent, block: nat)
    requires !evt.Revoked?
    requires forall b :: b in ops.bumps ==> b.id in Inserted(t, ops).registry
    ensures Inserted(t, PushEvent(ops, ext, evt, block)) == Written(Inserted(t, ops), ext, evt, block)
  {
    if evt.Created? { InsertedCreate(t, ops, ext, evt, block); } else { InsertedUpdate(t, ops, ext, evt, block); }
  }

  lemma WrittenKeepsIds(t: AtsTables, ext: nat, evt: AtsEvent, block: nat)
    requires !evt.Revoked?
    ensures Written(t, ext, evt, block).registry.Keys == t.registry.Keys + if evt.Created? then {evt.id} else {}
  {
  }

  lemma WriteAccepted(t: AtsTables, ops: AtsOps, ext: nat, evt: AtsEvent, block: nat)
    requires BatchAccepted(t, ops) && !evt.Revoked? && (evt.Updated? ==> evt.id in Inserted(t, ops).registry)
    ensures BatchAccepted(t, PushEvent(ops, ext, evt, block))
  {
    ApplyBumpsAt(InsertAbsent(t.registry, ops.registryInserts), ops.bumps, 0);
    ParentsExistPush(t, ops, ext, evt, block);
  }

  lemma KeysTrackWrite(u: AtsTables, ops: AtsOps, f: AtsTables, ext: nat, evt: AtsEvent, block: nat)
    requires KeysTrack(u, ops, f) && !evt.Revoked? && EventStep(f, ext, evt, block).Some?
    ensures KeysTrack(Written(u, ext, evt, block), PushEvent(ops, ext, evt, block), Written(f, ext, evt, block))
    ensures evt.Updated? ==> evt.id in u.registry
  {
    var ops' := PushEvent(ops, ext, evt, block);
    assert evt.Updated? ==> evt.id in f.registry;
    WrittenTracks(u, f, ext, evt, block, 0);
    WrittenKeepsIds(u, ext, evt, block);
    WrittenKeepsIds(f, ext, evt, block);
    assert forall b :: b in ops'.bumps ==> b in ops.bumps || (evt.Updated? && b.id == evt.id);
    hide Written, EventStep, PushEvent, HasParents;
  }

  lemma RevocationsPush(revocations: seq<nat>, front: seq<(nat, AtsEvent)>, e: (nat, AtsEvent))
    requires RevocationsAre(revocations, front)
    ensures RevocationsAre(if e.1.Revoked? then revocations + [e.1.id] else revocations, front + [e])
  {
    var all := front + [e];
    hide Revokes;
    forall id ensures id in (if e.1.Revoked? then revocations + [e.1.id] else revocations) <==> Revokes(all, id) {
      RevokesSnoc(front, e, id);
    }
  }

  lemma WriteTracksOne(u: AtsTables, f: AtsTables, ext: nat, evt: AtsEvent, block: nat, front: seq<(nat, AtsEvent)>, id: nat)
    requires HasParents(f) && !evt.Revoked? && EventStep(f, ext, evt, block).Some?
    requires Tracked(u, f, id, Revokes(front, id), Revived(front, id))
    ensures var all := front + [(ext, evt)];
      Tracked(Written(u, ext, evt, block), Written(f, ext, evt, block), id, Revokes(all, id), Revived(all, id))
  {
    hide Written, EventStep, Revokes, Revived;
    WrittenTracks(u, f, ext, evt, block, id);
    RevokesSnoc(front, (ext, evt), id);
    RevivedSnoc(front, (ext, evt), id);
  }

  lemma WriteTracksAll(u: AtsTables, f: AtsTables, ext: nat, evt: AtsEvent, block: nat, front: seq<(nat, AtsEvent)>)
    requires HasParents(f) && !evt.Revoked? && EventStep(f, ext, evt, block).Some? && AllTracked(u, f, front)
    ensures AllTracked(Written(u, ext, evt, block), Written(f, ext, evt, block), front + [(ext, evt)])
  {
    hide Written, EventStep, Revokes, Revived, Tracked, HasParents;
    var all := front + [(ext, evt)];
    forall id ensures Tracked(Written(u, ext, evt, block), Written(f, ext, evt, block), id, Revokes(all, id), Revived(all, id)) {
      WriteTracksOne(u, f, ext, evt, block, front, id);
    }
  }

  lemma TracksWrite(t: AtsTables, ops: AtsOps, f: AtsTables, front: seq<(nat, AtsEvent)>, ext: nat, evt: AtsEvent, block: nat)
    requires BatchAccepted(t, ops) && BatchTracks(Inserted(t, ops), ops, f, front)
    requires !evt.Revoked? && EventStep(f, ext, evt, block).Some?
    ensures var ops' := PushEvent(ops, ext, evt, block);
      && BatchAccepted(t, ops')
      && BatchTracks(Inserted(t, ops'), ops', EventStep(f, ext, evt, block).value, front + [(ext, evt)])
  {
    var u, ops' := Inserted(t, ops), PushEvent(ops, ext, evt, block);
    assert EventStep(f, ext, evt, block) == Some(Written(f, ext, evt, block));
    assert ops'.revocations == ops.revocations;
    hide Inserted, Written, EventStep, PushEvent, BatchAccepted, AllTracked, RevocationsAre, HasParents;
    KeysTrackWrite(u, ops, f, ext, evt, block);
    InsertedWrite(t, ops, ext, evt, block);
    WriteAccepted(t, ops, ext, evt, block);
    RevocationsPush(ops.revocations, front, (ext, evt));
    WriteTracksAll(u, f, ext, evt, block, front);
  }

  lemma RevokeTracksAll(u: AtsTables, f: AtsTables, ext: nat, id0: nat, front: seq<(nat, AtsEvent)>)
    requires AllTracked(u, f, front)
    ensures AllTracked(u, Revoke(f, id0), front + [(ext, Revoked(id0))])
  {
    var all, f' := front + [(ext, Revoked(id0))], Revoke(f, id0);
    hide Revived, Revokes;
    forall id ensures Tracked(u, f', id, Revokes(all, id), Revived(all, id)) {
      assert Tracked(u, f, id, Revokes(front, id), Revived(front, id));
      RevokesSnoc(front, (ext, Revoked(id0)), id);
      RevivedSnoc(front, (ext, Revoked(id0)), id);
    }
  }

  lemma TracksRevoke(t: AtsTables, ops: AtsOps, f: AtsTables, front: seq<(nat, AtsEvent)>, ext: nat, evt: AtsEvent, block: nat)
    requires BatchAccepted(t, ops) && BatchTracks(Inserted(t, ops), ops, f, front) && evt.Revoked?
    ensures var ops' := PushEvent(ops, ext, evt, block);
      && BatchAccepted(t, ops')
      && BatchTracks(Inserted(t, ops'), ops', Revoke(f, evt.id), front + [(ext, evt)])
  {
    var ops' := PushEvent(ops, ext, evt, block);
    assert Inserted(t, ops') == Inserted(t, ops);
    RevocationsPush(ops.revocations, front, (ext, evt));
    RevokeTracksAll(Inserted(t, ops), f, ext, evt.id, front);
    hide Inserted, AllTracked, RevocationsAre;
  }

  lemma {:induction false} BatchTracksFold(t: AtsTables, decoded: seq<(nat, AtsEvent)>, block: nat)
    requires HasParents(t) && EventsFold(t, decoded, block).Some?
    ensures var ops := Project(decoded, block);
      BatchAccepted(t, ops) && BatchTracks(Inserted(t, ops), ops, EventsFold(t, decoded, block).value, decoded)
    decreases |decoded|
  {
    if decoded != [] {
      var n := |decoded| - 1;
      var front := decoded[..n];
      var (ext, evt) := decoded[n];
      assert decoded == front + [(ext, evt)];
      BatchTracksFold(t, front, block);
      var f := EventsFold(t, front, block).value;
      hide BatchAccepted, BatchTracks, PushEvent;
      if evt.Revoked? {
        TracksRevoke(t, Project(front, block), f, front, ext, evt, block);
      } else {
        TracksWrite(t, Project(front, block), f, front, ext, evt, block);
      }
    }
  }

  lemma RevivedSurvives(u: AtsTables, ops: AtsOps, f: AtsTables, decoded: seq<(nat, AtsEvent)>, id: nat)
    requires BatchTracks(u, ops, f, decoded) && Revived(decoded, id)
    ensures id in f.registry && id !in RevokeAll(u, ops.revocations).registry
  {
    RevokeAllAt(u, ops.revocations);
    hide RevokeAll;
    assert Tracked(u, f, id, Revokes(decoded, id), true);
    assert Revokes(decoded, id);
  }

  lemma UnrevivedSame(u: AtsTables, ops: AtsOps, f: AtsTables, decoded: seq<(nat, AtsEvent)>, id: nat)
    requires BatchTracks(u, ops, f, decoded) && !Revived(decoded, id)
    ensures SameAt(RevokeAll(u, ops.revocations), f, id)
  {
    RevokeAllAt(u, ops.revocations);
    hide RevokeAll, Revived, Revokes;
    assert Tracked(u, f, id, Revokes(decoded, id), false);
  }

  /**
   * A block whose events succeed one by one commits as a batch, and leaves what they leave iff it does
   * not write an id again after revoking it: the batch deletes last.
   */
  lemma BatchIsFoldIff(t: AtsTables, decoded: seq<(nat, AtsEvent)>, block: nat)
    requires HasParents(t) && EventsFold(t, decoded, block).Some?
    ensures ApplyAts(t, Project(decoded, block)).Some?
    ensures ApplyAts(t, Project(decoded, block)) == EventsFold(t, decoded, block)
       <==> forall id :: !Revived(decoded, id)
  {
    var ops := Project(decoded, block);
    var u, f := Inserted(t, ops), EventsFold(t, decoded, block).value;
    BatchTracksFold(t, decoded, block);
    hide Inserted, EventsFold, RevokeAll, Project, Revived, SameAt, BatchTracks;
    if id :| Revived(decoded, id) {
      RevivedSurvives(u, ops, f, decoded, id);
    } else {
      forall id ensures SameAt(RevokeAll(u, ops.revocations), f, id) { UnrevivedSame(u, ops, f, decoded, id); }
      SameEverywhere(RevokeAll(u, ops.revocations), f);
    }
  }

  // ---- the pallet ----

  datatype Ledger = Ledger(tables: AtsTables, used: set<nat>)

  /** One event as the pallet emits it; None for an event it never emits. Ids are never reused. */
  function PalletStep(l: Ledger, ext: nat, evt: AtsEvent, block: nat): Option<Ledger> {
    var t := l.tables;
    match evt
    case Created(id, owner, commitment, protocol) =>
      if id in l.used then None
      else Some(Ledger(
        AtsTables(t.registry[id := RegistryRow(owner, block, ext, 1)],
                  t.versions[(id, 0) := VersionRow(block, ext, commitment, protocol)]),
        l.used + {id}))
    case Updated(id, version, commitment, protocol) =>
      if id !in t.registry || version != t.registry[id].count || version >= TWO_31 - 1 then None
      else Some(l.(tables := AtsTables(
        t.registry[id := t.registry[id].(count := version + 1)],
        t.versions[(id, version as int) := VersionRow(block, ext, commitment, protocol)])))
    case Revoked(id) =>
      if id !in t.registry then None else Some(l.(tables := Revoke(t, id)))
  }

  function PalletBlock(l: Ledger, decoded: seq<(nat, AtsEvent)>, block: nat): Option<Ledger>
    decreases |decoded|
  {
    if decoded == [] then Some(l)
    else
      var n := |decoded| - 1;
      match PalletBlock(l, decoded[..n], block)
      case None => None
      case Some(mid) => PalletStep(mid, decoded[n].0, decoded[n].1, block)
  }

  /** The pallet's own history of the first `count` blocks. */
  function PalletHistory(chain: AtsChain, count: nat): Option<Ledger> {
    if count == 0 then Some(Ledger(EMPTY, {}))
    else
      match PalletHistory(chain, count - 1)
      case None => None
      case Some(l) => PalletBlock(l, chain(count - 1), count - 1)
  }

  ghost predicate LedgerOk(l: Ledger) {
    Consistent(l.tables) && l.tables.registry.Keys <= l.used
  }

  /** A version that was written, or whose id is gone for good: the pallet never writes it again. */
  ghost predicate Spent(l: Ledger, k: (nat, int)) {
    k.0 in l.used && (k in l.tables.versions || k.0 !in l.tables.registry)
  }

  ghost predicate Dead(l: Ledger, id: nat) {
    id in l.used && id !in l.tables.registry
  }

  lemma CreationIsEvent(l: Ledger, ext: nat, evt: AtsEvent, block: nat)
    requires LedgerOk(l) && evt.Created? && evt.id !in l.used
    ensures var l' := PalletStep(l, ext, evt, block).value;
      LedgerOk(l') && EventStep(l.tables, ext, evt, block) == Some(l'.tables)
  {
  }

  lemma UpdateIsEvent(l: Ledger, ext: nat, evt: AtsEvent, block: nat)
    requires LedgerOk(l) && evt.Updated? && PalletStep(l, ext, evt, block).Some?
    ensures var l' := PalletStep(l, ext, evt, block).value;
      LedgerOk(l') && EventStep(l.tables, ext, evt, block) == Some(l'.tables)
  {
    var l' := PalletStep(l, ext, evt, block).value;
    var key := (evt.id, evt.version as int);
    assert key !in l.tables.versions && VersionKey(evt) == key;
    assert EventStep(l.tables, ext, evt, block) == Some(l'.tables);
    hide EventStep, Written;
    forall k | k in l'.tables.versions ensures k.0 in l'.tables.registry && 0 <= k.1 < l'.tables.registry[k.0].count {
      if k != key { assert k in l.tables.versions; }
    }
  }

  lemma RevocationIsEvent(l: Ledger, ext: nat, evt: AtsEvent, block: nat)
    requires LedgerOk(l) && evt.Revoked? && PalletStep(l, ext, evt, block).Some?
    ensures var l' := PalletStep(l, ext, evt, block).value;
      LedgerOk(l') && EventStep(l.tables, ext, evt, block) == Some(l'.tables)
  {
  }

  /** The pallet's events are among those the sink's tables accept, and mean the same there. */
  lemma PalletStepIsEvent(l: Ledger, ext: nat, evt: AtsEvent, block: nat)
    requires LedgerOk(l) && PalletStep(l, ext, evt, block).Some?
    ensures var l' := PalletStep(l, ext, evt, block).value;
      && LedgerOk(l')
      && EventStep(l.tables, ext, evt, block) == Some(l'.tables)
      && l'.used == l.used + (if evt.Created? then {evt.id} else {})
      && (evt.Updated? ==> evt.version < TWO_31 - 1)
  {
    if evt.Created? { CreationIsEvent(l, ext, evt, block); }
    if evt.Updated? { UpdateIsEvent(l, ext, evt, block); }
    if evt.Revoked? { RevocationIsEvent(l, ext, evt, block); }
    hide LedgerOk, EventStep;
  }

  lemma PalletStepSpends(l: Ledger, ext: nat, evt: AtsEvent, block: nat, k: (nat, int))
    requires LedgerOk(l) && PalletStep(l, ext, evt, block).Some?
    ensures var l' := PalletStep(l, ext, evt, block).value;
      && (Spent(l, k) ==> Spent(l', k) && (evt.Revoked? || VersionKey(evt) != k))
      && (!evt.Revoked? && VersionKey(evt) == k ==> Spent(l', k))
      && (Dead(l, k.0) ==> Dead(l', k.0) && evt.id != k.0)
      && (evt == Revoked(k.0) ==> Dead(l', k.0))
  {
  }

  lemma {:induction false} PalletBlockIsFold(l: Ledger, decoded: seq<(nat, AtsEvent)>, block: nat)
    requires LedgerOk(l) && PalletBlock(l, decoded, block).Some?
    ensures LedgerOk(PalletBlock(l, decoded, block).value) && VersionsFit(decoded)
    ensures EventsFold(l.tables, decoded, block) == Some(PalletBlock(l, decoded, block).value.tables)
    ensures PalletBlock(l, decoded, block).value.used == l.used + CreatedIds(decoded)
    decreases |decoded|
  {
    if decoded != [] {
      hide PalletStep, EventStep, LedgerOk, CreatedIds;
      var n := |decoded| - 1;
      var front := decoded[..n];
      assert decoded == front + [decoded[n]];
      PalletBlockIsFold(l, front, block);
      PalletStepIsEvent(PalletBlock(l, front, block).value, decoded[n].0, decoded[n].1, block);
      CreatedSnoc(front, decoded[n]);
    }
  }

  /** A block never writes a spent version, names a dead id, or revives one. */
  lemma {:induction false} PalletBlockSpends(l: Ledger, decoded: seq<(nat, AtsEvent)>, block: nat, k: (nat, int))
    requires LedgerOk(l) && PalletBlock(l, decoded, block).Some?
    ensures var l' := PalletBlock(l, decoded, block).value;
      && (Spent(l, k) ==> Spent(l', k) && k !in WrittenKeys(decoded))
      && (k in WrittenKeys(decoded) ==> Spent(l', k))
      && (Dead(l, k.0) ==> Dead(l', k.0) && !Writes(decoded, k.0) && !Revokes(decoded, k.0))
      && (Revokes(decoded, k.0) ==> Dead(l', k.0))
      && !Revived(decoded, k.0)
    decreases |decoded|
  {
    if decoded != [] {
      hide PalletStep, Spent, Dead, LedgerOk, Revived, Revokes, Writes, WrittenKeys;
      var n := |decoded| - 1;
      var front := decoded[..n];
      assert decoded == front + [decoded[n]];
      PalletBlockSpends(l, front, block, k);
      PalletBlockIsFold(l, front, block);
      PalletStepSpends(PalletBlock(l, front, block).value, decoded[n].0, decoded[n].1, block, k);
      WrittenSnoc(front, decoded[n]);
      WritesSnoc(front, decoded[n], k.0);
      RevokesSnoc(front, decoded[n], k.0);
      RevivedSnoc(front, decoded[n], k.0);
    }
  }

  lemma WritesSnoc(front: seq<(nat, AtsEvent)>, e: (nat, AtsEvent), id: nat)
    ensures Writes(front + [e], id) <==> Writes(front, id) || (!e.1.Revoked? && e.1.id == id)
  {
    var all := front + [e];
    assert all[|front|] == e;
    assert forall i :: 0 <= i < |front| ==> all[i] == front[i];
  }

  /** One block's batch of inserts, bumps and deletions leaves what its events leave one by one. */
  lemma BlockIsFold(l: Ledger, decoded: seq<(nat, AtsEvent)>, block: nat)
    requires LedgerOk(l) && PalletBlock(l, decoded, block).Some?
    ensures ApplyAts(l.tables, Project(decoded, block)) == Some(PalletBlock(l, decoded, block).value.tables)
    ensures LedgerOk(PalletBlock(l, decoded, block).value) && VersionsFit(decoded)
  {
    PalletBlockIsFold(l, decoded, block);
    forall id ensures !Revived(decoded, id) { PalletBlockSpends(l, decoded, block, (id, 0)); }
    hide Revived;
    BatchIsFoldIff(l.tables, decoded, block);
  }

  function FirstBlocks(count: nat): seq<nat> {
    seq(count, i => i)
  }

  lemma ReplayFirst(chain: AtsChain, count: nat)
    requires 0 < count
    ensures ReplayAts(chain, FirstBlocks(count)) ==
      match ReplayAts(chain, FirstBlocks(count - 1))
      case None => None
      case Some(t) => ApplyAts(t, Project(chain(count - 1), count - 1))
  {
    assert FirstBlocks(count)[..count - 1] == FirstBlocks(count - 1);
  }

  /** The events of the first `count` blocks, one by one. */
  function HistoryFold(chain: AtsChain, count: nat): Option<AtsTables> {
    if count == 0 then Some(EMPTY)
    else
      match HistoryFold(chain, count - 1)
      case None => None
      case Some(t) => EventsFold(t, chain(count - 1), count - 1)
  }

  lemma {:induction false} FoldHasParents(t: AtsTables, decoded: seq<(nat, AtsEvent)>, block: nat)
    requires HasParents(t) && EventsFold(t, decoded, block).Some?
    ensures HasParents(EventsFold(t, decoded, block).value)
  {
    BatchTracksFold(t, decoded, block);
  }

  /**
   * Committing any history in block order leaves what its events leave one by one, as long as no block
   * writes an id again after revoking it.
   */
  lemma {:induction false} AscendingReplayIsEventFold(chain: AtsChain, count: nat)
    requires HistoryFold(chain, count).Some?
    requires forall n, id :: 0 <= n < count ==> !Revived(chain(n), id)
    ensures ReplayAts(chain, FirstBlocks(count)) == HistoryFold(chain, count)
    ensures HasParents(HistoryFold(chain, count).value)
    decreases count
  {
    if count == 0 {
      assert FirstBlocks(0) == [];
    } else {
      var n := count - 1;
      AscendingReplayIsEventFold(chain, n);
      ReplayFirst(chain, count);
      hide Revived, HasParents, EventsFold, ApplyAts, Project;
      var t := HistoryFold(chain, n).value;
      BatchIsFoldIff(t, chain(n), n);
      FoldHasParents(t, chain(n), n);
    }
  }

  lemma HistoryStep(chain: AtsChain, count: nat)
    requires 0 < count && PalletHistory(chain, count).Some?
    ensures PalletHistory(chain, count - 1).Some?
    ensures PalletHistory(chain, count) == PalletBlock(PalletHistory(chain, count - 1).value, chain(count - 1), count - 1)
  {
    hide PalletBlock;
  }

  lemma NoHistory(chain: AtsChain)
    ensures PalletHistory(chain, 0) == Some(Ledger(EMPTY, {})) && LedgerOk(Ledger(EMPTY, {}))
    ensures ReplayAts(chain, FirstBlocks(0)) == Some(EMPTY)
  {
    assert FirstBlocks(0) == [];
  }

  /** Committing a history in block order succeeds and computes the pallet's own tables. */
  lemma {:induction false} AscendingReplayIsFold(chain: AtsChain, count: nat)
    requires PalletHistory(chain, count).Some?
    ensures ReplayAts(chain, FirstBlocks(count)) == Some(PalletHistory(chain, count).value.tables)
    ensures LedgerOk(PalletHistory(chain, count).value)
    decreases count
  {
    hide PalletHistory, PalletBlock, ReplayAts, ApplyAts, Project, LedgerOk, FirstBlocks;
    if count == 0 {
      NoHistory(chain);
    } else {
      HistoryStep(chain, count);
      ReplayFirst(chain, count);
      AscendingReplayIsFold(chain, count - 1);
      BlockIsFold(PalletHistory(chain, count - 1).value, chain(count - 1), count - 1);
    }
  }
}
