/**
 * When a block cannot be committed at all. The foreign key refuses a version without its registry row, so
 * a block that updates an id depends on the block that created it, and on no revocation having gone first.
 */
module AtsRefusals {
  import opened Wrappers
  import opened Ats
  import opened AtsHistory
  import opened AtsOrder

  /** The block that created the id is committed, and no block that revokes the id since. */
  ghost predicate CreatorStanding(chain: AtsChain, log: seq<nat>, id: nat) {
    exists n :: n in Standing(chain, log, id) && id in CreatedIds(chain(n))
  }

  /** Every id the block writes is created in it, or its creator stands. */
  ghost predicate Supported(chain: AtsChain, log: seq<nat>, m: nat) {
    forall id :: Writes(chain(m), id) ==> id in CreatedIds(chain(m)) || CreatorStanding(chain, log, id)
  }

  lemma RegisteredIff(chain: AtsChain, count: nat, log: seq<nat>, id: nat)
    requires PalletHistory(chain, count).Some? && Within(log, count) && ReplayAts(chain, log).Some?
    ensures id in ReplayAts(chain, log).value.registry <==> CreatorStanding(chain, log, id)
  {
    hide PalletHistory, ReplayAts, Standing, CreatedRows, VersionFrom, CreatedIds, Within;
    StandingRows(chain, count, log, id, 0);
    forall n ensures CreatedRows(chain, n).Keys == CreatedIds(chain(n)) { RowKeys(chain, n); }
  }

  /** After any successful commits, a block commits iff it creates each id it writes or the id's creator stands. */
  lemma CommitsIff(chain: AtsChain, count: nat, log: seq<nat>, m: nat)
    requires PalletHistory(chain, count).Some? && Within(log, count) && ReplayAts(chain, log).Some?
    ensures ReplayAts(chain, log + [m]).Some? <==> Supported(chain, log, m)
  {
    var t := ReplayAts(chain, log).value;
    assert (log + [m])[..|log|] == log;
    assert ReplayAts(chain, log + [m]) == ApplyAts(t, Project(chain(m), m));
    LogConsistent(chain, count, log);
    ApplyAtsSucceedsIff(t, chain(m), m);
    hide PalletHistory, ReplayAts, ApplyAts, Project, CreatorStanding, CreatedIds, Consistent, Within;
    if Supported(chain, log, m) {
      forall i | 0 <= i < |chain(m)| && chain(m)[i].1.Updated?
        ensures chain(m)[i].1.id in t.registry.Keys + CreatedIds(chain(m))
      {
        assert Writes(chain(m), chain(m)[i].1.id);
        RegisteredIff(chain, count, log, chain(m)[i].1.id);
      }
    }
    if ApplyAts(t, Project(chain(m), m)).Some? {
      forall id | Writes(chain(m), id) ensures id in CreatedIds(chain(m)) || CreatorStanding(chain, log, id) {
        var v := WriteIsWritten(chain(m), id);
        ParentThere(t, chain(m), m, id, v);
        RegisteredIff(chain, count, log, id);
      }
    }
  }

  /** The block creates an id that `m` writes. */
  ghost predicate CreatesFor(chain: AtsChain, n: nat, m: nat) {
    exists id :: id in CreatedIds(chain(n)) && Writes(chain(m), id)
  }

  lemma WithinParts(a: seq<nat>, b: seq<nat>, count: nat)
    requires Within(a + b, count)
    ensures Within(a, count) && Within(b, count)
  {
    forall n | n in a || n in b ensures n in a + b {}
  }

  lemma RefusedStep(chain: AtsChain, count: nat, log: seq<nat>, n: nat, m: nat)
    requires PalletHistory(chain, count).Some? && Within(log + [n], count)
    requires ReplayAts(chain, log + [n]).Some? && ReplayAts(chain, log + [m]) == None
    requires !CreatesFor(chain, n, m)
    ensures ReplayAts(chain, log + [n] + [m]) == None
  {
    WithinParts(log, [n], count);
    hide ReplayAts, PalletHistory, Within, Writes, Revokes, CreatedIds, Standing;
    ReplaySnoc(chain, log, n);
    CommitsIff(chain, count, log, m);
    CommitsIff(chain, count, log + [n], m);
    var id :| Writes(chain(m), id) && id !in CreatedIds(chain(m)) && !CreatorStanding(chain, log, id);
    StandingSnoc(chain, log, n, id);
    assert !CreatorStanding(chain, log + [n], id);
  }

  /**
   * A refused block stays refused, whatever else is committed, until a block that creates an id it writes
   * is committed again.
   */
  lemma {:induction false} RefusedStays(chain: AtsChain, count: nat, log: seq<nat>, more: seq<nat>, m: nat)
    requires PalletHistory(chain, count).Some? && Within(log + more, count)
    requires ReplayAts(chain, log + more).Some? && ReplayAts(chain, log + [m]) == None
    requires forall n :: n in more && n != m ==> !CreatesFor(chain, n, m)
    ensures m !in more && ReplayAts(chain, log + more + [m]) == None
    decreases |more|
  {
    hide ReplayAts, PalletHistory, Within, CreatesFor;
    if more == [] {
      assert log + more == log;
    } else {
      var front, n := more[..|more| - 1], more[|more| - 1];
      assert log + more == log + front + [n] && more == front + [n];
      WithinParts(log + front, [n], count);
      ReplaySnoc(chain, log + front, n);
      assert forall x :: x in front ==> x in more;
      RefusedStays(chain, count, log, front, m);
      RefusedStep(chain, count, log + front, n, m);
    }
  }

  lemma OneEventBlock(l: Ledger, ext: nat, evt: AtsEvent, block: nat)
    ensures PalletBlock(l, [(ext, evt)], block) == PalletStep(l, ext, evt, block)
  {
    var decoded := [(ext, evt)];
    assert decoded[..0] == [];
    assert PalletBlock(l, decoded[..0], block) == Some(l);
  }

  /** The smallest such history: create, update, revoke. Committed without its middle block, it stays without. */
  lemma RevokedBeforeUpdate(chain: AtsChain, created: AtsEvent, updated: AtsEvent)
    requires created.Created? && updated.Updated? && updated.id == created.id && updated.version == 1
    requires chain(0) == [(0, created)] && chain(1) == [(0, updated)] && chain(2) == [(0, Revoked(created.id))]
    ensures PalletHistory(chain, 3).Some?
    ensures ReplayAts(chain, [0]).Some? && ReplayAts(chain, [0, 2]) == Some(EMPTY)
    ensures ReplayAts(chain, [0, 2, 1]) == None
  {
    var l0 := PalletStep(Ledger(EMPTY, {}), 0, created, 0).value;
    var l1 := PalletStep(l0, 0, updated, 1).value;
    OneEventBlock(Ledger(EMPTY, {}), 0, created, 0);
    OneEventBlock(l0, 0, updated, 1);
    OneEventBlock(l1, 0, Revoked(created.id), 2);
    assert PalletHistory(chain, 1) == Some(l0) && PalletHistory(chain, 2) == Some(l1);
    var t := Written(EMPTY, 0, created, 0);
    assert EventStep(EMPTY, 0, created, 0) == Some(t) && Revoke(t, created.id) == EMPTY;
    assert EventStep(EMPTY, 0, updated, 1) == None;
    assert ReplayAts(chain, []) == Some(EMPTY);
    hide ReplayAts, PalletHistory, PalletStep, PalletBlock, EventStep;
    assert [] + [0] == [0] && [0] + [2] == [0, 2] && [0, 2] + [1] == [0, 2, 1];
    ReplayNext(chain, [], EMPTY, 0, 0, created);
    assert EventStep(t, 0, Revoked(created.id), 2) == Some(EMPTY);
    ReplayNext(chain, [0], t, 2, 0, Revoked(created.id));
    ReplayNext(chain, [0, 2], EMPTY, 1, 0, updated);
  }
}
