/** The accounts to snapshot for one block (src/indexer/projections/accounts.rs). */
module Touched {
  import opened Wrappers
  import opened Bytes
  import opened Collections

  /** The signers of the signed extrinsics, in order. */
  function Signers(signers: seq<Option<AccountId>>): seq<AccountId>
    decreases |signers|
  {
    if signers == [] then []
    else (match signers[0] case Some(a) => [a] case None => []) + Signers(signers[1..])
  }

  /** First occurrences only. */
  function FirstTouch(accounts: seq<AccountId>): seq<AccountId>
    decreases |accounts|
  {
    if accounts == [] then []
    else
      var n := |accounts| - 1;
      var front := FirstTouch(accounts[..n]);
      if accounts[n] in accounts[..n] then front else front + [accounts[n]]
  }

  function CollectTouched(fromEvents: seq<AccountId>, signers: seq<Option<AccountId>>): seq<AccountId> {
    FirstTouch(fromEvents + Signers(signers))
  }

  lemma {:induction false} SignersSnoc(signers: seq<Option<AccountId>>, i: nat)
    requires i < |signers|
    ensures Signers(signers[..i + 1])
         == Signers(signers[..i]) + (match signers[i] case Some(a) => [a] case None => [])
    decreases i
  {
    if i > 0 {
      SignersSnoc(signers[1..], i - 1);
      assert signers[..i + 1][1..] == signers[1..][..i];
      assert signers[..i][1..] == signers[1..][..i - 1];
    } else {
      assert signers[..1][1..] == [];
    }
  }

  lemma FirstTouchSnoc(accounts: seq<AccountId>, a: AccountId)
    ensures FirstTouch(accounts + [a])
         == if a in accounts then FirstTouch(accounts) else FirstTouch(accounts) + [a]
  {
    assert (accounts + [a])[..|accounts|] == accounts;
  }

  /** The `push` closure. */
  method Push(a: AccountId, seen: set<AccountId>, out: seq<AccountId>, ghost before: seq<AccountId>)
    returns (seen': set<AccountId>, out': seq<AccountId>)
    requires seen == SetOf(before) && out == FirstTouch(before)
    ensures seen' == SetOf(before + [a]) && out' == FirstTouch(before + [a])
  {
    FirstTouchSnoc(before, a);
    SetOfSnoc(before, a);
    seen', out' := seen, out;
    if a !in seen {
      seen' := seen + {a};
      out' := out + [a];
    }
  }

  method CollectTouchedLoop(fromEvents: seq<AccountId>, signers: seq<Option<AccountId>>) returns (out: seq<AccountId>)
    ensures out == CollectTouched(fromEvents, signers)
  {
    var seen: set<AccountId> := {};
    out := [];
    for i := 0 to |fromEvents|
      invariant seen == SetOf(fromEvents[..i]) && out == FirstTouch(fromEvents[..i])
    {
      seen, out := Push(fromEvents[i], seen, out, fromEvents[..i]);
      assert fromEvents[..i + 1] == fromEvents[..i] + [fromEvents[i]];
    }
    ghost var before := fromEvents;
    assert fromEvents[..|fromEvents|] == fromEvents;
    for i := 0 to |signers|
      invariant before == fromEvents + Signers(signers[..i])
      invariant seen == SetOf(before) && out == FirstTouch(before)
    {
      SignersSnoc(signers, i);
      match signers[i] {
        case Some(signer) =>
          seen, out := Push(signer, seen, out, before);
          before := before + [signer];
        case None =>
      }
    }
    assert signers[..|signers|] == signers;
  }

  /** Position of the first occurrence. */
  function IndexOf(accounts: seq<AccountId>, a: AccountId): nat
    requires a in accounts
    decreases |accounts|
  {
    if accounts[0] == a then 0 else 1 + IndexOf(accounts[1..], a)
  }

  lemma {:induction false} IndexOfFirst(accounts: seq<AccountId>, a: AccountId)
    requires a in accounts
    ensures IndexOf(accounts, a) < |accounts| && accounts[IndexOf(accounts, a)] == a
    ensures forall j :: 0 <= j < IndexOf(accounts, a) ==> accounts[j] != a
    decreases |accounts|
  {
    if accounts[0] != a { IndexOfFirst(accounts[1..], a); }
  }

  /** No duplicates, the same accounts, in the order of their first occurrence. */
  lemma {:induction false} FirstTouchOrders(accounts: seq<AccountId>)
    ensures var out := FirstTouch(accounts);
      && NoDup(out)
      && SetOf(out) == SetOf(accounts)
      && (forall i, j :: 0 <= i < j < |out|
            ==> out[i] in accounts && out[j] in accounts && IndexOf(accounts, out[i]) < IndexOf(accounts, out[j]))
    decreases |accounts|
  {
    if accounts != [] {
      var n := |accounts| - 1;
      var front, last := accounts[..n], accounts[n];
      assert accounts == front + [last];
      FirstTouchOrders(front);
      var out, prev := FirstTouch(accounts), FirstTouch(front);
      assert forall i :: 0 <= i < |prev| ==> prev[i] in SetOf(prev);
      forall a | a in front ensures IndexOf(accounts, a) == IndexOf(front, a) {
        IndexOfFirst(front, a);
        IndexOfFirst(accounts, a);
        assert forall k :: 0 <= k < n ==> accounts[k] == front[k];
      }
      FirstTouchSnoc(front, last);
      forall i, j | 0 <= i < j < |out|
        ensures out[i] in accounts && out[j] in accounts && IndexOf(accounts, out[i]) < IndexOf(accounts, out[j])
      {
        assert out[i] == prev[i] && prev[i] in SetOf(front);
        if j == |prev| {
          IndexOfFirst(front, prev[i]);
          IndexOfFirst(accounts, last);
          assert forall k :: 0 <= k < n ==> accounts[k] == front[k];
        } else {
          assert prev[j] in SetOf(prev);
        }
      }
      SetOfSnoc(front, last);
      SetOfSnoc(prev, last);
      assert last in front ==> last in SetOf(front);
    }
  }
}
