/** Lists ordered newest first by a `(block, index)` key, and what a page takes from them. */
module Feeds {

  type Key = (nat, nat)

  /** Lexicographic, as Rust and Postgres compare tuples. */
  predicate Lt(a: Key, b: Key) { a.0 < b.0 || (a.0 == b.0 && a.1 < b.1) }

  function Pick<T>(s: seq<T>, keep: T -> bool): seq<T> {
    if s == [] then [] else (if keep(s[0]) then [s[0]] else []) + Pick(s[1..], keep)
  }

  function Take<T>(s: seq<T>, n: nat): seq<T> {
    if |s| <= n then s else s[..n]
  }

  function Reversed<T>(s: seq<T>): seq<T> {
    seq(|s|, i requires 0 <= i < |s| => s[|s| - 1 - i])
  }

  ghost predicate Descending<T(!new)>(s: seq<T>, key: T -> Key) {
    forall i, j :: 0 <= i < j < |s| ==> Lt(key(s[j]), key(s[i]))
  }

  lemma {:induction false} PickConcat<T>(a: seq<T>, b: seq<T>, keep: T -> bool)
    ensures Pick(a + b, keep) == Pick(a, keep) + Pick(b, keep)
    decreases |a|
  {
    if a == [] {
      assert a + b == b;
    } else {
      assert (a + b)[1..] == a[1..] + b;
      PickConcat(a[1..], b, keep);
      var first := if keep(a[0]) then [a[0]] else [];
      assert first + (Pick(a[1..], keep) + Pick(b, keep)) == first + Pick(a[1..], keep) + Pick(b, keep);
    }
  }

  /** Picking keeps exactly the wanted elements. */
  lemma {:induction false} PickMembers<T>(s: seq<T>, keep: T -> bool, x: T)
    ensures x in Pick(s, keep) <==> x in s && keep(x)
    decreases |s|
  {
    if s != [] {
      assert s == [s[0]] + s[1..];
      PickMembers(s[1..], keep, x);
    }
  }

  lemma {:induction false} PickNone<T>(s: seq<T>, keep: T -> bool)
    requires forall x :: x in s ==> !keep(x)
    ensures Pick(s, keep) == []
    decreases |s|
  {
    if s != [] {
      assert s[0] in s;
      PickNone(s[1..], keep);
    }
  }

  lemma {:induction false} PickAll<T>(s: seq<T>, keep: T -> bool)
    requires forall x :: x in s ==> keep(x)
    ensures Pick(s, keep) == s
    decreases |s|
  {
    if s != [] {
      assert s[0] in s;
      PickAll(s[1..], keep);
      assert s == [s[0]] + s[1..];
    }
  }

  /** Two selections that agree on the list select the same. */
  lemma {:induction false} PickSame<T>(s: seq<T>, p: T -> bool, q: T -> bool)
    requires forall x :: x in s ==> p(x) == q(x)
    ensures Pick(s, p) == Pick(s, q)
    decreases |s|
  {
    if s != [] {
      assert s[0] in s;
      PickSame(s[1..], p, q);
    }
  }

  /** Selecting twice is selecting by the second wish, when it implies the first. */
  lemma {:induction false} PickTwice<T>(s: seq<T>, p: T -> bool, q: T -> bool)
    requires forall x :: x in s && q(x) ==> p(x)
    ensures Pick(Pick(s, p), q) == Pick(s, q)
    decreases |s|
  {
    if s != [] {
      assert s[0] in s;
      PickTwice(s[1..], p, q);
      PickConcat(if p(s[0]) then [s[0]] else [], Pick(s[1..], p), q);
      assert [s[0]][1..] == [];
    }
  }

  lemma {:induction false} PickDescending<T(!new)>(s: seq<T>, keep: T -> bool, key: T -> Key)
    requires Descending(s, key)
    ensures Descending(Pick(s, keep), key)
    decreases |s|
  {
    if s != [] {
      var rest := Pick(s[1..], keep);
      PickDescending(s[1..], keep, key);
      forall j | 0 <= j < |rest| ensures Lt(key(rest[j]), key(s[0])) {
        PickMembers(s[1..], keep, rest[j]);
        var k :| 0 <= k < |s[1..]| && s[1..][k] == rest[j];
      }
    }
  }

  lemma DescendingConcat<T(!new)>(a: seq<T>, b: seq<T>, key: T -> Key)
    requires Descending(a, key) && Descending(b, key)
    requires forall x, y :: x in a && y in b ==> Lt(key(y), key(x))
    ensures Descending(a + b, key)
  {
  }

  /** In a descending list, what lies below an element is what comes after it. */
  lemma {:induction false} PickBelow<T(!new)>(s: seq<T>, i: nat, keep: T -> bool, key: T -> Key)
    requires Descending(s, key) && i < |s|
    requires forall x :: x in s ==> (keep(x) <==> Lt(key(x), key(s[i])))
    ensures Pick(s, keep) == s[i + 1..]
    decreases i
  {
    assert s[0] in s;
    var rest := s[1..];
    if i == 0 {
      forall x | x in rest ensures keep(x) {
        var k :| 0 <= k < |rest| && rest[k] == x;
        assert s[k + 1] == x;
      }
      PickAll(rest, keep);
    } else {
      assert s[i] == rest[i - 1] && !keep(s[0]);
      PickBelow(rest, i - 1, keep, key);
    }
  }

  lemma PickHead<T>(s: seq<T>, k: nat, keep: T -> bool)
    requires k < |s|
    ensures Pick(s[k..], keep) == (if keep(s[k]) then [s[k]] else []) + Pick(s[k + 1..], keep)
  {
    assert s[k..][1..] == s[k + 1..];
  }

  lemma ReversedMembers<T>(s: seq<T>, x: T)
    ensures x in Reversed(s) <==> x in s
  {
    if x in s {
      var i :| 0 <= i < |s| && s[i] == x;
      assert Reversed(s)[|s| - 1 - i] == x;
    }
  }

  lemma {:induction false} PickReversed<T>(s: seq<T>, keep: T -> bool)
    ensures |Pick(Reversed(s), keep)| == |Pick(s, keep)|
    decreases |s|
  {
    if s != [] {
      assert Reversed(s) == Reversed(s[1..]) + [s[0]];
      PickConcat(Reversed(s[1..]), [s[0]], keep);
      PickReversed(s[1..], keep);
      assert [s[0]][1..] == [];
    }
  }

  lemma TakeShort<T>(s: seq<T>, n: nat)
    requires |s| <= n
    ensures Take(s, n) == s
  {
  }

  lemma TakeAppend<T>(items: seq<T>, rest: seq<T>, n: nat)
    requires n <= |items|
    ensures Take(items + rest, n) == Take(items, n)
  {
    assert (items + rest)[..n] == items[..n];
  }
}
