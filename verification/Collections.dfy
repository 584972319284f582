/** Sequences and finite sets of block numbers. */
module Collections {

  function SetOf<T>(s: seq<T>): set<T> {
    set x | x in s
  }

  lemma SetOfSnoc<T>(s: seq<T>, x: T)
    ensures SetOf(s + [x]) == SetOf(s) + {x}
  {
  }

  ghost predicate NoDup<T>(s: seq<T>) {
    forall i, j :: 0 <= i < j < |s| ==> s[i] != s[j]
  }

  ghost predicate StrictlyAscending(s: seq<nat>) {
    forall i, j :: 0 <= i < j < |s| ==> s[i] < s[j]
  }

  /** The members of a finite set below `bound`, smallest first. */
  function Below(members: set<nat>, bound: nat): (s: seq<nat>)
    ensures StrictlyAscending(s)
    ensures forall n :: n in s <==> n in members && n < bound
  {
    if bound == 0 then []
    else if bound - 1 in members then
      var rest := Below(members, bound - 1);
      assert forall i :: 0 <= i < |rest| ==> rest[i] in rest;
      rest + [bound - 1]
    else Below(members, bound - 1)
  }

  /** An upper bound of a finite set. */
  ghost function BoundOf(members: set<nat>): (b: nat)
    ensures forall n :: n in members ==> n < b
  {
    if members == {} then 0
    else
      var x :| x in members;
      var rest := BoundOf(members - {x});
      assert members == (members - {x}) + {x};
      if rest <= x then x + 1 else rest
  }

  /** A finite set in ascending order. */
  ghost function InOrder(members: set<nat>): (s: seq<nat>)
    ensures StrictlyAscending(s)
    ensures SetOf(s) == members
  {
    Below(members, BoundOf(members))
  }
}
