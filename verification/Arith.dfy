/** Facts about integer division that the verifier does not find by itself. */
module Arith {

  /** The quotient is the only `q` with `q * d <= a < (q + 1) * d`. */
  lemma DivUnique(a: nat, d: nat, q: nat)
    requires 0 < d && q * d <= a < q * d + d
    ensures a / d == q
  {
    var p := a / d;
    assert p * d <= a < p * d + d by { assert a == p * d + a % d; }
    if p < q { MulMono(p + 1, q, d); }
    if q < p { MulMono(q + 1, p, d); }
  }

  lemma MulMono(a: nat, b: nat, d: nat)
    requires a <= b
    ensures a * d <= b * d
  {
    assert b * d == a * d + (b - a) * d;
  }

  lemma DivFloor(a: nat, d: nat)
    requires 0 < d
    ensures (a / d) * d <= a < (a / d) * d + d
  {
    assert a == (a / d) * d + a % d;
  }

  lemma DivMono(a: nat, b: nat, d: nat)
    requires 0 < d && a <= b
    ensures a / d <= b / d
  {
    DivFloor(a, d);
    DivFloor(b, d);
    if b / d < a / d { MulMono(b / d + 1, a / d, d); }
  }

  lemma DivAddOne(a: nat, d: nat)
    requires 0 < d
    ensures (a + d) / d == a / d + 1
  {
    DivFloor(a, d);
    assert (a / d + 1) * d == (a / d) * d + d;
    DivUnique(a + d, d, a / d + 1);
  }
}
