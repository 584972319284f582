/** The vesting schedule of one token allocation (`claimable_amount` of src/domain.rs). */
module Vesting {
  import opened Ints
  import opened Arith

  /** Vested but not yet released at `head`. Amounts are u128 and saturate. */
  function ClaimableAmount(head: nat, start: nat, vestedTotal: nat, released: nat, duration: nat): nat {
    if head <= start then 0
    else
      var elapsed := head - start;
      if duration == 0 || elapsed >= duration then SatSub(vestedTotal, released)
      else SatSub(SatMul(vestedTotal, elapsed, U128_MAX) / duration, released)
  }

  /** What has vested by `head`, released or not. */
  function Vested(head: nat, start: nat, vestedTotal: nat, duration: nat): nat {
    ClaimableAmount(head, start, vestedTotal, 0, duration)
  }

  lemma DivBound(a: nat, b: nat, d: nat)
    requires 0 < d && a <= b * d
    ensures a / d <= b
  {
    DivFloor(a, d);
    if b < a / d { MulMono(b + 1, a / d, d); }
  }

  /** Whatever saturates, a claim never pays more than what is left. */
  lemma VestedBounded(head: nat, start: nat, vestedTotal: nat, duration: nat)
    ensures Vested(head, start, vestedTotal, duration) <= vestedTotal
  {
    if start < head && head - start < duration {
      var elapsed := head - start;
      MulMono(elapsed, duration, vestedTotal);
      DivBound(SatMul(vestedTotal, elapsed, U128_MAX), vestedTotal, duration);
    }
  }

  /** Vesting never goes back, even where the multiplication saturates. */
  lemma VestedMonotone(h: nat, h': nat, start: nat, vestedTotal: nat, duration: nat)
    requires h <= h'
    ensures Vested(h, start, vestedTotal, duration) <= Vested(h', start, vestedTotal, duration)
  {
    VestedBounded(h, start, vestedTotal, duration);
    if start < h && h' - start < duration {
      MulMono(h - start, h' - start, vestedTotal);
      DivMono(SatMul(vestedTotal, h - start, U128_MAX), SatMul(vestedTotal, h' - start, U128_MAX), duration);
    }
  }

  /** Monotone in the head and never more than what is left, for every amount already released. */
  lemma ClaimMonotoneAndBounded(h: nat, h': nat, start: nat, vestedTotal: nat, released: nat, duration: nat)
    requires h <= h'
    ensures ClaimableAmount(h, start, vestedTotal, released, duration) <= ClaimableAmount(h', start, vestedTotal, released, duration)
    ensures ClaimableAmount(h', start, vestedTotal, released, duration) <= SatSub(vestedTotal, released)
  {
    VestedMonotone(h, h', start, vestedTotal, duration);
    VestedBounded(h', start, vestedTotal, duration);
  }

  /** The amount released after claiming everything claimable at each of `heads` in turn. */
  function Released(heads: seq<nat>, start: nat, vestedTotal: nat, duration: nat): nat {
    if heads == [] then 0
    else
      var before := Released(heads[..|heads| - 1], start, vestedTotal, duration);
      before + ClaimableAmount(heads[|heads| - 1], start, vestedTotal, before, duration)
  }

  /** The highest head of a run of claims. */
  function Highest(heads: seq<nat>): nat {
    if heads == [] then 0 else Max(Highest(heads[..|heads| - 1]), heads[|heads| - 1])
  }

  /**
   * Claims are path independent: however many there are and in whatever order their heads come, what
   * has been released is what has vested at the highest of them, and never more than the total.
   */
  lemma {:induction false} ClaimsArePathIndependent(heads: seq<nat>, start: nat, vestedTotal: nat, duration: nat)
    ensures Released(heads, start, vestedTotal, duration) == Vested(Highest(heads), start, vestedTotal, duration)
    ensures Released(heads, start, vestedTotal, duration) <= vestedTotal
    decreases |heads|
  {
    if heads != [] {
      var front, h := heads[..|heads| - 1], heads[|heads| - 1];
      ClaimsArePathIndependent(front, start, vestedTotal, duration);
      VestedMonotone(Min(Highest(front), h), Max(Highest(front), h), start, vestedTotal, duration);
    }
    VestedBounded(Highest(heads), start, vestedTotal, duration);
  }

  lemma {:induction false} LastIsHighest(heads: seq<nat>)
    requires heads != [] && forall i, j :: 0 <= i < j < |heads| ==> heads[i] <= heads[j]
    ensures Highest(heads) == heads[|heads| - 1]
    decreases |heads|
  {
    if |heads| > 1 { LastIsHighest(heads[..|heads| - 1]); }
  }

  /** The vested amount is the floor of the exact fraction while the product fits a u128. */
  lemma VestedIsFloor(start: nat, elapsed: nat, vestedTotal: nat, duration: nat, exact: nat)
    requires 0 < elapsed < duration && exact == vestedTotal * elapsed <= U128_MAX
    ensures var v := Vested(start + elapsed, start, vestedTotal, duration);
      v * duration <= exact < v * duration + duration
  {
    DivFloor(exact, duration);
  }

  /** Beyond that it stops growing: every later head before the end gives the same, smaller amount. */
  lemma SaturatedVesting(start: nat, elapsed: nat, vestedTotal: nat, duration: nat, exact: nat)
    requires 0 < elapsed < duration && exact == vestedTotal * elapsed
    ensures Vested(start + elapsed, start, vestedTotal, duration) <= exact / duration
    ensures exact > U128_MAX ==> Vested(start + elapsed, start, vestedTotal, duration) == U128_MAX / duration
  {
    DivMono(Min(exact, U128_MAX), exact, duration);
  }

  /** A claim is what has vested less what was released before. */
  lemma ClaimIsRest(head: nat, start: nat, vestedTotal: nat, released: nat, duration: nat)
    ensures ClaimableAmount(head, start, vestedTotal, released, duration)
         == SatSub(Vested(head, start, vestedTotal, duration), released)
  {
  }

  lemma PartIsLess(vestedTotal: nat, elapsed: nat, duration: nat)
    requires 0 < vestedTotal && elapsed < duration
    ensures SatMul(vestedTotal, elapsed, U128_MAX) / duration < vestedTotal
  {
    var product := SatMul(vestedTotal, elapsed, U128_MAX);
    DivFloor(product, duration);
    MulMono(elapsed, duration - 1, vestedTotal);
    if product / duration >= vestedTotal { MulMono(vestedTotal, product / duration, duration); }
  }

  /**
   * Nothing is released until a claim comes after the start, and the whole total is released iff some claim
   * comes at or after the end, and after the start.
   */
  lemma AllReleasedIff(heads: seq<nat>, start: nat, vestedTotal: nat, duration: nat)
    requires 0 < vestedTotal
    ensures (forall i :: 0 <= i < |heads| ==> heads[i] <= start) ==> Released(heads, start, vestedTotal, duration) == 0
    ensures Released(heads, start, vestedTotal, duration) == vestedTotal <==>
      exists i :: 0 <= i < |heads| && heads[i] > start && heads[i] >= start + duration
  {
    ClaimsArePathIndependent(heads, start, vestedTotal, duration);
    HighestIs(heads);
    var top := Highest(heads);
    if start < top < start + duration { PartIsLess(vestedTotal, top - start, duration); }
    hide Released, Highest;
  }

  lemma {:induction false} HighestIs(heads: seq<nat>)
    ensures forall i :: 0 <= i < |heads| ==> heads[i] <= Highest(heads)
    ensures heads == [] ==> Highest(heads) == 0
    ensures heads != [] ==> exists i :: 0 <= i < |heads| && heads[i] == Highest(heads)
    decreases |heads|
  {
    if heads != [] {
      var n := |heads| - 1;
      HighestIs(heads[..n]);
      if n > 0 && Highest(heads[..n]) > heads[n] {
        var i :| 0 <= i < n && heads[..n][i] == Highest(heads[..n]);
        assert heads[i] == Highest(heads);
      } else {
        assert heads[n] == Highest(heads);
      }
    }
  }
}
