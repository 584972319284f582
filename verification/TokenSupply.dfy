/**
 * The token overview: splitting each envelope's cap over its beneficiaries and accounting for the
 * whole supply (`build_allocation`, `build_envelope_allocations`, `envelope_info` and
 * `get_token_overview` of src/mock/data.rs). The random weights, the released amounts of allocations
 * in mid-vesting and the addresses are arbitrary inputs.
 */
module TokenSupply {
  import opened Ints
  import opened Arith
  import Vesting

  const TOTAL_SUPPLY: nat := 1_000_000_000 * 1_000_000_000_000
  const BLOCKS_PER_MONTH: nat := 432_000

  datatype EnvelopeId =
    | Teams | KoL | Private1 | Private2 | Public1 | Public2 | Public3 | Public4
    | Airdrop | CommunityRewards | Listing | ResearchDevelopment | Reserve

  datatype EnvelopeSpec = EnvelopeSpec(
    id: EnvelopeId, capBps: nat, upfrontPct: nat, cliffMonths: nat, vestingMonths: nat,
    allocationCount: nat, unique: bool)

  const SPECS: seq<EnvelopeSpec> := [
    EnvelopeSpec(Teams, 1_500, 0, 4, 24, 18, false),
    EnvelopeSpec(KoL, 150, 10, 3, 12, 14, false),
    EnvelopeSpec(Private1, 500, 15, 1, 12, 22, false),
    EnvelopeSpec(Private2, 500, 15, 1, 12, 28, false),
    EnvelopeSpec(Public1, 100, 25, 0, 6, 36, false),
    EnvelopeSpec(Public2, 100, 25, 0, 6, 42, false),
    EnvelopeSpec(Public3, 150, 30, 0, 4, 48, false),
    EnvelopeSpec(Public4, 150, 30, 0, 4, 54, false),
    EnvelopeSpec(Airdrop, 400, 100, 0, 0, 60, false),
    EnvelopeSpec(CommunityRewards, 2_500, 0, 0, 36, 32, false),
    EnvelopeSpec(Listing, 500, 100, 0, 0, 1, true),
    EnvelopeSpec(ResearchDevelopment, 1_200, 0, 6, 24, 8, false),
    EnvelopeSpec(Reserve, 2_250, 0, 6, 24, 1, true)
  ]

  function VariantIndex(id: EnvelopeId): nat {
    match id
    case Teams => 0 case KoL => 1 case Private1 => 2 case Private2 => 3
    case Public1 => 4 case Public2 => 5 case Public3 => 6 case Public4 => 7
    case Airdrop => 8 case CommunityRewards => 9 case Listing => 10
    case ResearchDevelopment => 11 case Reserve => 12
  }

  datatype Allocation = Allocation(
    id: nat, envelope: EnvelopeId, beneficiary: string, total: nat, upfront: nat, vestedTotal: nat,
    released: nat, startBlock: nat, claimableNow: nat, percentVested: nat)

  /** What the generator draws: weights, the released part in mid-vesting, and addresses. */
  datatype Draws = Draws(
    weights: EnvelopeId -> seq<nat>, released: nat -> nat, address: nat -> string, treasury: string)

  /** The weights of an envelope: one per beneficiary, not all zero, with a sum that fits a u64. */
  predicate ValidWeights(s: EnvelopeSpec, d: Draws) {
    !s.unique ==> |d.weights(s.id)| == Max(s.allocationCount, 1) && 0 < Sum(d.weights(s.id)) <= U64_MAX
  }

  function Sum(s: seq<nat>): nat {
    if s == [] then 0 else Sum(s[..|s| - 1]) + s[|s| - 1]
  }

  function Cap(s: EnvelopeSpec): nat { TOTAL_SUPPLY * s.capBps / 10_000 }

  /** 80% of the cap, floored. */
  function Target(s: EnvelopeSpec): nat { Cap(s) * 80 / 100 }

  // ---- splitting ----

  function Share(target: nat, weight: nat, sum: nat): nat
    requires 0 < sum
  {
    SatMul(target, weight, U128_MAX) / sum
  }

  function Shares(target: nat, weights: seq<nat>, sum: nat): seq<nat>
    requires 0 < sum
  {
    seq(|weights|, i requires 0 <= i < |weights| => Share(target, weights[i], sum))
  }

  /** Every beneficiary but the last gets its rounded share; the last one gets what remains. */
  function Amounts(target: nat, weights: seq<nat>): seq<nat>
    requires weights != [] && 0 < Sum(weights)
  {
    var front := Shares(target, weights[..|weights| - 1], Sum(weights));
    front + [SatSub(target, Min(Sum(front), U128_MAX))]
  }

  // ---- one allocation ----

  function Upfront(s: EnvelopeSpec, total: nat): nat { SatMul(total, s.upfrontPct, U128_MAX) / 100 }

  function BuildAllocation(s: EnvelopeSpec, head: nat, id: nat, beneficiary: string, total: nat, drawn: nat): Allocation {
    var upfront := Upfront(s, total);
    var vestedTotal := SatSub(total, upfront);
    var start, duration := s.cliffMonths * BLOCKS_PER_MONTH, s.vestingMonths * BLOCKS_PER_MONTH;
    var released :=
      if vestedTotal == 0 then 0
      else if head >= SatAdd(start, duration, U64_MAX) then vestedTotal
      else if head <= start then 0
      else drawn;
    Allocation(id, s.id, beneficiary, total, upfront, vestedTotal, released, start,
      Vesting.ClaimableAmount(head, start, vestedTotal, released, duration),
      if vestedTotal == 0 then 100 else Min(SatMul(released, 100, U128_MAX) / vestedTotal, 100))
  }

  // ---- one envelope ----

  function AllocationId(s: EnvelopeSpec, i: nat): nat {
    if s.unique then VariantIndex(s.id) * 100 else VariantIndex(s.id) * 100 + i + 1
  }

  function Totals(s: EnvelopeSpec, d: Draws): seq<nat>
    requires ValidWeights(s, d)
  {
    if s.unique then [Cap(s)] else Amounts(Target(s), d.weights(s.id))
  }

  function AllocationAt(s: EnvelopeSpec, head: nat, d: Draws, total: nat, i: nat): Allocation {
    var id := AllocationId(s, i);
    BuildAllocation(s, head, id, d.address(id), total, d.released(id))
  }

  function Allocations(s: EnvelopeSpec, head: nat, d: Draws): seq<Allocation>
    requires ValidWeights(s, d)
  {
    var totals := Totals(s, d);
    seq(|totals|, i requires 0 <= i < |totals| => AllocationAt(s, head, d, totals[i], i))
  }

  method BuildEnvelopeAllocations(s: EnvelopeSpec, head: nat, d: Draws) returns (out: seq<Allocation>)
    requires ValidWeights(s, d)
    ensures out == Allocations(s, head, d)
  {
    if s.unique {
      var id := VariantIndex(s.id) * 100;
      return [BuildAllocation(s, head, id, d.address(id), Cap(s), d.released(id))];
    }
    var target := Target(s);
    var weights := d.weights(s.id);
    var n := |weights|;
    var sumWeight := SumWeights(weights);
    hide BuildAllocation, Target, SatMul;
    out := [];
    var handedOut := 0;
    ghost var shares := Shares(target, weights[..n - 1], sumWeight);
    ghost var amounts := Amounts(target, weights);
    for i := 0 to n
      invariant |out| == i
      invariant i < n ==> handedOut == Min(Sum(shares[..i]), U128_MAX)
      invariant forall k :: 0 <= k < i ==> out[k] == AllocationAt(s, head, d, amounts[k], k)
    {
      var amount;
      if i + 1 == n {
        amount := SatSub(target, handedOut);
        assert shares[..i] == shares && amount == amounts[i];
      } else {
        var share := SatMul(target, weights[i], U128_MAX) / sumWeight;
        assert share == Share(target, weights[i], sumWeight) == shares[i] == amounts[i];
        assert shares[..i + 1][..i] == shares[..i];
        handedOut := SatAdd(handedOut, share, U128_MAX);
        amount := share;
      }
      var id := VariantIndex(s.id) * 100 + i + 1;
      out := out + [BuildAllocation(s, head, id, d.address(id), amount, d.released(id))];
    }
  }

  method SumWeights(weights: seq<nat>) returns (sum: nat)
    ensures sum == Sum(weights)
  {
    sum := 0;
    for i := 0 to |weights|
      invariant sum == Sum(weights[..i])
    {
      assert weights[..i + 1][..i] == weights[..i];
      sum := sum + weights[i];
    }
    assert weights[..|weights|] == weights;
  }

  // ---- the split is exact ----

  lemma ShareBounded(target: nat, weight: nat, sum: nat)
    requires 0 < sum
    ensures Share(target, weight, sum) * sum <= target * weight
    ensures target * weight <= U128_MAX ==> target * weight < Share(target, weight, sum) * sum + sum
  {
    DivFloor(SatMul(target, weight, U128_MAX), sum);
  }

  lemma BoundStep(before: nat, share: nat, sum: nat, target: nat, w: nat, weight: nat)
    requires before * sum <= target * w && share * sum <= target * weight
    ensures (before + share) * sum <= target * (w + weight)
  {
  }

  lemma {:induction false} SharesBounded(target: nat, weights: seq<nat>, sum: nat)
    requires 0 < sum
    ensures Sum(Shares(target, weights, sum)) * sum <= target * Sum(weights)
    decreases |weights|
  {
    hide Share;
    var shares := Shares(target, weights, sum);
    if weights != [] {
      var n := |weights| - 1;
      SharesBounded(target, weights[..n], sum);
      ShareBounded(target, weights[n], sum);
      assert shares[..n] == Shares(target, weights[..n], sum);
      BoundStep(Sum(shares[..n]), shares[n], sum, target, Sum(weights[..n]), weights[n]);
    }
  }

  lemma Cancel(a: nat, b: nat, d: nat)
    requires 0 < d && a * d <= b * d
    ensures a <= b
  {
    if b < a { MulMono(b + 1, a, d); }
  }

  lemma WithinTarget(shares: nat, target: nat, w: nat, sum: nat)
    requires 0 < sum && shares * sum <= target * w && w <= sum
    ensures shares <= target
  {
    MulMono(w, sum, target);
    Cancel(shares, target, sum);
  }

  lemma SharesWithinTarget(target: nat, weights: seq<nat>, sum: nat)
    requires 0 < sum && Sum(weights) <= sum
    ensures Sum(Shares(target, weights, sum)) <= target
  {
    hide Sum, Shares;
    SharesBounded(target, weights, sum);
    WithinTarget(Sum(Shares(target, weights, sum)), target, Sum(weights), sum);
  }

  /**
   * The amounts add up to the target exactly, whatever the weights: no rounding is lost, and the
   * subtraction for the last one never saturates.
   */
  lemma AmountsAddUp(target: nat, weights: seq<nat>)
    requires weights != [] && target <= U128_MAX && 0 < Sum(weights)
    ensures Sum(Amounts(target, weights)) == target
    ensures Sum(Shares(target, weights[..|weights| - 1], Sum(weights))) <= target
  {
    var n := |weights| - 1;
    SharesWithinTarget(target, weights[..n], Sum(weights));
    hide Shares;
    assert Amounts(target, weights)[..|Amounts(target, weights)| - 1] == Shares(target, weights[..n], Sum(weights));
  }

  /** Every amount but the last is within one planck of its proportional share. */
  lemma AmountIsProportional(target: nat, weights: seq<nat>, i: nat)
    requires i + 1 < |weights| && 0 < Sum(weights)
    requires target * weights[i] <= U128_MAX
    ensures var amount, sum := Amounts(target, weights)[i], Sum(weights);
      amount * sum <= target * weights[i] < amount * sum + sum
  {
    ShareBounded(target, weights[i], Sum(weights));
  }

  /** The generator's weights never make the product saturate: they are below 1000. */
  lemma SmallWeightsFit(s: EnvelopeSpec, weight: nat)
    requires s.capBps <= 10_000 && weight <= 1_000
    ensures Target(s) * weight <= U128_MAX
  {
    var target := Target(s);
    assert Cap(s) <= TOTAL_SUPPLY;
    assert target <= TOTAL_SUPPLY;
    MulMono(target, TOTAL_SUPPLY, weight);
    MulMono(weight, 1_000, TOTAL_SUPPLY);
  }

  // ---- the whole supply ----

  function TotalOf(allocations: seq<Allocation>): nat {
    if allocations == [] then 0 else TotalOf(allocations[..|allocations| - 1]) + allocations[|allocations| - 1].total
  }

  /** What is still held under vesting. */
  function Held(a: Allocation): nat { SatSub(a.vestedTotal, a.released) }

  function HeldOf(allocations: seq<Allocation>): nat {
    if allocations == [] then 0 else HeldOf(allocations[..|allocations| - 1]) + Held(allocations[|allocations| - 1])
  }

  function HeldFor(allocations: seq<Allocation>, who: string): nat {
    if allocations == [] then 0
    else
      var a := allocations[|allocations| - 1];
      HeldFor(allocations[..|allocations| - 1], who) + if a.beneficiary == who then Held(a) else 0
  }

  ghost predicate Drawable(specs: seq<EnvelopeSpec>, d: Draws) {
    forall i :: 0 <= i < |specs| ==> ValidWeights(specs[i], d)
  }

  /** The allocations of a list of envelopes, one envelope after the other. */
  ghost function AllAllocations(specs: seq<EnvelopeSpec>, head: nat, d: Draws): seq<Allocation>
    requires Drawable(specs, d)
  {
    if specs == [] then []
    else AllAllocations(specs[..|specs| - 1], head, d) + Allocations(specs[|specs| - 1], head, d)
  }

  function CapsOf(specs: seq<EnvelopeSpec>): nat {
    if specs == [] then 0 else CapsOf(specs[..|specs| - 1]) + Cap(specs[|specs| - 1])
  }

  /** What an envelope keeps: nothing if it has one beneficiary, else the cap less the target. */
  function ReserveOf(s: EnvelopeSpec): nat {
    if s.unique then 0 else SatSub(Cap(s), Target(s))
  }

  function ReservesOf(specs: seq<EnvelopeSpec>): nat {
    if specs == [] then 0 else ReservesOf(specs[..|specs| - 1]) + ReserveOf(specs[|specs| - 1])
  }

  // ---- sums over allocations ----

  lemma {:induction false} SumsConcat(a: seq<Allocation>, b: seq<Allocation>, who: string)
    ensures HeldOf(a + b) == HeldOf(a) + HeldOf(b)
    ensures HeldFor(a + b, who) == HeldFor(a, who) + HeldFor(b, who)
    decreases |b|
  {
    if b == [] {
      assert a + b == a;
    } else {
      assert (a + b)[..|a + b| - 1] == a + b[..|b| - 1];
      SumsConcat(a, b[..|b| - 1], who);
    }
  }

  /** What one allocation holds: what vests and is not released, for its beneficiary alone. */
  lemma HeldOne(a: Allocation, who: string)
    requires a.released <= a.vestedTotal
    ensures HeldOf([a]) == a.vestedTotal - a.released
    ensures HeldFor([a], who) == if a.beneficiary == who then a.vestedTotal - a.released else 0
    ensures TotalOf([a]) == a.total
  {
    assert [a][..0] == [];
  }

  lemma {:induction false} HeldWithinTotal(allocations: seq<Allocation>, who: string)
    requires forall i :: 0 <= i < |allocations| ==> Held(allocations[i]) <= allocations[i].total
    ensures HeldFor(allocations, who) <= HeldOf(allocations) <= TotalOf(allocations)
    decreases |allocations|
  {
    if allocations != [] { HeldWithinTotal(allocations[..|allocations| - 1], who); }
  }

  lemma {:induction false} SumPrefix(allocations: seq<Allocation>, i: nat, who: string)
    requires i <= |allocations|
    ensures HeldOf(allocations[..i]) <= HeldOf(allocations)
    ensures HeldFor(allocations[..i], who) <= HeldFor(allocations, who)
  {
    assert allocations == allocations[..i] + allocations[i..];
    SumsConcat(allocations[..i], allocations[i..], who);
  }

  lemma {:induction false} TotalIsSum(allocations: seq<Allocation>, totals: seq<nat>)
    requires |allocations| == |totals| && forall i :: 0 <= i < |totals| ==> allocations[i].total == totals[i]
    ensures TotalOf(allocations) == Sum(totals)
    decreases |totals|
  {
    if totals != [] { TotalIsSum(allocations[..|totals| - 1], totals[..|totals| - 1]); }
  }

  lemma TargetWithinCap(s: EnvelopeSpec)
    ensures Target(s) <= Cap(s)
  {
    Vesting.DivBound(Cap(s) * 80, Cap(s), 100);
  }

  /** An envelope is accounted for exactly: what it hands out and what it keeps make up its cap. */
  lemma EnvelopeAddsUp(s: EnvelopeSpec, head: nat, d: Draws)
    requires ValidWeights(s, d) && Cap(s) <= U128_MAX
    ensures TotalOf(Allocations(s, head, d)) + ReserveOf(s) == Cap(s)
    ensures TotalOf(Allocations(s, head, d)) == if s.unique then Cap(s) else Target(s)
    ensures HeldFor(Allocations(s, head, d), d.treasury) <= HeldOf(Allocations(s, head, d)) <= TotalOf(Allocations(s, head, d))
  {
    var allocations := Allocations(s, head, d);
    TargetWithinCap(s);
    if s.unique {
      assert Totals(s, d)[..0] == [];
    } else {
      AmountsAddUp(Target(s), d.weights(s.id));
    }
    TotalIsSum(allocations, Totals(s, d));
    HeldWithinTotal(allocations, d.treasury);
  }

  // ---- the overview ----

  datatype Overview = Overview(locked: nat, envelopeReserves: nat, circulating: nat, treasuryLocked: nat)

  /** The inner loop: adds one envelope's allocations to the running sums. */
  method AddEnvelope(allocations: seq<Allocation>, treasury: string, locked0: nat, treasuryLocked0: nat)
    returns (locked: nat, treasuryLocked: nat, distributed: nat)
    requires locked0 + HeldOf(allocations) <= U128_MAX
    requires treasuryLocked0 + HeldFor(allocations, treasury) <= U128_MAX
    ensures locked == locked0 + HeldOf(allocations)
    ensures treasuryLocked == treasuryLocked0 + HeldFor(allocations, treasury)
    ensures distributed == TotalOf(allocations)
  {
    locked, treasuryLocked, distributed := locked0, treasuryLocked0, 0;
    for i := 0 to |allocations|
      invariant locked == locked0 + HeldOf(allocations[..i])
      invariant treasuryLocked == treasuryLocked0 + HeldFor(allocations[..i], treasury)
      invariant distributed == TotalOf(allocations[..i])
    {
      assert allocations[..i + 1][..i] == allocations[..i];
      SumPrefix(allocations, i + 1, treasury);
      var a := allocations[i];
      var held := SatSub(a.vestedTotal, a.released);
      locked := SatAdd(locked, held, U128_MAX);
      if a.beneficiary == treasury { treasuryLocked := SatAdd(treasuryLocked, held, U128_MAX); }
      distributed := distributed + a.total;
    }
    assert allocations[..|allocations|] == allocations;
  }

  lemma {:induction false} CapsPrefix(specs: seq<EnvelopeSpec>, e: nat)
    requires e <= |specs|
    ensures CapsOf(specs[..e]) <= CapsOf(specs)
    decreases |specs|
  {
    if e == |specs| {
      assert specs[..e] == specs;
    } else {
      assert specs[..|specs| - 1][..e] == specs[..e];
      CapsPrefix(specs[..|specs| - 1], e);
    }
  }

  /**
   * The overview of any list of envelopes whose caps fit the supply: circulating, locked and reserves
   * make up the whole supply, whatever has been released.
   */
  method OverviewOf(specs: seq<EnvelopeSpec>, head: nat, d: Draws) returns (o: Overview)
    requires Drawable(specs, d) && CapsOf(specs) <= TOTAL_SUPPLY
    ensures o.locked == HeldOf(AllAllocations(specs, head, d))
    ensures o.treasuryLocked == HeldFor(AllAllocations(specs, head, d), d.treasury)
    ensures o.envelopeReserves == ReservesOf(specs)
    ensures o.circulating + o.locked + o.envelopeReserves == TOTAL_SUPPLY
  {
    hide Allocations, Cap, ReserveOf, ValidWeights;
    var locked, reserves, treasury: nat := 0, 0, 0;
    for e := 0 to |specs|
      invariant locked == HeldOf(AllAllocations(specs[..e], head, d))
      invariant treasury == HeldFor(AllAllocations(specs[..e], head, d), d.treasury)
      invariant reserves == ReservesOf(specs[..e])
      invariant treasury <= locked && locked + reserves <= CapsOf(specs[..e])
    {
      var spec := specs[e];
      assert specs[..e + 1][..e] == specs[..e];
      CapsPrefix(specs, e + 1);
      var allocations := BuildEnvelopeAllocations(spec, head, d);
      EnvelopeAddsUp(spec, head, d);
      SumsConcat(AllAllocations(specs[..e], head, d), allocations, d.treasury);
      var distributed;
      locked, treasury, distributed := AddEnvelope(allocations, d.treasury, locked, treasury);
      reserves := SatAdd(reserves, SatSub(Cap(spec), distributed), U128_MAX);
    }
    assert specs[..|specs|] == specs;
    o := Overview(locked, reserves, SatSub(SatSub(TOTAL_SUPPLY, locked), reserves), treasury);
  }

  // ---- the thirteen envelopes ----

  lemma CapOf(s: EnvelopeSpec)
    ensures Cap(s) == 100_000_000_000_000_000 * s.capBps
    ensures ReserveOf(s) == if s.unique then 0 else 20_000_000_000_000_000 * s.capBps
  {
    DivUnique(TOTAL_SUPPLY * s.capBps, 10_000, 100_000_000_000_000_000 * s.capBps);
    DivUnique(Cap(s) * 80, 100, 80_000_000_000_000_000 * s.capBps);
  }

  function BpsOf(specs: seq<EnvelopeSpec>): nat {
    if specs == [] then 0 else BpsOf(specs[..|specs| - 1]) + specs[|specs| - 1].capBps
  }

  function SharedBpsOf(specs: seq<EnvelopeSpec>): nat {
    if specs == [] then 0
    else SharedBpsOf(specs[..|specs| - 1]) + if specs[|specs| - 1].unique then 0 else specs[|specs| - 1].capBps
  }

  lemma {:induction false} CapsFromBps(specs: seq<EnvelopeSpec>)
    ensures CapsOf(specs) == 100_000_000_000_000_000 * BpsOf(specs)
    ensures ReservesOf(specs) == 20_000_000_000_000_000 * SharedBpsOf(specs)
    decreases |specs|
  {
    if specs != [] {
      CapsFromBps(specs[..|specs| - 1]);
      CapOf(specs[|specs| - 1]);
    }
  }

  lemma BpsStep(specs: seq<EnvelopeSpec>, e: nat)
    requires e < |specs|
    ensures BpsOf(specs[..e + 1]) == BpsOf(specs[..e]) + specs[e].capBps
    ensures SharedBpsOf(specs[..e + 1]) == SharedBpsOf(specs[..e]) + if specs[e].unique then 0 else specs[e].capBps
  {
    assert specs[..e + 1][..e] == specs[..e];
  }

  lemma SpecsBps()
    ensures BpsOf(SPECS) == 10_000 && SharedBpsOf(SPECS) == 7_250
  {
    var specs := SPECS;
    assert specs[..0] == [] && specs[..13] == specs;
    assert specs[0].capBps + specs[1].capBps + specs[2].capBps + specs[3].capBps == 2_650;
    assert BpsOf(specs[..0]) == 0 && SharedBpsOf(specs[..0]) == 0;
    hide BpsOf, SharedBpsOf;
    BpsStep(specs, 0);
    BpsStep(specs, 1);
    BpsStep(specs, 2);
    BpsStep(specs, 3);
    BpsStep(specs, 4);
    BpsStep(specs, 5);
    BpsStep(specs, 6);
    BpsStep(specs, 7);
    BpsStep(specs, 8);
    BpsStep(specs, 9);
    BpsStep(specs, 10);
    BpsStep(specs, 11);
    BpsStep(specs, 12);
  }

  /** The caps are the whole supply, and the shared envelopes keep 145 million tokens of it. */
  lemma SpecsAddUp()
    ensures CapsOf(SPECS) == TOTAL_SUPPLY
    ensures ReservesOf(SPECS) == 145_000_000 * 1_000_000_000_000
  {
    SpecsBps();
    CapsFromBps(SPECS);
  }

  /** The upfront part is the floored percentage. */
  lemma UpfrontIs(s: EnvelopeSpec, total: nat)
    requires s.capBps <= 10_000 && s.upfrontPct <= 100 && total <= Cap(s)
    ensures Upfront(s, total) * 100 <= total * s.upfrontPct < Upfront(s, total) * 100 + 100
    ensures Upfront(s, total) <= total
  {
    CapOf(s);
    MulMono(s.upfrontPct, 100, total);
    DivFloor(total * s.upfrontPct, 100);
    Vesting.DivBound(total * s.upfrontPct, total, 100);
  }

  lemma AllPercent(amount: nat)
    requires 0 < amount && amount * 100 <= U128_MAX
    ensures Min(SatMul(amount, 100, U128_MAX) / amount, 100) == 100
  {
    DivUnique(amount * 100, amount, 100);
  }

  /** What every allocation of these envelopes is made of, at any head. */
  lemma AllocationParts(s: EnvelopeSpec, head: nat, id: nat, who: string, total: nat, drawn: nat)
    requires s.capBps <= 10_000 && s.upfrontPct <= 100 && total <= Cap(s)
    ensures var a := BuildAllocation(s, head, id, who, total, drawn);
      && a.id == id && a.envelope == s.id && a.beneficiary == who && a.total == total
      && a.upfront * 100 <= total * s.upfrontPct < a.upfront * 100 + 100
      && a.upfront + a.vestedTotal == total
      && a.startBlock == s.cliffMonths * 432_000
      && (a.vestedTotal == 0 ==> a.released == 0 && a.claimableNow == 0 && a.percentVested == 100)
  {
    UpfrontIs(s, total);
    hide Upfront, Cap;
  }

  /**
   * An allocation with something to vest, over its life: nothing is released up to the cliff, everything from
   * the end on, and in between what the generator drew, the rest of the exact floored schedule being
   * claimable.
   */
  lemma AllocationLife(s: EnvelopeSpec, head: nat, id: nat, who: string, total: nat, drawn: nat)
    requires s.capBps <= 10_000 && s.upfrontPct <= 100 && s.cliffMonths <= 1_000 && 0 < s.vestingMonths <= 36
    requires total <= Cap(s) && BuildAllocation(s, head, id, who, total, drawn).vestedTotal > 0
    ensures var a := BuildAllocation(s, head, id, who, total, drawn);
      var start, end := s.cliffMonths * 432_000, (s.cliffMonths + s.vestingMonths) * 432_000;
      && (head <= start ==> a.released == 0 && a.claimableNow == 0 && a.percentVested == 0)
      && (head >= end ==> a.released == a.vestedTotal && a.claimableNow == 0 && a.percentVested == 100)
      && (start < head < end ==>
            && a.released == drawn
            && a.claimableNow == Max(a.vestedTotal * (head - start) / (s.vestingMonths * 432_000) - drawn, 0)
            && (drawn * 100 <= U128_MAX ==> a.percentVested == Min(drawn * 100 / a.vestedTotal, 100)))
  {
    var start, end := s.cliffMonths * 432_000, (s.cliffMonths + s.vestingMonths) * 432_000;
    var vested := SatSub(total, Upfront(s, total));
    CapOf(s);
    if start < head < end { NoAllocationSaturates(s, total, head - start); }
    hide Upfront, Cap;
    assert vested * 100 <= U128_MAX;
    if head >= end { AllPercent(vested); }
  }

  /** Ids number the allocations envelope by envelope, a hundred apart, and name their beneficiary. */
  lemma AllocationIds(e: nat, head: nat, d: Draws, i: nat)
    requires e < |SPECS| && ValidWeights(SPECS[e], d) && i < |Allocations(SPECS[e], head, d)|
    ensures var a := Allocations(SPECS[e], head, d)[i];
      && a.id == 100 * e + (if SPECS[e].unique then 0 else i + 1)
      && 100 * e <= a.id < 100 * e + 100
      && a.beneficiary == d.address(a.id)
  {
    VariantIsPlace(e);
    hide BuildAllocation, ValidWeights;
    assert Allocations(SPECS[e], head, d)[i] == AllocationAt(SPECS[e], head, d, Totals(SPECS[e], d)[i], i);
    BuiltFor(SPECS[e], head, AllocationId(SPECS[e], i), d.address(AllocationId(SPECS[e], i)), Totals(SPECS[e], d)[i],
             d.released(AllocationId(SPECS[e], i)));
    assert SPECS[e].allocationCount <= 60 by { CountsSmall(e); }
    assert |Totals(SPECS[e], d)| <= 60 by { TotalsCount(SPECS[e], d); }
  }

  lemma VariantIsPlace(e: nat)
    requires e < |SPECS|
    ensures VariantIndex(SPECS[e].id) == e
  {
  }

  lemma CountsSmall(e: nat)
    requires e < |SPECS|
    ensures 0 < SPECS[e].allocationCount <= 60
  {
  }

  lemma TotalsCount(s: EnvelopeSpec, d: Draws)
    requires ValidWeights(s, d)
    ensures |Totals(s, d)| == if s.unique then 1 else Max(s.allocationCount, 1)
  {
  }

  lemma BuiltFor(s: EnvelopeSpec, head: nat, id: nat, who: string, total: nat, drawn: nat)
    ensures var a := BuildAllocation(s, head, id, who, total, drawn); a.id == id && a.beneficiary == who && a.total == total
  {
  }

  /** From the end of its schedule on an envelope holds nothing. */
  predicate Ended(s: EnvelopeSpec, head: nat) {
    head >= SatAdd(s.cliffMonths * BLOCKS_PER_MONTH, s.vestingMonths * BLOCKS_PER_MONTH, U64_MAX)
  }

  lemma EndedHoldsNothing(s: EnvelopeSpec, head: nat, d: Draws)
    requires ValidWeights(s, d) && Ended(s, head)
    ensures HeldOf(Allocations(s, head, d)) == 0
  {
    hide Totals, Vesting.ClaimableAmount, Upfront;
    NoneHeld(Allocations(s, head, d));
  }

  lemma {:induction false} NothingHeld(specs: seq<EnvelopeSpec>, head: nat, d: Draws)
    requires Drawable(specs, d) && forall i :: 0 <= i < |specs| ==> Ended(specs[i], head)
    ensures HeldOf(AllAllocations(specs, head, d)) == 0
    decreases |specs|
  {
    hide ValidWeights, Ended, Allocations;
    if specs != [] {
      var n := |specs| - 1;
      NothingHeld(specs[..n], head, d);
      SumsConcat(AllAllocations(specs[..n], head, d), Allocations(specs[n], head, d), "");
      EndedHoldsNothing(specs[n], head, d);
    }
  }

  lemma {:induction false} NoneHeld(allocations: seq<Allocation>)
    requires forall i :: 0 <= i < |allocations| ==> Held(allocations[i]) == 0
    ensures HeldOf(allocations) == 0
    decreases |allocations|
  {
    if allocations != [] { NoneHeld(allocations[..|allocations| - 1]); }
  }

  /** Supply conservation for the real envelopes, at any head; after 36 months nothing is locked any more. */
  method GetTokenOverview(head: nat, d: Draws) returns (o: Overview)
    requires Drawable(SPECS, d)
    ensures o.locked == HeldOf(AllAllocations(SPECS, head, d))
    ensures o.treasuryLocked == HeldFor(AllAllocations(SPECS, head, d), d.treasury)
    ensures o.envelopeReserves == 145_000_000 * 1_000_000_000_000
    ensures o.circulating + o.locked + o.envelopeReserves == TOTAL_SUPPLY
    ensures head >= 36 * 432_000 ==> o.locked == 0 && o.circulating == 855_000_000 * 1_000_000_000_000
  {
    SpecsAddUp();
    o := OverviewOf(SPECS, head, d);
    if head >= 36 * 432_000 {
      SpecsEndBy36(head);
      NothingHeld(SPECS, head, d);
    }
  }

  lemma SpecsEndBy36(head: nat)
    requires head >= 36 * 432_000
    ensures forall i :: 0 <= i < |SPECS| ==> Ended(SPECS[i], head)
  {
    assert forall i :: 0 <= i < |SPECS| ==> SPECS[i].cliffMonths + SPECS[i].vestingMonths <= 36;
  }

  /** No allocation of these envelopes ever saturates its vesting: the schedule is the exact floor. */
  lemma NoAllocationSaturates(s: EnvelopeSpec, total: nat, elapsed: nat)
    requires s.capBps <= 10_000 && s.vestingMonths <= 36 && total <= Cap(s)
    requires elapsed < s.vestingMonths * BLOCKS_PER_MONTH
    ensures SatSub(total, Upfront(s, total)) * elapsed <= U128_MAX
  {
    CapOf(s);
    var vested := SatSub(total, Upfront(s, total));
    MulMono(vested, TOTAL_SUPPLY, elapsed);
    MulMono(elapsed, 36 * BLOCKS_PER_MONTH, TOTAL_SUPPLY);
  }
}
