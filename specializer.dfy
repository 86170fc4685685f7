/** The rate-type tags that `assign_rates` must attach to the "simple"
    reactions, one per reaction in the order of the "simple" mask, at each of
    the three specialization granularities. */
module Specializer {
  import opened Indexing
  import opened Mechanism
  import opened Classifier

  /** `RateSpecialization`: one uniform type, the three-way hybrid rule, or
      the five-way full rule. */
  datatype RateSpecialization = Fixed | Hybrid | Full

  /** `int(b) == b` for a finite exponent. */
  predicate IsIntegral(x: real) { x.Floor as real == x }

  /** The hybrid rule: 0 for a constant rate, 1 for an integer power of the
      temperature without an exponential, 2 for everything else. */
  function HybridType(r: Reaction): (t: nat)
    ensures t <= 2
    ensures t == 0 <==> r.activationEnergy == 0.0 && r.tempExponent == 0.0
    ensures t == 1 <==> r.activationEnergy == 0.0 && r.tempExponent != 0.0 && IsIntegral(r.tempExponent)
    ensures t == 2 <==> r.activationEnergy != 0.0 || !IsIntegral(r.tempExponent)
  {
    var ea, b := r.activationEnergy, r.tempExponent;
    if ea == 0.0 && b == 0.0 then 0
    else if ea == 0.0 && IsIntegral(b) then 1
    else 2
  }

  /** The full rule: 0 constant, 1 integer power without activation energy,
      2 non-integer power without activation energy, 3 activation energy
      without a temperature exponent, 4 both. */
  function FullType(r: Reaction): (t: nat)
    ensures t <= 4
    ensures t == 0 <==> r.activationEnergy == 0.0 && r.tempExponent == 0.0
    ensures t == 1 <==> r.activationEnergy == 0.0 && r.tempExponent != 0.0 && IsIntegral(r.tempExponent)
    ensures t == 2 <==> r.activationEnergy == 0.0 && !IsIntegral(r.tempExponent)
    ensures t == 3 <==> r.activationEnergy != 0.0 && r.tempExponent == 0.0
    ensures t == 4 <==> r.activationEnergy != 0.0 && r.tempExponent != 0.0
  {
    var ea, b := r.activationEnergy, r.tempExponent;
    if ea == 0.0 && b == 0.0 then 0
    else if ea == 0.0 && IsIntegral(b) then 1
    else if ea == 0.0 then 2
    else if b == 0.0 then 3
    else 4
  }

  /** The tag of one simple reaction at granularity `spec`. */
  function RateType(spec: RateSpecialization, r: Reaction): (t: nat)
    ensures spec == Fixed ==> t == 0
    ensures spec == Hybrid ==> t == HybridType(r) && t <= 2
    ensures spec == Full ==> t == FullType(r) && t <= 4
  {
    match spec
    case Fixed => 0
    case Hybrid => HybridType(r)
    case Full => FullType(r)
  }

  /** How the full tags merge into the hybrid ones: 0 and 1 stay, 2, 3 and 4
      become the general case 2. */
  function CollapseToHybrid(t: nat): nat {
    if t <= 1 then t else 2
  }

  /** The full type determines the hybrid type. */
  lemma FullRefinesHybrid(r: Reaction)
    ensures HybridType(r) == CollapseToHybrid(FullType(r))
  {
  }

  /** Refinement: two reactions the full rule puts together the hybrid rule
      puts together too, and both rules agree on which reactions are
      constant-rate (tag 0). */
  lemma GranularitiesNest(r1: Reaction, r2: Reaction)
    ensures FullType(r1) == FullType(r2) ==> HybridType(r1) == HybridType(r2)
    ensures FullType(r1) == 0 <==> HybridType(r1) == 0
  {
    FullRefinesHybrid(r1);
    FullRefinesHybrid(r2);
  }

  /** A reaction without activation energy and with exponent 2 is an integer
      power law under both rules; without either it is tag 0 under all. */
  lemma TypeExamples(r: Reaction)
    ensures r.activationEnergy == 0.0 && r.tempExponent == 2.0 ==> HybridType(r) == 1 && FullType(r) == 1
    ensures r.activationEnergy == 0.0 && r.tempExponent == 0.0 ==>
      forall spec :: RateType(spec, r) == 0
  {
  }

  /** The expected `result['simple']['type']` array: the loop over all
      reactions that appends a tag for every reaction that is neither PLOG
      nor Chebyshev. It has one entry per "simple" reaction, in the order of
      the "simple" mask (`Select(rs, IsSimple)`, see `Classifier.SimpleMaskIsSelection`). */
  method ReferenceRateTypes(rs: seq<Reaction>, spec: RateSpecialization) returns (types: seq<nat>)
    ensures |types| == |Select(rs, IsSimple)|
    ensures forall k :: 0 <= k < |types| ==> types[k] == RateType(spec, rs[Select(rs, IsSimple)[k]])
  {
    types := [];
    ghost var mask: seq<nat> := [];
    var i := 0;
    while i < |rs|
      invariant 0 <= i <= |rs|
      invariant StrictlyIncreasing(mask)
      invariant forall j: nat :: j in mask <==> j < i && IsSimple(rs[j])
      invariant |types| == |mask|
      invariant forall k :: 0 <= k < |mask| ==> mask[k] < i && types[k] == RateType(spec, rs[mask[k]])
    {
      if IsSimple(rs[i]) {
        types, mask := types + [RateType(spec, rs[i])], mask + [i];
      }
      i := i + 1;
    }
    SameMembersSameSequence(mask, Select(rs, IsSimple));
  }
}
