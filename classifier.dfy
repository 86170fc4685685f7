/** The category descriptors that `assign_rates` must return, as the test
    `test_assign_rates` checks them: for each of "simple", "plog" and "cheb"
    a count, an ascending mask of reaction indices, and a base offset that is
    present exactly when the mask is a run of consecutive indices. */
module Classifier {
  import opened Optional
  import opened Indexing
  import opened Mechanism

  datatype Descriptor = Descriptor(num: nat, mask: seq<nat>, offset: Option<nat>)

  datatype Classification = Classification(simple: Descriptor, plog: Descriptor, cheb: Descriptor)

  /** `np.all(np.diff(mask) == 1)`: every consecutive difference is one. */
  predicate UnitStride(mask: seq<nat>) {
    forall i :: 0 <= i < |mask| - 1 ==> mask[i + 1] == mask[i] + 1
  }

  /** The mask is the index range starting at its first element, so that
      entry `k` of the category is reaction `mask[0] + k`. */
  ghost predicate IsRun(mask: seq<nat>) {
    forall k :: 0 <= k < |mask| ==> mask[k] == mask[0] + k
  }

  lemma {:induction false} UnitStrideIsRun(mask: seq<nat>)
    ensures UnitStride(mask) <==> IsRun(mask)
  {
    if |mask| > 1 {
      var init := mask[..|mask| - 1];
      UnitStrideIsRun(init);
      assert UnitStride(mask) <==> UnitStride(init) && mask[|mask| - 1] == mask[|mask| - 2] + 1;
      assert IsRun(mask) <==> IsRun(init) && mask[|mask| - 1] == mask[0] + |mask| - 1;
    }
  }

  /** The base offset of a mask. An empty mask has none (a convention: the
      test never meets an empty category). */
  function Offset(mask: seq<nat>): (o: Option<nat>)
    ensures o.Some? <==> |mask| > 0 && IsRun(mask)
    ensures o.Some? ==> o.value == mask[0]
  {
    UnitStrideIsRun(mask);
    if |mask| > 0 && UnitStride(mask) then Some(mask[0]) else None
  }

  /** The descriptor of the reactions satisfying `p`. */
  function Describe(rs: seq<Reaction>, p: Reaction -> bool): (d: Descriptor)
    ensures d.num == |d.mask|
    ensures StrictlyIncreasing(d.mask)
    ensures forall i: nat :: i in d.mask <==> i < |rs| && p(rs[i])
    ensures d.offset.Some? <==> d.num > 0 && IsRun(d.mask)
    ensures d.offset.Some? ==> d.offset.value == d.mask[0]
  {
    var mask := Select(rs, p);
    Descriptor(|mask|, mask, Offset(mask))
  }

  /** PLOG and Chebyshev reactions get their own categories; every other
      reaction is "simple". */
  function Classify(rs: seq<Reaction>): (c: Classification)
    ensures c.simple.num + c.plog.num + c.cheb.num == |rs|
  {
    CategorySizes(rs);
    Classification(Describe(rs, IsSimple), Describe(rs, IsPlog), Describe(rs, IsChebyshev))
  }

  /** A descriptor's count is the size of any set holding exactly the entries
      of its mask. */
  lemma CountIsCardinality(d: Descriptor, members: set<nat>)
    requires d.num == |d.mask| && StrictlyIncreasing(d.mask)
    requires forall i: nat :: i in d.mask <==> i in members
    ensures d.num == |members|
  {
    DistinctCount(d.mask);
    assert (set x: nat | x in d.mask) == members;
  }

  /** A category's count is the number of reactions of that category. */
  lemma {:induction false} CategoryCounts(rs: seq<Reaction>)
    ensures Classify(rs).plog.num == |set i: nat | i < |rs| && IsPlog(rs[i])|
    ensures Classify(rs).cheb.num == |set i: nat | i < |rs| && IsChebyshev(rs[i])|
    ensures Classify(rs).simple.num == |set i: nat | i < |rs| && IsSimple(rs[i])|
  {
    var c := Classify(rs);
    CountIsCardinality(c.plog, set i: nat | i < |rs| && IsPlog(rs[i]));
    CountIsCardinality(c.cheb, set i: nat | i < |rs| && IsChebyshev(rs[i]));
    CountIsCardinality(c.simple, set i: nat | i < |rs| && IsSimple(rs[i]));
  }

  /** The "simple" descriptor's mask is the ascending list of the reactions
      that are neither PLOG nor Chebyshev, and its count is that list's
      length, which is the length of the expected type array. */
  lemma SimpleMaskIsSelection(rs: seq<Reaction>)
    ensures Classify(rs).simple.mask == Select(rs, IsSimple)
    ensures Classify(rs).simple.num == |Select(rs, IsSimple)|
  {
  }

  lemma {:induction false} CategorySizes(rs: seq<Reaction>)
    ensures |Select(rs, IsSimple)| + |Select(rs, IsPlog)| + |Select(rs, IsChebyshev)| == |rs|
  {
    if |rs| > 0 {
      CategorySizes(rs[..|rs| - 1]);
    }
  }

  /** Each reaction index lies in exactly one of the three category masks. */
  lemma {:induction false} CategoryOfIndex(rs: seq<Reaction>, i: nat)
    requires i < |rs|
    ensures var s, p, q := Describe(rs, IsSimple).mask, Describe(rs, IsPlog).mask, Describe(rs, IsChebyshev).mask;
      && (i in s || i in p || i in q)
      && !(i in s && i in p) && !(i in s && i in q) && !(i in p && i in q)
  {
    var r := rs[i];
    assert IsSimple(r) || IsPlog(r) || IsChebyshev(r);
    assert !(IsSimple(r) && IsPlog(r)) && !(IsSimple(r) && IsChebyshev(r)) && !(IsPlog(r) && IsChebyshev(r));
  }

  /** The three masks partition the reaction indices: each index lies in
      exactly one of them, none lies outside `0..|rs|-1`, and together they
      hold exactly `|rs|` entries, so no index is repeated. */
  lemma ClassifyPartitions(rs: seq<Reaction>)
    ensures var c := Classify(rs);
      && (forall i: nat :: i < |rs| ==> i in c.simple.mask || i in c.plog.mask || i in c.cheb.mask)
      && (forall i: nat :: i < |rs| ==> !(i in c.simple.mask && i in c.plog.mask))
      && (forall i: nat :: i < |rs| ==> !(i in c.simple.mask && i in c.cheb.mask))
      && (forall i: nat :: i < |rs| ==> !(i in c.plog.mask && i in c.cheb.mask))
      && c.simple.num + c.plog.num + c.cheb.num == |rs|
  {
    forall i: nat | i < |rs|
      ensures var s, p, q := Describe(rs, IsSimple).mask, Describe(rs, IsPlog).mask, Describe(rs, IsChebyshev).mask;
        && (i in s || i in p || i in q)
        && !(i in s && i in p) && !(i in s && i in q) && !(i in p && i in q)
    {
      CategoryOfIndex(rs, i);
    }
    CategorySizes(rs);
  }

  /** The rows `test_rate_constants` compares: the elementary reactions. */
  function CompareMask(rs: seq<Reaction>): (m: seq<nat>)
    ensures StrictlyIncreasing(m)
    ensures forall i: nat :: i in m <==> i < |rs| && rs[i].kind.Elementary?
  {
    Select(rs, IsElementary)
  }

  /** Every compared row is a "simple" reaction. */
  lemma CompareMaskWithinSimple(rs: seq<Reaction>)
    ensures forall i: nat :: i in CompareMask(rs) ==> i in Classify(rs).simple.mask
  {
  }

  lemma SingletonCategory(rs: seq<Reaction>, p: Reaction -> bool, k: nat)
    requires k < |rs| && p(rs[k])
    requires forall i: nat :: i < |rs| && i != k ==> !p(rs[i])
    ensures Describe(rs, p) == Descriptor(1, [k], Some(k))
  {
    SameMembersSameSequence(Describe(rs, p).mask, [k]);
  }

  /** A mechanism of an elementary, a PLOG and a Chebyshev reaction: each
      category holds its one reaction and is addressed by that offset. */
  lemma ThreeReactionExample(elem: Reaction, plog: Reaction, cheb: Reaction)
    requires elem.kind == Elementary && plog.kind == Plog && cheb.kind == Chebyshev
    ensures var c := Classify([elem, plog, cheb]);
      && c.simple == Descriptor(1, [0], Some(0))
      && c.plog == Descriptor(1, [1], Some(1))
      && c.cheb == Descriptor(1, [2], Some(2))
  {
    var rs := [elem, plog, cheb];
    SingletonCategory(rs, IsSimple, 0);
    SingletonCategory(rs, IsPlog, 1);
    SingletonCategory(rs, IsChebyshev, 2);
  }

  /** The "simple" expectation as `__tester` writes it (lines 71-73): the
      count and mask it compares against are those of the Chebyshev
      reactions. */
  function SimpleExpectationAsWritten(rs: seq<Reaction>): seq<nat> {
    Select(rs, IsChebyshev)
  }

  /** The check as written rejects the correct "simple" mask. */
  lemma SimpleExpectationAsWrittenRejects(elem: Reaction, plog: Reaction, cheb: Reaction)
    requires elem.kind == Elementary && plog.kind == Plog && cheb.kind == Chebyshev
    ensures SimpleExpectationAsWritten([elem, plog, cheb]) != Classify([elem, plog, cheb]).simple.mask
  {
    ThreeReactionExample(elem, plog, cheb);
    var rs := [elem, plog, cheb];
    assert 2 in SimpleExpectationAsWritten(rs);
  }
}
