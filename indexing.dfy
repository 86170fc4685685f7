/** Index selections over sequences: the list comprehensions and `np.where`
    lookups that the test fixture and the classifier checks are built from. */
module Indexing {

  /** Every earlier element is strictly smaller than every later one:
      ascending and without repetition. */
  ghost predicate StrictlyIncreasing(s: seq<nat>) {
    forall i, j :: 0 <= i < j < |s| ==> s[i] < s[j]
  }

  /** The ascending positions `i` of `xs` with `p(xs[i])`, that is
      `[i for i, x in enumerate(xs) if p(x)]`. */
  function Select<T>(xs: seq<T>, p: T -> bool): (r: seq<nat>)
    ensures |r| <= |xs|
    ensures forall k :: 0 <= k < |r| ==> r[k] < |xs| && p(xs[r[k]])
    ensures forall i: nat :: i in r <==> i < |xs| && p(xs[i])
    ensures StrictlyIncreasing(r)
    decreases |xs|
  {
    if |xs| == 0 then []
    else
      var init := Select(xs[..|xs| - 1], p);
      init + (if p(xs[|xs| - 1]) then [|xs| - 1] else [])
  }

  /** A strictly increasing sequence has as many distinct elements as entries. */
  lemma {:induction false} DistinctCount(s: seq<nat>)
    requires StrictlyIncreasing(s)
    ensures |set x: nat | x in s| == |s|
  {
    if |s| > 0 {
      var init, last := s[..|s| - 1], s[|s| - 1];
      DistinctCount(init);
      var before := set x: nat | x in init;
      assert last !in before;
      assert (set x: nat | x in s) == before + {last};
      assert |before + {last}| == |before| + 1;
    }
  }

  /** The first position of `x` in `s`: `np.where(s == x)[0][0]`. */
  function IndexOf(s: seq<nat>, x: nat): (k: nat)
    requires x in s
    ensures k < |s| && s[k] == x
    ensures forall j :: 0 <= j < k ==> s[j] != x
  {
    if s[0] == x then 0 else 1 + IndexOf(s[1..], x)
  }

  /** Two ascending, repetition-free sequences with the same elements are equal. */
  /** The tail of a strictly increasing sequence holds every member but the
      first, and is itself strictly increasing. */
  lemma TailMembers(a: seq<nat>)
    requires StrictlyIncreasing(a) && |a| > 0
    ensures StrictlyIncreasing(a[1..])
    ensures forall x :: x in a[1..] <==> x in a && x != a[0]
  {
    forall x | x in a && x != a[0]
      ensures x in a[1..]
    {
      var k :| 0 <= k < |a| && a[k] == x;
      assert a[1..][k - 1] == x;
    }
  }

  /** Two strictly increasing sequences with the same members start with the
      same element: the least member. */
  lemma HeadsAgree(a: seq<nat>, b: seq<nat>)
    requires StrictlyIncreasing(a) && StrictlyIncreasing(b)
    requires forall x :: x in a <==> x in b
    requires |a| > 0 || |b| > 0
    ensures |a| > 0 && |b| > 0 && a[0] == b[0]
  {
    assert |a| > 0 ==> a[0] in a;
    assert |b| > 0 ==> b[0] in b;
    assert a[0] in a;
    var j :| 0 <= j < |b| && b[j] == a[0];
    assert b[0] in b;
    var i :| 0 <= i < |a| && a[i] == b[0];
  }

  lemma {:induction false} SameMembersSameSequence(a: seq<nat>, b: seq<nat>)
    requires StrictlyIncreasing(a) && StrictlyIncreasing(b)
    requires forall x :: x in a <==> x in b
    ensures a == b
  {
    if |a| > 0 || |b| > 0 {
      HeadsAgree(a, b);
      TailMembers(a);
      TailMembers(b);
      SameMembersSameSequence(a[1..], b[1..]);
      assert a == [a[0]] + a[1..];
      assert b == [b[0]] + b[1..];
    }
  }
}
