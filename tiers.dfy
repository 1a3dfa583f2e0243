/**
 * Ordering by a three-valued tier: what a stable sort does with a comparator that only
 * compares a tier of 0, 1 or 2. The elements of tier 0 come first, then those of tier 1,
 * then those of tier 2, each group in its original order.
 */
module Tiers {
  import opened Seqs

  type TierIndex = k: nat | k <= 2

  function TierIs<T>(tier: T -> TierIndex, k: TierIndex): T -> bool {
    x => tier(x) == k
  }

  /** The elements of tier `k`, in their order. */
  function Group<T>(s: seq<T>, tier: T -> TierIndex, k: TierIndex): seq<T> {
    Filter(s, TierIs(tier, k))
  }

  /** The three groups one after the other. */
  function TierOrder<T>(s: seq<T>, tier: T -> TierIndex): seq<T> {
    Group(s, tier, 0) + Group(s, tier, 1) + Group(s, tier, 2)
  }

  /** The tier order is a permutation of its input. */
  lemma TierOrderPermutes<T>(s: seq<T>, tier: T -> TierIndex)
    ensures multiset(TierOrder(s, tier)) == multiset(s)
    ensures |TierOrder(s, tier)| == |s|
  {
    FilterPartition(s, TierIs(tier, 0), TierIs(tier, 1), TierIs(tier, 2));
    assert |TierOrder(s, tier)| == |multiset(TierOrder(s, tier))|;
  }

  lemma GroupTiers<T>(s: seq<T>, tier: T -> TierIndex, k: TierIndex)
    ensures forall i :: 0 <= i < |Group(s, tier, k)| ==> tier(Group(s, tier, k)[i]) == k
  {
    var g := Group(s, tier, k);
    forall i | 0 <= i < |g| ensures tier(g[i]) == k {
      assert g[i] in g;
      assert TierIs(tier, k)(g[i]);
    }
  }

  /** The tier of each position: group 0 first, then group 1, then group 2. */
  lemma TierAt<T>(s: seq<T>, tier: T -> TierIndex)
    ensures forall i :: 0 <= i < |TierOrder(s, tier)| ==>
      tier(TierOrder(s, tier)[i]) ==
        (if i < |Group(s, tier, 0)| then 0 else if i < |Group(s, tier, 0)| + |Group(s, tier, 1)| then 1 else 2)
  {
    var r := TierOrder(s, tier);
    var g0, g1, g2 := Group(s, tier, 0), Group(s, tier, 1), Group(s, tier, 2);
    GroupTiers(s, tier, 0);
    GroupTiers(s, tier, 1);
    GroupTiers(s, tier, 2);
    forall i | 0 <= i < |r|
      ensures tier(r[i]) == if i < |g0| then 0 else if i < |g0| + |g1| then 1 else 2
    {
      if i < |g0| { assert r[i] == g0[i]; }
      else if i < |g0| + |g1| { assert r[i] == g1[i - |g0|]; }
      else { assert r[i] == g2[i - |g0| - |g1|]; }
    }
  }

  /** The tier never decreases along `s`. */
  predicate TierSorted<T>(s: seq<T>, tier: T -> TierIndex) {
    forall i, j :: 0 <= i < j < |s| ==> tier(s[i]) <= tier(s[j])
  }

  /** Every element of `s` has a tier of at most `t`. */
  predicate TiersAtMost<T>(s: seq<T>, tier: T -> TierIndex, t: TierIndex) {
    forall k :: 0 <= k < |s| ==> tier(s[k]) <= t
  }

  /** Every element of `s` has a tier above `t`. */
  predicate TiersAbove<T>(s: seq<T>, tier: T -> TierIndex, t: TierIndex) {
    forall k :: 0 <= k < |s| ==> tier(s[k]) > t
  }

  /** The tier never decreases along the tier order. */
  lemma TierOrderSorted<T>(s: seq<T>, tier: T -> TierIndex)
    ensures TierSorted(TierOrder(s, tier), tier)
  {
    TierAt(s, tier);
  }

  lemma GroupOfGroup<T>(s: seq<T>, tier: T -> TierIndex, j: TierIndex, k: TierIndex)
    ensures Filter(Group(s, tier, j), TierIs(tier, k)) == if j == k then Group(s, tier, k) else []
  {
    var g := Group(s, tier, j);
    GroupTiers(s, tier, j);
    if j == k {
      FilterAll(g, TierIs(tier, k));
    } else {
      FilterEmpty(g, TierIs(tier, k));
    }
  }

  /** Elements of the same tier keep their order: the tier order is stable. */
  lemma TierOrderStable<T>(s: seq<T>, tier: T -> TierIndex, k: TierIndex)
    ensures Group(TierOrder(s, tier), tier, k) == Group(s, tier, k)
  {
    var g0, g1, g2 := Group(s, tier, 0), Group(s, tier, 1), Group(s, tier, 2);
    var p := TierIs(tier, k);
    FilterConcat(g0 + g1, g2, p);
    FilterConcat(g0, g1, p);
    var f0, f1, f2 := Filter(g0, p), Filter(g1, p), Filter(g2, p);
    assert Group(TierOrder(s, tier), tier, k) == f0 + f1 + f2;
    GroupOfGroup(s, tier, 0, k);
    GroupOfGroup(s, tier, 1, k);
    GroupOfGroup(s, tier, 2, k);
    if k == 0 {
      assert f0 == g0 && f1 == [] && f2 == [];
      assert f0 + f1 + f2 == g0;
    } else if k == 1 {
      assert f0 == [] && f1 == g1 && f2 == [];
      assert f0 + f1 + f2 == g1;
    } else {
      assert f0 == [] && f1 == [] && f2 == g2;
      assert f0 + f1 + f2 == g2;
    }
  }

  lemma GroupSnoc<T>(p: seq<T>, x: T, tier: T -> TierIndex, k: TierIndex)
    ensures Group(p + [x], tier, k) == Group(p, tier, k) + (if tier(x) == k then [x] else [])
  {
    FilterConcat(p, [x], TierIs(tier, k));
    FilterSingle(x, TierIs(tier, k));
  }

  /** `[s[k]]`, or nothing when `k` is out of range: the element at `k`, named without
      an indexing obligation. */
  function At<T>(s: seq<T>, k: int): seq<T> {
    if 0 <= k < |s| then [s[k]] else []
  }

  /** Where an element of tier `t` goes: behind every element of tier `t` or lower. */
  function Boundary<T>(p: seq<T>, tier: T -> TierIndex, t: TierIndex): nat {
    if t == 0 then |Group(p, tier, 0)|
    else if t == 1 then |Group(p, tier, 0)| + |Group(p, tier, 1)|
    else |TierOrder(p, tier)|
  }

  /** The only split of a tier order into a part of tiers up to `t` and a part of tiers
      above `t` is at the boundary of `t`. */
  lemma BoundaryUnique<T>(p: seq<T>, tier: T -> TierIndex, t: TierIndex, j: nat)
    requires j <= |TierOrder(p, tier)|
    requires forall k :: 0 <= k < j ==> tier(TierOrder(p, tier)[k]) <= t
    requires forall k :: j <= k < |TierOrder(p, tier)| ==> tier(TierOrder(p, tier)[k]) > t
    ensures j == Boundary(p, tier, t)
  {
    var s := TierOrder(p, tier);
    var n0, n1 := |Group(p, tier, 0)|, |Group(p, tier, 1)|;
    TierAt(p, tier);
    var b := Boundary(p, tier, t);
    if j < b {
      ghost var probe := At(s, j);
      assert false;
    } else if j > b {
      ghost var probe := At(s, b);
      assert false;
    }
  }

  /** Putting `x` at the boundary of its tier gives the tier order of the input with `x`
      appended. */
  lemma InsertStep<T>(p: seq<T>, x: T, tier: T -> TierIndex)
    ensures Boundary(p, tier, tier(x)) <= |TierOrder(p, tier)|
    ensures TierOrder(p + [x], tier) ==
      TierOrder(p, tier)[..Boundary(p, tier, tier(x))] + [x] + TierOrder(p, tier)[Boundary(p, tier, tier(x))..]
  {
    GroupSnoc(p, x, tier, 0);
    GroupSnoc(p, x, tier, 1);
    GroupSnoc(p, x, tier, 2);
    var g0, g1, g2 := Group(p, tier, 0), Group(p, tier, 1), Group(p, tier, 2);
    var h0, h1, h2 := Group(p + [x], tier, 0), Group(p + [x], tier, 1), Group(p + [x], tier, 2);
    if tier(x) == 0 {
      InsertStepSplit(g0, g1, g2, h0, h1, h2, x, 0);
    } else if tier(x) == 1 {
      InsertStepSplit(g0, g1, g2, h0, h1, h2, x, 1);
    } else {
      InsertStepSplit(g0, g1, g2, h0, h1, h2, x, 2);
    }
  }

  /** The sequence algebra of `InsertStep`: appending `x` to group `t` of three groups is
      putting it behind the groups up to `t`. */
  lemma InsertStepSplit<T>(g0: seq<T>, g1: seq<T>, g2: seq<T>, h0: seq<T>, h1: seq<T>, h2: seq<T>, x: T, t: TierIndex)
    requires h0 == g0 + (if t == 0 then [x] else [])
    requires h1 == g1 + (if t == 1 then [x] else [])
    requires h2 == g2 + (if t == 2 then [x] else [])
    ensures var s := g0 + g1 + g2;
      var j := if t == 0 then |g0| else if t == 1 then |g0| + |g1| else |s|;
      j <= |s| && h0 + h1 + h2 == s[..j] + [x] + s[j..]
  {
    var s := g0 + g1 + g2;
    if t == 0 {
      assert s[..|g0|] == g0 && s[|g0|..] == g1 + g2;
      assert g0 + [x] + g1 + g2 == g0 + [x] + (g1 + g2);
    } else if t == 1 {
      assert s[..|g0| + |g1|] == g0 + g1 && s[|g0| + |g1|..] == g2;
      assert g0 + (g1 + [x]) + g2 == (g0 + g1) + [x] + g2;
    } else {
      assert s[..|s|] == s && s[|s|..] == [];
      assert g0 + g1 + (g2 + [x]) == s + [x] + [];
    }
  }

  /** One step of the insertion sort: moves `a[i]` left past the elements before it of a
      higher tier, and reports where it ended up. */
  method InsertAt<T>(a: array<T>, i: nat, tier: T -> TierIndex) returns (j: nat)
    requires i < a.Length
    requires TierSorted(a[..i], tier)
    modifies a
    ensures j <= i
    ensures TiersAtMost(old(a[..i])[..j], tier, tier(old(a[i])))
    ensures TiersAbove(old(a[..i])[j..], tier, tier(old(a[i])))
    ensures a[..i + 1] == old(a[..i])[..j] + [old(a[i])] + old(a[..i])[j..]
    ensures a[i + 1..] == old(a[i + 1..])
  {
    ghost var s := a[..i];
    var x := a[i];
    j := i;
    while j > 0 && tier(a[j - 1]) > tier(x)
      invariant 0 <= j <= i
      invariant forall k :: 0 <= k < j ==> a[k] == s[k]
      invariant forall k :: j < k <= i ==> a[k] == s[k - 1]
      invariant forall k :: j <= k < i ==> tier(s[k]) > tier(x)
      invariant a[i + 1..] == old(a[i + 1..])
    {
      a[j] := a[j - 1];
      j := j - 1;
    }
    a[j] := x;
    assert TiersAtMost(s[..j], tier, tier(x)) by {
      forall k | 0 <= k < j ensures tier(s[..j][k]) <= tier(x) {
        assert s[..j][k] == s[k];
        assert tier(s[k]) <= tier(s[j - 1]);
      }
    }
    assert TiersAbove(s[j..], tier, tier(x)) by {
      forall k | 0 <= k < i - j ensures tier(s[j..][k]) > tier(x) {
        assert s[j..][k] == s[j + k];
      }
    }
    assert a[..i + 1] == s[..j] + [x] + s[j..] by {
      ghost var merged := s[..j] + [x] + s[j..];
      forall k | 0 <= k <= i ensures a[k] == merged[k] {
        if k < j { assert merged[k] == s[k]; }
        else if k > j { assert merged[k] == s[k - 1]; }
      }
    }
  }

  /** Inserting the next input element where `InsertAt` puts it extends the tier order of
      the prefix to the tier order of the longer prefix. */
  lemma SortStep<T>(input: seq<T>, i: nat, s: seq<T>, j: nat, tier: T -> TierIndex)
    requires i < |input| && s == TierOrder(input[..i], tier) && |s| == i && j <= i
    requires TiersAtMost(s[..j], tier, tier(input[i]))
    requires TiersAbove(s[j..], tier, tier(input[i]))
    ensures s[..j] + [input[i]] + s[j..] == TierOrder(input[..i + 1], tier)
  {
    var p := input[..i];
    forall k | 0 <= k < j ensures tier(s[k]) <= tier(input[i]) {
      assert s[..j][k] == s[k];
    }
    forall k | j <= k < i ensures tier(s[k]) > tier(input[i]) {
      assert s[j..][k - j] == s[k];
    }
    TierOrderPermutes(p, tier);
    BoundaryUnique(p, tier, tier(input[i]), j);
    InsertStep(p, input[i], tier);
    assert input[..i + 1] == p + [input[i]];
  }

  /** Sorts `a` in place by tier with an insertion sort: each element moves left past the
      elements of a higher tier only, so elements of one tier keep their order. */
  method SortByTier<T>(a: array<T>, tier: T -> TierIndex)
    modifies a
    ensures a[..] == TierOrder(old(a[..]), tier)
  {
    ghost var input := a[..];
    var i := 0;
    while i < a.Length
      invariant 0 <= i <= a.Length
      invariant a[..i] == TierOrder(input[..i], tier)
      invariant a[i..] == input[i..]
    {
      ghost var s := a[..i];
      ghost var rest := a[i + 1..];
      assert a[i] == input[i] && rest == input[i + 1..];
      assert TierSorted(a[..i], tier) by {
        TierOrderSorted(input[..i], tier);
      }
      var j := InsertAt(a, i, tier);
      assert a[..i + 1] == TierOrder(input[..i + 1], tier) by {
        assert a[..i + 1] == s[..j] + [input[i]] + s[j..];
        SortStep(input, i, s, j, tier);
      }
      assert a[i + 1..] == rest;
      i := i + 1;
    }
    assert a[..] == a[..a.Length] && input == input[..a.Length];
  }
}
