/**
 * Arrival orders: the concurrent describe tasks of one cluster deliver
 * their results on one channel in an order nobody controls. An arrival
 * order of n tasks is any arrangement of the indices 0 .. n-1.
 */
module Arrival {

  /** The indices 0, 1, ..., n-1 in order. */
  function Range(n: nat): seq<nat> {
    seq(n, i => i)
  }

  /** `p` lists every one of the n task indices exactly once. */
  predicate IsArrivalOrder(p: seq<nat>, n: nat) {
    multiset(p) == multiset(Range(n))
  }

  /** Every entry of `p` is an index below n. */
  predicate IndicesBelow(p: seq<nat>, n: nat) {
    forall i :: 0 <= i < |p| ==> p[i] < n
  }

  /** Results reordered by `p`: the i-th to arrive is xs[p[i]]. */
  function Pick<T>(xs: seq<T>, p: seq<nat>): seq<T>
    requires IndicesBelow(p, |xs|)
  {
    if p == [] then [] else [xs[p[0]]] + Pick(xs, p[1..])
  }

  /** An arrival order of n tasks has n entries, each a valid task index. */
  lemma ArrivalOrderInRange(p: seq<nat>, n: nat)
    requires IsArrivalOrder(p, n)
    ensures |p| == n
    ensures IndicesBelow(p, n)
  {
    assert |p| == |multiset(p)| == |multiset(Range(n))| == |Range(n)|;
    forall i | 0 <= i < |p|
      ensures p[i] < n
    {
      assert p[i] in multiset(p);
      assert p[i] in Range(n);
    }
  }

  /** A sequence is what comes before position j, the element at j, and what comes after. */
  lemma SplitAt<T>(b: seq<T>, j: nat)
    requires j < |b|
    ensures b == b[..j] + ([b[j]] + b[j + 1..])
  {
    assert b[j..] == [b[j]] + b[j + 1..];
    assert b == b[..j] + b[j..];
  }

  /** Taking out the element at position j takes one copy of it out of the multiset. */
  lemma RemoveAt<T>(b: seq<T>, j: nat)
    requires j < |b|
    ensures multiset(b[..j] + b[j + 1..]) == multiset(b) - multiset{b[j]}
  {
    SplitAt(b, j);
    var left, right := b[..j], b[j + 1..];
    assert multiset(left + ([b[j]] + right)) == multiset(left) + multiset{b[j]} + multiset(right);
  }

  /** Reordering distributes over concatenation of the index lists. */
  lemma {:induction false} PickAppend<T>(xs: seq<T>, u: seq<nat>, v: seq<nat>)
    requires IndicesBelow(u, |xs|) && IndicesBelow(v, |xs|)
    ensures IndicesBelow(u + v, |xs|)
    ensures Pick(xs, u + v) == Pick(xs, u) + Pick(xs, v)
    decreases |u|
  {
    if u != [] {
      assert (u + v)[1..] == u[1..] + v;
      PickAppend(xs, u[1..], v);
    } else {
      assert u + v == v;
    }
  }

  /**
   * When a and b hold the same elements, the head of a sits somewhere in b,
   * and what is left of both after taking it out still agrees.
   */
  lemma MatchingPosition<T>(a: seq<T>, b: seq<T>) returns (j: nat)
    requires multiset(a) == multiset(b) && a != []
    ensures j < |b| && b[j] == a[0]
    ensures multiset(a[1..]) == multiset(b[..j] + b[j + 1..])
  {
    assert a[0] in multiset(b);
    j :| 0 <= j < |b| && b[j] == a[0];
    RemoveAt(b, j);
    assert a == [a[0]] + a[1..];
    assert multiset(a) == multiset{a[0]} + multiset(a[1..]);
  }

  /** Picking by b, where b[j] is x: the result holds xs[x] and the picks of the rest of b. */
  lemma PickWithout<T>(xs: seq<T>, b: seq<nat>, j: nat)
    requires IndicesBelow(b, |xs|) && j < |b|
    ensures IndicesBelow(b[..j] + b[j + 1..], |xs|)
    ensures multiset(Pick(xs, b)) == multiset{xs[b[j]]} + multiset(Pick(xs, b[..j] + b[j + 1..]))
  {
    var left, right := b[..j], b[j + 1..];
    SplitAt(b, j);
    PickAppend(xs, left, [b[j]] + right);
    PickAppend(xs, left, right);
    assert ([b[j]] + right)[1..] == right;
    var before, picked, after := Pick(xs, left), xs[b[j]], Pick(xs, right);
    assert Pick(xs, b) == before + ([picked] + after);
    assert multiset(before + ([picked] + after)) == multiset(before) + multiset{picked} + multiset(after);
  }

  /** Reordering by two index lists with the same elements gives results with the same elements. */
  lemma {:induction false} PickSameMultiset<T>(xs: seq<T>, a: seq<nat>, b: seq<nat>)
    requires IndicesBelow(a, |xs|) && IndicesBelow(b, |xs|)
    requires multiset(a) == multiset(b)
    ensures multiset(Pick(xs, a)) == multiset(Pick(xs, b))
    decreases |a|
  {
    if |a| == 0 {
      assert |b| == |multiset(b)| == 0;
    } else {
      var j := MatchingPosition(a, b);
      PickWithout(xs, b, j);
      PickSameMultiset(xs, a[1..], b[..j] + b[j + 1..]);
    }
  }

  /** Position i of a reordering is the result the i-th index names. */
  lemma {:induction false} PickAt<T>(xs: seq<T>, p: seq<nat>)
    requires IndicesBelow(p, |xs|)
    ensures |Pick(xs, p)| == |p|
    ensures forall i :: 0 <= i < |p| ==> Pick(xs, p)[i] == xs[p[i]]
    decreases |p|
  {
    if p != [] {
      PickAt(xs, p[1..]);
    }
  }

  /** Arrival in task order gives the results unchanged. */
  lemma PickIdentity<T>(xs: seq<T>)
    ensures IndicesBelow(Range(|xs|), |xs|)
    ensures Pick(xs, Range(|xs|)) == xs
  {
    PickAt(xs, Range(|xs|));
  }

  /** Whatever the arrival order, every result arrives exactly once. */
  lemma ArrivalIsPermutation<T>(xs: seq<T>, p: seq<nat>)
    requires IsArrivalOrder(p, |xs|)
    ensures IndicesBelow(p, |xs|)
    ensures |Pick(xs, p)| == |p| == |xs|
    ensures multiset(Pick(xs, p)) == multiset(xs)
  {
    ArrivalOrderInRange(p, |xs|);
    PickAt(xs, p);
    PickSameMultiset(xs, p, Range(|xs|));
    PickIdentity(xs);
  }
}
