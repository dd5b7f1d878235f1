/**
 * The partition of a cluster's service ARNs into describe batches, done
 * in getServices by a loop over i <= len/N that stops once i*N reaches the
 * end and clamps each block's end to the length.
 */
module Batching {

  /** ceil(k / n) for a positive n. */
  function CeilDiv(k: nat, n: nat): nat
    requires n > 0
  {
    (k + n - 1) / n
  }

  function Min(a: int, b: int): int {
    if a <= b then a else b
  }

  /** The batches: consecutive blocks of n elements, the last one possibly shorter. */
  function Blocks<T>(s: seq<T>, n: nat): seq<seq<T>>
    requires n > 0
    decreases |s|
  {
    if |s| == 0 then []
    else if |s| <= n then [s]
    else [s[..n]] + Blocks(s[n..], n)
  }

  /** Concatenation of a sequence of sequences. */
  function Concat<T>(ss: seq<seq<T>>): seq<T>
    decreases |ss|
  {
    if ss == [] then [] else ss[0] + Concat(ss[1..])
  }

  /** Appending one more sequence at the end. */
  lemma {:induction false} ConcatSnoc<T>(ss: seq<seq<T>>, s: seq<T>)
    ensures Concat(ss + [s]) == Concat(ss) + s
    decreases |ss|
  {
    if ss == [] {
      assert [s][1..] == [];
      assert Concat([s]) == s + [];
    } else {
      assert (ss + [s])[1..] == ss[1..] + [s];
      ConcatSnoc(ss[1..], s);
    }
  }

  /** An element is in the concatenation exactly when it is in one of the parts. */
  lemma {:induction false} ConcatMembers<T>(ss: seq<seq<T>>, x: T)
    ensures x in Concat(ss) <==> exists i :: 0 <= i < |ss| && x in ss[i]
    decreases |ss|
  {
    if ss != [] {
      ConcatMembers(ss[1..], x);
      if x !in ss[0] && x !in Concat(ss[1..]) {
        forall i | 0 <= i < |ss| ensures x !in ss[i] {
          if i > 0 {
            assert ss[i] == ss[1..][i - 1];
          }
        }
      } else if x in Concat(ss[1..]) {
        var i :| 0 <= i < |ss[1..]| && x in ss[1..][i];
        assert ss[i + 1] == ss[1..][i];
      }
    }
  }

  /** Multiplying by a natural number keeps order. */
  lemma MulMonotone(a: nat, b: nat, n: nat)
    requires a <= b
    ensures a * n <= b * n
  {
    assert b * n == a * n + (b - a) * n;
  }

  /** One more multiple of n. */
  lemma MulSucc(i: nat, n: nat)
    ensures (i + 1) * n == i * n + n
  {
  }

  /** The quotient is the q with a == q*n + r for some 0 <= r < n. */
  lemma DivUnique(a: nat, n: nat, q: nat, r: nat)
    requires n > 0 && r < n && a == q * n + r
    ensures a / n == q
  {
    var q', r' := a / n, a % n;
    assert a == q' * n + r' && r' < n;
    if q' > q {
      MulMonotone(q + 1, q', n);
    } else if q' < q {
      MulMonotone(q' + 1, q, n);
    }
  }

  /** One more full block adds one to the ceiling. */
  lemma CeilDivStep(k: nat, n: nat)
    requires n > 0 && k > n
    ensures CeilDiv(k, n) == 1 + CeilDiv(k - n, n)
  {
    var x := k - n + n - 1;
    var q, r := x / n, x % n;
    assert x == q * n + r;
    assert (q + 1) * n == q * n + n;
    DivUnique(k + n - 1, n, q + 1, r);
  }

  /** There are ceil(K/N) blocks; in particular no elements give no blocks. */
  lemma {:induction false} BlocksCount<T>(s: seq<T>, n: nat)
    requires n > 0
    ensures |Blocks(s, n)| == CeilDiv(|s|, n)
    decreases |s|
  {
    if |s| == 0 {
      assert CeilDiv(0, n) == (n - 1) / n == 0;
    } else if |s| <= n {
      assert n <= |s| + n - 1 < 2 * n;
      assert CeilDiv(|s|, n) == 1;
    } else {
      BlocksCount(s[n..], n);
      CeilDivStep(|s|, n);
    }
  }

  /** The blocks cover the input exactly, in order. */
  lemma {:induction false} BlocksCover<T>(s: seq<T>, n: nat)
    requires n > 0
    ensures Concat(Blocks(s, n)) == s
    decreases |s|
  {
    if |s| == 0 {
    } else if |s| <= n {
      assert Concat([s]) == s + Concat([]);
    } else {
      var rest := Blocks(s[n..], n);
      BlocksCover(s[n..], n);
      assert ([s[..n]] + rest)[1..] == rest;
      assert s == s[..n] + s[n..];
    }
  }

  /** Every block holds between 1 and n elements, and every block but the last exactly n. */
  lemma {:induction false} BlocksSizes<T>(s: seq<T>, n: nat)
    requires n > 0
    ensures forall i :: 0 <= i < |Blocks(s, n)| ==> 0 < |Blocks(s, n)[i]| <= n
    ensures forall i :: 0 <= i < |Blocks(s, n)| - 1 ==> |Blocks(s, n)[i]| == n
    decreases |s|
  {
    if |s| > n {
      BlocksSizes(s[n..], n);
      assert forall i :: 1 <= i < |Blocks(s, n)| ==> Blocks(s, n)[i] == Blocks(s[n..], n)[i - 1];
    }
  }

  /** Block i is s[i*n .. min((i+1)*n, K)], the slice the source takes. */
  lemma {:induction false} BlockAt<T>(s: seq<T>, n: nat, i: nat)
    requires n > 0 && i < |Blocks(s, n)|
    ensures i * n < |s|
    ensures Blocks(s, n)[i] == s[i * n .. Min((i + 1) * n, |s|)]
    decreases i
  {
    if i > 0 {
      assert |s| > n;
      var rest := s[n..];
      BlockAt(rest, n, i - 1);
      MulSucc(i - 1, n);
      MulSucc(i, n);
      assert Blocks(s, n)[i] == Blocks(rest, n)[i - 1];
      var lo, hi := (i - 1) * n, Min(i * n, |rest|);
      assert n + lo == i * n && n + hi == Min((i + 1) * n, |s|);
      SliceOfSuffix(s, n, lo, hi);
    }
  }

  /** A slice of the suffix s[n..] is the slice of s shifted by n. */
  lemma SliceOfSuffix<T>(s: seq<T>, n: nat, lo: nat, hi: nat)
    requires n <= |s| && lo <= hi <= |s| - n
    ensures s[n..][lo..hi] == s[n + lo..n + hi]
  {
  }

  /** The blocks from position pos on: the slice up to pos+n (clamped), then the blocks after it. */
  lemma BlocksFrom<T>(s: seq<T>, n: nat, pos: nat)
    requires n > 0 && pos < |s|
    ensures Blocks(s[pos..], n) == [s[pos..Min(pos + n, |s|)]] + Blocks(s[Min(pos + n, |s|)..], n)
  {
    if pos + n < |s| {
      assert s[pos..][..n] == s[pos..pos + n];
      assert s[pos..][n..] == s[pos + n..];
    } else {
      assert s[pos..Min(pos + n, |s|)] == s[pos..];
      assert s[Min(pos + n, |s|)..] == [];
    }
  }

  /** Past the last block: once i exceeds K/n, i*n covers all K elements. */
  lemma PastLastBlock(k: nat, n: nat, i: nat)
    requires n > 0 && i > k / n
    ensures i * n >= k
  {
    var q := k / n;
    assert k == q * n + k % n;
    MulMonotone(q + 1, i, n);
    assert (q + 1) * n == q * n + n;
  }

  /**
   * The partition loop of getServices. It returns the blocks it dispatched,
   * in dispatch order, and `counter`, the number of results the join must
   * wait for.
   */
  method PartitionBlocks<T>(s: seq<T>, n: nat) returns (blocks: seq<seq<T>>, counter: nat)
    requires n > 0
    ensures blocks == Blocks(s, n)
    ensures counter == |blocks| == CeilDiv(|s|, n)
  {
    blocks := [];
    counter := 0;
    var i := 0;
    while i <= |s| / n
      invariant blocks + Blocks(s[Min(i * n, |s|)..], n) == Blocks(s, n)
      invariant counter == |blocks| == i
      invariant i * n < |s| + n
      decreases |s| / n + 1 - i
    {
      var pos := i * n;
      if pos >= |s| {
        break;
      }
      var end := pos + n;
      var block;
      if end > |s| {
        block := s[pos..];
      } else {
        block := s[pos..end];
      }
      BlocksFrom(s, n, pos);
      MulSucc(i, n);
      blocks := blocks + [block];
      counter := counter + 1;
      i := i + 1;
    }
    if i > |s| / n {
      PastLastBlock(|s|, n, i);
    }
    assert s[|s|..] == [];
    BlocksCount(s, n);
  }
}
