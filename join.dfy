/**
 * The join of getServices: receive exactly `counter` batch results from
 * the channel, append each successful batch's services, and return at the
 * first error with what has been merged so far. The arrival order is
 * given as a sequence, which may be any order of the batches.
 */
module Join {
  import opened EcsTypes
  import opened Arrival

  /** The services a result adds to the merge: none for a failed batch. */
  function Contributed(r: BatchResult): seq<Service> {
    if r.BatchOk? then r.services else []
  }

  /** The services of a sequence of results, in order. */
  function Merged(rs: seq<BatchResult>): seq<Service>
    decreases |rs|
  {
    if rs == [] then [] else Contributed(rs[0]) + Merged(rs[1..])
  }

  /** The position of the first failed result, or |rs| when none failed. */
  function FirstFailure(rs: seq<BatchResult>): (k: nat)
    ensures k <= |rs|
    ensures forall j :: 0 <= j < k ==> rs[j].BatchOk?
    ensures k < |rs| ==> rs[k].BatchFailed?
    decreases |rs|
  {
    if rs == [] || rs[0].BatchFailed? then 0 else 1 + FirstFailure(rs[1..])
  }

  /**
   * What the join returns: all merged services when every result succeeded;
   * otherwise the services of the results before the first failure, with
   * that failure's error.
   */
  function Joined(rs: seq<BatchResult>): Fetched {
    var k := FirstFailure(rs);
    if k == |rs| then Fetched(Merged(rs), None)
    else Fetched(Merged(rs[..k]), Some(rs[k].error))
  }

  /** Merged distributes over concatenation. */
  lemma {:induction false} MergedAppend(a: seq<BatchResult>, b: seq<BatchResult>)
    ensures Merged(a + b) == Merged(a) + Merged(b)
    decreases |a|
  {
    if a == [] {
      assert a + b == b;
    } else {
      assert (a + b)[1..] == a[1..] + b;
      MergedAppend(a[1..], b);
    }
  }

  /** Merging one more successful result appends its services. */
  lemma MergedSnoc(rs: seq<BatchResult>, i: nat)
    requires i < |rs| && rs[i].BatchOk?
    ensures Merged(rs[..i + 1]) == Merged(rs[..i]) + rs[i].services
  {
    assert rs[..i + 1] == rs[..i] + [rs[i]];
    MergedAppend(rs[..i], [rs[i]]);
    assert [rs[i]][1..] == [];
  }

  /**
   * The join loop. `received` counts the results taken from the channel:
   * all `counter` of them, or up to and including the first failure.
   */
  method JoinResults(counter: nat, arrivals: seq<BatchResult>) returns (o: Fetched, received: nat)
    requires |arrivals| == counter
    ensures o == Joined(arrivals)
    ensures received == if o.err.None? then counter else FirstFailure(arrivals) + 1
  {
    var services: seq<Service> := [];
    received := 0;
    var i := 0;
    while i < counter
      invariant i <= counter && received == i
      invariant forall j :: 0 <= j < i ==> arrivals[j].BatchOk?
      invariant services == Merged(arrivals[..i])
    {
      var res := arrivals[i];
      received := received + 1;
      if res.BatchFailed? {
        return Fetched(services, Some(res.error)), received;
      }
      MergedSnoc(arrivals, i);
      services := services + res.services;
      i := i + 1;
    }
    assert arrivals[..counter] == arrivals;
    o := Fetched(services, None);
  }

  /** The join reports no error exactly when every batch succeeded. */
  lemma JoinedSucceedsIff(rs: seq<BatchResult>)
    ensures Joined(rs).err.None? <==> forall j :: 0 <= j < |rs| ==> rs[j].BatchOk?
    ensures Joined(rs).err.None? ==> Joined(rs).services == Merged(rs)
    ensures Joined(rs).err.Some? ==>
              exists k :: 0 <= k < |rs| && rs[k].BatchFailed? && Joined(rs).err.value == rs[k].error
  {
    var k := FirstFailure(rs);
    if k < |rs| {
      assert rs[k].BatchFailed?;
    }
  }

  /** Taking one result out of the middle of the merge. */
  lemma MergedWithout(b: seq<BatchResult>, j: nat)
    requires j < |b|
    ensures multiset(Merged(b)) == multiset(Contributed(b[j])) + multiset(Merged(b[..j] + b[j + 1..]))
  {
    var left, right := b[..j], b[j + 1..];
    var rest := [b[j]] + right;
    SplitAt(b, j);
    MergedAppend(left, rest);
    assert rest[1..] == right;
    MergedAppend(left, right);
    var before, removed, after := Merged(left), Contributed(b[j]), Merged(right);
    assert Merged(b) == before + (removed + after);
    assert multiset(before + (removed + after)) == multiset(before) + multiset(removed) + multiset(after);
  }

  /** The merged services do not depend on the order in which results arrive. */
  lemma {:induction false} MergedPermutation(a: seq<BatchResult>, b: seq<BatchResult>)
    requires multiset(a) == multiset(b)
    ensures multiset(Merged(a)) == multiset(Merged(b))
    decreases |a|
  {
    if a == [] {
      assert |b| == |multiset(b)| == 0;
    } else {
      var j := MatchingPosition(a, b);
      MergedWithout(b, j);
      MergedPermutation(a[1..], b[..j] + b[j + 1..]);
    }
  }

  /**
   * Whatever order the batches arrive in, the join fails or succeeds alike,
   * and on success it returns the same services, up to order.
   */
  lemma JoinedOrderInsensitive(a: seq<BatchResult>, b: seq<BatchResult>)
    requires multiset(a) == multiset(b)
    ensures Joined(a).err.None? <==> Joined(b).err.None?
    ensures Joined(a).err.None? ==> multiset(Joined(a).services) == multiset(Joined(b).services)
  {
    JoinedSucceedsIff(a);
    JoinedSucceedsIff(b);
    forall j | 0 <= j < |b| && b[j].BatchFailed?
      ensures exists i :: 0 <= i < |a| && a[i].BatchFailed?
    {
      assert b[j] in multiset(a);
    }
    forall j | 0 <= j < |a| && a[j].BatchFailed?
      ensures exists i :: 0 <= i < |b| && b[i].BatchFailed?
    {
      assert a[j] in multiset(b);
    }
    MergedPermutation(a, b);
  }
}
