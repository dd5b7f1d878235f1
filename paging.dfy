/**
 * The cursor-following loops of getClusters and getServices: call the
 * list operation, append the page's ARNs, and stop once the returned
 * NextToken is nil or empty; any failed call aborts with no list at all.
 *
 * The remote API is given as data: `responses[i]` is what the i-th list
 * call returns. The loop ends only because the server eventually answers
 * with a last page or an error, so the scripts considered are those that
 * contain such a response.
 */
module Paging {
  import opened EcsTypes

  /** The loop's exit test: no NextToken, or an empty one. */
  predicate IsLastToken(t: StringPtr) {
    t.None? || t.value == ""
  }

  /** A response after which the loop makes no further call. */
  predicate EndsListing(r: ListResponse) {
    r.ListError? || IsLastToken(r.nextToken)
  }

  /** The server eventually ends the listing. */
  predicate Terminates(responses: seq<ListResponse>) {
    exists k :: 0 <= k < |responses| && EndsListing(responses[k])
  }

  /** The number of the last list call: the first response that ends the listing. */
  function LastCall(responses: seq<ListResponse>): (k: nat)
    requires Terminates(responses)
    ensures k < |responses| && EndsListing(responses[k])
    ensures forall j :: 0 <= j < k ==> !EndsListing(responses[j])
    decreases |responses|
  {
    if EndsListing(responses[0]) then 0
    else
      assert Terminates(responses[1..]) by {
        var k :| 0 <= k < |responses| && EndsListing(responses[k]);
        assert EndsListing(responses[1..][k - 1]);
      }
      1 + LastCall(responses[1..])
  }

  /** The ARNs a response contributes: its page, or nothing for a failed call. */
  function PageArns(r: ListResponse): seq<Arn> {
    if r.ListPage? then r.arns else []
  }

  /** The ARNs of all responses, in call order. */
  function AllArns(responses: seq<ListResponse>): seq<Arn>
    decreases |responses|
  {
    if responses == [] then []
    else AllArns(responses[..|responses| - 1]) + PageArns(responses[|responses| - 1])
  }

  /**
   * What the listing loop returns: the error of its last call, or the
   * ARNs of every page up to and including the last one.
   */
  function Listed(responses: seq<ListResponse>): Result<seq<Arn>>
    requires Terminates(responses)
  {
    var k := LastCall(responses);
    if responses[k].ListError? then Failure(responses[k].error)
    else Success(AllArns(responses[..k + 1]))
  }

  /**
   * The listing loop. Besides the result it returns the NextToken carried
   * by each request it made: the first request carries none, each later
   * one the token of the response before it.
   */
  method ListAll(responses: seq<ListResponse>) returns (r: Result<seq<Arn>>, requests: seq<StringPtr>)
    requires Terminates(responses)
    ensures r == Listed(responses)
    ensures |requests| == LastCall(responses) + 1
    ensures requests[0] == None
    ensures forall i :: 0 < i < |requests| ==>
              responses[i - 1].ListPage? && requests[i] == responses[i - 1].nextToken
  {
    var arns: seq<Arn> := [];
    var nextToken: StringPtr := None;
    requests := [];
    var i := 0;
    while true
      invariant i <= LastCall(responses)
      invariant arns == AllArns(responses[..i])
      invariant |requests| == i
      invariant nextToken == if i == 0 then None else responses[i - 1].nextToken
      invariant i > 0 ==> responses[i - 1].ListPage?
      invariant i > 0 ==> requests[0] == None
      invariant forall j :: 0 < j < i ==>
                  responses[j - 1].ListPage? && requests[j] == responses[j - 1].nextToken
      decreases LastCall(responses) - i
    {
      requests := requests + [nextToken];
      var resp := responses[i];
      if resp.ListError? {
        return Failure(resp.error), requests;
      }
      assert responses[..i + 1][..i] == responses[..i];
      arns := arns + resp.arns;
      if IsLastToken(resp.nextToken) {
        break;
      }
      nextToken := resp.nextToken;
      i := i + 1;
    }
    r := Success(arns);
  }

  /** Appending a response after the others appends its page to the ARNs. */
  lemma AllArnsSnoc(responses: seq<ListResponse>, r: ListResponse)
    ensures AllArns(responses + [r]) == AllArns(responses) + PageArns(r)
  {
    assert (responses + [r])[..|responses|] == responses;
  }

  /** AllArns distributes over concatenation of response scripts. */
  lemma {:induction false} AllArnsAppend(a: seq<ListResponse>, b: seq<ListResponse>)
    ensures AllArns(a + b) == AllArns(a) + AllArns(b)
    decreases |b|
  {
    if b == [] {
      assert a + b == a;
    } else {
      var init, last := b[..|b| - 1], b[|b| - 1];
      assert a + b == (a + init) + [last];
      assert b == init + [last];
      AllArnsSnoc(a + init, last);
      AllArnsSnoc(init, last);
      AllArnsAppend(a, init);
    }
  }

  /**
   * The listing read page by page from the front: a failed first call
   * fails, a last first page is the whole listing, and otherwise the first
   * page's ARNs precede whatever the remaining calls list.
   */
  lemma ListedFirstPage(responses: seq<ListResponse>)
    requires Terminates(responses)
    ensures responses[0].ListError? ==> Listed(responses) == Failure(responses[0].error)
    ensures responses[0].ListPage? && IsLastToken(responses[0].nextToken) ==>
              Listed(responses) == Success(responses[0].arns)
    ensures !EndsListing(responses[0]) ==>
              Terminates(responses[1..]) &&
              Listed(responses) == match Listed(responses[1..])
                                   case Success(rest) => Success(responses[0].arns + rest)
                                   case Failure(e) => Failure(e)
  {
    var k := LastCall(responses);
    var first := responses[0];
    assert AllArns([first]) == PageArns(first) by {
      assert [first] == [] + [first];
      AllArnsSnoc([], first);
    }
    if k == 0 {
      assert responses[..1] == [first];
    } else {
      var tail := responses[1..];
      assert Terminates(tail) by {
        assert EndsListing(tail[k - 1]);
      }
      assert LastCall(tail) == k - 1;
      assert responses[..k + 1] == [first] + tail[..k];
      AllArnsAppend([first], tail[..k]);
      assert tail[k - 1] == responses[k];
    }
  }

  /** Responses after the last call are never read: extending the script changes nothing. */
  lemma ListedIgnoresLaterResponses(responses: seq<ListResponse>, later: seq<ListResponse>)
    requires Terminates(responses)
    ensures Terminates(responses + later)
    ensures LastCall(responses + later) == LastCall(responses)
    ensures Listed(responses + later) == Listed(responses)
  {
    var k := LastCall(responses);
    var all := responses + later;
    assert EndsListing(all[k]);
    assert forall j :: 0 <= j < k ==> all[j] == responses[j];
    assert LastCall(all) == k;
    assert all[..k + 1] == responses[..k + 1];
  }
}
