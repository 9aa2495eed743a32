/**
 * The response observer that `scrape_profile` attaches to the page: every
 * network response the page receives is offered to it, and it keeps, in
 * arrival order, those whose request's resource type is "xhr".
 */
module Xhr {

  /** A network response as far as the observer looks at it. */
  datatype Response = Response(resourceType: string, url: string)

  /** The request's resource type is `xhr`; `fetch` requests, for one, are not kept. */
  predicate IsXhr(r: Response)
    ensures IsXhr(r) ==> |r.resourceType| == 3
    ensures r.resourceType == "fetch" ==> !IsXhr(r)
  {
    r.resourceType == "xhr"
  }

  /** The XHR responses of `rs`, in their order. */
  function FilterXhr(rs: seq<Response>): (xs: seq<Response>)
    ensures |xs| <= |rs|
    ensures forall i :: 0 <= i < |xs| ==> IsXhr(xs[i])
    decreases |rs|
  {
    if rs == [] then []
    else (if IsXhr(rs[0]) then [rs[0]] else []) + FilterXhr(rs[1..])
  }

  /** Filtering distributes over concatenation: later responses only add at the end. */
  lemma {:induction false} FilterXhrConcat(a: seq<Response>, b: seq<Response>)
    ensures FilterXhr(a + b) == FilterXhr(a) + FilterXhr(b)
    decreases |a|
  {
    if a == [] {
      assert a + b == b;
    } else {
      assert (a + b)[0] == a[0];
      assert (a + b)[1..] == a[1..] + b;
      FilterXhrConcat(a[1..], b);
    }
  }

  /** A response is kept exactly when it arrived and is an XHR. */
  lemma {:induction false} FilterXhrMembers(rs: seq<Response>, x: Response)
    ensures x in FilterXhr(rs) <==> x in rs && IsXhr(x)
    decreases |rs|
  {
    if rs != [] {
      FilterXhrMembers(rs[1..], x);
      assert rs == [rs[0]] + rs[1..];
    }
  }

  /** The observer's captured list `_xhr_calls`; `seen` is every response offered so far. */
  class XhrLog {
    var calls: seq<Response>
    ghost var seen: seq<Response>

    ghost predicate Valid()
      reads this
    {
      calls == FilterXhr(seen)
    }

    /** `_xhr_calls = []` */
    constructor ()
      ensures Valid()
      ensures seen == [] && calls == []
    {
      calls := [];
      seen := [];
    }

    /** `intercept_response`: append the response when its resource type is "xhr". */
    method Intercept(r: Response)
      requires Valid()
      modifies this
      ensures Valid()
      ensures seen == old(seen) + [r]
      ensures calls == if IsXhr(r) then old(calls) + [r] else old(calls)
    {
      FilterXhrConcat(seen, [r]);
      assert FilterXhr([r]) == if IsXhr(r) then [r] else [];
      if r.resourceType == "xhr" {
        calls := calls + [r];
      }
      seen := seen + [r];
    }
  }
}
