/** The paginated fetcher of src/fetch.ts. The network is replaced by the
    finite sequence of replies the server gives, reply `i` answering the
    `i`-th request; the loop itself is a fold over that sequence. */
module Fetch {
  import opened Results
  import opened Json
  import opened Auth
  import Text

  /** What one `fetch(url, ...)` followed by `res.json()` can yield. */
  datatype Response =
    | NotOk(status: nat, statusText: string)   // `res.ok` is false
    | Body(data: Json)                          // the parsed body of an ok reply
    | Rejected(cause: Thrown)                   // fetch or res.json() threw

  /** One request as issued: its URL and its headers. */
  datatype Request = Request(url: string, headers: HeaderMap)

  /** How the loop ended: normally with the accumulated items, by an
      exception, or not yet, because the given replies ran out before a
      terminating page (the real loop would go on requesting). */
  datatype Outcome =
    | Completed(items: seq<Json>)
    | Aborted(error: Thrown)
    | Exhausted(items: seq<Json>)

  datatype FetchRun = FetchRun(requests: seq<Request>, outcome: Outcome)

  const DefaultPerPage: int := 100
  const ApiRoot: string := "/wp-json/wp/v2/"

  /** The URL of page `page`: it starts with the site's endpoint and ends
      with the decimal page number. */
  function PageUrl(endpoint: string, postType: string, perPage: int, page: nat): (u: string)
    ensures |u| > |endpoint| && u[..|endpoint|] == endpoint
    ensures var p := Text.NatToString(page); |u| > |p| && u[|u| - |p|..] == p
  {
    endpoint + ApiRoot + postType + "?per_page=" + Text.IntToString(perPage)
      + "&page=" + Text.NatToString(page)
  }

  /** Different pages have different URLs. */
  lemma PageUrlInjective(endpoint: string, postType: string, perPage: int, m: nat, n: nat)
    requires PageUrl(endpoint, postType, perPage, m) == PageUrl(endpoint, postType, perPage, n)
    ensures m == n
  {
    var prefix := endpoint + ApiRoot + postType + "?per_page=" + Text.IntToString(perPage) + "&page=";
    assert PageUrl(endpoint, postType, perPage, m) == prefix + Text.NatToString(m);
    assert PageUrl(endpoint, postType, perPage, n) == prefix + Text.NatToString(n);
    assert Text.NatToString(m) == PageUrl(endpoint, postType, perPage, m)[|prefix|..];
    Text.NatToStringInjective(m, n);
  }

  const ApiErrorPrefix: string := "WordPress REST API error: "

  /** The message of the error a non-ok reply raises inside the loop:
      the status code in decimal, a space, and the status text. */
  function ApiErrorMessage(status: nat, statusText: string): (m: string)
    ensures |m| > |ApiErrorPrefix| && m[..|ApiErrorPrefix|] == ApiErrorPrefix
    ensures |m| > |statusText| && m[|m| - |statusText|..] == statusText
  {
    ApiErrorPrefix + (Text.NatToString(status) + " " + statusText)
  }

  /** The message determines the status code and the status text. */
  lemma ApiErrorMessageInjective(s1: nat, t1: string, s2: nat, t2: string)
    requires ApiErrorMessage(s1, t1) == ApiErrorMessage(s2, t2)
    ensures s1 == s2 && t1 == t2
  {
    var n1, n2 := Text.NatToString(s1), Text.NatToString(s2);
    var a, b := n1 + " " + t1, n2 + " " + t2;
    assert a == b by {
      assert a == ApiErrorMessage(s1, t1)[|ApiErrorPrefix|..];
      assert b == ApiErrorMessage(s2, t2)[|ApiErrorPrefix|..];
    }
    assert n1 == n2 by {
      DigitsThenSpace(n1, t1);
      DigitsThenSpace(n2, t2);
    }
    Text.NatToStringInjective(s1, s2);
    assert t1 == a[|n1| + 1..];
    assert t2 == b[|n2| + 1..];
  }

  /** A decimal number followed by a space is the first piece when
      splitting at spaces. */
  lemma DigitsThenSpace(n: string, t: string)
    requires forall i :: 0 <= i < |n| ==> Text.IsDigit(n[i])
    ensures Text.Split(n + " " + t, ' ')[0] == n
  {
    assert ' ' !in n by {
      forall i | 0 <= i < |n|
        ensures n[i] != ' '
      {
        assert Text.IsDigit(n[i]);
      }
    }
    Text.SplitAppend(n, t, ' ');
    Text.SplitNoSeparator(n, ' ');
  }

  /** The prefix the loop's catch block puts before an `Error`'s message. */
  function FetchFailurePrefix(url: string): string {
    "Failed to fetch from " + url + ": "
  }

  /** A reply that ends the loop: an error, or a body that is not a
      non-empty array. */
  predicate Stops(r: Response) {
    !(r.Body? && r.data.Array? && |r.data.items| > 0)
  }

  /** How the loop ends on a terminating reply to the request for `url`,
      with `items` accumulated from the earlier pages. A non-ok status
      throws an `Error` inside the loop's `try`, so it reaches the catch
      block as a thrown failure does; both abort with the URL prefixed.
      A body (empty, or not an array) completes with what was accumulated. */
  function StopOutcome(r: Response, url: string, items: seq<Json>): (o: Outcome)
    requires Stops(r)
    ensures o.Completed? <==> r.Body?
    ensures o.Aborted? <==> !r.Body?
    ensures o.Completed? ==> o.items == items
    ensures r.NotOk? ==>
              o == Aborted(ErrorObject(FetchFailurePrefix(url) + ApiErrorMessage(r.status, r.statusText)))
    ensures r.Rejected? ==> o == Aborted(Wrap(FetchFailurePrefix(url), r.cause))
  {
    match r
    case NotOk(status, text) => Aborted(Wrap(FetchFailurePrefix(url), ErrorObject(ApiErrorMessage(status, text))))
    case Rejected(cause) => Aborted(Wrap(FetchFailurePrefix(url), cause))
    case Body(_) => Completed(items)
  }

  /** The loop from page `page` on, with `acc` accumulated so far, `replies`
      answering the requests still to come. Every request carries
      `headers`: `buildHeaders(auth)` is pure, so calling it once per
      iteration always gives the same map. */
  function FetchFrom(endpoint: string, postType: string, headers: HeaderMap, perPage: int,
                     replies: seq<Response>, page: nat, acc: seq<Json>): (run: FetchRun)
    ensures |run.requests| <= |replies|
    ensures forall i :: 0 <= i < |run.requests| ==>
              run.requests[i] == Request(PageUrl(endpoint, postType, perPage, page + i), headers)
    ensures run.outcome.Aborted? || run.outcome.Completed? ==> |run.requests| >= 1
    decreases |replies|
  {
    if |replies| == 0 then FetchRun([], Exhausted(acc))
    else
      var url := PageUrl(endpoint, postType, perPage, page);
      var request := Request(url, headers);
      if Stops(replies[0]) then FetchRun([request], StopOutcome(replies[0], url, acc))
      else
        var rest := FetchFrom(endpoint, postType, headers, perPage, replies[1..], page + 1,
                              acc + replies[0].data.items);
        FetchRun([request] + rest.requests, rest.outcome)
  }

  /** `fetchAllPosts(endpoint, postType, auth, perPage)`: pages counted
      from 1, `perPage` 100 when omitted. */
  function FetchAllPosts(endpoint: string, postType: string, auth: Option<AuthConfig>,
                         perPage: Option<int>, replies: seq<Response>): (run: FetchRun)
    ensures |run.requests| <= |replies|
    ensures forall i :: 0 <= i < |run.requests| ==>
              && run.requests[i].url == PageUrl(endpoint, postType, perPage.GetOr(DefaultPerPage), i + 1)
              && run.requests[i].headers == BuildHeaders(auth)
  {
    FetchFrom(endpoint, postType, BuildHeaders(auth), perPage.GetOr(DefaultPerPage), replies, 1, [])
  }

  // ---------------------------------------------------------------------
  // The loop's result, stated independently of the loop
  // ---------------------------------------------------------------------

  /** The items of a run of non-empty array pages, in order. */
  function Concat(pages: seq<Response>): (items: seq<Json>)
    requires forall i :: 0 <= i < |pages| ==> !Stops(pages[i])
  {
    if |pages| == 0 then []
    else assert !Stops(pages[0]); pages[0].data.items + Concat(pages[1..])
  }

  /** The sum of the page sizes of a run of non-empty array pages. */
  function TotalSize(pages: seq<Response>): nat
    requires forall i :: 0 <= i < |pages| ==> !Stops(pages[i])
  {
    if |pages| == 0 then 0
    else assert !Stops(pages[0]); |pages[0].data.items| + TotalSize(pages[1..])
  }

  lemma {:induction false} ConcatLength(pages: seq<Response>)
    requires forall i :: 0 <= i < |pages| ==> !Stops(pages[i])
    ensures |Concat(pages)| == TotalSize(pages)
  {
    if |pages| > 0 {
      ConcatLength(pages[1..]);
    }
  }

  /** Moving the first page of a run of non-empty array pages into the
      accumulator. */
  lemma ConcatFront(acc: seq<Json>, replies: seq<Response>, k: nat)
    requires 0 < k <= |replies|
    requires forall i :: 0 <= i < k ==> !Stops(replies[i])
    requires !Stops(replies[0])
    ensures (acc + replies[0].data.items) + Concat(replies[1..][..k - 1]) == acc + Concat(replies[..k])
  {
    assert replies[..k][1..] == replies[1..][..k - 1];
    assert Concat(replies[..k]) == replies[0].data.items + Concat(replies[1..][..k - 1]);
  }

  /** `k` is the first terminating reply. */
  predicate FirstStop(replies: seq<Response>, k: nat) {
    && k < |replies|
    && Stops(replies[k])
    && forall i :: 0 <= i < k ==> !Stops(replies[i])
  }

  /** What the loop does, given that reply `k` is the first terminating
      one: it makes exactly `k + 1` requests and ends as that reply
      dictates for page `page + k`, with the items of the `k` earlier
      pages concatenated in order after `acc`. */
  lemma {:induction false} FetchFromStops(endpoint: string, postType: string, headers: HeaderMap,
                                          perPage: int, replies: seq<Response>, page: nat,
                                          acc: seq<Json>, k: nat)
    requires FirstStop(replies, k)
    ensures var run := FetchFrom(endpoint, postType, headers, perPage, replies, page, acc);
            && |run.requests| == k + 1
            && run.outcome == StopOutcome(replies[k], PageUrl(endpoint, postType, perPage, page + k),
                                          acc + Concat(replies[..k]))
    decreases k
  {
    if k == 0 {
      assert acc + Concat(replies[..0]) == acc;
    } else {
      assert !Stops(replies[0]);
      var acc' := acc + replies[0].data.items;
      var run := FetchFrom(endpoint, postType, headers, perPage, replies, page, acc);
      var rest := FetchFrom(endpoint, postType, headers, perPage, replies[1..], page + 1, acc');
      assert run.requests == [Request(PageUrl(endpoint, postType, perPage, page), headers)] + rest.requests;
      assert run.outcome == rest.outcome;
      assert FirstStop(replies[1..], k - 1);
      FetchFromStops(endpoint, postType, headers, perPage, replies[1..], page + 1, acc', k - 1);
      ConcatFront(acc, replies, k);
      assert replies[1..][k - 1] == replies[k];
      assert page + 1 + (k - 1) == page + k;
    }
  }

  /** Without a terminating reply the loop requests one page per reply
      and is still accumulating when the replies run out. */
  lemma {:induction false} FetchFromNoStop(endpoint: string, postType: string, headers: HeaderMap,
                                           perPage: int, replies: seq<Response>, page: nat, acc: seq<Json>)
    requires forall i :: 0 <= i < |replies| ==> !Stops(replies[i])
    ensures var run := FetchFrom(endpoint, postType, headers, perPage, replies, page, acc);
            |run.requests| == |replies| && run.outcome == Exhausted(acc + Concat(replies))
    decreases |replies|
  {
    if |replies| > 0 {
      FetchFromNoStop(endpoint, postType, headers, perPage, replies[1..], page + 1, acc + replies[0].data.items);
    }
  }

  /** The whole fetch, for replies containing a terminating page `k`:
      `k + 1` requests (one more than the number of non-empty pages before
      it), and on completion the in-order items of those pages, whose
      number is the sum of their sizes. */
  lemma FetchAllPostsSpec(endpoint: string, postType: string, auth: Option<AuthConfig>,
                          perPage: Option<int>, replies: seq<Response>, k: nat)
    requires FirstStop(replies, k)
    ensures var run := FetchAllPosts(endpoint, postType, auth, perPage, replies);
            && |run.requests| == k + 1
            && (replies[k].Body? ==>
                  && run.outcome == Completed(Concat(replies[..k]))
                  && |run.outcome.items| == TotalSize(replies[..k]))
            && (replies[k].NotOk? ==>
                  run.outcome == Aborted(ErrorObject(
                    FetchFailurePrefix(PageUrl(endpoint, postType, perPage.GetOr(DefaultPerPage), k + 1))
                    + ApiErrorMessage(replies[k].status, replies[k].statusText))))
            && (replies[k].Rejected? ==>
                  run.outcome == Aborted(Wrap(
                    FetchFailurePrefix(PageUrl(endpoint, postType, perPage.GetOr(DefaultPerPage), k + 1)),
                    replies[k].cause)))
  {
    FetchFromStops(endpoint, postType, BuildHeaders(auth), perPage.GetOr(DefaultPerPage), replies, 1, [], k);
    ConcatLength(replies[..k]);
    assert [] + Concat(replies[..k]) == Concat(replies[..k]);
  }

  /** A non-ok first reply: one request, no items, the error names page 1. */
  lemma FirstPageNotOk(endpoint: string, postType: string, auth: Option<AuthConfig>,
                       perPage: Option<int>, replies: seq<Response>)
    requires |replies| >= 1 && replies[0].NotOk?
    ensures var run := FetchAllPosts(endpoint, postType, auth, perPage, replies);
            && |run.requests| == 1
            && run.outcome.Aborted?
            && run.outcome.error.ErrorObject?
  {
  }

  /** A non-array body on page 1: zero items after exactly one request. */
  lemma FirstPageNotArray(endpoint: string, postType: string, auth: Option<AuthConfig>,
                          perPage: Option<int>, replies: seq<Response>)
    requires |replies| >= 1 && replies[0].Body? && !replies[0].data.Array?
    ensures FetchAllPosts(endpoint, postType, auth, perPage, replies) ==
            FetchRun([Request(PageUrl(endpoint, postType, perPage.GetOr(DefaultPerPage), 1), BuildHeaders(auth))],
                     Completed([]))
  {
  }

  /** Pages of 100, 100 and 37 items and then an empty page: 237 items
      from 4 requests, for pages 1 to 4. */
  lemma PaginationExample(endpoint: string, postType: string, auth: Option<AuthConfig>,
                          replies: seq<Response>)
    requires |replies| == 4
    requires forall i :: 0 <= i < 3 ==> replies[i].Body? && replies[i].data.Array?
    requires |replies[0].data.items| == 100 && |replies[1].data.items| == 100
    requires |replies[2].data.items| == 37
    requires replies[3] == Body(Array([]))
    ensures var run := FetchAllPosts(endpoint, postType, auth, None, replies);
            && run.outcome.Completed? && |run.outcome.items| == 237
            && |run.requests| == 4
            && run.requests[3].url == endpoint + "/wp-json/wp/v2/" + postType + "?per_page=100&page=4"
  {
    assert FirstStop(replies, 3);
    FetchAllPostsSpec(endpoint, postType, auth, None, replies, 3);
    assert TotalSize(replies[..3]) == 237 by {
      ExampleSizes(replies[..3]);
    }
    ExampleUrl(endpoint, postType, DefaultPerPage, 4);
  }

  lemma ExampleSizes(pages: seq<Response>)
    requires |pages| == 3
    requires forall i :: 0 <= i < 3 ==> pages[i].Body? && pages[i].data.Array?
    requires |pages[0].data.items| == 100 && |pages[1].data.items| == 100
    requires |pages[2].data.items| == 37
    ensures TotalSize(pages) == 237
  {
    assert pages[1..][1..] == [pages[2]];
    assert TotalSize([pages[2]]) == 37;
  }

  lemma ExampleUrl(endpoint: string, postType: string, perPage: int, page: nat)
    requires perPage == 100 && page == 4
    ensures PageUrl(endpoint, postType, perPage, page)
            == endpoint + "/wp-json/wp/v2/" + postType + "?per_page=100&page=4"
  {
    assert Text.IntToString(perPage) == "100" by {
      assert Text.NatToString(10) == "10";
    }
    assert Text.NatToString(page) == "4";
  }
}
