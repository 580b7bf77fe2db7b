/**
 * The `messages().list` pagination loops of the jobs. The remote listing is an input:
 * the k-th call gets `pages[k]` (a call beyond the end gets an empty page without a next
 * token), and every request is recorded. Each loop is a method proved equal to a recursive
 * specification function; the lemmas state the properties of those functions.
 */
module Paging {
  import opened Wrappers

  /** What one `list` call returned: the ids of a page and its `nextPageToken`, or the
      exception raised by `execute()`. */
  datatype ListResult = Page(ids: seq<string>, next: Option<string>) | ListError(error: string)

  datatype ListRequest = ListRequest(maxResults: int, pageToken: Option<string>, q: Option<string>)

  /** The ids collected, the calls made, and the exception that ended the loop, if any. */
  datatype Listing = Listing(ids: seq<string>, requests: seq<ListRequest>, error: Option<string>)

  function PageAt(pages: seq<ListResult>, k: nat): (r: ListResult)
    ensures k >= |pages| ==> r == Page([], None)
  {
    if k < |pages| then pages[k] else Page([], None)
  }

  function IdsAt(pages: seq<ListResult>, k: nat): seq<string>
  {
    if PageAt(pages, k).Page? then PageAt(pages, k).ids else []
  }

  function NextAt(pages: seq<ListResult>, k: nat): Option<string>
  {
    if PageAt(pages, k).Page? then PageAt(pages, k).next else None
  }

  /** The token sent with call `k`: none for the first call, else the previous page's. */
  function TokenFor(pages: seq<ListResult>, k: nat): Option<string>
  {
    if k == 0 then None else NextAt(pages, k - 1)
  }

  /** The ids of the first `n` pages, in order. */
  function Collected(pages: seq<ListResult>, n: nat): seq<string>
  {
    if n == 0 then [] else Collected(pages, n - 1) + IdsAt(pages, n - 1)
  }

  /** Python truthiness of a token: present and not empty. */
  predicate Truthy(t: Option<string>) { t.Some? && t.value != "" }

  function Then(reqs: seq<ListRequest>, l: Listing): Listing
  {
    Listing(l.ids, reqs + l.requests, l.error)
  }

  /** The server kept to `maxResults` on every call that was made from call `k` on. */
  predicate Honest(pages: seq<ListResult>, k: nat, reqs: seq<ListRequest>)
  {
    forall j :: 0 <= j < |reqs| ==> |IdsAt(pages, k + j)| <= reqs[j].maxResults
  }

  // ----- `while len(ids) < limit` (both `scan_emails`, legacy `scan_senders_for_delete`
  //       and, with `stopOnEmpty`, legacy `mark_emails_as_read`) -----

  function UpToFrom(pages: seq<ListResult>, limit: int, stopOnEmpty: bool, q: Option<string>, k: nat, ids: seq<string>): Listing
    decreases |pages| - k
  {
    if |ids| >= limit then Listing(ids, [], None)
    else
      var req := ListRequest(Min(500, limit - |ids|), TokenFor(pages, k), q);
      match PageAt(pages, k)
      case ListError(e) => Listing(ids, [req], Some(e))
      case Page(p, next) =>
        if stopOnEmpty && p == [] then Listing(ids, [req], None)
        else if !Truthy(next) then Listing(ids + p, [req], None)
        else
          assert k < |pages|;
          Then([req], UpToFrom(pages, limit, stopOnEmpty, q, k + 1, ids + p))
  }

  function UpTo(pages: seq<ListResult>, limit: int, stopOnEmpty: bool, q: Option<string>): Listing
  {
    UpToFrom(pages, limit, stopOnEmpty, q, 0, [])
  }

  lemma ThenThen(a: seq<ListRequest>, b: seq<ListRequest>, l: Listing)
    ensures Then(a, Then(b, l)) == Then(a + b, l)
  {
    assert a + (b + l.requests) == (a + b) + l.requests;
  }

  /** One round of the bounded loop that goes on to the next page. */
  lemma UpToStep(pages: seq<ListResult>, limit: int, stopOnEmpty: bool, q: Option<string>, k: nat, ids: seq<string>)
    requires |ids| < limit
    requires PageAt(pages, k).Page? && !(stopOnEmpty && IdsAt(pages, k) == []) && Truthy(NextAt(pages, k))
    ensures UpToFrom(pages, limit, stopOnEmpty, q, k, ids)
         == Then([ListRequest(Min(500, limit - |ids|), TokenFor(pages, k), q)], UpToFrom(pages, limit, stopOnEmpty, q, k + 1, ids + IdsAt(pages, k)))
  {
  }

  method ListUpTo(pages: seq<ListResult>, limit: int, stopOnEmpty: bool, q: Option<string>)
    returns (ids: seq<string>, requests: seq<ListRequest>, error: Option<string>)
    ensures Listing(ids, requests, error) == UpTo(pages, limit, stopOnEmpty, q)
  {
    ids, requests, error := [], [], None;
    assert requests + UpToFrom(pages, limit, stopOnEmpty, q, 0, ids).requests == UpTo(pages, limit, stopOnEmpty, q).requests;
    while |ids| < limit
      invariant |requests| <= |pages|
      invariant UpTo(pages, limit, stopOnEmpty, q) == Then(requests, UpToFrom(pages, limit, stopOnEmpty, q, |requests|, ids))
      decreases |pages| - |requests|
    {
      var k := |requests|;
      var req := ListRequest(Min(500, limit - |ids|), TokenFor(pages, k), q);
      var result := PageAt(pages, k);
      ghost var before := requests;
      requests := requests + [req];
      if result.ListError? {
        assert UpToFrom(pages, limit, stopOnEmpty, q, k, ids) == Listing(ids, [req], Some(result.error));
        error := Some(result.error);
        return;
      }
      if stopOnEmpty && result.ids == [] {
        assert UpToFrom(pages, limit, stopOnEmpty, q, k, ids) == Listing(ids, [req], None);
        return;
      }
      if !Truthy(result.next) {
        assert UpToFrom(pages, limit, stopOnEmpty, q, k, ids) == Listing(ids + result.ids, [req], None);
        ids := ids + result.ids;
        return;
      }
      UpToStep(pages, limit, stopOnEmpty, q, k, ids);
      ThenThen(before, [req], UpToFrom(pages, limit, stopOnEmpty, q, k + 1, ids + result.ids));
      ids := ids + result.ids;
    }
  }

  /** The request call `n` of the bounded loop makes, once `Collected(pages, n)` is in. */
  function UpToRequest(pages: seq<ListResult>, limit: int, q: Option<string>, n: nat): ListRequest
  {
    ListRequest(Min(500, limit - |Collected(pages, n)|), TokenFor(pages, n), q)
  }

  /** Call `j` of the bounded loop asks for `min(500, limit - collected)` items with the
      previous page's token, and is only made while fewer than `limit` ids are in. */
  lemma {:induction false} UpToRequestAt(pages: seq<ListResult>, limit: int, stopOnEmpty: bool, q: Option<string>, k: nat, ids: seq<string>, j: nat)
    requires ids == Collected(pages, k)
    requires j < |UpToFrom(pages, limit, stopOnEmpty, q, k, ids).requests|
    ensures UpToFrom(pages, limit, stopOnEmpty, q, k, ids).requests[j] == UpToRequest(pages, limit, q, k + j)
    ensures |Collected(pages, k + j)| < limit
    decreases j
  {
    var l := UpToFrom(pages, limit, stopOnEmpty, q, k, ids);
    UpToDone(pages, limit, stopOnEmpty, q, k, ids);
    UpToFirst(pages, limit, stopOnEmpty, q, k, ids);
    if j == 0 {
      assert Collected(pages, k + j) == ids;
      assert l.requests[j] == UpToRequest(pages, limit, q, k + j);
    } else {
      var p := IdsAt(pages, k);
      UpToStep(pages, limit, stopOnEmpty, q, k, ids);
      var rest := UpToFrom(pages, limit, stopOnEmpty, q, k + 1, ids + p);
      assert l.requests[j] == rest.requests[j - 1];
      assert ids + p == Collected(pages, k + 1);
      UpToRequestAt(pages, limit, stopOnEmpty, q, k + 1, ids + p, j - 1);
      var n := k + j;
      assert n == (k + 1) + (j - 1);
      assert rest.requests[j - 1] == UpToRequest(pages, limit, q, n);
      assert |Collected(pages, n)| < limit;
    }
  }

  lemma UpToDone(pages: seq<ListResult>, limit: int, stopOnEmpty: bool, q: Option<string>, k: nat, ids: seq<string>)
    ensures |ids| >= limit ==> UpToFrom(pages, limit, stopOnEmpty, q, k, ids) == Listing(ids, [], None)
  {
  }

  /** The first call of a round, and when a second one follows. */
  lemma UpToFirst(pages: seq<ListResult>, limit: int, stopOnEmpty: bool, q: Option<string>, k: nat, ids: seq<string>)
    requires |ids| < limit
    ensures var l := UpToFrom(pages, limit, stopOnEmpty, q, k, ids);
            l.requests != [] && l.requests[0] == ListRequest(Min(500, limit - |ids|), TokenFor(pages, k), q)
            && (|l.requests| > 1 ==> PageAt(pages, k).Page? && !(stopOnEmpty && IdsAt(pages, k) == []) && Truthy(NextAt(pages, k)))
  {
  }

  /** Unless a call raised, the ids collected are those of the pages read, in order. */
  lemma {:induction false} UpToIds(pages: seq<ListResult>, limit: int, stopOnEmpty: bool, q: Option<string>, k: nat, ids: seq<string>)
    requires ids == Collected(pages, k)
    ensures var l := UpToFrom(pages, limit, stopOnEmpty, q, k, ids);
            l.error.None? ==> l.ids == Collected(pages, k + |l.requests|)
    decreases |pages| - k
  {
    if |ids| < limit {
      match PageAt(pages, k)
      case ListError(_) =>
      case Page(p, next) =>
        assert ids + p == Collected(pages, k + 1);
        if !(stopOnEmpty && p == []) && Truthy(next) {
          UpToIds(pages, limit, stopOnEmpty, q, k + 1, ids + p);
        }
    }
  }

  /** Every call asks for `min(500, limit - collected)` items with the previous page's token,
      and is only made while fewer than `limit` ids are in; the ids collected are those of
      the pages read, in order. */
  lemma UpToRequests(pages: seq<ListResult>, limit: int, stopOnEmpty: bool, q: Option<string>, k: nat, ids: seq<string>)
    requires ids == Collected(pages, k)
    ensures forall j :: 0 <= j < |UpToFrom(pages, limit, stopOnEmpty, q, k, ids).requests| ==>
              UpToFrom(pages, limit, stopOnEmpty, q, k, ids).requests[j] == UpToRequest(pages, limit, q, k + j)
              && |Collected(pages, k + j)| < limit
    ensures var l := UpToFrom(pages, limit, stopOnEmpty, q, k, ids);
            l.error.None? ==> l.ids == Collected(pages, k + |l.requests|)
  {
    forall j | 0 <= j < |UpToFrom(pages, limit, stopOnEmpty, q, k, ids).requests|
      ensures UpToFrom(pages, limit, stopOnEmpty, q, k, ids).requests[j] == UpToRequest(pages, limit, q, k + j)
      ensures |Collected(pages, k + j)| < limit
    {
      UpToRequestAt(pages, limit, stopOnEmpty, q, k, ids, j);
    }
    UpToIds(pages, limit, stopOnEmpty, q, k, ids);
  }

  /** Every call of the `len(ids) < limit` loop asks for 1 to 500 ids with the query `q`
      and the previous page's token. */
  lemma UpToBounds(pages: seq<ListResult>, limit: int, stopOnEmpty: bool, q: Option<string>)
    ensures var l := UpTo(pages, limit, stopOnEmpty, q);
            forall j :: 0 <= j < |l.requests| ==>
              1 <= l.requests[j].maxResults <= 500 && l.requests[j].q == q && l.requests[j].pageToken == TokenFor(pages, j)
  {
    var l := UpTo(pages, limit, stopOnEmpty, q);
    assert Collected(pages, 0) == [];
    UpToRequests(pages, limit, stopOnEmpty, q, 0, []);
    forall j | 0 <= j < |l.requests|
      ensures 1 <= l.requests[j].maxResults <= 500 && l.requests[j].q == q && l.requests[j].pageToken == TokenFor(pages, j)
    {
      assert l.requests[j] == UpToRequest(pages, limit, q, 0 + j) && |Collected(pages, 0 + j)| < limit;
      UpToRequestBounds(pages, limit, q, 0 + j);
    }
  }

  lemma UpToRequestBounds(pages: seq<ListResult>, limit: int, q: Option<string>, n: nat)
    requires |Collected(pages, n)| < limit
    ensures 1 <= UpToRequest(pages, limit, q, n).maxResults <= 500
  {
  }

  /** The loop ends because `limit` ids are in, the page had no token, an empty page came
      (legacy mark-as-read only), or a call raised; every earlier call went on. */
  lemma {:induction false} UpToStops(pages: seq<ListResult>, limit: int, stopOnEmpty: bool, q: Option<string>, k: nat, ids: seq<string>)
    ensures var l := UpToFrom(pages, limit, stopOnEmpty, q, k, ids);
            var last := k + |l.requests| - 1;
            (l.requests == [] <==> |ids| >= limit)
            && (l.error.None? ==> |l.ids| >= limit || (l.requests != [] && (!Truthy(NextAt(pages, last)) || (stopOnEmpty && IdsAt(pages, last) == []))))
            && (l.error.Some? ==> l.requests != [] && PageAt(pages, last) == ListError(l.error.value))
            && (forall j :: k <= j < last ==> PageAt(pages, j).Page? && Truthy(NextAt(pages, j)) && !(stopOnEmpty && IdsAt(pages, j) == []))
    decreases |pages| - k
  {
    if |ids| < limit {
      match PageAt(pages, k)
      case ListError(_) =>
      case Page(p, next) =>
        if !(stopOnEmpty && p == []) && Truthy(next) {
          UpToStops(pages, limit, stopOnEmpty, q, k + 1, ids + p);
        }
    }
  }

  /** If the server never returns more than asked for, at most `limit` ids are collected. */
  lemma {:induction false} UpToAtMostLimit(pages: seq<ListResult>, limit: int, stopOnEmpty: bool, q: Option<string>, k: nat, ids: seq<string>)
    requires |ids| <= limit
    requires Honest(pages, k, UpToFrom(pages, limit, stopOnEmpty, q, k, ids).requests)
    ensures |UpToFrom(pages, limit, stopOnEmpty, q, k, ids).ids| <= limit
    decreases |pages| - k
  {
    var l := UpToFrom(pages, limit, stopOnEmpty, q, k, ids);
    if |ids| < limit {
      var req := ListRequest(Min(500, limit - |ids|), TokenFor(pages, k), q);
      match PageAt(pages, k)
      case ListError(_) =>
      case Page(p, next) =>
        assert l.requests[0] == req;
        assert |IdsAt(pages, k + 0)| <= req.maxResults;
        assert |ids + p| <= limit;
        if !(stopOnEmpty && p == []) && Truthy(next) {
          var rest := UpToFrom(pages, limit, stopOnEmpty, q, k + 1, ids + p);
          assert l == Then([req], rest);
          HonestTail(pages, k, req, rest.requests);
          UpToAtMostLimit(pages, limit, stopOnEmpty, q, k + 1, ids + p);
        }
    }
  }

  lemma HonestTail(pages: seq<ListResult>, k: nat, req: ListRequest, rest: seq<ListRequest>)
    requires Honest(pages, k, [req] + rest)
    ensures Honest(pages, k + 1, rest)
  {
    forall j | 0 <= j < |rest| ensures |IdsAt(pages, k + 1 + j)| <= rest[j].maxResults {
      assert ([req] + rest)[j + 1] == rest[j];
      assert k + (j + 1) == k + 1 + j;
    }
  }

  // ----- first call, then `while 'nextPageToken' in results and len(messages) < count`,
  //       then `messages[:count]` (current `mark_emails_as_read`, `scan_senders_for_delete`) -----

  /** Python's `s[:n]`, including a negative `n`, which counts from the end. */
  function PyPrefix(s: seq<string>, n: int): (r: seq<string>)
    ensures n >= 0 ==> r == s[..Min(n, |s|)]
    ensures n < 0 ==> |r| == (if |s| + n < 0 then 0 else |s| + n) && r == s[..|r|]
  {
    if n >= 0 then s[..Min(n, |s|)]
    else if |s| + n < 0 then []
    else s[..|s| + n]
  }

  function CappedFrom(pages: seq<ListResult>, count: int, q: Option<string>, k: nat, msgs: seq<string>): Listing
    decreases |pages| - k
  {
    var req := ListRequest(Min(count - |msgs|, 500), TokenFor(pages, k), q);
    match PageAt(pages, k)
    case ListError(e) => Listing(msgs, [req], Some(e))
    case Page(p, next) =>
      if next.Some? && |msgs + p| < count then
        assert k < |pages|;
        Then([req], CappedFrom(pages, count, q, k + 1, msgs + p))
      else Listing(msgs + p, [req], None)
  }

  /** The listing of the capped loop, with the truncation to `count` applied. */
  function Capped(pages: seq<ListResult>, count: int, q: Option<string>): Listing
  {
    var l := CappedFrom(pages, count, q, 0, []);
    Listing(PyPrefix(l.ids, count), l.requests, l.error)
  }

  method ListCapped(pages: seq<ListResult>, count: int, q: Option<string>)
    returns (ids: seq<string>, requests: seq<ListRequest>, error: Option<string>)
    ensures Listing(ids, requests, error) == Capped(pages, count, q)
  {
    var messages: seq<string> := [];
    var token: Option<string> := None;
    requests, error := [], None;
    assert requests + CappedFrom(pages, count, q, 0, messages).requests == CappedFrom(pages, count, q, 0, []).requests;
    while true
      invariant |requests| <= |pages|
      invariant token == TokenFor(pages, |requests|)
      invariant CappedFrom(pages, count, q, 0, []) == Then(requests, CappedFrom(pages, count, q, |requests|, messages))
      decreases |pages| - |requests|
    {
      var k := |requests|;
      var req := ListRequest(Min(count - |messages|, 500), token, q);
      var result := PageAt(pages, k);
      ghost var before := requests;
      requests := requests + [req];
      if result.ListError? {
        assert CappedFrom(pages, count, q, k, messages) == Listing(messages, [req], Some(result.error));
        return PyPrefix(messages, count), requests, Some(result.error);
      }
      if !(result.next.Some? && |messages + result.ids| < count) {
        assert CappedFrom(pages, count, q, k, messages) == Listing(messages + result.ids, [req], None);
        ids := PyPrefix(messages + result.ids, count);
        return;
      }
      CappedStep(pages, count, q, k, messages);
      ThenThen(before, [req], CappedFrom(pages, count, q, k + 1, messages + result.ids));
      messages := messages + result.ids;
      token := result.next;
    }
  }

  function CappedRequest(pages: seq<ListResult>, count: int, q: Option<string>, n: nat): ListRequest
  {
    ListRequest(Min(count - |Collected(pages, n)|, 500), TokenFor(pages, n), q)
  }

  /** One round of the capped loop that goes on to the next page. */
  lemma CappedStep(pages: seq<ListResult>, count: int, q: Option<string>, k: nat, msgs: seq<string>)
    requires PageAt(pages, k).Page? && NextAt(pages, k).Some? && |msgs + IdsAt(pages, k)| < count
    ensures CappedFrom(pages, count, q, k, msgs)
         == Then([ListRequest(Min(count - |msgs|, 500), TokenFor(pages, k), q)], CappedFrom(pages, count, q, k + 1, msgs + IdsAt(pages, k)))
  {
  }

  /** The first call of a round, and when a second one follows. */
  lemma CappedFirst(pages: seq<ListResult>, count: int, q: Option<string>, k: nat, msgs: seq<string>)
    ensures var l := CappedFrom(pages, count, q, k, msgs);
            l.requests != [] && l.requests[0] == ListRequest(Min(count - |msgs|, 500), TokenFor(pages, k), q)
            && (|l.requests| > 1 ==> PageAt(pages, k).Page? && NextAt(pages, k).Some? && |msgs + IdsAt(pages, k)| < count)
  {
  }

  /** Call `j` of the capped loop asks for `min(count - collected, 500)` items with the
      previous page's token; a call after the first is made only while fewer than `count`
      ids are in. */
  lemma {:induction false} CappedRequestAt(pages: seq<ListResult>, count: int, q: Option<string>, k: nat, msgs: seq<string>, j: nat)
    requires msgs == Collected(pages, k)
    requires j < |CappedFrom(pages, count, q, k, msgs).requests|
    ensures CappedFrom(pages, count, q, k, msgs).requests[j] == CappedRequest(pages, count, q, k + j)
    ensures j > 0 ==> |Collected(pages, k + j)| < count
    decreases j
  {
    var l := CappedFrom(pages, count, q, k, msgs);
    CappedFirst(pages, count, q, k, msgs);
    if j == 0 {
      assert Collected(pages, k + j) == msgs;
      assert l.requests[j] == CappedRequest(pages, count, q, k + j);
    } else {
      var p := IdsAt(pages, k);
      CappedStep(pages, count, q, k, msgs);
      var rest := CappedFrom(pages, count, q, k + 1, msgs + p);
      assert l.requests[j] == rest.requests[j - 1];
      assert msgs + p == Collected(pages, k + 1);
      CappedRequestAt(pages, count, q, k + 1, msgs + p, j - 1);
      var n := k + j;
      assert n == (k + 1) + (j - 1);
      assert rest.requests[j - 1] == CappedRequest(pages, count, q, n);
      assert |Collected(pages, n)| < count;
    }
  }

  /** Unless a call raised, the capped loop collects the ids of the pages read, in order. */
  lemma {:induction false} CappedIds(pages: seq<ListResult>, count: int, q: Option<string>, k: nat, msgs: seq<string>)
    requires msgs == Collected(pages, k)
    ensures var l := CappedFrom(pages, count, q, k, msgs);
            l.error.None? ==> l.ids == Collected(pages, k + |l.requests|)
    decreases |pages| - k
  {
    match PageAt(pages, k)
    case ListError(_) =>
    case Page(p, next) =>
      assert msgs + p == Collected(pages, k + 1);
      if next.Some? && |msgs + p| < count {
        CappedIds(pages, count, q, k + 1, msgs + p);
      }
  }

  /** The capped listing reads the pages in order, each call asking for
      `min(count - collected, 500)` items with the previous page's token; a call after the
      first is made only while fewer than `count` ids are in. */
  lemma CappedRequests(pages: seq<ListResult>, count: int, q: Option<string>, k: nat, msgs: seq<string>)
    requires msgs == Collected(pages, k)
    ensures |CappedFrom(pages, count, q, k, msgs).requests| >= 1
    ensures forall j :: 0 <= j < |CappedFrom(pages, count, q, k, msgs).requests| ==>
              CappedFrom(pages, count, q, k, msgs).requests[j] == CappedRequest(pages, count, q, k + j)
    ensures forall n :: k < n < k + |CappedFrom(pages, count, q, k, msgs).requests| ==> |Collected(pages, n)| < count
    ensures var l := CappedFrom(pages, count, q, k, msgs);
            l.error.None? ==> l.ids == Collected(pages, k + |l.requests|)
  {
    CappedFirst(pages, count, q, k, msgs);
    var l := CappedFrom(pages, count, q, k, msgs);
    forall j | 0 <= j < |l.requests| ensures l.requests[j] == CappedRequest(pages, count, q, k + j) {
      CappedRequestAt(pages, count, q, k, msgs, j);
    }
    forall n | k < n < k + |l.requests| ensures |Collected(pages, n)| < count {
      CappedRequestAt(pages, count, q, k, msgs, n - k);
    }
    CappedIds(pages, count, q, k, msgs);
  }

  /** The capped loop stops at a page without a token or once `count` ids are in, or when a
      call raises; every earlier page had a token. */
  lemma {:induction false} CappedStops(pages: seq<ListResult>, count: int, q: Option<string>, k: nat, msgs: seq<string>)
    ensures var l := CappedFrom(pages, count, q, k, msgs);
            var last := k + |l.requests| - 1;
            |l.requests| >= 1
            && (l.error.None? ==> NextAt(pages, last).None? || |l.ids| >= count)
            && (l.error.Some? ==> PageAt(pages, last) == ListError(l.error.value))
            && (forall j :: k <= j < last ==> PageAt(pages, j).Page? && NextAt(pages, j).Some?)
    decreases |pages| - k
  {
    match PageAt(pages, k)
    case ListError(_) =>
    case Page(p, next) =>
      if next.Some? && |msgs + p| < count {
        CappedStops(pages, count, q, k + 1, msgs + p);
      }
  }

  /** With a positive count every request asks for 1 to 500 items with the query `q`, and at most `count` ids
      come out, whatever the server returns. */
  lemma CappedBounds(pages: seq<ListResult>, count: int, q: Option<string>)
    requires count >= 1
    ensures var l := Capped(pages, count, q);
            |l.ids| <= count
            && forall j :: 0 <= j < |l.requests| ==> 1 <= l.requests[j].maxResults <= 500 && l.requests[j].q == q
  {
    CappedRequests(pages, count, q, 0, []);
    var l := CappedFrom(pages, count, q, 0, []);
    forall j | 0 <= j < |l.requests| ensures 1 <= l.requests[j].maxResults <= 500 && l.requests[j].q == q {
      assert l.requests[j] == CappedRequest(pages, count, q, 0 + j);
      if j > 0 {
        assert |Collected(pages, 0 + j)| < count;
      }
    }
  }

  // ----- first call, then `while 'nextPageToken' in results` with 500 per call
  //       (`delete_emails_by_sender`, `delete_emails_bulk_background`) -----

  function AllFrom(pages: seq<ListResult>, q: Option<string>, k: nat, msgs: seq<string>): Listing
    decreases |pages| - k
  {
    var req := ListRequest(500, TokenFor(pages, k), q);
    match PageAt(pages, k)
    case ListError(e) => Listing(msgs, [req], Some(e))
    case Page(p, next) =>
      if next.Some? then
        assert k < |pages|;
        Then([req], AllFrom(pages, q, k + 1, msgs + p))
      else Listing(msgs + p, [req], None)
  }

  function All(pages: seq<ListResult>, q: Option<string>): Listing
  {
    AllFrom(pages, q, 0, [])
  }

  /** One round of the unbounded loop that goes on to the next page. */
  lemma AllStep(pages: seq<ListResult>, q: Option<string>, k: nat, msgs: seq<string>)
    requires PageAt(pages, k).Page? && NextAt(pages, k).Some?
    ensures AllFrom(pages, q, k, msgs) == Then([ListRequest(500, TokenFor(pages, k), q)], AllFrom(pages, q, k + 1, msgs + IdsAt(pages, k)))
  {
  }

  method ListAll(pages: seq<ListResult>, q: Option<string>)
    returns (ids: seq<string>, requests: seq<ListRequest>, error: Option<string>)
    ensures Listing(ids, requests, error) == All(pages, q)
  {
    var token: Option<string> := None;
    ids, requests, error := [], [], None;
    assert requests + AllFrom(pages, q, 0, ids).requests == All(pages, q).requests;
    while true
      invariant |requests| <= |pages|
      invariant token == TokenFor(pages, |requests|)
      invariant All(pages, q) == Then(requests, AllFrom(pages, q, |requests|, ids))
      decreases |pages| - |requests|
    {
      var k := |requests|;
      var req := ListRequest(500, token, q);
      var result := PageAt(pages, k);
      ghost var before := requests;
      requests := requests + [req];
      if result.ListError? {
        assert AllFrom(pages, q, k, ids) == Listing(ids, [req], Some(result.error));
        error := Some(result.error);
        return;
      }
      if result.next.None? {
        assert AllFrom(pages, q, k, ids) == Listing(ids + result.ids, [req], None);
        ids := ids + result.ids;
        return;
      }
      AllStep(pages, q, k, ids);
      ThenThen(before, [req], AllFrom(pages, q, k + 1, ids + result.ids));
      ids := ids + result.ids;
      token := result.next;
    }
  }

  /** The unbounded listing reads every page up to the first without a token, in order, 500
      at a time, each call with the previous page's token. */
  lemma {:induction false} AllReadsEveryPage(pages: seq<ListResult>, q: Option<string>, k: nat, msgs: seq<string>)
    requires msgs == Collected(pages, k)
    ensures var l := AllFrom(pages, q, k, msgs);
            var last := k + |l.requests| - 1;
            |l.requests| >= 1
            && (forall j :: 0 <= j < |l.requests| ==> l.requests[j] == ListRequest(500, TokenFor(pages, k + j), q))
            && (l.error.None? ==> l.ids == Collected(pages, k + |l.requests|) && NextAt(pages, last).None?)
            && (l.error.Some? ==> PageAt(pages, last) == ListError(l.error.value))
            && (forall j :: k <= j < last ==> PageAt(pages, j).Page? && NextAt(pages, j).Some?)
    decreases |pages| - k
  {
    var l := AllFrom(pages, q, k, msgs);
    var req := ListRequest(500, TokenFor(pages, k), q);
    match PageAt(pages, k)
    case ListError(_) =>
    case Page(p, next) =>
      assert msgs + p == Collected(pages, k + 1);
      if next.Some? {
        AllStep(pages, q, k, msgs);
        AllReadsEveryPage(pages, q, k + 1, msgs + p);
        var rest := AllFrom(pages, q, k + 1, msgs + p);
        forall j | 0 < j < |l.requests| ensures l.requests[j] == ListRequest(500, TokenFor(pages, k + j), q) {
          assert l.requests[j] == rest.requests[j - 1];
          assert k + j == (k + 1) + (j - 1);
        }
      }
  }
}
