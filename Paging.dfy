/**
 * The page walker `fetch_all_pages`: it requests one page of the project
 * search after another, stops at the first response whose status is not 200,
 * collects every page's components and advances the caller's page counter
 * in place while the reported total says that more records remain.
 */
module Paging {
  import opened Wrappers
  import opened Errors

  /** A component record as the project search returns it: field name to value. */
  type Component = map<string, string>

  /** The `paging` object of a search response. */
  datatype PagingInfo = PagingInfo(pageIndex: int, pageSize: int, total: int)

  /** One response of the project search: status, `components` and, when present, `paging`. */
  datatype PageResponse = PageResponse(status: nat, components: seq<Component>, paging: Option<PagingInfo>)

  /** The query parameters sent with one request: the value of ProjParams at that moment. */
  datatype Query = Query(organization: string, p: int, ps: int)

  /** The service behind the fixed URL and headers: its answer to each query. */
  type Server = Query -> PageResponse

  /** The `ProjParams` dictionary, which the walker updates in place. */
  class ProjParams {
    var organization: string
    var p: int
    var ps: int

    constructor (organization: string, p: int, ps: int)
      ensures this.organization == organization && this.p == p && this.ps == ps
    {
      this.organization := organization;
      this.p := p;
      this.ps := ps;
    }

    function Snapshot(): Query
      reads this
    {
      Query(organization, p, ps)
    }
  }

  /** The continuation test: a `paging` key and `total > p * ps`. */
  predicate HasNextPage(response: PageResponse, q: Query) {
    response.paging.Some? && response.paging.value.total > q.p * q.ps
  }

  /**
   * A walk over the pages of `organization` with page size `ps` terminates
   * when no total the server reports for one of those pages exceeds `bound`.
   */
  ghost predicate TotalsBounded(server: Server, organization: string, ps: int, bound: int) {
    forall p: int :: server(Query(organization, p, ps)).paging.Some? ==>
                       server(Query(organization, p, ps)).paging.value.total <= bound
  }

  /** A listing that answers every query with status 200 and the same total `n`. */
  ghost predicate SteadyListing(server: Server, n: int) {
    forall q :: server(q).status == 200 && server(q).paging.Some? && server(q).paging.value.total == n
  }

  /** What a walk returns or raises, and every query it sent, in order. */
  datatype Run = Run(outcome: Result<seq<Component>, Error>, requests: seq<Query>)

  /** The next page starts `ps` records further on. */
  lemma NextPageOffset(q: Query)
    ensures (q.p + 1) * q.ps == q.p * q.ps + q.ps
  {
  }

  /** The walk that starts with query `q`, one recursive step per request. */
  ghost function Walk(server: Server, q: Query, bound: int): (run: Run)
    requires q.ps >= 1 && TotalsBounded(server, q.organization, q.ps, bound)
    ensures |run.requests| >= 1 && run.requests[0] == q
    decreases bound - q.p * q.ps
  {
    var response := server(q);
    if response.status != 200 then
      Run(Failure(HTTPError(StatusMessage(response.status))), [q])
    else if HasNextPage(response, q) then
      assert q == Query(q.organization, q.p, q.ps);
      NextPageOffset(q);
      var rest := Walk(server, q.(p := q.p + 1), bound);
      Run(if rest.outcome.Success? then Success(response.components + rest.outcome.value) else rest.outcome,
          [q] + rest.requests)
    else
      Run(Success(response.components), [q])
  }

  /** The components of the pages answering `qs`, concatenated in request order. */
  function PagesContent(server: Server, qs: seq<Query>): seq<Component> {
    if qs == [] then [] else server(qs[0]).components + PagesContent(server, qs[1..])
  }

  /** A run whose first part is already done: `items` collected and `sent` issued. */
  function Resume(items: seq<Component>, sent: seq<Query>, run: Run): Run {
    Run(if run.outcome.Success? then Success(items + run.outcome.value) else run.outcome, sent + run.requests)
  }

  lemma ResumeAssociates(items: seq<Component>, sent: seq<Query>, page: seq<Component>, q: Query, rest: Run)
    ensures Resume(items, sent, Resume(page, [q], rest)) == Resume(items + page, sent + [q], rest)
  {
    assert sent + ([q] + rest.requests) == sent + [q] + rest.requests;
    if rest.outcome.Success? {
      assert items + (page + rest.outcome.value) == items + page + rest.outcome.value;
    }
  }

  /** One step of a walk: a 200 page that passes the continuation test, then the walk from the next page. */
  lemma WalkStep(server: Server, q: Query, bound: int)
    requires q.ps >= 1 && TotalsBounded(server, q.organization, q.ps, bound)
    requires server(q).status == 200 && HasNextPage(server(q), q)
    ensures Walk(server, q, bound) == Resume(server(q).components, [q], Walk(server, q.(p := q.p + 1), bound))
  {
  }

  /** The last step of a walk: a page that is not 200 or fails the continuation test. */
  lemma WalkStops(server: Server, q: Query, bound: int)
    requires q.ps >= 1 && TotalsBounded(server, q.organization, q.ps, bound)
    requires server(q).status != 200 || !HasNextPage(server(q), q)
    ensures Walk(server, q, bound) ==
              if server(q).status != 200 then Run(Failure(HTTPError(StatusMessage(server(q).status))), [q])
              else Run(Success(server(q).components), [q])
  {
  }

  /**
   * A walk from `start` that has reached query `q`, with `items` collected
   * and `sent` issued, moves on to the next page.
   */
  lemma WalkAdvance(server: Server, start: Query, bound: int, items: seq<Component>, sent: seq<Query>, q: Query)
    requires start.ps >= 1 && TotalsBounded(server, start.organization, start.ps, bound)
    requires q.ps >= 1 && TotalsBounded(server, q.organization, q.ps, bound)
    requires server(q).status == 200 && HasNextPage(server(q), q)
    requires Walk(server, start, bound) == Resume(items, sent, Walk(server, q, bound))
    ensures Walk(server, start, bound) ==
              Resume(items + server(q).components, sent + [q], Walk(server, q.(p := q.p + 1), bound))
  {
    WalkStep(server, q, bound);
    ResumeAssociates(items, sent, server(q).components, q, Walk(server, q.(p := q.p + 1), bound));
  }

  /**
   * `fetch_all_pages(url, headers, params)`. `requests` is the ghost record of
   * the queries sent; `params.p` is left at the page of the last request.
   */
  method FetchAllPages(server: Server, params: ProjParams, ghost bound: int)
    returns (r: Result<seq<Component>, Error>, ghost requests: seq<Query>)
    requires params.ps >= 1 && TotalsBounded(server, params.organization, params.ps, bound)
    modifies params
    ensures Run(r, requests) == Walk(server, old(params.Snapshot()), bound)
    ensures params.Snapshot() == requests[|requests| - 1]
    ensures params.organization == old(params.organization) && params.ps == old(params.ps)
  {
    ghost var start := params.Snapshot();
    var dataList: seq<Component> := [];
    requests := [];
    ghost var whole := Walk(server, start, bound);
    assert whole.outcome.Success? ==> dataList + whole.outcome.value == whole.outcome.value;
    assert requests + whole.requests == whole.requests;
    while true
      invariant params.organization == start.organization && params.ps == start.ps
      invariant Walk(server, start, bound) == Resume(dataList, requests, Walk(server, params.Snapshot(), bound))
      decreases |Walk(server, params.Snapshot(), bound).requests|
    {
      var q := params.Snapshot();
      ghost var sent := requests;
      var response := server(q);
      requests := requests + [q];
      if response.status != 200 || !HasNextPage(response, q) {
        WalkStops(server, q, bound);
        if response.status != 200 {
          r := Failure(HTTPError(StatusMessage(response.status)));
          return;
        }
        dataList := dataList + response.components;
        break;
      }
      WalkAdvance(server, start, bound, dataList, sent, q);
      dataList := dataList + response.components;
      params.p := params.p + 1;
      assert params.Snapshot() == q.(p := q.p + 1);
    }
    r := Success(dataList);
  }

  /**
   * The queries a walk sends: `p` goes up by exactly one per request while
   * `organization` and `ps` stay put; every request but the last got status
   * 200 and passed the continuation test, and the last one failed either.
   */
  lemma {:induction false} WalkRequests(server: Server, q: Query, bound: int)
    requires q.ps >= 1 && TotalsBounded(server, q.organization, q.ps, bound)
    ensures var qs := Walk(server, q, bound).requests;
      && (forall i :: 0 <= i < |qs| ==> qs[i] == q.(p := q.p + i))
      && (forall i :: 0 <= i < |qs| - 1 ==> server(qs[i]).status == 200 && HasNextPage(server(qs[i]), qs[i]))
      && (server(qs[|qs| - 1]).status != 200 || !HasNextPage(server(qs[|qs| - 1]), qs[|qs| - 1]))
    decreases |Walk(server, q, bound).requests|
  {
    var response := server(q);
    if response.status == 200 && HasNextPage(response, q) {
      WalkStep(server, q, bound);
      var next := q.(p := q.p + 1);
      WalkRequests(server, next, bound);
      var qs := Walk(server, q, bound).requests;
      var rest := Walk(server, next, bound).requests;
      assert qs == [q] + rest;
      forall i | 0 <= i < |qs| ensures qs[i] == q.(p := q.p + i) {
        if i > 0 { assert qs[i] == rest[i - 1]; }
      }
    } else {
      WalkStops(server, q, bound);
    }
  }

  /**
   * The error exit and the output order: a walk raises an HTTPError carrying
   * the status of its last (and only failing) request and returns nothing;
   * otherwise it returns the concatenated components of all requested pages.
   */
  lemma {:induction false} WalkOutcome(server: Server, q: Query, bound: int)
    requires q.ps >= 1 && TotalsBounded(server, q.organization, q.ps, bound)
    ensures var run := Walk(server, q, bound);
      var last := server(run.requests[|run.requests| - 1]);
      run.outcome == if last.status != 200 then Failure(HTTPError(StatusMessage(last.status)))
                     else Success(PagesContent(server, run.requests))
    decreases |Walk(server, q, bound).requests|
  {
    var response := server(q);
    if response.status == 200 && HasNextPage(response, q) {
      WalkStep(server, q, bound);
      var next := q.(p := q.p + 1);
      WalkOutcome(server, next, bound);
      var qs := Walk(server, q, bound).requests;
      var rest := Walk(server, next, bound).requests;
      assert qs == [q] + rest;
      assert qs[1..] == rest;
      assert qs[|qs| - 1] == rest[|rest| - 1];
      if server(rest[|rest| - 1]).status == 200 {
        assert PagesContent(server, qs) == response.components + PagesContent(server, rest);
      }
    } else {
      WalkStops(server, q, bound);
      assert PagesContent(server, [q]) == response.components + PagesContent(server, []);
      assert response.components + [] == response.components;
    }
  }

  /** A success response without a `paging` key ends the walk after one request. */
  lemma NoPagingStops(server: Server, q: Query, bound: int)
    requires q.ps >= 1 && TotalsBounded(server, q.organization, q.ps, bound)
    requires server(q).status == 200 && server(q).paging.None?
    ensures Walk(server, q, bound) == Run(Success(server(q).components), [q])
  {
  }

  function CeilDiv(n: int, k: int): int
    requires k >= 1
  {
    (n + k - 1) / k
  }

  lemma MulMonotone(a: int, b: int, k: int)
    requires a <= b && k >= 0
    ensures a * k <= b * k
  {
    assert b * k - a * k == (b - a) * k;
  }

  /** More records remain after page `p` exactly when `p` is below the page count. */
  lemma CeilDivBound(n: int, k: int, p: int)
    requires k >= 1
    ensures n > p * k <==> p < CeilDiv(n, k)
  {
    var c := CeilDiv(n, k);
    var r := (n + k - 1) % k;
    assert n + k - 1 == c * k + r && 0 <= r < k;
    if p < c {
      MulMonotone(p + 1, c, k);
      assert (p + 1) * k == p * k + k;
    } else {
      MulMonotone(c, p, k);
    }
  }

  /** Against a steady listing of `n` records, a walk from page `q.p` makes `CeilDiv(n, ps) - q.p + 1` requests, and at least one. */
  lemma {:induction false} RequestCountFrom(server: Server, q: Query, n: int, bound: int)
    requires q.ps >= 1 && TotalsBounded(server, q.organization, q.ps, bound) && SteadyListing(server, n)
    ensures |Walk(server, q, bound).requests| == if q.p < CeilDiv(n, q.ps) then CeilDiv(n, q.ps) - q.p + 1 else 1
    decreases |Walk(server, q, bound).requests|
  {
    CeilDivBound(n, q.ps, q.p);
    assert server(q).paging.value.total == n;
    if n > q.p * q.ps {
      WalkStep(server, q, bound);
      RequestCountFrom(server, q.(p := q.p + 1), n, bound);
    } else {
      WalkStops(server, q, bound);
    }
  }

  /**
   * The request count: against a steady listing of `n` records with page
   * size `k`, a walk from page 1 succeeds after max(1, ceil(n / k)) requests
   * and leaves the page counter equal to the number of requests.
   */
  lemma RequestCount(server: Server, organization: string, k: int, n: int, bound: int)
    requires k >= 1 && TotalsBounded(server, organization, k, bound) && SteadyListing(server, n)
    ensures var run := Walk(server, Query(organization, 1, k), bound);
      && |run.requests| == (if CeilDiv(n, k) > 1 then CeilDiv(n, k) else 1)
      && run.requests[|run.requests| - 1].p == |run.requests|
      && run.outcome.Success?
  {
    var q := Query(organization, 1, k);
    RequestCountFrom(server, q, n, bound);
    WalkRequests(server, q, bound);
    WalkOutcome(server, q, bound);
  }

  // The two-page listing of the test suite: page size 1, total 2.

  const FirstPage := PageResponse(200, [map["organization" := "statisticsnorway", "key" := "statisticsnorway_ssb-timeseries",
                                            "name" := "ssb-timeseries", "qualifier" := "TRK", "visibility" := "public",
                                            "lastAnalysisDate" := "2024-05-07T21:54:30+0200",
                                            "revision" := "ede94d2fd8f2d39857bdd691f1cd6afa22cbfce4"]],
                                  Some(PagingInfo(1, 1, 2)))
  const SecondPage := PageResponse(200, [map["organization" := "statisticsnorway", "key" := "statisticsnorway_tech-coach-examples",
                                             "name" := "tech-coach-examples", "qualifier" := "TRK", "visibility" := "public"]],
                                   Some(PagingInfo(2, 1, 2)))

  function TwoPageServer(q: Query): PageResponse {
    if q.p == 1 then FirstPage else SecondPage
  }

  lemma TwoPageListing()
    ensures var run := Walk(TwoPageServer, Query("statisticsnorway", 1, 1), 2);
      && |run.requests| == 2
      && run.outcome.Success? && |run.outcome.value| == 2
      && run.outcome.value[0]["key"] == "statisticsnorway_ssb-timeseries"
      && run.outcome.value[1]["key"] == "statisticsnorway_tech-coach-examples"
  {
    var q := Query("statisticsnorway", 1, 1);
    RequestCount(TwoPageServer, "statisticsnorway", 1, 2, 2);
    WalkRequests(TwoPageServer, q, 2);
    WalkOutcome(TwoPageServer, q, 2);
    var qs := Walk(TwoPageServer, q, 2).requests;
    assert qs == [q, q.(p := 2)];
    assert PagesContent(TwoPageServer, qs) == FirstPage.components + SecondPage.components;
  }

  function NotFoundServer(q: Query): PageResponse {
    PageResponse(404, [], None)
  }

  /** A first-page 404 raises at once: one request, and the message carries 404. */
  lemma NotFoundFirstPage()
    ensures var run := Walk(NotFoundServer, Query("statisticsnorway", 1, 1), 0);
      && run.requests == [Query("statisticsnorway", 1, 1)]
      && run.outcome.Failure? && run.outcome.error.HTTPError?
      && StatusOf(run.outcome.error.message) == Some(404)
  {
  }
}
