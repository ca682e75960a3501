/** One request to the search endpoint, the paging plan, and the aggregation loop of
    `search`: pages 1, 2, 3, ... of at most 50 records each, the remaining count derived
    from the first page's total, and a stop at the first page that reports nothing. */
module Paging {
  import opened Wrappers
  import opened Response

  /** The largest page the API is asked for (`self.limit`). */
  const PageSize: int := 50

  /** The database `query_once` searches by default (all Web of Science databases). */
  const DefaultDatabase: string := "WOK"

  /** The parameters of one GET request to the documents endpoint. */
  datatype Request = Request(query: string, limit: int, page: int, sortField: string,
                             database: string)

  /** What the transport produced: an exception, or a response with a status and a
      decoded body. */
  datatype Transport = Raised | Responded(status: int, body: RawResponse)

  /** The remote search service, injected: it answers each request. */
  type Endpoint = Request -> Transport

  /** The `(total, data)` pair `query_once` returns; `total == 0` stands for every failure. */
  datatype Reply = Reply(total: int, docs: seq<Document>)

  /** One call of `query_once` made by the search: its page, its limit and its reply. */
  datatype Fetch = Fetch(page: int, limit: int, reply: Reply)

  function Min(a: int, b: int): (m: int)
    ensures m <= a && m <= b
    ensures m == a || m == b
  {
    if a <= b then a else b
  }

  /** `query_once`: a non-positive limit answers `(0, [])` without a request; an exception
      or a status other than 200 answers `(0, [])`; otherwise the reported total and the
      normalised hits. */
  function QueryOnce(endpoint: Endpoint, query: string, limit: int, page: int,
                     sortField: string): (r: Reply)
    ensures limit <= 0 ==> r == Reply(0, [])
    ensures limit >= 1 && endpoint(Request(query, limit, page, sortField, DefaultDatabase)).Raised?
      ==> r == Reply(0, [])
    ensures limit >= 1 && endpoint(Request(query, limit, page, sortField, DefaultDatabase)).Responded?
      && endpoint(Request(query, limit, page, sortField, DefaultDatabase)).status != 200
      ==> r == Reply(0, [])
    ensures var t := endpoint(Request(query, limit, page, sortField, DefaultDatabase));
      limit >= 1 && t.Responded? && t.status == 200
      ==> r == Reply(t.body.total, ProcessResponse(t.body))
  {
    if limit <= 0 then Reply(0, [])
    else
      match endpoint(Request(query, limit, page, sortField, DefaultDatabase))
      case Raised => Reply(0, [])
      case Responded(status, body) =>
        if status != 200 then Reply(0, []) else Reply(body.total, ProcessResponse(body))
  }

  /** A non-positive limit never reaches the endpoint: any two endpoints give the same reply. */
  lemma QueryOnceSkipsEndpoint(e1: Endpoint, e2: Endpoint, query: string, limit: int,
                               page: int, sortField: string)
    requires limit <= 0
    ensures QueryOnce(e1, query, limit, page, sortField) == Reply(0, [])
    ensures QueryOnce(e1, query, limit, page, sortField) == QueryOnce(e2, query, limit, page, sortField)
  {
  }

  function Sum(s: seq<int>): int {
    if |s| == 0 then 0 else s[0] + Sum(s[1..])
  }

  /** The limits of the pages after the first when `rest` records are still wanted and no
      page fails: each is `min(rest, 50)`, which lies in 1..50, and `rest` shrinks by it. */
  function RemainingLimits(rest: int): (limits: seq<int>)
    ensures forall i :: 0 <= i < |limits| ==> 1 <= limits[i] <= PageSize
    ensures rest <= 0 <==> limits == []
    decreases rest
  {
    if rest <= 0 then [] else [Min(rest, PageSize)] + RemainingLimits(rest - Min(rest, PageSize))
  }

  /** The limits of every page when no page fails: `min(num_results, 50)` for page 1, then
      the remaining limits for `min(num_results, first_total) - first_limit` records. */
  function Plan(numResults: int, firstTotal: int): (limits: seq<int>)
    ensures |limits| >= 1 && limits[0] == Min(numResults, PageSize)
    ensures forall i :: 1 <= i < |limits| ==> 1 <= limits[i] <= PageSize
  {
    var first := Min(numResults, PageSize);
    [first] + RemainingLimits(Min(numResults, firstTotal) - first)
  }

  /** The remaining limits add up to exactly the records still wanted, every page but the
      last is full, and their number is `rest / 50` rounded up. */
  lemma {:induction false} RemainingLimitsCover(rest: int)
    requires rest > 0
    ensures Sum(RemainingLimits(rest)) == rest
    ensures forall i :: 0 <= i < |RemainingLimits(rest)| - 1 ==> RemainingLimits(rest)[i] == PageSize
    ensures |RemainingLimits(rest)| == (rest + PageSize - 1) / PageSize
    decreases rest
  {
    var l := Min(rest, PageSize);
    var limits := RemainingLimits(rest);
    if rest > PageSize {
      RemainingLimitsCover(rest - l);
      assert limits[1..] == RemainingLimits(rest - l);
    } else {
      assert RemainingLimits(rest - l) == [];
    }
  }

  /** 120 records wanted of 500 available are fetched as pages of 50, 50 and 20. */
  lemma PlanExample()
    ensures Plan(120, 500) == [50, 50, 20]
  {
    assert RemainingLimits(70) == [50, 20] by {
      assert RemainingLimits(20) == [20] by {
        assert RemainingLimits(0) == [];
      }
    }
  }

  /** The pages after `page`, while `rest` records are still wanted. A page reporting
      `total == 0` is recorded and ends the paging; otherwise `rest` drops by its limit. */
  function LaterPages(endpoint: Endpoint, query: string, sortField: string, page: int,
                      rest: int): (log: seq<Fetch>)
    ensures rest <= 0 <==> log == []
    ensures log != [] ==> log[0].page == page + 1 && log[0].limit == Min(rest, PageSize)
    decreases rest
  {
    if rest <= 0 then []
    else
      var limit := Min(rest, PageSize);
      var fetch := Fetch(page + 1, limit, QueryOnce(endpoint, query, limit, page + 1, sortField));
      if fetch.reply.total == 0 then [fetch]
      else [fetch] + LaterPages(endpoint, query, sortField, page + 1, rest - limit)
  }

  /** Every `query_once` call `search` makes for an already built query, in order. */
  function Pages(endpoint: Endpoint, query: string, numResults: int, sortField: string)
    : seq<Fetch>
  {
    var limit := Min(numResults, PageSize);
    var first := Fetch(1, limit, QueryOnce(endpoint, query, limit, 1, sortField));
    if first.reply.total == 0 then [first]
    else [first] + LaterPages(endpoint, query, sortField, 1,
                              Min(numResults, first.reply.total) - limit)
  }

  /** The first call of a search is page 1 with limit `min(num_results, 50)`, and a first
      total of 0 ends the paging there. */
  lemma PagesFirstCall(endpoint: Endpoint, query: string, numResults: int, sortField: string)
    ensures var log := Pages(endpoint, query, numResults, sortField);
      && |log| >= 1 && log[0].page == 1 && log[0].limit == Min(numResults, PageSize)
      && log[0].reply == QueryOnce(endpoint, query, log[0].limit, 1, sortField)
      && (log[0].reply.total == 0 ==> |log| == 1)
  {
  }

  /** What a fetch adds to the result: its documents when it reported a non-zero total. */
  function Contribution(fetch: Fetch): (docs: seq<Document>)
    ensures fetch.reply.total == 0 ==> docs == []
    ensures fetch.reply.total != 0 ==> docs == fetch.reply.docs
  {
    if fetch.reply.total != 0 then fetch.reply.docs else []
  }

  /** The documents of the successful fetches of `log`, concatenated in fetch order. */
  function SuccessfulDocs(log: seq<Fetch>): (docs: seq<Document>)
    ensures |log| == 1 ==> docs == Contribution(log[0])
  {
    if |log| == 0 then [] else SuccessfulDocs(log[..|log| - 1]) + Contribution(log[|log| - 1])
  }

  lemma {:induction false} SuccessfulDocsCons(fetch: Fetch, log: seq<Fetch>)
    ensures SuccessfulDocs([fetch] + log) == Contribution(fetch) + SuccessfulDocs(log)
    decreases |log|
  {
    var all := [fetch] + log;
    if |log| == 0 {
      assert all[..0] == [];
      assert all == [fetch];
    } else {
      var init := log[..|log| - 1];
      var last := log[|log| - 1];
      assert all[..|all| - 1] == [fetch] + init;
      assert all[|all| - 1] == last;
      assert SuccessfulDocs(all) == SuccessfulDocs([fetch] + init) + Contribution(last);
      assert SuccessfulDocs(log) == SuccessfulDocs(init) + Contribution(last);
      SuccessfulDocsCons(fetch, init);
      AppendAssoc(Contribution(fetch), SuccessfulDocs(init), Contribution(last));
    }
  }

  /** Calls that all reported a total of 0 add nothing: the result stays empty. */
  lemma {:induction false} NoSuccessfulCallNoDocs(log: seq<Fetch>)
    requires forall i :: 0 <= i < |log| ==> log[i].reply.total == 0
    ensures SuccessfulDocs(log) == []
    decreases |log|
  {
    if |log| > 0 {
      var init := log[..|log| - 1];
      assert forall i :: 0 <= i < |init| ==> init[i] == log[i];
      NoSuccessfulCallNoDocs(init);
    }
  }

  lemma AppendAssoc<T>(a: seq<T>, b: seq<T>, c: seq<T>)
    ensures a + b + c == a + (b + c)
  {
  }

  /** `log` is a run of fetches of pages `page + 1`, `page + 2`, ... whose limits follow
      `limits`, whose replies are the endpoint's answers, of which only the last may have
      failed, and which stops only at a failure or when `limits` is used up. */
  ghost predicate WellPaged(log: seq<Fetch>, endpoint: Endpoint, query: string, sortField: string,
                            page: int, limits: seq<int>)
  {
    && |log| <= |limits|
    && (forall i :: 0 <= i < |log| ==>
          && log[i].page == page + 1 + i
          && log[i].limit == limits[i]
          && log[i].reply == QueryOnce(endpoint, query, log[i].limit, log[i].page, sortField))
    && (forall i :: 0 <= i < |log| - 1 ==> log[i].reply.total != 0)
    && (|log| == |limits| || (|log| > 0 && log[|log| - 1].reply.total == 0))
  }

  /** A successful fetch of the next page in front of a well-paged run is well paged. */
  lemma WellPagedCons(fetch: Fetch, tail: seq<Fetch>, endpoint: Endpoint, query: string,
                      sortField: string, page: int, limits: seq<int>)
    requires |limits| >= 1
    requires fetch.page == page + 1 && fetch.limit == limits[0]
    requires fetch.reply == QueryOnce(endpoint, query, fetch.limit, fetch.page, sortField)
    requires fetch.reply.total != 0
    requires WellPaged(tail, endpoint, query, sortField, page + 1, limits[1..])
    ensures WellPaged([fetch] + tail, endpoint, query, sortField, page, limits)
  {
    var log := [fetch] + tail;
    assert forall i :: 1 <= i < |log| ==> log[i] == tail[i - 1];
    if |tail| > 0 {
      assert log[|log| - 1] == tail[|tail| - 1];
    }
  }

  /** The later pages are well paged against the remaining-limits plan. */
  lemma {:induction false} LaterPagesShape(endpoint: Endpoint, query: string, sortField: string,
                                           page: int, rest: int)
    ensures WellPaged(LaterPages(endpoint, query, sortField, page, rest), endpoint, query,
                      sortField, page, RemainingLimits(rest))
    decreases rest
  {
    if rest > 0 {
      var limit := Min(rest, PageSize);
      var log := LaterPages(endpoint, query, sortField, page, rest);
      var plan := RemainingLimits(rest);
      assert plan[0] == limit && plan[1..] == RemainingLimits(rest - limit);
      var fetch := Fetch(page + 1, limit, QueryOnce(endpoint, query, limit, page + 1, sortField));
      if fetch.reply.total == 0 {
        assert log == [fetch];
      } else {
        var tail := LaterPages(endpoint, query, sortField, page + 1, rest - limit);
        assert log == [fetch] + tail;
        LaterPagesShape(endpoint, query, sortField, page + 1, rest - limit);
        WellPagedCons(fetch, tail, endpoint, query, sortField, page, plan);
      }
    }
  }

  /** All pages `search` requests are well paged against the plan fixed by the FIRST page's
      total: page numbers 1, 2, 3, ...; limits following `Plan`; every reply the endpoint's
      answer; only the last page may have failed; and the paging stops only at a failure
      or after the whole plan. */
  lemma PagesShape(endpoint: Endpoint, query: string, numResults: int, sortField: string)
    ensures |Pages(endpoint, query, numResults, sortField)| >= 1
    ensures WellPaged(Pages(endpoint, query, numResults, sortField), endpoint, query, sortField,
                      0, Plan(numResults, Pages(endpoint, query, numResults, sortField)[0].reply.total))
  {
    var log := Pages(endpoint, query, numResults, sortField);
    var limit := Min(numResults, PageSize);
    var first := Fetch(1, limit, QueryOnce(endpoint, query, limit, 1, sortField));
    assert log[0] == first;
    var t := first.reply.total;
    var plan := Plan(numResults, t);
    if t == 0 {
      assert log == [first];
    } else {
      var rest := Min(numResults, t) - limit;
      LaterPagesShape(endpoint, query, sortField, 1, rest);
      assert plan[1..] == RemainingLimits(rest);
      WellPagedCons(log[0], LaterPages(endpoint, query, sortField, 1, rest),
                    endpoint, query, sortField, 0, plan);
    }
  }

  /** A first page reporting `total == 0` (including a non-positive `num_results`, which
      never reaches the endpoint) makes the search return nothing. */
  lemma FirstFailureYieldsNothing(endpoint: Endpoint, query: string, numResults: int,
                                  sortField: string)
    requires numResults <= 0
      || QueryOnce(endpoint, query, Min(numResults, PageSize), 1, sortField).total == 0
    ensures Pages(endpoint, query, numResults, sortField)
      == [Fetch(1, Min(numResults, PageSize),
                QueryOnce(endpoint, query, Min(numResults, PageSize), 1, sortField))]
    ensures SuccessfulDocs(Pages(endpoint, query, numResults, sortField)) == []
  {
    var log := Pages(endpoint, query, numResults, sortField);
    assert log[..0] == [];
  }

  /** A failing second page ends the search with exactly the first page's documents. */
  lemma SecondPageFailureKeepsFirstPage(endpoint: Endpoint, query: string, numResults: int,
                                        sortField: string)
    requires |Pages(endpoint, query, numResults, sortField)| >= 2
    requires Pages(endpoint, query, numResults, sortField)[1].reply.total == 0
    ensures |Pages(endpoint, query, numResults, sortField)| == 2
    ensures SuccessfulDocs(Pages(endpoint, query, numResults, sortField))
      == Pages(endpoint, query, numResults, sortField)[0].reply.docs
  {
    var log := Pages(endpoint, query, numResults, sortField);
    PagesShape(endpoint, query, numResults, sortField);
    assert log[0].reply.total != 0;
    assert |log| == 2;
    assert log[..1][..0] == [];
    assert SuccessfulDocs(log[..1]) == Contribution(log[0]);
    assert SuccessfulDocs(log) == SuccessfulDocs(log[..1]) + Contribution(log[1]);
  }

  /** One step of the later pages: the next page is fetched and, unless it failed, the
      paging continues with `rest` reduced by its limit. */
  lemma LaterPagesStep(endpoint: Endpoint, query: string, sortField: string, page: int, rest: int)
    requires rest > 0
    ensures var limit := Min(rest, PageSize);
      var fetch := Fetch(page + 1, limit, QueryOnce(endpoint, query, limit, page + 1, sortField));
      LaterPages(endpoint, query, sortField, page, rest)
        == if fetch.reply.total == 0 then [fetch]
           else [fetch] + LaterPages(endpoint, query, sortField, page + 1, rest - limit)
  {
  }

  lemma SuccessfulDocsSnoc(log: seq<Fetch>, fetch: Fetch)
    ensures SuccessfulDocs(log + [fetch]) == SuccessfulDocs(log) + Contribution(fetch)
  {
    assert (log + [fetch])[..|log|] == log;
  }

  /** The paging loop of `search` for an already built query. It returns the aggregated
      documents and, for the statement of its contract, the log of `query_once` calls it
      made. */
  method Paginate(endpoint: Endpoint, query: string, numResults: int, sortField: string)
    returns (docs: seq<Document>, log: seq<Fetch>)
    ensures log == Pages(endpoint, query, numResults, sortField)
    ensures docs == SuccessfulDocs(log)
    ensures numResults <= 0 ==> docs == []
  {
    var limit := Min(numResults, PageSize);
    var reply := QueryOnce(endpoint, query, limit, 1, sortField);
    assert numResults <= 0 ==> reply.total == 0;
    var first := Fetch(1, limit, reply);
    SuccessfulDocsSnoc([], first);
    assert [] + [first] == [first];
    if reply.total == 0 {
      assert Pages(endpoint, query, numResults, sortField) == [first];
      docs, log := [], [first];
    } else {
      assert Pages(endpoint, query, numResults, sortField)
             == [first] + LaterPages(endpoint, query, sortField, 1,
                                     Min(numResults, reply.total) - limit);
      docs, log := FetchRemaining(endpoint, query, sortField, 1,
                                  Min(numResults, reply.total) - limit, reply.docs, [first]);
    }
  }

  /** One iteration of the paging loop keeps the loop's account of the calls: the fetched
      page joins the log, and the pages still to come are the later pages from the new page
      number with `rest` reduced by the limit, unless the page failed. */
  lemma FetchStep(endpoint: Endpoint, query: string, sortField: string, page: int, rest: int,
                  log: seq<Fetch>, target: seq<Fetch>)
    requires rest > 0
    requires log + LaterPages(endpoint, query, sortField, page, rest) == target
    ensures var limit := Min(rest, PageSize);
      var fetch := Fetch(page + 1, limit, QueryOnce(endpoint, query, limit, page + 1, sortField));
      && (fetch.reply.total == 0 ==> log + [fetch] == target)
      && (fetch.reply.total != 0 ==>
            log + [fetch] + LaterPages(endpoint, query, sortField, page + 1, rest - limit) == target)
  {
    var limit := Min(rest, PageSize);
    var fetch := Fetch(page + 1, limit, QueryOnce(endpoint, query, limit, page + 1, sortField));
    LaterPagesStep(endpoint, query, sortField, page, rest);
    if fetch.reply.total != 0 {
      AppendAssoc(log, [fetch], LaterPages(endpoint, query, sortField, page + 1, rest - limit));
    }
  }

  /** The `while rest_num > 0` loop: fetches the pages after `page` and appends their
      documents to `docs`, stopping at the first page that reports `total == 0`.
      `rest_num` strictly decreases, so the loop terminates. */
  method FetchRemaining(endpoint: Endpoint, query: string, sortField: string, page: int,
                        restNum: int, docs: seq<Document>, log: seq<Fetch>)
    returns (docs': seq<Document>, log': seq<Fetch>)
    requires docs == SuccessfulDocs(log)
    ensures log' == log + LaterPages(endpoint, query, sortField, page, restNum)
    ensures docs' == SuccessfulDocs(log')
  {
    docs', log' := docs, log;
    var current := page;
    var rest := restNum;
    while rest > 0
      invariant log' + LaterPages(endpoint, query, sortField, current, rest)
                == log + LaterPages(endpoint, query, sortField, page, restNum)
      invariant docs' == SuccessfulDocs(log')
      decreases rest
    {
      var limit := Min(rest, PageSize);
      var reply := QueryOnce(endpoint, query, limit, current + 1, sortField);
      FetchStep(endpoint, query, sortField, current, rest, log',
                log + LaterPages(endpoint, query, sortField, page, restNum));
      SuccessfulDocsSnoc(log', Fetch(current + 1, limit, reply));
      current := current + 1;
      log' := log' + [Fetch(current, limit, reply)];
      if reply.total == 0 {
        break;
      }
      docs' := docs' + reply.docs;
      rest := rest - limit;
    }
  }

  /** `n` copies of one hit. */
  function Copies(hit: RawDocument, n: int): (hits: seq<RawDocument>)
    ensures |hits| == if n <= 0 then 0 else n
    ensures forall i :: 0 <= i < |hits| ==> hits[i] == hit
    decreases n
  {
    if n <= 0 then [] else [hit] + Copies(hit, n - 1)
  }

  /** A simulated endpoint that always succeeds, reports `total` and returns exactly as many
      hits as the limit asks for. */
  function SteadyEndpoint(total: int, hit: RawDocument): Endpoint {
    (request: Request) => Responded(200, RawResponse(total, Some(Copies(hit, request.limit))))
  }

  /** Against a steady endpoint every later page succeeds and together they deliver exactly
      the `rest` records still wanted. */
  lemma {:induction false} SteadyLaterPagesCount(total: int, hit: RawDocument, query: string,
                                                 sortField: string, page: int, rest: int)
    requires Kept(hit) && total != 0
    ensures |SuccessfulDocs(LaterPages(SteadyEndpoint(total, hit), query, sortField, page, rest))|
      == if rest <= 0 then 0 else rest
    decreases rest
  {
    var endpoint := SteadyEndpoint(total, hit);
    if rest > 0 {
      var limit := Min(rest, PageSize);
      var hits := Copies(hit, limit);
      ProcessHitsAllKept(hits);
      var reply := QueryOnce(endpoint, query, limit, page + 1, sortField);
      assert reply == Reply(total, ProcessHits(hits));
      var tail := LaterPages(endpoint, query, sortField, page + 1, rest - limit);
      assert LaterPages(endpoint, query, sortField, page, rest)
        == [Fetch(page + 1, limit, reply)] + tail;
      SuccessfulDocsCons(Fetch(page + 1, limit, reply), tail);
      SteadyLaterPagesCount(total, hit, query, sortField, page + 1, rest - limit);
    }
  }

  /** Against a steady endpoint a search for `n` records returns
      `max(min(n, total), min(n, 50))` of them (and none for `n <= 0`). */
  lemma SteadySearchCount(total: int, hit: RawDocument, query: string, numResults: int,
                          sortField: string)
    requires Kept(hit) && total != 0
    ensures |SuccessfulDocs(Pages(SteadyEndpoint(total, hit), query, numResults, sortField))|
      == if numResults <= 0 then 0
         else if Min(numResults, total) >= Min(numResults, PageSize) then Min(numResults, total)
         else Min(numResults, PageSize)
  {
    var endpoint := SteadyEndpoint(total, hit);
    var limit := Min(numResults, PageSize);
    if numResults > 0 {
      var hits := Copies(hit, limit);
      ProcessHitsAllKept(hits);
      var reply := QueryOnce(endpoint, query, limit, 1, sortField);
      assert reply == Reply(total, ProcessHits(hits));
      var rest := Min(numResults, total) - limit;
      var tail := LaterPages(endpoint, query, sortField, 1, rest);
      assert Pages(endpoint, query, numResults, sortField) == [Fetch(1, limit, reply)] + tail;
      SuccessfulDocsCons(Fetch(1, limit, reply), tail);
      SteadyLaterPagesCount(total, hit, query, sortField, 1, rest);
    } else {
      FirstFailureYieldsNothing(endpoint, query, numResults, sortField);
    }
  }

  /** 120 records wanted of 500 available: pages of 50, 50 and 20 are requested and all
      120 records come back. */
  lemma SteadySearchExample(hit: RawDocument, query: string, sortField: string)
    requires Kept(hit)
    ensures |SuccessfulDocs(Pages(SteadyEndpoint(500, hit), query, 120, sortField))| == 120
    ensures var log := Pages(SteadyEndpoint(500, hit), query, 120, sortField);
      |log| == 3 && log[0].limit == 50 && log[1].limit == 50 && log[2].limit == 20
  {
    var endpoint := SteadyEndpoint(500, hit);
    var log := Pages(endpoint, query, 120, sortField);
    SteadySearchCount(500, hit, query, 120, sortField);
    PagesShape(endpoint, query, 120, sortField);
    PlanExample();
    var reply := QueryOnce(endpoint, query, 50, 1, sortField);
    ProcessHitsAllKept(Copies(hit, 50));
    assert log[0].reply.total == 500;
    assert forall i :: 0 <= i < |log| ==> log[i].reply.total == 500;
  }
}
