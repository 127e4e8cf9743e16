/** The DescribeInstances paginator of the SDK and the lookup loop over it (core_util.go). */
module Paginators {
  import opened Wrappers
  import opened Paging
  import opened Ec2
  import opened DriverSpec

  class Paginator {
    const filters: seq<Filter>
    var nextToken: Option<string>
    var firstPage: bool

    constructor (filters: seq<Filter>)
      ensures this.filters == filters && nextToken == None && firstPage
    {
      this.filters, nextToken, firstPage := filters, None, true;
    }

    predicate HasMorePages()
      reads this
    {
      firstPage || (nextToken.Some? && nextToken.value != "")
    }

    /** The paginator has fetched the first c pages of what matches in w0, and w is the world now. */
    ghost predicate After(w0: World, c: nat, w: World)
      reads this
    {
      && (firstPage <==> c == 0)
      && nextToken == TokenAfter(c, Reached(w0, filters), w0.pageSize)
      && Fetching(w0, filters, c, w)
    }

    /** Fetches one more page, or fails as the API call fails. */
    method NextPage(ec2: Client, ghost w0: World, ghost c: nat) returns (r: ApiResult<seq<Instance>>)
      requires After(w0, c, ec2.View()) && HasMorePages()
      modifies this, ec2`script
      ensures r.Failure? ==> FetchAll(w0, filters) == Answer(ec2.View(), Err(Internal))
      ensures r.Success? ==>
                && After(w0, c + 1, ec2.View())
                && c < PageCount(Reached(w0, filters), w0.pageSize)
                && FetchedBy(w0, filters, c) + r.value == FetchedBy(w0, filters, c + 1)
    {
      assert Found(ec2.View(), filters) == Found(w0, filters);
      NextFetched(w0, filters, c);
      FetchingStep(w0, filters, c, ec2.View());
      var page := ec2.DescribeInstances(filters, nextToken);
      if page.Failure? {
        return Failure(page.error);
      }
      firstPage := false;
      var prevToken := nextToken;
      nextToken := page.value.nextToken;
      if prevToken.Some? && nextToken.Some? && prevToken.value == nextToken.value {
        nextToken := None;
      }
      r := Success(page.value.items);
    }
  }

  /** The instances on the first c pages. */
  function FetchedBy(w: World, filters: seq<Filter>, c: nat): seq<Instance> {
    Found(w, filters)[..Position(c, Reached(w, filters), w.pageSize)]
  }

  /** One turn of the loop: the page is within bounds and continues what was fetched so far. */
  lemma NextFetched(w: World, filters: seq<Filter>, c: nat)
    requires More(c, Reached(w, filters), w.pageSize)
    ensures var token := TokenAfter(c, Reached(w, filters), w.pageSize);
            var page := ServePage(Found(w, filters), w.pageSize, w.duplicateAt, token);
            && page.Page?
            && FetchedBy(w, filters, c) + page.items == FetchedBy(w, filters, c + 1)
            && Deduplicated(token, page.nextToken) == TokenAfter(c + 1, Reached(w, filters), w.pageSize)
    ensures c < PageCount(Reached(w, filters), w.pageSize)
  {
    ServeNext(Found(w, filters), w.pageSize, w.duplicateAt, c);
    MoreIff(c, Reached(w, filters), w.pageSize);
  }

  /** After c accepted pages, the outcome of the lookup is decided by the rest of the script. */
  ghost predicate Fetching(w0: World, filters: seq<Filter>, c: nat, w: World) {
    var pages := PageCount(Reached(w0, filters), w0.pageSize);
    && c <= pages
    && w == w0.Skip(c)
    && AcceptedCalls(w0.script, pages) == c + AcceptedCalls(w.script, pages - c)
  }

  lemma AcceptedCallsStep(script: seq<Outcome>, n: nat)
    requires n > 0
    ensures script == [] || script[0].Accept? ==>
              AcceptedCalls(script, n) == 1 + AcceptedCalls(if script == [] then [] else script[1..], n - 1)
    ensures script != [] && !script[0].Accept? ==> AcceptedCalls(script, n) == 0
  {
  }

  lemma FetchingStep(w0: World, filters: seq<Filter>, c: nat, w: World)
    requires Fetching(w0, filters, c, w) && More(c, Reached(w0, filters), w0.pageSize)
    ensures w.Outcome().Accept? ==> Fetching(w0, filters, c + 1, w.Skip(1))
    ensures !w.Outcome().Accept? ==> FetchAll(w0, filters) == Answer(w.Skip(1), Err(Internal))
  {
    var pages := PageCount(Reached(w0, filters), w0.pageSize);
    MoreIff(c, Reached(w0, filters), w0.pageSize);
    assert w.Skip(1) == w0.Skip(c + 1);
    AcceptedCallsStep(w.script, pages - c);
  }

  lemma FetchingDone(w0: World, filters: seq<Filter>, c: nat, w: World)
    requires Fetching(w0, filters, c, w) && !More(c, Reached(w0, filters), w0.pageSize)
    ensures c == PageCount(Reached(w0, filters), w0.pageSize)
    ensures FetchAll(w0, filters) == Answer(w, Ok(FetchedBy(w0, filters, c)))
  {
    MoreIff(c, Reached(w0, filters), w0.pageSize);
  }

  /** The lookup loop over the pages; it ends, stays within bounds and computes FetchAll. */
  method GetInstances(ec2: Client, filters: seq<Filter>) returns (r: Result<seq<Instance>>, pageCount: nat)
    modifies ec2
    ensures Answer(ec2.View(), r) == FetchAll(old(ec2.View()), filters)
    ensures r.Ok? ==> pageCount == PageCount(Reached(old(ec2.View()), filters), ec2.pageSize)
  {
    ghost var w0 := ec2.View();
    var paginator := new Paginator(filters);
    var instances: seq<Instance> := [];
    pageCount := 0;
    while paginator.HasMorePages()
      invariant paginator.After(w0, pageCount, ec2.View()) && fresh(paginator) && paginator.filters == filters
      invariant instances == FetchedBy(w0, filters, pageCount)
      decreases PageCount(Reached(w0, filters), ec2.pageSize) - pageCount
    {
      var page := paginator.NextPage(ec2, w0, pageCount);
      if page.Failure? {
        return Err(Internal), pageCount + 1;
      }
      pageCount := pageCount + 1;
      instances := instances + page.value;
    }
    FetchingDone(w0, filters, pageCount, ec2.View());
    r := Ok(instances);
  }

  /** Every call of the lookup is accepted. */
  predicate AllPagesAccepted(w: World, filters: seq<Filter>) {
    var pages := PageCount(Reached(w, filters), w.pageSize);
    AcceptedCalls(w.script, pages) == pages
  }

  /** The paged lookup refines the unpaged list: whatever the page size, it returns that list, in order. */
  lemma PagingRefinesList(w: World, filters: seq<Filter>)
    requires w.duplicateAt <= 0
    ensures FetchAll(w, filters).result == if AllPagesAccepted(w, filters) then Ok(Found(w, filters)) else Err(Internal)
    ensures w.pageSize > 0 ==>
              var n, p := |Found(w, filters)|, w.pageSize;
              var ceiling := (n + p - 1) / p;
              PageCount(Reached(w, filters), p) == if ceiling >= 1 then ceiling else 1
  {
    assert Found(w, filters)[..|Found(w, filters)|] == Found(w, filters);
    if w.pageSize > 0 {
      PageCountIsCeiling(|Found(w, filters)|, w.pageSize);
    }
  }

  /** A server that repeats its token at page k ends the lookup there, with the first k pages. */
  lemma DuplicateTokenStops(w: World, filters: seq<Filter>)
    requires w.duplicateAt >= 1 && w.pageSize > 0 && AllPagesAccepted(w, filters)
    ensures w.duplicateAt * w.pageSize >= 0
    ensures FetchAll(w, filters).result == Ok(Found(w, filters)[..Min(|Found(w, filters)|, w.duplicateAt * w.pageSize)])
    ensures PageCount(Reached(w, filters), w.pageSize) <= w.duplicateAt
  {
    var m, k, p := Reached(w, filters), w.duplicateAt, w.pageSize;
    MultiplesApart(0, k, p);
    MoreIff(k, m, p);
  }
}
