/**
  The paginator, `getExecutions` with the cursor handling of `getPage`: the
  search is issued first without a cursor and then, while the last record of
  the previous page carries a truthy cursor, with that cursor. A page with a
  truthy `errors` member ends the whole search; nothing partial is returned.

  The loop of the source stops only when the server stops handing out
  cursors. The model bounds the number of requests by `fuel`; a run that
  would need more ends with `OutOfFuel`.
 */
module Pagination {
  import opened Flow
  import opened Seqs
  import opened Normalize

  /** The `cursor` variable of a search request built from `cursor`: it is
      set only when `cursor` is truthy. */
  function CursorVariable(cursor: Option<string>): (sent: Option<string>)
    ensures sent.Some? <==> Truthy(cursor)
    ensures sent.None? || Truthy(sent)
    ensures Truthy(cursor) ==> sent == cursor
  {
    if Truthy(cursor) then cursor else None
  }

  /** The cursor the loop carries after a page: that of the page's last
      record, or null after a page without records. */
  function NextCursor(recs: seq<ExecutionRecord>): Option<string> {
    if |recs| > 0 then recs[|recs| - 1].cursor else None
  }

  /** Whether the loop asks for another page after this one. */
  predicate Continues(recs: seq<ExecutionRecord>) {
    Truthy(NextCursor(recs))
  }

  /** One request and the checks on its response: a failed request, then a
      body with a truthy `errors` member, then a page `makeExecutions` cannot
      read, each end the search; otherwise the page's records. */
  function Fetch(server: Server, sent: Option<string>): Result<seq<ExecutionRecord>> {
    match server(sent)
    case TransportFailed(reason) => Failure(RequestFailed(reason))
    case Delivered(page) =>
      if page.errors.Some? then Failure(SearchErrors(page.errors.value))
      else MakeExecutions(page)
  }

  /** `xs` in front of a successful result; a failure stays as it is. */
  function Prepend(xs: seq<ExecutionRecord>, r: Result<seq<ExecutionRecord>>): Result<seq<ExecutionRecord>> {
    match r
    case Success(ys) => Success(xs + ys)
    case Failure(f) => Failure(f)
  }

  lemma {:induction false} PrependAssoc(xs: seq<ExecutionRecord>, ys: seq<ExecutionRecord>, r: Result<seq<ExecutionRecord>>)
    ensures Prepend(xs, Prepend(ys, r)) == Prepend(xs + ys, r)
  {
    if r.Success? {
      assert xs + (ys + r.value) == (xs + ys) + r.value;
    }
  }

  /** Reference definition of the search from the request carrying `sent`
      on, with at most `fuel` requests left. */
  function Crawl(server: Server, sent: Option<string>, fuel: nat): Result<seq<ExecutionRecord>>
    decreases fuel
  {
    if fuel == 0 then Failure(OutOfFuel)
    else match Fetch(server, sent)
      case Failure(f) => Failure(f)
      case Success(recs) =>
        if Continues(recs) then Prepend(recs, Crawl(server, NextCursor(recs), fuel - 1))
        else Success(recs)
  }

  /** The requests of a search chain: the first carries no cursor, and each
      later one carries the truthy cursor of the last record of the page
      before it. */
  predicate Chained(sent: seq<Option<string>>, pages: seq<seq<ExecutionRecord>>)
    requires |sent| <= |pages| + 1
  {
    && (|sent| > 0 ==> sent[0] == None)
    && forall k :: 0 < k < |sent| ==> sent[k] == NextCursor(pages[k - 1]) && Truthy(sent[k])
  }

  /** Page `k` holds the records the server returned to request `k`. */
  predicate PagesAnswered(server: Server, sent: seq<Option<string>>, pages: seq<seq<ExecutionRecord>>)
    requires |pages| <= |sent|
  {
    forall k :: 0 <= k < |pages| ==> Fetch(server, sent[k]) == Success(pages[k])
  }

  /** Every one of `pages` asked for another page. */
  predicate AllContinue(pages: seq<seq<ExecutionRecord>>) {
    forall k :: 0 <= k < |pages| ==> Continues(pages[k])
  }

  /** The loop of `getExecutions` after `|pages|` requests, each answered
      with a page that asked for another, with `remaining` requests left:
      `cursor` is the cursor the last page handed out, `executions` the
      records so far, and the rest of the search is `Crawl` from `cursor`. */
  ghost predicate Searching(server: Server, fuel: nat, remaining: nat, cursor: Option<string>,
                            executions: seq<ExecutionRecord>, sent: seq<Option<string>>, pages: seq<seq<ExecutionRecord>>) {
    && |sent| == |pages| == fuel - remaining
    && executions == Flatten(pages)
    && cursor == (if |pages| == 0 then None else NextCursor(pages[|pages| - 1]))
    && (|pages| > 0 ==> Truthy(cursor))
    && Chained(sent, pages)
    && PagesAnswered(server, sent, pages)
    && AllContinue(pages)
    && Crawl(server, None, fuel) == Prepend(executions, Crawl(server, CursorVariable(cursor), remaining))
  }

  /** What `GetExecutions` promises about its results, one clause per
      postcondition. */
  ghost predicate Searched(server: Server, fuel: nat, result: Result<seq<ExecutionRecord>>,
                           sent: seq<Option<string>>, pages: seq<seq<ExecutionRecord>>) {
    && result == Crawl(server, None, fuel)
    && |pages| <= |sent| <= |pages| + 1 && |sent| <= fuel
    && Chained(sent, pages)
    && PagesAnswered(server, sent, pages)
    && (forall k :: 0 <= k < |pages| - 1 ==> Continues(pages[k]))
    && (result.Success? ==>
          && |sent| == |pages| > 0
          && !Continues(pages[|pages| - 1])
          && result.value == Flatten(pages))
    && (result.Failure? && result.error != OutOfFuel ==>
          && |sent| == |pages| + 1
          && AllContinue(pages)
          && Fetch(server, sent[|pages|]) == Failure(result.error))
    && (result == Failure(OutOfFuel) ==>
          && |sent| == |pages| == fuel
          && AllContinue(pages))
  }

  /** `getExecutions`. Besides the result it returns the cursor variable of
      every request sent and the records of every page read. The requests
      chain, so no falsy cursor is ever sent. Every page but the last asked
      for another; a successful search ends on a page that does not and
      returns all pages' records in order. A failing request or page ends
      the search with its fault and returns nothing else. */
  method GetExecutions(server: Server, fuel: nat)
    returns (result: Result<seq<ExecutionRecord>>, sent: seq<Option<string>>, pages: seq<seq<ExecutionRecord>>)
    ensures result == Crawl(server, None, fuel)
    ensures |pages| <= |sent| <= |pages| + 1 && |sent| <= fuel
    ensures Chained(sent, pages)
    ensures PagesAnswered(server, sent, pages)
    ensures forall k :: 0 <= k < |pages| - 1 ==> Continues(pages[k])
    ensures result.Success? ==>
      && |sent| == |pages| > 0
      && !Continues(pages[|pages| - 1])
      && result.value == Flatten(pages)
    ensures result.Failure? && result.error != OutOfFuel ==>
      && |sent| == |pages| + 1
      && AllContinue(pages)
      && Fetch(server, sent[|pages|]) == Failure(result.error)
    ensures result == Failure(OutOfFuel) ==>
      && |sent| == |pages| == fuel
      && AllContinue(pages)
  {
    var cursor: Option<string> := None;
    var executions: seq<ExecutionRecord> := [];
    var remaining := fuel;
    sent, pages := [], [];
    StartSearching(server, fuel);
    while true
      invariant Searching(server, fuel, remaining, cursor, executions, sent, pages)
      decreases remaining
    {
      if remaining == 0 {
        StopOutOfFuel(server, fuel, cursor, executions, sent, pages);
        result := Failure(OutOfFuel);
        return;
      }
      var request := CursorVariable(cursor);
      var fetched := Fetch(server, request);
      if fetched.Failure? {
        StopOnFailure(server, fuel, remaining, cursor, executions, sent, pages);
        sent := sent + [request];
        result := Failure(fetched.error);
        return;
      }
      var pageExecutions := fetched.value;
      if !Continues(pageExecutions) {
        StopOnLastPage(server, fuel, remaining, cursor, executions, sent, pages);
      } else {
        Advance(server, fuel, remaining, cursor, executions, sent, pages);
      }
      sent := sent + [request];
      pages := pages + [pageExecutions];
      executions := executions + pageExecutions;
      cursor := NextCursor(pageExecutions);
      remaining := remaining - 1;
      if !Truthy(cursor) {
        result := Success(executions);
        return;
      }
    }
  }

  /** Before the first request: nothing read, the whole search ahead. */
  lemma {:induction false} StartSearching(server: Server, fuel: nat)
    ensures Searching(server, fuel, fuel, None, [], [], [])
  {
    var whole := Crawl(server, None, fuel);
    if whole.Success? {
      assert [] + whole.value == whole.value;
    }
  }

  /** No request left: the search ends with `OutOfFuel`. */
  lemma {:induction false} StopOutOfFuel(server: Server, fuel: nat, cursor: Option<string>,
                                         executions: seq<ExecutionRecord>, sent: seq<Option<string>>, pages: seq<seq<ExecutionRecord>>)
    requires Searching(server, fuel, 0, cursor, executions, sent, pages)
    ensures Searched(server, fuel, Failure(OutOfFuel), sent, pages)
  {
  }

  /** The next request fails: the search ends with that request's fault. */
  lemma {:induction false} StopOnFailure(server: Server, fuel: nat, remaining: nat, cursor: Option<string>,
                                         executions: seq<ExecutionRecord>, sent: seq<Option<string>>, pages: seq<seq<ExecutionRecord>>)
    requires remaining > 0 && Searching(server, fuel, remaining, cursor, executions, sent, pages)
    requires Fetch(server, CursorVariable(cursor)).Failure?
    ensures Searched(server, fuel, Failure(Fetch(server, CursorVariable(cursor)).error), sent + [CursorVariable(cursor)], pages)
  {
    var request := CursorVariable(cursor);
    CrawlUnfold(server, request, remaining);
    FetchNeverRunsOutOfFuel(server, request);
    ChainedExtend(sent, pages, request);
    var s := sent + [request];
    assert s[..|pages|] == sent;
    assert s[|pages|] == request;
    forall k | 0 <= k < |pages|
      ensures Fetch(server, s[k]) == Success(pages[k])
    {
      assert s[k] == sent[k];
    }
  }

  /** The next page asks for no other: the search ends with every record
      read. */
  lemma {:induction false} StopOnLastPage(server: Server, fuel: nat, remaining: nat, cursor: Option<string>,
                                          executions: seq<ExecutionRecord>, sent: seq<Option<string>>, pages: seq<seq<ExecutionRecord>>)
    requires remaining > 0 && Searching(server, fuel, remaining, cursor, executions, sent, pages)
    requires Fetch(server, CursorVariable(cursor)).Success? && !Continues(Fetch(server, CursorVariable(cursor)).value)
    ensures var page := Fetch(server, CursorVariable(cursor)).value;
      Searched(server, fuel, Success(executions + page), sent + [CursorVariable(cursor)], pages + [page])
  {
    var request := CursorVariable(cursor);
    var page := Fetch(server, request).value;
    CrawlUnfold(server, request, remaining);
    ChainedExtend(sent, pages, request);
    PagesAnsweredExtend(server, sent + [request], pages, page);
    FlattenSnoc(pages, page);
    var ps := pages + [page];
    forall k | 0 <= k < |ps| - 1
      ensures Continues(ps[k])
    {
      assert ps[k] == pages[k];
    }
  }

  /** The next page asks for another: the loop goes round once more. */
  lemma {:induction false} Advance(server: Server, fuel: nat, remaining: nat, cursor: Option<string>,
                                   executions: seq<ExecutionRecord>, sent: seq<Option<string>>, pages: seq<seq<ExecutionRecord>>)
    requires remaining > 0 && Searching(server, fuel, remaining, cursor, executions, sent, pages)
    requires Fetch(server, CursorVariable(cursor)).Success? && Continues(Fetch(server, CursorVariable(cursor)).value)
    ensures var page := Fetch(server, CursorVariable(cursor)).value;
      Searching(server, fuel, remaining - 1, NextCursor(page), executions + page, sent + [CursorVariable(cursor)], pages + [page])
  {
    var request := CursorVariable(cursor);
    var page := Fetch(server, request).value;
    var next := NextCursor(page);
    CrawlUnfold(server, request, remaining);
    ChainedExtend(sent, pages, request);
    PagesAnsweredExtend(server, sent + [request], pages, page);
    FlattenSnoc(pages, page);
    var ps := pages + [page];
    forall k | 0 <= k < |ps|
      ensures Continues(ps[k])
    {
      if k < |pages| {
        assert ps[k] == pages[k];
      }
    }
    assert CursorVariable(next) == next;
    PrependAssoc(executions, page, Crawl(server, next, remaining - 1));
  }

  /** One step of `Crawl`, spelled out for the loop's proof. */
  lemma {:induction false} CrawlUnfold(server: Server, sent: Option<string>, fuel: nat)
    requires fuel > 0
    ensures Fetch(server, sent).Failure? ==> Crawl(server, sent, fuel) == Failure(Fetch(server, sent).error)
    ensures Fetch(server, sent).Success? && Continues(Fetch(server, sent).value) ==>
      Crawl(server, sent, fuel) == Prepend(Fetch(server, sent).value, Crawl(server, NextCursor(Fetch(server, sent).value), fuel - 1))
    ensures Fetch(server, sent).Success? && !Continues(Fetch(server, sent).value) ==>
      Crawl(server, sent, fuel) == Fetch(server, sent)
  {
  }

  /** Sending the next request keeps the cursor chain intact. */
  lemma {:induction false} ChainedExtend(sent: seq<Option<string>>, pages: seq<seq<ExecutionRecord>>, request: Option<string>)
    requires |sent| == |pages| && Chained(sent, pages)
    requires request == CursorVariable(if |pages| == 0 then None else NextCursor(pages[|pages| - 1]))
    requires |pages| > 0 ==> Continues(pages[|pages| - 1])
    ensures Chained(sent + [request], pages)
  {
    var s := sent + [request];
    forall k | 0 < k < |s|
      ensures s[k] == NextCursor(pages[k - 1]) && Truthy(s[k])
    {
      if k < |sent| {
        assert s[k] == sent[k];
      }
    }
  }

  /** An answered request adds its page to the answered prefix. */
  lemma {:induction false} PagesAnsweredExtend(server: Server, sent: seq<Option<string>>, pages: seq<seq<ExecutionRecord>>, page: seq<ExecutionRecord>)
    requires |sent| == |pages| + 1 && PagesAnswered(server, sent[..|pages|], pages)
    requires Fetch(server, sent[|pages|]) == Success(page)
    ensures PagesAnswered(server, sent, pages + [page])
  {
    var ps := pages + [page];
    forall k | 0 <= k < |ps|
      ensures Fetch(server, sent[k]) == Success(ps[k])
    {
      if k < |pages| {
        assert sent[..|pages|][k] == sent[k];
      }
    }
  }

  /** A single request never fails for lack of fuel. */
  lemma {:induction false} FetchNeverRunsOutOfFuel(server: Server, sent: Option<string>)
    ensures Fetch(server, sent) != Failure(OutOfFuel)
  {
    if server(sent).Delivered? {
      MakeExecutionsSpec(server(sent).page);
    }
  }

  /** Fuel only cuts a search short: a search that finished with some fuel
      gives the same result with any larger amount. */
  lemma {:induction false} CrawlFuelMonotone(server: Server, sent: Option<string>, fuel: nat, more: nat)
    requires fuel <= more
    requires Crawl(server, sent, fuel) != Failure(OutOfFuel)
    ensures Crawl(server, sent, more) == Crawl(server, sent, fuel)
    decreases fuel
  {
    assert fuel > 0;
    var r := Fetch(server, sent);
    if r.Success? && Continues(r.value) {
      var next := NextCursor(r.value);
      var tail := Crawl(server, next, fuel - 1);
      assert Crawl(server, sent, fuel) == Prepend(r.value, tail);
      assert Crawl(server, sent, more) == Prepend(r.value, Crawl(server, next, more - 1));
      assert tail != Failure(OutOfFuel);
      CrawlFuelMonotone(server, next, fuel - 1, more - 1);
    }
  }

  /** A server that answers cursor `c` with records whose last one carries
      `c` again keeps the search asking forever: no amount of fuel is
      enough. */
  lemma {:induction false} CursorCycleNeverEnds(server: Server, c: string, fuel: nat)
    requires c != ""
    requires Fetch(server, Some(c)).Success? && NextCursor(Fetch(server, Some(c)).value) == Some(c)
    ensures Crawl(server, Some(c), fuel) == Failure(OutOfFuel)
    decreases fuel
  {
    if fuel > 0 {
      CursorCycleNeverEnds(server, c, fuel - 1);
    }
  }
}
