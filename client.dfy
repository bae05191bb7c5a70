/** `MLOLClient`: a session bound to one library portal. Each method sends
    its requests through the session and is proved to behave as the
    `Workflow` function of the same operation. */
module MlolClient {
  import opened Wrappers
  import opened Text
  import opened Patterns
  import opened Markup
  import opened Books
  import opened Listing
  import opened Detail
  import opened Http
  import opened Workflow

  /** `username and password and domain`: all three given and non-empty. */
  predicate HasCredentials(domain: Option<string>, username: Option<string>, password: Option<string>) {
    domain.Some? && domain.value != [] &&
    username.Some? && username.value != [] &&
    password.Some? && password.value != []
  }

  class Client {
    /** The portal the session talks to. */
    const site: Site
    /** The session's base URL. */
    const baseUrl: string
    /** Whether the session's cookies hold `.ASPXAUTH`. */
    const authenticated: bool

    /** With credentials and a sub-domain, the base URL becomes the
        sub-domain's and the session is authenticated when the login form
        left the cookie (`loginSetsCookie`); without them the session stays
        on the default portal, unauthenticated. */
    constructor(site: Site, domain: Option<string>, username: Option<string>, password: Option<string>, loginSetsCookie: bool)
      ensures this.site == site
      ensures HasCredentials(domain, username, password) ==>
        baseUrl == BaseUrlFor(domain.value) && authenticated == loginSetsCookie
      ensures !HasCredentials(domain, username, password) ==>
        baseUrl == DefaultBaseUrl && !authenticated
    {
      this.site := site;
      if HasCredentials(domain, username, password) {
        baseUrl := BaseUrlFor(domain.value);
        authenticated := loginSetsCookie;
      } else {
        baseUrl := DefaultBaseUrl;
        authenticated := false;
      }
    }

    /** `get_book_url_by_id`. */
    function BookUrlById(bookId: string): (r: string)
      ensures StartsWith(r, baseUrl) && EndsWith(r, "?id=" + bookId)
      ensures bookId != [] && AllDigits(bookId) ==> TrailingNumberAfter(IdMarker, r) == Some(bookId)
    {
      BookUrlRoundTrip(baseUrl, bookId);
      BookUrl(baseUrl, bookId)
    }

    /** `get_book_by_id`. */
    method GetBookById(bookId: string) returns (r: Run<Option<Book>>)
      ensures r == GetBookRun(site, bookId)
    {
      var req := GetBookRequest(bookId);
      var response := Send(site, req);
      if response.Err? {
        return Run(Err(response.error), [req]);
      }
      if Contains(response.value.url, AlertPage) {
        return Run(Ok(None), [req]);
      }
      var data := ParseBookPage(site.soup(response.value.text).detail);
      if data.Err? {
        return Run(Err(data.error), [req]);
      }
      var d := data.value;
      if d.title.None? {
        return Run(Ok(None), [req]);
      }
      var book := Book(bookId, d.title.value, d.authors, d.status, d.publisher, d.isbns,
                       d.language, d.description, d.year, d.formats, d.drm);
      r := Run(Ok(Some(book)), [req]);
    }

    /** `_redownload_owned_book`. */
    method RedownloadOwnedBook(bookId: string) returns (r: Run<Response>)
      ensures r == RedownloadRun(site, bookId)
    {
      var response := Send(site, ResourcesRequest);
      if response.Err? {
        return Run(Err(response.error), [ResourcesRequest]);
      }
      var loanId := LoanIdFor(site.soup(response.value.text).anchors, bookId);
      if loanId.Err? {
        return Run(Err(loanId.error), [ResourcesRequest]);
      }
      var req := RedownloadRequest(loanId.value);
      response := Send(site, req);
      r := Run(response, [ResourcesRequest, req]);
    }

    /** `download_book_by_id`. */
    method DownloadBookById(bookId: string) returns (r: Run<Option<seq<byte>>>)
      ensures r == DownloadRun(site, authenticated, bookId)
    {
      if !authenticated {
        return Run(Ok(None), []);
      }
      var lookup := GetBookById(bookId);
      var sent := lookup.sent;
      if lookup.result.Err? {
        return Run(Err(lookup.result.error), sent);
      }
      if lookup.result.value.None? {
        return Run(Err(BookMissing), sent);
      }
      var book := lookup.result.value.value;
      var response: Result<Response, Fault>;
      if book.status == Some(Owned) {
        var owned := RedownloadOwnedBook(bookId);
        sent := sent + owned.sent;
        response := owned.result;
      } else if book.status != Some(Available) {
        return Run(Ok(None), sent);
      } else {
        var req := DownloadRequest(bookId);
        sent := sent + [req];
        response := Send(site, req);
      }
      if response.Err? {
        return Run(Err(response.error), sent);
      }
      if response.value.status == 302 {
        if response.value.location.None? {
          return Run(Err(LocationMissing), sent);
        }
        var req := FollowRequest(response.value.location.value);
        sent := sent + [req];
        response := Send(site, req);
        if response.Err? {
          return Run(Err(response.error), sent);
        }
      }
      if StartsWith(response.value.text, FulfillmentToken) {
        r := Run(Ok(Some(response.value.content)), sent);
      } else {
        r := Run(Ok(None), sent);
      }
    }

    /** `reserve_book_by_id`: the status of the book is only logged. */
    method ReserveBookById(bookId: string, email: string) returns (r: Run<Option<bool>>)
      ensures r == ReserveRun(site, authenticated, bookId, email)
    {
      if !authenticated {
        return Run(Ok(None), []);
      }
      var lookup := GetBookById(bookId);
      if lookup.result.Err? {
        return Run(Err(lookup.result.error), lookup.sent);
      }
      if lookup.result.value.None? {
        return Run(Err(BookMissing), lookup.sent);
      }
      var req := ReserveRequest(bookId, email);
      var sent := lookup.sent + [req];
      var response := Send(site, req);
      if response.Err? {
        return Run(Err(response.error), sent);
      }
      var info := site.soup(response.value.text).info;
      if info.None? {
        return Run(Ok(None), sent);
      }
      var message := Lower(Strip(info.value));
      if Contains(message, ReservedMessage) {
        r := Run(Ok(Some(true)), sent);
      } else if Contains(message, AlreadyReservedMessage) {
        r := Run(Ok(Some(true)), sent);
      } else {
        r := Run(Ok(Some(false)), sent);
      }
    }

    /** `executor.map(self.get_book_by_id, ids)` collected into a list: the
        lookups are made in listing order, and the first failure in that
        order is raised. */
    method LookupBooks(books: seq<Book>) returns (r: Run<seq<Option<Book>>>)
      ensures r == LookupRuns(site, books)
    {
      var found: seq<Option<Book>> := [];
      var failure: Option<Fault> := None;
      var sent: seq<Request> := [];
      var k := 0;
      while k < |books|
        invariant 0 <= k <= |books|
        invariant sent == LookupRequests(books[..k])
        invariant Gather(Outcomes(site, books)[..k]) == if failure.Some? then Err(failure.value) else Ok(found)
      {
        var lookup := GetBookById(books[k].id);
        GatherPrefix(Outcomes(site, books), k);
        assert lookup.result == Outcomes(site, books)[k];
        LookupRequestsStep(books, k);
        sent := sent + lookup.sent;
        if failure.None? {
          if lookup.result.Err? {
            failure := Some(lookup.result.error);
          } else {
            found := found + [lookup.result.value];
          }
        }
        k := k + 1;
      }
      assert Outcomes(site, books)[..k] == Outcomes(site, books);
      assert books[..k] == books;
      r := Run(if failure.Some? then Err(failure.value) else Ok(found), sent);
    }

    /** The batch of one listing page: the parsed records, or with `deep`
        the lookups of their ids on a pool of `min(len(books), ...)`
        workers, which cannot be started without a book. */
    method ReadBatch(page: Document, deep: bool) returns (r: Run<Batch>)
      ensures r == BatchRun(site, page, deep)
    {
      var listing := ParseSearchPage(page);
      if listing.Err? {
        return Run(Err(listing.error), []);
      }
      if !deep {
        return Run(Ok(Shallow(listing.value)), []);
      }
      if listing.value == [] {
        return Run(Err(EmptyWorkerPool), []);
      }
      var lookups := LookupBooks(listing.value);
      if lookups.result.Err? {
        return Run(Err(lookups.result.error), lookups.sent);
      }
      r := Run(Ok(Deep(lookups.result.value)), lookups.sent);
    }

    /** One iteration of the generator: the page is requested unless there
        is a single page, whose first response is reused. */
    method ReadPage(params: seq<(string, string)>, pages: int, deep: bool, first: Response, page: nat) returns (r: Run<Batch>)
      ensures r == PageRun(site, params, pages, deep, first, page)
    {
      var asked: seq<Request> := [];
      var response: Result<Response, Fault>;
      if pages == 1 {
        response := Ok(first);
      } else {
        var req := PageRequest(params, page);
        asked := [req];
        response := Send(site, req);
      }
      if response.Err? {
        return Run(Err(response.error), asked);
      }
      var batch := ReadBatch(site.soup(response.value.text), deep);
      r := Run(batch.result, asked + batch.sent);
    }

    /** `_search_books_paginated`, consumed to the end: iterations stop at
        the first exception. */
    method SearchBooksPaginated(params: seq<(string, string)>, pages: int, deep: bool, first: Response) returns (w: Paged)
      ensures w == Paginate(site, params, pages, deep, first, Iterations(pages))
    {
      ghost var runs := PageRuns(site, params, pages, deep, first, Iterations(pages));
      w := Paged([], None, []);
      var i := 1;
      while i <= pages
        invariant 1 <= i && i - 1 <= Iterations(pages) == |runs|
        invariant w == Consume(runs[..i - 1])
        invariant w.failure.None?
        decreases pages - i
      {
        var run := ReadPage(params, pages, deep, first, i);
        assert run == runs[i - 1];
        ConsumeStep(runs, i - 1);
        ghost var before := w;
        w := w.(sent := w.sent + run.sent);
        if run.result.Err? {
          w := w.(failure := Some(run.result.error));
          assert w == Consume(runs[..i]);
          ConsumeStops(runs, i);
          return;
        }
        w := w.(batches := w.batches + [run.result.value]);
        assert w == Absorb(before, run);
        i := i + 1;
      }
      assert runs[..i - 1] == runs;
    }

    /** The common part of `search_books` and `get_latest_books`. */
    method Search(params: seq<(string, string)>, deep: bool) returns (r: Run<Paged>)
      ensures r == SearchRun(site, params, deep)
    {
      var req := SearchRequest(params);
      var response := Send(site, req);
      if response.Err? {
        return Run(Err(response.error), [req]);
      }
      var pager := site.soup(response.value.text).pager;
      var pages: int;
      if pager.None? {
        pages := 1;
      } else if pager.value.dataPages.None? {
        return Run(Err(PagesAttributeMissing), [req]);
      } else {
        var n := ParseInt(pager.value.dataPages.value);
        if n.None? {
          return Run(Err(NotAnInteger(pager.value.dataPages.value)), [req]);
        }
        pages := n.value;
      }
      var w := SearchBooksPaginated(params, pages, deep, response.value);
      r := Run(Ok(w), [req]);
    }

    /** `search_books`: the query is stripped before it is sent. */
    method SearchBooks(query: string, deep: bool) returns (r: Run<Paged>)
      ensures r == SearchRun(site, SearchParams(query), deep)
    {
      r := Search(SearchParams(query), deep);
    }

    /** `get_latest_books`: the titles added in the last fifteen days. */
    method GetLatestBooks(deep: bool) returns (r: Run<Paged>)
      ensures r == SearchRun(site, LatestParams, deep)
    {
      r := Search(LatestParams, deep);
    }
  }
}
