/** What each client operation does, as functions of the portal's answers:
    the value it returns or the exception it raises, and the requests it
    sends, in order. The methods of `MlolClient.Client` are proved equal
    to these. */
module Workflow {
  import opened Wrappers
  import opened Text
  import opened Patterns
  import opened Markup
  import opened Books
  import opened Listing
  import opened Detail
  import opened Http

  /** The outcome of an operation and the requests it sent. */
  datatype Run<T> = Run(result: Result<T, Fault>, sent: seq<Request>)

  const AlertPage := "alert.aspx"
  const FulfillmentToken := "<fulfillmentToken"
  const ReservedMessage := "con successo"
  const AlreadyReservedMessage := "prenotazione attiva"

  // ---------------------------------------------------------------------
  // Requests
  // ---------------------------------------------------------------------

  function GetBookRequest(bookId: string): Request {
    Request(GetBookPath, [("id", bookId)], true)
  }

  const ResourcesRequest := Request(ResourcesPath, [], true)

  function RedownloadRequest(loanId: string): Request {
    Request(RedownloadPath, [("idp", loanId)], false)
  }

  function DownloadRequest(bookId: string): Request {
    Request(DownloadPath, [("unid", bookId), ("form", "epub")], false)
  }

  /** The request for a redirect target: the Location header as the URL. */
  function FollowRequest(location: string): Request {
    Request(location, [], true)
  }

  /** The reservation URL is built by hand, without query parameters. */
  function ReserveRequest(bookId: string, email: string): Request {
    Request(ReservePath + "?id=" + bookId + "&email=" + email, [], true)
  }

  function SearchRequest(params: seq<(string, string)>): Request {
    Request(SearchPath, params, true)
  }

  /** The query of a later page: the first query with `page` added last. */
  function PageRequest(params: seq<(string, string)>, page: nat): Request {
    Request(SearchPath, params + [("page", NatToString(page))], true)
  }

  function SearchParams(query: string): seq<(string, string)> {
    [("seltip", "310"), ("keywords", Strip(query)), ("nris", "48")]
  }

  const LatestParams: seq<(string, string)> := [("seltip", "310"), ("news", "15day"), ("nris", "48")]

  // ---------------------------------------------------------------------
  // Book lookup
  // ---------------------------------------------------------------------

  /** The record built from a parsed detail page; none without a title. */
  function BookOf(bookId: string, data: BookData): (r: Option<Book>)
    ensures r.None? <==> data.title.None?
    ensures r.Some? ==> r.value.id == bookId && r.value.title == data.title.value
    ensures r.Some? ==> r.value.authors == data.authors && r.value.status == data.status
    ensures r.Some? ==> r.value.publisher == data.publisher && r.value.isbns == data.isbns
    ensures r.Some? ==> r.value.language == data.language && r.value.description == data.description
    ensures r.Some? ==> r.value.year == data.year && r.value.formats == data.formats && r.value.drm == data.drm
  {
    if data.title.None? then None
    else Some(Book(bookId, data.title.value, data.authors, data.status, data.publisher,
                   data.isbns, data.language, data.description, data.year, data.formats, data.drm))
  }

  /** `get_book_by_id`. */
  function GetBookRun(site: Site, bookId: string): (r: Run<Option<Book>>)
    ensures r.sent == [GetBookRequest(bookId)]
    ensures r.result.Ok? && r.result.value.Some? ==> r.result.value.value.id == bookId
    ensures Send(site, GetBookRequest(bookId)).Err? ==> r.result == Err(Send(site, GetBookRequest(bookId)).error)
    ensures Send(site, GetBookRequest(bookId)).Ok? && Contains(site.respond(GetBookRequest(bookId)).url, AlertPage) ==>
      r.result == Ok(None)
    ensures Send(site, GetBookRequest(bookId)).Ok? && !Contains(site.respond(GetBookRequest(bookId)).url, AlertPage) ==>
      var page := BookPage(site.soup(site.respond(GetBookRequest(bookId)).text).detail);
      (r.result.Err? <==> page.Err?) && (page.Ok? ==> r.result == Ok(BookOf(bookId, page.value)))
  {
    var req := GetBookRequest(bookId);
    match Send(site, req)
    case Err(e) => Run(Err(e), [req])
    case Ok(resp) =>
      if Contains(resp.url, AlertPage) then Run(Ok(None), [req])
      else
        match BookPage(site.soup(resp.text).detail)
        case Err(e) => Run(Err(e), [req])
        case Ok(data) => Run(Ok(BookOf(bookId, data)), [req])
  }

  // ---------------------------------------------------------------------
  // Download
  // ---------------------------------------------------------------------

  /** The first anchor whose href contains the book id. */
  function FirstAnchorWith(anchors: seq<LoanAnchor>, bookId: string): (r: Option<nat>)
    ensures r.Some? ==> r.value < |anchors| && Contains(anchors[r.value].href, bookId)
    ensures r.Some? ==> forall j :: 0 <= j < r.value ==> !Contains(anchors[j].href, bookId)
    ensures r.None? ==> forall j :: 0 <= j < |anchors| ==> !Contains(anchors[j].href, bookId)
  {
    if anchors == [] then None
    else if Contains(anchors[0].href, bookId) then Some(0)
    else match FirstAnchorWith(anchors[1..], bookId)
      case None => None
      case Some(k) => Some(k + 1)
  }

  /** The loan id on the resources page for a book: the owning entry's first
      download link, its leading dots removed, must end in "idp=" and digits. */
  function LoanIdFor(anchors: seq<LoanAnchor>, bookId: string): (r: Result<string, Fault>)
    ensures r.Err? ==> r.error == LoanNotFound
    ensures r.Ok? ==> AllDigits(r.value) && r.value != []
    ensures FirstAnchorWith(anchors, bookId).None? ==> r.Err?
    ensures FirstAnchorWith(anchors, bookId).Some? ==>
      var links := anchors[FirstAnchorWith(anchors, bookId).value].downloadHrefs;
      && (links == [] || links[0].None? ==> r.Err?)
      && (links != [] && links[0].Some? ==>
            (r.Ok? <==> LoanIdFromHref(links[0].value).Some?)
            && (r.Ok? ==> r.value == LoanIdFromHref(links[0].value).value))
  {
    match FirstAnchorWith(anchors, bookId)
    case None => Err(LoanNotFound)
    case Some(k) =>
      var links := anchors[k].downloadHrefs;
      if links == [] || links[0].None? then Err(LoanNotFound)
      else match LoanIdFromHref(links[0].value)
        case None => Err(LoanNotFound)
        case Some(loanId) => Ok(loanId)
  }

  /** `_redownload_owned_book`: the response of the redownload endpoint. */
  function RedownloadRun(site: Site, bookId: string): (r: Run<Response>)
    ensures 1 <= |r.sent| <= 2 && r.sent[0] == ResourcesRequest
    ensures Send(site, ResourcesRequest).Err? ==> r.result == Err(Send(site, ResourcesRequest).error)
    ensures Send(site, ResourcesRequest).Ok? ==>
      var loan := LoanIdFor(site.soup(site.respond(ResourcesRequest).text).anchors, bookId);
      (loan.Err? ==> r == Run(Err(LoanNotFound), [ResourcesRequest])) &&
      (loan.Ok? ==> r == Run(Send(site, RedownloadRequest(loan.value)), [ResourcesRequest, RedownloadRequest(loan.value)]))
    ensures |r.sent| == 2 ==> r.sent[1].url == RedownloadPath && !r.sent[1].followRedirects
    ensures forall q :: q in r.sent ==> |q.params| <= 1
  {
    match Send(site, ResourcesRequest)
    case Err(e) => Run(Err(e), [ResourcesRequest])
    case Ok(resp) =>
      match LoanIdFor(site.soup(resp.text).anchors, bookId)
      case Err(e) => Run(Err(e), [ResourcesRequest])
      case Ok(loanId) =>
        var req := RedownloadRequest(loanId);
        Run(Send(site, req), [ResourcesRequest, req])
  }

  /** The bytes a final response delivers: its body, when it is a token. */
  function Delivered(resp: Response): (r: Option<seq<byte>>)
    ensures r.Some? <==> StartsWith(resp.text, FulfillmentToken)
    ensures r.Some? ==> r.value == resp.content
  {
    if StartsWith(resp.text, FulfillmentToken) then Some(resp.content) else None
  }

  /** Whether the first download response is a redirect that is followed. */
  predicate Follows(first: Result<Response, Fault>) {
    first.Ok? && first.value.status == 302 && first.value.location.Some?
  }

  /** The response whose body decides a download: the redirect target's
      answer for a 302 with a Location, else the response itself. */
  function FinalResponse(site: Site, resp: Response): Response {
    if resp.status == 302 && resp.location.Some? then site.respond(FollowRequest(resp.location.value)) else resp
  }

  /** The tail of `download_book_by_id` once the first download response is
      known: a 302 is followed once, then the body decides. */
  function Finish(site: Site, first: Result<Response, Fault>, sent: seq<Request>): (r: Run<Option<seq<byte>>>)
    ensures r.sent == sent + (if Follows(first) then [FollowRequest(first.value.location.value)] else [])
    ensures first.Err? ==> r.result == Err(first.error)
    ensures first.Ok? && first.value.status == 302 && first.value.location.None? ==> r.result == Err(LocationMissing)
    ensures Follows(first) ==> (r.result.Ok? <==> Send(site, FollowRequest(first.value.location.value)).Ok?)
    ensures first.Ok? && first.value.status != 302 ==> r.result.Ok?
    ensures r.result.Ok? ==> r.result.value == Delivered(FinalResponse(site, first.value))
  {
    match first
    case Err(e) => Run(Err(e), sent)
    case Ok(resp) =>
      if resp.status == 302 then
        match resp.location
        case None => Run(Err(LocationMissing), sent)
        case Some(loc) =>
          var req := FollowRequest(loc);
          match Send(site, req)
          case Err(e) => Run(Err(e), sent + [req])
          case Ok(final) => Run(Ok(Delivered(final)), sent + [req])
      else Run(Ok(Delivered(resp)), sent)
  }

  /** `download_book_by_id`. */
  function DownloadRun(site: Site, authenticated: bool, bookId: string): (r: Run<Option<seq<byte>>>)
    ensures !authenticated ==> r == Run(Ok(None), [])
    ensures authenticated ==> |r.sent| >= 1 && r.sent[0] == GetBookRequest(bookId)
    ensures authenticated && GetBookRun(site, bookId).result.Err? ==>
      r == Run(Err(GetBookRun(site, bookId).result.error), [GetBookRequest(bookId)])
    ensures authenticated && GetBookRun(site, bookId).result == Ok(None) ==>
      r == Run(Err(BookMissing), [GetBookRequest(bookId)])
  {
    if !authenticated then Run(Ok(None), [])
    else
      var lookup := GetBookRun(site, bookId);
      match lookup.result
      case Err(e) => Run(Err(e), lookup.sent)
      case Ok(None) => Run(Err(BookMissing), lookup.sent)
      case Ok(Some(book)) => DownloadFound(site, bookId, book, lookup.sent)
  }

  /** The part of `download_book_by_id` after the lookup found `book`,
      `sent` being what was sent so far: the status picks the endpoint. */
  function DownloadFound(site: Site, bookId: string, book: Book, sent: seq<Request>): (r: Run<Option<seq<byte>>>)
    ensures |r.sent| >= |sent| && r.sent[..|sent|] == sent
    ensures book.status != Some(Owned) && book.status != Some(Available) ==> r == Run(Ok(None), sent)
    ensures book.status == Some(Available) ==>
      r == Finish(site, Send(site, DownloadRequest(bookId)), sent + [DownloadRequest(bookId)])
  {
    if book.status == Some(Owned) then
      var owned := RedownloadRun(site, bookId);
      Finish(site, owned.result, sent + owned.sent)
    else if book.status != Some(Available) then Run(Ok(None), sent)
    else
      var req := DownloadRequest(bookId);
      Finish(site, Send(site, req), sent + [req])
  }

  // ---------------------------------------------------------------------
  // Reservation
  // ---------------------------------------------------------------------

  /** The answer read from #lblInfo: none without the element, else whether
      its stripped, lower-cased text reports a reservation. */
  function ReservationOutcome(info: Option<string>): (r: Option<bool>)
    ensures r.None? <==> info.None?
    ensures info.Some? ==>
      r == Some(Contains(Lower(Strip(info.value)), ReservedMessage) || Contains(Lower(Strip(info.value)), AlreadyReservedMessage))
  {
    match info
    case None => None
    case Some(text) =>
      var message := Lower(Strip(text));
      if Contains(message, ReservedMessage) then Some(true)
      else if Contains(message, AlreadyReservedMessage) then Some(true)
      else Some(false)
  }

  /** `reserve_book_by_id`. */
  function ReserveRun(site: Site, authenticated: bool, bookId: string, email: string): (r: Run<Option<bool>>)
    ensures !authenticated ==> r == Run(Ok(None), [])
    ensures authenticated && GetBookRun(site, bookId).result.Err? ==>
      r == Run(Err(GetBookRun(site, bookId).result.error), [GetBookRequest(bookId)])
    ensures authenticated && GetBookRun(site, bookId).result == Ok(None) ==>
      r == Run(Err(BookMissing), [GetBookRequest(bookId)])
    ensures authenticated && GetBookRun(site, bookId).result.Ok? && GetBookRun(site, bookId).result.value.Some? ==>
      r.sent == [GetBookRequest(bookId), ReserveRequest(bookId, email)] &&
      (r.result.Ok? <==> Send(site, ReserveRequest(bookId, email)).Ok?) &&
      (r.result.Ok? ==> r.result.value == ReservationOutcome(site.soup(site.respond(ReserveRequest(bookId, email)).text).info))
  {
    if !authenticated then Run(Ok(None), [])
    else
      var lookup := GetBookRun(site, bookId);
      match lookup.result
      case Err(e) => Run(Err(e), lookup.sent)
      case Ok(None) => Run(Err(BookMissing), lookup.sent)
      case Ok(Some(_)) =>
        var req := ReserveRequest(bookId, email);
        match Send(site, req)
        case Err(e) => Run(Err(e), lookup.sent + [req])
        case Ok(resp) => Run(Ok(ReservationOutcome(site.soup(resp.text).info)), lookup.sent + [req])
  }

  // ---------------------------------------------------------------------
  // Search
  // ---------------------------------------------------------------------

  /** `int(soup.select_one("#pager").attrs["data-pages"])`, where only the
      AttributeError of a missing pager is caught. */
  function PageCount(pager: Option<Pager>): (r: Result<int, Fault>)
    ensures pager.None? ==> r == Ok(1)
    ensures pager.Some? && pager.value.dataPages.None? ==> r == Err(PagesAttributeMissing)
    ensures pager.Some? && pager.value.dataPages.Some? ==>
      var text := pager.value.dataPages.value;
      && (r.Ok? <==> ParseInt(text).Some?)
      && (r.Ok? ==> r.value == ParseInt(text).value)
      && (r.Err? ==> r.error == NotAnInteger(text))
  {
    match pager
    case None => Ok(1)
    case Some(Pager(None)) => Err(PagesAttributeMissing)
    case Some(Pager(Some(text))) =>
      match ParseInt(text)
      case None => Err(NotAnInteger(text))
      case Some(n) => Ok(n)
  }

  /** One yielded batch: the listing's records, or in deep mode the full
      lookup of each listed id. */
  datatype Batch = Shallow(books: seq<Book>) | Deep(lookups: seq<Option<Book>>)

  /** The k-th outcome is an error, and every earlier one a success. */
  predicate FirstError<T>(outcomes: seq<Result<T, Fault>>, k: nat)
    requires k < |outcomes|
  {
    outcomes[k].Err? && forall j :: 0 <= j < k ==> outcomes[j].Ok?
  }

  /** Collecting outcomes in order, as `list(executor.map(...))` does: every
      value, or the first error met. */
  function Gather<T>(outcomes: seq<Result<T, Fault>>): (r: Result<seq<T>, Fault>)
    ensures r.Ok? <==> forall k :: 0 <= k < |outcomes| ==> outcomes[k].Ok?
    ensures r.Ok? ==> |r.value| == |outcomes| && forall k :: 0 <= k < |outcomes| ==> r.value[k] == outcomes[k].value
  {
    if outcomes == [] then Ok([])
    else
      var init := outcomes[..|outcomes| - 1];
      assert forall k :: 0 <= k < |init| ==> init[k] == outcomes[k];
      Join(Gather(init), outcomes[|outcomes| - 1])
  }

  /** One more outcome collected: an earlier error stays, else this one's
      error, else its value appended. */
  function Join<T>(sofar: Result<seq<T>, Fault>, next: Result<T, Fault>): Result<seq<T>, Fault> {
    match sofar
    case Err(e) => Err(e)
    case Ok(values) =>
      match next
      case Err(e) => Err(e)
      case Ok(v) => Ok(values + [v])
  }

  /** Collecting one outcome more. */
  lemma GatherPrefix<T>(outcomes: seq<Result<T, Fault>>, k: nat)
    requires k < |outcomes|
    ensures Gather(outcomes[..k + 1]) == Join(Gather(outcomes[..k]), outcomes[k])
  {
    assert outcomes[..k + 1][..k] == outcomes[..k];
  }

  /** A failed collection reports the first error in order. */
  lemma {:induction false} GatherFailure<T>(outcomes: seq<Result<T, Fault>>)
    requires Gather(outcomes).Err?
    ensures exists k :: 0 <= k < |outcomes| && FirstError(outcomes, k) && Gather(outcomes).error == outcomes[k].error
  {
    var init := outcomes[..|outcomes| - 1];
    assert forall j :: 0 <= j < |init| ==> init[j] == outcomes[j];
    if Gather(init).Err? {
      GatherFailure(init);
      var k :| 0 <= k < |init| && FirstError(init, k) && Gather(init).error == init[k].error;
      assert FirstError(outcomes, k);
    } else {
      assert FirstError(outcomes, |outcomes| - 1);
    }
  }

  /** The outcome of each book's lookup, in listing order. */
  function Outcomes(site: Site, books: seq<Book>): (r: seq<Result<Option<Book>, Fault>>)
    ensures |r| == |books| && forall k :: 0 <= k < |books| ==> r[k] == GetBookRun(site, books[k].id).result
  {
    seq(|books|, k requires 0 <= k < |books| => GetBookRun(site, books[k].id).result)
  }

  /** The lookup request of each book, in listing order. */
  function LookupRequests(books: seq<Book>): (r: seq<Request>)
    ensures |r| == |books| && forall k :: 0 <= k < |books| ==> r[k] == GetBookRequest(books[k].id)
  {
    seq(|books|, k requires 0 <= k < |books| => GetBookRequest(books[k].id))
  }

  /** One book more, one lookup request more. */
  lemma LookupRequestsStep(books: seq<Book>, k: nat)
    requires k < |books|
    ensures LookupRequests(books[..k + 1]) == LookupRequests(books[..k]) + [GetBookRequest(books[k].id)]
  {
    assert LookupRequests(books[..k + 1])[..k] == LookupRequests(books[..k]);
  }

  /** Looking up every book of a listing, in the schedule where every queued
      lookup starts before a failure is seen: one lookup request per book,
      and the first failure in listing order is the one reported. */
  function LookupRuns(site: Site, books: seq<Book>): (r: Run<seq<Option<Book>>>)
    ensures |r.sent| == |books|
    ensures forall k :: 0 <= k < |books| ==> r.sent[k] == GetBookRequest(books[k].id)
    ensures r.result.Ok? <==> forall k :: 0 <= k < |books| ==> GetBookRun(site, books[k].id).result.Ok?
    ensures r.result.Ok? ==> |r.result.value| == |books|
    ensures r.result.Ok? ==> forall k :: 0 <= k < |books| ==> r.result.value[k] == GetBookRun(site, books[k].id).result.value
  {
    Run(Gather(Outcomes(site, books)), LookupRequests(books))
  }

  /** A failed batch of lookups reports the error of the first lookup that
      failed, every earlier one having succeeded. */
  lemma LookupFailure(site: Site, books: seq<Book>)
    requires LookupRuns(site, books).result.Err?
    ensures exists k :: 0 <= k < |books| && FirstError(Outcomes(site, books), k) &&
                       LookupRuns(site, books).result.error == GetBookRun(site, books[k].id).result.error
  {
    GatherFailure(Outcomes(site, books));
  }

  /** The batch one listing page gives. */
  function BatchRun(site: Site, page: Document, deep: bool): (r: Run<Batch>)
    ensures ParseListing(page).Err? ==> r == Run(Err(ParseListing(page).error), [])
    ensures !deep && ParseListing(page).Ok? ==> r == Run(Ok(Shallow(ParseListing(page).value)), [])
    ensures deep && ParseListing(page) == Ok([]) ==> r == Run(Err(EmptyWorkerPool), [])
    ensures deep && ParseListing(page).Ok? && ParseListing(page).value != [] ==>
      var books := ParseListing(page).value;
      |r.sent| == |books| && forall k :: 0 <= k < |books| ==> r.sent[k] == GetBookRequest(books[k].id)
    ensures deep && r.result.Ok? ==>
      ParseListing(page).Ok? && r.result.value.Deep? &&
      var books, lookups := ParseListing(page).value, r.result.value.lookups;
      |lookups| == |books| &&
      forall k :: 0 <= k < |books| ==>
        GetBookRun(site, books[k].id).result.Ok? && lookups[k] == GetBookRun(site, books[k].id).result.value
    ensures forall i :: 0 <= i < |r.sent| ==> r.sent[i].url == GetBookPath
  {
    match ParseListing(page)
    case Err(e) => Run(Err(e), [])
    case Ok(books) =>
      if !deep then Run(Ok(Shallow(books)), [])
      else if books == [] then Run(Err(EmptyWorkerPool), [])
      else
        var lookups := LookupRuns(site, books);
        match lookups.result
        case Err(e) => Run(Err(e), lookups.sent)
        case Ok(found) => Run(Ok(Deep(found)), lookups.sent)
  }

  /** How far a consumed generator got: the batches it yielded, the
      exception that ended it if any, and the requests it sent. */
  datatype Paged = Paged(batches: seq<Batch>, failure: Option<Fault>, sent: seq<Request>)

  /** How many times `range(1, pages + 1)` iterates. */
  function Iterations(pages: int): nat {
    if pages < 1 then 0 else pages
  }

  /** The response iteration `page` reads: the first response when there is
      a single page, else the answer to that page's request. */
  function PageResponse(site: Site, params: seq<(string, string)>, pages: int, first: Response, page: nat): Response {
    if pages == 1 then first else site.respond(PageRequest(params, page))
  }

  /** The body of the generator's loop for page number `page`: the page's
      request unless there is a single page, then the batch of the page. */
  function PageRun(site: Site, params: seq<(string, string)>, pages: int, deep: bool, first: Response, page: nat): (r: Run<Batch>)
    ensures r.result.Ok? ==> r.result == BatchRun(site, site.soup(PageResponse(site, params, pages, first, page).text), deep).result
  {
    var req := PageRequest(params, page);
    var asked := if pages == 1 then [] else [req];
    match if pages == 1 then Ok(first) else Send(site, req)
    case Err(e) => Run(Err(e), asked)
    case Ok(resp) =>
      var batch := BatchRun(site, site.soup(resp.text), deep);
      Run(batch.result, asked + batch.sent)
  }

  /** The loop bodies for pages 1 to `n`. */
  function PageRuns(site: Site, params: seq<(string, string)>, pages: int, deep: bool, first: Response, n: nat): (r: seq<Run<Batch>>)
    ensures |r| == n && forall k :: 0 <= k < n ==> r[k] == PageRun(site, params, pages, deep, first, k + 1)
  {
    seq(n, k requires 0 <= k < n => PageRun(site, params, pages, deep, first, k + 1))
  }

  /** The generator after one more iteration: its requests are sent, and its
      batch is yielded or its exception ends the generator. */
  function Absorb(prev: Paged, run: Run<Batch>): Paged {
    match run.result
    case Err(e) => Paged(prev.batches, Some(e), prev.sent + run.sent)
    case Ok(b) => Paged(prev.batches + [b], None, prev.sent + run.sent)
  }

  /** A generator whose iterations would run as `runs`, consumed until they
      are exhausted or one raises. */
  function Consume(runs: seq<Run<Batch>>): Paged {
    if runs == [] then Paged([], None, [])
    else
      var prev := Consume(runs[..|runs| - 1]);
      if prev.failure.Some? then prev else Absorb(prev, runs[|runs| - 1])
  }

  /** `_search_books_paginated` consumed for its first `n` iterations. */
  function Paginate(site: Site, params: seq<(string, string)>, pages: int, deep: bool, first: Response, n: nat): Paged {
    Consume(PageRuns(site, params, pages, deep, first, n))
  }

  /** `search_books` and `get_latest_books`: the first request and the page
      count happen at the call; the generator is returned unconsumed, and
      its run when consumed to the end is the `Paged` value. */
  function SearchRun(site: Site, params: seq<(string, string)>, deep: bool): (r: Run<Paged>)
    ensures r.sent == [SearchRequest(params)]
    ensures Send(site, SearchRequest(params)).Err? ==> r.result == Err(Send(site, SearchRequest(params)).error)
    ensures Send(site, SearchRequest(params)).Ok? ==>
      var resp := Send(site, SearchRequest(params)).value;
      var pages := PageCount(site.soup(resp.text).pager);
      && (r.result.Ok? <==> pages.Ok?)
      && (pages.Err? ==> r.result == Err(pages.error))
      && (pages.Ok? ==> r.result.value == Paginate(site, params, pages.value, deep, resp, Iterations(pages.value)))
  {
    var req := SearchRequest(params);
    match Send(site, req)
    case Err(e) => Run(Err(e), [req])
    case Ok(resp) =>
      match PageCount(site.soup(resp.text).pager)
      case Err(e) => Run(Err(e), [req])
      case Ok(pages) => Run(Ok(Paginate(site, params, pages, deep, resp, Iterations(pages))), [req])
  }

  // ---------------------------------------------------------------------
  // Properties
  // ---------------------------------------------------------------------

  /** Without the session cookie neither download nor reservation sends
      anything. */
  lemma NothingWithoutAuth(site: Site, bookId: string, email: string)
    ensures DownloadRun(site, false, bookId) == Run(Ok(None), [])
    ensures ReserveRun(site, false, bookId, email) == Run(Ok(None), [])
  {
  }

  /** An owned book is fetched again through the resources page and the
      redownload endpoint; the download endpoint is never asked. */
  lemma DownloadOwned(site: Site, bookId: string, book: Book)
    requires GetBookRun(site, bookId).result == Ok(Some(book))
    requires book.status == Some(Owned)
    ensures var r := DownloadRun(site, true, bookId);
      |r.sent| >= 2 && r.sent[1] == ResourcesRequest && DownloadRequest(bookId) !in r.sent
  {
    assert DownloadRun(site, true, bookId) == DownloadFound(site, bookId, book, [GetBookRequest(bookId)]);
    OwnedAvoidsDownload(site, bookId, book, [GetBookRequest(bookId)]);
  }

  /** After the lookup of an owned book, the resources page comes next and
      nothing sent afterwards is the download request, which alone carries
      two query parameters. */
  lemma OwnedAvoidsDownload(site: Site, bookId: string, book: Book, sent: seq<Request>)
    requires book.status == Some(Owned) && DownloadRequest(bookId) !in sent
    ensures var r := DownloadFound(site, bookId, book, sent);
      |r.sent| > |sent| && r.sent[|sent|] == ResourcesRequest && DownloadRequest(bookId) !in r.sent
  {
    var owned := RedownloadRun(site, bookId);
    assert DownloadRequest(bookId) !in owned.sent;
    FinishAvoids(site, owned.result, sent + owned.sent, DownloadRequest(bookId));
  }

  /** The tail of a download sends only a redirect target, which is
      fetched following redirects. */
  lemma FinishAvoids(site: Site, first: Result<Response, Fault>, sent: seq<Request>, req: Request)
    requires !req.followRedirects && req !in sent
    ensures req !in Finish(site, first, sent).sent
  {
  }

  /** An available book is asked of the download endpoint, without
      following redirects, right after the lookup. */
  lemma DownloadAvailable(site: Site, bookId: string, book: Book)
    requires GetBookRun(site, bookId).result == Ok(Some(book))
    requires book.status == Some(Available)
    ensures DownloadRun(site, true, bookId) ==
      Finish(site, Send(site, DownloadRequest(bookId)), [GetBookRequest(bookId), DownloadRequest(bookId)])
  {
    assert DownloadRun(site, true, bookId) == DownloadFound(site, bookId, book, [GetBookRequest(bookId)]);
    assert [GetBookRequest(bookId)] + [DownloadRequest(bookId)] == [GetBookRequest(bookId), DownloadRequest(bookId)];
  }

  /** Any other status, or none, ends the download with nothing more sent. */
  lemma DownloadRefused(site: Site, bookId: string, book: Book)
    requires GetBookRun(site, bookId).result == Ok(Some(book))
    requires book.status != Some(Owned) && book.status != Some(Available)
    ensures DownloadRun(site, true, bookId) == Run(Ok(None), [GetBookRequest(bookId)])
  {
  }

  /** A download that ends with bytes returns the body of the response that
      decides it, and that body is a fulfilment token. */
  lemma BytesOnlyForToken(site: Site, authenticated: bool, bookId: string)
    requires DownloadRun(site, authenticated, bookId).result.Ok?
    requires DownloadRun(site, authenticated, bookId).result.value.Some?
    ensures authenticated
    ensures GetBookRun(site, bookId).result.Ok? && GetBookRun(site, bookId).result.value.Some?
    ensures var book := GetBookRun(site, bookId).result.value.value;
      var first := FirstDownloadResponse(site, bookId, book);
      && (book.status == Some(Owned) || book.status == Some(Available))
      && first.Ok?
      && FinalResponse(site, first.value).content == DownloadRun(site, authenticated, bookId).result.value.value
      && StartsWith(FinalResponse(site, first.value).text, FulfillmentToken)
  {
  }

  /** The first response of the download proper: the redownload endpoint's
      for an owned book, the download endpoint's otherwise. */
  function FirstDownloadResponse(site: Site, bookId: string, book: Book): Result<Response, Fault> {
    if book.status == Some(Owned) then RedownloadRun(site, bookId).result else Send(site, DownloadRequest(bookId))
  }

  /** A listing page whose pager carries a decimal numeral asks for that many
      pages. */
  lemma PageCountOfNumeral(n: nat)
    ensures PageCount(Some(Pager(Some(NatToString(n))))) == Ok(n)
  {
    ParseIntOfNatToString(n);
  }

  /** The requests to the search endpoint among `sent`, in order. */
  function SearchRequestsIn(sent: seq<Request>): (r: seq<Request>)
    ensures |r| <= |sent|
  {
    if sent == [] then []
    else SearchRequestsIn(sent[..|sent| - 1]) + (if sent[|sent| - 1].url == SearchPath then [sent[|sent| - 1]] else [])
  }

  /** The requests for pages 1 to m, in order. */
  function PageRequests(params: seq<(string, string)>, m: nat): (r: seq<Request>)
    ensures |r| == m
    ensures forall i :: 0 <= i < m ==> r[i] == PageRequest(params, i + 1)
  {
    if m == 0 then [] else PageRequests(params, m - 1) + [PageRequest(params, m)]
  }

  lemma {:induction false} SearchRequestsOfConcat(a: seq<Request>, b: seq<Request>)
    ensures SearchRequestsIn(a + b) == SearchRequestsIn(a) + SearchRequestsIn(b)
  {
    if b != [] {
      assert (a + b)[..|a + b| - 1] == a + b[..|b| - 1];
      SearchRequestsOfConcat(a, b[..|b| - 1]);
    } else {
      assert a + b == a;
    }
  }

  lemma {:induction false} NoSearchAmongLookups(sent: seq<Request>)
    requires forall i :: 0 <= i < |sent| ==> sent[i].url == GetBookPath
    ensures SearchRequestsIn(sent) == []
  {
    if sent != [] {
      NoSearchAmongLookups(sent[..|sent| - 1]);
    }
  }

  /** A consumed generator yields the batch of each iteration in order until
      the first exception, which is the outcome of the next iteration. */
  lemma {:induction false} ConsumeBatches(runs: seq<Run<Batch>>)
    ensures var w := Consume(runs);
      |w.batches| <= |runs| && (w.failure.None? <==> |w.batches| == |runs|)
    ensures var w := Consume(runs);
      forall k :: 0 <= k < |w.batches| ==> runs[k].result == Ok(w.batches[k])
    ensures var w := Consume(runs);
      w.failure.Some? ==> runs[|w.batches|].result == Err(w.failure.value)
  {
    if runs != [] {
      var init := runs[..|runs| - 1];
      assert forall k :: 0 <= k < |init| ==> init[k] == runs[k];
      ConsumeBatches(init);
      var prev := Consume(init);
      if prev.failure.None? {
        var w := Absorb(prev, runs[|runs| - 1]);
        assert w == Consume(runs);
        assert forall k :: 0 <= k < |prev.batches| ==> w.batches[k] == prev.batches[k];
      }
    }
  }

  /** How many iterations a consumed generator ran, out of `n`: all of them,
      or those that yielded and the one that raised. */
  function Reached(w: Paged, n: nat): nat {
    if w.failure.None? then n else |w.batches| + 1
  }

  /** When iteration k sends exactly the search request `expected[k]`, the
      search requests of a consumed generator are those of the iterations
      it ran, in order. */
  lemma {:induction false} ConsumeSearches(runs: seq<Run<Batch>>, expected: seq<Request>)
    requires |expected| == |runs|
    requires forall k :: 0 <= k < |runs| ==> SearchRequestsIn(runs[k].sent) == [expected[k]]
    ensures var w := Consume(runs);
      Reached(w, |runs|) <= |runs| && SearchRequestsIn(w.sent) == expected[..Reached(w, |runs|)]
  {
    if runs != [] {
      var init, last := runs[..|runs| - 1], |runs| - 1;
      var before := expected[..last];
      forall k | 0 <= k < |init|
        ensures SearchRequestsIn(init[k].sent) == [before[k]]
      {
        assert init[k] == runs[k] && before[k] == expected[k];
      }
      ConsumeSearches(init, before);
      ConsumeBatches(init);
      SearchesStep(Consume(init), runs[last], expected, last);
    }
  }

  /** The inductive step of `ConsumeSearches`: one more iteration, absorbed
      unless the generator has already raised. */
  lemma SearchesStep(prev: Paged, run: Run<Batch>, expected: seq<Request>, n: nat)
    requires |expected| == n + 1 && SearchRequestsIn(run.sent) == [expected[n]]
    requires Reached(prev, n) <= n && SearchRequestsIn(prev.sent) == expected[..n][..Reached(prev, n)]
    requires prev.failure.None? ==> |prev.batches| == n
    ensures var w := if prev.failure.Some? then prev else Absorb(prev, run);
      Reached(w, n + 1) <= n + 1 && SearchRequestsIn(w.sent) == expected[..Reached(w, n + 1)]
  {
    if prev.failure.None? {
      AbsorbSearches(prev, run, expected[..n], expected[n]);
      assert expected[..n] + [expected[n]] == expected[..n + 1];
    } else {
      assert expected[..n][..Reached(prev, n)] == expected[..Reached(prev, n)];
    }
  }

  /** One more iteration that sends the search request `e`: it is appended
      to the generator's search requests, and the iteration is reached. */
  lemma AbsorbSearches(prev: Paged, run: Run<Batch>, before: seq<Request>, e: Request)
    requires SearchRequestsIn(prev.sent) == before && SearchRequestsIn(run.sent) == [e]
    ensures var w := Absorb(prev, run);
      SearchRequestsIn(w.sent) == before + [e]
      && (w.failure.None? ==> |w.batches| == |prev.batches| + 1)
      && (w.failure.Some? ==> w.batches == prev.batches)
  {
    SearchRequestsOfConcat(prev.sent, run.sent);
  }

  /** When no iteration sends a search request, a consumed generator sends
      none. */
  lemma {:induction false} ConsumeSilent(runs: seq<Run<Batch>>)
    requires forall k :: 0 <= k < |runs| ==> SearchRequestsIn(runs[k].sent) == []
    ensures SearchRequestsIn(Consume(runs).sent) == []
  {
    if runs != [] {
      var init := runs[..|runs| - 1];
      assert forall k :: 0 <= k < |init| ==> init[k] == runs[k];
      ConsumeSilent(init);
      var prev := Consume(init);
      if prev.failure.None? {
        SearchRequestsOfConcat(prev.sent, runs[|runs| - 1].sent);
      }
    }
  }

  /** One iteration more of a generator that has not raised. */
  lemma ConsumeStep(runs: seq<Run<Batch>>, n: nat)
    requires n < |runs| && Consume(runs[..n]).failure.None?
    ensures Consume(runs[..n + 1]) == Absorb(Consume(runs[..n]), runs[n])
  {
    assert runs[..n + 1][..n] == runs[..n];
  }

  /** Once an iteration has raised, the iterations after it never run. */
  lemma {:induction false} ConsumeStops(runs: seq<Run<Batch>>, n: nat)
    requires n <= |runs| && Consume(runs[..n]).failure.Some?
    ensures Consume(runs) == Consume(runs[..n])
    decreases |runs| - n
  {
    if n < |runs| {
      var longer := runs[..n + 1];
      assert longer[..n] == runs[..n];
      assert Consume(longer) == Consume(runs[..n]);
      ConsumeStops(runs, n + 1);
    } else {
      assert runs[..n] == runs;
    }
  }

  /** Iteration `page` sends the page's search request, unless there is a
      single page, and no other request to the search endpoint. */
  lemma PageRunRequests(site: Site, params: seq<(string, string)>, pages: int, deep: bool, first: Response, page: nat)
    ensures SearchRequestsIn(PageRun(site, params, pages, deep, first, page).sent) ==
      if pages == 1 then [] else [PageRequest(params, page)]
  {
    var req := PageRequest(params, page);
    var asked := if pages == 1 then [] else [req];
    assert SearchRequestsIn([req]) == [req];
    var response := if pages == 1 then Ok(first) else Send(site, req);
    if response.Ok? {
      var batch := BatchRun(site, site.soup(response.value.text), deep);
      SearchRequestsOfConcat(asked, batch.sent);
      NoSearchAmongLookups(batch.sent);
    }
  }

  /** One batch per iteration until the first failure, and batch k is the
      batch of page k + 1. */
  lemma PaginateBatches(site: Site, params: seq<(string, string)>, pages: int, deep: bool, first: Response, n: nat)
    ensures var w := Paginate(site, params, pages, deep, first, n);
      |w.batches| <= n && (w.failure.None? <==> |w.batches| == n)
    ensures var w := Paginate(site, params, pages, deep, first, n);
      forall k :: 0 <= k < |w.batches| ==>
        BatchRun(site, site.soup(PageResponse(site, params, pages, first, k + 1).text), deep).result == Ok(w.batches[k])
  {
    var runs := PageRuns(site, params, pages, deep, first, n);
    ConsumeBatches(runs);
  }

  /** The search requests are those of pages 1, 2, ... in order, one for
      each iteration that ran (all `n`, or up to the one that raised), and
      none at all for a single page. */
  lemma PaginateSearches(site: Site, params: seq<(string, string)>, pages: int, deep: bool, first: Response, n: nat)
    ensures var w := Paginate(site, params, pages, deep, first, n);
      pages == 1 ==> SearchRequestsIn(w.sent) == []
    ensures var w := Paginate(site, params, pages, deep, first, n);
      pages != 1 ==> Reached(w, n) <= n && SearchRequestsIn(w.sent) == PageRequests(params, Reached(w, n))
  {
    var runs := PageRuns(site, params, pages, deep, first, n);
    forall k | 0 <= k < n
      ensures SearchRequestsIn(runs[k].sent) == if pages == 1 then [] else [PageRequest(params, k + 1)]
    {
      PageRunRequests(site, params, pages, deep, first, k + 1);
    }
    if pages == 1 {
      ConsumeSilent(runs);
    } else {
      var expected := PageRequests(params, n);
      ConsumeSearches(runs, expected);
      var m := Reached(Consume(runs), n);
      assert expected[..m] == PageRequests(params, m);
    }
  }

  /** Once an iteration has failed, the generator is finished: later
      iterations change nothing. */
  lemma PaginateStops(site: Site, params: seq<(string, string)>, pages: int, deep: bool, first: Response, n: nat, m: nat)
    requires n <= m
    requires Paginate(site, params, pages, deep, first, n).failure.Some?
    ensures Paginate(site, params, pages, deep, first, m) == Paginate(site, params, pages, deep, first, n)
  {
    var runs := PageRuns(site, params, pages, deep, first, m);
    assert runs[..n] == PageRuns(site, params, pages, deep, first, n);
    ConsumeStops(runs, n);
  }

  /** Consumed to the end without a failure, the generator yields exactly
      `pages` batches (none when `pages` is below 1). */
  lemma BatchCount(site: Site, params: seq<(string, string)>, pages: int, deep: bool, first: Response)
    ensures var w := Paginate(site, params, pages, deep, first, Iterations(pages));
      w.failure.None? ==> |w.batches| == (if pages < 1 then 0 else pages)
  {
    PaginateBatches(site, params, pages, deep, first, Iterations(pages));
  }

  /** A search whose first page has no pager yields that page's batch and
      sends nothing to the search endpoint again. */
  lemma SinglePageReusesFirst(site: Site, params: seq<(string, string)>, deep: bool)
    requires Send(site, SearchRequest(params)).Ok?
    requires site.soup(site.respond(SearchRequest(params)).text).pager.None?
    ensures SearchRun(site, params, deep).result.Ok?
    ensures var w := SearchRun(site, params, deep).result.value;
      SearchRequestsIn(w.sent) == [] &&
      (w.failure.None? ==> w.batches == [BatchRun(site, site.soup(site.respond(SearchRequest(params)).text), deep).result.value])
  {
    var first := site.respond(SearchRequest(params));
    PaginateBatches(site, params, 1, deep, first, 1);
    PaginateSearches(site, params, 1, deep, first, 1);
  }
}
