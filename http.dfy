/** The HTTP session as the client sees it: a request goes out, a response
    comes back, and the session's response hook raises on an error status.
    The server and the HTML parser are parameters of the model. */
module Http {
  import opened Wrappers
  import opened Markup

  newtype byte = x: int | 0 <= x < 256

  /** A GET request: the path (or absolute URL) handed to the session, its
      query parameters in order, and whether redirects are followed. */
  datatype Request = Request(url: string, params: seq<(string, string)>, followRedirects: bool)

  /** A response: the final URL, the status code, the decoded body, the
      `Location` header if any, and the raw body. */
  datatype Response = Response(url: string, status: int, text: string, location: Option<string>, content: seq<byte>)

  /** The world outside the client: what the portal answers to a request,
      and what the HTML parser finds in a body. */
  datatype Site = Site(respond: Request -> Response, soup: string -> Document)

  const SearchPath := "/media/ricerca.aspx"
  const ResourcesPath := "/user/risorse.aspx"
  const GetBookPath := "/media/scheda.aspx"
  const RedownloadPath := "/help/dlrepeat.aspx"
  const DownloadPath := "/media/downloadebadok.aspx"
  const ReservePath := "/media/prenota2.aspx"

  /** The statuses the session's retry adapter retries (`status_forcelist`).
      Every request the client makes is a GET, which the adapter retries. */
  const RetriedStatuses: set<int> := {404, 429, 500, 502, 503, 504}

  /** `session.request(...)` through the retry adapter and the
      `raise_for_status` hook. The portal gives the same answer to every try,
      so a retried status is still the answer when the three retries are used
      up, and the adapter raises RetryError before the hook sees it. Any other
      4xx or 5xx answer reaches the hook, which raises HTTPError; any other
      answer is returned. */
  function Send(site: Site, req: Request): (r: Result<Response, Fault>)
    ensures r.Err? <==> 400 <= site.respond(req).status < 600
    ensures site.respond(req).status in RetriedStatuses ==>
      r == Err(RetriesExhausted(site.respond(req).status))
    ensures 400 <= site.respond(req).status < 600 && site.respond(req).status !in RetriedStatuses ==>
      r == Err(HttpStatus(site.respond(req).status))
    ensures r.Ok? ==> r.value == site.respond(req)
  {
    var resp := site.respond(req);
    if resp.status in RetriedStatuses then Err(RetriesExhausted(resp.status))
    else if 400 <= resp.status < 600 then Err(HttpStatus(resp.status))
    else Ok(resp)
  }
}
