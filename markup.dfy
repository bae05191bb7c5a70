/** The HTML pages of the portal, reduced to the lookups the client makes on
    them. Each field holds what the selector returns once the element is
    located: None where the element (or attribute) is missing, otherwise the
    element's `.text` (not yet stripped) or attribute value. Which element a
    selector picks is not modelled; only what the client does with it. */
module Markup {
  import opened Wrappers

  /** A `<p>` element: its `itemprop` attribute and its `.string` (None when
      the element does not hold exactly one string). */
  datatype Paragraph = Paragraph(itemprop: Option<string>, str: Option<string>)

  /** The first `p > a.authorref` link of a result item, by its `.string`. */
  datatype AuthorLink = AuthorLink(str: Option<string>)

  /** One `.result-item` of a listing page. */
  datatype ResultItem = ResultItem(
    title: Option<string>,          // `title` attribute of the item's first <h4>
    href: Option<string>,           // `href` attribute of the item's first <a>
    authorLink: Option<AuthorLink>) // the first `p > a.authorref`, if any

  /** The `#pager` element, by its `data-pages` attribute. */
  datatype Pager = Pager(dataPages: Option<string>)

  /** An `<a>` of the resources page: its `href`, and the `href` attributes of
      the `.download_button.bottom-buffer-10 > a` links of the loan entry it
      sits in (its grandparent), in document order. */
  datatype LoanAnchor = LoanAnchor(href: string, downloadHrefs: seq<Option<string>>)

  /** The lookups of a book's detail page. `description` lists the children
      of the description block: Some(text) for an element, None for a child
      without a `text` attribute. `isbns` holds the texts of every element
      tagged `itemprop="isbn"`. */
  datatype DetailLookups = DetailLookups(
    title: Option<string>,                    // .book-title
    authors: Option<string>,                  // .authors_title
    publisher: Option<string>,                // .publisher_title > span > a
    isbns: seq<string>,                       // [itemprop=isbn]
    statusPanel: Option<string>,              // .panel-mlol
    description: Option<seq<Option<string>>>, // div[itemprop=description]
    language: Option<string>,                 // span[itemprop=inLanguage]
    year: Option<string>,                     // span[itemprop=datePublished]
    formats: Option<string>)                  // the <span> beside the bold "FORMATO" label

  /** Everything the client reads from one parsed page. */
  datatype Document = Document(
    items: seq<ResultItem>,            // listing page: the `.result-item` elements, in order
    firstParagraph: Option<Paragraph>, // listing page: the page's first <p>
    pager: Option<Pager>,              // listing page: #pager
    detail: DetailLookups,             // detail page
    anchors: seq<LoanAnchor>,          // resources page: the <a> elements with an href, in order
    info: Option<string>)              // reservation page: #lblInfo

  /** The exceptions the client lets propagate to its caller, by cause. */
  datatype Fault =
    | HttpStatus(code: int)       // HTTPError from raise_for_status: a 4xx or 5xx status the adapter does not retry
    | RetriesExhausted(code: int) // RetryError: the adapter retried 404, 429, 500, 502, 503 or 504 and gave up
    | AuthorsUnbound              // UnboundLocalError: `authors` read before any assignment
    | DescriptionMissing          // TypeError: iterating the missing description block
    | DescriptionWithoutElement   // StopIteration: no child of the block has a `text`
    | NotAnInteger(text: string)  // ValueError from `int(...)`
    | PagesAttributeMissing       // KeyError: #pager without `data-pages`
    | LocationMissing             // KeyError: a 302 response without a Location header
    | BookMissing                 // AttributeError: `.status` of a book lookup that gave None
    | LoanNotFound                // the loan entry, its link or its loan id could not be found
    | EmptyWorkerPool             // ValueError: a thread pool with no workers
}
