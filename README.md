# mlol_client in Dafny

A model of the MLOL (MediaLibraryOnLine) scraping client, `mlol_client/mlol_client.py`, with proofs about it.
The client logs in to a library's sub-domain of the portal. It searches the catalogue and reads book pages.
It downloads owned or available e-books and reserves taken ones.

Under the HTTP and HTML calls sit string and decision rules, which this project writes out and proves things about:

- the status classifier;
- the book page's fields, including the FORMATO/DRM string;
- the author split;
- the listing parser, including its `authors` variable that carries over from one result item to the next;
- the two trailing-number regular expressions, for book ids and for loan ids;
- base-URL normalisation and the public book URL;
- the decisions of the `MLOLClient` methods that look up, download, reserve and search books.

Layout, one module per file:

- `wrappers.dfy`: `Option` and `Result`.
- `text.dfy`: Python's ASCII string operations, written out.
  - `strip` and `lower`;
  - `split(sep)` and `split()[0]`;
  - `in` on strings, `startswith` and `endswith`;
  - `int()` with its sign and underscore rules, and its own whitespace: tab, line feed, vertical tab, form feed, carriage return and space, but not the separators 0x1C to 0x1F that `strip()` also removes;
  - `str(n)`.
- `patterns.dfy`:
  - `(?<=id=)\d+$` and `(?<=idp=)\d+$`, where `$` can also match before a final line feed;
  - `lstrip("..")` and `rstrip("/")`;
  - the one-pass `re.sub(r"https?(://)", "", ...)`;
  - the book URL.
- `markup.dfy`: what the client reads from a parsed page, as already-located optional strings. Also `Fault`, the exceptions that propagate to the caller.
- `books.dfy`:
  - the book record;
  - `_parse_book_status`;
  - the author split;
  - the FORMATO string.
- `listing.dfy`: `_parse_search_page`. It is a method with its loop, proved equal to a specification function, with lemmas about that function.
- `detail.dfy`: `_parse_book_page`. It is a method that fills the record field by field, proved equal to a specification function.
- `http.dfy`: the HTTP session.
  - The portal is the `Site` parameter: a function from request to response, and a function from body to parsed page.
  - `Send` is the session's retry adapter and its `raise_for_status` hook.
- `workflow.dfy`: one specification function per client operation. Each gives the value returned or the exception raised, and the requests sent in order. The lemmas about them follow.
- `client.dfy`: the `Client` class.
  - Its state is the session's base URL and whether the cookie jar holds `.ASPXAUTH`.
  - Its methods are proved equal to the `workflow.dfy` functions.

Where the source and a plain reading of its intent differ, the model follows the source:

- **Status panel.** When the status panel is present, `status` is always set, to None if no keyword matches.
- **Blank FORMATO string.** It leaves `drm` set to false and `formats` absent.
- **Description and year.** A missing description block, a block without an element, and a year that is not an integer each abort the whole page parse. A listing's parse also aborts, with `authors` never assigned, in one case only. The first item kept, the first whose title and id parse, must have no `p > a.authorref` link, and the page's first `<p>` must exist and carry an `itemprop` other than "author". A missing `<p>` (an AttributeError) or a `<p>` without `itemprop` (a KeyError) is caught and leaves that item's authors at None.
- **Scheme removal.** `re.sub` makes one left-to-right pass, so "hthttps://tp://x" keeps an "http://".
- **Lookup failures.** `download_book_by_id` and `reserve_book_by_id` raise when the book lookup gives None. `.status` of None is an AttributeError.
- **Page count.** `int()` reads the raw `data-pages` attribute, so a separator 0x1C to 0x1F around the number raises ValueError. The year is stripped before `int()`, so there such a separator is removed.
- **Empty deep batch.** A listing page with no records cannot be searched deeply: a thread pool of zero workers raises.

## Model

| member | source | states |
|---|---|---|
| Text.Lower | mlol_client/mlol_client.py:162 | `str.lower()` on ASCII: the same length, each letter lower-cased and every other character kept |
| Text.LStrip | mlol_client/mlol_client.py:179 | `lstrip()`: a suffix of the text; everything cut off is whitespace, and the result does not start with whitespace |
| Text.RStrip | mlol_client/mlol_client.py:179 | `rstrip()`: a prefix of the text; everything cut off is whitespace, and the result does not end with whitespace |
| Text.Strip | mlol_client/mlol_client.py:179 | `strip()`: `lstrip` then `rstrip`, leaving no whitespace at either end |
| Text.Contains | mlol_client/mlol_client.py:163 | `pat in s`: the pattern occurs at some index of the text |
| Text.StartsWith | mlol_client/mlol_client.py:326 | `startswith`: the text begins with the prefix |
| Text.SplitOn | mlol_client/mlol_client.py:153 | `split(sep)`: one more piece than there are separators, none of them holding the separator, empty pieces kept |
| Text.FirstWord | mlol_client/mlol_client.py:216 | `split()[0]`: absent exactly when the text is blank (IndexError); otherwise a non-empty word without whitespace |
| Text.IntTrim | mlol_client/mlol_client.py:372 | the text `int()` reads: only tab, line feed, vertical tab, form feed, carriage return and space are cut from its ends |
| Text.IntTrimIsSlice | mlol_client/mlol_client.py:372 | that trim cuts a prefix and a suffix made only of those characters |
| Text.ParseInt | mlol_client/mlol_client.py:372 | `int(s)` on the raw attribute: that whitespace, an optional sign, then digits with single underscores between two digits; no value where Python raises ValueError |
| Text.IntAfterStrip | mlol_client/mlol_client.py:205 | a text `int()` accepts is accepted with the same value after `strip()`, and after `strip()` nothing is left for `int()` to skip |
| Text.SeparatorOnlyStripped | mlol_client/mlol_client.py:205 | the converse fails: a numeral after one of the separators 0x1C to 0x1F is rejected by `int()` but read once stripped |
| Text.NatToString | mlol_client/mlol_client.py:352 | `str(i)`, as the page number goes into the query string: a non-empty numeral whose value is i |
| Patterns.TrailingNumberAfter | mlol_client/mlol_client.py:130-133 | a found id is a non-empty run of digits that ends the link, optionally before a final line feed, right after "id=" |
| Patterns.DigitRun | mlol_client/mlol_client.py:130 | the `\d+` anchored at the end: the length of the longest run of digits that ends the text |
| Patterns.MatchBefore | mlol_client/mlol_client.py:130 | the look-behind `(?<=id=)`: the trailing digit run matches only when it is non-empty and the marker sits right before it |
| Patterns.TrailingNumberFinds | mlol_client/mlol_client.py:130-133 | any link made of a prefix, "id=", digits and an optional final line feed gives exactly those digits |
| Patterns.TrailingNumberShape | mlol_client/mlol_client.py:130-133 | conversely, a link whose search succeeds is some prefix, the marker, the id and an optional final line feed |
| Patterns.RStripChar | mlol_client/mlol_client.py:90 | `rstrip("/")` removes exactly the trailing slashes and keeps the rest as a prefix |
| Patterns.LStripChar | mlol_client/mlol_client.py:234 | `lstrip("..")` removes exactly the leading dots and keeps the rest as a suffix |
| Patterns.LoanIdFromHref | mlol_client/mlol_client.py:229-235 | the loan id: the `(?<=idp=)\d+$` search on the href after `lstrip("..")` |
| Patterns.DotsDoNotMatter | mlol_client/mlol_client.py:230-235 | a run of leading dots before a link never changes the number the search finds after a marker that does not start with a dot |
| Patterns.LoanIdIgnoresLeadingDots | mlol_client/mlol_client.py:230-235 | the loan id after `lstrip("..")` equals the id the search finds in the link as given |
| Patterns.DeleteScheme | mlol_client/mlol_client.py:89-91 | the scheme deletion never lengthens the domain |
| Patterns.DeleteSchemeWithoutSeparator | mlol_client/mlol_client.py:89-91 | a domain without "://" passes the deletion unchanged |
| Patterns.DeleteSchemeKeepsLast | mlol_client/mlol_client.py:89-91 | a final character other than '/' survives the deletion |
| Patterns.BaseUrlFor | mlol_client/mlol_client.py:89-91 | the base URL: "https://" before the domain with trailing slashes stripped and the scheme deleted |
| Patterns.BaseUrlHasNoTrailingSlash | mlol_client/mlol_client.py:89-91 | the base URL starts with "https://" and, unless the domain is only slashes, does not end in '/' |
| Patterns.BaseUrlOfHost | mlol_client/mlol_client.py:89-91 | "host", "https://host" and "http://host//" all give the base URL "https://host" |
| Patterns.BookUrl | mlol_client/mlol_client.py:396-397 | the book URL starts with the base URL and ends with "?id=" and the id |
| Patterns.BookUrlRoundTrip | mlol_client/mlol_client.py:396-397 | for every non-empty all-digit id, the id search of the listing finds that id again in the URL built from it |
| Books.SplitAuthors | mlol_client/mlol_client.py:153 | the split gives one more name than there are ';', each without surrounding whitespace |
| Books.ParseStatus | mlol_client/mlol_client.py:161-173 | `_parse_book_status`: the indicator is stripped and lower-cased before the keywords are tried |
| Books.StatusOfIndicator | mlol_client/mlol_client.py:163-173 | the keywords scarica, ripeti, prenotato, occupato and non disponibile, tried in that order; the first contained one decides, and none gives no status |
| Books.StatusByKeyword | mlol_client/mlol_client.py:161-173 | the status is the first of scarica/ripeti/prenotato/occupato/non disponibile (available/owned/reserved/taken/unavailable) that the lower-cased text contains, else none; surrounding whitespace never matters |
| Books.StatusIgnoresCase | mlol_client/mlol_client.py:162 | indicators that agree up to case get the same status |
| Books.NoScaricaWithoutC | mlol_client/mlol_client.py:163 | a text without the letter c never reads as available |
| Books.OwnedWhenRipeti | mlol_client/mlol_client.py:165-166 | a text with "ripeti" in any case and no letter c is owned |
| Books.StatusOfRepeatDownload | mlol_client/mlol_client.py:161-166 | "  RIPETI DOWNLOAD  " is owned |
| Books.AuthorsRoundTrip | mlol_client/mlol_client.py:182 | splitting a ';'-join of trimmed names without ';' gives the names back, in order |
| Books.FormatTags | mlol_client/mlol_client.py:215-217 | the format tags of a word: its `/`-pieces, each stripped and lower-cased, in order |
| Books.ParseFormats | mlol_client/mlol_client.py:207-219 | the FORMATO block: nothing when the lookup failed; otherwise drm is whether the lower-cased text holds "drm", and formats are the tags of the first word, absent for a blank text |
| Books.FormatTagsOfWord | mlol_client/mlol_client.py:215-217 | the tags of a word without spaces are its lower-cased '/'-pieces, one more than its slashes |
| Books.FormatsOfNonBlank | mlol_client/mlol_client.py:207-217 | for a non-blank FORMATO string, drm says whether "drm" occurs in any case, and formats is the lower-cased '/'-split of the first word, with count('/') + 1 tags |
| Books.FormatsOfBlank | mlol_client/mlol_client.py:214-219 | a blank FORMATO string sets drm to false and leaves formats absent |
| Books.FormatsOfLeadingWord | mlol_client/mlol_client.py:215-216 | a string that starts with a word and then a space has that word's tags |
| Books.TagsOfEpubPdf | mlol_client/mlol_client.py:215-217 | "EPUB/PDF" gives the tags "epub", "pdf" |
| Books.DrmInAdobeText | mlol_client/mlol_client.py:214 | "EPUB/PDF con DRM Adobe" contains "drm" once lower-cased |
| Books.FormatsOfAdobeDrm | mlol_client/mlol_client.py:207-217 | "EPUB/PDF con DRM Adobe" gives formats ["epub", "pdf"] and drm true |
| Listing.ParseListing | mlol_client/mlol_client.py:126-159 | what `_parse_search_page` returns or raises: the records of the loop over every item, or its first error |
| Listing.Leaks | mlol_client/mlol_client.py:138-147 | an item leaves `authors` unchanged exactly when it has no author link and the page's first `<p>` exists with an `itemprop` other than "author" |
| Listing.AuthorsAfter | mlol_client/mlol_client.py:138-147 | the value of `authors` after an item: its author link's stripped text, else the first `<p>`'s when its itemprop is "author", None for a missing `<p>` or itemprop, and the old value otherwise |
| Listing.Step | mlol_client/mlol_client.py:129-156 | one iteration: an item without title and id is skipped; otherwise `authors` is updated and the record appended, or the unbound read raises |
| Listing.ScanItems | mlol_client/mlol_client.py:128-157 | the loop state after the first n items, stopped by the first error |
| Listing.Header | mlol_client/mlol_client.py:129-136 | an item is kept exactly when it has a title attribute and a link whose end is "id=" and a non-empty run of digits, and that run is its id |
| Listing.AuthorsField | mlol_client/mlol_client.py:149-156 | reading `authors` before any assignment raises UnboundLocalError; a name list has one entry per ';'-piece |
| Listing.ReadAuthors | mlol_client/mlol_client.py:138-147 | one item's author lookups reassign `authors` as `AuthorsAfter` says, or leave it as it was |
| Listing.VisitItem | mlol_client/mlol_client.py:129-156 | one loop iteration takes the scan over the first i items to the scan over the first i + 1 |
| Listing.ScanPage | mlol_client/mlol_client.py:128-157 | the loop over the result items, with `authors` carried across items, reaches the state or raises the error that `ScanItems` gives after all items |
| Listing.ParseSearchPage | mlol_client/mlol_client.py:126-159 | the parser returns the loop's records or raises its error, as `ParseListing` does |
| Listing.Listed | mlol_client/mlol_client.py:128-136 | the listed positions are positions of items |
| Listing.ListedItems | mlol_client/mlol_client.py:128-136 | the listed positions increase, are no more than the items, and are exactly the items with a title and an id |
| Listing.ListingShape | mlol_client/mlol_client.py:128-159 | the parser raises, with `authors` unbound, exactly when the first item kept has no author link and the page's first `<p>` exists with an `itemprop` other than "author"; otherwise there is one record per listed item, in page order, with that item's title and all-digit id |
| Listing.ListingAuthors | mlol_client/mlol_client.py:138-147 | a record gets its item's own authors, unless the item has no author link and the page's first `<p>` is not an author paragraph; then it repeats the previous record's authors |
| Listing.OwnAuthorsSplit | mlol_client/mlol_client.py:138-155 | an item's own authors are none for a failed lookup or an empty string, else its trimmed ';'-pieces |
| Listing.AssignsUnlessLeaking | mlol_client/mlol_client.py:138-147 | an item that does not leak assigns its own authors whatever came before; an item that leaks keeps the previous value |
| Listing.ScanFails | mlol_client/mlol_client.py:128-159 | the scan of the first n items raises UnboundLocalError exactly when the first listed one among them leaks |
| Listing.StepFails | mlol_client/mlol_client.py:138-156 | one iteration raises UnboundLocalError exactly when it lists an item that leaks while no earlier item has been listed |
| Listing.AuthorLinksNeverLeak | mlol_client/mlol_client.py:139-141 | a page whose items all have an author link never raises |
| Detail.BookPage | mlol_client/mlol_client.py:175-221 | what `_parse_book_page` returns or raises: the description error, then the year error, first; otherwise every field from its lookup |
| Detail.DescriptionField | mlol_client/mlol_client.py:193-199 | the description: a missing block raises TypeError, a block with no element raises StopIteration; otherwise the stripped text of the first element |
| Detail.YearField | mlol_client/mlol_client.py:204-205 | the year: absent without its element; otherwise `int()` of the stripped text, raising ValueError when it is not an integer |
| Detail.StatusField | mlol_client/mlol_client.py:190-191 | the status: absent without the panel; otherwise the classification of the stripped panel text, possibly no status |
| Detail.StrippedText | mlol_client/mlol_client.py:178-179 | a field is set exactly when its element was found, to text without surrounding whitespace; its value is pinned by `PageTexts` |
| Detail.FirstText | mlol_client/mlol_client.py:193-198 | the description is the first child that has a text, and none exactly when no child has one |
| Detail.IsbnField | mlol_client/mlol_client.py:187-188 | ISBNs are set only when some were found, one stripped text per element, in order |
| Detail.DetailAuthors | mlol_client/mlol_client.py:181-182 | the detail page's authors are set whenever the element is, with count(';') + 1 names |
| Detail.FirstElementText | mlol_client/mlol_client.py:193-198 | the search over the children finds what `FirstText` specifies |
| Detail.StripEach | mlol_client/mlol_client.py:188 | each ISBN text is stripped, in order |
| Detail.FillHeading | mlol_client/mlol_client.py:176-191 | title, authors, publisher, ISBNs and status are filled from their lookups and nothing else is set |
| Detail.FillFormats | mlol_client/mlol_client.py:207-219 | drm and formats become what the FORMATO string gives |
| Detail.ReadDescription | mlol_client/mlol_client.py:193-199 | the description lookup raises or reads as `DescriptionField` says |
| Detail.ReadYear | mlol_client/mlol_client.py:204-205 | the year lookup raises or reads as `YearField` says |
| Detail.ParseBookPage | mlol_client/mlol_client.py:175-221 | filling the record field by field returns or raises what `BookPage` does |
| Detail.PageFails | mlol_client/mlol_client.py:193-205 | the page raises exactly when the description block is missing or empty of elements, or the stripped year text is not an integer; the description is checked first |
| Detail.PageTexts | mlol_client/mlol_client.py:175-191 | on success title, authors, publisher, ISBNs and language are set exactly when their elements were found; title, publisher and language are the stripped texts, authors the split names, and the ISBNs the stripped texts of the elements, in order |
| Detail.PageStatus | mlol_client/mlol_client.py:190-191 | on success the status is the classified panel text, and none without a panel |
| Detail.PageFields | mlol_client/mlol_client.py:193-219 | on success the description is the stripped first text child, the year is set exactly when its cell was found and is `int()` of the stripped cell, and formats/drm are the FORMATO string's |
| Detail.StatusOfStripped | mlol_client/mlol_client.py:190-191 | stripping the panel text before classifying it changes nothing |
| Detail.FormatsAreIndependent | mlol_client/mlol_client.py:207-219 | the FORMATO string affects only formats and drm, never whether the page raises |
| Detail.YearOfNumeral | mlol_client/mlol_client.py:204-205 | a numeral with surrounding whitespace is read as its number |
| Http.Send | mlol_client/mlol_client.py:94-107 | an answer of 404, 429, 500, 502, 503 or 504 raises RetryError once the retries are used up; any other 4xx or 5xx answer raises HTTPError with its status; any other answer is returned |
| Workflow.BookOf | mlol_client/mlol_client.py:269-285 | no record without a title; otherwise the record carries the requested id and every parsed field |
| Workflow.GetBookRun | mlol_client/mlol_client.py:255-285 | one request; an alert page gives none; a parse error propagates; otherwise the record of the parsed page |
| Workflow.FirstAnchorWith | mlol_client/mlol_client.py:226-228 | the loan entry is the first link whose href contains the book id |
| Workflow.LoanIdFor | mlol_client/mlol_client.py:223-238 | a loan id is a non-empty run of digits; no anchor with the id, or no download link in it, raises; otherwise the id is the one found in the first download link of the first anchor with the id, and raises when that link has none |
| Workflow.RedownloadRun | mlol_client/mlol_client.py:223-253 | the resources page first; a loan id leads to one redownload request without redirects, otherwise the call raises |
| Workflow.Delivered | mlol_client/mlol_client.py:326-332 | bytes are returned exactly when the body starts with "<fulfillmentToken", and they are the body |
| Workflow.Finish | mlol_client/mlol_client.py:319-332 | only a 302 is followed, once, to its Location; a 302 without one raises; the response that decides is the target's or the first one |
| Workflow.DownloadFound | mlol_client/mlol_client.py:297-317 | after a found book's lookup, a status other than owned or available sends nothing more and gives none; an available book sends the download request and finishes on its answer |
| Workflow.OwnedAvoidsDownload | mlol_client/mlol_client.py:297-299 | for an owned book the next request is the resources page, and the download endpoint is never asked |
| Workflow.FinalResponse | mlol_client/mlol_client.py:319-323 | the response whose body decides a download: the answer to the Location of a 302, otherwise the first response |
| Workflow.FirstDownloadResponse | mlol_client/mlol_client.py:297-316 | the first response of the download proper: the redownload endpoint's for an owned book, the download endpoint's otherwise |
| Workflow.DownloadRun | mlol_client/mlol_client.py:290-332 | without the cookie nothing is sent; the book lookup comes first, and its failure or a missing book raises |
| Workflow.ReservationOutcome | mlol_client/mlol_client.py:431-444 | no answer without #lblInfo; otherwise true exactly when the lower-cased text says "con successo" or "prenotazione attiva" |
| Workflow.ReserveRun | mlol_client/mlol_client.py:402-444 | without the cookie nothing is sent; for any found book, whatever its status, the reservation request follows the lookup and its page decides |
| Workflow.PageCount | mlol_client/mlol_client.py:371-374 | a missing pager means one page; a pager without data-pages raises; otherwise the count is the integer the attribute parses to, and an attribute that does not parse raises an invalid-integer error carrying its text |
| Workflow.Gather | mlol_client/mlol_client.py:360 | `list(executor.map(...))` succeeds exactly when every call does, with their results in order |
| Workflow.GatherFailure | mlol_client/mlol_client.py:360 | a failed collection raises the error of the first failing call in order |
| Workflow.LookupRuns | mlol_client/mlol_client.py:356-360 | one lookup request per book, in order; success exactly when every lookup succeeds, one result per book in order |
| Workflow.LookupFailure | mlol_client/mlol_client.py:356-360 | a failed batch of lookups raises the error of the first book, in listing order, whose lookup fails |
| Workflow.BatchRun | mlol_client/mlol_client.py:355-362 | a listing error propagates; shallow mode yields the listing; deep mode raises on an empty listing, else yields one lookup per record with the same length and id order |
| Workflow.SearchRun | mlol_client/mlol_client.py:364-378 | one request at the call; its HTTP error, or the page count's error, is the error raised; otherwise the generator runs over the parsed number of pages |
| Workflow.NothingWithoutAuth | mlol_client/mlol_client.py:291-295 | without the cookie download and reservation return none and send nothing |
| Workflow.DownloadOwned | mlol_client/mlol_client.py:297-299 | an owned book goes to the resources page and never to the download endpoint |
| Workflow.DownloadAvailable | mlol_client/mlol_client.py:303-317 | an available book is requested from the download endpoint with unid and form=epub, without redirects |
| Workflow.DownloadRefused | mlol_client/mlol_client.py:300-302 | any other status gives none after the lookup alone |
| Workflow.BytesOnlyForToken | mlol_client/mlol_client.py:326-332 | returned bytes are the body of the final response (after following a redirect) to the redownload request for an owned book or the download request for an available one, that response starts with "<fulfillmentToken", and only an authenticated call returns any |
| Workflow.PageCountOfNumeral | mlol_client/mlol_client.py:372 | a pager holding a numeral gives that page count |
| Workflow.SearchRequestsIn | mlol_client/mlol_client.py:349-353 | helper: the search requests among those sent are no more than those sent |
| Workflow.PageRequests | mlol_client/mlol_client.py:352 | the requests for pages 1 to m ask for those page numbers, in order |
| Workflow.SearchRequestsOfConcat | mlol_client/mlol_client.py:349-353 | helper: counting search requests distributes over concatenation |
| Workflow.NoSearchAmongLookups | mlol_client/mlol_client.py:360 | helper: book lookups are not search requests |
| Workflow.Iterations | mlol_client/mlol_client.py:345 | `range(1, pages + 1)` has `pages` iterations, and none when pages < 1 |
| Workflow.PageRuns | mlol_client/mlol_client.py:345-362 | the runs of the iterations for pages 1 to n, in order |
| Workflow.Absorb | mlol_client/mlol_client.py:345-362 | one more iteration: its requests are added, and its batch is yielded or its exception ends the generator |
| Workflow.Consume | mlol_client/mlol_client.py:345-362 | a generator consumed until its iterations are exhausted or one raises |
| Workflow.Paginate | mlol_client/mlol_client.py:337-362 | `_search_books_paginated` consumed for its first n iterations |
| Workflow.PageRun | mlol_client/mlol_client.py:346-362 | a successful iteration yields the batch of its page's response, which is the first response when there is one page |
| Workflow.PageRunRequests | mlol_client/mlol_client.py:346-353 | an iteration sends the request for its page number, and no search request when there is one page |
| Workflow.ConsumeBatches | mlol_client/mlol_client.py:345-362 | consuming iterations yields one batch per iteration until the first failure, batch k being iteration k's, and that failure is the iteration's exception |
| Workflow.ConsumeSearches | mlol_client/mlol_client.py:345-362 | when every iteration sends one search request, the consumed run sends those of the iterations reached, in order |
| Workflow.ConsumeSilent | mlol_client/mlol_client.py:345-362 | iterations that send no search request add up to a run without one |
| Workflow.ConsumeStops | mlol_client/mlol_client.py:345-362 | once an exception stops the consumption, further iterations change nothing |
| Workflow.PaginateBatches | mlol_client/mlol_client.py:345-362 | n iterations yield at most n batches, exactly n when none fails; batch k is that of page k + 1 |
| Workflow.PaginateSearches | mlol_client/mlol_client.py:345-362 | the search requests are for pages 1, 2, ... up to the iteration reached, in order, and there are none for a single page |
| Workflow.PaginateStops | mlol_client/mlol_client.py:345-362 | after a failure, later iterations change nothing |
| Workflow.BatchCount | mlol_client/mlol_client.py:345 | a generator consumed without failure yields exactly `pages` batches, none when pages < 1 |
| Workflow.SinglePageReusesFirst | mlol_client/mlol_client.py:345-355 | with no pager, the only batch is that of the first response, and no further search request is sent |
| MlolClient.Client.constructor | mlol_client/mlol_client.py:78-91 | with credentials and a domain, the base URL is the normalised domain and the session is authenticated if login left the cookie; otherwise the default portal, unauthenticated |
| MlolClient.Client.BookUrlById | mlol_client/mlol_client.py:396-397 | the URL starts with the base URL, ends with "?id=" and the id, and gives a numeric id back |
| MlolClient.Client.GetBookById | mlol_client/mlol_client.py:255-285 | behaves as `GetBookRun` |
| MlolClient.Client.RedownloadOwnedBook | mlol_client/mlol_client.py:223-253 | behaves as `RedownloadRun` |
| MlolClient.Client.DownloadBookById | mlol_client/mlol_client.py:290-332 | reassigning the response step by step behaves as `DownloadRun` |
| MlolClient.Client.ReserveBookById | mlol_client/mlol_client.py:402-444 | behaves as `ReserveRun` |
| MlolClient.Client.LookupBooks | mlol_client/mlol_client.py:356-360 | the loop over the ids behaves as `LookupRuns` |
| MlolClient.Client.ReadBatch | mlol_client/mlol_client.py:355-362 | parsing a page and, when deep, looking up its records behaves as `BatchRun` |
| MlolClient.Client.ReadPage | mlol_client/mlol_client.py:346-362 | one iteration of the generator behaves as `PageRun` |
| MlolClient.Client.SearchBooksPaginated | mlol_client/mlol_client.py:337-362 | the loop over page numbers, stopped by the first exception, behaves as `Paginate` over `range(1, pages + 1)` |
| MlolClient.Client.Search | mlol_client/mlol_client.py:364-378 | behaves as `SearchRun` |
| MlolClient.Client.SearchBooks | mlol_client/mlol_client.py:364-378 | searches with seltip 310, the stripped query and nris 48 |
| MlolClient.Client.GetLatestBooks | mlol_client/mlol_client.py:380-394 | searches with seltip 310, news 15day and nris 48 |

## Left out

- HTTP transport is a parameter: how the session joins paths to its base URL, and headers such as Host and Referer.
- The retry adapter retries 404, 429, 500, 502, 503 and 504 up to three times, with backoff. The model sends each request once and takes its one answer as the answer to every retry, because `Site` answers a request the same way each time. A portal that recovers between tries is not modelled, and the retries do not appear among the requests sent.
- Login through the portal's form (`_get_auth_cookies`) is left out. The constructor takes whether it left an `.ASPXAUTH` cookie.
- HTML parsing and CSS selector semantics are left out. Each page is given as the values of the lookups the client makes.
- The `regex f"({book_id})"` on resource links is read as a plain substring test, which is what it is for numeric ids.
- Python's `\d`, `str.strip`, `str.split`, `str.lower` and `int()` are modelled for ASCII only. Unicode digits, whitespace and case are not covered.
- Concurrency is not modelled. A deep batch's lookups are sent in listing order, while the thread pool may send them in any order. On a failing deep batch the model lists every lookup as sent, while the pool cancels those not yet started.
- Generator laziness is not modelled. `Paged` is the run of a generator consumed to the end, or to its first exception.
- A `StopIteration` that escapes into the generator as `RuntimeError` is not distinguished from the plain `StopIteration`.
- Logging and `__repr__` are left out.
- The delegating wrappers `get_book`, `download_book`, `reserve_book` and `get_book_url` call the `_by_id` operations with `book.id`. They are not modelled separately.
- Detail.FirstText: a description child that is an empty string still counts as a child with a text. A falsy empty `NavigableString` would instead leave the description unset.
