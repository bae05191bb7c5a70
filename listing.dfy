/** `_parse_search_page`: the loop over the result items of a listing page.
    The loop skips items without a title or a book id, appends one record per
    remaining item in page order, and keeps the `authors` local from one
    iteration to the next: when the author lookup assigns nothing, the
    previous item's value is used again, and on the first item the read of
    the never-assigned local raises. */
module Listing {
  import opened Wrappers
  import opened Text
  import opened Patterns
  import opened Markup
  import opened Books

  /** The marker before the book id at the end of an item's link. */
  const IdMarker := "id="

  /** The `authors` local of the loop: Unbound until its first assignment. */
  datatype AuthorsVar = Unbound | Bound(value: Option<string>)

  /** The title and id of a result item. */
  datatype ItemHeader = ItemHeader(title: string, id: string)

  /** The loop state after some items: the records so far and `authors`. */
  datatype Scan = Scan(books: seq<Book>, authors: AuthorsVar)

  /** The first `try` block: the `title` attribute and the digits after
      "id=" at the end of the link; None when the item is skipped. */
  function Header(item: ResultItem): (r: Option<ItemHeader>)
    ensures r.Some? ==> item.title == Some(r.value.title) && item.href.Some?
    ensures r.Some? ==> r.value.id != [] && AllDigits(r.value.id)
    ensures r.Some? ==> TrailingNumberAfter(IdMarker, item.href.value) == Some(r.value.id)
    ensures item.title.Some? && item.href.Some? && TrailingNumberAfter(IdMarker, item.href.value).Some? ==> r.Some?
  {
    if item.title.None? || item.href.None? then None
    else
      match TrailingNumberAfter(IdMarker, item.href.value)
      case None => None
      case Some(id) => Some(ItemHeader(item.title.value, id))
  }

  /** `x.string.strip()`, where a missing string makes the `try` block assign
      None instead. */
  function StrippedString(str: Option<string>): Option<string> {
    match str
    case None => None
    case Some(s) => Some(Strip(s))
  }

  /** The item leaves `authors` as it was: it has no author link, the page has
      a first paragraph, and that paragraph's `itemprop` is not "author". */
  predicate Leaks(item: ResultItem, first: Option<Paragraph>) {
    item.authorLink.None? && first.Some? && first.value.itemprop.Some?
    && first.value.itemprop.value != "author"
  }

  /** The second `try` block: the value of `authors` after an item, given
      the page's first paragraph and the value before it. */
  function AuthorsAfter(item: ResultItem, first: Option<Paragraph>, prev: AuthorsVar): AuthorsVar {
    match item.authorLink
    case Some(link) => Bound(StrippedString(link.str))
    case None =>
      match first
      case None => Bound(None)     // `page.find("p")` was None
      case Some(p) =>
        match p.itemprop
        case None => Bound(None)   // KeyError on `attrs["itemprop"]`
        case Some(prop) =>
          if prop == "author" then Bound(StrippedString(p.str)) else prev
  }

  /** The record's `authors` field: an unbound local raises; None or the
      empty string give None; otherwise the `;`-separated names. */
  function AuthorsField(v: AuthorsVar): (r: Result<Option<seq<string>>, Fault>)
    ensures r.Err? <==> v.Unbound?
    ensures r.Err? ==> r.error == AuthorsUnbound
    ensures r.Ok? && r.value.Some? ==> v.value.Some? && |r.value.value| == Count(v.value.value, ';') + 1
  {
    match v
    case Unbound => Err(AuthorsUnbound)
    case Bound(None) => Ok(None)
    case Bound(Some(s)) => if s == [] then Ok(None) else Ok(Some(SplitAuthors(s)))
  }

  /** The headers of the items, in page order. */
  function Headers(items: seq<ResultItem>): (hs: seq<Option<ItemHeader>>)
    ensures |hs| == |items|
  {
    seq(|items|, j requires 0 <= j < |items| => Header(items[j]))
  }

  /** One iteration of the loop, given the item's header. */
  function Step(s: Scan, item: ResultItem, h: Option<ItemHeader>, first: Option<Paragraph>): Result<Scan, Fault> {
    match h
    case None => Ok(s)
    case Some(h) =>
      var authors := AuthorsAfter(item, first, s.authors);
      match AuthorsField(authors)
      case Err(e) => Err(e)
      case Ok(field) => Ok(Scan(s.books + [ListingRecord(h.id, h.title, field)], authors))
  }

  /** The loop state after the first `n` items, whose headers are `hs`. */
  function ScanItems(items: seq<ResultItem>, hs: seq<Option<ItemHeader>>, first: Option<Paragraph>, n: nat): Result<Scan, Fault>
    requires n <= |items| == |hs|
  {
    if n == 0 then Ok(Scan([], Unbound))
    else
      match ScanItems(items, hs, first, n - 1)
      case Err(e) => Err(e)
      case Ok(s) => Step(s, items[n - 1], hs[n - 1], first)
  }

  /** What `_parse_search_page` returns or raises on a listing page. */
  function ParseListing(page: Document): Result<seq<Book>, Fault> {
    match ScanItems(page.items, Headers(page.items), page.firstParagraph, |page.items|)
    case Err(e) => Err(e)
    case Ok(s) => Ok(s.books)
  }

  /** `_parse_search_page`, as the loop it is. */
  method ParseSearchPage(page: Document) returns (r: Result<seq<Book>, Fault>)
    ensures r == ParseListing(page)
  {
    var scan := ScanPage(page.items, page.firstParagraph);
    if scan.Err? {
      return Err(scan.error);
    }
    r := Ok(scan.value.books);
  }

  /** The loop over the result items, with `authors` carried from one
      item to the next. */
  method ScanPage(items: seq<ResultItem>, first: Option<Paragraph>) returns (r: Result<Scan, Fault>)
    ensures r == ScanItems(items, Headers(items), first, |items|)
  {
    ghost var hs := Headers(items);
    var books: seq<Book> := [];
    var authors := Unbound;
    var i := 0;
    while i < |items|
      invariant i <= |items|
      invariant ScanItems(items, hs, first, i) == Ok(Scan(books, authors))
    {
      var next := VisitItem(items, hs, first, i, books, authors);
      if next.Err? {
        ErrorStops(items, hs, first, i + 1);
        return next;
      }
      books, authors := next.value.books, next.value.authors;
      i := i + 1;
    }
    r := Ok(Scan(books, authors));
  }

  /** One iteration of the loop of `_parse_search_page`, on the item at
      `i`: the loop state after it, or what it raises. */
  method VisitItem(items: seq<ResultItem>, ghost hs: seq<Option<ItemHeader>>, first: Option<Paragraph>, i: nat,
                   books: seq<Book>, authors: AuthorsVar) returns (r: Result<Scan, Fault>)
    requires i < |items| && hs == Headers(items)
    requires ScanItems(items, hs, first, i) == Ok(Scan(books, authors))
    ensures r == ScanItems(items, hs, first, i + 1)
  {
    var item := items[i];
    var header := Header(item);
    assert header == hs[i];
    if header.None? {
      return Ok(Scan(books, authors));
    }
    var now := ReadAuthors(item, first, authors);
    var field := AuthorsField(now);
    if field.Err? {
      return Err(field.error);
    }
    r := Ok(Scan(books + [ListingRecord(header.value.id, header.value.title, field.value)], now));
  }

  /** The second `try` block of the loop, assigning `authors` or not. */
  method ReadAuthors(item: ResultItem, first: Option<Paragraph>, prev: AuthorsVar) returns (authors: AuthorsVar)
    ensures authors == AuthorsAfter(item, first, prev)
  {
    authors := prev;
    if item.authorLink.Some? {
      authors := Bound(StrippedString(item.authorLink.value.str));
    } else if first.None? || first.value.itemprop.None? {
      authors := Bound(None);
    } else if first.value.itemprop.value == "author" {
      authors := Bound(StrippedString(first.value.str));
    }
  }

  /** Once the loop has raised, the rest of the page changes nothing. */
  lemma {:induction false} ErrorStops(items: seq<ResultItem>, hs: seq<Option<ItemHeader>>, first: Option<Paragraph>, n: nat)
    requires n <= |items| == |hs| && ScanItems(items, hs, first, n).Err?
    ensures ScanItems(items, hs, first, |items|) == ScanItems(items, hs, first, n)
    decreases |items| - n
  {
    if n < |items| {
      assert ScanItems(items, hs, first, n + 1) == ScanItems(items, hs, first, n);
      ErrorStops(items, hs, first, n + 1);
    }
  }

  // ---------------------------------------------------------------------
  // Which items are listed
  // ---------------------------------------------------------------------

  /** The positions, among the first `n` headers, of those that are present. */
  function ListedIndices(hs: seq<Option<ItemHeader>>, n: nat): (r: seq<nat>)
    requires n <= |hs|
    ensures |r| <= n && forall k :: 0 <= k < |r| ==> r[k] < n
  {
    if n == 0 then []
    else ListedIndices(hs, n - 1) + (if hs[n - 1].Some? then [n - 1] else [])
  }

  lemma ListedIndicesStep(hs: seq<Option<ItemHeader>>, n: nat)
    requires 0 < n <= |hs|
    ensures hs[n - 1].None? ==> ListedIndices(hs, n) == ListedIndices(hs, n - 1)
    ensures hs[n - 1].Some? ==> ListedIndices(hs, n) == ListedIndices(hs, n - 1) + [n - 1]
  {
  }

  /** The listed positions are exactly those with a header, in increasing
      order. */
  lemma {:induction false} ListedIndicesAreSubsequence(hs: seq<Option<ItemHeader>>, n: nat)
    requires n <= |hs|
    ensures var idx := ListedIndices(hs, n);
      && (forall k :: 0 <= k < |idx| ==> hs[idx[k]].Some?)
      && (forall k, m :: 0 <= k < m < |idx| ==> idx[k] < idx[m])
      && (forall j :: 0 <= j < n && hs[j].Some? ==> j in idx)
  {
    if n > 0 {
      ListedIndicesAreSubsequence(hs, n - 1);
      ListedIndicesStep(hs, n);
      var prev := ListedIndices(hs, n - 1);
      var idx := ListedIndices(hs, n);
      assert forall k :: 0 <= k < |prev| ==> idx[k] == prev[k];
      if hs[n - 1].Some? {
        assert idx[|prev|] == n - 1;
      }
    }
  }

  // ---------------------------------------------------------------------
  // The loop invariant
  // ---------------------------------------------------------------------

  /** The authors of a listed item that does not leak, whatever came before. */
  function OwnAuthors(item: ResultItem, first: Option<Paragraph>): Option<seq<string>> {
    match AuthorsAfter(item, first, Unbound)
    case Unbound => None
    case Bound(v) => AuthorsField(Bound(v)).value
  }

  /** A non-leaking item assigns `authors` whatever it was before; a leaking
      one keeps it. */
  lemma AssignsUnlessLeaking(item: ResultItem, first: Option<Paragraph>, prev: AuthorsVar)
    ensures !Leaks(item, first) ==> AuthorsAfter(item, first, prev) == AuthorsAfter(item, first, Unbound)
    ensures !Leaks(item, first) ==> AuthorsAfter(item, first, prev).Bound?
    ensures !Leaks(item, first) ==> AuthorsField(AuthorsAfter(item, first, prev)) == Ok(OwnAuthors(item, first))
    ensures Leaks(item, first) ==> AuthorsAfter(item, first, prev) == prev
  {
  }

  /** The records after the first `n` items: one per listed item, holding
      its title and id and nothing else but authors; `authors` is unbound
      exactly while nothing was listed. */
  ghost predicate Shape(hs: seq<Option<ItemHeader>>, n: nat, s: Scan)
    requires n <= |hs|
  {
    var idx := ListedIndices(hs, n);
    && |s.books| == |idx|
    && (s.authors.Unbound? <==> idx == [])
    && forall k :: 0 <= k < |idx| ==>
         && hs[idx[k]] == Some(ItemHeader(s.books[k].title, s.books[k].id))
         && s.books[k] == ListingRecord(s.books[k].id, s.books[k].title, s.books[k].authors)
  }

  lemma {:induction false} ScanShape(items: seq<ResultItem>, hs: seq<Option<ItemHeader>>, first: Option<Paragraph>, n: nat)
    requires n <= |items| == |hs|
    ensures ScanItems(items, hs, first, n).Ok? ==> Shape(hs, n, ScanItems(items, hs, first, n).value)
  {
    if n > 0 && ScanItems(items, hs, first, n).Ok? {
      ScanShape(items, hs, first, n - 1);
      ListedIndicesStep(hs, n);
      var s := ScanItems(items, hs, first, n - 1).value;
      var t := ScanItems(items, hs, first, n).value;
      if hs[n - 1].Some? {
        var prev := ListedIndices(hs, n - 1);
        var idx := ListedIndices(hs, n);
        assert t.books[..|s.books|] == s.books;
        forall k | 0 <= k < |idx|
          ensures hs[idx[k]] == Some(ItemHeader(t.books[k].title, t.books[k].id))
          ensures t.books[k] == ListingRecord(t.books[k].id, t.books[k].title, t.books[k].authors)
        {
          if k < |prev| {
            assert idx[k] == prev[k] && t.books[k] == s.books[k];
          }
        }
      }
    }
  }

  lemma {:induction false} ScanFails(items: seq<ResultItem>, hs: seq<Option<ItemHeader>>, first: Option<Paragraph>, n: nat)
    requires n <= |items| == |hs|
    ensures var idx := ListedIndices(hs, n);
      ScanItems(items, hs, first, n).Err? <==> (idx != [] && Leaks(items[idx[0]], first))
    ensures ScanItems(items, hs, first, n).Err? ==> ScanItems(items, hs, first, n).error == AuthorsUnbound
  {
    if n > 0 {
      ScanFails(items, hs, first, n - 1);
      ScanUnbound(items, hs, first, n - 1);
      ListedIndicesStep(hs, n);
      var prev := ListedIndices(hs, n - 1);
      var idx := ListedIndices(hs, n);
      var before := ScanItems(items, hs, first, n - 1);
      if before.Err? {
        assert ScanItems(items, hs, first, n) == before;
        assert idx[0] == prev[0];
      } else {
        assert ScanItems(items, hs, first, n) == Step(before.value, items[n - 1], hs[n - 1], first);
        StepFails(before.value, items[n - 1], hs[n - 1], first, prev);
        if hs[n - 1].None? {
          assert idx == prev;
        } else if prev == [] {
          assert idx == [n - 1];
        } else {
          assert idx[0] == prev[0];
        }
      }
    }
  }

  /** `authors` stays unassigned exactly as long as no item has been listed. */
  lemma {:induction false} ScanUnbound(items: seq<ResultItem>, hs: seq<Option<ItemHeader>>, first: Option<Paragraph>, n: nat)
    requires n <= |items| == |hs|
    ensures ScanItems(items, hs, first, n).Ok? ==>
      (ScanItems(items, hs, first, n).value.authors.Unbound? <==> ListedIndices(hs, n) == [])
  {
    if n > 0 {
      ScanUnbound(items, hs, first, n - 1);
      ListedIndicesStep(hs, n);
      var before := ScanItems(items, hs, first, n - 1);
      if before.Ok? {
        assert ScanItems(items, hs, first, n) == Step(before.value, items[n - 1], hs[n - 1], first);
        AssignsUnlessLeaking(items[n - 1], first, before.value.authors);
      }
    }
  }

  /** One iteration raises exactly when it reaches a listed item that leaks
      before any item has been listed. */
  lemma StepFails(s: Scan, item: ResultItem, h: Option<ItemHeader>, first: Option<Paragraph>, prev: seq<nat>)
    requires s.authors.Unbound? <==> prev == []
    ensures Step(s, item, h, first).Err? <==> (h.Some? && prev == [] && Leaks(item, first))
    ensures Step(s, item, h, first).Err? ==> Step(s, item, h, first).error == AuthorsUnbound
  {
    AssignsUnlessLeaking(item, first, s.authors);
  }

  /** The last record carries the authors the loop variable holds. */
  ghost predicate LastBound(s: Scan) {
    s.books != [] ==> AuthorsField(s.authors) == Ok(s.books[|s.books| - 1].authors)
  }

  /** Each record listed at `idx` whose item does not leak holds that
      item's own authors. */
  ghost predicate OwnKept(items: seq<ResultItem>, first: Option<Paragraph>, idx: seq<nat>, books: seq<Book>) {
    forall k :: 0 <= k < |idx| && k < |books| && idx[k] < |items| && !Leaks(items[idx[k]], first) ==>
      books[k].authors == OwnAuthors(items[idx[k]], first)
  }

  /** Each record listed at `idx` whose item leaks repeats the authors of
      the record before it. */
  ghost predicate LeakKept(items: seq<ResultItem>, first: Option<Paragraph>, idx: seq<nat>, books: seq<Book>) {
    forall k :: 0 < k < |idx| && k < |books| && idx[k] < |items| && Leaks(items[idx[k]], first) ==>
      books[k].authors == books[k - 1].authors
  }

  /** What the records say about authors after the first `n` items. */
  ghost predicate AuthorFacts(items: seq<ResultItem>, hs: seq<Option<ItemHeader>>, first: Option<Paragraph>, n: nat, s: Scan)
    requires n <= |hs|
  {
    var idx := ListedIndices(hs, n);
    LastBound(s) && OwnKept(items, first, idx, s.books) && LeakKept(items, first, idx, s.books)
  }

  lemma {:induction false} ScanAuthors(items: seq<ResultItem>, hs: seq<Option<ItemHeader>>, first: Option<Paragraph>, n: nat)
    requires n <= |items| == |hs|
    ensures ScanItems(items, hs, first, n).Ok? ==>
      Shape(hs, n, ScanItems(items, hs, first, n).value)
      && AuthorFacts(items, hs, first, n, ScanItems(items, hs, first, n).value)
  {
    ScanShape(items, hs, first, n);
    if n > 0 && ScanItems(items, hs, first, n).Ok? {
      ScanAuthors(items, hs, first, n - 1);
      ScanShape(items, hs, first, n - 1);
      ListedIndicesStep(hs, n);
      var s := ScanItems(items, hs, first, n - 1).value;
      var t := ScanItems(items, hs, first, n).value;
      if hs[n - 1].Some? {
        assert Step(s, items[n - 1], hs[n - 1], first) == Ok(t);
        AuthorsStep(items, first, ListedIndices(hs, n - 1), n - 1, s, t, hs[n - 1].value);
      }
    }
  }

  /** One listed item appended by the loop keeps the author facts. */
  lemma AuthorsStep(items: seq<ResultItem>, first: Option<Paragraph>, prev: seq<nat>, i: nat, s: Scan, t: Scan, h: ItemHeader)
    requires i < |items| && |s.books| == |prev|
    requires Step(s, items[i], Some(h), first) == Ok(t)
    requires LastBound(s) && OwnKept(items, first, prev, s.books) && LeakKept(items, first, prev, s.books)
    ensures LastBound(t) && OwnKept(items, first, prev + [i], t.books) && LeakKept(items, first, prev + [i], t.books)
  {
    var item := items[i];
    var last := |s.books|;
    AssignsUnlessLeaking(item, first, s.authors);
    assert t.authors == AuthorsAfter(item, first, s.authors);
    assert t.books == s.books + [t.books[last]];
    assert AuthorsField(t.authors) == Ok(t.books[last].authors);
    var idx := prev + [i];
    forall k | 0 <= k < |idx| && k < |t.books| && idx[k] < |items| && !Leaks(items[idx[k]], first)
      ensures t.books[k].authors == OwnAuthors(items[idx[k]], first)
    {
      if k < last {
        assert idx[k] == prev[k] && t.books[k] == s.books[k];
      }
    }
    forall k | 0 < k < |idx| && k < |t.books| && idx[k] < |items| && Leaks(items[idx[k]], first)
      ensures t.books[k].authors == t.books[k - 1].authors
    {
      if k < last {
        assert idx[k] == prev[k] && t.books[k] == s.books[k] && t.books[k - 1] == s.books[k - 1];
      } else {
        assert t.books[k - 1] == s.books[last - 1];
      }
    }
  }

  // ---------------------------------------------------------------------
  // Properties of `_parse_search_page`
  // ---------------------------------------------------------------------

  /** The positions of the items that are listed: those with a `title`
      attribute and a link ending in "id=" and digits. */
  function Listed(page: Document): (idx: seq<nat>)
    ensures forall k :: 0 <= k < |idx| ==> idx[k] < |page.items|
  {
    ListedIndices(Headers(page.items), |page.items|)
  }

  /** The listed positions are an increasing sequence holding every item
      that has a header, and only those. */
  lemma ListedItems(page: Document)
    ensures var idx := Listed(page);
      && |idx| <= |page.items|
      && (forall k, m :: 0 <= k < m < |idx| ==> idx[k] < idx[m])
      && (forall j :: 0 <= j < |page.items| ==> (j in idx <==> Header(page.items[j]).Some?))
  {
    var hs := Headers(page.items);
    ListedIndicesAreSubsequence(hs, |page.items|);
    var idx := Listed(page);
    assert idx == ListedIndices(hs, |page.items|);
    forall j | 0 <= j < |page.items|
      ensures j in idx <==> Header(page.items[j]).Some?
    {
      assert hs[j] == Header(page.items[j]);
      if j in idx {
        var k :| 0 <= k < |idx| && idx[k] == j;
        assert hs[idx[k]].Some?;
      }
    }
  }

  /** The parser raises exactly when the first listed item would reuse an
      `authors` value that was never assigned; otherwise the records are the
      listed items, in page order, each with its own title and all-digit id
      and no other field but authors. */
  lemma ListingShape(page: Document)
    ensures ParseListing(page).Err? <==>
      (Listed(page) != [] && Leaks(page.items[Listed(page)[0]], page.firstParagraph))
    ensures ParseListing(page).Err? ==> ParseListing(page).error == AuthorsUnbound
    ensures ParseListing(page).Ok? ==>
      var books := ParseListing(page).value;
      var idx := Listed(page);
      && |books| == |idx| <= |page.items|
      && forall k :: 0 <= k < |books| ==>
           && Header(page.items[idx[k]]) == Some(ItemHeader(books[k].title, books[k].id))
           && books[k].id != [] && AllDigits(books[k].id)
           && books[k] == ListingRecord(books[k].id, books[k].title, books[k].authors)
  {
    var hs := Headers(page.items);
    ScanFails(page.items, hs, page.firstParagraph, |page.items|);
    ScanShape(page.items, hs, page.firstParagraph, |page.items|);
    if ParseListing(page).Ok? {
      var books := ParseListing(page).value;
      var idx := Listed(page);
      forall k | 0 <= k < |books|
        ensures Header(page.items[idx[k]]) == Some(ItemHeader(books[k].title, books[k].id))
        ensures books[k].id != [] && AllDigits(books[k].id)
      {
        assert hs[idx[k]] == Header(page.items[idx[k]]);
      }
    }
  }

  /** A listed item with its own author information gets exactly that; an
      item that leaks repeats the authors of the record before it. */
  lemma ListingAuthors(page: Document, k: nat)
    requires ParseListing(page).Ok? && k < |ParseListing(page).value|
    ensures k < |Listed(page)|
    ensures var books := ParseListing(page).value;
      var item := page.items[Listed(page)[k]];
      && (!Leaks(item, page.firstParagraph) ==> books[k].authors == OwnAuthors(item, page.firstParagraph))
      && (Leaks(item, page.firstParagraph) ==> k > 0 && books[k].authors == books[k - 1].authors)
  {
    var hs := Headers(page.items);
    ScanFails(page.items, hs, page.firstParagraph, |page.items|);
    ScanAuthors(page.items, hs, page.firstParagraph, |page.items|);
  }

  /** The authors an item brings itself: none when the lookup failed or the
      string is blank; otherwise one trimmed name per `;`-piece. */
  lemma OwnAuthorsSplit(item: ResultItem, first: Option<Paragraph>)
    ensures var a := OwnAuthors(item, first);
      var v := AuthorsAfter(item, first, Unbound);
      && (v.Bound? && v.value.Some? && v.value.value != [] <==> a.Some?)
      && (a.Some? ==> a.value == SplitAuthors(v.value.value) && |a.value| == Count(v.value.value, ';') + 1)
  {
  }

  /** A listing page whose items all carry an author link never raises. */
  lemma AuthorLinksNeverLeak(page: Document)
    requires forall j :: 0 <= j < |page.items| ==> page.items[j].authorLink.Some?
    ensures ParseListing(page).Ok?
  {
    ListingShape(page);
    if Listed(page) != [] {
      assert Listed(page)[0] < |page.items|;
    }
  }
}
