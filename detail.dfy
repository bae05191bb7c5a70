/** `_parse_book_page`: the record a book's detail page fills in, field by
    field. Every lookup that finds nothing leaves its field absent, except
    two that are outside any `try`: a missing description block or one
    without an element raises, and so does a publication year that is not
    an integer. The FORMATO lookup sits in a `try` of its own. */
module Detail {
  import opened Wrappers
  import opened Text
  import opened Markup
  import opened Books

  /** The `defaultdict` the parser returns: every key reads None unless
      the parser set it. */
  datatype BookData = BookData(
    title: Option<string>,
    authors: Option<seq<string>>,
    publisher: Option<string>,
    isbns: Option<seq<string>>,
    status: Option<Status>,
    description: Option<string>,
    language: Option<string>,
    year: Option<int>,
    formats: Option<seq<string>>,
    drm: Option<bool>)

  const NoData := BookData(None, None, None, None, None, None, None, None, None, None)

  /** `x.text.strip()` of an element that may be missing. */
  function StrippedText(located: Option<string>): (r: Option<string>)
    ensures r.Some? <==> located.Some?
    ensures r.Some? ==> r.value == [] || (!IsSpace(r.value[0]) && !IsSpace(r.value[|r.value| - 1]))
  {
    match located
    case None => None
    case Some(t) => Some(Strip(t))
  }

  /** The text of the first child that has one. */
  function FirstText(children: seq<Option<string>>): (r: Option<string>)
    ensures r.None? <==> forall i :: 0 <= i < |children| ==> children[i].None?
    ensures r.Some? ==>
      exists i :: 0 <= i < |children| && children[i] == r && (forall j :: 0 <= j < i ==> children[j].None?)
  {
    if children == [] then None
    else if children[0].Some? then
      children[0]
    else
      var r := FirstText(children[1..]);
      if r.Some? then
        var i :| 0 <= i < |children[1..]| && children[1..][i] == r
          && forall j :: 0 <= j < i ==> children[1..][j].None?;
        assert children[i + 1] == r;
        assert forall j :: 0 <= j < i + 1 ==> children[j].None? by {
          forall j | 0 <= j < i + 1 ensures children[j].None? {
            if j > 0 {
              assert children[j] == children[1..][j - 1];
            }
          }
        }
        r
      else r
  }

  /** The description: iterating a missing block raises TypeError, a block
      without any element gives StopIteration; otherwise the stripped text
      of its first element. */
  function DescriptionField(block: Option<seq<Option<string>>>): Result<Option<string>, Fault> {
    match block
    case None => Err(DescriptionMissing)
    case Some(children) =>
      match FirstText(children)
      case None => Err(DescriptionWithoutElement)
      case Some(t) => Ok(Some(Strip(t)))
  }

  /** The year: `int(year.text.strip())` when the element is there. */
  function YearField(located: Option<string>): Result<Option<int>, Fault> {
    match located
    case None => Ok(None)
    case Some(t) =>
      match ParseInt(Strip(t))
      case None => Err(NotAnInteger(Strip(t)))
      case Some(v) => Ok(Some(v))
  }

  /** The ISBN list is set only when at least one element was found. */
  function IsbnField(texts: seq<string>): (r: Option<seq<string>>)
    ensures r.Some? <==> texts != []
    ensures r.Some? ==> |r.value| == |texts| && forall k :: 0 <= k < |texts| ==> r.value[k] == Strip(texts[k])
  {
    if texts == [] then None
    else Some(seq(|texts|, k requires 0 <= k < |texts| => Strip(texts[k])))
  }

  /** The authors of the detail page: no emptiness test, unlike the listing. */
  function DetailAuthors(located: Option<string>): (r: Option<seq<string>>)
    ensures r.Some? <==> located.Some?
    ensures r.Some? ==> |r.value| == Count(Strip(located.value), ';') + 1
  {
    match located
    case None => None
    case Some(t) => Some(SplitAuthors(Strip(t)))
  }

  /** The status: set whenever the panel is there, possibly to None. */
  function StatusField(located: Option<string>): Option<Status> {
    match located
    case None => None
    case Some(t) => ParseStatus(Strip(t))
  }

  /** What `_parse_book_page` returns or raises. */
  function BookPage(d: DetailLookups): Result<BookData, Fault> {
    var description :- DescriptionField(d.description);
    var year :- YearField(d.year);
    var f := ParseFormats(d.formats);
    Ok(BookData(
      StrippedText(d.title), DetailAuthors(d.authors), StrippedText(d.publisher),
      IsbnField(d.isbns), StatusField(d.statusPanel), description,
      StrippedText(d.language), year, f.formats, f.drm))
  }

  /** `next(filter(lambda x: hasattr(x, "text"), block))`. */
  method FirstElementText(children: seq<Option<string>>) returns (r: Option<string>)
    ensures r == FirstText(children)
  {
    var i := 0;
    while i < |children| && children[i].None?
      invariant i <= |children|
      invariant forall j :: 0 <= j < i ==> children[j].None?
      invariant FirstText(children) == FirstText(children[i..])
    {
      assert children[i..][1..] == children[i + 1..];
      i := i + 1;
    }
    if i == |children| {
      r := None;
    } else {
      r := children[i];
    }
  }

  /** `[i.text.strip() for i in ISBNs]`. */
  method StripEach(texts: seq<string>) returns (r: seq<string>)
    ensures |r| == |texts| && forall k :: 0 <= k < |texts| ==> r[k] == Strip(texts[k])
  {
    r := [];
    var k := 0;
    while k < |texts|
      invariant k <= |texts| && |r| == k
      invariant forall m :: 0 <= m < k ==> r[m] == Strip(texts[m])
    {
      var t := Strip(texts[k]);
      r := r + [t];
      k := k + 1;
    }
  }

  /** The lookups before the description: title, authors, publisher,
      ISBNs and status. */
  method FillHeading(d: DetailLookups) returns (data: BookData)
    ensures data == NoData.(title := StrippedText(d.title), authors := DetailAuthors(d.authors),
      publisher := StrippedText(d.publisher), isbns := IsbnField(d.isbns), status := StatusField(d.statusPanel))
  {
    data := NoData;
    if d.title.Some? {
      data := data.(title := Some(Strip(d.title.value)));
    }
    if d.authors.Some? {
      data := data.(authors := Some(SplitAuthors(Strip(d.authors.value))));
    }
    assert data == NoData.(title := StrippedText(d.title), authors := DetailAuthors(d.authors));
    if d.publisher.Some? {
      data := data.(publisher := Some(Strip(d.publisher.value)));
    }
    if d.isbns != [] {
      var isbns := StripEach(d.isbns);
      assert isbns == IsbnField(d.isbns).value;
      data := data.(isbns := Some(isbns));
    }
    if d.statusPanel.Some? {
      data := data.(status := ParseStatus(Strip(d.statusPanel.value)));
    }
  }

  /** The `try` block on the FORMATO string: `drm` first, then `formats`. */
  method FillFormats(data: BookData, located: Option<string>) returns (r: BookData)
    requires data.formats.None? && data.drm.None?
    ensures r == data.(formats := ParseFormats(located).formats, drm := ParseFormats(located).drm)
  {
    r := data;
    if located.Some? {
      var s := Strip(located.value);
      r := r.(drm := Some(Contains(Lower(s), "drm")));
      var word := FirstWord(s);
      if word.Some? {
        r := r.(formats := Some(FormatTags(word.value)));
      }
    }
  }

  /** The description block: iterating it, then the first element. */
  method ReadDescription(block: Option<seq<Option<string>>>) returns (r: Result<Option<string>, Fault>)
    ensures r == DescriptionField(block)
  {
    if block.None? {
      return Err(DescriptionMissing);
    }
    var first := FirstElementText(block.value);
    if first.None? {
      return Err(DescriptionWithoutElement);
    }
    r := Ok(Some(Strip(first.value)));
  }

  /** `int(year.text.strip())` when the element is there. */
  method ReadYear(located: Option<string>) returns (r: Result<Option<int>, Fault>)
    ensures r == YearField(located)
  {
    if located.None? {
      return Ok(None);
    }
    var text := Strip(located.value);
    var year := ParseInt(text);
    if year.None? {
      return Err(NotAnInteger(text));
    }
    r := Ok(Some(year.value));
  }

  /** `_parse_book_page`, filling the record one field after the other. */
  method ParseBookPage(d: DetailLookups) returns (r: Result<BookData, Fault>)
    ensures r == BookPage(d)
  {
    var data := FillHeading(d);
    var description := ReadDescription(d.description);
    if description.Err? {
      return Err(description.error);
    }
    data := data.(description := description.value);
    if d.language.Some? {
      data := data.(language := Some(Strip(d.language.value)));
    }
    var year := ReadYear(d.year);
    if year.Err? {
      return Err(year.error);
    }
    data := data.(year := year.value);
    data := FillFormats(data, d.formats);
    r := Ok(data);
  }

  // ---------------------------------------------------------------------
  // Properties
  // ---------------------------------------------------------------------

  /** The page raises exactly when the description block is missing or has
      no element, or the year is not an integer; the description is looked
      at first. */
  lemma PageFails(d: DetailLookups)
    ensures BookPage(d).Err? <==>
      (d.description.None? || FirstText(d.description.value).None?
       || (d.year.Some? && ParseInt(Strip(d.year.value)).None?))
    ensures d.description.None? ==> BookPage(d) == Err(DescriptionMissing)
    ensures d.description.Some? && FirstText(d.description.value).None? ==>
      BookPage(d) == Err(DescriptionWithoutElement)
  {
  }

  /** A page that does not raise holds, for each text lookup that found its
      element, the stripped text (or the split author list, the ISBNs); the
      lookups that found nothing stay absent. */
  lemma PageTexts(d: DetailLookups)
    requires BookPage(d).Ok?
    ensures var b := BookPage(d).value;
      && (b.title.Some? <==> d.title.Some?)
      && (b.title.Some? ==> b.title.value == Strip(d.title.value))
      && (b.authors.Some? <==> d.authors.Some?)
      && (b.authors.Some? ==> b.authors.value == SplitAuthors(Strip(d.authors.value)))
      && (b.publisher.Some? <==> d.publisher.Some?)
      && (b.publisher.Some? ==> b.publisher.value == Strip(d.publisher.value))
      && (b.isbns.Some? <==> d.isbns != [])
      && (b.isbns.Some? ==>
            && |b.isbns.value| == |d.isbns|
            && forall k :: 0 <= k < |d.isbns| ==> b.isbns.value[k] == Strip(d.isbns[k]))
      && (b.language.Some? <==> d.language.Some?)
      && (b.language.Some? ==> b.language.value == Strip(d.language.value))
  {
  }

  /** A page that does not raise has the panel's status, none without a
      panel. */
  lemma PageStatus(d: DetailLookups)
    requires BookPage(d).Ok?
    ensures var b := BookPage(d).value;
      && (d.statusPanel.None? ==> b.status.None?)
      && (d.statusPanel.Some? ==> b.status == ParseStatus(d.statusPanel.value))
  {
    PageParts(d);
    if d.statusPanel.Some? {
      StatusOfStripped(d.statusPanel.value);
    }
  }

  /** A page that does not raise has the stripped text of the description's
      first element, the year the cell reads as, and the formats and drm
      flag of its FORMATO string. */
  lemma PageFields(d: DetailLookups)
    requires BookPage(d).Ok?
    ensures var b := BookPage(d).value;
      && b.description.Some?
      && b.description.value == Strip(FirstText(d.description.value).value)
      && (b.year.Some? <==> d.year.Some?)
      && (b.year.Some? ==> ParseInt(Strip(d.year.value)) == b.year)
      && FormatInfo(b.formats, b.drm) == ParseFormats(d.formats)
  {
    PageParts(d);
  }

  /** A page that does not raise is made of its fields' values. */
  lemma PageParts(d: DetailLookups)
    requires BookPage(d).Ok?
    ensures DescriptionField(d.description).Ok? && YearField(d.year).Ok?
    ensures var b := BookPage(d).value;
      && b.status == StatusField(d.statusPanel)
      && b.description == DescriptionField(d.description).value
      && b.year == YearField(d.year).value
      && b.formats == ParseFormats(d.formats).formats
      && b.drm == ParseFormats(d.formats).drm
  {
  }

  /** Stripping the panel text before classifying it changes nothing. */
  lemma StatusOfStripped(text: string)
    ensures ParseStatus(Strip(text)) == ParseStatus(text)
  {
    StripStrip(text);
    assert Lower(Strip(Strip(text))) == Lower(Strip(text));
  }

  /** The FORMATO string only ever decides `formats` and `drm`: two pages
      that differ in it alone raise alike and agree on every other field. */
  lemma FormatsAreIndependent(d: DetailLookups, other: Option<string>)
    ensures var e := d.(formats := other);
      && (BookPage(d).Err? <==> BookPage(e).Err?)
      && (BookPage(d).Ok? ==>
            BookPage(d).value.(formats := None, drm := None)
            == BookPage(e).value.(formats := None, drm := None))
  {
  }

  /** A year written as a plain numeral is read back as that number. */
  lemma YearOfNumeral(n: nat, before: string, after: string)
    requires forall i :: 0 <= i < |before| ==> IsSpace(before[i])
    requires forall i :: 0 <= i < |after| ==> IsSpace(after[i])
    ensures YearField(Some(before + NatToString(n) + after)) == Ok(Some(n))
  {
    var digits := NatToString(n);
    SurroundedStrip(before, digits, after);
    ParseIntOfNatToString(n);
    assert ParseInt(Strip(before + digits + after)) == ParseInt(digits);
  }
}
