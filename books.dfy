/** The book record and the string rules that fill its fields: the status
    vocabulary, the author list, and the format/DRM string. */
module Books {
  import opened Wrappers
  import opened Text

  /** The lending states the portal shows; an unrecognised indicator is
      represented by the absence of a status (None). */
  datatype Status = Available | Owned | Reserved | Taken | Unavailable

  /** A book record. Only `id` and `title` are always present; every other
      field is None when the page did not provide it. */
  datatype Book = Book(
    id: string,
    title: string,
    authors: Option<seq<string>>,
    status: Option<Status>,
    publisher: Option<string>,
    isbns: Option<seq<string>>,
    language: Option<string>,
    description: Option<string>,
    year: Option<int>,
    formats: Option<seq<string>>,
    drm: Option<bool>)

  /** The record a listing page yields: id, title and authors only. */
  function ListingRecord(id: string, title: string, authors: Option<seq<string>>): Book {
    Book(id, title, authors, None, None, None, None, None, None, None, None)
  }

  /** `_parse_book_status`: strip and lower-case the indicator, then the first
      keyword of the list that it contains decides. */
  function ParseStatus(text: string): Option<Status> {
    StatusOfIndicator(Lower(Strip(text)))
  }

  /** The first keyword of the list that the normalised indicator holds. */
  function StatusOfIndicator(t: string): Option<Status> {
    if Contains(t, "scarica") then Some(Available)
    else if Contains(t, "ripeti") then Some(Owned)
    else if Contains(t, "prenotato") then Some(Reserved)
    else if Contains(t, "occupato") then Some(Taken)
    else if Contains(t, "non disponibile") then Some(Unavailable)
    else None
  }

  /** `[a.strip() for a in s.split(";")]`. */
  function SplitAuthors(s: string): (r: seq<string>)
    ensures |r| == Count(s, ';') + 1
    ensures forall k :: 0 <= k < |r| ==> r[k] == [] || (!IsSpace(r[k][0]) && !IsSpace(r[k][|r[k]| - 1]))
  {
    var parts := SplitOn(s, ';');
    seq(|parts|, k requires 0 <= k < |parts| => Strip(parts[k]))
  }

  /** The `formats` and `drm` fields as the FORMATO string leaves them. */
  datatype FormatInfo = FormatInfo(formats: Option<seq<string>>, drm: Option<bool>)

  /** The format tags of the first word, e.g. "EPUB/PDF" gives "epub", "pdf":
      `[f.strip().lower() for f in word.split("/")]`. */
  function FormatTags(word: string): seq<string> {
    var pieces := SplitOn(word, '/');
    seq(|pieces|, k requires 0 <= k < |pieces| => Lower(Strip(pieces[k])))
  }

  /** The `try` block of `_parse_book_page` on the FORMATO string: None when
      the lookup chain failed; otherwise `drm` is set first, and `formats`
      only when the stripped string has a first word. */
  function ParseFormats(located: Option<string>): FormatInfo {
    match located
    case None => FormatInfo(None, None)
    case Some(text) =>
      var s := Strip(text);
      var drm := Contains(Lower(s), "drm");
      match FirstWord(s)
      case None => FormatInfo(None, Some(drm))
      case Some(word) => FormatInfo(Some(FormatTags(word)), Some(drm))
  }

  // ---------------------------------------------------------------------
  // Properties
  // ---------------------------------------------------------------------

  /** The status is decided by the keywords that `text.lower()` contains, in
      priority order; surrounding whitespace never matters. */
  lemma StatusByKeyword(text: string)
    ensures var t := Lower(text);
      ParseStatus(text) ==
        if Contains(t, "scarica") then Some(Available)
        else if Contains(t, "ripeti") then Some(Owned)
        else if Contains(t, "prenotato") then Some(Reserved)
        else if Contains(t, "occupato") then Some(Taken)
        else if Contains(t, "non disponibile") then Some(Unavailable)
        else None
  {
    KeywordInNormalised(text, "scarica");
    KeywordInNormalised(text, "ripeti");
    KeywordInNormalised(text, "prenotato");
    KeywordInNormalised(text, "occupato");
    KeywordInNormalised(text, "non disponibile");
  }

  /** Two indicators that agree up to letter case get the same status. */
  lemma StatusIgnoresCase(a: string, b: string)
    requires Lower(a) == Lower(b)
    ensures ParseStatus(a) == ParseStatus(b)
  {
    StatusByKeyword(a);
    StatusByKeyword(b);
  }

  /** An indicator without the letter c cannot contain "scarica". */
  lemma NoScaricaWithoutC(text: string)
    requires 'c' !in text && 'C' !in text
    ensures !Contains(Lower(text), "scarica")
  {
    var t := Lower(text);
    var pat := "scarica";
    assert pat[1] == 'c';
    forall i | 0 <= i <= |t| - |pat|
      ensures !OccursAt(t, pat, i)
    {
      var x := text[i + 1];
      assert x in text;
      assert t[i + 1] == LowerChar(x) != 'c';
      assert t[i..i + |pat|][1] == t[i + 1];
    }
  }

  /** An indicator holding "RIPETI" (in any case) and no letter c means a
      book already owned. */
  lemma OwnedWhenRipeti(text: string, at: nat)
    requires at + 6 <= |text| && Lower(text[at..at + 6]) == "ripeti"
    requires 'c' !in text && 'C' !in text
    ensures ParseStatus(text) == Some(Owned)
  {
    var t := Lower(text);
    var u := text[at..at + 6];
    assert t[at..at + 6] == Lower(u) by {
      forall m | 0 <= m < 6 ensures t[at..at + 6][m] == Lower(u)[m] {
        assert u[m] == text[at + m];
      }
    }
    assert OccursAt(t, "ripeti", at);
    NoScaricaWithoutC(text);
    StatusByKeyword(text);
  }

  /** "  RIPETI DOWNLOAD  " is the indicator of a book already owned. */
  lemma StatusOfRepeatDownload()
    ensures ParseStatus("  RIPETI DOWNLOAD  ") == Some(Owned)
  {
    var text := "  RIPETI DOWNLOAD  ";
    forall i | 0 <= i < |text|
      ensures text[i] != 'c' && text[i] != 'C'
    {
    }
    var u := text[2..8];
    assert u == "RIPETI";
    assert Lower(u) == "ripeti" by {
      assert |Lower(u)| == 6;
      forall m | 0 <= m < 6 ensures Lower(u)[m] == "ripeti"[m] {
        assert Lower(u)[m] == LowerChar(u[m]);
      }
    }
    OwnedWhenRipeti(text, 2);
  }

  /** Splitting a `;`-joined list of trimmed names gives the names back, in
      order. */
  lemma AuthorsRoundTrip(names: seq<string>)
    requires |names| > 0
    requires forall k :: 0 <= k < |names| ==> ';' !in names[k] && Strip(names[k]) == names[k]
    ensures SplitAuthors(Join(names, ';')) == names
  {
    SplitOnJoin(names, ';');
  }

  lemma LowerKeepsSeparator(s: string, c: char)
    requires c !in s && !('A' <= c <= 'Z') && !('a' <= c <= 'z')
    ensures c !in Lower(s)
  {
  }

  /** Lower-casing before splitting on `/` lower-cases each piece. */
  lemma {:induction false} SplitOnLower(s: string)
    ensures |SplitOn(Lower(s), '/')| == |SplitOn(s, '/')|
    ensures forall k :: 0 <= k < |SplitOn(s, '/')| ==> SplitOn(Lower(s), '/')[k] == Lower(SplitOn(s, '/')[k])
  {
    if s != [] {
      var t := Lower(s);
      assert t[1..] == Lower(s[1..]);
      SplitOnLower(s[1..]);
      var rest, lowered := SplitOn(s[1..], '/'), SplitOn(t[1..], '/');
      if s[0] != '/' {
        assert t[0] != '/';
        assert [t[0]] + lowered[0] == Lower([s[0]] + rest[0]);
      }
    }
  }

  /** Cutting a string anywhere after its first word keeps that word. */
  lemma {:induction false} TakeWordOfPrefix(u: string, n: nat)
    requires |TakeWord(u)| <= n <= |u|
    ensures TakeWord(u[..n]) == TakeWord(u)
  {
    if u != [] && !IsSpace(u[0]) {
      assert u[..n][0] == u[0];
      assert u[..n][1..] == u[1..][..n - 1];
      TakeWordOfPrefix(u[1..], n - 1);
    } else if n > 0 {
      assert u[..n][0] == u[0];
    }
  }

  /** `s.strip().split()[0] == s.split()[0]`. */
  lemma FirstWordOfStrip(s: string)
    ensures FirstWord(Strip(s)) == FirstWord(s)
  {
    var u := LStrip(s);
    var p := RStrip(u);
    if u != [] {
      assert TakeWord(u) != [];
      var last := |TakeWord(u)| - 1;
      assert TakeWord(u)[last] == u[last];
      assert last < |p|;
      assert LStrip(p) == p by {
        assert p[0] == u[0];
      }
      TakeWordOfPrefix(u, |p|);
    }
  }

  /** The tags of a word without whitespace are its lower-cased `/`-pieces. */
  lemma FormatTagsOfWord(word: string)
    requires forall i :: 0 <= i < |word| ==> !IsSpace(word[i])
    ensures FormatTags(word) == SplitOn(Lower(word), '/')
    ensures |FormatTags(word)| == Count(word, '/') + 1
  {
    var pieces := SplitOn(word, '/');
    forall k | 0 <= k < |pieces|
      ensures Strip(pieces[k]) == pieces[k]
    {
      NoSpaceInPiece(word, k);
      StripWithoutSpace(pieces[k]);
    }
    SplitOnLower(word);
  }

  /** The pieces of a word without whitespace have no whitespace. */
  lemma {:induction false} NoSpaceInPiece(word: string, k: nat)
    requires forall i :: 0 <= i < |word| ==> !IsSpace(word[i])
    requires k < |SplitOn(word, '/')|
    ensures forall i :: 0 <= i < |SplitOn(word, '/')[k]| ==> !IsSpace(SplitOn(word, '/')[k][i])
  {
    var piece := SplitOn(word, '/')[k];
    JoinSplitOn(word, '/');
    PieceOfJoin(SplitOn(word, '/'), '/', k);
    forall i | 0 <= i < |piece|
      ensures !IsSpace(piece[i])
    {
      assert piece[i] in word;
      var j :| 0 <= j < |word| && word[j] == piece[i];
    }
  }

  /** For a non-blank FORMATO string, `drm` says whether "drm" occurs in it in
      any case, and `formats` holds one lower-case tag per `/`-piece of the
      first word (so one more tag than the word has slashes), in order. */
  lemma FormatsOfNonBlank(text: string)
    requires exists i :: 0 <= i < |text| && !IsSpace(text[i])
    ensures var info := ParseFormats(Some(text));
      && info.drm == Some(Contains(Lower(text), "drm"))
      && info.formats.Some?
      && var word := FirstWord(text).value;
      && info.formats.value == SplitOn(Lower(word), '/')
      && |info.formats.value| == Count(word, '/') + 1
  {
    KeywordInNormalised(text, "drm");
    FirstWordOfStrip(text);
    FormatTagsOfWord(FirstWord(text).value);
  }

  /** A blank FORMATO string still sets `drm` to false, and leaves `formats`
      absent (the IndexError of `split()[0]` comes after the `drm`
      assignment). */
  lemma FormatsOfBlank(text: string)
    requires forall i :: 0 <= i < |text| ==> IsSpace(text[i])
    ensures ParseFormats(Some(text)) == FormatInfo(None, Some(false))
  {
    var s := Strip(text);
    assert s == [];
    assert !Contains(Lower(s), "drm");
    assert FirstWord(s) == None;
  }

  /** The first word of a word followed by whitespace is that word. */
  lemma {:induction false} TakeWordOfWord(w: string, rest: string)
    requires forall i :: 0 <= i < |w| ==> !IsSpace(w[i])
    requires rest != [] && IsSpace(rest[0])
    ensures TakeWord(w + rest) == w
  {
    if w != [] {
      assert (w + rest)[1..] == w[1..] + rest;
      TakeWordOfWord(w[1..], rest);
    }
  }

  /** A FORMATO string that opens with a word: the tags come from that word. */
  lemma FormatsOfLeadingWord(word: string, rest: string)
    requires word != [] && forall i :: 0 <= i < |word| ==> !IsSpace(word[i])
    requires rest != [] && IsSpace(rest[0])
    ensures ParseFormats(Some(word + rest))
      == FormatInfo(Some(SplitOn(Lower(word), '/')), Some(Contains(Lower(word + rest), "drm")))
  {
    var text := word + rest;
    assert text[0] == word[0];
    FormatsOfNonBlank(text);
    assert LStrip(text) == text;
    TakeWordOfWord(word, rest);
  }

  lemma DrmInAdobeText(text: string)
    requires text == "EPUB/PDF con DRM Adobe"
    ensures Contains(Lower(text), "drm")
  {
    var t := Lower(text);
    assert t[13] == 'd' && t[14] == 'r' && t[15] == 'm';
    assert t[13..16] == "drm";
    assert OccursAt(t, "drm", 13);
  }

  lemma TagsOfEpubPdf(word: string)
    requires word == "EPUB/PDF"
    ensures SplitOn(Lower(word), '/') == ["epub", "pdf"]
  {
    var t := Lower(word);
    assert t[0] == 'e' && t[1] == 'p' && t[2] == 'u' && t[3] == 'b';
    assert t[4] == '/' && t[5] == 'p' && t[6] == 'd' && t[7] == 'f';
    var a, b := t[..4], t[5..];
    assert a == "epub" && b == "pdf";
    assert t == a + ['/'] + b;
    SplitOnFirstSeparator(a, b, '/');
    SplitOnWithoutSeparator(b, '/');
  }

  /** "EPUB/PDF con DRM Adobe" lists two formats under DRM. */
  lemma FormatsOfAdobeDrm(text: string)
    requires text == "EPUB/PDF con DRM Adobe"
    ensures ParseFormats(Some(text)) == FormatInfo(Some(["epub", "pdf"]), Some(true))
  {
    var word, rest := text[..8], text[8..];
    assert text == word + rest;
    assert word == "EPUB/PDF";
    assert forall i :: 0 <= i < |word| ==> !IsSpace(word[i]);
    assert IsSpace(rest[0]);
    FormatsOfLeadingWord(word, rest);
    DrmInAdobeText(text);
    TagsOfEpubPdf(word);
  }
}
