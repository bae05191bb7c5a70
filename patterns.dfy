/** The regular expressions and URL rules of the client, written out as
    functions on strings: the two trailing-number searches
    (`(?<=id=)\d+$` for book ids, `(?<=idp=)\d+$` for loan ids), the
    base-URL normalisation of the constructor, and the public book URL. */
module Patterns {
  import opened Wrappers
  import opened Text

  const BookPagePath := "/media/scheda.aspx"
  const DefaultBaseUrl := "https://medialibrary.it"

  /** `s.rstrip(c)` for a one-character set. */
  function RStripChar(s: string, c: char): (r: string)
    ensures |r| <= |s| && r == s[..|r|]
    ensures forall i :: |r| <= i < |s| ==> s[i] == c
    ensures r == [] || r[|r| - 1] != c
  {
    if |s| > 0 && s[|s| - 1] == c then RStripChar(s[..|s| - 1], c) else s
  }

  /** `s.lstrip(c)` for a one-character set (`lstrip("..")` strips dots). */
  function LStripChar(s: string, c: char): (r: string)
    ensures |r| <= |s| && r == s[|s| - |r|..]
    ensures forall i :: 0 <= i < |s| - |r| ==> s[i] == c
    ensures r == [] || r[0] != c
  {
    if |s| > 0 && s[0] == c then LStripChar(s[1..], c) else s
  }

  /** The length of the longest run of digits that ends `s`. */
  function DigitRun(s: string): (n: nat)
    ensures n <= |s| && AllDigits(s[|s| - n..])
    ensures n == |s| || !IsDigit(s[|s| - n - 1])
  {
    if |s| > 0 && IsDigit(s[|s| - 1]) then
      var n := DigitRun(s[..|s| - 1]) + 1;
      assert s[|s| - n..] == s[..|s| - 1][|s| - n..] + [s[|s| - 1]];
      n
    else 0
  }

  /** Where Python's `$` can match: the end of `s`, or just before a final
      line feed. */
  function BeforeFinalNewline(s: string): string {
    if |s| > 0 && s[|s| - 1] == '\n' then s[..|s| - 1] else s
  }

  /** A look-behind marker such as "id=": non-empty and ending in a non-digit,
      so that the number after it is the whole trailing run of digits. */
  predicate IsMarker(marker: string) {
    marker != [] && !IsDigit(marker[|marker| - 1])
  }

  /** The match of the look-behind search once the trailing run of `n`
      digits of `body` is known: that run, if it is non-empty and the marker
      sits right before it. */
  function MatchBefore(marker: string, body: string, n: nat): (r: Option<string>)
    requires n <= |body|
    ensures r.Some? ==> r.value == body[|body| - n..] && n > 0
    ensures r.Some? ==> EndsWith(body, marker + r.value)
  {
    var k := |body| - n;
    if n > 0 && |marker| <= k && body[k - |marker|..k] == marker then
      assert body[k - |marker|..] == body[k - |marker|..k] + body[k..];
      Some(body[k..])
    else None
  }

  /** `re.search(r"(?<=MARKER)\d+$", s).group()`; None where the search finds
      no match (the client then raises AttributeError on `.group()`, or
      skips the item). */
  function TrailingNumberAfter(marker: string, s: string): (r: Option<string>)
    requires IsMarker(marker)
    ensures r.Some? ==> r.value != [] && AllDigits(r.value)
    ensures r.Some? ==> EndsWith(BeforeFinalNewline(s), marker + r.value)
  {
    var body := BeforeFinalNewline(s);
    MatchBefore(marker, body, DigitRun(body))
  }

  /** `re.sub(r"https?(://)", "", s)`: one pass from left to right that deletes
      each non-overlapping "https://" or "http://". */
  function DeleteScheme(s: string): (r: string)
    ensures |r| <= |s|
  {
    if StartsWith(s, "https://") then DeleteScheme(s[8..])
    else if StartsWith(s, "http://") then DeleteScheme(s[7..])
    else if s == [] then []
    else [s[0]] + DeleteScheme(s[1..])
  }

  /** The constructor's base URL when credentials and a domain are given:
      `"https://" + re.sub(r"https?(://)", "", domain.rstrip("/"))`. */
  function BaseUrlFor(domain: string): string {
    "https://" + DeleteScheme(RStripChar(domain, '/'))
  }

  /** `get_book_url_by_id`: the public page of a book. */
  function BookUrl(baseUrl: string, bookId: string): (r: string)
    ensures StartsWith(r, baseUrl) && EndsWith(r, "?id=" + bookId)
  {
    var r := baseUrl + BookPagePath + "?id=" + bookId;
    assert r[..|baseUrl|] == baseUrl;
    assert r[|r| - |"?id=" + bookId|..] == "?id=" + bookId;
    r
  }

  /** The loan id of `_redownload_owned_book`:
      `re.search(r"(?<=idp=)\d+$", href.lstrip("..")).group()`. */
  function LoanIdFromHref(href: string): Option<string> {
    TrailingNumberAfter("idp=", LStripChar(href, '.'))
  }

  // ---------------------------------------------------------------------
  // Properties
  // ---------------------------------------------------------------------

  lemma {:induction false} DigitRunAfterNonDigit(u: string, d: string)
    requires u != [] && !IsDigit(u[|u| - 1]) && AllDigits(d)
    ensures DigitRun(u + d) == |d|
  {
    if d != [] {
      assert (u + d)[..|u + d| - 1] == u + d[..|d| - 1];
      DigitRunAfterNonDigit(u, d[..|d| - 1]);
    } else {
      assert u + d == u;
    }
  }

  /** The search finds every number written after the marker at the end of
      the string, with or without a final line feed. */
  lemma TrailingNumberFinds(marker: string, prefix: string, d: string, nl: string)
    requires IsMarker(marker) && d != [] && AllDigits(d)
    requires nl == "" || nl == "\n"
    ensures TrailingNumberAfter(marker, prefix + marker + d + nl) == Some(d)
  {
    var u := prefix + marker;
    var s := u + d;
    assert prefix + marker + d + nl == s + nl;
    assert u[|u| - 1] == marker[|marker| - 1];
    DigitRunAfterNonDigit(u, d);
    assert BeforeFinalNewline(s + nl) == s by {
      if nl == "\n" {
        assert (s + nl)[..|s|] == s;
      } else {
        assert s + nl == s;
      }
    }
    assert s[|u| - |marker|..|u|] == marker;
    assert s[|u|..] == d;
  }

  /** A successful search means the string is some prefix, the marker and the
      number, with or without a final line feed. */
  lemma TrailingNumberShape(marker: string, s: string) returns (prefix: string, nl: string)
    requires IsMarker(marker) && TrailingNumberAfter(marker, s).Some?
    ensures nl == "" || nl == "\n"
    ensures s == prefix + marker + TrailingNumberAfter(marker, s).value + nl
  {
    var d := TrailingNumberAfter(marker, s).value;
    var body := BeforeFinalNewline(s);
    prefix := body[..|body| - |marker + d|];
    assert body == prefix + (marker + d);
    nl := if |s| > 0 && s[|s| - 1] == '\n' then "\n" else "";
    assert s == body + nl;
  }

  lemma {:induction false} DigitRunAfterDots(dots: string, b: string)
    requires forall i :: 0 <= i < |dots| ==> dots[i] == '.'
    ensures DigitRun(dots + b) == DigitRun(b)
  {
    if b == [] {
      assert dots + b == dots;
    } else if IsDigit(b[|b| - 1]) {
      assert (dots + b)[..|dots + b| - 1] == dots + b[..|b| - 1];
      DigitRunAfterDots(dots, b[..|b| - 1]);
    }
  }

  lemma BeforeFinalNewlineAfterDots(dots: string, t: string)
    requires forall i :: 0 <= i < |dots| ==> dots[i] == '.'
    ensures BeforeFinalNewline(dots + t) == dots + BeforeFinalNewline(t)
  {
    if t != [] && t[|t| - 1] == '\n' {
      assert (dots + t)[..|dots + t| - 1] == dots + t[..|t| - 1];
    } else if t == [] {
      assert dots + t == dots;
    }
  }

  /** Behind a run of dots the match is the same, as long as the marker
      does not start with a dot. */
  lemma MatchBehindDots(marker: string, dots: string, b: string, n: nat)
    requires marker != [] && marker[0] != '.'
    requires forall i :: 0 <= i < |dots| ==> dots[i] == '.'
    requires n <= |b|
    ensures MatchBefore(marker, dots + b, n) == MatchBefore(marker, b, n)
  {
    var b' := dots + b;
    var k := |b| - n;
    var k' := |dots| + k;
    assert b'[k'..] == b[k..];
    if |marker| <= k {
      assert b'[k' - |marker|..k'] == b[k - |marker|..k];
    } else if |marker| <= k' {
      assert b'[k' - |marker|..k'][0] == dots[k' - |marker|];
    }
  }

  /** Leading dots never change the trailing number after a marker that does
      not start with a dot: they are not digits, and a match cannot reach
      into them. */
  lemma DotsDoNotMatter(marker: string, dots: string, t: string)
    requires IsMarker(marker) && marker[0] != '.'
    requires forall i :: 0 <= i < |dots| ==> dots[i] == '.'
    ensures TrailingNumberAfter(marker, dots + t) == TrailingNumberAfter(marker, t)
  {
    var b := BeforeFinalNewline(t);
    BeforeFinalNewlineAfterDots(dots, t);
    DigitRunAfterDots(dots, b);
    MatchBehindDots(marker, dots, b, DigitRun(b));
    calc {
      TrailingNumberAfter(marker, dots + t);
      MatchBefore(marker, BeforeFinalNewline(dots + t), DigitRun(BeforeFinalNewline(dots + t)));
      MatchBefore(marker, dots + b, DigitRun(dots + b));
      MatchBefore(marker, b, DigitRun(b));
      TrailingNumberAfter(marker, t);
    }
  }

  /** `lstrip("..")` never changes the loan id: the dots it removes cannot be
      part of "idp=" or of the number. */
  lemma LoanIdIgnoresLeadingDots(href: string)
    ensures LoanIdFromHref(href) == TrailingNumberAfter("idp=", href)
  {
    var t := LStripChar(href, '.');
    var dots := href[..|href| - |t|];
    assert href == dots + t;
    DotsDoNotMatter("idp=", dots, t);
  }

  /** A book URL built from a numeric id gives that id back to the listing's
      id search. */
  lemma BookUrlRoundTrip(baseUrl: string, bookId: string)
    ensures bookId != [] && AllDigits(bookId) ==> TrailingNumberAfter("id=", BookUrl(baseUrl, bookId)) == Some(bookId)
  {
    if bookId != [] && AllDigits(bookId) {
      assert BookUrl(baseUrl, bookId) == (baseUrl + BookPagePath + "?") + "id=" + bookId + "";
      TrailingNumberFinds("id=", baseUrl + BookPagePath + "?", bookId, "");
    }
  }

  lemma ContainsInTail(s: string, pat: string)
    requires s != [] && Contains(s[1..], pat)
    ensures Contains(s, pat)
  {
    var k :| 0 <= k <= |s[1..]| - |pat| && OccursAt(s[1..], pat, k);
    var u, v := s[1..][k..k + |pat|], s[k + 1..k + 1 + |pat|];
    assert forall m :: 0 <= m < |pat| ==> u[m] == v[m];
    assert OccursAt(s, pat, k + 1);
  }

  /** A string in which "://" never occurs is left alone by the substitution. */
  lemma {:induction false} DeleteSchemeWithoutSeparator(s: string)
    requires !Contains(s, "://")
    ensures DeleteScheme(s) == s
  {
    if StartsWith(s, "https://") {
      assert s[5..8] == "://";
      assert OccursAt(s, "://", 5);
    } else if StartsWith(s, "http://") {
      assert s[4..7] == "://";
      assert OccursAt(s, "://", 4);
    } else if s != [] {
      if Contains(s[1..], "://") {
        ContainsInTail(s, "://");
      }
      DeleteSchemeWithoutSeparator(s[1..]);
      assert [s[0]] + s[1..] == s;
    }
  }

  /** The substitution keeps the last character when it is not a slash (every
      deleted "http://" or "https://" ends in one). */
  lemma {:induction false} DeleteSchemeKeepsLast(s: string)
    requires s != [] && s[|s| - 1] != '/'
    ensures DeleteScheme(s) != [] && DeleteScheme(s)[|DeleteScheme(s)| - 1] == s[|s| - 1]
  {
    if StartsWith(s, "https://") {
      assert s[7] == '/';
      DeleteSchemeKeepsLast(s[8..]);
    } else if StartsWith(s, "http://") {
      assert s[6] == '/';
      DeleteSchemeKeepsLast(s[7..]);
    } else if |s| > 1 {
      DeleteSchemeKeepsLast(s[1..]);
    }
  }

  /** The base URL starts with "https://" and, as long as the domain holds
      anything besides slashes, does not end in a slash, so that appending an
      endpoint path gives exactly one slash between host and path. */
  lemma BaseUrlHasNoTrailingSlash(domain: string)
    requires exists i :: 0 <= i < |domain| && domain[i] != '/'
    ensures StartsWith(BaseUrlFor(domain), "https://")
    ensures BaseUrlFor(domain)[|BaseUrlFor(domain)| - 1] != '/'
  {
    var core := RStripChar(domain, '/');
    var i :| 0 <= i < |domain| && domain[i] != '/';
    assert core != [];
    DeleteSchemeKeepsLast(core);
    var r := BaseUrlFor(domain);
    assert r[..8] == "https://";
  }

  lemma RStripSlashOfHost(host: string)
    requires host != [] && host[|host| - 1] != '/'
    ensures RStripChar(host, '/') == host
    ensures RStripChar("http://" + host + "//", '/') == "http://" + host
  {
    var c := "http://" + host;
    var b := c + "//";
    assert b[..|b| - 1] == c + "/";
    assert (c + "/")[..|c|] == c;
    assert c[|c| - 1] == host[|host| - 1];
  }

  /** A bare host, the same host behind "https://", and the same host behind
      "http://" with trailing slashes all give the same base URL. */
  lemma BaseUrlOfHost(host: string)
    requires host != [] && host[|host| - 1] != '/' && !Contains(host, "://")
    ensures BaseUrlFor(host) == "https://" + host
    ensures BaseUrlFor("https://" + host) == "https://" + host
    ensures BaseUrlFor("http://" + host + "//") == "https://" + host
  {
    DeleteSchemeWithoutSeparator(host);
    RStripSlashOfHost(host);
    var a := "https://" + host;
    assert a[|a| - 1] == host[|host| - 1];
    assert StartsWith(a, "https://") && a[8..] == host;
    var c := "http://" + host;
    assert !StartsWith(c, "https://") by { assert c[4] == ':'; }
    assert StartsWith(c, "http://") && c[7..] == host;
  }
}
