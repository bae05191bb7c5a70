/** The operations of Python's `str` that the client relies on, restricted to
    ASCII: `isspace`, `lower`, `strip`, `in`, `startswith`, `split(sep)`,
    `sep.join`, `split()[0]`, `int(s)` and `str(n)` of a natural number. */
module Text {
  import opened Wrappers

  /** `str.isspace` on ASCII: tab, line feed, vertical tab, form feed,
      carriage return, the separators 0x1C to 0x1F, and the space. */
  predicate IsSpace(c: char) {
    9 <= c as int <= 13 || 28 <= c as int <= 32
  }

  predicate IsDigit(c: char) {
    '0' <= c <= '9'
  }

  predicate AllDigits(s: string) {
    forall i :: 0 <= i < |s| ==> IsDigit(s[i])
  }

  function LowerChar(c: char): char {
    if 'A' <= c <= 'Z' then (c as int + 32) as char else c
  }

  /** `s.lower()` on ASCII letters; every other character is kept. */
  function Lower(s: string): (r: string)
    ensures |r| == |s|
    ensures forall i :: 0 <= i < |s| ==> r[i] == LowerChar(s[i])
  {
    if s == [] then [] else [LowerChar(s[0])] + Lower(s[1..])
  }

  /** `s.lstrip()`: what is left once the leading whitespace is gone. */
  function LStrip(s: string): (r: string)
    ensures |r| <= |s| && r == s[|s| - |r|..]
    ensures forall i :: 0 <= i < |s| - |r| ==> IsSpace(s[i])
    ensures r == [] || !IsSpace(r[0])
  {
    if |s| > 0 && IsSpace(s[0]) then LStrip(s[1..]) else s
  }

  /** `s.rstrip()`: what is left once the trailing whitespace is gone. */
  function RStrip(s: string): (r: string)
    ensures |r| <= |s| && r == s[..|r|]
    ensures forall i :: |r| <= i < |s| ==> IsSpace(s[i])
    ensures r == [] || !IsSpace(r[|r| - 1])
  {
    if |s| > 0 && IsSpace(s[|s| - 1]) then RStrip(s[..|s| - 1]) else s
  }

  /** `s.strip()`. */
  function Strip(s: string): (r: string)
    ensures r == [] || (!IsSpace(r[0]) && !IsSpace(r[|r| - 1]))
  {
    RStrip(LStrip(s))
  }

  /** `pat` occurs in `s` starting at index `i`. */
  predicate OccursAt(s: string, pat: string, i: int) {
    0 <= i && i + |pat| <= |s| && s[i..i + |pat|] == pat
  }

  /** `pat in s` for two strings. */
  predicate Contains(s: string, pat: string) {
    exists i :: 0 <= i <= |s| - |pat| && OccursAt(s, pat, i)
  }

  /** `s.startswith(p)`. */
  predicate StartsWith(s: string, p: string) {
    |p| <= |s| && s[..|p|] == p
  }

  /** `s.endswith(p)`. */
  predicate EndsWith(s: string, p: string) {
    |p| <= |s| && s[|s| - |p|..] == p
  }

  /** `s.count(c)` for one character. */
  function Count(s: string, c: char): nat {
    if s == [] then 0 else (if s[0] == c then 1 else 0) + Count(s[1..], c)
  }

  /** `s.split(sep)` for a one-character separator: the pieces between the
      separators, in order, empty pieces included. */
  function SplitOn(s: string, sep: char): (r: seq<string>)
    ensures |r| == Count(s, sep) + 1
    ensures forall k :: 0 <= k < |r| ==> sep !in r[k]
  {
    if s == [] then [[]]
    else
      var rest := SplitOn(s[1..], sep);
      if s[0] == sep then [[]] + rest else [[s[0]] + rest[0]] + rest[1..]
  }

  /** `sep.join(parts)` for a non-empty list. */
  function Join(parts: seq<string>, sep: char): string
    requires |parts| > 0
  {
    if |parts| == 1 then parts[0] else parts[0] + [sep] + Join(parts[1..], sep)
  }

  /** The longest prefix of `s` that holds no whitespace. */
  function TakeWord(s: string): (r: string)
    ensures |r| <= |s| && r == s[..|r|]
    ensures forall i :: 0 <= i < |r| ==> !IsSpace(r[i])
    ensures |r| == |s| || IsSpace(s[|r|])
  {
    if s == [] || IsSpace(s[0]) then [] else [s[0]] + TakeWord(s[1..])
  }

  /** `s.split()[0]`; None where Python raises IndexError because `s` is blank. */
  function FirstWord(s: string): (r: Option<string>)
    ensures r.None? <==> forall i :: 0 <= i < |s| ==> IsSpace(s[i])
    ensures r.Some? ==> r.value != [] && forall i :: 0 <= i < |r.value| ==> !IsSpace(r.value[i])
  {
    var t := LStrip(s);
    if t == [] then None
    else
      assert t[0] == s[|s| - |t|];
      Some(TakeWord(t))
  }

  function DigitValue(c: char): nat
    requires IsDigit(c)
  {
    c as int - '0' as int
  }

  function DigitChar(d: nat): (c: char)
    requires d < 10
    ensures IsDigit(c) && DigitValue(c) == d
  {
    ('0' as int + d) as char
  }

  /** The value of a numeral, most significant digit first. */
  function DecimalValue(s: string): nat
    requires AllDigits(s)
  {
    if s == [] then 0 else 10 * DecimalValue(s[..|s| - 1]) + DigitValue(s[|s| - 1])
  }

  /** `str(n)` for a natural number. */
  function NatToString(n: nat): (r: string)
    ensures r != [] && AllDigits(r)
    ensures DecimalValue(r) == n
  {
    if n < 10 then [DigitChar(n)]
    else
      var r := NatToString(n / 10) + [DigitChar(n % 10)];
      assert r[..|r| - 1] == NatToString(n / 10);
      r
  }

  /** A numeral as Python's `int` reads one: digits, with single underscores
      allowed between two digits. */
  predicate IsNumeral(s: string) {
    && |s| > 0
    && IsDigit(s[0])
    && IsDigit(s[|s| - 1])
    && (forall i :: 0 <= i < |s| ==> IsDigit(s[i]) || s[i] == '_')
    && (forall i :: 0 <= i < |s| - 1 ==> s[i] == '_' ==> s[i + 1] != '_')
  }

  function DropUnderscores(s: string): (r: string)
    requires forall i :: 0 <= i < |s| ==> IsDigit(s[i]) || s[i] == '_'
    ensures AllDigits(r)
  {
    if s == [] then [] else (if s[0] == '_' then [] else [s[0]]) + DropUnderscores(s[1..])
  }

  function NumeralValue(s: string): nat
    requires IsNumeral(s)
  {
    DecimalValue(DropUnderscores(s))
  }

  /** The whitespace `int()` skips around a numeral in ASCII text: tab, line
      feed, vertical tab, form feed, carriage return and space. Unlike
      `strip()`, it does not skip the separators 0x1C to 0x1F. */
  predicate IntSpace(c: char) {
    9 <= c as int <= 13 || c == ' '
  }

  /** The text once the `IntSpace` characters at both ends are gone. */
  function IntTrim(s: string): (r: string)
    ensures |r| <= |s|
    ensures r == [] || (!IntSpace(r[0]) && !IntSpace(r[|r| - 1]))
  {
    if |s| > 0 && IntSpace(s[0]) then IntTrim(s[1..])
    else if |s| > 0 && IntSpace(s[|s| - 1]) then IntTrim(s[..|s| - 1])
    else s
  }

  /** `int(s)` on a string: surrounding `IntSpace`, then an optional sign,
      then a numeral; None where Python raises ValueError. */
  function ParseInt(s: string): Option<int> {
    IntOfStripped(IntTrim(s))
  }

  /** `int` on text already stripped of surrounding whitespace. */
  function IntOfStripped(t: string): Option<int> {
    if |t| > 0 && (t[0] == '+' || t[0] == '-') then
      if IsNumeral(t[1..]) then
        var v: int := NumeralValue(t[1..]);
        Some(if t[0] == '-' then -v else v)
      else None
    else if IsNumeral(t) then Some(NumeralValue(t))
    else None
  }

  // ---------------------------------------------------------------------
  // Properties
  // ---------------------------------------------------------------------

  /** The stripped string is the slice between a whitespace prefix and a
      whitespace suffix. */
  lemma StripIsSlice(s: string) returns (i: nat, j: nat)
    ensures i <= j <= |s| && Strip(s) == s[i..j]
    ensures forall k :: 0 <= k < i ==> IsSpace(s[k])
    ensures forall k :: j <= k < |s| ==> IsSpace(s[k])
  {
    var t := LStrip(s);
    var r := RStrip(t);
    i := |s| - |t|;
    j := i + |r|;
    PrefixOfSuffix(s, i, r);
    SpaceAfterPrefix(s, i, r);
  }

  lemma PrefixOfSuffix(s: string, i: nat, r: string)
    requires i <= |s| && |r| <= |s| - i && r == s[i..][..|r|]
    ensures r == s[i..i + |r|]
  {
  }

  lemma SpaceAfterPrefix(s: string, i: nat, r: string)
    requires i <= |s| && |r| <= |s| - i
    requires forall k :: |r| <= k < |s[i..]| ==> IsSpace(s[i..][k])
    ensures forall k :: i + |r| <= k < |s| ==> IsSpace(s[k])
  {
    forall k | i + |r| <= k < |s|
      ensures IsSpace(s[k])
    {
      assert s[k] == s[i..][k - i];
    }
  }

  lemma ContainsOfSlice(s: string, i: nat, j: nat, pat: string)
    requires i <= j <= |s| && Contains(s[i..j], pat)
    ensures Contains(s, pat)
  {
    var t := s[i..j];
    var k :| 0 <= k <= |t| - |pat| && OccursAt(t, pat, k);
    var u, v := s[i + k..i + k + |pat|], t[k..k + |pat|];
    assert forall m :: 0 <= m < |pat| ==> u[m] == v[m];
    assert u == v;
    assert OccursAt(s, pat, i + k);
  }

  lemma ContainsInSlice(s: string, i: nat, j: nat, pat: string)
    requires i <= j <= |s| && Contains(s, pat)
    requires pat != [] && !IsSpace(pat[0]) && !IsSpace(pat[|pat| - 1])
    requires forall k :: 0 <= k < i ==> IsSpace(s[k])
    requires forall k :: j <= k < |s| ==> IsSpace(s[k])
    ensures Contains(s[i..j], pat)
  {
    var k :| 0 <= k <= |s| - |pat| && OccursAt(s, pat, k);
    assert s[k] == s[k..k + |pat|][0];
    assert s[k + |pat| - 1] == s[k..k + |pat|][|pat| - 1];
    assert i <= k && k + |pat| <= j;
    var t := s[i..j];
    var u, v := t[k - i..k - i + |pat|], s[k..k + |pat|];
    assert forall m :: 0 <= m < |pat| ==> u[m] == v[m];
    assert u == v;
    assert OccursAt(t, pat, k - i);
  }

  /** Stripping never changes whether a word that starts and ends with a
      non-space occurs in the text. */
  lemma ContainsIgnoresStrip(s: string, pat: string)
    requires pat != [] && !IsSpace(pat[0]) && !IsSpace(pat[|pat| - 1])
    ensures Contains(Strip(s), pat) <==> Contains(s, pat)
  {
    var i, j := StripIsSlice(s);
    if Contains(Strip(s), pat) {
      ContainsOfSlice(s, i, j, pat);
    }
    if Contains(s, pat) {
      ContainsInSlice(s, i, j, pat);
    }
  }

  lemma {:induction false} LowerLStrip(s: string)
    ensures Lower(LStrip(s)) == LStrip(Lower(s))
  {
    if |s| > 0 && IsSpace(s[0]) {
      assert Lower(s)[1..] == Lower(s[1..]);
      LowerLStrip(s[1..]);
    }
  }

  lemma {:induction false} LowerRStrip(s: string)
    ensures Lower(RStrip(s)) == RStrip(Lower(s))
  {
    if |s| > 0 && IsSpace(s[|s| - 1]) {
      assert Lower(s)[..|s| - 1] == Lower(s[..|s| - 1]);
      LowerRStrip(s[..|s| - 1]);
    }
  }

  /** On ASCII, lower-casing and stripping commute. */
  lemma LowerStrip(s: string)
    ensures Lower(Strip(s)) == Strip(Lower(s))
  {
    LowerLStrip(s);
    LowerRStrip(LStrip(s));
  }

  /** A lower-case keyword that starts and ends with a non-space occurs in
      `s.strip().lower()` exactly when it occurs in `s.lower()`. */
  lemma KeywordInNormalised(s: string, pat: string)
    requires pat != [] && !IsSpace(pat[0]) && !IsSpace(pat[|pat| - 1])
    ensures Contains(Lower(Strip(s)), pat) <==> Contains(Lower(s), pat)
  {
    LowerStrip(s);
    ContainsIgnoresStrip(Lower(s), pat);
  }

  lemma {:induction false} JoinSplitOn(s: string, sep: char)
    ensures Join(SplitOn(s, sep), sep) == s
  {
    if s != [] {
      JoinSplitOn(s[1..], sep);
      var rest := SplitOn(s[1..], sep);
      if s[0] == sep {
        assert ([[]] + rest)[1..] == rest;
      } else if |rest| > 1 {
        assert ([[s[0]] + rest[0]] + rest[1..])[1..] == rest[1..];
      }
    }
  }

  /** Every character of a part occurs in the joined string. */
  lemma {:induction false} PieceOfJoin(parts: seq<string>, sep: char, k: nat)
    requires k < |parts|
    ensures forall c :: c in parts[k] ==> c in Join(parts, sep)
  {
    if |parts| > 1 && k > 0 {
      PieceOfJoin(parts[1..], sep, k - 1);
      assert parts[1..][k - 1] == parts[k];
    }
  }

  lemma {:induction false} SplitOnWithoutSeparator(s: string, sep: char)
    requires sep !in s
    ensures SplitOn(s, sep) == [s]
  {
    if s != [] {
      SplitOnWithoutSeparator(s[1..], sep);
      assert [s[0]] + s[1..] == s;
    }
  }

  lemma {:induction false} SplitOnFirstSeparator(a: string, b: string, sep: char)
    requires sep !in a
    ensures SplitOn(a + [sep] + b, sep) == [a] + SplitOn(b, sep)
  {
    if a != [] {
      assert (a + [sep] + b)[1..] == a[1..] + [sep] + b;
      SplitOnFirstSeparator(a[1..], b, sep);
      assert [a[0]] + a[1..] == a;
    } else {
      assert (a + [sep] + b)[1..] == b;
    }
  }

  /** Splitting a join of separator-free pieces gives the pieces back. */
  lemma {:induction false} SplitOnJoin(parts: seq<string>, sep: char)
    requires |parts| > 0
    requires forall k :: 0 <= k < |parts| ==> sep !in parts[k]
    ensures SplitOn(Join(parts, sep), sep) == parts
  {
    if |parts| == 1 {
      SplitOnWithoutSeparator(parts[0], sep);
    } else {
      SplitOnJoin(parts[1..], sep);
      SplitOnFirstSeparator(parts[0], Join(parts[1..], sep), sep);
    }
  }

  /** Leading whitespace in front of a non-space is what lstrip removes. */
  lemma {:induction false} LStripOfSpaces(before: string, rest: string)
    requires forall i :: 0 <= i < |before| ==> IsSpace(before[i])
    requires rest != [] && !IsSpace(rest[0])
    ensures LStrip(before + rest) == rest
  {
    if before != [] {
      assert (before + rest)[1..] == before[1..] + rest;
      LStripOfSpaces(before[1..], rest);
    }
  }

  /** Trailing whitespace after a non-space is what rstrip removes. */
  lemma {:induction false} RStripOfSpaces(w: string, after: string)
    requires forall i :: 0 <= i < |after| ==> IsSpace(after[i])
    requires w != [] && !IsSpace(w[|w| - 1])
    ensures RStrip(w + after) == w
  {
    if after != [] {
      var s := w + after;
      assert s[..|s| - 1] == w + after[..|after| - 1];
      RStripOfSpaces(w, after[..|after| - 1]);
    }
  }

  /** Whitespace around a word with non-space ends is what strip removes. */
  lemma SurroundedStrip(before: string, w: string, after: string)
    requires forall i :: 0 <= i < |before| ==> IsSpace(before[i])
    requires forall i :: 0 <= i < |after| ==> IsSpace(after[i])
    requires w != [] && !IsSpace(w[0]) && !IsSpace(w[|w| - 1])
    ensures Strip(before + w + after) == w
  {
    assert before + w + after == before + (w + after);
    LStripOfSpaces(before, w + after);
    RStripOfSpaces(w, after);
  }

  /** Stripping twice is stripping once. */
  lemma StripStrip(s: string)
    ensures Strip(Strip(s)) == Strip(s)
  {
    var t := Strip(s);
    assert LStrip(t) == t by {
      if t != [] {
        assert !IsSpace(t[0]);
      }
    }
    assert RStrip(t) == t by {
      if t != [] {
        assert !IsSpace(t[|t| - 1]);
      }
    }
  }

  lemma {:induction false} StripWithoutSpace(s: string)
    requires forall i :: 0 <= i < |s| ==> !IsSpace(s[i])
    ensures Strip(s) == s
  {
  }

  lemma {:induction false} DropUnderscoresOfDigits(s: string)
    requires AllDigits(s)
    ensures DropUnderscores(s) == s
  {
    if s != [] {
      DropUnderscoresOfDigits(s[1..]);
    }
  }

  /** `int(str(n)) == n`. */
  lemma ParseIntOfNatToString(n: nat)
    ensures ParseInt(NatToString(n)) == Some(n)
  {
    var s := NatToString(n);
    forall i | 0 <= i < |s|
      ensures !IsSpace(s[i])
    {
      assert IsDigit(s[i]);
    }
    assert IsDigit(s[0]) && IsDigit(s[|s| - 1]);
    assert IntTrim(s) == s;
    DropUnderscoresOfDigits(s);
    assert IsNumeral(s);
    assert IntOfStripped(s) == Some(NumeralValue(s));
  }

  /** `IntTrim` cuts a whitespace prefix and a whitespace suffix. */
  lemma {:induction false} IntTrimIsSlice(s: string) returns (i: nat, j: nat)
    ensures i <= j <= |s| && IntTrim(s) == s[i..j]
    ensures forall k :: 0 <= k < i ==> IntSpace(s[k])
    ensures forall k :: j <= k < |s| ==> IntSpace(s[k])
  {
    if |s| > 0 && IntSpace(s[0]) {
      var i', j' := IntTrimIsSlice(s[1..]);
      i, j := i' + 1, j' + 1;
      IntSpaceAfterFirst(s, i', j');
    } else if |s| > 0 && IntSpace(s[|s| - 1]) {
      i, j := IntTrimIsSlice(s[..|s| - 1]);
      IntSpaceBeforeLast(s, s[..|s| - 1], i, j);
    } else {
      i, j := 0, |s|;
    }
  }

  lemma IntSpaceAfterFirst(s: string, i: nat, j: nat)
    requires |s| > 0 && IntSpace(s[0]) && i <= j <= |s| - 1
    requires forall k :: 0 <= k < i ==> IntSpace(s[1..][k])
    requires forall k :: j <= k < |s[1..]| ==> IntSpace(s[1..][k])
    ensures s[1..][i..j] == s[i + 1..j + 1]
    ensures forall k :: 0 <= k < i + 1 ==> IntSpace(s[k])
    ensures forall k :: j + 1 <= k < |s| ==> IntSpace(s[k])
  {
    forall k | 0 < k < |s|
      ensures s[k] == s[1..][k - 1]
    {
    }
  }

  lemma IntSpaceBeforeLast(s: string, t: string, i: nat, j: nat)
    requires |s| > 0 && IntSpace(s[|s| - 1]) && t == s[..|s| - 1] && i <= j <= |t|
    requires forall k :: 0 <= k < i ==> IntSpace(t[k])
    requires forall k :: j <= k < |t| ==> IntSpace(t[k])
    ensures t[i..j] == s[i..j]
    ensures forall k :: 0 <= k < i ==> IntSpace(s[k])
    ensures forall k :: j <= k < |s| ==> IntSpace(s[k])
  {
    forall k | 0 <= k < |t|
      ensures s[k] == t[k]
    {
    }
  }

  /** Whatever `int()` accepts, it accepts after `strip()` too, with the same
      value; and after `strip()` there is nothing left for `int()` to skip. */
  lemma IntAfterStrip(s: string)
    ensures ParseInt(s).Some? ==> ParseInt(Strip(s)) == ParseInt(s)
    ensures ParseInt(Strip(s)) == IntOfStripped(Strip(s))
  {
    IntTrimOfStripped(s);
    if ParseInt(s).Some? {
      NumeralEnds(IntTrim(s));
      StripIsIntTrim(s);
    }
  }

  /** A stripped text has no `IntSpace` at either end. */
  lemma IntTrimOfStripped(s: string)
    ensures IntTrim(Strip(s)) == Strip(s)
  {
    var u := Strip(s);
    if u != [] {
      assert !IsSpace(u[0]) && !IsSpace(u[|u| - 1]);
    }
  }

  /** A text `int` reads begins with a sign or a digit and ends in a digit. */
  lemma NumeralEnds(t: string)
    requires IntOfStripped(t).Some?
    ensures t != [] && !IsSpace(t[0]) && !IsSpace(t[|t| - 1])
  {
    if |t| > 0 && (t[0] == '+' || t[0] == '-') {
      assert t[|t| - 1] == t[1..][|t[1..]| - 1];
    }
  }

  /** When the text `int` reads has no whitespace at either end, `strip()`
      cuts exactly what `int` skips. */
  lemma StripIsIntTrim(s: string)
    requires IntTrim(s) != [] && !IsSpace(IntTrim(s)[0]) && !IsSpace(IntTrim(s)[|IntTrim(s)| - 1])
    ensures Strip(s) == IntTrim(s)
  {
    var i, j := IntTrimIsSlice(s);
    var i', j' := StripIsSlice(s);
    assert s[i] == IntTrim(s)[0] && s[j - 1] == IntTrim(s)[|IntTrim(s)| - 1];
    assert !IsSpace(s[i]) && !IsSpace(s[j - 1]);
    assert i' <= i && j <= j';
    assert IsSpace(s[i']) || i' == i;
    assert IsSpace(s[j' - 1]) || j' == j;
  }

  /** The converse fails: `strip()` removes the separators 0x1C to 0x1F,
      which `int()` does not skip. */
  lemma SeparatorOnlyStripped(c: char, n: nat)
    requires 28 <= c as int <= 31
    ensures ParseInt([c] + NatToString(n)) == None
    ensures ParseInt(Strip([c] + NatToString(n))) == Some(n)
  {
    SeparatorRejected(c, NatToString(n));
    SurroundedStrip([c], NatToString(n), []);
    assert [c] + NatToString(n) + [] == [c] + NatToString(n);
    ParseIntOfNatToString(n);
  }

  /** A separator before a numeral makes `int()` fail. */
  lemma SeparatorRejected(c: char, digits: string)
    requires 28 <= c as int <= 31 && digits != [] && IsDigit(digits[|digits| - 1])
    ensures ParseInt([c] + digits) == None
  {
    var s := [c] + digits;
    assert s[|s| - 1] == digits[|digits| - 1];
    assert IntTrim(s) == s;
    assert !IsNumeral(s) by {
      assert !IsDigit(s[0]);
    }
  }
}
