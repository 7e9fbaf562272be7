/** The optional value used where Python code returns `None` or `False`
    for "nothing found". */
module Maybe {
  datatype Option<+T> = None | Some(value: T)
}

/** The string built-ins the integration relies on, on `seq<char>`:
    `str.strip` as used by `int()`, `int()`/`float()` literal syntax,
    `in`, `startswith`, `split` and `replace(old, "")`. */
module Text {
  import opened Maybe

  predicate IsDigit(c: char) {
    '0' <= c <= '9'
  }

  /** The ASCII white space that `int()` and `float()` ignore around a literal. */
  predicate IsSpace(c: char) {
    c == ' ' || c == '\t' || c == '\n' || c == '\r' || c as int == 11 || c as int == 12
  }

  predicate AllDigits(s: string) {
    forall i :: 0 <= i < |s| ==> IsDigit(s[i])
  }

  function TrimStart(s: string): (r: string)
    ensures |r| <= |s| && r == s[|s| - |r|..]
    ensures |r| > 0 ==> !IsSpace(r[0])
    ensures forall i :: 0 <= i < |s| - |r| ==> IsSpace(s[i])
  {
    if |s| > 0 && IsSpace(s[0]) then TrimStart(s[1..]) else s
  }

  function TrimEnd(s: string): (r: string)
    ensures |r| <= |s| && r == s[..|r|]
    ensures |r| > 0 ==> !IsSpace(r[|r| - 1])
    ensures forall i :: |r| <= i < |s| ==> IsSpace(s[i])
  {
    if |s| > 0 && IsSpace(s[|s| - 1]) then TrimEnd(s[..|s| - 1]) else s
  }

  /** `s.strip()` restricted to ASCII white space. */
  function Strip(s: string): (r: string)
    ensures |r| > 0 ==> !IsSpace(r[0]) && !IsSpace(r[|r| - 1])
  {
    TrimEnd(TrimStart(s))
  }

  /** The literal without its one optional leading sign. */
  function Unsigned(t: string): string {
    if |t| > 0 && (t[0] == '+' || t[0] == '-') then t[1..] else t
  }

  function DigitValue(c: char): nat
    requires IsDigit(c)
  {
    c as int - '0' as int
  }

  /** The number a run of decimal digits denotes. */
  function DigitsValue(s: string): nat
    requires AllDigits(s)
  {
    if |s| == 0 then 0 else DigitsValue(s[..|s| - 1]) * 10 + DigitValue(s[|s| - 1])
  }

  /** Python's `int(text)`: optional surrounding white space, one optional
      sign, then at least one decimal digit. */
  function ParseInt(s: string): (r: Option<int>)
    ensures r.Some? <==> |Unsigned(Strip(s))| > 0 && AllDigits(Unsigned(Strip(s)))
  {
    var t := Strip(s);
    var body := Unsigned(t);
    if |body| > 0 && AllDigits(body) then
      var v: int := DigitsValue(body);
      Some(if |t| > 0 && t[0] == '-' then -v else v)
    else
      None
  }

  /** A bare run of digits needs no stripping and carries no sign. */
  lemma ParseDigits(s: string)
    requires |s| > 0 && AllDigits(s)
    ensures ParseInt(s) == Some(DigitsValue(s))
  {
    DigitsUntrimmed(s);
    assert IsDigit(s[0]);
    assert Unsigned(s) == s;
  }

  /** The sign: `-` negates the value of the digits that follow, `+`
      keeps it. */
  lemma ParseSigned(d: string)
    requires |d| > 0 && AllDigits(d)
    ensures ParseInt("-" + d) == Some(-(DigitsValue(d) as int))
    ensures ParseInt("+" + d) == Some(DigitsValue(d))
  {
    MinusDigits(d);
    PlusDigits(d);
  }

  lemma MinusDigits(d: string)
    requires |d| > 0 && AllDigits(d)
    ensures ParseInt("-" + d) == Some(-(DigitsValue(d) as int))
  {
    var t := "-" + d;
    assert t == ['-'] + d;
    SignedDigits('-', d);
    assert t[1..] == d;
    ParseNegative(t);
  }

  lemma PlusDigits(d: string)
    requires |d| > 0 && AllDigits(d)
    ensures ParseInt("+" + d) == Some(DigitsValue(d))
  {
    var t := "+" + d;
    assert t == ['+'] + d;
    SignedDigits('+', d);
    assert t[1..] == d;
    ParsePositive(t);
  }

  lemma ParseNegative(t: string)
    requires Strip(t) == t && |t| > 1 && t[0] == '-' && AllDigits(t[1..])
    ensures ParseInt(t) == Some(-(DigitsValue(t[1..]) as int))
  {
    assert Unsigned(t) == t[1..];
  }

  lemma ParsePositive(t: string)
    requires Strip(t) == t && |t| > 1 && t[0] == '+' && AllDigits(t[1..])
    ensures ParseInt(t) == Some(DigitsValue(t[1..]))
  {
    assert Unsigned(t) == t[1..];
  }

  lemma SignedDigits(sign: char, d: string)
    requires sign == '-' || sign == '+'
    requires |d| > 0 && AllDigits(d)
    ensures Strip([sign] + d) == [sign] + d && Unsigned([sign] + d) == d
  {
    var t := [sign] + d;
    assert IsDigit(d[|d| - 1]) && t[|t| - 1] == d[|d| - 1];
    StripUntouched(t);
    assert t[1..] == d;
  }

  /** White space around the literal changes nothing. */
  lemma ParsePadded(s: string, a: char, b: char)
    requires IsSpace(a) && IsSpace(b)
    ensures ParseInt([a] + s + [b]) == ParseInt(s)
  {
    StripPadded(s, a, b);
    ParseSeesStripped([a] + s + [b], s);
  }

  /** `int()` looks only at the stripped text. */
  lemma ParseSeesStripped(s: string, u: string)
    requires Strip(s) == Strip(u)
    ensures ParseInt(s) == ParseInt(u)
  {
  }

  lemma StripPadded(s: string, a: char, b: char)
    requires IsSpace(a) && IsSpace(b)
    ensures Strip([a] + s + [b]) == Strip(s)
  {
    var padded := [a] + s + [b];
    assert padded[1..] == s + [b];
    assert TrimStart(padded) == TrimStart(s + [b]);
    TrimStartAppend(s, b);
    var t := TrimStart(s);
    if |t| > 0 {
      assert (t + [b])[..|t|] == t;
    }
  }

  /** A text that neither starts nor ends with white space is its own strip. */
  lemma StripUntouched(s: string)
    requires |s| > 0 && !IsSpace(s[0]) && !IsSpace(s[|s| - 1])
    ensures Strip(s) == s
  {
  }

  /** Trimming the front of a text with white space appended. */
  lemma {:induction false} TrimStartAppend(s: string, b: char)
    requires IsSpace(b)
    ensures TrimStart(s + [b]) == if |TrimStart(s)| == 0 then [] else TrimStart(s) + [b]
    decreases |s|
  {
    if |s| == 0 {
      assert s + [b] == [b];
      assert [b][1..] == [];
    } else if IsSpace(s[0]) {
      assert (s + [b])[1..] == s[1..] + [b];
      TrimStartAppend(s[1..], b);
    } else {
      assert (s + [b])[0] == s[0];
    }
  }

  lemma DigitsUntrimmed(s: string)
    requires |s| > 0 && AllDigits(s)
    ensures Strip(s) == s
  {
    assert IsDigit(s[0]);
    assert TrimStart(s) == s;
    assert IsDigit(s[|s| - 1]);
  }

  /** Length of the longest prefix of decimal digits. */
  function LeadingDigits(s: string): (k: nat)
    ensures k <= |s| && AllDigits(s[..k])
    ensures k < |s| ==> !IsDigit(s[k])
  {
    if |s| > 0 && IsDigit(s[0]) then
      var k := 1 + LeadingDigits(s[1..]);
      assert s[..k] == [s[0]] + s[1..][..k - 1];
      k
    else
      0
  }

  lemma LeadingDigitsOfDigits(s: string)
    requires AllDigits(s)
    ensures LeadingDigits(s) == |s|
  {
  }

  /** Exponent part after `e`/`E`: one optional sign and at least one digit. */
  predicate IsExponent(x: string) {
    var y := Unsigned(x);
    |y| > 0 && AllDigits(y)
  }

  /** Python's decimal float literal (after stripping): optional sign,
      digits with an optional fraction (at least one digit in all), and an
      optional exponent. */
  predicate IsFloatLiteral(t: string) {
    var body := Unsigned(t);
    var a := LeadingDigits(body);
    var rest := body[a..];
    if |rest| > 0 && rest[0] == '.' then
      var b := LeadingDigits(rest[1..]);
      var tail := rest[1 + b..];
      a + b > 0 && (|tail| == 0 || ((tail[0] == 'e' || tail[0] == 'E') && IsExponent(tail[1..])))
    else
      a > 0 && (|rest| == 0 || ((rest[0] == 'e' || rest[0] == 'E') && IsExponent(rest[1..])))
  }

  predicate OccursAt(s: string, pat: string, i: int) {
    0 <= i && i + |pat| <= |s| && s[i..i + |pat|] == pat
  }

  function IndexFrom(s: string, pat: string, i: nat): (r: Option<nat>)
    requires |pat| > 0 && i <= |s|
    ensures r.Some? ==> i <= r.value && OccursAt(s, pat, r.value)
    ensures r.Some? ==> forall j :: i <= j < r.value ==> !OccursAt(s, pat, j)
    ensures r.None? ==> forall j :: i <= j ==> !OccursAt(s, pat, j)
    decreases |s| - i
  {
    if i + |pat| > |s| then None
    else if s[i..i + |pat|] == pat then Some(i)
    else IndexFrom(s, pat, i + 1)
  }

  /** Position of the first occurrence of a non-empty pattern. */
  function IndexOf(s: string, pat: string): (r: Option<nat>)
    requires |pat| > 0
    ensures r.Some? ==> OccursAt(s, pat, r.value)
    ensures r.Some? ==> forall j :: 0 <= j < r.value ==> !OccursAt(s, pat, j)
    ensures r.None? ==> forall j :: !OccursAt(s, pat, j)
  {
    IndexFrom(s, pat, 0)
  }

  /** Python's `pat in s`; the empty pattern occurs in every string. */
  function Contains(s: string, pat: string): (b: bool)
    ensures b <==> exists i :: OccursAt(s, pat, i)
  {
    if |pat| == 0 then
      assert OccursAt(s, pat, 0);
      true
    else
      IndexOf(s, pat).Some?
  }

  /** Python's `s.startswith(p)`. */
  predicate StartsWith(s: string, p: string) {
    |p| <= |s| && s[..|p|] == p
  }

  /** Python's `s.split(sep)` for a non-empty separator: the pieces between
      the non-overlapping occurrences found left to right. */
  function Split(s: string, sep: string): (parts: seq<string>)
    requires |sep| > 0
    ensures |parts| >= 1
    decreases |s|
  {
    match IndexOf(s, sep)
    case None => [s]
    case Some(i) => [s[..i]] + Split(s[i + |sep|..], sep)
  }

  /** Python's `sep.join(parts)`. */
  function Join(parts: seq<string>, sep: string): string
    requires |parts| >= 1
  {
    if |parts| == 1 then parts[0] else parts[0] + sep + Join(parts[1..], sep)
  }

  /** Joining the pieces of a split with the separator restores the text. */
  lemma {:induction false} JoinSplit(s: string, sep: string)
    requires |sep| > 0
    ensures Join(Split(s, sep), sep) == s
    decreases |s|
  {
    match IndexOf(s, sep)
    case None =>
    case Some(i) =>
      var rest := s[i + |sep|..];
      var parts := Split(s, sep);
      assert parts == [s[..i]] + Split(rest, sep);
      assert parts[1..] == Split(rest, sep);
      JoinSplit(rest, sep);
      calc {
        Join(parts, sep);
        parts[0] + sep + Join(parts[1..], sep);
        s[..i] + sep + rest;
        { assert s[i..i + |sep|] == sep; }
        s[..i] + s[i..i + |sep|] + s[i + |sep|..];
        s;
      }
  }

  /** No piece of a split contains the separator. */
  lemma {:induction false} SplitPartsFree(s: string, sep: string)
    requires |sep| > 0
    ensures forall k :: 0 <= k < |Split(s, sep)| ==> !Contains(Split(s, sep)[k], sep)
    decreases |s|
  {
    match IndexOf(s, sep)
    case None =>
    case Some(i) =>
      var rest := s[i + |sep|..];
      SplitPartsFree(rest, sep);
      PrefixFree(s, sep, i);
      assert Split(s, sep)[1..] == Split(rest, sep);
  }

  lemma PrefixFree(s: string, sep: string, i: nat)
    requires |sep| > 0 && i <= |s|
    requires forall j :: 0 <= j < i ==> !OccursAt(s, sep, j)
    ensures !Contains(s[..i], sep)
  {
    if j :| OccursAt(s[..i], sep, j) {
      assert s[..i][j..j + |sep|] == s[j..j + |sep|];
      assert OccursAt(s, sep, j);
    }
  }

  /** Python's `s.replace(pat, "")`: occurrences found left to right and
      without overlap are deleted; the empty pattern changes nothing. */
  function RemoveAll(s: string, pat: string): (r: string)
    ensures |r| <= |s|
    decreases |s|
  {
    if |pat| == 0 || |s| < |pat| then s
    else if s[..|pat|] == pat then RemoveAll(s[|pat|..], pat)
    else [s[0]] + RemoveAll(s[1..], pat)
  }

  /** Text without the pattern is returned unchanged. */
  lemma {:induction false} RemoveAllAbsent(s: string, pat: string)
    requires !Contains(s, pat)
    ensures RemoveAll(s, pat) == s
    decreases |s|
  {
    if |pat| == 0 || |s| < |pat| {
    } else {
      assert !OccursAt(s, pat, 0);
      assert s[..|pat|] != pat;
      if Contains(s[1..], pat) {
        var j :| OccursAt(s[1..], pat, j);
        assert s[1..][j..j + |pat|] == s[j + 1..j + 1 + |pat|];
        assert OccursAt(s, pat, j + 1);
      }
      RemoveAllAbsent(s[1..], pat);
    }
  }

  /** A removal that starts at an occurrence skips the whole pattern. */
  lemma RemoveAllLeading(v: string, pat: string)
    requires |pat| > 0
    ensures RemoveAll(pat + v, pat) == RemoveAll(v, pat)
  {
    assert (pat + v)[..|pat|] == pat;
    assert (pat + v)[|pat|..] == v;
  }

  /** A character that cannot begin the pattern is kept, and the removal
      carries on after it. */
  lemma RemoveAllHead(s: string, pat: string)
    requires |s| > 0 && |pat| > 0 && s[0] != pat[0]
    ensures RemoveAll(s, pat) == [s[0]] + RemoveAll(s[1..], pat)
  {
    if |s| >= |pat| {
      assert s[..|pat|][0] == s[0];
    }
  }

  /** Text none of whose characters can begin the pattern passes through a
      removal unchanged, whatever follows it. */
  lemma {:induction false} RemoveAllKeepsPrefix(u: string, v: string, pat: string)
    requires |pat| > 0
    requires forall i :: 0 <= i < |u| ==> u[i] != pat[0]
    ensures RemoveAll(u + v, pat) == u + RemoveAll(v, pat)
    decreases |u|
  {
    if |u| == 0 {
      assert u + v == v;
    } else {
      var s := u + v;
      assert s[0] == u[0] && s[1..] == u[1..] + v;
      RemoveAllHead(s, pat);
      RemoveAllKeepsPrefix(u[1..], v, pat);
      assert u == [u[0]] + u[1..];
    }
  }

  /** Removing a one-character pattern leaves no such character. */
  lemma {:induction false} RemoveCharGone(s: string, c: char)
    ensures forall i :: 0 <= i < |RemoveAll(s, [c])| ==> RemoveAll(s, [c])[i] != c
    decreases |s|
  {
    if |s| < 1 {
    } else if s[..1] == [c] {
      RemoveCharGone(s[1..], c);
    } else {
      RemoveCharGone(s[1..], c);
      assert s[0] != c by { assert s[..1] == [s[0]]; }
    }
  }
}
