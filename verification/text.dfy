/**
 * The handful of Python string operations the reconciliation code relies on:
 * `str.strip`, `str.find`, `str.split`, slicing with Python's index rules,
 * `str.startswith`/`str.endswith`, and `float()` restricted to plain decimals.
 */
module PyText {
  import opened Wrappers

  /** The characters Python's `str.isspace` accepts; `strip()` with no argument removes these. */
  predicate IsSpace(c: char) {
    c == '\t' || c == '\n' || c == '\U{000B}' || c == '\U{000C}' || c == '\r' ||
    c == '\U{001C}' || c == '\U{001D}' || c == '\U{001E}' || c == '\U{001F}' || c == ' ' ||
    c == '\U{0085}' || c == '\U{00A0}' || c == '\U{1680}' || ('\U{2000}' <= c <= '\U{200A}') ||
    c == '\U{2028}' || c == '\U{2029}' || c == '\U{202F}' || c == '\U{205F}' || c == '\U{3000}'
  }

  const Whitespace: set<char> := set c: char | '\t' <= c <= '\U{3000}' && IsSpace(c)

  predicate StartsWith(s: string, prefix: string) {
    |prefix| <= |s| && s[..|prefix|] == prefix
  }

  predicate EndsWith(s: string, suffix: string) {
    |suffix| <= |s| && s[|s| - |suffix|..] == suffix
  }

  // ---------------------------------------------------------------- strip

  /**
   * Python `s.strip(chars)`: drop characters of `cs` from the front while
   * there is one, then from the back.
   */
  function StripChars(s: string, cs: set<char>): (r: string)
    decreases |s|
  {
    if |s| > 0 && s[0] in cs then StripChars(s[1..], cs)
    else if |s| > 0 && s[|s| - 1] in cs then StripChars(s[..|s| - 1], cs)
    else s
  }

  /** Python `s.strip()`. */
  function Strip(s: string): string {
    StripChars(s, Whitespace)
  }

  /** `r` is `s` with a run of characters of `cs` cut from each end. */
  predicate TrimmedOf(s: string, cs: set<char>, r: string) {
    exists a, b :: 0 <= a <= b <= |s| && r == s[a..b] &&
      (forall k :: 0 <= k < a ==> s[k] in cs) &&
      (forall k :: b <= k < |s| ==> s[k] in cs)
  }

  /**
   * The result is `s` with runs of stripped characters cut from both ends,
   * and neither its first nor its last character is stripped.
   */
  lemma {:induction false} StripCharsSpec(s: string, cs: set<char>)
    ensures TrimmedOf(s, cs, StripChars(s, cs))
    ensures var r := StripChars(s, cs);
      |r| > 0 ==> r[0] !in cs && r[|r| - 1] !in cs
    decreases |s|
  {
    if |s| > 0 && s[0] in cs {
      StripCharsSpec(s[1..], cs);
      TrimmedFront(s, cs, StripChars(s[1..], cs));
    } else if |s| > 0 && s[|s| - 1] in cs {
      StripCharsSpec(s[..|s| - 1], cs);
      TrimmedBack(s, cs, StripChars(s[..|s| - 1], cs));
    } else {
      assert s == s[0..|s|];
    }
  }

  /** Cutting a stripped first character keeps a trimmed piece trimmed. */
  lemma TrimmedFront(s: string, cs: set<char>, r: string)
    requires |s| > 0 && s[0] in cs
    requires TrimmedOf(s[1..], cs, r)
    ensures TrimmedOf(s, cs, r)
  {
    var t := s[1..];
    var a, b :| 0 <= a <= b <= |t| && r == t[a..b] &&
      (forall k :: 0 <= k < a ==> t[k] in cs) &&
      (forall k :: b <= k < |t| ==> t[k] in cs);
    assert r == s[a + 1..b + 1];
    forall k | 0 <= k < a + 1
      ensures s[k] in cs
    {
      if k > 0 { assert s[k] == t[k - 1]; }
    }
    forall k | b + 1 <= k < |s|
      ensures s[k] in cs
    {
      assert s[k] == t[k - 1];
    }
  }

  /** Cutting a stripped last character keeps a trimmed piece trimmed. */
  lemma TrimmedBack(s: string, cs: set<char>, r: string)
    requires |s| > 0 && s[|s| - 1] in cs
    requires TrimmedOf(s[..|s| - 1], cs, r)
    ensures TrimmedOf(s, cs, r)
  {
    var t := s[..|s| - 1];
    var a, b :| 0 <= a <= b <= |t| && r == t[a..b] &&
      (forall k :: 0 <= k < a ==> t[k] in cs) &&
      (forall k :: b <= k < |t| ==> t[k] in cs);
    assert r == s[a..b];
    forall k | b <= k < |s|
      ensures s[k] in cs
    {
      if k < |t| { assert s[k] == t[k]; }
    }
  }

  /** A string with no stripped character at either end is left alone. */
  lemma StripCharsNoop(s: string, cs: set<char>)
    requires |s| > 0 ==> s[0] !in cs && s[|s| - 1] !in cs
    ensures StripChars(s, cs) == s
  {
  }

  /** Stripping the same characters twice is the same as stripping once. */
  lemma StripCharsIdempotent(s: string, cs: set<char>)
    ensures StripChars(StripChars(s, cs), cs) == StripChars(s, cs)
  {
    StripCharsSpec(s, cs);
    StripCharsNoop(StripChars(s, cs), cs);
  }

  // ---------------------------------------------------------------- find and split

  predicate OccursAt(s: string, sub: string, k: int) {
    0 <= k && k + |sub| <= |s| && s[k..k + |sub|] == sub
  }

  /** Python `s.find(sub, start)` for a start inside the string. */
  function FindFrom(s: string, sub: string, start: nat): (r: int)
    requires start <= |s|
    ensures r == -1 || (start <= r && OccursAt(s, sub, r))
    ensures r == -1 ==> forall k :: start <= k <= |s| ==> !OccursAt(s, sub, k)
    ensures r >= 0 ==> forall k :: start <= k < r ==> !OccursAt(s, sub, k)
    decreases |s| - start
  {
    if OccursAt(s, sub, start) then start
    else if start + |sub| >= |s| then
      assert forall k :: start < k <= |s| ==> !OccursAt(s, sub, k);
      -1
    else FindFrom(s, sub, start + 1)
  }

  /** Python `s.find(sub)`: index of the first occurrence, or -1 on a miss. */
  function Find(s: string, sub: string): (r: int)
    ensures -1 <= r <= |s|
    ensures r == -1 <==> forall k :: 0 <= k <= |s| ==> !OccursAt(s, sub, k)
    ensures r >= 0 ==> OccursAt(s, sub, r) && forall k :: 0 <= k < r ==> !OccursAt(s, sub, k)
  {
    FindFrom(s, sub, 0)
  }

  /** Python `s.split(sep)` for a non-empty separator. */
  function Split(s: string, sep: string): (r: seq<string>)
    requires |sep| > 0
    ensures |r| >= 1
    ensures Find(s, sep) == -1 <==> r == [s]
    ensures Find(s, sep) >= 0 ==> r[0] == s[..Find(s, sep)]
    decreases |s|
  {
    var i := Find(s, sep);
    if i < 0 then [s] else [s[..i]] + Split(s[i + |sep|..], sep)
  }

  /** Python `sep.join(pieces)`. */
  function Join(pieces: seq<string>, sep: string): string
    requires |pieces| >= 1
  {
    if |pieces| == 1 then pieces[0] else pieces[0] + sep + Join(pieces[1..], sep)
  }

  /** Splitting and joining back with the same separator gives the original text. */
  lemma {:induction false} JoinSplit(s: string, sep: string)
    requires |sep| > 0
    ensures Join(Split(s, sep), sep) == s
    decreases |s|
  {
    var i := Find(s, sep);
    if i >= 0 {
      var rest := s[i + |sep|..];
      JoinSplit(rest, sep);
      assert Split(s, sep) == [s[..i]] + Split(rest, sep);
      assert s == s[..i] + s[i..i + |sep|] + rest;
    }
  }

  /** No piece of a split contains the separator. */
  lemma {:induction false} SplitPiecesAvoidSeparator(s: string, sep: string)
    requires |sep| > 0
    ensures forall j :: 0 <= j < |Split(s, sep)| ==> Find(Split(s, sep)[j], sep) == -1
    decreases |s|
  {
    var i := Find(s, sep);
    if i >= 0 {
      var rest := s[i + |sep|..];
      SplitPiecesAvoidSeparator(rest, sep);
      var head := s[..i];
      forall k | 0 <= k <= |head|
        ensures !OccursAt(head, sep, k)
      {
        if OccursAt(head, sep, k) {
          assert head[k..k + |sep|] == s[k..k + |sep|];
          assert OccursAt(s, sep, k);
          assert false;
        }
      }
    }
  }

  // ---------------------------------------------------------------- slicing

  /** Python's normalisation of one slice bound against a string of length `len`. */
  function SliceBound(i: int, len: nat): (r: nat)
    ensures r <= len
  {
    var j := if i < 0 then i + len else i;
    if j < 0 then 0 else if j > len then len else j
  }

  /** Python `s[a:b]`. */
  function PySlice(s: string, a: int, b: int): (r: string)
    ensures |r| <= |s|
    ensures 0 <= a <= b <= |s| ==> r == s[a..b]
    ensures b < 0 && 0 <= a <= b + |s| ==> r == s[a..b + |s|]
  {
    var lo := SliceBound(a, |s|);
    var hi := SliceBound(b, |s|);
    if lo < hi then s[lo..hi] else []
  }

  // ---------------------------------------------------------------- numbers

  predicate IsDigit(c: char) {
    '0' <= c <= '9'
  }

  function DigitValue(c: char): (d: nat)
    requires IsDigit(c)
    ensures d < 10
  {
    (c as int) - ('0' as int)
  }

  function DigitChar(d: nat): (c: char)
    requires d < 10
    ensures IsDigit(c) && DigitValue(c) == d
  {
    (('0' as int) + d) as char
  }

  predicate AllDigits(t: string) {
    forall k :: 0 <= k < |t| ==> IsDigit(t[k])
  }

  /** Number of leading ASCII digits. */
  function DigitRun(t: string): (n: nat)
    ensures n <= |t|
    ensures AllDigits(t[..n])
    ensures n < |t| ==> !IsDigit(t[n])
    decreases |t|
  {
    if |t| > 0 && IsDigit(t[0]) then
      var n := 1 + DigitRun(t[1..]);
      assert forall k :: 1 <= k < n ==> t[..n][k] == t[1..][..n - 1][k - 1];
      n
    else 0
  }

  lemma {:induction false} DigitRunOfDigits(t: string)
    requires AllDigits(t)
    ensures DigitRun(t) == |t|
    decreases |t|
  {
    if |t| > 0 {
      DigitRunOfDigits(t[1..]);
    }
  }

  /** The natural number a string of decimal digits denotes. */
  function DigitsValue(t: string): nat
    requires AllDigits(t)
  {
    if |t| == 0 then 0
    else DigitsValue(t[..|t| - 1]) * 10 + DigitValue(t[|t| - 1])
  }

  function Pow10(n: nat): (p: nat)
    ensures p >= 1
  {
    if n == 0 then 1 else 10 * Pow10(n - 1)
  }

  /** Decimal rendering of a natural number, without leading zeros. */
  function NatText(n: nat): (t: string)
    ensures |t| >= 1 && AllDigits(t)
    ensures |t| > 1 ==> t[0] != '0'
  {
    if n < 10 then [DigitChar(n)] else NatText(n / 10) + [DigitChar(n % 10)]
  }

  /** Reading a rendered number back gives the number. */
  lemma {:induction false} NatTextValue(n: nat)
    ensures DigitsValue(NatText(n)) == n
  {
    if n >= 10 {
      NatTextValue(n / 10);
      var t := NatText(n);
      assert t[..|t| - 1] == NatText(n / 10);
    }
  }

  /** `n` rendered with leading zeros up to `width` characters. */
  function ZeroPad(n: nat, width: nat): (t: string)
    ensures |t| >= width
    ensures AllDigits(t)
  {
    var digits := NatText(n);
    if |digits| >= width then digits
    else seq(width - |digits|, _ => '0') + digits
  }

  /**
   * `float(s)` restricted to plain decimals: surrounding whitespace, an optional
   * sign, digits with at most one decimal point, and at least one digit.
   */
  function ParseFloat(s: string): (r: Option<real>)
  {
    ParseSigned(Strip(s))
  }

  /** An optional sign followed by an unsigned decimal. */
  function ParseSigned(t: string): (r: Option<real>)
  {
    if |t| > 0 && (t[0] == '+' || t[0] == '-') then
      match ParseUnsigned(t[1..])
      case None => None
      case Some(x) => Some(if t[0] == '-' then -x else x)
    else
      ParseUnsigned(t)
  }

  /** Digits, optionally followed by a point and more digits; at least one digit overall. */
  function ParseUnsigned(t: string): (r: Option<real>)
    ensures r.Some? ==> r.value >= 0.0
    ensures r.Some? ==> |t| > 0 && (IsDigit(t[0]) || t[0] == '.')
  {
    var i := DigitRun(t);
    if i == |t| then
      if i == 0 then None else Some(DigitsValue(t) as real)
    else if t[i] != '.' then None
    else
      var f := t[i + 1..];
      var j := DigitRun(f);
      if j != |f| || (i == 0 && j == 0) then None
      else
        assert f[..j] == f;
        Some(DigitsValue(t[..i]) as real + (DigitsValue(f) as real) / (Pow10(|f|) as real))
  }

  /** The decimal rendering of a natural number parses back to that number. */
  lemma ParseFloatNatText(n: nat)
    ensures ParseFloat(NatText(n)) == Some(n as real)
  {
    var t := NatText(n);
    assert IsDigit(t[0]) && IsDigit(t[|t| - 1]);
    StripCharsNoop(t, Whitespace);
    assert Strip(t) == t;
    DigitRunOfDigits(t);
    NatTextValue(n);
    assert ParseUnsigned(t) == Some(n as real);
  }

  /** A leading or trailing whitespace run does not change what `float()` reads. */
  lemma ParseFloatOfStripped(s: string)
    ensures ParseFloat(Strip(s)) == ParseFloat(s)
  {
    StripCharsIdempotent(s, Whitespace);
    assert Strip(Strip(s)) == Strip(s);
  }

  /** Text that does not start with a sign, a digit or a point is never a number. */
  lemma ParseFloatRejects(s: string)
    requires |Strip(s)| > 0
    requires var c := Strip(s)[0]; !IsDigit(c) && c != '.' && c != '+' && c != '-'
    ensures ParseFloat(s) == None
  {
  }

  /** `float("12.34")` reads the digits on both sides of the point. */
  lemma ParseFloatDecimalExample()
    ensures ParseFloat("12.34") == Some(12.34)
  {
    var t := "12.34";
    StripCharsNoop(t, Whitespace);
    assert t[3..] == "34" && t[..2] == "12";
    assert DigitRun(t[3..]) == 2 by {
      assert t[3..][1..] == "4" && "4"[1..] == [];
    }
    assert DigitRun(t) == 2 by {
      assert t[1..] == "2.34" && t[1..][1..] == ".34";
    }
    assert DigitsValue("34") == 34 by {
      assert "34"[..1] == "3" && "3"[..0] == [];
    }
    assert DigitsValue("12") == 12 by {
      assert "12"[..1] == "1" && "1"[..0] == [];
    }
  }

  /** A dash placeholder is a sign with no digits after it, which `float()` rejects. */
  lemma ParseFloatDashExample()
    ensures ParseFloat("--") == None
  {
    StripCharsNoop("--", Whitespace);
    assert "--"[1..] == "-";
  }
}
