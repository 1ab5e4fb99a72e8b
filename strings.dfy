/** String helpers with Python's meaning: `str.isspace`, `str.strip`, `in` on
    strings, `str.replace`, `str.split("\n")`, `"\n".join`, `int()` of a text
    and `%0Nd` formatting. */
module Strings {

  datatype Option<+T> = None | Some(value: T)

  /** Python's `str.isspace` for one character (the set `\s` and `strip()` use). */
  predicate IsSpace(c: char) {
    ('\t' <= c <= '\r') || ('\U{1C}' <= c <= '\U{20}') || c == '\U{85}' || c == '\U{A0}' ||
    c == '\U{1680}' || ('\U{2000}' <= c <= '\U{200A}') || c == '\U{2028}' || c == '\U{2029}' ||
    c == '\U{202F}' || c == '\U{205F}' || c == '\U{3000}'
  }

  /** `not s.strip()`: the text is empty or whitespace only. */
  predicate IsBlank(s: string) {
    forall i :: 0 <= i < |s| ==> IsSpace(s[i])
  }

  function TrimLeft(s: string): (r: string)
    ensures |r| <= |s| && r == s[|s| - |r|..]
    ensures r == [] || !IsSpace(r[0])
    ensures forall i :: 0 <= i < |s| - |r| ==> IsSpace(s[i])
  {
    if s != [] && IsSpace(s[0]) then TrimLeft(s[1..]) else s
  }

  function TrimRight(s: string): (r: string)
    ensures |r| <= |s| && r == s[..|r|]
    ensures r == [] || !IsSpace(r[|r| - 1])
    ensures forall i :: |r| <= i < |s| ==> IsSpace(s[i])
  {
    if s != [] && IsSpace(s[|s| - 1]) then TrimRight(s[..|s| - 1]) else s
  }

  /** Python's `str.strip()` with no argument. */
  function Strip(s: string): (r: string)
    ensures r == [] || (!IsSpace(r[0]) && !IsSpace(r[|r| - 1]))
    ensures IsBlank(s) <==> r == []
  {
    TrimRight(TrimLeft(s))
  }

  /** Stripping a text that does not end in whitespace only trims its left end. */
  lemma StripKeepsEnd(s: string)
    requires s == [] || !IsSpace(s[|s| - 1])
    ensures Strip(s) == TrimLeft(s)
  {
    var t := TrimLeft(s);
    assert t == [] || t[|t| - 1] == s[|s| - 1];
  }

  /** A text without blanks at either end is its own strip. */
  lemma StripUnpadded(s: string)
    requires s != [] && !IsSpace(s[0]) && !IsSpace(s[|s| - 1])
    ensures Strip(s) == s
  {
    assert TrimLeft(s) == s;
  }

  /** Stripping twice is stripping once. */
  lemma StripIdempotent(s: string)
    ensures Strip(Strip(s)) == Strip(s)
  {
    if Strip(s) != [] {
      StripUnpadded(Strip(s));
    }
  }

  /** One blank on each side of an unpadded text is stripped away. */
  lemma StripPadded(t: string)
    requires t != [] && !IsSpace(t[0]) && !IsSpace(t[|t| - 1])
    ensures Strip(" " + t + " ") == t
  {
    var s := " " + t + " ";
    assert s[1..] == t + " ";
    assert TrimLeft(t + " ") == t + " ";
    assert TrimLeft(s) == t + " ";
    assert (t + " ")[..|t|] == t;
    assert TrimRight(t) == t;
  }

  predicate IsAsciiUpper(c: char) { 'A' <= c <= 'Z' }

  /** `str.lower()` restricted to the ASCII letters. */
  function AsciiLower(s: string): (r: string)
    ensures |r| == |s|
    ensures forall i :: 0 <= i < |s| ==>
      r[i] == if IsAsciiUpper(s[i]) then (s[i] as int + 32) as char else s[i]
  {
    if s == [] then []
    else [if IsAsciiUpper(s[0]) then (s[0] as int + 32) as char else s[0]] + AsciiLower(s[1..])
  }

  predicate StartsWith(s: string, p: string) {
    |p| <= |s| && s[..|p|] == p
  }

  /** Python's `p in s` for two texts. */
  predicate Contains(s: string, p: string) {
    exists i | 0 <= i <= |s| - |p| :: StartsWith(s[i..], p)
  }

  /** Python's `any(w in s for w in words)`. */
  predicate ContainsAny(s: string, words: seq<string>) {
    words != [] && (Contains(s, words[0]) || ContainsAny(s, words[1..]))
  }

  /** The index of the first occurrence of `p` in `s` (`str.find`). */
  function Find(s: string, p: string): (r: Option<nat>)
    ensures r.Some? <==> Contains(s, p)
    ensures r.Some? ==> r.value + |p| <= |s| && StartsWith(s[r.value..], p)
    ensures r.Some? ==> forall j :: 0 <= j < r.value ==> !StartsWith(s[j..], p)
  {
    if |s| < |p| then None
    else if StartsWith(s, p) then assert s[0..] == s; Some(0)
    else
      var t := Find(s[1..], p);
      assert forall j :: 1 <= j <= |s| ==> s[j..] == s[1..][j - 1..];
      if t.Some? then Some(t.value + 1) else None
  }

  /** Python's `s.replace(p, q)`: left to right, without overlaps. */
  function ReplaceAll(s: string, p: string, q: string): (r: string)
    requires p != []
    decreases |s|
  {
    if |s| < |p| then s
    else if StartsWith(s, p) then q + ReplaceAll(s[|p|..], p, q)
    else [s[0]] + ReplaceAll(s[1..], p, q)
  }

  lemma {:induction false} ReplaceAllAbsent(s: string, p: string, q: string)
    requires p != [] && !Contains(s, p)
    ensures ReplaceAll(s, p, q) == s
    decreases |s|
  {
    if |s| >= |p| {
      assert !StartsWith(s[0..], p);
      assert s[0..] == s;
      assert !Contains(s[1..], p) by {
        forall i | 0 <= i <= |s[1..]| - |p| ensures !StartsWith(s[1..][i..], p) {
          assert s[1..][i..] == s[i + 1..];
        }
      }
      ReplaceAllAbsent(s[1..], p, q);
    }
  }

  /** A text that holds no first character of the pattern passes through a
      replacement unchanged, and the replacement goes on after it. */
  lemma {:induction false} ReplaceAllAfter(a: string, x: string, p: string, q: string)
    requires p != [] && p[0] !in a
    ensures ReplaceAll(a + x, p, q) == a + ReplaceAll(x, p, q)
    decreases |a|
  {
    var s := a + x;
    if a == [] {
      assert s == x;
    } else if |s| < |p| {
      assert ReplaceAll(x, p, q) == x;
    } else {
      assert s[0] == a[0];
      assert !StartsWith(s, p);
      assert s[1..] == a[1..] + x;
      ReplaceAllAfter(a[1..], x, p, q);
      assert a == [a[0]] + a[1..];
    }
  }

  /** An occurrence at the front is replaced. */
  lemma ReplaceAllFront(p: string, x: string, q: string)
    requires p != []
    ensures ReplaceAll(p + x, p, q) == q + ReplaceAll(x, p, q)
  {
    assert (p + x)[..|p|] == p;
    assert (p + x)[|p|..] == x;
  }

  /** Replacing a one-character pattern by a text without that character
      leaves no occurrence of it. */
  lemma {:induction false} ReplaceCharRemovesIt(s: string, c: char, q: string)
    requires c !in q
    ensures c !in ReplaceAll(s, [c], q)
    decreases |s|
  {
    if |s| >= 1 {
      ReplaceCharRemovesIt(s[1..], c, q);
    }
  }

  /** Python's `s.split("\n")`. */
  function SplitLines(s: string): (r: seq<string>)
    ensures |r| >= 1
    ensures forall k :: 0 <= k < |r| ==> '\n' !in r[k]
    decreases |s|
  {
    match Find(s, "\n")
    case None =>
      forall i | 0 <= i < |s| ensures s[i] != '\n' {
        assert s[i..][..1] == [s[i]];
      }
      [s]
    case Some(i) =>
      forall j | 0 <= j < i ensures s[..i][j] != '\n' {
        assert s[j..][..1] == [s[j]];
      }
      [s[..i]] + SplitLines(s[i + 1..])
  }

  /** Python's `"\n".join(lines)`. */
  function JoinLines(lines: seq<string>): string {
    if lines == [] then ""
    else if |lines| == 1 then lines[0]
    else lines[0] + "\n" + JoinLines(lines[1..])
  }

  /** Splitting on newlines and joining again gives the text back. */
  lemma {:induction false} SplitJoin(s: string)
    ensures JoinLines(SplitLines(s)) == s
    decreases |s|
  {
    match Find(s, "\n")
    case None =>
    case Some(i) =>
      assert s[i..][..1] == [s[i]];
      var rest := SplitLines(s[i + 1..]);
      assert SplitLines(s) == [s[..i]] + rest;
      assert ([s[..i]] + rest)[1..] == rest;
      calc {
        JoinLines(SplitLines(s));
        s[..i] + "\n" + JoinLines(rest);
        { SplitJoin(s[i + 1..]); }
        s[..i] + "\n" + s[i + 1..];
        s;
      }
  }

  function DigitChar(d: nat): char
    requires d < 10
  {
    "0123456789"[d]
  }

  predicate IsAsciiDigit(c: char) { '0' <= c <= '9' }

  /** The decimal digits of a natural number, as `str(n)` prints them. */
  function NatDigits(n: nat): (r: string)
    ensures |r| >= 1
    ensures forall i :: 0 <= i < |r| ==> IsAsciiDigit(r[i])
    decreases n
  {
    if n < 10 then [DigitChar(n)] else NatDigits(n / 10) + [DigitChar(n % 10)]
  }

  predicate AllDigits(s: string) {
    forall i :: 0 <= i < |s| ==> IsAsciiDigit(s[i])
  }

  /** The value of a text of ASCII digits. */
  function DigitsValue(s: string): nat
    requires AllDigits(s)
  {
    if s == [] then 0
    else
      assert IsAsciiDigit(s[|s| - 1]);
      10 * DigitsValue(s[..|s| - 1]) + (s[|s| - 1] as int - '0' as int)
  }

  lemma {:induction false} DigitsRoundTrip(n: nat)
    ensures DigitsValue(NatDigits(n)) == n
    decreases n
  {
    if n >= 10 {
      var s := NatDigits(n);
      assert s[..|s| - 1] == NatDigits(n / 10);
      DigitsRoundTrip(n / 10);
    }
  }

  /** Python's `str(n)` for an integer. */
  function Decimal(n: int): (r: string)
    ensures |r| >= 1
    ensures forall i :: 0 <= i < |r| ==> !IsSpace(r[i])
  {
    if n < 0 then "-" + NatDigits(-n) else NatDigits(n)
  }

  /** Python's `int(text)` for a decimal text in ASCII digits: surrounding
      whitespace and one sign are allowed; anything else raises (None). */
  function ParseInt(s: string): (r: Option<int>)
    ensures r.Some? ==> Strip(s) != []
  {
    ParseTrimmed(Strip(s))
  }

  /** `int()` of a text without surrounding whitespace. */
  function ParseTrimmed(t: string): (r: Option<int>)
    ensures r.Some? ==> t != []
  {
    if t == [] then None
    else if t[0] == '-' || t[0] == '+' then
      var ds := t[1..];
      if ds != [] && AllDigits(ds) then
        var v: int := if t[0] == '-' then -(DigitsValue(ds) as int) else DigitsValue(ds);
        Some(v)
      else None
    else if AllDigits(t) then Some(DigitsValue(t))
    else None
  }

  lemma DecimalHasNoSpace(n: int)
    ensures Strip(Decimal(n)) == Decimal(n)
  {
    var d := Decimal(n);
    assert !IsSpace(d[0]) && !IsSpace(d[|d| - 1]);
  }

  /** The decimal text of n, read without stripping, is n. */
  lemma ParseTrimmedDecimal(n: int)
    ensures ParseTrimmed(Decimal(n)) == Some(n)
  {
    var d := Decimal(n);
    if n < 0 {
      var ds := NatDigits(-n);
      assert d == "-" + ds && d[0] == '-' && d[1..] == ds;
      DigitsRoundTrip(-n);
    } else {
      assert d == NatDigits(n) && IsAsciiDigit(d[0]);
      DigitsRoundTrip(n);
    }
  }

  /** `int(str(n)) == n`. */
  lemma ParseIntDecimal(n: int)
    ensures ParseInt(Decimal(n)) == Some(n)
  {
    DecimalHasNoSpace(n);
    ParseTrimmedDecimal(n);
  }

  function Zeros(k: nat): (r: string)
    ensures |r| == k && forall i :: 0 <= i < k ==> r[i] == '0'
  {
    if k == 0 then "" else "0" + Zeros(k - 1)
  }

  /** `%0{width}d` for a natural number: zero-padded to at least `width` digits. */
  function Padded(n: nat, width: nat): (r: string)
  {
    var ds := NatDigits(n);
    if |ds| < width then Zeros(width - |ds|) + ds else ds
  }

  lemma {:induction false} ZerosValue(k: nat)
    ensures AllDigits(Zeros(k)) && DigitsValue(Zeros(k)) == 0
  {
    if k > 0 {
      assert Zeros(k)[..k - 1] == Zeros(k - 1);
      ZerosValue(k - 1);
    }
  }

  lemma {:induction false} LeadingZerosValue(k: nat, s: string)
    requires AllDigits(s)
    ensures AllDigits(Zeros(k) + s) && DigitsValue(Zeros(k) + s) == DigitsValue(s)
    decreases |s|
  {
    if s == [] {
      assert Zeros(k) + s == Zeros(k);
      ZerosValue(k);
    } else {
      var t := Zeros(k) + s;
      assert t[..|t| - 1] == Zeros(k) + s[..|s| - 1];
      LeadingZerosValue(k, s[..|s| - 1]);
    }
  }

  /** Padding keeps the value, and the text has exactly `width` digits when
      the number fits in them. */
  lemma PaddedValue(n: nat, width: nat)
    ensures AllDigits(Padded(n, width)) && DigitsValue(Padded(n, width)) == n
    ensures |Padded(n, width)| >= width
    ensures |NatDigits(n)| <= width ==> |Padded(n, width)| == width
  {
    DigitsRoundTrip(n);
    if |NatDigits(n)| < width {
      LeadingZerosValue(width - |NatDigits(n)|, NatDigits(n));
    }
  }
}
