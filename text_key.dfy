/** The comparison key for company names (`normalize_text`) and the cell
    sanitiser (`clean_newlines`) of matsurica_integrated_tool.py. */
module TextKey {
  import opened Strings
  import opened Values

  // ---------------------------------------------------------------------
  // Unicode compatibility normalisation (NFKC), for the characters the key
  // depends on: the full-width ASCII block, the ideographic space and ㈱.

  function NfkcChar(c: char): string {
    if '\U{FF01}' <= c <= '\U{FF5E}' then [(c as int - 0xFEE0) as char]
    else if c == '\U{3000}' then " "
    else if c == '㈱' then "(株)"
    else [c]
  }

  /** A character that NFKC leaves as it is (in the modelled part). */
  predicate NfkcStable(c: char) {
    !('\U{FF01}' <= c <= '\U{FF5E}') && c != '\U{3000}' && c != '㈱'
  }

  function Nfkc(s: string): (r: string)
    ensures forall i :: 0 <= i < |r| ==> NfkcStable(r[i])
  {
    if s == [] then [] else NfkcChar(s[0]) + Nfkc(s[1..])
  }

  lemma {:induction false} NfkcAppend(a: string, b: string)
    ensures Nfkc(a + b) == Nfkc(a) + Nfkc(b)
    decreases |a|
  {
    if a != [] {
      assert (a + b)[0] == a[0];
      assert (a + b)[1..] == a[1..] + b;
      NfkcAppend(a[1..], b);
      calc {
        Nfkc(a + b);
        NfkcChar(a[0]) + Nfkc(a[1..] + b);
        NfkcChar(a[0]) + (Nfkc(a[1..]) + Nfkc(b));
        Nfkc(a) + Nfkc(b);
      }
    } else {
      assert a + b == b;
    }
  }

  lemma {:induction false} NfkcIdentity(s: string)
    requires forall i :: 0 <= i < |s| ==> NfkcStable(s[i])
    ensures Nfkc(s) == s
  {
    if s != [] {
      NfkcIdentity(s[1..]);
    }
  }

  /** Normalising twice changes nothing more. */
  lemma NfkcIdempotent(s: string)
    ensures Nfkc(Nfkc(s)) == Nfkc(s)
  {
    NfkcIdentity(Nfkc(s));
  }

  // ---------------------------------------------------------------------
  // COMPANY_SUFFIX_RE: the legal-entity markers, matched case-insensitively
  // and removed left to right.

  const KanjiSuffixes: seq<string> :=
    ["株式会社", "（株）", "(株)", "㈱", "有限会社", "合同会社", "合名会社", "合資会社"]

  /** `s` starts with the lower-case ASCII literal `lit`, ignoring ASCII case. */
  predicate StartsWithCi(s: string, lit: string) {
    |lit| <= |s| && AsciiLower(s[..|lit|]) == lit
  }

  function LeadingSpaces(s: string): (n: nat)
    ensures n <= |s|
    ensures forall i :: 0 <= i < n ==> IsSpace(s[i])
    ensures n == |s| || !IsSpace(s[n])
  {
    if s != [] && IsSpace(s[0]) then 1 + LeadingSpaces(s[1..]) else 0
  }

  /** `Co\.,?\s*Ltd\.?` at the start of `s`: the length matched, 0 if none. */
  function CoLtdLength(s: string): (n: nat)
    ensures n <= |s|
  {
    if !StartsWithCi(s, "co.") then 0
    else
      var i := if 3 < |s| && s[3] == ',' then 4 else 3;
      var j := i + LeadingSpaces(s[i..]);
      if !StartsWithCi(s[j..], "ltd") then 0
      else if j + 3 < |s| && s[j + 3] == '.' then j + 4 else j + 3
  }

  /** The length of the first of `words` that `s` starts with, 0 if none. */
  function PrefixLength(s: string, words: seq<string>): (n: nat)
    ensures n <= |s|
    ensures n > 0 ==> StartsWith(s, s[..n]) && s[..n] in words
  {
    if words == [] then 0
    else if words[0] != [] && StartsWith(s, words[0]) then |words[0]|
    else PrefixLength(s, words[1..])
  }

  /** The length of the suffix token the regular expression matches at the
      start of `s` (its alternatives in their order), or 0 when none does. */
  function SuffixLength(s: string): (n: nat)
    ensures n <= |s|
  {
    var lit := PrefixLength(s, KanjiSuffixes);
    if lit > 0 then lit
    else if CoLtdLength(s) > 0 then CoLtdLength(s)
    else if StartsWithCi(s, "corporation") then 11
    else if StartsWithCi(s, "company") then 7
    else if StartsWithCi(s, "inc") then (if 3 < |s| && s[3] == '.' then 4 else 3)
    else 0
  }

  /** The first characters a suffix token can start with. */
  predicate SuffixInitial(c: char) {
    c == '株' || c == '（' || c == '(' || c == '㈱' || c == '有' || c == '合' ||
    c == 'c' || c == 'C' || c == 'i' || c == 'I'
  }

  lemma {:induction false} PrefixLengthNone(s: string, words: seq<string>)
    requires forall k | 0 <= k < |words| :: !StartsWith(s, words[k])
    ensures PrefixLength(s, words) == 0
  {
    if words != [] {
      assert !StartsWith(s, words[0]);
      PrefixLengthNone(s, words[1..]);
    }
  }

  /** No token matches at a text whose first character cannot start one, nor
      at a 株 that is not followed by 式. */
  lemma NoSuffixAt(s: string)
    requires s == [] || !SuffixInitial(s[0]) || (s[0] != '㈱' && |s| < 2) ||
             (s[0] == '株' && s[1] != '式')
    ensures SuffixLength(s) == 0
  {
    if s != [] {
      forall k | 0 <= k < |KanjiSuffixes| ensures !StartsWith(s, KanjiSuffixes[k]) {
        var w := KanjiSuffixes[k];
        assert |w| >= 1 && (s[0] != w[0] || (|s| >= 2 && s[1] != w[1]) || |s| < |w|);
      }
      PrefixLengthNone(s, KanjiSuffixes);
      if !SuffixInitial(s[0]) {
        assert forall n: nat | 1 <= n <= |s| :: AsciiLower(s[..n])[0] !in "ci";
      }
    }
  }

  /** `COMPANY_SUFFIX_RE.sub("", s)`. */
  function RemoveSuffixes(s: string): (r: string)
    ensures |r| <= |s|
    ensures forall i :: 0 <= i < |r| ==> r[i] in s
    decreases |s|
  {
    if s == [] then []
    else if SuffixLength(s) > 0 then
      var r := RemoveSuffixes(s[SuffixLength(s)..]);
      assert forall c :: c in s[SuffixLength(s)..] ==> c in s;
      r
    else
      var r := RemoveSuffixes(s[1..]);
      assert forall c :: c in s[1..] ==> c in s;
      [s[0]] + r
  }

  /** No suffix token starts anywhere in `s`. */
  predicate SuffixFree(s: string) {
    forall i :: 0 <= i < |s| ==> SuffixLength(s[i..]) == 0
  }

  lemma {:induction false} RemoveSuffixesIdentity(s: string)
    requires SuffixFree(s)
    ensures RemoveSuffixes(s) == s
    decreases |s|
  {
    if s != [] {
      assert s[0..] == s;
      assert SuffixFree(s[1..]) by {
        forall i | 0 <= i < |s[1..]| ensures SuffixLength(s[1..][i..]) == 0 {
          assert s[1..][i..] == s[i + 1..];
        }
      }
      RemoveSuffixesIdentity(s[1..]);
    }
  }

  /** No position of the text starts a token, judged by its first two
      characters. */
  predicate NoTokenStart(s: string) {
    s == [] ||
    ((!SuffixInitial(s[0]) || (s[0] != '㈱' && |s| < 2) || (s[0] == '株' && s[1] != '式')) &&
     NoTokenStart(s[1..]))
  }

  lemma {:induction false} SuffixFreeByInitials(s: string)
    requires NoTokenStart(s)
    ensures SuffixFree(s)
  {
    if s != [] {
      SuffixFreeByInitials(s[1..]);
      NoSuffixAt(s);
      forall i | 0 <= i < |s| ensures SuffixLength(s[i..]) == 0 {
        if i > 0 {
          assert s[i..] == s[1..][i - 1..];
        }
      }
    }
  }

  /** The first of `words` that `s` starts with decides the token length. */
  lemma {:induction false} PrefixLengthFinds(s: string, words: seq<string>, k: nat)
    requires k < |words| && words[k] != [] && StartsWith(s, words[k])
    requires forall j :: 0 <= j < k ==> !StartsWith(s, words[j])
    ensures PrefixLength(s, words) == |words[k]|
  {
    if k > 0 {
      assert !StartsWith(s, words[0]);
      PrefixLengthFinds(s, words[1..], k - 1);
    }
  }

  /** Two different kanji suffix words differ in their first character, or
      both are longer and differ in their second. */
  predicate Distinguished(v: string, w: string)
    requires v != [] && w != []
  {
    v[0] != w[0] || (|v| >= 2 && |w| >= 2 && v[1] != w[1])
  }

  lemma KanjiSuffixesDistinguished(j: nat, k: nat)
    requires j < |KanjiSuffixes| && k < |KanjiSuffixes| && j != k
    ensures KanjiSuffixes[j] != [] && KanjiSuffixes[k] != []
    ensures Distinguished(KanjiSuffixes[j], KanjiSuffixes[k])
  {
  }

  /** No kanji suffix word other than the k-th is a prefix of a text that
      starts with the k-th, so the alternation picks the k-th. */
  lemma KanjiSuffixLength(k: nat, t: string)
    requires k < |KanjiSuffixes|
    ensures SuffixLength(KanjiSuffixes[k] + t) == |KanjiSuffixes[k]| > 0
  {
    var w := KanjiSuffixes[k];
    var s := w + t;
    assert s[..|w|] == w;
    forall j | 0 <= j < k ensures !StartsWith(s, KanjiSuffixes[j]) {
      var v := KanjiSuffixes[j];
      KanjiSuffixesDistinguished(j, k);
      if |v| <= |s| {
        assert s[..|v|][0] == w[0];
        if |v| >= 2 && |w| >= 2 {
          assert s[..|v|][1] == w[1];
        }
      }
    }
    PrefixLengthFinds(s, KanjiSuffixes, k);
  }

  /** A kanji company word at the front of a text is removed whole, whatever
      follows it. */
  lemma KanjiSuffixRemoved(k: nat, t: string)
    requires k < |KanjiSuffixes|
    ensures RemoveSuffixes(KanjiSuffixes[k] + t) == RemoveSuffixes(t)
  {
    var s := KanjiSuffixes[k] + t;
    KanjiSuffixLength(k, t);
    assert s[|KanjiSuffixes[k]|..] == t;
  }

  // ---------------------------------------------------------------------
  // PUNCT_RE and DIGIT_RE: characters removed wherever they occur.

  /** The characters of PUNCT_RE's class: spaces, hyphens and dashes, middle
      dots, slashes, periods and commas, brackets, quotes, underscore, plus
      signs and the backslash. */
  predicate IsPunct(c: char) {
    c == ' ' || c == '\t' || c == '\U{3000}' || c == '\U{2010}' || c == '-' || c == '\U{2013}' ||
    c == '\U{2014}' || c == '\U{30FB}' || c == '/' || c == '\U{FF0F}' || c == '.' || c == ',' ||
    c == '\U{FF0C}' || c == '\U{3001}' || c == '(' || c == ')' || c == '[' || c == ']' ||
    c == '{' || c == '}' || c == '<' || c == '>' || c == '\U{300E}' || c == '\U{300F}' ||
    c == '\U{300C}' || c == '\U{300D}' || c == '\U{201D}' || c == '"' || c == '\'' ||
    c == '\U{2019}' || c == '`' || c == '\U{FF65}' || c == '_' || c == '\U{FF0B}' ||
    c == '\\' || c == '+'
  }

  /** ASCII and full-width decimal digits. */
  predicate IsKeyDigit(c: char) {
    '0' <= c <= '9' || '\U{FF10}' <= c <= '\U{FF19}'
  }

  function RemovePunct(s: string): (r: string)
    ensures forall i :: 0 <= i < |r| ==> !IsPunct(r[i]) && r[i] in s
    ensures (forall i :: 0 <= i < |s| ==> !IsPunct(s[i])) ==> r == s
  {
    if s == [] then []
    else
      var r := RemovePunct(s[1..]);
      assert forall c :: c in s[1..] ==> c in s;
      if IsPunct(s[0]) then r else [s[0]] + r
  }

  function RemoveDigits(s: string): (r: string)
    ensures forall i :: 0 <= i < |r| ==> !IsKeyDigit(r[i]) && r[i] in s
    ensures (forall i :: 0 <= i < |s| ==> !IsKeyDigit(s[i])) ==> r == s
  {
    if s == [] then []
    else
      var r := RemoveDigits(s[1..]);
      assert forall c :: c in s[1..] ==> c in s;
      if IsKeyDigit(s[0]) then r else [s[0]] + r
  }

  // ---------------------------------------------------------------------
  // to_hiragana

  /** The katakana range ァ..ヴ that `to_hiragana` shifts. */
  predicate IsKatakana(c: char) {
    'ァ' <= c <= 'ヴ'
  }

  function HiraganaOf(c: char): (h: char)
    ensures IsKatakana(c) ==> h as int == c as int - 0x60
    ensures !IsKatakana(c) ==> h == c
    ensures !IsKatakana(h)
  {
    if IsKatakana(c) then (c as int - 0x60) as char else c
  }

  /** `to_hiragana`: same length; each katakana of ァ..ヴ moves 0x60 code
      points down, every other character is kept; no katakana of that range
      is left. */
  function ToHiragana(s: string): (r: string)
    ensures |r| == |s|
    ensures forall i :: 0 <= i < |s| ==> r[i] == HiraganaOf(s[i])
    ensures forall i :: 0 <= i < |r| ==> !IsKatakana(r[i])
  {
    if s == [] then [] else [HiraganaOf(s[0])] + ToHiragana(s[1..])
  }

  // ---------------------------------------------------------------------
  // normalize_text

  /** The characters a company key can hold. */
  predicate KeyChar(c: char) {
    !IsKeyDigit(c) && !IsPunct(c) && !IsKatakana(c) && !IsAsciiUpper(c)
  }

  /** Lower-casing and the katakana shift never produce a digit or a
      punctuation character from a character that was neither. */
  lemma KeyCharOfFolded(c: char)
    requires !IsKeyDigit(c) && !IsPunct(c)
    ensures KeyChar(HiraganaOf(if IsAsciiUpper(c) then (c as int + 32) as char else c))
  {
  }

  /** `normalize_text` for a text: NFKC, suffix removal, punctuation removal,
      digit removal, lower-casing, katakana to hiragana.  A blank text gives
      "".  The key never holds a digit, a punctuation character of the class,
      a katakana of ァ..ヴ or an upper-case ASCII letter. */
  function NormalizeText(s: string): (r: string)
    ensures IsBlank(s) ==> r == ""
    ensures forall i :: 0 <= i < |r| ==> KeyChar(r[i])
  {
    if IsBlank(s) then ""
    else
      var t := RemoveDigits(RemovePunct(RemoveSuffixes(Nfkc(s))));
      var r := ToHiragana(AsciiLower(t));
      assert forall i :: 0 <= i < |r| ==> KeyChar(r[i]) by {
        forall i | 0 <= i < |r| ensures KeyChar(r[i]) {
          assert !IsKeyDigit(t[i]) && t[i] in RemovePunct(RemoveSuffixes(Nfkc(s)));
          KeyCharOfFolded(t[i]);
        }
      }
      r
  }

  /** `normalize_text(v) if isinstance(v, str) else ""`. */
  function NormalizeCell(c: Cell): (r: string)
    ensures !c.Str? ==> r == ""
  {
    if c.Str? then NormalizeText(c.s) else ""
  }

  lemma {:induction false} KeyCharsStable(s: string)
    ensures forall i :: 0 <= i < |NormalizeText(s)| ==> NfkcStable(NormalizeText(s)[i])
  {
    if !IsBlank(s) {
      var n := Nfkc(s);
      var t := RemoveDigits(RemovePunct(RemoveSuffixes(n)));
      assert forall i :: 0 <= i < |t| ==> NfkcStable(t[i]) by {
        forall i | 0 <= i < |t| ensures NfkcStable(t[i]) {
          var u := RemovePunct(RemoveSuffixes(n));
          assert t[i] in u;
          var j :| 0 <= j < |u| && u[j] == t[i];
          var v := RemoveSuffixes(n);
          assert u[j] in v;
          var k :| 0 <= k < |v| && v[k] == u[j];
          assert v[k] in n;
        }
      }
    }
  }

  /** A key that contains no suffix token and is not blank is a fixed point of
      `normalize_text`.  (Without those two conditions it need not be: see
      NormalizeNotIdempotent and NormalizeBlankKey.) */
  lemma NormalizeStableKey(s: string)
    requires !IsBlank(NormalizeText(s)) && SuffixFree(NormalizeText(s))
    ensures NormalizeText(NormalizeText(s)) == NormalizeText(s)
  {
    var r := NormalizeText(s);
    KeyCharsStable(s);
    NfkcIdentity(r);
    RemoveSuffixesIdentity(r);
    assert RemovePunct(r) == r;
    assert RemoveDigits(r) == r;
    assert AsciiLower(r) == r;
    assert ToHiragana(r) == r;
  }

  /** An unfolding step, not a property: it lets the sample lemmas below
      compute `NormalizeText` one stage at a time on a text that is not
      blank. */
  lemma NormalizeStages(s: string, n: string, u: string, p: string, d: string, l: string, h: string)
    requires !IsBlank(s) && Nfkc(s) == n && RemoveSuffixes(n) == u && RemovePunct(u) == p
    requires RemoveDigits(p) == d && AsciiLower(d) == l && ToHiragana(l) == h
    ensures NormalizeText(s) == h
  {
  }

  lemma SplitSuffixNfkc()
    ensures !IsBlank("株1式会社") && Nfkc("株1式会社") == "株1式会社"
  {
    var s := "株1式会社";
    assert !IsSpace(s[0]);
    NfkcIdentity(s);
  }

  lemma SplitSuffixKept()
    ensures RemoveSuffixes("株1式会社") == "株1式会社"
  {
    var s := "株1式会社";
    SuffixFreeByInitials(s);
    RemoveSuffixesIdentity(s);
  }

  lemma SplitSuffixPunct()
    ensures RemovePunct("株1式会社") == "株1式会社"
  {
  }

  lemma SplitSuffixDigits()
    ensures RemoveDigits("株1式会社") == "株式会社"
  {
    var s := "株1式会社";
    assert RemoveDigits(s[2..]) == s[2..];
    assert [s[0]] + s[2..] == "株式会社";
  }

  lemma SuffixOnlyCase()
    ensures AsciiLower("株式会社") == "株式会社" && ToHiragana("株式会社") == "株式会社"
  {
  }

  lemma SuffixOnlyNfkc()
    ensures !IsBlank("株式会社") && Nfkc("株式会社") == "株式会社"
  {
    var k := "株式会社";
    assert !IsSpace(k[0]);
    NfkcIdentity(k);
  }

  lemma SuffixOnlyRemoved()
    ensures RemoveSuffixes("株式会社") == ""
  {
    var k := "株式会社";
    assert StartsWith(k, KanjiSuffixes[0]);
    assert SuffixLength(k) == 4;
    assert k[4..] == "";
  }

  /** Removing digits can join the pieces of a suffix: the key of "株1式会社"
      is 株式会社, which a second pass removes entirely. */
  lemma NormalizeNotIdempotent()
    ensures NormalizeText("株1式会社") == "株式会社"
    ensures NormalizeText(NormalizeText("株1式会社")) == ""
  {
    SplitSuffixNfkc();
    SplitSuffixKept();
    SplitSuffixPunct();
    SplitSuffixDigits();
    SuffixOnlyCase();
    SuffixOnlyNfkc();
    SuffixOnlyRemoved();
    NormalizeStages("株1式会社", "株1式会社", "株1式会社", "株1式会社", "株式会社", "株式会社", "株式会社");
    NormalizeStages("株式会社", "株式会社", "", "", "", "", "");
  }

  lemma DigitLineNfkc()
    ensures !IsBlank("1\n") && Nfkc("1\n") == "1\n"
  {
    var s := "1\n";
    assert !IsSpace(s[0]);
    NfkcIdentity(s);
  }

  lemma DigitLineKept()
    ensures RemoveSuffixes("1\n") == "1\n"
  {
    var s := "1\n";
    SuffixFreeByInitials(s);
    RemoveSuffixesIdentity(s);
  }

  lemma DigitLinePunct()
    ensures RemovePunct("1\n") == "1\n"
  {
  }

  lemma DigitLineDigits()
    ensures RemoveDigits("1\n") == "\n"
  {
    var s := "1\n";
    assert RemoveDigits(s[1..]) == s[1..];
  }

  lemma NewlineTail()
    ensures AsciiLower("\n") == "\n" && ToHiragana("\n") == "\n" && IsBlank("\n")
  {
  }

  /** Removing digits can also leave only whitespace, which a second pass maps to "". */
  lemma NormalizeBlankKey()
    ensures NormalizeText("1\n") == "\n"
    ensures NormalizeText(NormalizeText("1\n")) == ""
  {
    DigitLineNfkc();
    DigitLineKept();
    DigitLinePunct();
    DigitLineDigits();
    NewlineTail();
    NormalizeStages("1\n", "1\n", "1\n", "1\n", "\n", "\n", "\n");
  }

  lemma CompanyPrefixStage()
    ensures !IsBlank("株式会社テスト") && Nfkc("株式会社テスト") == "株式会社テスト"
  {
    assert !IsSpace("株式会社テスト"[0]);
    NfkcIdentity("株式会社テスト");
  }

  lemma CompanySuffixStage()
    ensures RemoveSuffixes("株式会社テスト") == "テスト"
  {
    var s := "株式会社テスト";
    assert StartsWith(s, KanjiSuffixes[0]);
    assert SuffixLength(s) == 4;
    assert s[4..] == "テスト";
    SuffixFreeByInitials("テスト");
    RemoveSuffixesIdentity("テスト");
  }

  lemma KanaNfkc()
    ensures !IsBlank("テスト") && Nfkc("テスト") == "テスト"
  {
    assert !IsSpace("テスト"[0]);
    NfkcIdentity("テスト");
  }

  lemma KanaKept()
    ensures RemoveSuffixes("テスト") == "テスト"
  {
    SuffixFreeByInitials("テスト");
    RemoveSuffixesIdentity("テスト");
  }

  lemma KanaPunct()
    ensures RemovePunct("テスト") == "テスト"
  {
  }

  lemma KanaDigits()
    ensures RemoveDigits("テスト") == "テスト"
  {
  }

  lemma KanaCase()
    ensures AsciiLower("テスト") == "テスト" && ToHiragana("テスト") == "てすと"
  {
  }

  /** Suffix removal: 株式会社テスト and テスト have the same key. */
  lemma SuffixIgnored()
    ensures NormalizeText("株式会社テスト") == NormalizeText("テスト") == "てすと"
  {
    CompanyPrefixStage();
    CompanySuffixStage();
    KanaNfkc();
    KanaKept();
    KanaPunct();
    KanaDigits();
    KanaCase();
    NormalizeStages("株式会社テスト", "株式会社テスト", "テスト", "テスト", "テスト", "テスト", "てすと");
    NormalizeStages("テスト", "テスト", "テスト", "テスト", "テスト", "テスト", "てすと");
  }

  lemma LatinWidthStage()
    ensures !IsBlank("ＸＹＺ") && Nfkc("ＸＹＺ") == "XYZ"
  {
    var s := "ＸＹＺ";
    assert !IsSpace(s[0]);
    assert s[1..][1..] == "Ｚ";
    assert Nfkc("Ｚ") == "Z";
    assert Nfkc("ＹＺ") == "YZ";
  }

  lemma LatinKept()
    ensures RemoveSuffixes("XYZ") == "XYZ"
  {
    SuffixFreeByInitials("XYZ");
    RemoveSuffixesIdentity("XYZ");
  }

  lemma LatinPunct()
    ensures RemovePunct("XYZ") == "XYZ"
  {
  }

  lemma LatinDigits()
    ensures RemoveDigits("XYZ") == "XYZ"
  {
  }

  lemma LatinLower()
    ensures AsciiLower("XYZ") == "xyz"
  {
  }

  lemma LowerLatinNfkc()
    ensures !IsBlank("xyz") && Nfkc("xyz") == "xyz"
  {
    assert !IsSpace("xyz"[0]);
    NfkcIdentity("xyz");
  }

  lemma LowerLatinKept()
    ensures RemoveSuffixes("xyz") == "xyz"
  {
    SuffixFreeByInitials("xyz");
    RemoveSuffixesIdentity("xyz");
  }

  lemma LowerLatinPunct()
    ensures RemovePunct("xyz") == "xyz"
  {
  }

  lemma LowerLatinDigits()
    ensures RemoveDigits("xyz") == "xyz"
  {
  }

  lemma LowerLatinCase()
    ensures AsciiLower("xyz") == "xyz" && ToHiragana("xyz") == "xyz"
  {
  }

  /** Width and case folding: ＸＹＺ and xyz have the same key. */
  lemma WidthAndCaseIgnored()
    ensures NormalizeText("ＸＹＺ") == NormalizeText("xyz") == "xyz"
  {
    LatinWidthStage();
    LatinKept();
    LatinPunct();
    LatinDigits();
    LatinLower();
    LowerLatinNfkc();
    LowerLatinKept();
    LowerLatinPunct();
    LowerLatinDigits();
    LowerLatinCase();
    NormalizeStages("ＸＹＺ", "XYZ", "XYZ", "XYZ", "XYZ", "xyz", "xyz");
    NormalizeStages("xyz", "xyz", "xyz", "xyz", "xyz", "xyz", "xyz");
  }

  // ---------------------------------------------------------------------
  // clean_newlines

  /** The control characters `clean_newlines` deletes: \x00-\x08, \x0b, \x0c,
      \x0e-\x1f and \x7f (tab, line feed and carriage return are not among them). */
  predicate IsControl(c: char) {
    c <= '\U{08}' || c == '\U{0B}' || c == '\U{0C}' || ('\U{0E}' <= c <= '\U{1F}') || c == '\U{7F}'
  }

  function RemoveControls(s: string): (r: string)
    ensures forall i :: 0 <= i < |r| ==> !IsControl(r[i]) && r[i] in s
    ensures (forall i :: 0 <= i < |s| ==> !IsControl(s[i])) ==> r == s
  {
    if s == [] then []
    else
      var r := RemoveControls(s[1..]);
      assert forall c :: c in s[1..] ==> c in s;
      if IsControl(s[0]) then r else [s[0]] + r
  }

  /** `clean_newlines`: a non-string gives ""; otherwise the text without
      "_x000D_", with line ends turned into "\n" and the control characters
      deleted.  No carriage return and no such control character is left,
      and a text that has none of them, nor "_x000D_", is returned as it is. */
  function CleanNewlines(c: Cell): (r: string)
    ensures !c.Str? ==> r == ""
    ensures '\r' !in r
    ensures forall i :: 0 <= i < |r| ==> !IsControl(r[i])
    ensures (c.Str? && !Contains(c.s, "_x000D_") && '\r' !in c.s &&
             forall i :: 0 <= i < |c.s| ==> !IsControl(c.s[i])) ==> r == c.s
  {
    if !c.Str? then ""
    else
      var s := c.s;
      var t1 := ReplaceAll(s, "_x000D_", "");
      var t2 := ReplaceAll(t1, "\r\n", "\n");
      var t3 := ReplaceAll(t2, "\r", "\n");
      ReplaceCharRemovesIt(t2, '\r', "\n");
      var r := RemoveControls(t3);
      if !Contains(s, "_x000D_") && '\r' !in s then
        ReplaceAllAbsent(s, "_x000D_", "");
        assert !Contains(s, "\r\n") by {
          forall i | 0 <= i <= |s| - 2 ensures !StartsWith(s[i..], "\r\n") {
            assert s[i..][0] == s[i];
          }
        }
        ReplaceAllAbsent(s, "\r\n", "\n");
        assert !Contains(s, "\r") by {
          forall i | 0 <= i <= |s| - 1 ensures !StartsWith(s[i..], "\r") {
            assert s[i..][0] == s[i];
          }
        }
        ReplaceAllAbsent(s, "\r", "\n");
        r
      else
        r
  }

  /** A text without line ends, underscores or deleted control characters. */
  predicate PlainLine(s: string) {
    forall i :: 0 <= i < |s| ==> s[i] != '\r' && s[i] != '\n' && s[i] != '_' && !IsControl(s[i])
  }

  /** A text `clean_newlines` leaves as it is. */
  lemma CleanPlain(t: string)
    requires '\r' !in t && '_' !in t && forall i :: 0 <= i < |t| ==> !IsControl(t[i])
    ensures CleanNewlines(Str(t)) == t
  {
    assert !Contains(t, "_x000D_") by {
      forall i | 0 <= i <= |t| - 7 ensures !StartsWith(t[i..], "_x000D_") {
        assert t[i..][0] == t[i];
      }
    }
  }

  /** `clean_newlines` stage by stage: the result once the three
      replacements are known and leave no control character. */
  lemma CleanStages(s: string, t1: string, t2: string, t3: string)
    requires t1 == ReplaceAll(s, "_x000D_", "")
    requires t2 == ReplaceAll(t1, "\r\n", "\n")
    requires t3 == ReplaceAll(t2, "\r", "\n")
    requires forall i :: 0 <= i < |t3| ==> !IsControl(t3[i])
    ensures CleanNewlines(Str(s)) == t3
  {
  }

  /** A plain text passes through a replacement whose pattern starts with a
      line end or an underscore. */
  lemma ReplacePlain(b: string, p: string, q: string)
    requires PlainLine(b) && p != [] && p[0] in "\r_"
    ensures ReplaceAll(b, p, q) == b
  {
    ReplaceAllAfter(b, [], p, q);
    assert b + [] == b;
  }

  /** A Windows line end "\r\n" becomes "\n". */
  lemma CleanCrLf(a: string, b: string)
    requires PlainLine(a) && PlainLine(b)
    ensures CleanNewlines(Str(a + "\r\n" + b)) == a + "\n" + b
  {
    var s := a + "\r\n" + b;
    var t2 := a + "\n" + b;
    assert ReplaceAll(s, "_x000D_", "") == s by {
      ReplaceAllAfter(s, [], "_x000D_", "");
      assert s + [] == s;
    }
    assert ReplaceAll(s, "\r\n", "\n") == t2 by {
      assert s == a + ("\r\n" + b);
      ReplaceAllAfter(a, "\r\n" + b, "\r\n", "\n");
      ReplaceAllFront("\r\n", b, "\n");
      ReplacePlain(b, "\r\n", "\n");
    }
    assert ReplaceAll(t2, "\r", "\n") == t2 by {
      ReplaceAllAfter(t2, [], "\r", "\n");
      assert t2 + [] == t2;
    }
    CleanStages(s, s, t2, t2);
  }

  /** A lone carriage return becomes "\n". */
  lemma CleanCr(a: string, b: string)
    requires PlainLine(a) && PlainLine(b)
    ensures CleanNewlines(Str(a + "\r" + b)) == a + "\n" + b
  {
    var s := a + "\r" + b;
    var t3 := a + "\n" + b;
    assert ReplaceAll(s, "_x000D_", "") == s by {
      ReplaceAllAfter(s, [], "_x000D_", "");
      assert s + [] == s;
    }
    assert ReplaceAll(s, "\r\n", "\n") == s by {
      assert s == a + ("\r" + b);
      ReplaceAllAfter(a, "\r" + b, "\r\n", "\n");
      ReplacePlain(b, "\r\n", "\n");
      if b != [] {
        assert ("\r" + b)[1] == b[0];
        assert ("\r" + b)[1..] == b;
      }
    }
    assert ReplaceAll(s, "\r", "\n") == t3 by {
      assert s == a + ("\r" + b);
      ReplaceAllAfter(a, "\r" + b, "\r", "\n");
      ReplaceAllFront("\r", b, "\n");
      ReplacePlain(b, "\r", "\n");
    }
    CleanStages(s, s, s, t3);
  }

  /** The escaped carriage return "_x000D_" that Excel writes is deleted. */
  lemma CleanEscapedCr(a: string, b: string)
    requires PlainLine(a) && PlainLine(b)
    ensures CleanNewlines(Str(a + "_x000D_" + b)) == a + b
  {
    var s := a + "_x000D_" + b;
    var t := a + b;
    assert ReplaceAll(s, "_x000D_", "") == t by {
      assert s == a + ("_x000D_" + b);
      ReplaceAllAfter(a, "_x000D_" + b, "_x000D_", "");
      ReplaceAllFront("_x000D_", b, "");
      ReplacePlain(b, "_x000D_", "");
    }
    assert PlainLine(t);
    ReplacePlain(t, "\r\n", "\n");
    ReplacePlain(t, "\r", "\n");
    CleanStages(s, t, t, t);
  }
}
