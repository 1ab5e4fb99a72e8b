/** `extract_action_body_v6`: the report text written into the import file,
    taken from an activity's free-text cell. */
module NoteBody {
  import opened Strings
  import opened Values
  import opened TextKey

  /** The heading after which the report proper starts. */
  const Marker := "■活動内容"

  /** What is written when nothing is left of the text. */
  const Unknown := "\"内容不明\""

  /** The management headings of MGMT_HEAD_PAT. */
  const Headings: seq<string> := ["記入者", "訪問日時", "日時", "提案機種", "訪問者", "販売店", "訪問相手", "顧客情報", "活動ステージ"]

  /** The characters stripped from the start of the body, one at a time. */
  const LeadingMarks := "、。,.・:：;；!！?？\"'「」『』【】[]()（）"

  predicate IsLeadingMark(c: char) { c in LeadingMarks }

  /** What may follow a heading word: blanks, at most one colon, blanks. */
  predicate HeadingTail(s: string) {
    var d := TrimLeft(s);
    d == [] || ((d[0] == ':' || d[0] == '：') && IsBlank(d[1..]))
  }

  /** The text is one of `words` followed by a heading tail. */
  predicate HeadingWord(b: string, words: seq<string>) {
    words != [] &&
    ((StartsWith(b, words[0]) && HeadingTail(b[|words[0]|..])) || HeadingWord(b, words[1..]))
  }

  /** MGMT_HEAD_PAT matches the line: blanks, "■", blanks, a heading word,
      blanks, an optional colon and blanks up to the end. */
  predicate IsMgmtHeading(line: string): (b: bool)
    ensures b ==> '■' in line
  {
    var a := TrimLeft(line);
    assert a != [] ==> a[0] == line[|line| - |a|];
    a != [] && a[0] == '■' && HeadingWord(TrimLeft(a[1..]), Headings)
  }

  /** Any one of the words may be the heading word. */
  lemma {:induction false} HeadingWordAt(b: string, words: seq<string>, k: nat)
    requires k < |words| && StartsWith(b, words[k]) && HeadingTail(b[|words[k]|..])
    ensures HeadingWord(b, words)
    decreases k
  {
    if k > 0 {
      HeadingWordAt(b, words[1..], k - 1);
    }
  }

  /** A line made of "■", a management heading word and a full-width colon
      is a management heading. */
  lemma HeadingLineRecognised(k: nat)
    requires k < |Headings|
    ensures IsMgmtHeading("■" + Headings[k] + "：")
  {
    var w := Headings[k];
    var line := "■" + w + "：";
    assert !IsSpace(line[0]);
    assert TrimLeft(line) == line;
    assert line[1..] == w + "：";
    assert !IsSpace(w[0]);
    assert TrimLeft(w + "：") == w + "：";
    assert (w + "：")[|w|..] == "：";
    assert TrimLeft("：") == "：";
    HeadingWordAt(w + "：", Headings, k);
  }

  /** Two different heading words differ in their first character, or
      both are longer and differ in their third (the 訪問 words). */
  lemma HeadingsDistinguished(j: nat, k: nat)
    requires j < |Headings| && k < |Headings| && j != k
    ensures Headings[j] != [] && Headings[k] != []
    ensures Headings[j][0] != Headings[k][0] ||
            (|Headings[j]| >= 3 && |Headings[k]| >= 3 && Headings[j][2] != Headings[k][2])
  {
  }

  /** A text starting with the k-th heading word starts with no other one. */
  lemma OnlyHeadingAt(b: string, j: nat, k: nat)
    requires j < |Headings| && k < |Headings| && j != k
    requires StartsWith(b, Headings[k])
    ensures !StartsWith(b, Headings[j])
  {
    var v, w := Headings[j], Headings[k];
    HeadingsDistinguished(j, k);
    if |v| <= |b| {
      assert b[..|v|][0] == w[0];
      if |v| >= 3 && |w| >= 3 {
        assert b[..|v|][2] == w[2];
      }
    }
  }

  /** A text is no heading word with a heading tail when no word it starts
      with is followed by one. */
  lemma {:induction false} HeadingWordNone(b: string, words: seq<string>)
    requires forall k :: 0 <= k < |words| && StartsWith(b, words[k]) ==> !HeadingTail(b[|words[k]|..])
    ensures !HeadingWord(b, words)
  {
    if words != [] {
      assert StartsWith(b, words[0]) ==> !HeadingTail(b[|words[0]|..]);
      HeadingWordNone(b, words[1..]);
    }
  }

  /** A colon followed by a value is no heading tail. */
  lemma ValueTail(v: string)
    requires !IsBlank(v)
    ensures !HeadingTail("：" + v)
  {
    var t := "：" + v;
    assert !IsSpace(t[0]);
    assert TrimLeft(t) == t;
    assert t[1..] == v;
  }

  /** The `$` anchor: a heading word followed by a colon and a value is no
      heading word with a heading tail. */
  lemma HeadingWordWithValue(k: nat, v: string)
    requires k < |Headings| && !IsBlank(v)
    ensures !HeadingWord(Headings[k] + "：" + v, Headings)
  {
    var w := Headings[k];
    var b := w + "：" + v;
    assert StartsWith(b, w) by { assert b[..|w|] == w; }
    forall j | 0 <= j < |Headings| && StartsWith(b, Headings[j])
      ensures !HeadingTail(b[|Headings[j]|..])
    {
      if j != k {
        OnlyHeadingAt(b, j, k);
      } else {
        assert b[|w|..] == "：" + v;
        ValueTail(v);
      }
    }
    HeadingWordNone(b, Headings);
  }

  /** A management heading followed by a value after its colon is no
      management heading line, so such a line stays in the body. */
  lemma HeadingWithValueKept(k: nat, v: string)
    requires k < |Headings| && !IsBlank(v)
    ensures !IsMgmtHeading("■" + Headings[k] + "：" + v)
  {
    var w := Headings[k];
    var b := w + "：" + v;
    var line := "■" + w + "：" + v;
    assert line == "■" + b;
    assert !IsSpace(line[0]);
    assert TrimLeft(line) == line;
    assert line[1..] == b;
    assert !IsSpace(b[0]);
    assert TrimLeft(b) == b;
    HeadingWordWithValue(k, v);
  }

  /** A visit-date heading that carries its date is kept. */
  lemma VisitDateLineKept()
    ensures !IsMgmtHeading("■訪問日時：3/10")
  {
    var v := "3/10";
    assert !IsSpace(v[0]);
    assert Headings[1] == "訪問日時";
    assert "■" + Headings[1] + "：" + v == "■訪問日時：3/10";
    HeadingWithValueKept(1, v);
  }

  /** The text after the first "■活動内容", stripped, or the whole text when
      the marker is absent. */
  function Section(t: string): (r: string)
    ensures !Contains(t, Marker) ==> r == t
  {
    match Find(t, Marker)
    case None => t
    case Some(i) => Strip(t[i + |Marker|..])
  }

  /** Only what follows the first marker counts: a text before it that
      holds no "■" is ignored. */
  lemma SectionAfterMarker(pre: string, post: string)
    requires '■' !in pre
    ensures Section(pre + Marker + post) == Strip(post)
  {
    var t := pre + Marker + post;
    assert t[|pre|..][..|Marker|] == Marker;
    assert Contains(t, Marker);
    forall j | 0 <= j < |pre| ensures !StartsWith(t[j..], Marker) {
      assert t[j..][0] == pre[j] != Marker[0];
    }
    var i := Find(t, Marker).value;
    assert i == |pre|;
    assert t[i + |Marker|..] == post;
  }

  /** The stripped lines that are neither empty nor a management heading,
      in order (the comprehension over `lines`). */
  function KeptLines(lines: seq<string>): (r: seq<string>)
    ensures |r| <= |lines|
    ensures forall k :: 0 <= k < |r| ==> r[k] != "" && Strip(r[k]) == r[k] && !IsMgmtHeading(r[k])
  {
    if lines == [] then []
    else
      var init := KeptLines(lines[..|lines| - 1]);
      var l := Strip(lines[|lines| - 1]);
      if !IsMgmtHeading(l) && l != "" then
        StripIdempotent(lines[|lines| - 1]);
        init + [l]
      else init
  }

  /** Every line stripped. */
  function StrippedLines(lines: seq<string>): (r: seq<string>)
    ensures |r| == |lines|
    ensures forall j :: 0 <= j < |lines| ==> r[j] == Strip(lines[j])
  {
    if lines == [] then [] else StrippedLines(lines[..|lines| - 1]) + [Strip(lines[|lines| - 1])]
  }

  /** Every kept line is a stripped input line. */
  lemma {:induction false} KeptLinesFromInput(lines: seq<string>)
    ensures forall k :: 0 <= k < |KeptLines(lines)| ==> KeptLines(lines)[k] in StrippedLines(lines)
  {
    if lines != [] {
      var init := lines[..|lines| - 1];
      KeptLinesFromInput(init);
      assert StrippedLines(lines) == StrippedLines(init) + [Strip(lines[|lines| - 1])];
    }
  }

  /** Every input line that strips to a non-empty text other than a
      management heading is kept. */
  lemma {:induction false} InputLinesKept(lines: seq<string>)
    ensures forall l :: l in StrippedLines(lines) && l != "" && !IsMgmtHeading(l) ==> l in KeptLines(lines)
  {
    if lines != [] {
      var init := lines[..|lines| - 1];
      InputLinesKept(init);
      assert StrippedLines(lines) == StrippedLines(init) + [Strip(lines[|lines| - 1])];
    }
  }

  /** The `while` loop: leading marks are removed one at a time, each time
      stripping again. */
  function DropLeadingMarks(s: string): (r: string)
    ensures |r| <= |s|
    ensures r == [] || !IsLeadingMark(r[0])
    ensures Strip(s) == s ==> Strip(r) == r
    decreases |s|
  {
    if s != [] && IsLeadingMark(s[0]) then
      var t := Strip(s[1..]);
      StripIdempotent(s[1..]);
      DropLeadingMarks(t)
    else s
  }

  /** `extract_action_body_v6`: never empty; a cell that is not text gives
      the placeholder; otherwise the body neither starts with a leading mark
      nor has blanks at either end. */
  function ActionBody(c: Cell): (r: string)
    ensures r != ""
    ensures !c.Str? ==> r == Unknown
    ensures r == Unknown || (!IsLeadingMark(r[0]) && Strip(r) == r)
  {
    if !c.Str? then Unknown
    else
      var joined := Strip(JoinLines(KeptLines(SplitLines(Section(CleanNewlines(c))))));
      StripIdempotent(JoinLines(KeptLines(SplitLines(Section(CleanNewlines(c))))));
      var body := DropLeadingMarks(joined);
      if body == "" then Unknown else body
  }

  /** The loop that collects the kept lines. */
  method KeepLines(lines: seq<string>) returns (clean: seq<string>)
    ensures clean == KeptLines(lines)
  {
    clean := [];
    var i := 0;
    while i < |lines|
      invariant 0 <= i <= |lines|
      invariant clean == KeptLines(lines[..i])
    {
      var stripped := Strip(lines[i]);
      assert lines[..i + 1][..i] == lines[..i];
      if !IsMgmtHeading(stripped) && stripped != "" {
        clean := clean + [stripped];
      }
      i := i + 1;
    }
    assert lines[..|lines|] == lines;
  }

  /** The loop that removes leading marks. */
  method DropMarks(s: string) returns (body: string)
    ensures body == DropLeadingMarks(s)
  {
    body := s;
    while body != [] && IsLeadingMark(body[0])
      invariant DropLeadingMarks(body) == DropLeadingMarks(s)
      decreases |body|
    {
      body := Strip(body[1..]);
    }
  }

  /** `extract_action_body_v6` step by step, as the source writes it. */
  method ExtractActionBody(text: Cell) returns (body: string)
    ensures body == ActionBody(text)
    ensures body != ""
  {
    if !text.Str? {
      return Unknown;
    }
    var t := CleanNewlines(text);
    var section := CutAtMarker(t);
    var clean := KeepLines(SplitLines(section));
    body := DropMarks(Strip(JoinLines(clean)));
    if body == "" {
      body := Unknown;
    }
  }

  /** The text after the first marker, stripped, or the whole text. */
  method CutAtMarker(t: string) returns (section: string)
    ensures section == Section(t)
  {
    if Contains(t, Marker) {
      var i := Find(t, Marker).value;
      section := Strip(t[i + |Marker|..]);
    } else {
      section := t;
    }
  }
}
