/** Cell decoding when a worksheet is read straight from its XML
    (`parse_sheet_xml`) and, when that XML does not parse, from its text with
    regular expressions (`extract_data_with_regex`): a cell of type "s" holds
    an index into the shared-string table. */
module SheetCells {
  import opened Strings
  import opened Values

  /** The `<v>` child of a cell: absent, or present with its text (None for
      an empty element). */
  datatype VElem = NoV | V(text: Option<string>)

  /** A `<c>` element as the XML parser gives it: its `t` attribute and its
      value element. */
  datatype CellElem = CellElem(t: Option<string>, v: VElem)

  /** The shared-string table: index to text. */
  type SharedStrings = map<int, string>

  /** The value of a shared-string reference `x`: the table entry when `x`
      reads as an integer present in the table, otherwise "STRING_" + x. */
  function SharedText(x: string, sst: SharedStrings): (r: string)
    ensures ParseInt(x).Some? && ParseInt(x).value in sst ==> r == sst[ParseInt(x).value]
    ensures !(ParseInt(x).Some? && ParseInt(x).value in sst) ==> r == "STRING_" + x
  {
    match ParseInt(x)
    case Some(i) => if i in sst then sst[i] else "STRING_" + x
    case None => "STRING_" + x
  }

  /** A shared-string reference written in decimal resolves to its entry. */
  lemma SharedIndexResolves(i: int, sst: SharedStrings)
    requires i in sst
    ensures SharedText(Decimal(i), sst) == sst[i]
  {
    ParseIntDecimal(i);
  }

  /** `int(None)` raises TypeError: a shared-string cell with an empty value
      element cannot be decoded. */
  predicate Decodable(c: CellElem) {
    !(c.v.V? && c.v.text.None? && c.t == Some("s"))
  }

  /** One cell of the XML path: no value element gives "", an empty value
      element gives None, a shared-string cell is looked up, any other cell
      keeps its text. */
  function DecodeCell(c: CellElem, sst: SharedStrings): (r: Result<Cell>)
    ensures r.Success? <==> Decodable(c)
    ensures c.v.NoV? ==> r == Success(Str(""))
    ensures c.v.V? && c.v.text.None? && c.t != Some("s") ==> r == Success(Null)
    ensures c.v.V? && c.v.text.Some? && c.t != Some("s") ==> r == Success(Str(c.v.text.value))
    ensures c.v.V? && c.v.text.Some? && c.t == Some("s") ==>
      r == Success(Str(SharedText(c.v.text.value, sst)))
  {
    match c.v
    case NoV => Success(Str(""))
    case V(text) =>
      if c.t == Some("s") then
        match text
        case None => Failure("TypeError: int() argument must be a string, not 'NoneType'")
        case Some(x) => Success(Str(SharedText(x, sst)))
      else if text.None? then Success(Null)
      else Success(Str(text.value))
  }

  /** Every cell of a row can be decoded. */
  predicate RowDecodable(row: seq<CellElem>) {
    forall j :: 0 <= j < |row| ==> Decodable(row[j])
  }

  /** `out` holds the decoded cells of `row`, in order. */
  predicate RowDecoded(row: seq<CellElem>, out: seq<Cell>, sst: SharedStrings) {
    |out| == |row| && forall j :: 0 <= j < |row| ==> Success(out[j]) == DecodeCell(row[j], sst)
  }

  /** The cells of a row decoded left to right; the first cell that cannot
      be decoded gives the failure. */
  function DecodeRow(row: seq<CellElem>, sst: SharedStrings): (r: Result<seq<Cell>>)
    decreases |row|
  {
    if row == [] then Success([])
    else
      match DecodeRow(row[..|row| - 1], sst)
      case Failure(e) => Failure(e)
      case Success(prefix) =>
        match DecodeCell(row[|row| - 1], sst)
        case Failure(e) => Failure(e)
        case Success(c) => Success(prefix + [c])
  }

  /** A row decodes exactly when each of its cells does, and then cell by
      cell. */
  lemma {:induction false} DecodeRowSpec(row: seq<CellElem>, sst: SharedStrings)
    ensures DecodeRow(row, sst).Success? <==> RowDecodable(row)
    ensures DecodeRow(row, sst).Success? ==> RowDecoded(row, DecodeRow(row, sst).value, sst)
    decreases |row|
  {
    if row != [] {
      var init := row[..|row| - 1];
      DecodeRowSpec(init, sst);
      assert forall j :: 0 <= j < |init| ==> init[j] == row[j];
      if DecodeRow(init, sst).Success? && DecodeCell(row[|row| - 1], sst).Success? {
        var out := DecodeRow(row, sst).value;
        assert out == DecodeRow(init, sst).value + [DecodeCell(row[|row| - 1], sst).value];
        forall j | 0 <= j < |row| ensures Success(out[j]) == DecodeCell(row[j], sst) {
          if j < |init| {
            assert out[j] == DecodeRow(init, sst).value[j];
          }
        }
      }
    }
  }

  /** The cell loop of `parse_sheet_xml` for one `<row>`: its cells decoded in
      order, or the failure of the first that cannot be decoded. */
  method ParseRow(row: seq<CellElem>, sst: SharedStrings) returns (r: Result<seq<Cell>>)
    ensures r.Success? <==> RowDecodable(row)
    ensures r.Success? ==> RowDecoded(row, r.value, sst)
  {
    var rowData: seq<Cell> := [];
    var j := 0;
    while j < |row|
      invariant 0 <= j <= |row|
      invariant DecodeRow(row[..j], sst) == Success(rowData)
    {
      var d := DecodeCell(row[j], sst);
      if d.Failure? {
        assert !Decodable(row[j]);
        return Failure(d.error);
      }
      assert row[..j + 1][..j] == row[..j];
      rowData := rowData + [d.value];
      j := j + 1;
    }
    assert row[..|row|] == row;
    DecodeRowSpec(row, sst);
    return Success(rowData);
  }

  /** The row loop of `parse_sheet_xml`: one output row per `<row>`, one cell
      per `<c>`, decoded in order; the first cell that cannot be decoded
      aborts the whole sheet. */
  method ParseSheetXml(rows: seq<seq<CellElem>>, sst: SharedStrings) returns (r: Result<seq<seq<Cell>>>)
    ensures r.Success? <==> forall i, j :: 0 <= i < |rows| && 0 <= j < |rows[i]| ==> Decodable(rows[i][j])
    ensures r.Success? ==> (|r.value| == |rows| &&
      forall i :: 0 <= i < |rows| ==> (|r.value[i]| == |rows[i]| &&
        forall j :: 0 <= j < |rows[i]| ==> Success(r.value[i][j]) == DecodeCell(rows[i][j], sst)))
  {
    var out: seq<seq<Cell>> := [];
    var i := 0;
    while i < |rows|
      invariant 0 <= i <= |rows| && |out| == i
      invariant forall a :: 0 <= a < i ==> RowDecodable(rows[a])
      invariant forall a :: 0 <= a < i ==> RowDecoded(rows[a], out[a], sst)
    {
      var row := ParseRow(rows[i], sst);
      if row.Failure? {
        assert !RowDecodable(rows[i]);
        return Failure(row.error);
      }
      out := out + [row.value];
      i := i + 1;
    }
    assert forall a :: 0 <= a < |rows| ==> RowDecoded(rows[a], out[a], sst);
    return Success(out);
  }

  // ---------------------------------------------------------------------
  // The regular-expression path

  /** A cell as the text scan finds it: `tag` is what follows "<c" up to the
      first ">", `content` what lies between that ">" and the first "</c>". */
  datatype CellText = CellText(tag: string, content: string)

  /** `re.search(r'<v[^>]*>(.*?)</v>', s)`: the text of the first value
      element, from the first "<v" that is followed by a ">" and, after it,
      by a "</v>". */
  function SearchValue(s: string): (r: Option<string>)
    ensures r.Some? ==> |r.value| <= |s| && !Contains(r.value, "</v>")
    decreases |s|
  {
    if |s| < 2 then None
    else if StartsWith(s, "<v") && Find(s[2..], ">").Some? &&
            Find(s[2 + Find(s[2..], ">").value + 1..], "</v>").Some? then
      var rest := s[2 + Find(s[2..], ">").value + 1..];
      var k := Find(rest, "</v>").value;
      assert !Contains(rest[..k], "</v>") by {
        forall j | 0 <= j <= |rest[..k]| - 4 ensures !StartsWith(rest[..k][j..], "</v>") {
          assert rest[..k][j..] == rest[j..k];
          assert !StartsWith(rest[j..], "</v>");
        }
      }
      Some(rest[..k])
    else SearchValue(s[1..])
  }

  /** `re.search(r't="([^"]*)"', s)`: the value of the first `t="…"`. */
  function SearchType(s: string): (r: Option<string>)
    ensures r.Some? ==> '"' !in r.value
    decreases |s|
  {
    if |s| < 3 then None
    else if StartsWith(s, "t=\"") && Find(s[3..], "\"").Some? then
      var k := Find(s[3..], "\"").value;
      assert forall j :: 0 <= j < k ==> s[3..][j] != '"' by {
        forall j | 0 <= j < k ensures s[3..][j] != '"' {
          assert !StartsWith(s[3..][j..], "\"");
          assert s[3..][j..][..1] == [s[3..][j]];
        }
      }
      Some(s[3..][..k])
    else SearchType(s[1..])
  }

  /** One cell of the text path as written: the type is searched in the
      captured CONTENT, where the `t` attribute of the `<c>` tag never is. */
  function SalvageCellAsWritten(c: CellText, sst: SharedStrings): (r: Cell)
    ensures r.Str?
    ensures SearchValue(c.content).None? ==> r == Str("")
    ensures SearchValue(c.content).Some? && SearchType(c.content) != Some("s") ==>
      r == Str(SearchValue(c.content).value)
  {
    match SearchValue(c.content)
    case None => Str("")
    case Some(x) => if SearchType(c.content) == Some("s") then Str(SharedText(x, sst)) else Str(x)
  }

  /** One cell of the text path with the type searched in the tag, where the
      XML path reads it. */
  function SalvageCell(c: CellText, sst: SharedStrings): (r: Cell)
    ensures r.Str?
    ensures SearchValue(c.content).None? ==> r == Str("")
    ensures SearchValue(c.content).Some? && SearchType(c.tag) == Some("s") ==>
      r == Str(SharedText(SearchValue(c.content).value, sst))
    ensures SearchValue(c.content).Some? && SearchType(c.tag) != Some("s") ==>
      r == Str(SearchValue(c.content).value)
  {
    match SearchValue(c.content)
    case None => Str("")
    case Some(x) => if SearchType(c.tag) == Some("s") then Str(SharedText(x, sst)) else Str(x)
  }

  lemma {:induction false} SearchTypeAt(ty: string)
    requires '"' !in ty
    ensures SearchType("t=\"" + ty + "\"") == Some(ty)
  {
    var s := "t=\"" + ty + "\"";
    assert StartsWith(s, "t=\"");
    assert s[3..] == ty + "\"";
    assert Find(ty + "\"", "\"") == Some(|ty|) by {
      var u := ty + "\"";
      assert StartsWith(u[|ty|..], "\"");
      forall j | 0 <= j < |ty| ensures !StartsWith(u[j..], "\"") {
        assert u[j..][0] == ty[j];
      }
    }
    assert s[3..][..|ty|] == ty;
  }

  /** "</v>" has no proper prefix that is also a suffix, so it cannot start
      inside a text that does not contain it and still end after it. */
  lemma NoCloseTagBefore(text: string, j: nat)
    requires !Contains(text, "</v>") && j < |text|
    ensures !StartsWith((text + "</v>")[j..], "</v>")
  {
    var rest := text + "</v>";
    if j <= |text| - 4 {
      assert rest[j..][..4] == text[j..][..4];
      assert !StartsWith(text[j..], "</v>");
    } else {
      var m := |text| - j;
      assert rest[j..][m] == rest[|text|];
      assert rest[|text|] == '<' && "</v>"[m] != '<';
    }
  }

  lemma FindCloseTag(text: string)
    requires !Contains(text, "</v>")
    ensures Find(text + "</v>", "</v>") == Some(|text|)
  {
    var rest := text + "</v>";
    assert StartsWith(rest[|text|..], "</v>") by {
      assert rest[|text|..] == "</v>";
    }
    assert Contains(rest, "</v>");
    var v := Find(rest, "</v>").value;
    if v < |text| {
      NoCloseTagBefore(text, v);
    }
  }

  /** The opening tag "<v>" is closed at once by its ">". */
  lemma OpenTag(text: string)
    ensures StartsWith("<v>" + text + "</v>", "<v")
    ensures Find(("<v>" + text + "</v>")[2..], ">") == Some(0)
    ensures ("<v>" + text + "</v>")[3..] == text + "</v>"
  {
    var s := "<v>" + text + "</v>";
    assert s[..2] == "<v";
    assert StartsWith(s[2..], ">") by { assert s[2..][..1] == ">"; }
  }

  lemma SearchValueAt(text: string)
    requires !Contains(text, "</v>")
    ensures SearchValue("<v>" + text + "</v>") == Some(text)
  {
    OpenTag(text);
    FindCloseTag(text);
    assert (text + "</v>")[..|text|] == text;
  }

  /** The text of a cell written with attribute `t="ty"` and value `text`. */
  function CellSource(ty: string, text: string): CellText {
    CellText(" t=\"" + ty + "\"", "<v>" + text + "</v>")
  }

  /** The scans find the attribute and the value of a cell's text. */
  lemma CellSourceScans(ty: string, text: string)
    requires '"' !in ty && !Contains(text, "</v>")
    ensures SearchValue(CellSource(ty, text).content) == Some(text)
    ensures SearchType(CellSource(ty, text).tag) == Some(ty)
  {
    SearchValueAt(text);
    SpacedTypeAttribute(ty);
  }

  lemma SpacedTypeAttribute(ty: string)
    requires '"' !in ty
    ensures SearchType(" t=\"" + ty + "\"") == Some(ty)
  {
    assert " t=\"" + ty + "\"" == " " + ("t=\"" + ty + "\"");
    TypeAfterPrefix(" ", ty);
  }

  /** With the type read from the tag, the text path decodes a cell exactly
      as the XML path decodes the same cell. */
  lemma SalvageAgreesWithXml(ty: string, text: string, sst: SharedStrings)
    requires '"' !in ty && !Contains(text, "</v>")
    ensures DecodeCell(CellElem(Some(ty), V(Some(text))), sst) ==
            Success(SalvageCell(CellSource(ty, text), sst))
  {
    CellSourceScans(ty, text);
  }

  /** As written, a shared-string cell `<c r="A1" t="s"><v>0</v></c>` keeps
      its raw index "0" on the text path, while the XML path gives the table
      entry. */
  lemma SalvageIgnoresSharedStrings()
    ensures SalvageCellAsWritten(CellText(" r=\"A1\" t=\"s\"", "<v>0</v>"), map[0 := "取引先"]) == Str("0")
    ensures DecodeCell(CellElem(Some("s"), V(Some("0"))), map[0 := "取引先"]) == Success(Str("取引先"))
    ensures SalvageCell(CellText(" r=\"A1\" t=\"s\"", "<v>0</v>"), map[0 := "取引先"]) == Str("取引先")
  {
    SharedZero();
    SampleCellScans();
  }

  lemma SharedZero()
    ensures SharedText("0", map[0 := "取引先"]) == "取引先"
  {
    ParseIntDecimal(0);
    assert Decimal(0) == "0";
  }

  lemma SampleCellScans()
    ensures SearchValue("<v>0</v>") == Some("0") && SearchType("<v>0</v>") == None
    ensures SearchType(" r=\"A1\" t=\"s\"") == Some("s")
  {
    SampleValueScan();
    SampleHasNoType();
    SampleTypeScan();
  }

  lemma SampleHasNoType()
    ensures SearchType("<v>0</v>") == None
  {
    var s := "<v>0</v>";
    assert forall j :: 0 <= j < |s| ==> s[j] != 't';
    NoTypeIn(s);
  }

  /** A text shorter than "</v>" cannot contain it. */
  lemma ShortHasNoCloseTag(t: string)
    requires |t| < 4
    ensures !Contains(t, "</v>")
  {
  }

  lemma SampleValueScan()
    ensures SearchValue("<v>0</v>") == Some("0")
  {
    assert "<v>0</v>" == "<v>" + "0" + "</v>";
    ShortHasNoCloseTag("0");
    SearchValueAt("0");
  }

  /** A type attribute after a prefix without the letter t is the first one
      the scan finds. */
  lemma TypeAfterPrefix(pre: string, ty: string)
    requires '"' !in ty
    requires forall j :: 0 <= j < |pre| ==> pre[j] != 't'
    ensures SearchType(pre + ("t=\"" + ty + "\"")) == Some(ty)
  {
    var attr := "t=\"" + ty + "\"";
    var s := pre + attr;
    forall j | 0 <= j < |pre| ensures !StartsWith(s[j..], "t=\"") {
      assert s[j..][0] == pre[j];
    }
    SearchTypeSkip(s, |pre|);
    assert s[|pre|..] == attr;
    SearchTypeAt(ty);
  }

  lemma SampleTypeScan()
    ensures SearchType(" r=\"A1\" t=\"s\"") == Some("s")
  {
    var pre := " r=\"A1\" ";
    assert " r=\"A1\" t=\"s\"" == pre + ("t=\"" + "s" + "\"");
    assert forall j :: 0 <= j < |pre| ==> pre[j] != 't';
    TypeAfterPrefix(pre, "s");
  }

  /** A text without the letter t has no type attribute. */
  lemma {:induction false} NoTypeIn(s: string)
    requires forall j :: 0 <= j < |s| ==> s[j] != 't'
    ensures SearchType(s) == None
    decreases |s|
  {
    if |s| >= 3 {
      assert s[0] != 't';
      NoTypeIn(s[1..]);
    }
  }

  /** The search skips a prefix in which no `t="` starts. */
  lemma {:induction false} SearchTypeSkip(s: string, n: nat)
    requires n <= |s| && forall j :: 0 <= j < n ==> !StartsWith(s[j..], "t=\"")
    ensures SearchType(s) == SearchType(s[n..])
    decreases n
  {
    if n > 0 {
      assert s[0..] == s;
      if |s| >= 3 {
        assert s[1..][n - 1..] == s[n..];
        forall j | 0 <= j < n - 1 ensures !StartsWith(s[1..][j..], "t=\"") {
          assert s[1..][j..] == s[j + 1..];
        }
        SearchTypeSkip(s[1..], n - 1);
      } else {
        assert forall j :: 0 <= j < n ==> !StartsWith(s[j..], "t=\"");
        assert |s[n..]| < 3;
      }
    }
  }

  /** The row/cell loops of `extract_data_with_regex` as written: one output
      row per row found, one salvaged cell per cell found. */
  method ExtractDataWithRegex(rows: seq<seq<CellText>>, sst: SharedStrings) returns (out: seq<seq<Cell>>)
    ensures |out| == |rows|
    ensures forall i :: 0 <= i < |rows| ==> (|out[i]| == |rows[i]| &&
      forall j :: 0 <= j < |rows[i]| ==> out[i][j] == SalvageCellAsWritten(rows[i][j], sst))
  {
    out := [];
    var i := 0;
    while i < |rows|
      invariant 0 <= i <= |rows| && |out| == i
      invariant forall a :: 0 <= a < i ==> (|out[a]| == |rows[a]| &&
        forall b :: 0 <= b < |rows[a]| ==> out[a][b] == SalvageCellAsWritten(rows[a][b], sst))
    {
      var rowData: seq<Cell> := [];
      var j := 0;
      while j < |rows[i]|
        invariant 0 <= j <= |rows[i]| && |rowData| == j
        invariant forall b :: 0 <= b < j ==> rowData[b] == SalvageCellAsWritten(rows[i][b], sst)
      {
        rowData := rowData + [SalvageCellAsWritten(rows[i][j], sst)];
        j := j + 1;
      }
      out := out + [rowData];
      i := i + 1;
    }
  }

  /** The source of a sheet: parsed XML, or XML that does not parse and is
      scanned as text. */
  datatype SheetSource = Parsed(elems: seq<seq<CellElem>>) | Unparsable(texts: seq<seq<CellText>>)

  /** `parse_sheet_xml`: the XML path, falling back to the text path on a
      parse error. */
  method ParseSheet(src: SheetSource, sst: SharedStrings) returns (r: Result<seq<seq<Cell>>>)
    ensures src.Unparsable? ==> (r.Success? && |r.value| == |src.texts| &&
      forall i :: 0 <= i < |src.texts| ==> (|r.value[i]| == |src.texts[i]| &&
        forall j :: 0 <= j < |src.texts[i]| ==> r.value[i][j] == SalvageCellAsWritten(src.texts[i][j], sst)))
    ensures src.Parsed? ==> (r.Success? <==>
      forall i, j :: 0 <= i < |src.elems| && 0 <= j < |src.elems[i]| ==> Decodable(src.elems[i][j]))
    ensures src.Parsed? && r.Success? ==> (|r.value| == |src.elems| &&
      forall i :: 0 <= i < |src.elems| ==> (|r.value[i]| == |src.elems[i]| &&
        forall j :: 0 <= j < |src.elems[i]| ==> Success(r.value[i][j]) == DecodeCell(src.elems[i][j], sst)))
  {
    match src
    case Parsed(elems) =>
      r := ParseSheetXml(elems, sst);
    case Unparsable(texts) =>
      var out := ExtractDataWithRegex(texts, sst);
      r := Success(out);
  }
}
