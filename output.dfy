/** `build_output`: one import record per matched activity row, shaped by
    the template's columns.  The date scanner and `pd.to_datetime` are
    supplied by the caller, as is today's date. */
module OutputRecords {
  import opened Strings
  import opened Values
  import opened Columns
  import opened Calendar
  import opened DateRange
  import opened ActionType
  import opened NoteBody

  const SupportAliases: seq<string> := ["MA部支援担当（管理番号:19258）", "MA部支援担当（管理番号：19258）", "MA部支援担当", "支援担当者", "担当者"]
  const IdAliases: seq<string> := ["取引先ID(必須)", "取引先ID", "顧客ID", "会社ID", "顧客コード", "取引先コード"]

  /** The template columns that receive the report body. */
  const BodyColumns: seq<string> := ["実施結果", "詳細", "活動内容", "本文", "メモ"]

  /** The other template columns that have a rule. */
  const RuledColumns: seq<string> := ["取引先ID(必須)", "アクション種別(必須)", "開始日(必須)", "開始時間(必須)",
    "終了日(必須)", "終了時間(必須)", "ステータス(必須)", "主担当者(必須)"]

  const StatusDone := "完了"
  const NoOwner := "担当者未設定"

  /** The activity columns `build_output` reads, each found by `find_col`
      from its list of names and a fallback position. */
  datatype ActivityColumns = ActivityColumns(
    customerId: Option<string>, how: Option<string>, kind: Option<string>,
    body: Option<string>, date: Option<string>)

  function ActivityColumnsOf(cols: seq<string>): (r: ActivityColumns)
    ensures r.customerId.Some? ==> r.customerId.value in cols
    ensures r.body.Some? ==> r.body.value in cols
  {
    ActivityColumns(
      FindCol(cols, Keys([Name("取引先ID(必須)")]), None),
      FindCol(cols, Keys([Name("方法"), Name("活動方法"), Name("訪問方法"), Pos(4)]), None),
      FindCol(cols, Keys([Name("活動種別"), Name("カテゴリ"), Name("行動種別"), Pos(10)]), None),
      FindCol(cols, Keys([Name("活動内容"), Name("実施内容"), Name("内容"), Name("備考"), Pos(11)]), None),
      FindCol(cols, Keys([Name("日付"), Name("活動日"), Name("訪問日"), Pos(7)]), None))
  }

  /** `row.get(col, "")`: the cell, or "" when no column was found. */
  function Get(t: Table, i: nat, col: Option<string>): (c: Cell)
    requires Rectangular(t) && i < |t.rows|
    ensures col.None? ==> c == Str("")
  {
    if col.Some? then CellAt(t, i, col.value) else Str("")
  }

  /** The id key of a cell: missing cells give "", others their stripped text. */
  function IdKey(c: Cell): (r: string)
    ensures IsNa(c) ==> r == ""
    ensures c.Str? ==> r == Strip(c.s)
  {
    if IsNa(c) then "" else Strip(PyStr(c))
  }

  // ---------------------------------------------------------------------
  // The customer id index

  /** The id key of every customer row; none when there is no id column. */
  function CustomerIdKeys(customers: Table, idCol: Option<string>): (r: seq<string>)
    requires Rectangular(customers)
    ensures |r| == |customers.rows| || r == []
  {
    if idCol.Some? && idCol.value != "" then
      seq(|customers.rows|, k requires 0 <= k < |customers.rows| => IdKey(CellAt(customers, k, idCol.value)))
    else []
  }

  /** Every non-empty key, mapped to the first row that has it. */
  function IdIndex(keys: seq<string>): (m: map<string, nat>)
    ensures forall key :: key in m ==> key != "" && m[key] < |keys| && keys[m[key]] == key
    ensures forall j :: 0 <= j < |keys| && keys[j] != "" ==> keys[j] in m && m[keys[j]] <= j
  {
    if keys == [] then map[]
    else
      var m := IdIndex(keys[..|keys| - 1]);
      var last := keys[|keys| - 1];
      if last != "" && last !in m then m[last := |keys| - 1] else m
  }

  /** The index points at the FIRST row with its key. */
  lemma IdIndexFirst(keys: seq<string>, key: string)
    requires key in IdIndex(keys)
    ensures forall j :: 0 <= j < IdIndex(keys)[key] ==> keys[j] != key
  {
    var m := IdIndex(keys);
    forall j | 0 <= j < m[key] ensures keys[j] != key {
      assert keys[j] != "" ==> keys[j] in m && m[keys[j]] <= j;
    }
  }

  /** The loop over the id column that fills the index. */
  method BuildIdIndex(keys: seq<string>) returns (index: map<string, nat>)
    ensures index == IdIndex(keys)
  {
    index := map[];
    var r := 0;
    while r < |keys|
      invariant 0 <= r <= |keys|
      invariant index == IdIndex(keys[..r])
    {
      assert keys[..r + 1][..r] == keys[..r];
      var key := keys[r];
      if key != "" && key !in index {
        index := index[key := r];
      }
      r := r + 1;
    }
    assert keys[..|keys|] == keys;
  }

  /** The owner written for a support cell: missing, empty or zero cells
      give the placeholder. */
  function SupportText(c: Cell): (r: string)
    ensures IsNa(c) || !Truthy(c) ==> r == NoOwner
    ensures c.Str? && c.s != "" ==> r == c.s
  {
    if IsNa(c) || !Truthy(c) then NoOwner else PyStr(c)
  }

  /** Every row the index names is a customer row. */
  predicate IndexInRange(index: map<string, nat>, n: nat) {
    forall key :: key in index ==> index[key] < n
  }

  /** `主担当者`: the support cell of the row the index gives for the
      activity's id key, or the placeholder. */
  function MainOwner(customers: Table, index: map<string, nat>, supportCol: Option<string>, idKey: string): (r: string)
    requires Rectangular(customers) && IndexInRange(index, |customers.rows|)
    ensures idKey == "" || idKey !in index || supportCol.None? ==> r == NoOwner
  {
    if idKey != "" && idKey in index && supportCol.Some? && supportCol.value != "" then
      SupportText(CellAt(customers, index[idKey], supportCol.value))
    else NoOwner
  }

  /** The owner is that of the first customer row carrying the id key. */
  lemma OwnerOfFirstCustomer(customers: Table, keys: seq<string>, supportCol: Option<string>, idKey: string, k: nat)
    requires Rectangular(customers) && |keys| <= |customers.rows|
    requires supportCol.Some? && supportCol.value != ""
    requires k < |keys| && idKey != "" && keys[k] == idKey && forall j :: 0 <= j < k ==> keys[j] != idKey
    ensures IndexInRange(IdIndex(keys), |customers.rows|)
    ensures MainOwner(customers, IdIndex(keys), supportCol, idKey) == SupportText(CellAt(customers, k, supportCol.value))
  {
    var index := IdIndex(keys);
    IdIndexFirst(keys, idKey);
    assert index[idKey] == k;
  }

  /** An id key no customer row carries leaves the placeholder. */
  lemma OwnerUnknownId(customers: Table, keys: seq<string>, supportCol: Option<string>, idKey: string)
    requires Rectangular(customers) && |keys| <= |customers.rows|
    requires forall j :: 0 <= j < |keys| ==> keys[j] != idKey
    ensures IndexInRange(IdIndex(keys), |customers.rows|)
    ensures MainOwner(customers, IdIndex(keys), supportCol, idKey) == NoOwner
  {
  }

  // ---------------------------------------------------------------------
  // One record

  /** What one activity row contributes to its record. */
  datatype Fields = Fields(idKey: string, action: ActionKind, range: DtRange, body: string, owner: string)

  /** The value of template column `key`; columns without a rule stay "". */
  function FieldValue(key: string, f: Fields): (r: string)
    ensures key in BodyColumns ==> r == f.body
    ensures key == "ステータス(必須)" ==> r == StatusDone
    ensures key == "取引先ID(必須)" ==> r == f.idKey
    ensures key == "アクション種別(必須)" ==> r == Label(f.action)
    ensures key == "開始日(必須)" ==> r == f.range.startDate
    ensures key == "開始時間(必須)" ==> r == f.range.startTime
    ensures key == "終了日(必須)" ==> r == f.range.endDate
    ensures key == "終了時間(必須)" ==> r == f.range.endTime
    ensures key == "主担当者(必須)" ==> r == f.owner
    ensures key !in BodyColumns && key !in RuledColumns ==> r == ""
  {
    if key == "取引先ID(必須)" then f.idKey
    else if key == "アクション種別(必須)" then Label(f.action)
    else if key == "開始日(必須)" then f.range.startDate
    else if key == "開始時間(必須)" then f.range.startTime
    else if key == "終了日(必須)" then f.range.endDate
    else if key == "終了時間(必須)" then f.range.endTime
    else if key in BodyColumns then f.body
    else if key == "ステータス(必須)" then StatusDone
    else if key == "主担当者(必須)" then f.owner
    else ""
  }

  /** `pd.to_datetime` never yields a date outside years 1 .. 9999. */
  ghost predicate StampsRepresentable(toDatetime: Cell -> Stamp) {
    forall c :: toDatetime(c).At? ==> toDatetime(c).day.Representable()
  }

  /** The fallback timestamp of a row: none for a None cell. */
  function RowStamp(c: Cell, toDatetime: Cell -> Stamp): (s: Stamp)
    ensures c.Null? ==> s == NoStamp
  {
    if c.Null? then NoStamp else toDatetime(c)
  }

  /** The text handed to `parse_dt_range`: `str(body)`, or "" for None. */
  function RangeText(c: Cell): (r: string)
    ensures c.Null? ==> r == ""
    ensures c.Str? ==> r == c.s
  {
    if c.Null? then "" else PyStr(c)
  }

  /** The fields of activity row `i`; the row fails when its date range does. */
  function RowFields(activity: Table, i: nat, ac: ActivityColumns, customers: Table, index: map<string, nat>,
                     supportCol: Option<string>, scan: string -> DtScan, toDatetime: Cell -> Stamp, today: Date): (r: Result<Fields>)
    requires Rectangular(activity) && i < |activity.rows|
    requires Rectangular(customers) && IndexInRange(index, |customers.rows|)
    requires today.Representable() && StampsRepresentable(toDatetime)
    ensures r.Failure? <==>
      ScannedDate(ScanText(RangeText(Get(activity, i, ac.body)), scan), today.year).None? &&
      RowStamp(Get(activity, i, ac.date), toDatetime).NaT?
    ensures r.Success? ==> r.value.idKey == IdKey(Get(activity, i, ac.customerId))
    ensures r.Success? ==> r.value.range.endDate == r.value.range.startDate
    ensures r.Success? ==> DateOfText(r.value.range.startDate).Some?
  {
    var idKey := IdKey(Get(activity, i, ac.customerId));
    var bodyRaw := Get(activity, i, ac.body);
    var fb := RowStamp(Get(activity, i, ac.date), toDatetime);
    match ParseDtRangeAsWritten(ScanText(RangeText(bodyRaw), scan), None, fb, today)
    case Failure(e) => Failure(e)
    case Success(range) =>
      Success(Fields(idKey,
        DecideActionType(Get(activity, i, ac.how), Get(activity, i, ac.kind), bodyRaw),
        range, ActionBody(bodyRaw), MainOwner(customers, index, supportCol, idKey)))
  }

  /** The record of one row, in template column order. */
  function Record(templateCols: seq<string>, f: Fields): (r: seq<Cell>)
    ensures |r| == |templateCols|
    ensures forall p :: 0 <= p < |templateCols| ==> r[p] == Str(FieldValue(templateCols[p], f))
  {
    seq(|templateCols|, p requires 0 <= p < |templateCols| => Str(FieldValue(templateCols[p], f)))
  }

  /** The source frames and the supplied operations. */
  datatype Inputs = Inputs(activity: Table, customers: Table, templateCols: seq<string>,
                           lookup: Option<map<string, string>>, scan: string -> DtScan,
                           toDatetime: Cell -> Stamp, today: Date)

  ghost predicate ValidInputs(inp: Inputs) {
    Rectangular(inp.activity) && Rectangular(inp.customers) &&
    inp.today.Representable() && StampsRepresentable(inp.toDatetime)
  }

  /** The lookup given, or the one built from the customer columns. */
  function LookupFor(inp: Inputs): map<string, string> {
    if inp.lookup.Some? then inp.lookup.value else LookupOf(inp.customers.columns)
  }

  function IdKeysFor(inp: Inputs): (r: seq<string>)
    requires ValidInputs(inp)
    ensures |r| <= |inp.customers.rows|
  {
    CustomerIdKeys(inp.customers, ResolveColumn(LookupFor(inp), IdAliases))
  }

  function IndexFor(inp: Inputs): (r: map<string, nat>)
    requires ValidInputs(inp)
    ensures IndexInRange(r, |inp.customers.rows|)
  {
    IdIndex(IdKeysFor(inp))
  }

  function FieldsOf(inp: Inputs, i: nat): Result<Fields>
    requires ValidInputs(inp) && i < |inp.activity.rows|
  {
    RowFields(inp.activity, i, ActivityColumnsOf(inp.activity.columns), inp.customers, IndexFor(inp),
      ResolveColumn(LookupFor(inp), SupportAliases), inp.scan, inp.toDatetime, inp.today)
  }

  /** The fields of every activity row, in row order, for given columns. */
  function RowsFields(activity: Table, ac: ActivityColumns, customers: Table, index: map<string, nat>,
                      supportCol: Option<string>, scan: string -> DtScan, toDatetime: Cell -> Stamp, today: Date): (r: seq<Result<Fields>>)
    requires Rectangular(activity) && Rectangular(customers) && IndexInRange(index, |customers.rows|)
    requires today.Representable() && StampsRepresentable(toDatetime)
    ensures |r| == |activity.rows|
    ensures forall i :: 0 <= i < |r| ==>
      r[i] == RowFields(activity, i, ac, customers, index, supportCol, scan, toDatetime, today)
  {
    seq(|activity.rows|, i requires 0 <= i < |activity.rows| =>
      RowFields(activity, i, ac, customers, index, supportCol, scan, toDatetime, today))
  }

  /** The fields of every activity row of the inputs. */
  function AllFields(inp: Inputs): (r: seq<Result<Fields>>)
    requires ValidInputs(inp)
    ensures |r| == |inp.activity.rows|
    ensures forall i :: 0 <= i < |r| ==> r[i] == FieldsOf(inp, i)
  {
    RowsFields(inp.activity, ActivityColumnsOf(inp.activity.columns), inp.customers, IndexFor(inp),
      ResolveColumn(LookupFor(inp), SupportAliases), inp.scan, inp.toDatetime, inp.today)
  }

  /** The records of a list of row fields, or the failure of the first row
      that fails. */
  function Records(templateCols: seq<string>, fs: seq<Result<Fields>>): (r: Result<seq<seq<Cell>>>)
    ensures r.Success? ==> |r.value| == |fs|
  {
    if |fs| == 0 then Success([])
    else
      match Records(templateCols, fs[..|fs| - 1])
      case Failure(e) => Failure(e)
      case Success(rs) =>
        match fs[|fs| - 1]
        case Failure(e) => Failure(e)
        case Success(f) => Success(rs + [Record(templateCols, f)])
  }

  /** `build_output`: the table of records under the template's columns. */
  function Output(inp: Inputs): (r: Result<Table>)
    requires ValidInputs(inp)
    ensures r.Success? ==> r.value.columns == inp.templateCols && |r.value.rows| == |inp.activity.rows|
    ensures r.Success? ==> Rectangular(r.value)
  {
    match Records(inp.templateCols, AllFields(inp))
    case Failure(e) => Failure(e)
    case Success(rows) =>
      RecordsRows(inp.templateCols, AllFields(inp));
      Success(Table(inp.templateCols, rows))
  }

  /** `build_output` step by step: the id index, then one record per row. */
  method BuildOutput(inp: Inputs) returns (r: Result<Table>)
    requires ValidInputs(inp)
    ensures r == Output(inp)
  {
    var lookup := LookupFor(inp);
    var supportCol := ResolveColumn(lookup, SupportAliases);
    var ac := ActivityColumnsOf(inp.activity.columns);
    var keys := IdKeysFor(inp);
    var index := BuildIdIndex(keys);
    var records := BuildRecords(inp.activity, ac, inp.customers, index, supportCol, inp.scan, inp.toDatetime, inp.today, inp.templateCols);
    match records
    case Failure(e) => r := Failure(e);
    case Success(rows) => r := Success(Table(inp.templateCols, rows));
  }

  /** The loop over the activity rows, one record per row, stopping at the
      first row whose date range fails. */
  method BuildRecords(activity: Table, ac: ActivityColumns, customers: Table, index: map<string, nat>,
                      supportCol: Option<string>, scan: string -> DtScan, toDatetime: Cell -> Stamp, today: Date,
                      templateCols: seq<string>)
    returns (r: Result<seq<seq<Cell>>>)
    requires Rectangular(activity) && Rectangular(customers) && IndexInRange(index, |customers.rows|)
    requires today.Representable() && StampsRepresentable(toDatetime)
    ensures r == Records(templateCols, RowsFields(activity, ac, customers, index, supportCol, scan, toDatetime, today))
  {
    ghost var fs := RowsFields(activity, ac, customers, index, supportCol, scan, toDatetime, today);
    var outRows: seq<seq<Cell>> := [];
    var i: nat := 0;
    while i < |activity.rows|
      invariant i <= |activity.rows|
      invariant Records(templateCols, fs[..i]) == Success(outRows)
    {
      var f := RowFields(activity, i, ac, customers, index, supportCol, scan, toDatetime, today);
      RecordsStep(templateCols, fs, i, outRows);
      if f.Failure? {
        return Failure(f.error);
      }
      outRows := outRows + [Record(templateCols, f.value)];
      i := i + 1;
    }
    SliceAll(fs);
    r := Success(outRows);
  }

  lemma SliceAll<T>(s: seq<T>)
    ensures s[..|s|] == s
  {
  }

  /** One more row: its record is appended, or its failure is the result. */
  lemma RecordsStep(templateCols: seq<string>, fs: seq<Result<Fields>>, i: nat, outRows: seq<seq<Cell>>)
    requires i < |fs| && Records(templateCols, fs[..i]) == Success(outRows)
    ensures fs[i].Failure? ==> Records(templateCols, fs) == Failure(fs[i].error)
    ensures fs[i].Success? ==> Records(templateCols, fs[..i + 1]) == Success(outRows + [Record(templateCols, fs[i].value)])
  {
    assert fs[..i + 1][..i] == fs[..i];
    if fs[i].Failure? {
      RecordsFailStays(templateCols, fs, i + 1);
    }
  }

  /** Each record is built from its row's fields. */
  lemma {:induction false} RecordsRows(templateCols: seq<string>, fs: seq<Result<Fields>>)
    requires Records(templateCols, fs).Success?
    ensures forall i :: 0 <= i < |fs| ==>
      fs[i].Success? && Records(templateCols, fs).value[i] == Record(templateCols, fs[i].value)
  {
    if |fs| > 0 {
      var init := fs[..|fs| - 1];
      RecordsRows(templateCols, init);
      forall i | 0 <= i < |fs| - 1 ensures fs[i] == init[i] { }
    }
  }

  /** The records fail exactly when some row fails. */
  lemma {:induction false} RecordsFailure(templateCols: seq<string>, fs: seq<Result<Fields>>)
    ensures Records(templateCols, fs).Failure? <==> exists i :: 0 <= i < |fs| && fs[i].Failure?
  {
    if |fs| > 0 {
      var init := fs[..|fs| - 1];
      RecordsFailure(templateCols, init);
      forall i | 0 <= i < |fs| - 1 ensures fs[i] == init[i] { }
    }
  }

  /** Once the first `n` rows fail, all rows fail with the same message. */
  lemma {:induction false} RecordsFailStays(templateCols: seq<string>, fs: seq<Result<Fields>>, n: nat)
    requires n <= |fs|
    requires Records(templateCols, fs[..n]).Failure?
    ensures Records(templateCols, fs) == Records(templateCols, fs[..n])
    decreases |fs| - n
  {
    if n < |fs| {
      assert fs[..n + 1][..n] == fs[..n];
      RecordsFailStays(templateCols, fs, n + 1);
    } else {
      assert fs[..n] == fs;
    }
  }

  // ---------------------------------------------------------------------
  // Properties of the records

  /** Every cell of the output is the template column's value for its row. */
  lemma OutputCell(inp: Inputs, i: nat, p: nat)
    requires ValidInputs(inp) && Output(inp).Success?
    requires i < |inp.activity.rows| && p < |inp.templateCols|
    ensures FieldsOf(inp, i).Success?
    ensures Output(inp).value.rows[i][p] == Str(FieldValue(inp.templateCols[p], FieldsOf(inp, i).value))
  {
    RecordsRows(inp.templateCols, AllFields(inp));
  }

  /** The output fails exactly when some row's date range fails: the text
      names no valid date and the row's date converts to NaT. */
  lemma OutputFailure(inp: Inputs)
    requires ValidInputs(inp)
    ensures Output(inp).Failure? <==> exists i :: 0 <= i < |inp.activity.rows| && FieldsOf(inp, i).Failure?
  {
    RecordsFailure(inp.templateCols, AllFields(inp));
  }

  /** The status column reads 完了, a column with no rule reads "". */
  lemma FixedColumns(f: Fields, key: string)
    ensures FieldValue("ステータス(必須)", f) == StatusDone
    ensures key !in BodyColumns && key !in RuledColumns ==> FieldValue(key, f) == ""
  {
  }

  /** A row's fields: the id key of its id cell, the action kind of its
      cells, the body of its body cell, the owner of its id key, and a date
      range whose end date is its start date and which reads back as a date. */
  lemma RowFieldsSpec(inp: Inputs, i: nat)
    requires ValidInputs(inp) && i < |inp.activity.rows|
    requires FieldsOf(inp, i).Success?
    ensures var ac := ActivityColumnsOf(inp.activity.columns);
      var f := FieldsOf(inp, i).value;
      f.idKey == IdKey(Get(inp.activity, i, ac.customerId)) &&
      f.action == DecideActionType(Get(inp.activity, i, ac.how), Get(inp.activity, i, ac.kind), Get(inp.activity, i, ac.body)) &&
      f.body == ActionBody(Get(inp.activity, i, ac.body)) && f.body != "" &&
      f.owner == MainOwner(inp.customers, IndexFor(inp), ResolveColumn(LookupFor(inp), SupportAliases), f.idKey) &&
      f.range.endDate == f.range.startDate && DateOfText(f.range.startDate).Some?
  {
  }
}
