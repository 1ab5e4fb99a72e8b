/** `remove_non_header_rows`: finding the real heading row among the first
    rows of a sheet that was read with a wrong header, and dropping the rows
    above it.  The ratios of the source (60 %, 40 %, 50 %) are compared as
    integer cross-multiplications. */
module HeaderRecovery {
  import opened Strings
  import opened Values
  import opened Columns

  /** The words that mark a heading cell, matched in the lower-cased cell. */
  const HeaderKeywords: seq<string> := ["no", "案件", "番号", "活動", "活動先", "案件名", "活動日", "活動者", "組織", "行動", "種別", "実施", "内容", "id", "name", "date", "time"]

  /** The number of rows examined: at most five, and never the last row. */
  const MaxChecked := 5

  /** How many cells satisfy `p`. */
  function Count(row: seq<Cell>, p: Cell -> bool): (n: nat)
    ensures n <= |row|
  {
    if row == [] then 0 else Count(row[..|row| - 1], p) + (if p(row[|row| - 1]) then 1 else 0)
  }

  /** How many aligned pairs of two rows satisfy `p` (`zip` stops at the
      shorter row). */
  function CountPairs(a: seq<Cell>, b: seq<Cell>, p: (Cell, Cell) -> bool): (n: nat)
    ensures n <= |a| && n <= |b|
  {
    if a == [] || b == [] then 0
    else CountPairs(a[1..], b[1..], p) + (if p(a[0], b[0]) then 1 else 0)
  }

  /** A text cell with something other than blanks. */
  predicate Filled(c: Cell) { c.Str? && !IsBlank(c.s) }

  /** A non-empty text cell that holds one of the heading words. */
  predicate KeywordCell(c: Cell) {
    c.Str? && c.s != "" && ContainsAny(AsciiLower(c.s), HeaderKeywords)
  }

  /** A decimal digit, ASCII or full width (`str.isdigit`). */
  predicate IsDigitLike(c: char) { ('0' <= c <= '9') || ('０' <= c <= '９') }

  /** A number (NaN included, it is a float) or a text holding a digit. */
  predicate DataLikeCell(c: Cell) {
    c.Int? || c.Float? || c.NaN? || (c.Str? && exists i :: 0 <= i < |c.s| && IsDigitLike(c.s[i]))
  }

  /** Neither cell is missing or the empty text. */
  predicate Comparable(a: Cell, b: Cell) {
    !IsNa(a) && a != Str("") && !IsNa(b) && b != Str("")
  }

  predicate TypesDiffer(a: Cell, b: Cell) {
    Comparable(a, b) && KindOf(a) != KindOf(b)
  }

  /** At least 60 % of the cells are filled texts. */
  predicate MostlyText(row: seq<Cell>) { 5 * Count(row, Filled) >= 3 * |row| }

  predicate HasKeyword(row: seq<Cell>) { Count(row, KeywordCell) > 0 }

  /** At least 40 % of the comparable pairs differ in type from the next row. */
  predicate TypeShift(row: seq<Cell>, next: seq<Cell>) {
    var total := CountPairs(row, next, Comparable);
    total > 0 && 5 * CountPairs(row, next, TypesDiffer) >= 2 * total
  }

  /** At least half of the cells look like data. */
  predicate DataLike(row: seq<Cell>) { 2 * Count(row, DataLikeCell) >= |row| }

  /** The verdict on one row: heading-like by any of the first three signals
      unless it looks like data.  A row without cells divides by zero. */
  function HeaderVerdict(row: seq<Cell>, next: seq<Cell>): (r: Result<bool>)
    ensures r.Failure? <==> row == []
    ensures r.Success? && DataLike(row) ==> !r.value
    ensures r.Success? && !DataLike(row) ==>
      (r.value <==> MostlyText(row) || HasKeyword(row) || TypeShift(row, next))
  {
    if row == [] then Failure("division by zero")
    else Success((MostlyText(row) || HasKeyword(row) || TypeShift(row, next)) && !DataLike(row))
  }

  /** The number of rows examined in a frame of `n` rows. */
  function Checked(n: nat): nat
    requires n >= 1
  {
    if n - 1 < MaxChecked then n - 1 else MaxChecked
  }

  /** The first heading-like row among rows k .. limit-1, or None. */
  function FirstHeader(rows: seq<seq<Cell>>, k: nat, limit: nat): (r: Result<Option<nat>>)
    requires limit < |rows|
    ensures r.Success? && r.value.Some? ==> k <= r.value.value < limit
    decreases limit - k
  {
    if k >= limit then Success(None)
    else
      match HeaderVerdict(rows[k], rows[k + 1])
      case Failure(e) => Failure(e)
      case Success(true) => Success(Some(k))
      case Success(false) => FirstHeader(rows, k + 1, limit)
  }

  /** `header_values`: missing and empty cells become "", the rest `str()`. */
  function HeaderLabel(c: Cell): (r: string)
    ensures c.Str? ==> r == c.s
    ensures IsNa(c) ==> r == ""
  {
    if IsNa(c) || c == Str("") then "" else PyStr(c)
  }

  /** The new column labels: the heading row's cells, one for one. */
  function HeaderLabels(row: seq<Cell>): (r: seq<string>)
    ensures |r| == |row|
    ensures forall j :: 0 <= j < |row| ==> r[j] == HeaderLabel(row[j])
  {
    seq(|row|, j requires 0 <= j < |row| => HeaderLabel(row[j]))
  }

  /** `remove_non_header_rows` as a function of the frame. */
  function Recover(t: Table): (r: Result<Table>)
    requires Rectangular(t)
    ensures |t.rows| <= 1 ==> r == Success(t)
    ensures r.Success? ==> |r.value.rows| <= |t.rows| && r.value.rows == t.rows[|t.rows| - |r.value.rows|..]
  {
    if |t.rows| <= 1 then Success(t)
    else
      match FirstHeader(t.rows, 0, Checked(|t.rows|))
      case Failure(e) => Failure(e)
      case Success(Some(k)) => Success(Table(HeaderLabels(t.rows[k]), t.rows[k + 1..]))
      case Success(None) => Success(Table(t.columns, t.rows[Checked(|t.rows|)..]))
  }

  /** The scanning loop of the source: rows are examined in order until one
      looks like a heading; every row judged not heading-like is counted
      for removal. */
  method ScanForHeader(rows: seq<seq<Cell>>, limit: nat) returns (r: Result<Option<nat>>, rowsToRemove: nat)
    requires limit < |rows|
    ensures r == FirstHeader(rows, 0, limit)
    ensures r.Success? && r.value.None? ==> rowsToRemove == limit
  {
    rowsToRemove := 0;
    var checkRow := 0;
    while checkRow < limit
      invariant 0 <= checkRow <= limit
      invariant rowsToRemove == checkRow
      invariant FirstHeader(rows, 0, limit) == FirstHeader(rows, checkRow, limit)
    {
      var verdict := HeaderVerdict(rows[checkRow], rows[checkRow + 1]);
      if verdict.Failure? {
        return Failure(verdict.error), rowsToRemove;
      }
      if verdict.value {
        return Success(Some(checkRow)), rowsToRemove;
      }
      rowsToRemove := rowsToRemove + 1;
      checkRow := checkRow + 1;
    }
    return Success(None), rowsToRemove;
  }

  /** `header_values` over the heading row, cell by cell. */
  method BuildHeaderLabels(heading: seq<Cell>) returns (labels: seq<string>)
    ensures labels == HeaderLabels(heading)
  {
    var labelOf: Cell -> string := HeaderLabel;
    labels := [];
    var j := 0;
    while j < |heading|
      invariant 0 <= j <= |heading|
      invariant |labels| == j
      invariant forall k :: 0 <= k < j ==> labels[k] == labelOf(heading[k])
    {
      labels := labels + [labelOf(heading[j])];
      j := j + 1;
    }
  }

  /** The loop of the source: the first heading-like row becomes the column
      labels and the rows up to it are dropped; when none is found, all
      examined rows are dropped. */
  method RemoveNonHeaderRows(t: Table) returns (r: Result<Table>)
    requires Rectangular(t)
    ensures r == Recover(t)
  {
    var n := |t.rows|;
    if n <= 1 {
      return Success(t);
    }
    var limit := Checked(n);
    var found, rowsToRemove := ScanForHeader(t.rows, limit);
    match found
    case Failure(e) =>
      r := Failure(e);
    case Success(Some(k)) =>
      var labels := BuildHeaderLabels(t.rows[k]);
      r := Success(Table(labels, t.rows[k + 1..]));
    case Success(None) =>
      // A frame of two or more rows examines at least one, so the source's
      // `rows_to_remove > 0` test always holds here.
      r := Success(Table(t.columns, t.rows[rowsToRemove..]));
  }

  /** A frame of two or more rows keeps at least one row and loses at least
      one; the rows kept are the tail of the frame, in order. */
  lemma RecoverBounds(t: Table)
    requires Rectangular(t) && |t.rows| >= 2
    ensures Recover(t).Success? ==>
      1 <= |Recover(t).value.rows| <= |t.rows| - 1 &&
      Recover(t).value.rows == t.rows[|t.rows| - |Recover(t).value.rows|..]
  {
    var limit := Checked(|t.rows|);
    var f := FirstHeader(t.rows, 0, limit);
    if f.Success? && f.value.Some? {
      assert f.value.value < limit;
    }
  }

  /** A frame of at most one row is returned as it is. */
  lemma ShortFrameUnchanged(t: Table)
    requires Rectangular(t) && |t.rows| <= 1
    ensures Recover(t) == Success(t)
  {
  }

  /** The rows before a heading row found by the scan were all judged
      not heading-like, and the heading row itself was. */
  lemma {:induction false} FirstHeaderIsFirst(rows: seq<seq<Cell>>, k: nat, limit: nat)
    requires limit < |rows|
    requires FirstHeader(rows, k, limit).Success?
    ensures forall j :: k <= j < limit && (FirstHeader(rows, k, limit).value.None? || j < FirstHeader(rows, k, limit).value.value) ==>
      HeaderVerdict(rows[j], rows[j + 1]) == Success(false)
    ensures FirstHeader(rows, k, limit).value.Some? ==>
      HeaderVerdict(rows[FirstHeader(rows, k, limit).value.value], rows[FirstHeader(rows, k, limit).value.value + 1]) == Success(true)
    decreases limit - k
  {
    if k < limit && HeaderVerdict(rows[k], rows[k + 1]) == Success(false) {
      FirstHeaderIsFirst(rows, k + 1, limit);
    }
  }

  /** A row that looks like data is never taken as the heading, whatever
      else it holds. */
  lemma DataRowNeverHeading(t: Table, k: nat)
    requires Rectangular(t) && |t.rows| >= 2
    requires FirstHeader(t.rows, 0, Checked(|t.rows|)) == Success(Some(k))
    ensures !DataLike(t.rows[k])
  {
    FirstHeaderIsFirst(t.rows, 0, Checked(|t.rows|));
  }

  /** At most five rows are examined. */
  lemma AtMostFiveChecked(n: nat)
    requires n >= 2
    ensures Checked(n) <= MaxChecked && Checked(n) <= n - 1 && Checked(n) >= 1
  {
  }
}
