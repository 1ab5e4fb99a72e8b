/** The values a pandas frame cell holds once a sheet or a CSV file has been
    read, distinguished by their Python type, and the Python operations the
    pipeline applies to any cell: `str()`, truthiness and `pd.isna`. */
module Values {
  import opened Strings

  datatype Result<+T> = Success(value: T) | Failure(error: string)

  /** One cell.  `Float` holds a float whose value is integral (printed by
      Python as "<n>.0"); `NaN` is pandas' empty cell (also a float); `Null` is
      Python's None. */
  datatype Cell =
    | Str(s: string)
    | Int(i: int)
    | Float(whole: int)
    | NaN
    | Null

  /** `pd.isna(v)`. */
  predicate IsNa(c: Cell) {
    c.NaN? || c.Null?
  }

  /** Python truthiness (`if v`, `v or ""`): NaN is truthy, as in Python. */
  predicate Truthy(c: Cell): (b: bool)
    ensures c.NaN? ==> b
    ensures c.Null? ==> !b
    ensures c.Str? ==> (b <==> c.s != "")
    ensures c.Int? ==> (b <==> c.i != 0)
  {
    match c
    case Str(s) => s != ""
    case Int(i) => i != 0
    case Float(x) => x != 0
    case NaN => true
    case Null => false
  }

  /** Python's `str(v)`. */
  function PyStr(c: Cell): (r: string)
    ensures c.Str? ==> r == c.s
    ensures c.NaN? ==> r == "nan"
    ensures c.Null? ==> r == "None"
    ensures !c.Str? ==> r != ""
  {
    match c
    case Str(s) => s
    case Int(i) => Decimal(i)
    case Float(x) => Decimal(x) + ".0"
    case NaN => "nan"
    case Null => "None"
  }

  /** `int(str(n)) == n` for an integer cell. */
  lemma PyStrIntRoundTrip(i: int)
    ensures ParseInt(PyStr(Int(i))) == Some(i)
  {
    ParseIntDecimal(i);
  }

  /** The Python type of a cell, as `type(v)` compares it. */
  datatype Kind = KStr | KInt | KFloat | KNone

  function KindOf(c: Cell): Kind {
    match c
    case Str(_) => KStr
    case Int(_) => KInt
    case Float(_) => KFloat
    case NaN => KFloat
    case Null => KNone
  }
}
