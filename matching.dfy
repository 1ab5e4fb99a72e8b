/** `match_customers`: every activity row is given to the first customer of
    the list whose name key occurs in the row's client text (column C, the
    "活動先" column, then column M, then column G); the rows no customer
    claims are dropped, and the matched customer's name, id and kind are
    written into three columns. */
module Matching {
  import opened Strings
  import opened Values
  import opened TextKey
  import opened Columns

  const NameAliases: seq<string> := ["取引先名(必須)", "取引先名", "顧客名", "会社名", "企業名"]
  const IdAliases: seq<string> := ["取引先ID(必須)", "取引先ID", "顧客ID", "会社ID", "顧客コード", "取引先コード"]
  const KubunAliases: seq<string> := ["顧客区分（管理番号:19103）", "顧客区分（管理番号：19103）", "顧客区分", "顧客ランク", "区分"]

  /** The three columns written into the matched rows (the third keeps the
      stray closing bracket of the import format's heading). */
  const NameColumn := "マッチ顧客名"
  const IdColumn := "取引先ID(必須)"
  const KubunColumn := "顧客区分（管理番号:19103）」"

  // ---------------------------------------------------------------------
  // The customer side

  /** `str(name or "")` as written: NaN, pandas' empty cell, is truthy and
      becomes the text "nan". */
  function RawNameAsWritten(c: Cell): (r: string)
    ensures !Truthy(c) ==> r == ""
    ensures c.NaN? ==> r == "nan"
    ensures c.Str? ==> r == c.s
  {
    if Truthy(c) then PyStr(c) else ""
  }

  /** The customer name with a missing cell read as no name, as the `or ""`
      evidently intends. */
  function RawName(c: Cell): (r: string)
    ensures IsNa(c) ==> r == ""
    ensures !IsNa(c) ==> r == RawNameAsWritten(c)
  {
    if IsNa(c) then "" else RawNameAsWritten(c)
  }

  /** `crow.get(col, None) if col else None`. */
  function OptionalCell(t: Table, k: nat, col: Option<string>): (c: Cell)
    requires Rectangular(t) && k < |t.rows|
    ensures col.None? || col.value == "" ==> c == Null
  {
    if col.Some? && col.value != "" then CellAt(t, k, col.value) else Null
  }

  /** The name of every customer row, in order, as written: a text cell
      gives its text, an empty (NaN) cell "nan", a falsy cell "". */
  function CustomerNames(t: Table, nameCol: string): (r: seq<string>)
    requires Rectangular(t)
    ensures |r| == |t.rows|
    ensures forall k :: 0 <= k < |r| && CellAt(t, k, nameCol).Str? ==> r[k] == CellAt(t, k, nameCol).s
    ensures forall k :: 0 <= k < |r| && CellAt(t, k, nameCol).NaN? ==> r[k] == "nan"
    ensures forall k :: 0 <= k < |r| && !Truthy(CellAt(t, k, nameCol)) ==> r[k] == ""
  {
    seq(|t.rows|, k requires 0 <= k < |t.rows| => RawNameAsWritten(CellAt(t, k, nameCol)))
  }

  /** The customer names with a missing cell read as no name. */
  function CustomerNamesCorrected(t: Table, nameCol: string): (r: seq<string>)
    requires Rectangular(t)
    ensures |r| == |t.rows|
    ensures forall k :: 0 <= k < |r| && IsNa(CellAt(t, k, nameCol)) ==> r[k] == ""
    ensures forall k :: 0 <= k < |r| && !IsNa(CellAt(t, k, nameCol)) ==> r[k] == CustomerNames(t, nameCol)[k]
  {
    seq(|t.rows|, k requires 0 <= k < |t.rows| => RawName(CellAt(t, k, nameCol)))
  }

  function CustomerCells(t: Table, col: Option<string>): (r: seq<Cell>)
    requires Rectangular(t)
    ensures |r| == |t.rows|
  {
    seq(|t.rows|, k requires 0 <= k < |t.rows| => OptionalCell(t, k, col))
  }

  /** The match key of every customer. */
  function Keys(names: seq<string>): (r: seq<string>)
    ensures |r| == |names|
  {
    seq(|names|, k requires 0 <= k < |names| => NormalizeText(names[k]))
  }

  // ---------------------------------------------------------------------
  // The activity side

  /** The label of column C: "活動先" if present, else the third column. */
  function ColumnC(cols: seq<string>): (r: Option<string>)
    ensures r.Some? ==> r.value in cols
    ensures "活動先" in cols ==> r == Some("活動先")
    ensures "活動先" !in cols ==> (r.Some? <==> |cols| >= 3) && (r.Some? ==> r.value == cols[2])
  {
    PickCol(cols, "活動先", 2)
  }

  /** Column M, the thirteenth, when present. */
  function ColumnM(cols: seq<string>): (r: Option<string>)
    ensures r.Some? <==> |cols| >= 13
    ensures r.Some? ==> r.value in cols && r.value == cols[12]
  {
    if |cols| > 12 then Some(cols[12]) else None
  }

  /** Column G, the seventh, when present. */
  function ColumnG(cols: seq<string>): (r: Option<string>)
    ensures r.Some? <==> |cols| >= 7
    ensures r.Some? ==> r.value in cols && r.value == cols[6]
  {
    if |cols| > 6 then Some(cols[6]) else None
  }

  /** The key of every row's cell in `col`: text cells are normalised, other
      cells and a missing (or empty-named) column give "". */
  function NormColumn(t: Table, col: Option<string>): (r: seq<string>)
    requires Rectangular(t)
    ensures |r| == |t.rows|
    ensures col.None? || col.value == "" ==> forall i :: 0 <= i < |r| ==> r[i] == ""
  {
    seq(|t.rows|, i requires 0 <= i < |t.rows| =>
      if col.Some? && col.value != "" then NormalizeCell(CellAt(t, i, col.value)) else "")
  }

  // ---------------------------------------------------------------------
  // The specification of the matching

  /** The customer key occurs in the row's C, M or G key. */
  predicate RowHit(key: string, c: string, m: string, g: string) {
    key != "" && (Contains(c, key) || Contains(m, key) || Contains(g, key))
  }

  /** Among the first `k` customers, the earliest whose non-empty key occurs
      in the row's texts. */
  function Claimant(keys: seq<string>, k: nat, c: string, m: string, g: string): (r: Option<nat>)
    requires k <= |keys|
    ensures r.Some? ==> r.value < k && RowHit(keys[r.value], c, m, g)
    ensures r.Some? ==> forall j :: 0 <= j < r.value ==> !RowHit(keys[j], c, m, g)
    ensures r.None? <==> forall j :: 0 <= j < k ==> !RowHit(keys[j], c, m, g)
  {
    if k == 0 then None
    else
      var p := Claimant(keys, k - 1, c, m, g);
      if p.Some? then p
      else if RowHit(keys[k - 1], c, m, g) then Some(k - 1)
      else None
  }

  /** One more customer: a claimed row stays claimed, an unclaimed one goes
      to the new customer if its key hits. */
  lemma ClaimantStep(keys: seq<string>, k: nat, c: string, m: string, g: string)
    requires k < |keys|
    ensures Claimant(keys, k + 1, c, m, g) ==
      if Claimant(keys, k, c, m, g).Some? then Claimant(keys, k, c, m, g)
      else if RowHit(keys[k], c, m, g) then Some(k) else None
  {
  }

  /** Once a row is claimed, later customers do not take it over. */
  lemma ClaimantSettled(keys: seq<string>, k: nat, k': nat, c: string, m: string, g: string)
    requires k <= k' <= |keys|
    requires Claimant(keys, k, c, m, g).Some?
    ensures Claimant(keys, k', c, m, g) == Claimant(keys, k, c, m, g)
  {
    var j := Claimant(keys, k, c, m, g).value;
    var r := Claimant(keys, k', c, m, g);
    assert r.Some? by {
      assert RowHit(keys[j], c, m, g);
    }
    assert !(r.value < j);
    assert !(j < r.value);
  }

  /** The owner of every activity row. */
  function Owners(keys: seq<string>, normC: seq<string>, normM: seq<string>, normG: seq<string>): (r: seq<Option<nat>>)
    requires |normM| == |normC| && |normG| == |normC|
    ensures |r| == |normC|
  {
    seq(|normC|, i requires 0 <= i < |normC| => Claimant(keys, |keys|, normC[i], normM[i], normG[i]))
  }

  /** The value written for a row with the given owner. */
  function Assigned<T>(values: seq<T>, owner: Option<nat>, none: T): T
  {
    if owner.Some? && owner.value < |values| then values[owner.value] else none
  }

  /** The indices of the claimed rows, in ascending order. */
  function MatchedIndices<T>(owners: seq<Option<T>>): (r: seq<nat>)
    ensures forall j :: 0 <= j < |r| ==> r[j] < |owners| && owners[r[j]].Some?
    ensures forall j, j' :: 0 <= j < j' < |r| ==> r[j] < r[j']
    ensures forall i :: 0 <= i < |owners| && owners[i].Some? ==> i in r
  {
    if owners == [] then []
    else
      var init := MatchedIndices(owners[..|owners| - 1]);
      if owners[|owners| - 1].Some? then init + [|owners| - 1] else init
  }

  /** Which rows are kept depends only on which are claimed. */
  lemma {:induction false} SameIndices<T, U>(xs: seq<Option<T>>, ys: seq<Option<U>>)
    requires |xs| == |ys| && forall i :: 0 <= i < |xs| ==> (xs[i].Some? <==> ys[i].Some?)
    ensures MatchedIndices(xs) == MatchedIndices(ys)
  {
    if xs != [] {
      SameIndices(xs[..|xs| - 1], ys[..|ys| - 1]);
    }
  }

  /** `[i for i in range(n) if matched_name[i] is not None]`. */
  method KeptIndices<T>(matched: seq<Option<T>>) returns (idx: seq<nat>)
    ensures idx == MatchedIndices(matched)
  {
    idx := [];
    var i: nat := 0;
    while i < |matched|
      invariant i <= |matched|
      invariant idx == MatchedIndices(matched[..i])
    {
      assert matched[..i + 1][..i] == matched[..i];
      if matched[i].Some? {
        idx := idx + [i];
      }
      i := i + 1;
    }
    assert matched[..|matched|] == matched;
  }

  // ---------------------------------------------------------------------
  // The output frame

  /** `out[name] = values`: an existing column is overwritten in place, a new
      one is appended. */
  function SetColumn(t: Table, name: string, values: seq<Cell>): (r: Table)
    requires Rectangular(t) && |values| == |t.rows|
    ensures Rectangular(r) && |r.rows| == |t.rows|
    ensures name in r.columns
    ensures name in t.columns ==> r.columns == t.columns
    ensures name !in t.columns ==> r.columns == t.columns + [name]
  {
    match IndexOf(t.columns, name)
    case Some(p) =>
      Table(t.columns, seq(|t.rows|, i requires 0 <= i < |t.rows| => t.rows[i][p := values[i]]))
    case None =>
      Table(t.columns + [name], seq(|t.rows|, i requires 0 <= i < |t.rows| => t.rows[i] + [values[i]]))
  }

  /** Appending a label does not move an existing one. */
  lemma {:induction false} IndexOfAppend(cols: seq<string>, x: string, name: string)
    requires name in cols
    ensures IndexOf(cols + [x], name) == IndexOf(cols, name)
  {
    if cols[0] != name {
      assert (cols + [x])[1..] == cols[1..] + [x];
      IndexOfAppend(cols[1..], x, name);
    }
  }

  /** The column written is read back as the values given. */
  lemma SetColumnAt(t: Table, name: string, values: seq<Cell>, i: nat)
    requires Rectangular(t) && |values| == |t.rows| && i < |t.rows|
    ensures CellAt(SetColumn(t, name, values), i, name) == values[i]
  {
    var r := SetColumn(t, name, values);
    if name !in t.columns {
      assert IndexOf(r.columns, name) == Some(|t.columns|);
    }
  }

  /** Every other column keeps its cells. */
  lemma SetColumnOther(t: Table, name: string, values: seq<Cell>, i: nat, other: string)
    requires Rectangular(t) && |values| == |t.rows| && i < |t.rows| && other != name
    ensures CellAt(SetColumn(t, name, values), i, other) == CellAt(t, i, other)
  {
    var r := SetColumn(t, name, values);
    if other in t.columns && name !in t.columns {
      IndexOfAppend(t.columns, name, other);
    }
  }

  /** The rows at the given indices, in that order (`iloc`). */
  function RowsAt(t: Table, idx: seq<nat>): (r: Table)
    requires Rectangular(t) && forall j :: 0 <= j < |idx| ==> idx[j] < |t.rows|
    ensures Rectangular(r) && |r.rows| == |idx| && r.columns == t.columns
    ensures forall j :: 0 <= j < |idx| ==> r.rows[j] == t.rows[idx[j]]
  {
    Table(t.columns, seq(|idx|, j requires 0 <= j < |idx| => t.rows[idx[j]]))
  }

  /** The name written into each kept row: its owner's name. */
  function NameCells(names: seq<string>, owners: seq<Option<nat>>, idx: seq<nat>): (r: seq<Cell>)
    requires forall j :: 0 <= j < |idx| ==> idx[j] < |owners|
    ensures |r| == |idx|
  {
    seq(|idx|, j requires 0 <= j < |idx| =>
      if owners[idx[j]].Some? then Str(Assigned(names, owners[idx[j]], "")) else Null)
  }

  /** The id or kind written into each kept row: its owner's. */
  function ClaimedCells(values: seq<Cell>, owners: seq<Option<nat>>, idx: seq<nat>): (r: seq<Cell>)
    requires forall j :: 0 <= j < |idx| ==> idx[j] < |owners|
    ensures |r| == |idx|
  {
    seq(|idx|, j requires 0 <= j < |idx| => Assigned(values, owners[idx[j]], Null))
  }

  /** The result of `match_customers` for given customer names, ids and
      kinds and the row keys of the activity frame. */
  function MatchedFrame(activity: Table, names: seq<string>, ids: seq<Cell>, kbns: seq<Cell>,
                        normC: seq<string>, normM: seq<string>, normG: seq<string>): (r: Table)
    requires Rectangular(activity)
    requires |normC| == |activity.rows| && |normM| == |normC| && |normG| == |normC|
    ensures Rectangular(r)
  {
    var owners := Owners(Keys(names), normC, normM, normG);
    var idx := MatchedIndices(owners);
    var t1 := SetColumn(RowsAt(activity, idx), NameColumn, NameCells(names, owners, idx));
    var t2 := SetColumn(t1, IdColumn, ClaimedCells(ids, owners, idx));
    SetColumn(t2, KubunColumn, ClaimedCells(kbns, owners, idx))
  }

  /** `match_customers` on the two frames: it fails when the customer list has
      no name column. */
  function Matching(customers: Table, activity: Table): (r: Result<Table>)
    requires Rectangular(customers) && Rectangular(activity)
    ensures r.Failure? <==> ResolveColumn(LookupOf(customers.columns), NameAliases).None?
  {
    var lookup := LookupOf(customers.columns);
    match ResolveColumn(lookup, NameAliases)
    case None => Failure("顧客リストに必要な顧客名の列が見つかりません。")
    case Some(nameCol) =>
      var cols := activity.columns;
      Success(MatchedFrame(activity,
        CustomerNames(customers, nameCol),
        CustomerCells(customers, ResolveColumn(lookup, IdAliases)),
        CustomerCells(customers, ResolveColumn(lookup, KubunAliases)),
        NormColumn(activity, ColumnC(cols)), NormColumn(activity, ColumnM(cols)), NormColumn(activity, ColumnG(cols))))
  }

  // ---------------------------------------------------------------------
  // The loop

  /** The rows 0 .. n-1 (`set(range(n))`). */
  function AllRows(n: nat): (r: set<nat>)
    ensures forall i :: i in r <==> 0 <= i < n
  {
    if n == 0 then {} else AllRows(n - 1) + {n - 1}
  }

  /** One pass of the customer step: the candidates whose text holds the key. */
  method ScanRows(candidates: set<nat>, key: string, texts: seq<string>) returns (hits: set<nat>)
    ensures forall i :: i in hits <==> i in candidates && i < |texts| && Contains(texts[i], key)
  {
    hits := {};
    var rest := candidates;
    while rest != {}
      invariant rest <= candidates
      invariant forall i :: i in hits <==> i in candidates && i !in rest && i < |texts| && Contains(texts[i], key)
      decreases |rest|
    {
      var i :| i in rest;
      if i < |texts| && Contains(texts[i], key) {
        hits := hits + {i};
      }
      rest := rest - {i};
    }
  }

  /** The rows still unclaimed that a customer with key `key` claims: those
      whose C text holds it, then those whose M text, then those whose G text. */
  method CollectHits(remaining: set<nat>, key: string, normC: seq<string>, normM: seq<string>, normG: seq<string>)
    returns (toFix: set<nat>)
    requires key != "" && |normM| == |normC| && |normG| == |normC|
    ensures forall i :: i in toFix <==> i in remaining && i < |normC| && RowHit(key, normC[i], normM[i], normG[i])
  {
    var onC := ScanRows(remaining, key, normC);
    var onM := ScanRows(remaining - onC, key, normM);
    var onG := ScanRows(remaining - onC - onM, key, normG);
    toFix := onC + onM + onG;
  }

  /** The three output values of a row agree with its owner. */
  predicate Agrees(name: Option<string>, id: Cell, kbn: Cell, names: seq<string>, ids: seq<Cell>, kbns: seq<Cell>, o: Option<nat>) {
    name == (if o.Some? then Some(Assigned(names, o, "")) else None) &&
    id == Assigned(ids, o, Null) && kbn == Assigned(kbns, o, Null)
  }

  /** `for i in to_fix`: the rows in `toFix` get the customer's name, id and
      kind; the others keep theirs. */
  method ClaimRows(matchedName: seq<Option<string>>, matchedId: seq<Cell>, matchedKbn: seq<Cell>,
                   toFix: set<nat>, name: string, id: Cell, kbn: Cell)
    returns (newName: seq<Option<string>>, newId: seq<Cell>, newKbn: seq<Cell>)
    requires |matchedId| == |matchedName| && |matchedKbn| == |matchedName|
    requires forall i :: i in toFix ==> i < |matchedName|
    ensures |newName| == |matchedName| && |newId| == |matchedName| && |newKbn| == |matchedName|
    ensures forall i :: 0 <= i < |matchedName| && i in toFix ==>
      newName[i] == Some(name) && newId[i] == id && newKbn[i] == kbn
    ensures forall i :: 0 <= i < |matchedName| && i !in toFix ==>
      newName[i] == matchedName[i] && newId[i] == matchedId[i] && newKbn[i] == matchedKbn[i]
  {
    newName, newId, newKbn := matchedName, matchedId, matchedKbn;
    var rest := toFix;
    while rest != {}
      invariant rest <= toFix
      invariant |newName| == |matchedName| && |newId| == |matchedName| && |newKbn| == |matchedName|
      invariant forall i :: 0 <= i < |matchedName| && i in toFix && i !in rest ==>
        newName[i] == Some(name) && newId[i] == id && newKbn[i] == kbn
      invariant forall i :: 0 <= i < |matchedName| && (i !in toFix || i in rest) ==>
        newName[i] == matchedName[i] && newId[i] == matchedId[i] && newKbn[i] == matchedKbn[i]
      decreases |rest|
    {
      var i :| i in rest;
      newName := newName[i := Some(name)];
      newId := newId[i := id];
      newKbn := newKbn[i := kbn];
      rest := rest - {i};
    }
  }

  /** The state of the loop after the first `k` customers: the unclaimed
      rows are those no such customer claims, and every row carries the
      name, id and kind of its claimant among them. */
  ghost predicate Settled(keys: seq<string>, k: nat, names: seq<string>, ids: seq<Cell>, kbns: seq<Cell>,
                          normC: seq<string>, normM: seq<string>, normG: seq<string>, remaining: set<nat>,
                          matchedName: seq<Option<string>>, matchedId: seq<Cell>, matchedKbn: seq<Cell>)
  {
    k <= |keys| && |normM| == |normC| && |normG| == |normC| &&
    |matchedName| == |normC| && |matchedId| == |normC| && |matchedKbn| == |normC| &&
    (forall i :: i in remaining ==> i < |normC|) &&
    (forall i :: 0 <= i < |normC| ==> (i in remaining <==> Claimant(keys, k, normC[i], normM[i], normG[i]).None?)) &&
    (forall i :: 0 <= i < |normC| ==>
      Agrees(matchedName[i], matchedId[i], matchedKbn[i], names, ids, kbns, Claimant(keys, k, normC[i], normM[i], normG[i])))
  }

  /** Before the first customer every row is unclaimed and carries nothing. */
  lemma NoneClaimedYet(keys: seq<string>, names: seq<string>, ids: seq<Cell>, kbns: seq<Cell>,
                       normC: seq<string>, normM: seq<string>, normG: seq<string>)
    requires |normM| == |normC| && |normG| == |normC|
    ensures Settled(keys, 0, names, ids, kbns, normC, normM, normG, AllRows(|normC|),
      seq(|normC|, _ => None), seq(|normC|, _ => Null), seq(|normC|, _ => Null))
  {
  }

  /** After the last customer every row carries its owner's name, id and kind. */
  lemma SettledAll(keys: seq<string>, names: seq<string>, ids: seq<Cell>, kbns: seq<Cell>,
                   normC: seq<string>, normM: seq<string>, normG: seq<string>, remaining: set<nat>,
                   matchedName: seq<Option<string>>, matchedId: seq<Cell>, matchedKbn: seq<Cell>)
    requires keys == Keys(names)
    requires Settled(keys, |keys|, names, ids, kbns, normC, normM, normG, remaining, matchedName, matchedId, matchedKbn)
    ensures |matchedName| == |normC| && |matchedId| == |normC| && |matchedKbn| == |normC|
    ensures forall i :: 0 <= i < |normC| ==>
      Agrees(matchedName[i], matchedId[i], matchedKbn[i], names, ids, kbns, Owners(Keys(names), normC, normM, normG)[i])
  {
  }

  /** With every row claimed, the later customers change nothing. */
  lemma AllClaimed(keys: seq<string>, k: nat, names: seq<string>, ids: seq<Cell>, kbns: seq<Cell>,
                   normC: seq<string>, normM: seq<string>, normG: seq<string>,
                   matchedName: seq<Option<string>>, matchedId: seq<Cell>, matchedKbn: seq<Cell>)
    requires Settled(keys, k, names, ids, kbns, normC, normM, normG, {}, matchedName, matchedId, matchedKbn)
    ensures Settled(keys, |keys|, names, ids, kbns, normC, normM, normG, {}, matchedName, matchedId, matchedKbn)
  {
    forall i | 0 <= i < |normC|
      ensures Claimant(keys, |keys|, normC[i], normM[i], normG[i]) == Claimant(keys, k, normC[i], normM[i], normG[i])
    {
      assert i !in {};
      ClaimantSettled(keys, k, |keys|, normC[i], normM[i], normG[i]);
    }
  }

  /** One customer of the loop: the still unclaimed rows whose text holds
      its non-empty key get its name, id and kind and leave `remaining`. */
  method ClaimForCustomer(ghost keys: seq<string>, k: nat, names: seq<string>, ids: seq<Cell>, kbns: seq<Cell>,
                          normC: seq<string>, normM: seq<string>, normG: seq<string>, remaining: set<nat>,
                          matchedName: seq<Option<string>>, matchedId: seq<Cell>, matchedKbn: seq<Cell>)
    returns (remaining': set<nat>, matchedName': seq<Option<string>>, matchedId': seq<Cell>, matchedKbn': seq<Cell>)
    requires keys == Keys(names) && k < |names| && |ids| == |names| && |kbns| == |names|
    requires Settled(keys, k, names, ids, kbns, normC, normM, normG, remaining, matchedName, matchedId, matchedKbn)
    ensures Settled(keys, k + 1, names, ids, kbns, normC, normM, normG, remaining', matchedName', matchedId', matchedKbn')
  {
    var rawName := names[k];
    var ckey := NormalizeText(rawName);
    assert ckey == keys[k];
    if ckey == "" {
      forall i | 0 <= i < |normC|
        ensures Claimant(keys, k + 1, normC[i], normM[i], normG[i]) == Claimant(keys, k, normC[i], normM[i], normG[i])
      {
        ClaimantStep(keys, k, normC[i], normM[i], normG[i]);
      }
      return remaining, matchedName, matchedId, matchedKbn;
    }
    var toFix := CollectHits(remaining, ckey, normC, normM, normG);
    matchedName', matchedId', matchedKbn' := ClaimRows(matchedName, matchedId, matchedKbn, toFix, rawName, ids[k], kbns[k]);
    remaining' := remaining - toFix;
    forall i | 0 <= i < |normC|
      ensures i in remaining' <==> Claimant(keys, k + 1, normC[i], normM[i], normG[i]).None?
      ensures Agrees(matchedName'[i], matchedId'[i], matchedKbn'[i], names, ids, kbns, Claimant(keys, k + 1, normC[i], normM[i], normG[i]))
    {
      ClaimantStep(keys, k, normC[i], normM[i], normG[i]);
    }
  }

  /** The matching loop: customers in list order, each claiming the rows
      still unclaimed whose text holds its key; a claimed row is never
      reassigned and the loop stops once every row is claimed. */
  method MatchLoop(names: seq<string>, ids: seq<Cell>, kbns: seq<Cell>,
                   normC: seq<string>, normM: seq<string>, normG: seq<string>)
    returns (matchedName: seq<Option<string>>, matchedId: seq<Cell>, matchedKbn: seq<Cell>)
    requires |ids| == |names| && |kbns| == |names|
    requires |normM| == |normC| && |normG| == |normC|
    ensures |matchedName| == |normC| && |matchedId| == |normC| && |matchedKbn| == |normC|
    ensures forall i :: 0 <= i < |normC| ==>
      Agrees(matchedName[i], matchedId[i], matchedKbn[i], names, ids, kbns, Owners(Keys(names), normC, normM, normG)[i])
  {
    var n := |normC|;
    ghost var keys := Keys(names);
    matchedName := seq(n, _ => None);
    matchedId := seq(n, _ => Null);
    matchedKbn := seq(n, _ => Null);
    var remaining: set<nat> := AllRows(n);
    NoneClaimedYet(keys, names, ids, kbns, normC, normM, normG);
    var k := 0;
    while k < |names|
      invariant k <= |names|
      invariant Settled(keys, k, names, ids, kbns, normC, normM, normG, remaining, matchedName, matchedId, matchedKbn)
    {
      remaining, matchedName, matchedId, matchedKbn :=
        ClaimForCustomer(keys, k, names, ids, kbns, normC, normM, normG, remaining, matchedName, matchedId, matchedKbn);
      k := k + 1;
      if remaining == {} {
        AllClaimed(keys, k, names, ids, kbns, normC, normM, normG, matchedName, matchedId, matchedKbn);
        k := |names|;
        break;
      }
    }
    SettledAll(keys, names, ids, kbns, normC, normM, normG, remaining, matchedName, matchedId, matchedKbn);
  }

  /** `[xs[i] for i in idx]`. */
  function Pick<T>(xs: seq<T>, idx: seq<nat>): (r: seq<T>)
    requires forall j :: 0 <= j < |idx| ==> idx[j] < |xs|
    ensures |r| == |idx|
  {
    seq(|idx|, j requires 0 <= j < |idx| => xs[idx[j]])
  }

  /** The loop's lists keep the rows of the owners. */
  lemma ListsFollowOwners(names: seq<string>, ids: seq<Cell>, kbns: seq<Cell>, owners: seq<Option<nat>>,
                          matchedName: seq<Option<string>>, matchedId: seq<Cell>, matchedKbn: seq<Cell>)
    requires |matchedName| == |owners| && |matchedId| == |owners| && |matchedKbn| == |owners|
    requires forall i :: 0 <= i < |owners| ==> Agrees(matchedName[i], matchedId[i], matchedKbn[i], names, ids, kbns, owners[i])
    ensures MatchedIndices(matchedName) == MatchedIndices(owners)
  {
    forall i | 0 <= i < |owners| ensures matchedName[i].Some? <==> owners[i].Some? {
      assert Agrees(matchedName[i], matchedId[i], matchedKbn[i], names, ids, kbns, owners[i]);
    }
    SameIndices(matchedName, owners);
  }

  /** The lists written into the kept rows are the owners' values. */
  lemma PickedCells(names: seq<string>, ids: seq<Cell>, kbns: seq<Cell>, owners: seq<Option<nat>>,
                    matchedName: seq<Option<string>>, matchedId: seq<Cell>, matchedKbn: seq<Cell>, idx: seq<nat>)
    requires |matchedName| == |owners| && |matchedId| == |owners| && |matchedKbn| == |owners|
    requires forall i :: 0 <= i < |owners| ==> Agrees(matchedName[i], matchedId[i], matchedKbn[i], names, ids, kbns, owners[i])
    requires forall j :: 0 <= j < |idx| ==> idx[j] < |owners|
    ensures seq(|idx|, j requires 0 <= j < |idx| =>
      if matchedName[idx[j]].Some? then Str(matchedName[idx[j]].value) else Null) == NameCells(names, owners, idx)
    ensures Pick(matchedId, idx) == ClaimedCells(ids, owners, idx)
    ensures Pick(matchedKbn, idx) == ClaimedCells(kbns, owners, idx)
  {
  }

  /** The end of `match_customers`: the claimed rows in order, with the
      three columns filled from the lists the loop filled. */
  method MatchedRows(activity: Table, names: seq<string>, ids: seq<Cell>, kbns: seq<Cell>,
                     normC: seq<string>, normM: seq<string>, normG: seq<string>,
                     matchedName: seq<Option<string>>, matchedId: seq<Cell>, matchedKbn: seq<Cell>)
    returns (out: Table)
    requires Rectangular(activity)
    requires |normC| == |activity.rows| && |normM| == |normC| && |normG| == |normC|
    requires |matchedName| == |normC| && |matchedId| == |normC| && |matchedKbn| == |normC|
    requires forall i :: 0 <= i < |normC| ==>
      Agrees(matchedName[i], matchedId[i], matchedKbn[i], names, ids, kbns, Owners(Keys(names), normC, normM, normG)[i])
    ensures out == MatchedFrame(activity, names, ids, kbns, normC, normM, normG)
  {
    ghost var owners := Owners(Keys(names), normC, normM, normG);
    var idx := KeptIndices(matchedName);
    ListsFollowOwners(names, ids, kbns, owners, matchedName, matchedId, matchedKbn);
    var nameCells := seq(|idx|, j requires 0 <= j < |idx| =>
      if matchedName[idx[j]].Some? then Str(matchedName[idx[j]].value) else Null);
    var idCells := Pick(matchedId, idx);
    var kbnCells := Pick(matchedKbn, idx);
    PickedCells(names, ids, kbns, owners, matchedName, matchedId, matchedKbn, idx);
    out := RowsAt(activity, idx);
    out := SetColumn(out, NameColumn, nameCells);
    out := SetColumn(out, IdColumn, idCells);
    out := SetColumn(out, KubunColumn, kbnCells);
  }

  /** `match_customers`, step by step as the source computes it. */
  method MatchCustomers(customers: Table, activity: Table) returns (r: Result<Table>)
    requires Rectangular(customers) && Rectangular(activity)
    ensures r == Matching(customers, activity)
  {
    var lookup := BuildColumnLookup(customers.columns);
    var nameCol := ResolveColumn(lookup, NameAliases);
    if nameCol.None? {
      return Failure("顧客リストに必要な顧客名の列が見つかりません。");
    }
    var idCol := ResolveColumn(lookup, IdAliases);
    var kubunCol := ResolveColumn(lookup, KubunAliases);
    var names := CustomerNames(customers, nameCol.value);
    var ids := CustomerCells(customers, idCol);
    var kbns := CustomerCells(customers, kubunCol);
    var cols := activity.columns;
    var normC := NormColumn(activity, ColumnC(cols));
    var normM := NormColumn(activity, ColumnM(cols));
    var normG := NormColumn(activity, ColumnG(cols));
    var matchedName, matchedId, matchedKbn := MatchLoop(names, ids, kbns, normC, normM, normG);
    var out := MatchedRows(activity, names, ids, kbns, normC, normM, normG, matchedName, matchedId, matchedKbn);
    r := Success(out);
  }

  // ---------------------------------------------------------------------
  // Properties of the result

  /** A kept row is read from its activity row in every column other than
      the three written ones. */
  lemma RowsAtCell(t: Table, idx: seq<nat>, j: nat, col: string)
    requires Rectangular(t) && forall j :: 0 <= j < |idx| ==> idx[j] < |t.rows|
    requires j < |idx|
    ensures CellAt(RowsAt(t, idx), j, col) == CellAt(t, idx[j], col)
  {
  }

  /** Row `j` of the result is the `j`-th claimed activity row: it has an
      owner, its name, id and kind cells all come from that one customer,
      and its other cells are those of the activity row. */
  lemma MatchedRowCells(activity: Table, names: seq<string>, ids: seq<Cell>, kbns: seq<Cell>,
                        normC: seq<string>, normM: seq<string>, normG: seq<string>, j: nat, col: string)
    requires Rectangular(activity)
    requires |normC| == |activity.rows| && |normM| == |normC| && |normG| == |normC|
    requires |ids| == |names| && |kbns| == |names|
    requires j < |MatchedIndices(Owners(Keys(names), normC, normM, normG))|
    ensures var owners := Owners(Keys(names), normC, normM, normG);
      var i := MatchedIndices(owners)[j];
      var out := MatchedFrame(activity, names, ids, kbns, normC, normM, normG);
      owners[i].Some? && owners[i].value < |names| &&
      j < |out.rows| &&
      CellAt(out, j, NameColumn) == Str(names[owners[i].value]) &&
      CellAt(out, j, IdColumn) == ids[owners[i].value] &&
      CellAt(out, j, KubunColumn) == kbns[owners[i].value] &&
      (col != NameColumn && col != IdColumn && col != KubunColumn ==> CellAt(out, j, col) == CellAt(activity, i, col))
  {
    var owners := Owners(Keys(names), normC, normM, normG);
    var idx := MatchedIndices(owners);
    var i := idx[j];
    assert owners[i] == Claimant(Keys(names), |names|, normC[i], normM[i], normG[i]);
    var t0 := RowsAt(activity, idx);
    var v1, v2, v3 := NameCells(names, owners, idx), ClaimedCells(ids, owners, idx), ClaimedCells(kbns, owners, idx);
    var t1 := SetColumn(t0, NameColumn, v1);
    var t2 := SetColumn(t1, IdColumn, v2);
    var t3 := SetColumn(t2, KubunColumn, v3);
    SetColumnAt(t0, NameColumn, v1, j);
    SetColumnOther(t1, IdColumn, v2, j, NameColumn);
    SetColumnOther(t2, KubunColumn, v3, j, NameColumn);
    SetColumnAt(t1, IdColumn, v2, j);
    SetColumnOther(t2, KubunColumn, v3, j, IdColumn);
    SetColumnAt(t2, KubunColumn, v3, j);
    if col != NameColumn && col != IdColumn && col != KubunColumn {
      SetColumnOther(t0, NameColumn, v1, j, col);
      SetColumnOther(t1, IdColumn, v2, j, col);
      SetColumnOther(t2, KubunColumn, v3, j, col);
      RowsAtCell(activity, idx, j, col);
    }
  }

  /** Exactly the claimed rows are kept, in their original order. */
  lemma KeptRowsAreClaimed(activity: Table, names: seq<string>, ids: seq<Cell>, kbns: seq<Cell>,
                           normC: seq<string>, normM: seq<string>, normG: seq<string>, i: nat)
    requires Rectangular(activity)
    requires |normC| == |activity.rows| && |normM| == |normC| && |normG| == |normC|
    requires i < |normC|
    ensures var idx := MatchedIndices(Owners(Keys(names), normC, normM, normG));
      |MatchedFrame(activity, names, ids, kbns, normC, normM, normG).rows| == |idx| &&
      (i in idx <==> exists k :: 0 <= k < |names| && RowHit(NormalizeText(names[k]), normC[i], normM[i], normG[i]))
  {
    var keys := Keys(names);
    var owners := Owners(keys, normC, normM, normG);
    assert owners[i] == Claimant(keys, |keys|, normC[i], normM[i], normG[i]);
    if exists k :: 0 <= k < |names| && RowHit(NormalizeText(names[k]), normC[i], normM[i], normG[i]) {
      var k :| 0 <= k < |names| && RowHit(NormalizeText(names[k]), normC[i], normM[i], normG[i]);
      assert RowHit(keys[k], normC[i], normM[i], normG[i]);
    }
  }

  /** A customer whose name is blank never owns a row. */
  lemma BlankNameOwnsNothing(names: seq<string>, normC: seq<string>, normM: seq<string>, normG: seq<string>, k: nat, i: nat)
    requires |normM| == |normC| && |normG| == |normC|
    requires k < |names| && IsBlank(names[k]) && i < |normC|
    ensures Owners(Keys(names), normC, normM, normG)[i] != Some(k)
  {
    assert Keys(names)[k] == "";
  }

  // ---------------------------------------------------------------------
  // The empty name cell

  lemma NanStages()
    ensures !IsBlank("nan") && Nfkc("nan") == "nan" && RemoveSuffixes("nan") == "nan"
  {
    assert !IsSpace("nan"[0]);
    NfkcIdentity("nan");
    SuffixFreeByInitials("nan");
    RemoveSuffixesIdentity("nan");
  }

  lemma NanPunct()
    ensures RemovePunct("nan") == "nan"
  {
  }

  lemma NanDigits()
    ensures RemoveDigits("nan") == "nan"
  {
  }

  lemma NanCase()
    ensures AsciiLower("nan") == "nan" && ToHiragana("nan") == "nan"
  {
  }

  /** As written, an empty name cell gives the key "nan". */
  lemma NanNameKey()
    ensures NormalizeText(RawNameAsWritten(NaN)) == "nan"
  {
    NanStages();
    NanPunct();
    NanDigits();
    NanCase();
    NormalizeStages("nan", "nan", "nan", "nan", "nan", "nan", "nan");
  }

  /** A key that opens the client text is a hit. */
  lemma HitAtStart(key: string, rest: string)
    requires key != []
    ensures RowHit(key, key + rest, "", "")
  {
    assert (key + rest)[0..] == key + rest;
    assert (key + rest)[..|key|] == key;
  }

  /** A single customer whose key hits claims the row. */
  lemma SingleClaimant(key: string, c: string, m: string, g: string)
    requires RowHit(key, c, m, g)
    ensures Claimant([key], 1, c, m, g) == Some(0)
  {
    assert Claimant([key], 0, c, m, g) == None;
  }

  /** A lone customer claims every row whose client text starts with its
      non-empty key. */
  lemma SingleKeyClaims(name: string, rest: string, text: string)
    requires NormalizeText(name) != [] && text == NormalizeText(name) + rest
    ensures Claimant(Keys([name]), 1, text, "", "") == Some(0)
  {
    var key := NormalizeText(name);
    assert Keys([name]) == [key];
    HitAtStart(key, rest);
    SingleClaimant(key, text, "", "");
  }

  /** "nano" is the key of an empty name cell followed by "o". */
  lemma NanoAfterNanKey(name: Cell)
    requires name.NaN?
    ensures NormalizeText(RawNameAsWritten(name)) == "nan"
    ensures "nano" == NormalizeText(RawNameAsWritten(name)) + "o"
  {
    NanNameKey();
    assert RawNameAsWritten(name) == RawNameAsWritten(NaN);
  }

  /** As written, a customer row whose name cell is empty claims every row
      whose client text holds "nan", such as a row for "nano". */
  lemma NanNameClaimsRow(name: Cell)
    requires name.NaN?
    ensures Claimant(Keys([RawNameAsWritten(name)]), 1, "nano", "", "") == Some(0)
  {
    NanoAfterNanKey(name);
    SingleKeyClaims(RawNameAsWritten(name), "o", "nano");
  }

  /** With the empty cell read as no name, such a customer owns no row. */
  lemma MissingNameOwnsNothing(customers: Table, nameCol: string, normC: seq<string>, normM: seq<string>, normG: seq<string>, k: nat, i: nat)
    requires Rectangular(customers) && k < |customers.rows| && IsNa(CellAt(customers, k, nameCol))
    requires |normM| == |normC| && |normG| == |normC| && i < |normC|
    ensures Owners(Keys(CustomerNamesCorrected(customers, nameCol)), normC, normM, normG)[i] != Some(k)
  {
    var names := CustomerNamesCorrected(customers, nameCol);
    assert names[k] == "";
    BlankNameOwnsNothing(names, normC, normM, normG, k, i);
  }
}
