/** Column addressing in matsurica_integrated_tool.py: the label key used to
    find customer columns under alternative names (`normalize_column_label`,
    `build_column_lookup`, `resolve_column`) and the name-or-position lookups
    of activity columns (`find_col`, `pick_col`). */
module Columns {
  import opened Strings
  import opened Values
  import opened TextKey

  /** A data frame: column labels and rows of cells, one per column. */
  datatype Table = Table(columns: seq<string>, rows: seq<seq<Cell>>)

  predicate Rectangular(t: Table) {
    forall i :: 0 <= i < |t.rows| ==> |t.rows[i]| == |t.columns|
  }

  /** The position of the first column labelled `name`. */
  function IndexOf(cols: seq<string>, name: string): (r: Option<nat>)
    ensures r.Some? <==> name in cols
    ensures r.Some? ==> r.value < |cols| && cols[r.value] == name &&
                        forall j :: 0 <= j < r.value ==> cols[j] != name
  {
    if cols == [] then None
    else if cols[0] == name then Some(0)
    else
      var r := IndexOf(cols[1..], name);
      if r.Some? then Some(r.value + 1) else None
  }

  /** The cell of row `i` in the column labelled `name` (NaN when the frame has
      no such column, as `row.get(name)` on a missing key would not raise but
      give nothing to match). */
  function CellAt(t: Table, i: nat, name: string): (c: Cell)
    requires Rectangular(t) && i < |t.rows|
    ensures name !in t.columns ==> c == NaN
    ensures name in t.columns ==> c in t.rows[i]
  {
    match IndexOf(t.columns, name)
    case None => NaN
    case Some(k) => t.rows[i][k]
  }

  // ---------------------------------------------------------------------
  // normalize_column_label

  predicate IsOpener(c: char) { c == '(' || c == '（' }
  predicate IsCloser(c: char) { c == ')' || c == '）' }

  /** The position of the first closing bracket. */
  function FindCloser(s: string): (r: Option<nat>)
    ensures r.Some? ==> r.value < |s| && IsCloser(s[r.value]) &&
                        forall j :: 0 <= j < r.value ==> !IsCloser(s[j])
    ensures r.None? ==> forall j :: 0 <= j < |s| ==> !IsCloser(s[j])
  {
    if s == [] then None
    else if IsCloser(s[0]) then Some(0)
    else
      var r := FindCloser(s[1..]);
      if r.Some? then Some(r.value + 1) else None
  }

  /** The substitution of the bracket pattern by "": scanning left to right,
      an opening bracket followed somewhere by a closing one is removed
      together with everything up to the first closing bracket. */
  function RemoveAnnotations(s: string): (r: string)
    ensures |r| <= |s|
    decreases |s|
  {
    if s == [] then []
    else if IsOpener(s[0]) && FindCloser(s[1..]).Some? then
      RemoveAnnotations(s[FindCloser(s[1..]).value + 2..])
    else [s[0]] + RemoveAnnotations(s[1..])
  }

  /** The separator class: whitespace, colons, underscores, middle dots,
      slashes, commas, periods and the hyphen. */
  predicate IsSeparator(c: char) {
    IsSpace(c) || c == ':' || c == '_' || c == '：' || c == '・' || c == '･' ||
    c == '／' || c == '/' || c == '、' || c == '，' || c == ',' || c == '.' || c == '-'
  }

  function RemoveSeparators(s: string): (r: string)
    ensures forall i :: 0 <= i < |r| ==> !IsSeparator(r[i])
    ensures (forall i :: 0 <= i < |s| ==> !IsSeparator(s[i])) ==> r == s
  {
    if s == [] then []
    else if IsSeparator(s[0]) then RemoveSeparators(s[1..])
    else [s[0]] + RemoveSeparators(s[1..])
  }

  /** `normalize_column_label` of a text: NFKC, bracketed annotations
      removed, the word 必須 removed, separators removed, stripped.  The key
      never contains whitespace or a separator. */
  function NormalizeColumnLabel(heading: string): (r: string)
    ensures forall i :: 0 <= i < |r| ==> !IsSeparator(r[i])
  {
    var t := RemoveSeparators(ReplaceAll(RemoveAnnotations(Nfkc(heading)), "必須", ""));
    StripNoSpace(t);
    Strip(t)
  }

  lemma StripNoSpace(t: string)
    requires forall i :: 0 <= i < |t| ==> !IsSeparator(t[i])
    ensures Strip(t) == t
  {
    assert t == [] || !IsSpace(t[0]);
    assert t == [] || !IsSpace(t[|t| - 1]);
    StripKeepsEnd(t);
  }

  /** Full-width and half-width spellings of a label share its key. */
  lemma LabelWidthInsensitive(heading: string)
    ensures NormalizeColumnLabel(Nfkc(heading)) == NormalizeColumnLabel(heading)
  {
    NfkcIdempotent(heading);
  }

  lemma {:induction false} RemoveAnnotationsPrefix(a: string, b: string)
    requires forall i :: 0 <= i < |a| ==> !IsOpener(a[i])
    ensures RemoveAnnotations(a + b) == a + RemoveAnnotations(b)
    decreases |a|
  {
    if a != [] {
      assert (a + b)[0] == a[0];
      assert (a + b)[1..] == a[1..] + b;
      RemoveAnnotationsPrefix(a[1..], b);
    } else {
      assert a + b == b;
    }
  }

  /** A bracketed annotation at the front, up to its first closing bracket,
      is removed whole, whatever follows it. */
  lemma AnnotationDropped(o: char, x: string, c: char, b: string)
    requires IsOpener(o) && IsCloser(c)
    requires forall i :: 0 <= i < |x| ==> !IsCloser(x[i])
    ensures RemoveAnnotations([o] + x + [c] + b) == RemoveAnnotations(b)
  {
    var s := [o] + x + [c] + b;
    FirstCloser(x, c, b);
    assert s[1..] == x + [c] + b;
    assert s[|x| + 2..] == b;
  }

  lemma {:induction false} FirstCloser(x: string, c: char, b: string)
    requires IsCloser(c)
    requires forall i :: 0 <= i < |x| ==> !IsCloser(x[i])
    ensures FindCloser(x + [c] + b) == Some(|x|)
  {
    if x != [] {
      assert (x + [c] + b)[1..] == x[1..] + [c] + b;
      FirstCloser(x[1..], c, b);
    }
  }

  lemma RequiredMarkVanishes()
    ensures RemoveAnnotations("(必須)") == ""
    ensures Nfkc("(必須)") == "(必須)" && Nfkc("（必須）") == "(必須)"
  {
    var m := "(必須)";
    assert m[1..] == "必須)";
    assert FindCloser("必須)") == Some(2) by {
      assert "必須)"[1..] == "須)";
      assert "須)"[1..] == ")";
    }
    assert m[4..] == "";
    NfkcIdentity(m);
    var w := "（必須）";
    assert w[1..][1..][1..] == "）";
    assert Nfkc("）") == ")";
    assert Nfkc("須）") == "須)";
    assert Nfkc("必須）") == "必須)";
  }

  /** Two labels whose texts agree once normalised and stripped of their
      annotations have the same key. */
  lemma SameAnnotatedText(h1: string, h2: string)
    requires RemoveAnnotations(Nfkc(h1)) == RemoveAnnotations(Nfkc(h2))
    ensures NormalizeColumnLabel(h1) == NormalizeColumnLabel(h2)
  {
  }

  lemma {:induction false} RemoveAnnotationsPlain(a: string)
    requires forall i :: 0 <= i < |a| ==> !IsOpener(a[i])
    ensures RemoveAnnotations(a) == a
  {
    RemoveAnnotationsPrefix(a, "");
    assert a + "" == a;
  }

  /** A required-field mark "(必須)" or "（必須）" after a label without
      brackets does not change its key: 取引先ID(必須) finds a column named
      取引先ID and the other way round. */
  lemma RequiredMarkIgnored(heading: string)
    requires forall i :: 0 <= i < |Nfkc(heading)| ==> !IsOpener(Nfkc(heading)[i])
    ensures NormalizeColumnLabel(heading + "(必須)") == NormalizeColumnLabel(heading)
    ensures NormalizeColumnLabel(heading + "（必須）") == NormalizeColumnLabel(heading)
  {
    var n := Nfkc(heading);
    RequiredMarkVanishes();
    RemoveAnnotationsPlain(n);
    RemoveAnnotationsPrefix(n, "(必須)");
    assert n + "" == n;
    NfkcAppend(heading, "(必須)");
    SameAnnotatedText(heading + "(必須)", heading);
    NfkcAppend(heading, "（必須）");
    SameAnnotatedText(heading + "（必須）", heading);
  }

  // ---------------------------------------------------------------------
  // build_column_lookup and resolve_column
  //
  // The dictionary and the resolution are stated for any key function and
  // used with NormalizeColumnLabel; the proofs about them do not depend on how
  // the key is computed.

  /** The dictionary built by scanning `cols` in order: each non-empty key
      maps to the first column that has it. */
  function LookupBy(key: string -> string, cols: seq<string>): (m: map<string, string>)
    ensures forall k :: k in m ==> k != "" && m[k] in cols && key(m[k]) == k
  {
    if cols == [] then map[]
    else
      var m := LookupBy(key, cols[..|cols| - 1]);
      var last := cols[|cols| - 1];
      assert forall c :: c in cols[..|cols| - 1] ==> c in cols;
      if key(last) != "" && key(last) !in m then m[key(last) := last] else m
  }

  /** The lookup `build_column_lookup` builds for a frame's columns. */
  function LookupOf(cols: seq<string>): (m: map<string, string>)
    ensures forall k :: k in m ==> k != "" && m[k] in cols && NormalizeColumnLabel(m[k]) == k
  {
    LookupBy(NormalizeColumnLabel, cols)
  }

  /** Every non-empty key of some column is in the lookup, and it maps to the
      FIRST column with that key. */
  lemma {:induction false} LookupFirst(key: string -> string, cols: seq<string>, i: nat)
    requires i < |cols| && key(cols[i]) != ""
    requires forall j :: 0 <= j < i ==> key(cols[j]) != key(cols[i])
    ensures key(cols[i]) in LookupBy(key, cols)
    ensures LookupBy(key, cols)[key(cols[i])] == cols[i]
    decreases |cols|
  {
    var init := cols[..|cols| - 1];
    var k := key(cols[i]);
    if i < |cols| - 1 {
      LookupFirst(key, init, i);
    } else {
      assert forall j :: 0 <= j < |init| ==> key(init[j]) != k;
      assert k !in LookupBy(key, init);
    }
  }

  /** One more column extends the dictionary only when its key is non-empty
      and new. */
  lemma LookupByStep(key: string -> string, cols: seq<string>, i: nat)
    requires i < |cols|
    ensures LookupBy(key, cols[..i + 1]) ==
      if key(cols[i]) != "" && key(cols[i]) !in LookupBy(key, cols[..i])
      then LookupBy(key, cols[..i])[key(cols[i]) := cols[i]]
      else LookupBy(key, cols[..i])
  {
    assert cols[..i + 1][..i] == cols[..i];
  }

  /** `build_column_lookup`: a dictionary filled column by column, keeping the
      first column for each non-empty key. */
  method BuildColumnLookup(cols: seq<string>) returns (lookup: map<string, string>)
    ensures lookup == LookupOf(cols)
  {
    var key: string -> string := NormalizeColumnLabel;
    lookup := map[];
    var i := 0;
    while i < |cols|
      invariant 0 <= i <= |cols|
      invariant lookup == LookupBy(key, cols[..i])
    {
      var norm := key(cols[i]);
      LookupByStep(key, cols, i);
      if norm != "" && norm !in lookup {
        lookup := lookup[norm := cols[i]];
      }
      i := i + 1;
    }
    assert cols[..|cols|] == cols;
  }

  /** The alias `a` is found in the lookup. */
  predicate Hits(key: string -> string, lookup: map<string, string>, a: string) {
    key(a) != "" && key(a) in lookup
  }

  /** The column of the first alias whose non-empty key is in the lookup. */
  function ResolveBy(key: string -> string, lookup: map<string, string>, aliases: seq<string>): (r: Option<string>)
    ensures r.Some? ==> r.value in lookup.Values
  {
    if aliases == [] then None
    else if Hits(key, lookup, aliases[0]) then Some(lookup[key(aliases[0])])
    else ResolveBy(key, lookup, aliases[1..])
  }

  /** `resolve_column(lookup, aliases)`. */
  function ResolveColumn(lookup: map<string, string>, aliases: seq<string>): (r: Option<string>)
    ensures r.Some? ==> r.value in lookup.Values
  {
    ResolveBy(NormalizeColumnLabel, lookup, aliases)
  }

  /** None exactly when no alias hits; otherwise the column that the first
      hitting alias's key maps to. */
  lemma {:induction false} ResolveBySpec(key: string -> string, lookup: map<string, string>, aliases: seq<string>)
    ensures ResolveBy(key, lookup, aliases).None? <==>
      forall k :: 0 <= k < |aliases| ==> !Hits(key, lookup, aliases[k])
    ensures forall k :: (0 <= k < |aliases| && Hits(key, lookup, aliases[k]) &&
      forall j :: 0 <= j < k ==> !Hits(key, lookup, aliases[j])) ==>
        ResolveBy(key, lookup, aliases) == Some(lookup[key(aliases[k])])
  {
    if aliases != [] && !Hits(key, lookup, aliases[0]) {
      ResolveBySpec(key, lookup, aliases[1..]);
      forall k | 1 <= k < |aliases| ensures aliases[k] == aliases[1..][k - 1] {
      }
    }
  }

  /** The first column that has the same key as column `i`. */
  function FirstWithKey(key: string -> string, cols: seq<string>, i: nat): (f: nat)
    requires i < |cols|
    ensures f <= i && key(cols[f]) == key(cols[i])
    ensures forall j :: 0 <= j < f ==> key(cols[j]) != key(cols[i])
    decreases i
  {
    if exists j :: 0 <= j < i && key(cols[j]) == key(cols[i]) then
      var j :| 0 <= j < i && key(cols[j]) == key(cols[i]);
      FirstWithKey(key, cols, j)
    else i
  }

  /** An alias hits the lookup of a frame's columns exactly when some column
      shares its non-empty key, and then the key leads to the first such
      column. */
  lemma HitsLookup(key: string -> string, cols: seq<string>, a: string)
    ensures Hits(key, LookupBy(key, cols), a) <==>
      key(a) != "" && exists i :: 0 <= i < |cols| && key(cols[i]) == key(a)
    ensures forall i :: (0 <= i < |cols| && key(a) != "" && key(cols[i]) == key(a) &&
      forall j :: 0 <= j < i ==> key(cols[j]) != key(a)) ==>
        key(a) in LookupBy(key, cols) && LookupBy(key, cols)[key(a)] == cols[i]
  {
    var m := LookupBy(key, cols);
    forall i | 0 <= i < |cols| && key(a) != "" && key(cols[i]) == key(a)
      ensures key(a) in m
    {
      LookupFirst(key, cols, FirstWithKey(key, cols, i));
    }
    forall i | (0 <= i < |cols| && key(a) != "" && key(cols[i]) == key(a) &&
      forall j :: 0 <= j < i ==> key(cols[j]) != key(a))
      ensures key(a) in m && m[key(a)] == cols[i]
    {
      LookupFirst(key, cols, i);
    }
  }

  /** Resolving aliases against the lookup of a frame's columns: nothing is
      found exactly when no alias has a non-empty key that some column
      shares; otherwise the result is the first column carrying the key of the
      first alias that some column shares. */
  lemma ResolveInColumns(cols: seq<string>, aliases: seq<string>)
    ensures ResolveColumn(LookupOf(cols), aliases).None? <==>
      forall k, i :: 0 <= k < |aliases| && 0 <= i < |cols| ==>
        NormalizeColumnLabel(aliases[k]) == "" ||
        NormalizeColumnLabel(aliases[k]) != NormalizeColumnLabel(cols[i])
    ensures forall k, i :: (0 <= k < |aliases| && 0 <= i < |cols| &&
      NormalizeColumnLabel(aliases[k]) != "" &&
      NormalizeColumnLabel(aliases[k]) == NormalizeColumnLabel(cols[i]) &&
      (forall j :: 0 <= j < i ==> NormalizeColumnLabel(cols[j]) != NormalizeColumnLabel(cols[i])) &&
      forall j :: 0 <= j < k ==> !Hits(NormalizeColumnLabel, LookupOf(cols), aliases[j])) ==>
        ResolveColumn(LookupOf(cols), aliases) == Some(cols[i])
  {
    ResolveShared(NormalizeColumnLabel, cols, aliases);
  }

  lemma ResolveShared(key: string -> string, cols: seq<string>, aliases: seq<string>)
    ensures ResolveBy(key, LookupBy(key, cols), aliases).None? <==>
      forall k, i :: 0 <= k < |aliases| && 0 <= i < |cols| ==>
        key(aliases[k]) == "" || key(aliases[k]) != key(cols[i])
    ensures forall k, i :: (0 <= k < |aliases| && 0 <= i < |cols| &&
      key(aliases[k]) != "" && key(aliases[k]) == key(cols[i]) &&
      (forall j :: 0 <= j < i ==> key(cols[j]) != key(cols[i])) &&
      forall j :: 0 <= j < k ==> !Hits(key, LookupBy(key, cols), aliases[j])) ==>
        ResolveBy(key, LookupBy(key, cols), aliases) == Some(cols[i])
  {
    ResolveSharedNone(key, cols, aliases);
    ResolveSharedFirst(key, cols, aliases);
  }

  lemma ResolveSharedNone(key: string -> string, cols: seq<string>, aliases: seq<string>)
    ensures ResolveBy(key, LookupBy(key, cols), aliases).None? <==>
      forall k, i :: 0 <= k < |aliases| && 0 <= i < |cols| ==>
        key(aliases[k]) == "" || key(aliases[k]) != key(cols[i])
  {
    var m := LookupBy(key, cols);
    ResolveBySpec(key, m, aliases);
    forall k | 0 <= k < |aliases|
      ensures Hits(key, m, aliases[k]) <==>
        key(aliases[k]) != "" && exists i :: 0 <= i < |cols| && key(cols[i]) == key(aliases[k])
    {
      HitsLookup(key, cols, aliases[k]);
    }
  }

  lemma ResolveSharedFirst(key: string -> string, cols: seq<string>, aliases: seq<string>)
    ensures forall k, i :: (0 <= k < |aliases| && 0 <= i < |cols| &&
      key(aliases[k]) != "" && key(aliases[k]) == key(cols[i]) &&
      (forall j :: 0 <= j < i ==> key(cols[j]) != key(cols[i])) &&
      forall j :: 0 <= j < k ==> !Hits(key, LookupBy(key, cols), aliases[j])) ==>
        ResolveBy(key, LookupBy(key, cols), aliases) == Some(cols[i])
  {
    var m := LookupBy(key, cols);
    forall k, i | (0 <= k < |aliases| && 0 <= i < |cols| &&
      key(aliases[k]) != "" && key(aliases[k]) == key(cols[i]) &&
      (forall j :: 0 <= j < i ==> key(cols[j]) != key(cols[i])) &&
      forall j :: 0 <= j < k ==> !Hits(key, m, aliases[j]))
      ensures ResolveBy(key, m, aliases) == Some(cols[i])
    {
      HitsLookup(key, cols, aliases[k]);
      assert Hits(key, m, aliases[k]) && m[key(aliases[k])] == cols[i];
      ResolveBySpec(key, m, aliases);
    }
  }

  // ---------------------------------------------------------------------
  // find_col and pick_col

  /** An entry of the list `find_col` is given: a column name or a position. */
  datatype ColKey = Name(name: string) | Pos(pos: int)

  /** `find_col`'s argument: a list of entries, or one name or position. */
  datatype ColQuery = Keys(keys: seq<ColKey>) | Key(key: ColKey)

  predicate KeyHits(cols: seq<string>, k: ColKey) {
    match k
    case Name(n) => n in cols
    case Pos(p) => 0 <= p < |cols|
  }

  function KeyTarget(cols: seq<string>, k: ColKey): string
    requires KeyHits(cols, k)
  {
    match k
    case Name(n) => n
    case Pos(p) => cols[p]
  }

  /** The list form of `find_col`: the first entry that names an existing
      column or a position inside the frame decides. */
  function FirstHit(cols: seq<string>, keys: seq<ColKey>): (r: Option<string>)
    ensures r.Some? ==> r.value in cols
  {
    if keys == [] then None
    else if KeyHits(cols, keys[0]) then Some(KeyTarget(cols, keys[0]))
    else FirstHit(cols, keys[1..])
  }

  /** Nothing is found exactly when no entry hits, and otherwise the first
      entry that hits gives the column. */
  lemma {:induction false} FirstHitSpec(cols: seq<string>, keys: seq<ColKey>)
    ensures FirstHit(cols, keys).None? <==> forall k :: 0 <= k < |keys| ==> !KeyHits(cols, keys[k])
    ensures forall k :: (0 <= k < |keys| && KeyHits(cols, keys[k]) &&
      forall j :: 0 <= j < k ==> !KeyHits(cols, keys[j])) ==>
        FirstHit(cols, keys) == Some(KeyTarget(cols, keys[k]))
  {
    if keys != [] && !KeyHits(cols, keys[0]) {
      FirstHitSpec(cols, keys[1..]);
      forall k | 1 <= k < |keys| ensures keys[k] == keys[1..][k - 1] {
      }
    }
  }

  /** `find_col(df, names_or_idx, default)`: the column found, or `default`.
      Whatever is found is a column of the frame. */
  function FindCol(cols: seq<string>, q: ColQuery, default: Option<string>): (r: Option<string>)
    ensures r != default ==> r.Some? && r.value in cols
  {
    match q
    case Keys(keys) => (var h := FirstHit(cols, keys); if h.Some? then h else default)
    case Key(k) => if KeyHits(cols, k) then Some(KeyTarget(cols, k)) else default
  }

  /** `pick_col(df, name, idx)`: the column `name` if present, else the
      column at position `idx` if inside the frame, else None. */
  function PickCol(cols: seq<string>, name: string, idx: int): (r: Option<string>)
    ensures r.Some? ==> r.value in cols
    ensures name in cols ==> r == Some(name)
    ensures name !in cols && 0 <= idx < |cols| ==> r == Some(cols[idx])
    ensures name !in cols && !(0 <= idx < |cols|) ==> r.None?
  {
    if name in cols then Some(name)
    else if 0 <= idx < |cols| then Some(cols[idx])
    else None
  }

  /** `pick_col(df, n, i)` and `find_col(df, [n, i])` agree. */
  lemma PickColIsFindCol(cols: seq<string>, name: string, idx: int)
    ensures PickCol(cols, name, idx) == FindCol(cols, Keys([Name(name), Pos(idx)]), None)
  {
    var keys := [Name(name), Pos(idx)];
    assert keys[1..] == [Pos(idx)];
    assert keys[1..][1..] == [];
    assert FirstHit(cols, [Pos(idx)]) == if 0 <= idx < |cols| then Some(cols[idx]) else None;
  }
}
