/** The filter stage: the predicates gathered from the request, grouped by the
    header each one resolves to, and the row mask built from them (AND across
    columns, OR across the values given for one column). */
module Filter {
  import opened Wrappers
  import opened Text
  import opened Json
  import opened Sheet
  import opened Columns

  // ---------------------------------------------------------------- predicate collection

  /** One filter item: the values of its "column_name" and "value" entries. */
  datatype Predicate = Predicate(column: Json, value: Json)

  /** The request keys that may hold filter items, in the order they are read. */
  const FilterKeys: seq<string> := ["data", "filter", "filtros", "filters"]

  /** A dict that holds both a "column_name" and a "value" entry. */
  predicate IsPredicate(x: Json) {
    x.JObj? && "column_name" in x.fields && "value" in x.fields
  }

  function AsPredicate(x: Json): Predicate
    requires IsPredicate(x)
  {
    Predicate(x.fields["column_name"], x.fields["value"])
  }

  /** The comprehension over one list: its filter items in list order, every
      other item dropped. */
  function PredicatesOf(items: seq<Json>): (ps: seq<Predicate>)
    ensures |ps| <= |items|
  {
    if items == [] then []
    else
      var x := items[|items| - 1];
      PredicatesOf(items[..|items| - 1]) + (if IsPredicate(x) then [AsPredicate(x)] else [])
  }

  /** The comprehension distributes over concatenated lists. */
  lemma {:induction false} PredicatesOfConcat(a: seq<Json>, b: seq<Json>)
    ensures PredicatesOf(a + b) == PredicatesOf(a) + PredicatesOf(b)
    decreases |b|
  {
    if b == [] {
      assert a + b == a;
    } else {
      var front := b[..|b| - 1];
      assert (a + b)[..|a + b| - 1] == a + front;
      assert (a + b)[|a + b| - 1] == b[|b| - 1];
      PredicatesOfConcat(a, front);
    }
  }

  /** A predicate is kept exactly when some item of the list is a filter item
      that carries it. */
  lemma {:induction false} PredicatesOfMembers(items: seq<Json>, p: Predicate)
    ensures p in PredicatesOf(items) <==>
            exists i :: 0 <= i < |items| && IsPredicate(items[i]) && AsPredicate(items[i]) == p
  {
    if items != [] {
      var front := items[..|items| - 1];
      PredicatesOfMembers(front, p);
      assert forall i :: 0 <= i < |front| ==> front[i] == items[i];
    }
  }

  /** The predicates gathered from the list values under `keys`, in key order. */
  function Gathered(req: map<string, Json>, keys: seq<string>): seq<Predicate> {
    if keys == [] then []
    else Gathered(req, keys[..|keys| - 1]) + PredicatesOf(Items(Get(req, keys[|keys| - 1])))
  }

  /** `filtros_entrada` once the collection loop has run. */
  function PredicateList(req: map<string, Json>): seq<Predicate> {
    Gathered(req, FilterKeys)
  }

  /** The predicate list is the comprehension over the four lists laid end to
      end in key order; a key whose value is not a list contributes nothing. */
  lemma PredicateListInKeyOrder(req: map<string, Json>)
    ensures PredicateList(req)
            == PredicatesOf(Items(Get(req, "data")) + Items(Get(req, "filter"))
                            + Items(Get(req, "filtros")) + Items(Get(req, "filters")))
  {
    var a, b, c, d := Items(Get(req, "data")), Items(Get(req, "filter")),
                      Items(Get(req, "filtros")), Items(Get(req, "filters"));
    var k1, k2, k3 := ["data"], ["data", "filter"], ["data", "filter", "filtros"];
    assert k1[..0] == [] && k2[..1] == k1 && k3[..2] == k2 && FilterKeys[..3] == k3;
    assert Gathered(req, k1) == PredicatesOf(a);
    assert Gathered(req, k2) == PredicatesOf(a) + PredicatesOf(b);
    assert Gathered(req, k3) == PredicatesOf(a) + PredicatesOf(b) + PredicatesOf(c);
    PredicatesOfConcat(a, b);
    PredicatesOfConcat(a + b, c);
    PredicatesOfConcat(a + b + c, d);
  }

  /** Keys other than the four filter keys do not affect the predicate list. */
  lemma {:induction false} GatheredIgnoresOtherKeys(req: map<string, Json>, keys: seq<string>, k: string, v: Json)
    requires k !in keys
    ensures Gathered(req[k := v], keys) == Gathered(req, keys)
  {
    if keys != [] {
      GatheredIgnoresOtherKeys(req, keys[..|keys| - 1], k, v);
      assert Get(req[k := v], keys[|keys| - 1]) == Get(req, keys[|keys| - 1]);
    }
  }

  /** The collection loop: every filter key in order, extending the list with
      the filter items of each list-valued entry. */
  method CollectPredicates(req: map<string, Json>) returns (ps: seq<Predicate>)
    ensures ps == PredicateList(req)
  {
    ps := [];
    for k := 0 to |FilterKeys|
      invariant ps == Gathered(req, FilterKeys[..k])
    {
      assert FilterKeys[..k + 1][..k] == FilterKeys[..k];
      var valor := Get(req, FilterKeys[k]);
      if valor.JArr? {
        ps := ps + PredicatesOf(valor.items);
      }
    }
    assert FilterKeys[..|FilterKeys|] == FilterKeys;
  }

  // ---------------------------------------------------------------- grouping by column

  /** (header, value) for every predicate whose column label resolves, in
      predicate order; the others are dropped. */
  function ResolvedTerms(ps: seq<Predicate>, maps: Maps): (ts: seq<(string, Json)>)
    ensures |ts| <= |ps|
  {
    if ps == [] then []
    else
      var p := ps[|ps| - 1];
      var col := ColumnOf(p.column, maps);
      ResolvedTerms(ps[..|ps| - 1], maps) + (if col.Some? then [(col.value, p.value)] else [])
  }

  /** Every resolved term names a header of the index and the value of one of
      the predicates. */
  lemma {:induction false} ResolvedTermsFromPredicates(ps: seq<Predicate>, maps: Maps, t: int)
    requires 0 <= t < |ResolvedTerms(ps, maps)|
    ensures var (c, v) := ResolvedTerms(ps, maps)[t];
            exists i :: 0 <= i < |ps| && ColumnOf(ps[i].column, maps) == Some(c) && ps[i].value == v
  {
    var front := ps[..|ps| - 1];
    if t < |ResolvedTerms(front, maps)| {
      ResolvedTermsFromPredicates(front, maps, t);
      var (c, v) := ResolvedTerms(ps, maps)[t];
      var i :| 0 <= i < |front| && ColumnOf(front[i].column, maps) == Some(c) && front[i].value == v;
      assert ps[i] == front[i];
    } else {
      assert ResolvedTerms(ps, maps)[t] == (ColumnOf(ps[|ps| - 1].column, maps).value, ps[|ps| - 1].value);
    }
  }

  /** Every predicate whose column resolves leaves a term. */
  lemma {:induction false} ResolvedTermsCover(ps: seq<Predicate>, maps: Maps, i: int)
    requires 0 <= i < |ps| && ColumnOf(ps[i].column, maps).Some?
    ensures (ColumnOf(ps[i].column, maps).value, ps[i].value) in ResolvedTerms(ps, maps)
  {
    var front := ps[..|ps| - 1];
    if i < |front| {
      assert ps[i] == front[i];
      ResolvedTermsCover(front, maps, i);
    }
  }

  /** An ordered dict from header to the values listed for it. */
  type Groups = seq<(string, seq<Json>)>

  predicate DistinctColumns(g: Groups) {
    forall i, j :: 0 <= i < j < |g| ==> g[i].0 != g[j].0
  }

  /** Where `c` sits in `g`, or |g| when it is absent. */
  function GroupPosition(g: Groups, c: string): (p: nat)
    ensures p <= |g|
    ensures p < |g| ==> g[p].0 == c
    ensures forall i :: 0 <= i < p ==> g[i].0 != c
  {
    if g == [] then 0
    else if g[0].0 == c then 0
    else
      var p := GroupPosition(g[1..], c);
      assert forall i :: 1 <= i < |g| ==> g[i] == g[1..][i - 1];
      1 + p
  }

  /** `setdefault(c, []).append(v)`: append to the list of `c`, opening a new
      entry at the end the first time `c` is seen. */
  function AddTerm(g: Groups, c: string, v: Json): (r: Groups)
    ensures GroupPosition(g, c) < |g| ==>
              r == g[GroupPosition(g, c) := (c, g[GroupPosition(g, c)].1 + [v])]
    ensures GroupPosition(g, c) == |g| ==> r == g + [(c, [v])]
    ensures exists p :: 0 <= p < |r| && r[p].0 == c
    ensures forall i :: 0 <= i < |g| ==> r[i].0 == g[i].0
    ensures forall i :: 0 <= i < |g| && g[i].0 != c ==> r[i] == g[i]
  {
    var p := GroupPosition(g, c);
    if p < |g| then
      var r := g[p := (c, g[p].1 + [v])];
      assert r[p].0 == c;
      r
    else
      var r := g + [(c, [v])];
      assert r[|g|].0 == c;
      r
  }

  /** `termos_por_coluna` built from the resolved terms in order. */
  function Group(ts: seq<(string, Json)>): (g: Groups)
    ensures DistinctColumns(g)
    ensures |g| <= |ts|
  {
    if ts == [] then []
    else
      var prev := Group(ts[..|ts| - 1]);
      var (c, v) := ts[|ts| - 1];
      var r := AddTerm(prev, c, v);
      assert DistinctColumns(r) by {
        var p := GroupPosition(prev, c);
        if p == |prev| {
          assert forall i :: 0 <= i < |prev| ==> prev[i].0 != c;
        }
      }
      r
  }

  /** The values the terms give for header `c`, in term order. */
  function ValuesOf(ts: seq<(string, Json)>, c: string): seq<Json> {
    if ts == [] then []
    else ValuesOf(ts[..|ts| - 1], c) + (if ts[|ts| - 1].0 == c then [ts[|ts| - 1].1] else [])
  }

  /** A header with at least one value is named by some term. */
  lemma {:induction false} ValuesOfNonEmpty(ts: seq<(string, Json)>, c: string)
    requires ValuesOf(ts, c) != []
    ensures exists i :: 0 <= i < |ts| && ts[i].0 == c
  {
    var front := ts[..|ts| - 1];
    if ts[|ts| - 1].0 != c {
      ValuesOfNonEmpty(front, c);
      var i :| 0 <= i < |front| && front[i].0 == c;
      assert ts[i] == front[i];
    }
  }

  /** Every term's header has an entry in the grouping. */
  lemma {:induction false} GroupCovers(ts: seq<(string, Json)>, i: int)
    requires 0 <= i < |ts|
    ensures exists e :: 0 <= e < |Group(ts)| && Group(ts)[e].0 == ts[i].0
  {
    var front := ts[..|ts| - 1];
    var prev := Group(front);
    var (c, v) := ts[|ts| - 1];
    if i < |front| {
      GroupCovers(front, i);
      var e :| 0 <= e < |prev| && prev[e].0 == front[i].0;
      assert Group(ts)[e].0 == ts[i].0;
    } else {
      var p := GroupPosition(prev, c);
      assert Group(ts)[p].0 == c;
    }
  }

  /** Each entry of the grouping is a header some term names, together with
      every value the terms give for it, in term order. */
  lemma {:induction false} GroupEntries(ts: seq<(string, Json)>, e: int)
    requires 0 <= e < |Group(ts)|
    ensures Group(ts)[e].1 == ValuesOf(ts, Group(ts)[e].0)
    ensures exists i :: 0 <= i < |ts| && ts[i].0 == Group(ts)[e].0
  {
    var front := ts[..|ts| - 1];
    var prev := Group(front);
    var (c, v) := ts[|ts| - 1];
    var g := Group(ts);
    assert g == AddTerm(prev, c, v);
    var p := GroupPosition(prev, c);
    if e < |prev| {
      GroupEntries(front, e);
      var i :| 0 <= i < |front| && front[i].0 == prev[e].0;
      assert ts[i] == front[i];
      if e == p {
        assert g[e] == (c, prev[e].1 + [v]);
      } else {
        assert g[e] == prev[e];
      }
    } else {
      assert p == |prev| && g[e] == (c, [v]);
      GroupAbsent(front, c);
    }
  }

  /** A header without an entry in the grouping has no values. */
  lemma {:induction false} GroupAbsent(ts: seq<(string, Json)>, c: string)
    requires forall e :: 0 <= e < |Group(ts)| ==> Group(ts)[e].0 != c
    ensures ValuesOf(ts, c) == []
  {
    if ts != [] {
      var front := ts[..|ts| - 1];
      var prev := Group(front);
      var (c', v) := ts[|ts| - 1];
      assert Group(ts) == AddTerm(prev, c', v);
      assert c' != c;
      assert forall e :: 0 <= e < |prev| ==> prev[e].0 == Group(ts)[e].0;
      GroupAbsent(front, c);
    }
  }

  /** The grouping loop: resolve each predicate's column and, when it
      resolves, append its value under that header. */
  method GroupTerms(ps: seq<Predicate>, maps: Maps) returns (g: Groups)
    ensures g == Group(ResolvedTerms(ps, maps))
  {
    g := [];
    for k := 0 to |ps|
      invariant g == Group(ResolvedTerms(ps[..k], maps))
    {
      var item := ps[k];
      var colunaReal := Resolve(Label(item.column), maps);
      ResolvedTermsStep(ps, k, maps);
      if colunaReal.Some? && colunaReal.value != "" {
        GroupStep(ResolvedTerms(ps[..k], maps), (colunaReal.value, item.value));
        g := AddTerm(g, colunaReal.value, item.value);
      }
    }
    assert ps[..|ps|] == ps;
  }

  /** One more predicate adds its term when its column resolves. */
  lemma ResolvedTermsStep(ps: seq<Predicate>, k: int, maps: Maps)
    requires 0 <= k < |ps|
    ensures var col := ColumnOf(ps[k].column, maps);
            ResolvedTerms(ps[..k + 1], maps)
            == if col.Some? then ResolvedTerms(ps[..k], maps) + [(col.value, ps[k].value)]
               else ResolvedTerms(ps[..k], maps)
  {
    assert ps[..k + 1][..k] == ps[..k];
    assert ps[..k + 1][k] == ps[k];
    assert ResolvedTerms(ps[..k], maps) + [] == ResolvedTerms(ps[..k], maps);
  }

  /** One more term is added to the grouping of the earlier ones. */
  lemma GroupStep(ts: seq<(string, Json)>, x: (string, Json))
    ensures Group(ts + [x]) == AddTerm(Group(ts), x.0, x.1)
  {
    assert (ts + [x])[..|ts|] == ts && (ts + [x])[|ts|] == x;
  }

  // ---------------------------------------------------------------- the mask

  /** `col_text` of one row: the cell printed by `astype(str)` (a missing cell
      prints as "nan"), lowercased. */
  function CellKey(row: Row, col: string): string {
    Lower(CellText(CellAt(row, col)))
  }

  /** The per-value test at line 136: `str(v).lower()` occurs in the cell
      text. The test is a literal substring test; the regular-expression
      reading pandas gives the pattern is not modelled. A list or dict value
      matches nothing. */
  predicate Matches(text: string, v: Json) {
    var s := PyStr(v);
    s.Some? && Contains(text, Lower(s.value))
  }

  /** `filtro_col` for one row after or-ing in the values `vs`. */
  predicate AnyMatches(text: string, vs: seq<Json>) {
    vs != [] && (AnyMatches(text, vs[..|vs| - 1]) || Matches(text, vs[|vs| - 1]))
  }

  /** OR within a column: some listed value occurs in the text. */
  lemma {:induction false} AnyMatchesIff(text: string, vs: seq<Json>)
    ensures AnyMatches(text, vs) <==> exists j :: 0 <= j < |vs| && Matches(text, vs[j])
  {
    if vs != [] {
      var front := vs[..|vs| - 1];
      AnyMatchesIff(text, front);
      assert forall j :: 0 <= j < |front| ==> front[j] == vs[j];
    }
  }

  /** `filtro` for one row after and-ing in the columns of `g`. */
  predicate Survives(row: Row, g: Groups) {
    g == [] || (Survives(row, g[..|g| - 1]) && AnyMatches(CellKey(row, g[|g| - 1].0), g[|g| - 1].1))
  }

  /** AND across columns: every grouped column has a matching value. */
  lemma {:induction false} SurvivesIff(row: Row, g: Groups)
    ensures Survives(row, g) <==> forall e :: 0 <= e < |g| ==> AnyMatches(CellKey(row, g[e].0), g[e].1)
  {
    if g != [] {
      var front := g[..|g| - 1];
      SurvivesIff(row, front);
      assert forall e :: 0 <= e < |front| ==> front[e] == g[e];
    }
  }

  /** `df.loc[filtro]`: the surviving rows, in sheet order. */
  function Filtered(rows: seq<Row>, g: Groups): (kept: seq<Row>)
    ensures |kept| <= |rows|
  {
    if rows == [] then []
    else
      var r := rows[|rows| - 1];
      Filtered(rows[..|rows| - 1], g) + (if Survives(r, g) then [r] else [])
  }

  /** A row is kept exactly when it is a row of the sheet that survives. */
  lemma {:induction false} FilteredMembers(rows: seq<Row>, g: Groups, r: Row)
    ensures r in Filtered(rows, g) <==> r in rows && Survives(r, g)
  {
    if rows != [] {
      var front := rows[..|rows| - 1];
      FilteredMembers(front, g, r);
      assert rows == front + [rows[|rows| - 1]];
    }
  }

  /** Filtering keeps the sheet's row order: it works piecewise on the rows. */
  lemma {:induction false} FilteredConcat(a: seq<Row>, b: seq<Row>, g: Groups)
    ensures Filtered(a + b, g) == Filtered(a, g) + Filtered(b, g)
    decreases |b|
  {
    if b == [] {
      assert a + b == a;
    } else {
      var front := b[..|b| - 1];
      assert (a + b)[..|a + b| - 1] == a + front;
      assert (a + b)[|a + b| - 1] == b[|b| - 1];
      FilteredConcat(a, front, g);
    }
  }

  /** With no column to test, the mask stays all true and every row is kept. */
  lemma {:induction false} FilteredNoColumns(rows: seq<Row>)
    ensures Filtered(rows, []) == rows
  {
    if rows != [] {
      FilteredNoColumns(rows[..|rows| - 1]);
    }
  }

  /** Some term on header `c` has a value occurring in the row's text for `c`. */
  predicate TermMatches(row: Row, ts: seq<(string, Json)>, c: string) {
    exists j :: 0 <= j < |ts| && ts[j].0 == c && Matches(CellKey(row, c), ts[j].1)
  }

  /** Every term's header has a matching term: the row passes the terms. */
  predicate PassesTerms(row: Row, ts: seq<(string, Json)>) {
    forall i :: 0 <= i < |ts| ==> TermMatches(row, ts, ts[i].0)
  }

  /** One entry of the grouping passes exactly when some term on its header
      matches. */
  lemma GroupEntryPasses(row: Row, ts: seq<(string, Json)>, e: int)
    requires 0 <= e < |Group(ts)|
    ensures AnyMatches(CellKey(row, Group(ts)[e].0), Group(ts)[e].1) <==> TermMatches(row, ts, Group(ts)[e].0)
  {
    GroupEntries(ts, e);
    AnyValuesOf(CellKey(row, Group(ts)[e].0), ts, Group(ts)[e].0);
  }

  /** AND across the resolved columns, OR across the values listed for each:
      a row survives the grouped terms exactly when, for every term, some term
      on the same header has a value occurring in that header's cell text. */
  lemma SurvivesTermsIff(row: Row, ts: seq<(string, Json)>)
    ensures Survives(row, Group(ts)) <==> PassesTerms(row, ts)
  {
    var g := Group(ts);
    SurvivesIff(row, g);
    if Survives(row, g) {
      forall i | 0 <= i < |ts|
        ensures TermMatches(row, ts, ts[i].0)
      {
        GroupCovers(ts, i);
        var e :| 0 <= e < |g| && g[e].0 == ts[i].0;
        GroupEntryPasses(row, ts, e);
      }
    }
    if forall i :: 0 <= i < |ts| ==> TermMatches(row, ts, ts[i].0) {
      forall e | 0 <= e < |g|
        ensures AnyMatches(CellKey(row, g[e].0), g[e].1)
      {
        GroupEntries(ts, e);
        var i :| 0 <= i < |ts| && ts[i].0 == g[e].0;
        GroupEntryPasses(row, ts, e);
      }
    }
  }

  /** Or-ing over the values of one header is a search among the terms. */
  lemma {:induction false} AnyValuesOf(text: string, ts: seq<(string, Json)>, c: string)
    ensures AnyMatches(text, ValuesOf(ts, c)) <==>
            exists j :: 0 <= j < |ts| && ts[j].0 == c && Matches(text, ts[j].1)
  {
    if ts != [] {
      var front := ts[..|ts| - 1];
      AnyValuesOf(text, front, c);
      assert forall j :: 0 <= j < |front| ==> front[j] == ts[j];
      var vs := ValuesOf(ts, c);
      if ts[|ts| - 1].0 == c {
        assert vs[..|vs| - 1] == ValuesOf(front, c);
      } else {
        assert vs == ValuesOf(front, c);
      }
    }
  }

  /** `filtro_col` for one column: a mask of falses or-ed, value by value,
      with each value's test on every row's text. */
  method ColumnMask(colText: seq<string>, valores: seq<Json>) returns (filtroCol: array<bool>)
    ensures fresh(filtroCol) && filtroCol.Length == |colText|
    ensures forall i :: 0 <= i < |colText| ==> filtroCol[i] == AnyMatches(colText[i], valores)
  {
    var n := |colText|;
    filtroCol := new bool[n](_ => false);
    for j := 0 to |valores|
      invariant forall i :: 0 <= i < n ==> filtroCol[i] == AnyMatches(colText[i], valores[..j])
    {
      assert valores[..j + 1][..j] == valores[..j];
      for i := 0 to n
        invariant forall m :: 0 <= m < i ==> filtroCol[m] == AnyMatches(colText[m], valores[..j + 1])
        invariant forall m :: i <= m < n ==> filtroCol[m] == AnyMatches(colText[m], valores[..j])
      {
        filtroCol[i] := filtroCol[i] || Matches(colText[i], valores[j]);
      }
    }
    assert valores[..|valores|] == valores;
  }

  /** `filtro &= filtro_col`, entry by entry. */
  method AndInto(filtro: array<bool>, filtroCol: array<bool>)
    requires filtro.Length == filtroCol.Length && filtro != filtroCol
    modifies filtro
    ensures forall i :: 0 <= i < filtro.Length ==> filtro[i] == (old(filtro[i]) && filtroCol[i])
  {
    for i := 0 to filtro.Length
      invariant forall m :: 0 <= m < i ==> filtro[m] == (old(filtro[m]) && filtroCol[m])
      invariant forall m :: i <= m < filtro.Length ==> filtro[m] == old(filtro[m])
    {
      filtro[i] := filtro[i] && filtroCol[i];
    }
  }

  /** The mask loops, then the rows whose mask entry is true. */
  method FilterRows(rows: seq<Row>, g: Groups) returns (kept: seq<Row>)
    ensures kept == Filtered(rows, g)
  {
    var filtro := GroupsMask(rows, g);
    kept := SelectRows(rows, g, filtro);
  }

  /** A mask of trues, and-ed with the mask of every grouped column in turn. */
  method GroupsMask(rows: seq<Row>, g: Groups) returns (filtro: array<bool>)
    ensures fresh(filtro) && filtro.Length == |rows|
    ensures forall i :: 0 <= i < |rows| ==> filtro[i] == Survives(rows[i], g)
  {
    var n := |rows|;
    filtro := new bool[n](_ => true);
    for t := 0 to |g|
      invariant forall i :: 0 <= i < n ==> filtro[i] == Survives(rows[i], g[..t])
    {
      var (col, valores) := g[t];
      var colText := seq(n, i requires 0 <= i < n => CellKey(rows[i], col));
      var filtroCol := ColumnMask(colText, valores);
      AndInto(filtro, filtroCol);
      forall i | 0 <= i < n
        ensures filtro[i] == Survives(rows[i], g[..t + 1])
      {
        SurvivesStep(rows[i], g, t);
      }
    }
    assert g[..|g|] == g;
  }

  /** One more grouped column and-s its matches into the mask. */
  lemma SurvivesStep(row: Row, g: Groups, t: int)
    requires 0 <= t < |g|
    ensures Survives(row, g[..t + 1]) == (Survives(row, g[..t]) && AnyMatches(CellKey(row, g[t].0), g[t].1))
  {
    assert g[..t + 1][..t] == g[..t];
    assert g[..t + 1][t] == g[t];
  }

  /** `df.loc[filtro]` for a mask that holds exactly the surviving rows. */
  method SelectRows(rows: seq<Row>, g: Groups, filtro: array<bool>) returns (kept: seq<Row>)
    requires filtro.Length == |rows|
    requires forall i :: 0 <= i < |rows| ==> filtro[i] == Survives(rows[i], g)
    ensures kept == Filtered(rows, g)
  {
    kept := [];
    for i := 0 to |rows|
      invariant kept == Filtered(rows[..i], g)
    {
      assert rows[..i + 1][..i] == rows[..i];
      if filtro[i] {
        kept := kept + [rows[i]];
      }
    }
    assert rows[..|rows|] == rows;
  }
}
