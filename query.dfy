/** `executar_pesquisa`: the stages run in order over a loaded sheet (filter,
    short-circuit, projection, scalar aggregation, ranking, group-by and
    correlation), returning the result table together with the reports the
    engine prints. */
module Query {
  import opened Wrappers
  import opened Text
  import opened Json
  import opened Sheet
  import opened Columns
  import opened Numeric
  import opened Filter
  import opened Ranking

  // ---------------------------------------------------------------- the result

  /** A cell of the returned table: copied from the sheet, or a statistic. */
  datatype Value = Copied(cell: Cell) | Stat(scalar: Scalar)

  /** The returned DataFrame: its column names in order and its rows. */
  datatype Table = Table(columns: seq<string>, rows: seq<map<string, Value>>)

  /** `pd.DataFrame()`. */
  const EmptyTable: Table := Table([], [])

  /** `DataFrame.empty`: no column or no row. */
  predicate IsEmpty(t: Table) {
    t.columns == [] || t.rows == []
  }

  /** What the engine prints, returned instead. The group-by means and the
      correlation coefficient are not computed; their reports name the columns. */
  datatype Report =
    | NoFilters
    | NoResults
    | RankingOf(column: string, ascending: bool, limit: Option<int>, entries: seq<Entry>)
    | GroupingOf(keys: seq<string>, column: string)
    | CorrelationOf(first: string, second: string)

  datatype Outcome = Outcome(table: Table, reports: seq<Report>)

  // ---------------------------------------------------------------- filter stage

  /** The rows the filter stage keeps for the collected predicates `ps`: every
      row when there is none, otherwise those that survive the resolved terms
      grouped by header. */
  function FilterStage(ps: seq<Predicate>, rows: seq<Row>, maps: Maps): (kept: seq<Row>)
    ensures |kept| <= |rows|
  {
    if ps == [] then rows else Filtered(rows, Group(ResolvedTerms(ps, maps)))
  }

  /** Filter membership: a row is kept exactly when it is a row of the sheet
      and, for every predicate whose column resolves, some predicate on the
      same header has a value occurring in the row's text for that header.
      Predicates that do not resolve play no part. */
  lemma FilterStageMembers(ps: seq<Predicate>, rows: seq<Row>, maps: Maps, r: Row)
    ensures r in FilterStage(ps, rows, maps) <==> r in rows && PassesTerms(r, ResolvedTerms(ps, maps))
  {
    var ts := ResolvedTerms(ps, maps);
    if ps != [] {
      FilteredMembers(rows, Group(ts), r);
      SurvivesTermsIff(r, ts);
    }
  }

  /** The filter stage keeps the sheet's row order. */
  lemma FilterStageOrder(ps: seq<Predicate>, a: seq<Row>, b: seq<Row>, maps: Maps)
    ensures FilterStage(ps, a + b, maps) == FilterStage(ps, a, maps) + FilterStage(ps, b, maps)
  {
    if ps != [] {
      FilteredConcat(a, b, Group(ResolvedTerms(ps, maps)));
    }
  }

  /** When no predicate resolves, every row survives. */
  lemma FilterStageUnresolved(ps: seq<Predicate>, rows: seq<Row>, maps: Maps)
    requires ResolvedTerms(ps, maps) == []
    ensures FilterStage(ps, rows, maps) == rows
  {
    FilteredNoColumns(rows);
  }

  // ---------------------------------------------------------------- projection

  /** Iterating a request value: the items of a list, the characters of a
      string. */
  function Iterated(j: Json): seq<Json> {
    match j
    case JArr(xs) => xs
    case JStr(s) => seq(|s|, i requires 0 <= i < |s| => JStr([s[i]]))
    case _ => []
  }

  /** `entrada.get("columns_to_show", [])`. */
  function ShowList(req: map<string, Json>): Json {
    if "columns_to_show" in req then req["columns_to_show"] else JArr([])
  }

  /** The headers the labels resolve to, in label order; a label that does
      not resolve, or resolves to an empty header, is omitted. */
  function ResolvedLabels(names: seq<Json>, maps: Maps): (cols: seq<string>)
    ensures |cols| <= |names|
  {
    if names == [] then []
    else
      var last := ColumnOf(names[|names| - 1], maps);
      ResolvedLabels(names[..|names| - 1], maps) + (if last.Some? then [last.value] else [])
  }

  /** A header is listed exactly when some label resolves to it. */
  lemma {:induction false} ResolvedLabelsMembers(names: seq<Json>, maps: Maps, c: string)
    ensures c in ResolvedLabels(names, maps) <==>
            exists i :: 0 <= i < |names| && ColumnOf(names[i], maps) == Some(c)
  {
    if names != [] {
      var n := |names| - 1;
      var front := names[..n];
      var last := ColumnOf(names[n], maps);
      ResolvedLabelsMembers(front, maps, c);
      assert ResolvedLabels(names, maps) == ResolvedLabels(front, maps) + (if last.Some? then [last.value] else []);
      if c in ResolvedLabels(names, maps) {
        if c in ResolvedLabels(front, maps) {
          var i :| 0 <= i < |front| && ColumnOf(front[i], maps) == Some(c);
          assert names[i] == front[i];
        } else {
          assert ColumnOf(names[n], maps) == Some(c);
        }
      }
      if exists i :: 0 <= i < |names| && ColumnOf(names[i], maps) == Some(c) {
        var i :| 0 <= i < |names| && ColumnOf(names[i], maps) == Some(c);
        if i < n {
          assert front[i] == names[i];
          assert c in ResolvedLabels(front, maps);
        } else {
          assert i == n;
          assert last == Some(c);
        }
        assert c in ResolvedLabels(names, maps);
      }
    }
  }

  /** Labels resolve one by one, so the listed headers follow label order. */
  lemma {:induction false} ResolvedLabelsConcat(a: seq<Json>, b: seq<Json>, maps: Maps)
    ensures ResolvedLabels(a + b, maps) == ResolvedLabels(a, maps) + ResolvedLabels(b, maps)
    decreases |b|
  {
    if b == [] {
      assert a + b == a;
    } else {
      var front := b[..|b| - 1];
      assert (a + b)[..|a + b| - 1] == a + front;
      assert (a + b)[|a + b| - 1] == b[|b| - 1];
      ResolvedLabelsConcat(a, front, maps);
    }
  }

  /** One more label appends what it resolves to. */
  lemma ResolvedLabelsStep(names: seq<Json>, k: nat, maps: Maps)
    requires k < |names|
    ensures var c := ColumnOf(names[k], maps);
            ResolvedLabels(names[..k + 1], maps) == ResolvedLabels(names[..k], maps) + (if c.Some? then [c.value] else [])
  {
    assert names[..k + 1][..k] == names[..k];
    assert names[..k + 1][k] == names[k];
  }

  /** Every listed header is one of the sheet's own headers, and none is empty. */
  lemma ResolvedLabelsAreHeaders(names: seq<Json>, aliases: Index, headers: seq<string>)
    ensures forall c :: c in ResolvedLabels(names, Maps(aliases, HeaderIndex(headers))) ==> c in headers && c != ""
  {
    var maps := Maps(aliases, HeaderIndex(headers));
    forall c | c in ResolvedLabels(names, maps)
      ensures c in headers && c != ""
    {
      ResolvedLabelsMembers(names, maps, c);
      var i :| 0 <= i < |names| && ColumnOf(names[i], maps) == Some(c);
      ColumnOfIsHeader(names[i], aliases, headers);
    }
  }

  /** The projection loop: resolve each label and append the header it maps
      to when that header is non-empty. */
  method ProjectColumns(names: seq<Json>, maps: Maps) returns (cols: seq<string>)
    ensures cols == ResolvedLabels(names, maps)
  {
    cols := [];
    for k := 0 to |names|
      invariant cols == ResolvedLabels(names[..k], maps)
    {
      var mapped := Resolve(Label(names[k]), maps);
      ResolvedLabelsStep(names, k, maps);
      if mapped.Some? && mapped.value != "" {
        cols := cols + [mapped.value];
      }
    }
    assert names[..|names|] == names;
  }

  /** One row restricted to the chosen headers. */
  function Select(row: Row, cols: seq<string>): map<string, Value> {
    map c | c in cols :: Copied(CellAt(row, c))
  }

  /** `df_filtrado[colunas_reais] if colunas_reais else pd.DataFrame()`. */
  function Project(rows: seq<Row>, cols: seq<string>): Table {
    if cols == [] then EmptyTable
    else Table(cols, seq(|rows|, i requires 0 <= i < |rows| => Select(rows[i], cols)))
  }

  /** No column gives the empty table; otherwise the columns are the chosen
      headers in order, with one row per input row holding exactly those
      headers and the cells copied from it. */
  lemma ProjectContents(rows: seq<Row>, cols: seq<string>)
    ensures var t := Project(rows, cols);
            (cols == [] ==> t == EmptyTable)
            && (cols != [] ==>
                  t.columns == cols && |t.rows| == |rows|
                  && forall i :: 0 <= i < |rows| ==>
                       t.rows[i].Keys == (set c | c in cols)
                       && forall c :: c in cols ==> t.rows[i][c] == Copied(CellAt(rows[i], c)))
  {
  }

  // ---------------------------------------------------------------- scalar aggregation

  /** The name and value the aggregation stage sets, if any: both request
      fields must be truthy, the column must resolve, and the if-chain must
      assign a value. The column is read from the whole sheet. */
  function OperationValue(req: map<string, Json>, ds: Dataset, maps: Maps): Option<(string, Scalar)> {
    var co, op := Get(req, "column_operation"), Get(req, "operation");
    if !(Truthy(co) && Truthy(op)) then None
    else match ColumnOf(co, maps)
      case None => None
      case Some(col) =>
        if !op.JStr? then None
        else match Aggregate(op.s, Normalize(Column(ds.rows, col)))
          case None => None
          case Some(v) => Some((op.s + "_" + col, v))
  }

  /** `resultado[name] = value`: the column set on every row, appended to the
      column list when new. */
  function Broadcast(t: Table, name: string, v: Value): Table {
    Table(if name in t.columns then t.columns else t.columns + [name],
          seq(|t.rows|, i requires 0 <= i < |t.rows| => t.rows[i][name := v]))
  }

  /** A single-row table when the result is empty, otherwise the value
      broadcast to every row. */
  function Merge(t: Table, name: string, v: Value): Table {
    if IsEmpty(t) then Table([name], [map[name := v]]) else Broadcast(t, name, v)
  }

  function AggregateStage(req: map<string, Json>, ds: Dataset, maps: Maps, t: Table): Table {
    match OperationValue(req, ds, maps)
    case None => t
    case Some((name, v)) => Merge(t, name, Stat(v))
  }

  /** The aggregation stage acts only when both fields are truthy, the label
      resolves, and the operation assigns a value; the column it adds is named
      operation, "_", header. */
  lemma OperationValueIff(req: map<string, Json>, ds: Dataset, maps: Maps)
    ensures var co, op := Get(req, "column_operation"), Get(req, "operation");
            OperationValue(req, ds, maps).Some? <==>
              Truthy(co) && Truthy(op) && op.JStr? && ColumnOf(co, maps).Some?
              && Aggregate(op.s, Normalize(Column(ds.rows, ColumnOf(co, maps).value))).Some?
    ensures var co, op := Get(req, "column_operation"), Get(req, "operation");
            OperationValue(req, ds, maps).Some? ==>
              OperationValue(req, ds, maps).value
              == (op.s + "_" + ColumnOf(co, maps).value,
                  Aggregate(op.s, Normalize(Column(ds.rows, ColumnOf(co, maps).value))).value)
  {
  }

  /** An unknown operation leaves the table as it is. */
  lemma UnknownOperationKeepsTable(req: map<string, Json>, ds: Dataset, maps: Maps, t: Table)
    requires Get(req, "operation").JStr? && Get(req, "operation").s !in Operations
    ensures AggregateStage(req, ds, maps, t) == t
  {
    AggregateDefinedIff(Get(req, "operation").s, []);
    var op := Get(req, "operation").s;
    forall xs: seq<Option<real>> ensures Aggregate(op, xs).None? {
      AggregateDefinedIff(op, xs);
    }
  }

  /** The aggregation sees the whole sheet, not the filtered rows: the filter
      keys of the request do not change the value it sets. */
  lemma OperationIgnoresFilters(req: map<string, Json>, ds: Dataset, maps: Maps, k: string, v: Json)
    requires k in FilterKeys
    ensures OperationValue(req[k := v], ds, maps) == OperationValue(req, ds, maps)
  {
    assert Get(req[k := v], "column_operation") == Get(req, "column_operation");
    assert Get(req[k := v], "operation") == Get(req, "operation");
  }

  /** Merging into a non-empty table sets the value on every row and keeps
      every other entry; merging into an empty one gives a single row. */
  lemma MergeProperties(t: Table, name: string, v: Value)
    ensures IsEmpty(t) ==> Merge(t, name, v) == Table([name], [map[name := v]])
    ensures !IsEmpty(t) ==>
              var r := Merge(t, name, v);
              name in r.columns && t.columns <= r.columns && |r.rows| == |t.rows|
              && r.columns == (if name in t.columns then t.columns else t.columns + [name])
              && forall i :: 0 <= i < |t.rows| ==>
                   name in r.rows[i] && r.rows[i][name] == v
                   && r.rows[i].Keys == t.rows[i].Keys + {name}
                   && forall c :: c in t.rows[i] && c != name ==> c in r.rows[i] && r.rows[i][c] == t.rows[i][c]
  {
  }

  // ---------------------------------------------------------------- ranking, group-by, correlation

  /** `r.get("n", 5)` as a `head` limit: an integer, or none for a null; any
      other value is not a limit. */
  function Limit(nj: Json): Option<Option<int>> {
    match nj
    case JNum(k) => Some(Some(k))
    case JNull => Some(None)
    case _ => None
  }

  /** `ordem == "asc"`, with "desc" when the order is absent. */
  predicate Ascending(f: map<string, Json>) {
    "order" in f && f["order"] == JStr("asc")
  }

  /** `r.get("n", 5)`. */
  function CountField(f: map<string, Json>): Json {
    if "n" in f then f["n"] else JNum(5)
  }

  /** The ranking report for the ranking object `f`, when its column resolves. */
  function RankingRequest(f: map<string, Json>, ds: Dataset, maps: Maps): seq<Report> {
    var col := ColumnOf(Get(f, "column"), maps);
    var limit := Limit(CountField(f));
    if col.None? || limit.None? then []
    else [RankingOf(col.value, Ascending(f), limit.value,
                    Rank(Normalize(Column(ds.rows, col.value)), Ascending(f), limit.value))]
  }

  /** The ranking report, when the request asks for one whose column resolves. */
  function RankingReports(req: map<string, Json>, ds: Dataset, maps: Maps): seq<Report> {
    var rk := Get(req, "ranking");
    if !Truthy(rk) || !rk.JObj? then [] else RankingRequest(rk.fields, ds, maps)
  }

  /** The ranking report for one ranking object: sorted ascending exactly when
      the order is "asc", with at most n entries (5 when n is absent), each a
      row of the whole sheet with its normalised value, and every ranked row
      ahead of every row left out. */
  lemma RankingRequestProperties(f: map<string, Json>, ds: Dataset, maps: Maps)
    ensures |RankingRequest(f, ds, maps)| <= 1
    ensures RankingRequest(f, ds, maps) != [] <==>
              ColumnOf(Get(f, "column"), maps).Some? && Limit(CountField(f)).Some?
    ensures RankingRequest(f, ds, maps) != [] ==>
              var rep := RankingRequest(f, ds, maps)[0];
              rep.RankingOf?
              && rep.column == ColumnOf(Get(f, "column"), maps).value
              && rep.limit == Limit(CountField(f)).value
              && (rep.ascending <==> "order" in f && f["order"] == JStr("asc"))
              && ("n" !in f ==> rep.limit == Some(5) && |rep.entries| == if |ds.rows| < 5 then |ds.rows| else 5)
              && (rep.limit.Some? && rep.limit.value >= 0 ==>
                    |rep.entries| == if rep.limit.value < |ds.rows| then rep.limit.value else |ds.rows|)
              && WellRanked(rep.entries, Normalize(Column(ds.rows, rep.column)), rep.ascending)
  {
    var col := ColumnOf(Get(f, "column"), maps);
    var limit := Limit(CountField(f));
    if col.Some? && limit.Some? {
      var xs := Normalize(Column(ds.rows, col.value));
      assert |xs| == |ds.rows|;
      assert RankingRequest(f, ds, maps) == [RankingOf(col.value, Ascending(f), limit.value, Rank(xs, Ascending(f), limit.value))];
      assert "n" !in f ==> limit.value == Some(5);
      RankFacts(xs, Ascending(f), limit.value);
    } else {
      assert RankingRequest(f, ds, maps) == [];
    }
  }

  /** The ranking of a column is well ranked, and as long as the limit allows:
      min(n, length) for a limit n >= 0, so min(5, length) by default. */
  lemma RankFacts(xs: seq<Option<real>>, asc: bool, limit: Option<int>)
    ensures WellRanked(Rank(xs, asc, limit), xs, asc)
    ensures limit.Some? && limit.value >= 0 ==>
              |Rank(xs, asc, limit)| == if limit.value < |xs| then limit.value else |xs|
    ensures limit == Some(5) ==> |Rank(xs, asc, limit)| == if |xs| < 5 then |xs| else 5
  {
    RankWellRanked(xs, asc, limit);
    if limit.Some? {
      RankLength(xs, asc, limit.value);
    }
  }

  /** The request's ranking report, when it asks for one. */
  lemma RankingReportProperties(req: map<string, Json>, ds: Dataset, maps: Maps)
    ensures !Truthy(Get(req, "ranking")) || !Get(req, "ranking").JObj? ==> RankingReports(req, ds, maps) == []
    ensures Truthy(Get(req, "ranking")) && Get(req, "ranking").JObj? ==>
              RankingReports(req, ds, maps) == RankingRequest(Get(req, "ranking").fields, ds, maps)
  {
  }

  /** The group-by report names the group headers and the operation column
      once both resolve; its means are not computed. */
  function GroupReports(req: map<string, Json>, maps: Maps): seq<Report> {
    var gb := Get(req, "group_by");
    if !Truthy(gb) then []
    else
      var keys := ResolvedLabels(Iterated(gb), maps);
      var col := ColumnOf(Get(req, "column_operation"), maps);
      if keys != [] && col.Some? then [GroupingOf(keys, col.value)] else []
  }

  /** A group-by report is made exactly when the field is truthy, some of its
      labels resolve and the operation column resolves; it then names those
      headers and that column. */
  lemma GroupGuard(req: map<string, Json>, maps: Maps)
    ensures var keys := ResolvedLabels(Iterated(Get(req, "group_by")), maps);
            var col := ColumnOf(Get(req, "column_operation"), maps);
            (GroupReports(req, maps) != [] <==> Truthy(Get(req, "group_by")) && keys != [] && col.Some?)
            && (GroupReports(req, maps) != [] ==> GroupReports(req, maps) == [GroupingOf(keys, col.value)])
  {
  }

  /** The correlation report names the two headers when exactly two labels
      resolve; the coefficient is not computed. */
  function CorrelationReports(req: map<string, Json>, maps: Maps): seq<Report> {
    var cr := Get(req, "correlation");
    if !Truthy(cr) then []
    else
      var cols := ResolvedLabels(Iterated(cr), maps);
      if |cols| == 2 then [CorrelationOf(cols[0], cols[1])] else []
  }

  /** A correlation is reported exactly when the field is truthy and exactly
      two of its labels resolve. */
  lemma CorrelationGuard(req: map<string, Json>, maps: Maps)
    ensures CorrelationReports(req, maps) != [] <==>
            Truthy(Get(req, "correlation")) && |ResolvedLabels(Iterated(Get(req, "correlation")), maps)| == 2
  {
  }

  // ---------------------------------------------------------------- the whole query

  /** The result table built from the kept rows: the projection, then the
      aggregation merged into it. */
  function ResultTable(req: map<string, Json>, ds: Dataset, maps: Maps, kept: seq<Row>): Table {
    AggregateStage(req, ds, maps, Project(kept, ResolvedLabels(Iterated(ShowList(req)), maps)))
  }

  /** The report printed when no predicate was given. */
  function FilterNotes(req: map<string, Json>): seq<Report> {
    if PredicateList(req) == [] then [NoFilters] else []
  }

  /** The reports of the stages after the aggregation. */
  function LaterReports(req: map<string, Json>, ds: Dataset, maps: Maps): seq<Report> {
    RankingReports(req, ds, maps) + GroupReports(req, maps) + CorrelationReports(req, maps)
  }

  /** The returned table: empty when no row survives the filter. */
  function TableOf(req: map<string, Json>, ds: Dataset, maps: Maps): Table {
    var kept := FilterStage(PredicateList(req), ds.rows, maps);
    if kept == [] then EmptyTable else ResultTable(req, ds, maps, kept)
  }

  /** The reports: none after the short-circuit but the one it prints. */
  function ReportsOf(req: map<string, Json>, ds: Dataset, maps: Maps): seq<Report> {
    var kept := FilterStage(PredicateList(req), ds.rows, maps);
    FilterNotes(req) + if kept == [] then [NoResults] else LaterReports(req, ds, maps)
  }

  /** The outcome of one query over one sheet. */
  function Query(req: map<string, Json>, ds: Dataset): Outcome {
    var maps := SheetMaps(ds.headers);
    Outcome(TableOf(req, ds, maps), ReportsOf(req, ds, maps))
  }

  /** Empty short-circuit: when no row survives, the result is the empty table
      and no later stage reports anything. */
  lemma ShortCircuit(req: map<string, Json>, ds: Dataset)
    requires FilterStage(PredicateList(req), ds.rows, SheetMaps(ds.headers)) == []
    ensures Query(req, ds).table == EmptyTable
    ensures Query(req, ds).reports == (if PredicateList(req) == [] then [NoFilters, NoResults] else [NoResults])
  {
    var maps := SheetMaps(ds.headers);
    assert ReportsOf(req, ds, maps) == FilterNotes(req) + [NoResults];
    NotesThenNoResults(req);
  }

  /** The filter note, if any, followed by the no-results report. */
  lemma NotesThenNoResults(req: map<string, Json>)
    ensures FilterNotes(req) + [NoResults] == if PredicateList(req) == [] then [NoFilters, NoResults] else [NoResults]
  {
  }

  /** Without a usable aggregation, the result is the projection of the kept
      rows onto the resolved labels (the empty table when none resolves). */
  lemma ProjectionOnly(req: map<string, Json>, ds: Dataset)
    requires OperationValue(req, ds, SheetMaps(ds.headers)).None?
    ensures var maps := SheetMaps(ds.headers);
            var kept := FilterStage(PredicateList(req), ds.rows, maps);
            kept != [] ==> Query(req, ds).table == Project(kept, ResolvedLabels(Iterated(ShowList(req)), maps))
  {
  }

  /** The projection shows the shown columns that resolve, in the order
      given: one row per kept row, holding exactly those headers with the
      kept row's cells. */
  lemma ProjectionShown(req: map<string, Json>, ds: Dataset)
    requires OperationValue(req, ds, SheetMaps(ds.headers)).None?
    ensures var maps := SheetMaps(ds.headers);
            var kept := FilterStage(PredicateList(req), ds.rows, maps);
            var cols := ResolvedLabels(Iterated(ShowList(req)), maps);
            var t := Query(req, ds).table;
            kept != [] && cols != [] ==>
              t.columns == cols && |t.rows| == |kept|
              && forall i :: 0 <= i < |kept| ==>
                   t.rows[i].Keys == (set c | c in cols)
                   && forall c :: c in cols ==> t.rows[i][c] == Copied(CellAt(kept[i], c))
  {
    var maps := SheetMaps(ds.headers);
    ProjectionOnly(req, ds);
    ProjectContents(FilterStage(PredicateList(req), ds.rows, maps), ResolvedLabels(Iterated(ShowList(req)), maps));
  }

  /** With an aggregation value and at least one shown column, the value is
      broadcast to every kept row under operation + "_" + header; with no shown
      column it becomes the single row of the result. */
  lemma AggregationMerged(req: map<string, Json>, ds: Dataset, maps: Maps, kept: seq<Row>, name: string, v: Scalar)
    requires kept != [] && OperationValue(req, ds, maps) == Some((name, v))
    ensures var cols := ResolvedLabels(Iterated(ShowList(req)), maps);
            var t := ResultTable(req, ds, maps, kept);
            (cols == [] ==> t == Table([name], [map[name := Stat(v)]]))
            && (cols != [] ==> |t.rows| == |kept| && cols <= t.columns && name in t.columns
                               && t.columns == (if name in cols then cols else cols + [name])
                               && forall i :: 0 <= i < |t.rows| ==>
                                    name in t.rows[i] && t.rows[i][name] == Stat(v)
                                    && t.rows[i] == (map c | c in cols :: Copied(CellAt(kept[i], c)))[name := Stat(v)])
  {
    var cols := ResolvedLabels(Iterated(ShowList(req)), maps);
    assert ResultTable(req, ds, maps, kept) == Merge(Project(kept, cols), name, Stat(v));
    MergedProjection(kept, cols, name, Stat(v));
  }

  /** Merging a value into the projection of at least one row. */
  lemma MergedProjection(kept: seq<Row>, cols: seq<string>, name: string, v: Value)
    requires kept != []
    ensures var t := Merge(Project(kept, cols), name, v);
            (cols == [] ==> t == Table([name], [map[name := v]]))
            && (cols != [] ==> |t.rows| == |kept| && cols <= t.columns && name in t.columns
                               && t.columns == (if name in cols then cols else cols + [name])
                               && forall i :: 0 <= i < |t.rows| ==>
                                    name in t.rows[i] && t.rows[i][name] == v
                                    && t.rows[i] == (map c | c in cols :: Copied(CellAt(kept[i], c)))[name := v])
  {
    ProjectContents(kept, cols);
    MergeProperties(Project(kept, cols), name, v);
  }

  /** The ranking, group-by and correlation fields never change the returned
      table. */
  lemma ReportsKeepTable(req: map<string, Json>, ds: Dataset, k: string, v: Json)
    requires k == "ranking" || k == "group_by" || k == "correlation"
    ensures Query(req[k := v], ds).table == Query(req, ds).table
  {
    ReportFieldsAreOther(k);
    var maps := SheetMaps(ds.headers);
    TableIgnores(req, ds, maps, k, v);
    assert Query(req[k := v], ds).table == TableOf(req[k := v], ds, maps);
  }

  /** The report fields are none of the fields the table reads. */
  lemma ReportFieldsAreOther(k: string)
    requires k == "ranking" || k == "group_by" || k == "correlation"
    ensures k !in FilterKeys && k != "columns_to_show" && k != "column_operation" && k != "operation"
  {
  }

  /** The returned table reads only the filter keys, the shown columns and the
      aggregation fields. */
  lemma TableIgnores(req: map<string, Json>, ds: Dataset, maps: Maps, k: string, v: Json)
    requires k !in FilterKeys && k != "columns_to_show" && k != "column_operation" && k != "operation"
    ensures TableOf(req[k := v], ds, maps) == TableOf(req, ds, maps)
  {
    GatheredIgnoresOtherKeys(req, FilterKeys, k, v);
    ResultTableIgnores(req, ds, maps, FilterStage(PredicateList(req), ds.rows, maps), k, v);
  }

  /** The result table reads only the shown columns and the aggregation fields. */
  lemma ResultTableIgnores(req: map<string, Json>, ds: Dataset, maps: Maps, kept: seq<Row>, k: string, v: Json)
    requires k != "columns_to_show" && k != "column_operation" && k != "operation"
    ensures ResultTable(req[k := v], ds, maps, kept) == ResultTable(req, ds, maps, kept)
  {
    var req' := req[k := v];
    assert ShowList(req') == ShowList(req);
    assert Get(req', "column_operation") == Get(req, "column_operation");
    assert Get(req', "operation") == Get(req, "operation");
    assert OperationValue(req', ds, maps) == OperationValue(req, ds, maps);
  }

  // ---------------------------------------------------------------- the engine

  /** The result DataFrame while the engine builds it. */
  class Frame {
    var columns: seq<string>
    var rows: seq<map<string, Value>>

    constructor (t: Table)
      ensures columns == t.columns && rows == t.rows
    {
      columns := t.columns;
      rows := t.rows;
    }

    function Snapshot(): Table
      reads this
    {
      Table(columns, rows)
    }

    predicate Empty()
      reads this
    {
      columns == [] || rows == []
    }

    /** `resultado[name] = v`. */
    method Assign(name: string, v: Value)
      modifies this
      ensures Snapshot() == Broadcast(old(Snapshot()), name, v)
    {
      if name !in columns {
        columns := columns + [name];
      }
      var before := rows;
      rows := seq(|before|, i requires 0 <= i < |before| => before[i][name := v]);
    }
  }

  /** The filter stage as the engine runs it: collect the predicates, and
      when there are any, group them and build the mask. */
  method FilterStep(req: map<string, Json>, rows: seq<Row>, maps: Maps) returns (kept: seq<Row>, notes: seq<Report>)
    ensures kept == FilterStage(PredicateList(req), rows, maps)
    ensures notes == FilterNotes(req)
  {
    var filtros := CollectPredicates(req);
    if filtros != [] {
      var termos := GroupTerms(filtros, maps);
      kept := FilterRows(rows, termos);
      notes := [];
    } else {
      kept := rows;
      notes := [NoFilters];
    }
  }

  /** Projection and aggregation as the engine runs them: the projection
      loop, then the value assigned into the result frame. */
  method BuildResult(req: map<string, Json>, ds: Dataset, maps: Maps, kept: seq<Row>) returns (t: Table)
    ensures t == ResultTable(req, ds, maps, kept)
  {
    var colunas := ProjectColumns(Iterated(ShowList(req)), maps);
    var resultado := new Frame(Project(kept, colunas));
    var op := OperationValue(req, ds, maps);
    if op.Some? {
      var (name, v) := op.value;
      if resultado.Empty() {
        resultado := new Frame(Table([name], [map[name := Stat(v)]]));
      } else {
        resultado.Assign(name, Stat(v));
      }
    }
    t := resultado.Snapshot();
  }

  /** The engine: the filter, the short-circuit, the result, then the reports. */
  method RunQuery(req: map<string, Json>, ds: Dataset) returns (out: Outcome)
    ensures out == Query(req, ds)
  {
    var maps := SheetMaps(ds.headers);
    var kept, notes := FilterStep(req, ds.rows, maps);
    if kept == [] {
      return Outcome(EmptyTable, notes + [NoResults]);
    }
    var resultado := BuildResult(req, ds, maps, kept);
    out := Outcome(resultado, notes + LaterReports(req, ds, maps));
  }
}
