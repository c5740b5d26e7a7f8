# Spreadsheet query engine — a Dafny model

This project models `executar_pesquisa`, the query engine of the Langflow
spreadsheet component (`codigo/langflow.py`). The engine takes a decoded JSON
request and answers it over a loaded sheet, in a fixed sequence of stages:

1. **Column resolver** (`mapear_coluna`). A free-form label is trimmed and
   lower-cased. It then resolves by trying, in order:
   - the alias table, when the alias's lower-cased target is a header;
   - an exact header key;
   - the first header key, in column order, that contains the label as a substring.

   Every caller keeps the result only when it is truthy, so a resolved
   empty header `""` is dropped like an unresolved label.
2. **Predicate collection.** Filter items are gathered from the list values of
   `data`, `filter`, `filtros` and `filters`, in that key order. An item is kept
   only when it is a dict holding both `column_name` and `value`.
3. **Filter.** The mask is an AND across resolved columns. Within one column it
   is an OR across the values given for it: a value matches when its
   lower-cased text occurs in the lower-cased cell text. When no row survives,
   the query stops with an empty table.
4. **Projection.** The columns to show are the resolved labels, in request order.
5. **Percent normaliser** (`converter_para_numero`). If a text column holds a
   `%` in any of its stripped values, every value has its `%` removed, `,`
   read as `.`, and its number divided by 100. Otherwise the raw cells are
   parsed. Anything unparseable becomes missing in both cases.
6. **Scalar aggregation.** An if-chain over the operation name computes a
   statistic. It is merged into the result as a column named
   `operation + "_" + column`.
7. **Ranking, group-by and correlation.** These only print. The model returns
   what they print as reports.

Two behaviours of the code are kept as written:
- The normaliser reads the whole, unfiltered sheet. So aggregation,
  ranking and correlation ignore the filter.
- The filter's `str.contains` is modelled as literal substring containment.

## Layout

- `wrappers.dfy`: `Option`.
- `text.dfy`: the Python string functions the engine uses. These are
  `lower`, `strip`, `in` on strings and `replace`, plus an exact decimal parser
  standing in for `pd.to_numeric`.
- `json.dfy`: request values, `dict.get`, Python truthiness and `str()`.
- `sheet.dfy`: cells, rows and the dataset. A missing cell prints as `nan`.
- `columns.dfy`: the alias table, the header index (`normalizar_colunas`) and
  the resolver. The resolver takes both tables as one `Maps` value;
  `SheetMaps` pairs the fixed alias table with a sheet's index.
- `numeric.dfy`: the normaliser and the statistics, the median by an
  insertion sort of the present values. Values are exact rationals.
- `filter.dfy`: predicate collection, grouping terms by column, and the masks.
  These are methods over `array<bool>`, each proved against a specification
  function.
- `ranking.dfy`: `sort_values` (missing values last) and `head(n)`.
- `query.dfy`: the stages composed, the result `Frame` class, and the
  engine method `RunQuery`.

The loaded sheet is a parameter: its headers, already trimmed, in column order,
and its rows as maps from header to cell. The header index is a sequence of
(key, header) pairs, so that "first in column order" can be stated. It keeps
Python's dict semantics: a repeated key keeps its first position and takes
the last header.

## Model

| member | source | states |
|---|---|---|
| Columns.LoweredDictEntries | codigo/langflow.py:13-74 | every entry of the lowered alias dict is some pair of the literal with both sides lower-cased |
| Columns.LoweredDictCovers | codigo/langflow.py:13-74 | every alias of the literal, lower-cased, is a key of the lowered dict |
| Columns.LoweredEntryIsLower | codigo/langflow.py:74 | each entry of the lowered dict comes from a literal pair and its key is already lower case |
| Columns.LoweredKeysAreLower | codigo/langflow.py:74 | the lowered dict has distinct keys, all lower case, so a lowered label is looked up as is |
| Columns.SoleAliasLooksUpItsTarget | codigo/langflow.py:74 | an alias no other alias shares once lower-cased looks up its own target, lower-cased |
| Columns.Lookup | codigo/langflow.py:85-90 | dict lookup: None exactly when the key is absent; otherwise the value paired with the key, the only one when keys are distinct |
| Columns.Put | codigo/langflow.py:78 | dict assignment: a new key is appended, an existing key keeps its position and takes the new value, other entries are unchanged, keys stay distinct |
| Columns.FromPairs | codigo/langflow.py:78 | a dict built from pairs has distinct keys and no more entries than pairs |
| Columns.FromPairsEntries | codigo/langflow.py:78 | every entry of the built dict is the last pair carrying its key |
| Columns.FromPairsCovers | codigo/langflow.py:78 | every pair's key is present in the built dict |
| Columns.FromPairsOfDistinct | codigo/langflow.py:78 | with distinct keys, the built dict is the pair list itself |
| Columns.HeaderIndex | codigo/langflow.py:77-78 | the header index has distinct keys |
| Columns.HeaderIndexEntries | codigo/langflow.py:77-78 | each index entry maps a key to a sheet header whose key it is, and no later header has that key |
| Columns.HeaderIndexCovers | codigo/langflow.py:77-78 | every header's key is in the index |
| Columns.HeaderIndexOfDistinct | codigo/langflow.py:77-78 | when header keys are distinct, the index lists every header in column order |
| Columns.FirstContaining | codigo/langflow.py:91-93 | None exactly when no key contains the label; otherwise the header of the first key, in index order, that contains it |
| Columns.Resolve | codigo/langflow.py:81-94 | a resolved column is a header of the index |
| Columns.ResolvesToHeader | codigo/langflow.py:77-94 | every column the resolver returns over a sheet's index is one of that sheet's headers |
| Columns.ColumnOfIff | codigo/langflow.py:129 | a request field gives a column exactly when it is a string that resolves to a non-empty header, and that header is the column; a resolved "" is dropped as falsy, as `if coluna_real:` and the other truthiness tests do |
| Columns.ColumnOfIsHeader | codigo/langflow.py:154 | a column a request field gives is a non-empty header of the sheet |
| Columns.ResolveEmpty | codigo/langflow.py:82-83 | an absent or empty label resolves to nothing |
| Columns.ResolveNoneIff | codigo/langflow.py:81-94 | a label fails to resolve exactly when it is empty, or no alias hits and no key contains its trimmed lower-cased form |
| Columns.ResolveAliasWins | codigo/langflow.py:84-88 | an alias whose lower-cased target is a key resolves to that key's header, before any exact or substring match |
| Columns.ResolveExactAfterAlias | codigo/langflow.py:85-90 | when no alias hits, including an alias whose target is absent, an exact key resolves to its header |
| Columns.ResolveFirstSubstring | codigo/langflow.py:89-93 | with neither an alias hit nor an exact key, the label resolves to the first key in index order that contains it |
| Columns.AliasesAgree | codigo/langflow.py:84-88 | two labels that are aliases of the same present target resolve to the same header |
| Columns.BlankLabelResolvesToFirstColumn | codigo/langflow.py:84-93 | a non-empty all-whitespace label strips to "", which every key contains, so it resolves to the first column |
| Text.Lower | codigo/langflow.py:84 | `str.lower`: same length, each character lowered, no upper-case letter left |
| Text.LowerIdempotent | codigo/langflow.py:74 | lower-casing twice is lower-casing once |
| Text.Trim | codigo/langflow.py:84 | `str.strip`: the result is the input with its leading and trailing whitespace removed, and neither starts nor ends with whitespace |
| Text.TrimOfTrimmed | codigo/langflow.py:107 | a text with no whitespace at either end strips to itself |
| Text.ContainsIff | codigo/langflow.py:92 | `needle in hay` holds exactly when the needle is a prefix of some suffix of hay |
| Text.ContainsEmptyAndSelf | codigo/langflow.py:92 | every text contains "" and itself |
| Text.RemoveChar | codigo/langflow.py:109 | `replace("%", "")`: no '%' left, every other character kept with its count, unchanged when there was none |
| Text.ReplaceCharAt | codigo/langflow.py:110 | `replace(",", ".")`: each position changes exactly when it held ',' |
| Text.ReplaceAbsent | codigo/langflow.py:110 | replacing an absent character changes nothing |
| Text.ReplaceConcat | codigo/langflow.py:110 | replacement works piecewise on a concatenation |
| Text.NatTextValue | codigo/langflow.py:111 | the digits of `str(n)` read back as n |
| Text.ParseIntText | codigo/langflow.py:111 | the decimal parser reads `str(i)` as i, for every integer including negatives |
| Text.ParseFraction | codigo/langflow.py:111 | "w.f" parses to w plus the fraction the digits f denote |
| Text.ParseDigitsDotDigits | codigo/langflow.py:111 | "d.f" parses to the value of d plus the fraction of f |
| Text.NoDigitNoNumber | codigo/langflow.py:111 | a text without a digit does not parse as a number |
| Numeric.Normalize | codigo/langflow.py:104-113 | one normalised value per cell of the column |
| Numeric.PercentColumn | codigo/langflow.py:106-112 | once one stripped text value holds a '%', every cell of the column takes the percent path |
| Numeric.PercentOfText | codigo/langflow.py:107-111 | in such a column, a cell "u%" normalises to v / 100 when u, with ',' read as '.', parses to v |
| Numeric.PercentOfInteger | codigo/langflow.py:107-111 | a cell "n%" normalises to n / 100 |
| Numeric.DecimalCommaText | codigo/langflow.py:110-111 | with the comma read as a point, "d,f" reads as exactly the numbers "d.f" parses to |
| Numeric.PercentOfDecimalComma | codigo/langflow.py:107-111 | a cell "d,f%" normalises to the value of "d.f" divided by 100 |
| Numeric.PercentValueOfPlain | codigo/langflow.py:109-111 | on the percent path, a plain "n" without '%' also becomes n / 100 |
| Numeric.PercentColumnRescalesPlainValues | codigo/langflow.py:106-111 | the percent decision is made once per column: beside any '%' value, a plain "n" cell becomes n / 100 |
| Numeric.PlainColumn | codigo/langflow.py:113 | without any '%', a number keeps its value, a missing cell stays missing, a text cell becomes exactly its parse (missing when it does not parse) and the text of an integer parses to that integer |
| Numeric.PercentUnparsedIsMissing | codigo/langflow.py:108-111 | on the percent path, a cell whose cleaned text does not parse becomes missing |
| Numeric.DigitFreeTextIsMissing | codigo/langflow.py:106-113 | a text cell without a digit becomes missing on either path |
| Numeric.Present | codigo/langflow.py:170-188 | `dropna()`: the present values with their multiplicities, and as many as the column has non-missing cells |
| Numeric.PresentMembers | codigo/langflow.py:170-188 | a value is present exactly when it occurs in the column |
| Numeric.Max | codigo/langflow.py:176 | `max()` is a value of the list and no value exceeds it |
| Numeric.Min | codigo/langflow.py:178 | `min()` is a value of the list and no value is below it |
| Numeric.SumBounds | codigo/langflow.py:172 | a sum of values within [lo, hi] lies between n·lo and n·hi |
| Numeric.MeanBetweenMinAndMax | codigo/langflow.py:170 | the mean lies between the minimum and the maximum |
| Numeric.MeanBounds | codigo/langflow.py:170 | the mean of values within [lo, hi] lies within [lo, hi] |
| Numeric.Favourite | codigo/langflow.py:182 | among candidates, the most frequent value, the smallest on a tie |
| Numeric.Mode | codigo/langflow.py:182 | `mode()[0]` is a value of the list, at least as frequent as any other, and the smallest among the most frequent |
| Numeric.ModeUnique | codigo/langflow.py:182 | any value meeting the mode's conditions is the mode |
| Numeric.InsertReal | codigo/langflow.py:184 | inserting into an ascending list keeps it ascending and adds exactly the one value |
| Numeric.SortReals | codigo/langflow.py:184 | the values in ascending order, with the same multiplicities |
| Numeric.SortedValueInRange | codigo/langflow.py:184 | every value of the sorted list is one of the values and lies between the minimum and the maximum |
| Numeric.MedianBetweenMinAndMax | codigo/langflow.py:184 | the median of the sorted values lies between the minimum and the maximum, and is one of the values for an odd count |
| Numeric.AggregateDefinedIff | codigo/langflow.py:169-188 | the if-chain assigns a value exactly when the operation is one of the ten it knows, except `moda` over a column with no present value |
| Numeric.DifferenceIsMaxMinusMin | codigo/langflow.py:175-180 | `diferenca` is `maximo - minimo`; all three are NaN on a column with no present value |
| Numeric.CountIsPresentValues | codigo/langflow.py:173-174 | `contagem` counts the non-missing values |
| Numeric.MeanWithinRange | codigo/langflow.py:169-178 | a defined `media` lies between `minimo` and `maximo` |
| Numeric.MedianWithinRange | codigo/langflow.py:183-184 | `mediana` is NaN without a present value; otherwise a number between `minimo` and `maximo` |
| Numeric.ModeIsMostFrequent | codigo/langflow.py:181-182 | `moda` is a present value occurring at least as often as any present value |
| Json.PyStr | codigo/langflow.py:136 | `str(v)`: null gives "None", booleans "True" and "False", a string itself, an integer its decimal text, which reads back as that integer; lists and dicts are not rendered |
| Filter.PredicatesOf | codigo/langflow.py:122 | the comprehension keeps at most as many predicates as there are items |
| Filter.PredicatesOfConcat | codigo/langflow.py:122 | the comprehension distributes over concatenated lists |
| Filter.PredicatesOfMembers | codigo/langflow.py:122 | a predicate is kept exactly when some item is a dict holding both `column_name` and `value` and carries it |
| Filter.PredicateListInKeyOrder | codigo/langflow.py:118-122 | the predicate list is the comprehension over the lists under "data", "filter", "filtros" and "filters", laid end to end in that order; a non-list value contributes nothing |
| Filter.GatheredIgnoresOtherKeys | codigo/langflow.py:119-120 | keys other than the filter keys do not change the predicate list |
| Filter.CollectPredicates | codigo/langflow.py:118-122 | the collection loop produces the predicate list |
| Filter.ResolvedTerms | codigo/langflow.py:127-130 | at most one (header, value) term per predicate |
| Filter.ResolvedTermsFromPredicates | codigo/langflow.py:127-130 | every term is the resolved header and the value of some predicate |
| Filter.ResolvedTermsCover | codigo/langflow.py:127-130 | every predicate whose column resolves leaves its term |
| Filter.GroupPosition | codigo/langflow.py:130 | the position of a header in the grouping, or its end when absent |
| Filter.AddTerm | codigo/langflow.py:130 | `setdefault(col, []).append(v)`: a present header takes v at the end of its list in place, a new header is appended with [v]; every other entry is unchanged |
| Filter.Group | codigo/langflow.py:126-130 | the grouping has distinct headers |
| Filter.ValuesOfNonEmpty | codigo/langflow.py:130 | a header with values is named by some term |
| Filter.GroupCovers | codigo/langflow.py:126-130 | every term's header has an entry |
| Filter.GroupEntries | codigo/langflow.py:126-130 | each entry holds a named header with all its values, in term order |
| Filter.GroupAbsent | codigo/langflow.py:126-130 | a header without an entry has no values |
| Filter.GroupTerms | codigo/langflow.py:126-130 | the grouping loop builds the grouping of the resolved terms |
| Filter.AnyMatchesIff | codigo/langflow.py:134-136 | OR within a column: the column mask holds exactly when some listed value occurs in the text |
| Filter.SurvivesIff | codigo/langflow.py:132-137 | AND across columns: a row survives exactly when every grouped column matches |
| Filter.Filtered | codigo/langflow.py:139 | `df.loc[filtro]` keeps no more rows than the sheet has |
| Filter.FilteredMembers | codigo/langflow.py:139 | a row is kept exactly when it is a row of the sheet that survives |
| Filter.FilteredConcat | codigo/langflow.py:139 | filtering works piecewise, so it keeps the sheet's row order |
| Filter.FilteredNoColumns | codigo/langflow.py:125 | with no column to test, every row is kept |
| Filter.GroupEntryPasses | codigo/langflow.py:132-136 | one entry's OR holds exactly when some term on its header matches |
| Filter.SurvivesTermsIff | codigo/langflow.py:124-137 | a row survives exactly when every resolved header has a term whose value occurs in the row's lower-cased cell text |
| Filter.AnyValuesOf | codigo/langflow.py:132-136 | or-ing over one header's values is a search among the terms on that header |
| Filter.ColumnMask | codigo/langflow.py:133-136 | `filtro_col` marks exactly the rows whose text contains one of the values |
| Filter.AndInto | codigo/langflow.py:137 | `filtro &= filtro_col`, element by element, touching nothing else |
| Filter.GroupsMask | codigo/langflow.py:125-137 | the mask is true exactly at the rows that survive every column |
| Filter.SurvivesStep | codigo/langflow.py:137 | and-ing one more column narrows survival by that column's OR |
| Filter.SelectRows | codigo/langflow.py:139 | selecting by the mask gives the filtered rows |
| Filter.FilterRows | codigo/langflow.py:124-139 | the mask loops give exactly the filtered rows |
| Query.FilterStage | codigo/langflow.py:124-142 | the filter keeps no more rows than the sheet has |
| Query.FilterStageMembers | codigo/langflow.py:124-142 | a row is kept exactly when it passes every resolved term, as SurvivesTermsIff states; unresolved predicates are dropped |
| Query.FilterStageOrder | codigo/langflow.py:139 | the filter keeps the sheet's row order |
| Query.FilterStageUnresolved | codigo/langflow.py:124-142 | when no predicate was given or none resolves, every row survives |
| Query.FilterStep | codigo/langflow.py:118-142 | the engine's collection and filtering give the filter stage, and the no-filter note exactly when no predicate was given |
| Query.ShortCircuit | codigo/langflow.py:144-146 | when no row survives, the table is empty and the only reports are the filter note (if any) and the no-results report |
| Query.ResolvedLabels | codigo/langflow.py:151-155 | at most one header per label; unresolved labels and the empty header are dropped |
| Query.ResolvedLabelsMembers | codigo/langflow.py:151-155 | a header is shown exactly when some label resolves to it |
| Query.ResolvedLabelsConcat | codigo/langflow.py:151-155 | the shown headers follow request order |
| Query.ResolvedLabelsStep | codigo/langflow.py:152-155 | one more label appends exactly the header it gives, if any |
| Query.ResolvedLabelsAreHeaders | codigo/langflow.py:151-155 | every shown header is a non-empty header of the sheet |
| Query.ProjectColumns | codigo/langflow.py:151-155 | the projection loop, which appends a mapped header only when it is truthy, builds the resolved labels |
| Query.ProjectContents | codigo/langflow.py:157 | no shown header gives the empty table; otherwise the shown headers in order, one row per kept row with exactly those headers and the row's cells |
| Query.OperationValueIff | codigo/langflow.py:162-188 | a value is set exactly when both fields are truthy, the column resolves, the operation is a string and the chain assigns; its column is named operation + "_" + header |
| Query.UnknownOperationKeepsTable | codigo/langflow.py:169-190 | an unknown operation leaves the table unchanged |
| Query.OperationIgnoresFilters | codigo/langflow.py:104-113 | the statistic does not depend on the filter fields, because the normaliser reads the unfiltered sheet |
| Query.MergeProperties | codigo/langflow.py:190-194 | an empty table becomes the single row {name: value}; otherwise the columns gain exactly `name` (appended when new, in place when present) and each row gains exactly `name` holding the value, keeping its other cells |
| Query.RankingRequestProperties | codigo/langflow.py:199-206 | a ranking report exactly when the column resolves and n is an integer or null; it ranks that column under that limit; at most one report, ascending exactly when order is "asc", min(n, rows) entries for a limit n >= 0 and min(5, rows) when n is absent, sorted with missing values last, made of the sheet's own rows and values, and every ranked row ahead of every row left out |
| Query.RankFacts | codigo/langflow.py:205-206 | the ranking is well ranked and has min(n, length) entries for a limit n >= 0, so min(5, length) under the default |
| Query.RankingReportProperties | codigo/langflow.py:199-200 | no ranking report unless the field is a truthy dict; otherwise the report for that dict |
| Query.GroupGuard | codigo/langflow.py:212-215 | a group-by report is made exactly when the field is truthy, some label resolves and the operation column resolves; it names those headers and that column |
| Query.CorrelationGuard | codigo/langflow.py:222-224 | a correlation is reported exactly when the field is truthy and exactly two labels resolve |
| Query.NotesThenNoResults | codigo/langflow.py:141-145 | the no-filter note precedes the no-results report exactly when no predicate was given |
| Query.ProjectionOnly | codigo/langflow.py:151-157 | without an aggregation value, the table is the projection of the kept rows onto the labels iterated from `columns_to_show` (a list's items, a string's characters) |
| Query.ProjectionShown | codigo/langflow.py:151-157 | without an aggregation value and with a shown column, the table has exactly the shown headers in request order and one row per kept row holding that row's cells |
| Query.AggregationMerged | codigo/langflow.py:190-194 | with an aggregation value: with no shown column, the single row {name: value}; otherwise the shown columns plus `name` (appended when new) and, for each kept row in order, its shown cells plus the value under `name` |
| Query.MergedProjection | codigo/langflow.py:157-194 | merging a value into the projection of at least one row gives the single row {name: value} with no shown column, and otherwise the shown columns plus `name` with each row's shown cells plus the value |
| Query.ReportsKeepTable | codigo/langflow.py:199-228 | the ranking, group-by and correlation fields never change the returned table |
| Query.ReportFieldsAreOther | codigo/langflow.py:199-228 | the report fields are none of the fields the table reads |
| Query.TableIgnores | codigo/langflow.py:118-194 | the table reads only the filter keys, the shown columns and the aggregation fields |
| Query.ResultTableIgnores | codigo/langflow.py:151-194 | the result built from the kept rows reads only the shown columns and the aggregation fields |
| Query.Frame.constructor | codigo/langflow.py:157 | the frame starts as the given table |
| Query.Frame.Assign | codigo/langflow.py:194 | assigning a column broadcasts it into the frame's state |
| Query.BuildResult | codigo/langflow.py:151-194 | the projection and the in-place aggregation produce the result table |
| Query.RunQuery | codigo/langflow.py:11-230 | the engine's outcome is the query's table and reports |
| Ranking.Insert | codigo/langflow.py:206 | insertion adds exactly one entry |
| Ranking.InsertSorted | codigo/langflow.py:206 | inserting into a sorted series keeps it sorted |
| Ranking.Sort | codigo/langflow.py:206 | `sort_values`: a sorted permutation of the series, with missing values after present ones |
| Ranking.Head | codigo/langflow.py:206 | `head(n)`: a prefix of n entries, `|s| + n` for negative n, all of them for no limit |
| Ranking.SortedPrefix | codigo/langflow.py:206 | a prefix of a sorted series is sorted |
| Ranking.RankSorted | codigo/langflow.py:206 | the ranking is in the requested order, and no present value follows a missing one |
| Ranking.RankLength | codigo/langflow.py:206 | `head(n)` of the sorted column: min(n, length) entries for n >= 0, length + n (at least 0) for negative n, and all of them for no limit |
| Ranking.RankEntries | codigo/langflow.py:205-206 | every entry is a row of the column with its own value, and no row appears twice |
| Ranking.SortedDistinctRows | codigo/langflow.py:205-206 | the sorted series lists each row once |
| Ranking.RankTop | codigo/langflow.py:206 | every ranked row precedes every row the ranking leaves out |
| Ranking.RankWellRanked | codigo/langflow.py:205-206 | the ranking is sorted, made of the column's rows, and a top-n selection |

## Left out

- Excel loading (`pd.read_excel` and header trimming, codigo/langflow.py:97-98) is file I/O. The sheet is a parameter whose headers are taken as already trimmed.
- The Langflow component wrapper (codigo/langflow.py:236-276) is framework glue, and so is its JSON decoding. The request is a decoded JSON object.
- The `print` calls (codigo/langflow.py:141, 145, 207, 217, 228) are console output. The model returns them as `Report` values rather than text.
- `desvio_padrao` needs a square root. The model returns `Uncomputed` for it, or NaN where pandas gives NaN (fewer than two present values). `mediana`, `media`, `soma`, `variancia` and the others are exact over rationals; rounding of floating point is not modelled.
- Group-by (codigo/langflow.py:212-217): only its guard and the headers it names are modelled. The means are not computed: `groupby(...).mean()` runs over the raw column. On an operation column of text cells (for example percentages stored as "10%") the source's `mean()` raises TypeError and the function fails; the model still returns the table and a group-by report.
- Correlation (codigo/langflow.py:222-228): only the "exactly two labels resolve" guard and the two headers are modelled. The Pearson coefficient needs a square root.
- Filter.Matches: pandas `str.contains` reads the filter value as a regular expression by default. The model tests literal substring containment.
- Text.LowerChar: lowers ASCII and Latin-1 upper-case letters only. Python's full Unicode case mapping is not modelled.
- Text.ParseDecimal: stands in for `pd.to_numeric` with an exact parser. It accepts an optional sign, digits and at most one point with digits on one side at least. Exponents, surrounding whitespace, `inf` and `nan` are not modelled.
- Text.Fraction: the value of a fraction's digits is defined digit by digit. No lemma relates it to an integer over a power of ten.
- Numeric.PercentOfDecimalComma: it states the cell's value through the value of "d.f". Text.ParseDigitsDotDigits gives that value as the digits' value plus their fraction.
- Columns.Resolve: a truthy label that is not a string makes the source fail, when it calls `.strip()`. The model treats such a label as unresolved.
- Query.RankingRequest: a truthy ranking value that is not a dict, or an `n` that is neither an integer nor null, makes the source fail. The model gives no ranking report.
- Query.Iterated: iterating a dict for `columns_to_show`, `group_by` or `correlation` yields its keys in the source. Iterating a number, a boolean or null (an explicit `"columns_to_show": null`) raises TypeError at codigo/langflow.py:152. The model yields no items in all these cases.
- Json.PyStr: a filter value that is a list or dict prints in the source as its Python representation. The model treats it as matching nothing.
- Json request numbers are integers only. Non-integer JSON numbers are not modelled.
- Ranking.Sort: a stable insertion sort puts ties in row order. pandas's default sort does not promise an order for ties, so no lemma states one.
- Sheet.Row: a row maps each header to one cell. Two headers that are equal after the strip at codigo/langflow.py:98 (for example "Market" and "Market ") are not modelled. There `df[col]` is a DataFrame, so the `.dtype` test at :106 and the `.astype(str).str` call at :133 fail. The model keeps one cell per header and answers.
- Datetime and other non-text, non-number cells are not modelled. A cell is text, a number with its printed form, or missing.
- Columns.SoleAliasLooksUpItsTarget: the lowered alias dict is proved to have distinct lower-case keys for any list of pairs. An alias looks up its own target only when no other alias lowers to the same key. The 58 aliases of the literal are pairwise distinct, but that pairwise comparison of literal strings is not proved: it is beyond the solver budget.
- Concrete alias scenarios (for example, that "cliente" resolves to "Customer Name" on a given sheet) are not evaluated. The alias lemmas are stated over any label, any alias table and any index.
