/** Numeric normalisation (`converter_para_numero`) and the scalar statistics
    pandas computes over the normalised column, all over exact rationals:
    a missing value is None and every statistic skips it. */
module Numeric {
  import opened Wrappers
  import opened Text
  import opened Sheet

  // ---------------------------------------------------------------- normalisation

  /** `serie.str.contains("%").any()` on the stripped text of the column. */
  predicate HasPercent(cells: seq<Cell>) {
    exists i :: 0 <= i < |cells| && Contains(Trim(CellText(cells[i])), "%")
  }

  /** The text the percent path parses: stripped, every '%' removed and ','
      read as the decimal point. */
  function Cleaned(t: string): string {
    ReplaceChar(RemoveChar(Trim(t), '%'), ',', '.')
  }

  /** The percent path for one cell: its text stripped, every '%' removed,
      ',' read as the decimal point, parsed, and divided by 100. */
  function PercentValue(c: Cell): Option<real> {
    match ParseDecimal(Cleaned(CellText(c)))
    case Some(v) => Some(v / 100.0)
    case None => None
  }

  /** `pd.to_numeric(cell, errors="coerce")` on the raw cell. */
  function PlainValue(c: Cell): Option<real> {
    match c
    case Number(v, _) => Some(v)
    case Str(t) => ParseDecimal(t)
    case Missing => None
  }

  /** `converter_para_numero`: a text column in which any stripped value holds
      a '%' is rescaled as a whole; every other column is parsed as it is. */
  function Normalize(cells: seq<Cell>): (xs: seq<Option<real>>)
    ensures |xs| == |cells|
  {
    if HoldsText(cells) && HasPercent(cells) then
      seq(|cells|, i requires 0 <= i < |cells| => PercentValue(cells[i]))
    else
      seq(|cells|, i requires 0 <= i < |cells| => PlainValue(cells[i]))
  }

  /** RemoveChar and ReplaceChar work piecewise on a concatenation. */
  lemma RemoveConcat(a: string, b: string, c: char)
    ensures RemoveChar(a + b, c) == RemoveChar(a, c) + RemoveChar(b, c)
  {
    if a == [] {
      assert a + b == b;
    } else {
      assert (a + b)[0] == a[0];
      assert (a + b)[1..] == a[1..] + b;
      RemoveConcat(a[1..], b, c);
    }
  }

  /** Once one stripped text value holds a '%', the whole column takes the
      percent path. */
  lemma PercentColumn(cells: seq<Cell>, i: int)
    requires 0 <= i < |cells| && cells[i].Str? && Contains(Trim(cells[i].text), "%")
    ensures forall j :: 0 <= j < |cells| ==> Normalize(cells)[j] == PercentValue(cells[j])
  {
    assert HoldsText(cells);
    assert HasPercent(cells);
  }

  lemma DigitsHaveNoComma(t: string)
    requires AllDigits(t)
    ensures ReplaceChar(t, ',', '.') == t
    ensures '%' !in t
  {
    assert forall k :: 0 <= k < |t| ==> t[k] != ',' && t[k] != '%';
    ReplaceAbsent(t, ',', '.');
  }

  /** `u` starts with no whitespace, holds no '%', and with ',' read as '.'
      parses to `v`. */
  predicate ReadsAs(u: string, v: real) {
    u != [] && !IsSpace(u[0]) && '%' !in u && ParseDecimal(ReplaceChar(u, ',', '.')) == Some(v)
  }

  /** The percent path on a text `u` followed by one '%': the '%' is dropped
      and the rest is read with ',' as the decimal point. */
  lemma PercentFromParse(u: string, v: real)
    requires ReadsAs(u, v)
    ensures PercentValue(Str(u + "%")) == Some(v / 100.0)
  {
    StripSuffixed(u);
    DropPercent(u);
    assert CellText(Str(u + "%")) == u + "%";
  }

  lemma StripSuffixed(u: string)
    requires u != [] && !IsSpace(u[0])
    ensures Trim(u + "%") == u + "%"
  {
    var t := u + "%";
    assert t[0] == u[0] && t[|t| - 1] == '%';
    TrimOfTrimmed(t);
  }

  lemma DropPercent(u: string)
    requires '%' !in u
    ensures RemoveChar(u + "%", '%') == u
  {
    RemoveConcat(u, "%", '%');
    assert RemoveChar("%", '%') == [];
  }

  /** A text ending in '%' marks its column as a percent column. */
  lemma MarkedText(u: string)
    requires u != [] && !IsSpace(u[0])
    ensures Contains(Trim(u + "%"), "%")
  {
    var t := u + "%";
    StripSuffixed(u);
    assert "%" <= t[|t| - 1..];
    ContainsIff(t, "%");
  }

  lemma CommaToPoint(d: string, f: string)
    requires AllDigits(d) && AllDigits(f)
    ensures ReplaceChar(d + "," + f, ',', '.') == d + "." + f
    ensures '%' !in d + "," + f
  {
    DigitsHaveNoComma(d);
    DigitsHaveNoComma(f);
    ReplaceConcat(d + ",", f, ',', '.');
    ReplaceConcat(d, ",", ',', '.');
    assert ReplaceChar(",", ',', '.') == ".";
    var u := d + "," + f;
    assert forall k :: 0 <= k < |d| ==> u[k] == d[k];
    assert forall k :: |d| < k < |u| ==> u[k] == f[k - |d| - 1];
  }

  /** With the comma read as a point, "d,f" reads as exactly the numbers
      "d.f" parses to (ParseDigitsDotDigits gives that value). */
  lemma DecimalCommaText(d: string, f: string, v: real)
    requires |d| > 0 && AllDigits(d) && AllDigits(f)
    ensures ReadsAs(d + "," + f, v) <==> ParseDecimal(d + "." + f) == Some(v)
  {
    CommaToPoint(d, f);
    assert (d + "," + f)[0] == d[0];
  }

  /** "n" reads as n. */
  lemma IntegerText(n: nat)
    ensures ReadsAs(NatText(n), n as real)
  {
    DigitsHaveNoComma(NatText(n));
    ParseIntText(n);
  }

  /** "n" without a '%' is also n / 100 on the percent path. */
  lemma PercentValueOfPlain(n: nat)
    ensures PercentValue(Str(NatText(n))) == Some(n as real / 100.0)
  {
    var t := NatText(n);
    TrimOfTrimmed(t);
    DigitsHaveNoComma(t);
    ParseIntText(n);
  }

  /** A string cell `u` + "%" in a percent column normalises to v / 100
      when `u` reads as v. */
  lemma PercentOfText(cells: seq<Cell>, i: int, u: string, v: real)
    requires ReadsAs(u, v)
    requires 0 <= i < |cells| && cells[i] == Str(u + "%")
    ensures Normalize(cells)[i] == Some(v / 100.0)
  {
    PercentFromParse(u, v);
    SuffixedCell(cells, i, u);
  }

  /** A string cell "n%" in a percent column normalises to n / 100. */
  lemma PercentOfInteger(cells: seq<Cell>, i: int, n: nat)
    requires 0 <= i < |cells| && cells[i] == Str(NatText(n) + "%")
    ensures Normalize(cells)[i] == Some(n as real / 100.0)
  {
    IntegerText(n);
    PercentOfText(cells, i, NatText(n), n as real);
  }

  /** A string cell "d,f%" in a percent column normalises to d.f / 100: the
      decimal comma is read as a point. */
  lemma PercentOfDecimalComma(cells: seq<Cell>, i: int, d: string, f: string, v: real)
    requires |d| > 0 && AllDigits(d) && AllDigits(f) && ParseDecimal(d + "." + f) == Some(v)
    requires 0 <= i < |cells| && cells[i] == Str(d + "," + f + "%")
    ensures Normalize(cells)[i] == Some(v / 100.0)
  {
    DecimalCommaText(d, f, v);
    assert d + "," + f + "%" == (d + "," + f) + "%";
    PercentOfText(cells, i, d + "," + f, v);
  }

  /** A cell of text `u` + "%" puts its column on the percent path. */
  lemma SuffixedCell(cells: seq<Cell>, i: int, u: string)
    requires u != [] && !IsSpace(u[0])
    requires 0 <= i < |cells| && cells[i] == Str(u + "%")
    ensures Normalize(cells)[i] == PercentValue(cells[i])
  {
    MarkedText(u);
    PercentColumn(cells, i);
  }

  /** The percent decision is made once for the whole column: in a column that
      holds a '%' anywhere, a plain "n" is also divided by 100. */
  lemma PercentColumnRescalesPlainValues(cells: seq<Cell>, i: int, j: int, n: nat)
    requires 0 <= i < |cells| && cells[i].Str? && Contains(Trim(cells[i].text), "%")
    requires 0 <= j < |cells| && cells[j] == Str(NatText(n))
    ensures Normalize(cells)[j] == Some(n as real / 100.0)
  {
    PercentColumn(cells, i);
    PercentValueOfPlain(n);
  }

  /** With no '%' anywhere, numbers keep their value and integer text parses
      as itself. */
  lemma PlainColumn(cells: seq<Cell>, i: int)
    requires !HasPercent(cells) && 0 <= i < |cells|
    ensures cells[i].Number? ==> Normalize(cells)[i] == Some(cells[i].value)
    ensures cells[i].Missing? ==> Normalize(cells)[i] == None
    ensures cells[i].Str? ==> Normalize(cells)[i] == ParseDecimal(cells[i].text)
    ensures forall k: int :: cells[i] == Str(IntText(k)) ==> Normalize(cells)[i] == Some(k as real)
  {
    forall k: int | cells[i] == Str(IntText(k))
      ensures Normalize(cells)[i] == Some(k as real)
    {
      ParseIntText(k);
    }
  }

  /** On the percent path a cell whose cleaned text does not parse becomes
      missing (`errors="coerce"`). */
  lemma PercentUnparsedIsMissing(cells: seq<Cell>, i: int, j: int)
    requires 0 <= i < |cells| && cells[i].Str? && Contains(Trim(cells[i].text), "%")
    requires 0 <= j < |cells|
    requires ParseDecimal(Cleaned(CellText(cells[j]))) == None
    ensures Normalize(cells)[j] == None
  {
    PercentColumn(cells, i);
  }

  /** Stripping, removing '%' and reading ',' as '.' bring in no digit. */
  lemma CleaningKeepsNoDigit(s: string)
    requires forall k :: 0 <= k < |s| ==> !IsDigit(s[k])
    ensures forall k :: 0 <= k < |Cleaned(s)| ==> !IsDigit(Cleaned(s)[k])
  {
    var t := Trim(s);
    var a := LeadingSpaces(s);
    assert forall k :: 0 <= k < |t| ==> t[k] == s[a + k];
    var r := RemoveChar(t, '%');
    forall k | 0 <= k < |r|
      ensures !IsDigit(r[k])
    {
      assert r[k] in multiset(r);
    }
    var u := ReplaceChar(r, ',', '.');
    forall k | 0 <= k < |u|
      ensures !IsDigit(u[k])
    {
      ReplaceCharAt(r, ',', '.', k);
    }
  }

  /** A text cell without a single digit normalises to missing, on either
      path. */
  lemma DigitFreeTextIsMissing(cells: seq<Cell>, j: int)
    requires 0 <= j < |cells| && cells[j].Str?
    requires forall k :: 0 <= k < |cells[j].text| ==> !IsDigit(cells[j].text[k])
    ensures Normalize(cells)[j] == None
  {
    DigitFreeText(cells[j].text);
    NormalizeAt(cells, j);
  }

  /** Digit-free text fails to parse on both paths. */
  lemma DigitFreeText(s: string)
    requires forall k :: 0 <= k < |s| ==> !IsDigit(s[k])
    ensures PercentValue(Str(s)) == None && PlainValue(Str(s)) == None
  {
    CleaningKeepsNoDigit(s);
    NoDigitNoNumber(Cleaned(s));
    NoDigitNoNumber(s);
  }

  /** One cell of the normalised column, by the path the column takes. */
  lemma NormalizeAt(cells: seq<Cell>, j: int)
    requires 0 <= j < |cells|
    ensures Normalize(cells)[j] ==
            if HoldsText(cells) && HasPercent(cells) then PercentValue(cells[j]) else PlainValue(cells[j])
  {
  }

  // ---------------------------------------------------------------- skipping missing values

  /** `serie.dropna()`: the present values, in order. */
  function Present(xs: seq<Option<real>>): (p: seq<real>)
    ensures |p| <= |xs|
    ensures forall v :: multiset(p)[v] == multiset(xs)[Some(v)]
    ensures |p| == |xs| - multiset(xs)[None]
  {
    if xs == [] then []
    else
      var rest := Present(xs[1..]);
      assert xs == [xs[0]] + xs[1..];
      if xs[0].Some? then [xs[0].value] + rest else rest
  }

  /** A value is present exactly when it occurs as Some in the column. */
  lemma PresentMembers(xs: seq<Option<real>>, v: real)
    ensures v in Present(xs) <==> Some(v) in xs
  {
    assert v in Present(xs) <==> multiset(Present(xs))[v] > 0;
    assert Some(v) in xs <==> multiset(xs)[Some(v)] > 0;
  }

  function Sum(s: seq<real>): real {
    if s == [] then 0.0 else Sum(s[..|s| - 1]) + s[|s| - 1]
  }

  /** `max()` of a non-empty list. */
  function Max(s: seq<real>): (m: real)
    requires s != []
    ensures m in s
    ensures forall i :: 0 <= i < |s| ==> s[i] <= m
  {
    if |s| == 1 then s[0]
    else
      var m := Max(s[1..]);
      assert forall i :: 1 <= i < |s| ==> s[i] == s[1..][i - 1];
      if s[0] >= m then s[0] else m
  }

  /** `min()` of a non-empty list. */
  function Min(s: seq<real>): (m: real)
    requires s != []
    ensures m in s
    ensures forall i :: 0 <= i < |s| ==> m <= s[i]
  {
    if |s| == 1 then s[0]
    else
      var m := Min(s[1..]);
      assert forall i :: 1 <= i < |s| ==> s[i] == s[1..][i - 1];
      if s[0] <= m then s[0] else m
  }

  /** The sum lies between |s| times the minimum and |s| times the maximum. */
  lemma {:induction false} SumBounds(s: seq<real>, lo: real, hi: real)
    requires forall i :: 0 <= i < |s| ==> lo <= s[i] <= hi
    ensures |s| as real * lo <= Sum(s) <= |s| as real * hi
  {
    if s != [] {
      SumBounds(s[..|s| - 1], lo, hi);
    }
  }

  lemma DivideBounds(a: real, n: real, lo: real, hi: real)
    requires n > 0.0 && n * lo <= a <= n * hi
    ensures lo <= a / n <= hi
  {
    assert (n * lo) / n == lo && (n * hi) / n == hi;
  }

  function Mean(s: seq<real>): real
    requires s != []
  {
    Sum(s) / |s| as real
  }

  /** The mean lies between the smallest and the largest value. */
  lemma MeanBetweenMinAndMax(s: seq<real>)
    requires s != []
    ensures Min(s) <= Mean(s) <= Max(s)
  {
    MeanBounds(s, Min(s), Max(s));
  }

  /** The mean of values within [lo, hi] is within [lo, hi]. */
  lemma MeanBounds(s: seq<real>, lo: real, hi: real)
    requires s != [] && forall i :: 0 <= i < |s| ==> lo <= s[i] <= hi
    ensures lo <= Mean(s) <= hi
  {
    SumBounds(s, lo, hi);
    DivideBounds(Sum(s), |s| as real, lo, hi);
  }

  /** `var()`: the sample variance, sum of squared deviations over n - 1. */
  function Variance(s: seq<real>): real
    requires |s| >= 2
  {
    var m := Mean(s);
    Sum(seq(|s|, i requires 0 <= i < |s| => (s[i] - m) * (s[i] - m))) / (|s| - 1) as real
  }

  // ---------------------------------------------------------------- median

  /** Ascending order. */
  predicate AscendingReals(s: seq<real>) {
    forall i, j :: 0 <= i < j < |s| ==> s[i] <= s[j]
  }

  /** `x` inserted into an ascending list before the first value not below it. */
  function InsertReal(x: real, s: seq<real>): (r: seq<real>)
    requires AscendingReals(s)
    ensures |r| == |s| + 1
    ensures AscendingReals(r) && multiset(r) == multiset(s) + multiset{x}
  {
    if s == [] || x <= s[0] then
      ConsAscending(x, s);
      [x] + s
    else
      var rest := InsertReal(x, s[1..]);
      assert s == [s[0]] + s[1..];
      BoundedByMultiset(s[0], s[1..], rest, x);
      ConsAscending(s[0], rest);
      [s[0]] + rest
  }

  /** A value no greater than every element heads an ascending list. */
  lemma ConsAscending(a: real, r: seq<real>)
    requires AscendingReals(r) && forall k :: 0 <= k < |r| ==> a <= r[k]
    ensures AscendingReals([a] + r)
  {
    forall i, j | 0 <= i < j < |[a] + r|
      ensures ([a] + r)[i] <= ([a] + r)[j]
    {
      assert ([a] + r)[j] == r[j - 1];
      if i > 0 {
        assert ([a] + r)[i] == r[i - 1];
      }
    }
  }

  /** Every element of `rest`, which holds the values of `t` and `x`, is at
      least `lo` when they all are. */
  lemma BoundedByMultiset(lo: real, t: seq<real>, rest: seq<real>, x: real)
    requires lo <= x && forall k :: 0 <= k < |t| ==> lo <= t[k]
    requires multiset(rest) == multiset(t) + multiset{x}
    ensures forall k :: 0 <= k < |rest| ==> lo <= rest[k]
  {
    forall k | 0 <= k < |rest|
      ensures lo <= rest[k]
    {
      assert rest[k] in multiset(rest);
      if rest[k] != x {
        assert rest[k] in multiset(t);
        var j :| 0 <= j < |t| && t[j] == rest[k];
      }
    }
  }

  /** The values in ascending order: sorted, and the same values with the
      same multiplicities. */
  function SortReals(s: seq<real>): (r: seq<real>)
    ensures |r| == |s|
    ensures AscendingReals(r) && multiset(r) == multiset(s)
  {
    if s == [] then []
    else
      assert s == [s[0]] + s[1..];
      InsertReal(s[0], SortReals(s[1..]))
  }

  /** The middle value of a non-empty list, or the mean of the two middle
      values when its length is even. */
  function Middle(q: seq<real>): real
    requires q != []
  {
    var h := |q| / 2;
    if |q| % 2 == 1 then q[h] else (q[h - 1] + q[h]) / 2.0
  }

  /** `median()` of a non-empty list: the middle of the sorted values. */
  function Median(s: seq<real>): real
    requires s != []
  {
    Middle(SortReals(s))
  }

  /** The middle of values within [lo, hi] is within [lo, hi], and for an
      odd length it is one of the values. */
  lemma MiddleBounds(q: seq<real>, lo: real, hi: real)
    requires q != [] && forall k :: 0 <= k < |q| ==> lo <= q[k] <= hi
    ensures lo <= Middle(q) <= hi
    ensures |q| % 2 == 1 ==> Middle(q) in q
  {
  }

  /** The median lies between the smallest and the largest value, and for an
      odd count it is one of the values. */
  lemma MedianBetweenMinAndMax(s: seq<real>)
    requires s != []
    ensures Min(s) <= Median(s) <= Max(s)
    ensures |s| % 2 == 1 ==> Median(s) in s
  {
    var q := SortReals(s);
    forall k | 0 <= k < |q|
      ensures Min(s) <= q[k] <= Max(s)
    {
      SortedValueInRange(s, k);
    }
    MiddleBounds(q, Min(s), Max(s));
    if |s| % 2 == 1 {
      SortedValueInRange(s, |s| / 2);
    }
  }

  /** Each value of the sorted list is one of the values, so it lies between
      the minimum and the maximum. */
  lemma SortedValueInRange(s: seq<real>, k: int)
    requires s != [] && 0 <= k < |SortReals(s)|
    ensures SortReals(s)[k] in s && Min(s) <= SortReals(s)[k] <= Max(s)
  {
    var q := SortReals(s);
    assert q[k] in multiset(q);
    var j :| 0 <= j < |s| && s[j] == q[k];
  }

  // ---------------------------------------------------------------- mode

  /** How often `v` occurs in `s`. */
  function Occurrences(s: seq<real>, v: real): nat {
    multiset(s)[v]
  }

  /** `mode()[0]`: pandas lists the most frequent values in ascending order,
      so the first is the smallest among the most frequent. `Favourite` picks
      it from the candidates `c`, counting occurrences in `s`. */
  function Favourite(s: seq<real>, c: seq<real>): (r: real)
    requires c != []
    ensures r in c
    ensures forall i :: 0 <= i < |c| ==>
              Occurrences(s, c[i]) < Occurrences(s, r)
              || (Occurrences(s, c[i]) == Occurrences(s, r) && r <= c[i])
  {
    if |c| == 1 then c[0]
    else
      var b := Favourite(s, c[1..]);
      assert forall i :: 1 <= i < |c| ==> c[i] == c[1..][i - 1];
      var x := c[0];
      if Occurrences(s, x) > Occurrences(s, b)
         || (Occurrences(s, x) == Occurrences(s, b) && x < b)
      then x else b
  }

  function Mode(s: seq<real>): (r: real)
    requires s != []
    ensures r in s
    ensures forall i :: 0 <= i < |s| ==> Occurrences(s, s[i]) <= Occurrences(s, r)
    ensures forall i :: 0 <= i < |s| && Occurrences(s, s[i]) == Occurrences(s, r) ==> r <= s[i]
  {
    Favourite(s, s)
  }

  /** The mode is determined by its contract: any most frequent value that is
      no larger than every other most frequent value is the mode. */
  lemma ModeUnique(s: seq<real>, m: real)
    requires m in s
    requires forall i :: 0 <= i < |s| ==> Occurrences(s, s[i]) <= Occurrences(s, m)
    requires forall i :: 0 <= i < |s| && Occurrences(s, s[i]) == Occurrences(s, m) ==> m <= s[i]
    ensures Mode(s) == m
  {
    var r := Mode(s);
    var i :| 0 <= i < |s| && s[i] == m;
    var j :| 0 <= j < |s| && s[j] == r;
  }

  // ---------------------------------------------------------------- the operations

  /** A statistic pandas returns: a number, NaN, or a float statistic the model
      does not compute (the standard deviation, which needs a square root). */
  datatype Scalar = Num(r: real) | NaN | Uncomputed

  /** The operation names the engine knows, in the order it tests them. */
  const Operations: seq<string> := ["media", "soma", "contagem", "maximo", "minimo",
                                    "diferenca", "moda", "mediana", "desvio_padrao", "variancia"]

  /** The if-chain over `operacao`: None when no branch assigns a value (an
      unknown operation, or `moda` over a column with no present value). */
  function Aggregate(op: string, xs: seq<Option<real>>): Option<Scalar> {
    var p := Present(xs);
    if op == "media" then Some(if p == [] then NaN else Num(Mean(p)))
    else if op == "soma" then Some(Num(Sum(p)))
    else if op == "contagem" then Some(Num(|p| as real))
    else if op == "maximo" then Some(if p == [] then NaN else Num(Max(p)))
    else if op == "minimo" then Some(if p == [] then NaN else Num(Min(p)))
    else if op == "diferenca" then Some(if p == [] then NaN else Num(Max(p) - Min(p)))
    else if op == "moda" && p != [] then Some(Num(Mode(p)))
    else if op == "mediana" then Some(if p == [] then NaN else Num(Median(p)))
    else if op == "desvio_padrao" then Some(if |p| < 2 then NaN else Uncomputed)
    else if op == "variancia" then Some(if |p| < 2 then NaN else Num(Variance(p)))
    else None
  }

  /** An operation yields a value exactly when it is one the engine knows,
      except `moda` over a column without a present value. */
  lemma AggregateDefinedIff(op: string, xs: seq<Option<real>>)
    ensures Aggregate(op, xs).Some? <==>
            op in Operations && !(op == "moda" && multiset(xs)[None] == |xs|)
  {
    var p := Present(xs);
    assert p == [] <==> multiset(xs)[None] == |xs|;
  }

  /** `diferenca` is `maximo - minimo` over the same column. */
  lemma DifferenceIsMaxMinusMin(xs: seq<Option<real>>)
    ensures var d, hi, lo := Aggregate("diferenca", xs), Aggregate("maximo", xs), Aggregate("minimo", xs);
            (hi == Some(NaN) && lo == Some(NaN) && d == Some(NaN))
            || (hi.value.Num? && lo.value.Num? && d == Some(Num(hi.value.r - lo.value.r)))
  {
  }

  /** `contagem` counts the values that are not missing. */
  lemma CountIsPresentValues(xs: seq<Option<real>>)
    ensures Aggregate("contagem", xs) == Some(Num((|xs| - multiset(xs)[None]) as real))
  {
  }

  /** `media`, when defined, lies between `minimo` and `maximo`. */
  lemma MeanWithinRange(xs: seq<Option<real>>)
    requires Aggregate("media", xs) != Some(NaN)
    ensures Aggregate("minimo", xs).value.r <= Aggregate("media", xs).value.r <= Aggregate("maximo", xs).value.r
  {
    MeanBetweenMinAndMax(Present(xs));
  }

  /** `mediana`, when defined, lies between `minimo` and `maximo`; it is NaN
      on a column with no present value. */
  lemma MedianWithinRange(xs: seq<Option<real>>)
    ensures Present(xs) == [] ==> Aggregate("mediana", xs) == Some(NaN)
    ensures var p := Present(xs);
            p != [] ==>
              Aggregate("mediana", xs) == Some(Num(Median(p)))
              && Aggregate("minimo", xs) == Some(Num(Min(p))) && Aggregate("maximo", xs) == Some(Num(Max(p)))
              && Min(p) <= Median(p) <= Max(p)
  {
    var p := Present(xs);
    if p != [] {
      assert Aggregate("mediana", xs) == Some(Num(Median(p)));
      assert Aggregate("minimo", xs) == Some(Num(Min(p)));
      assert Aggregate("maximo", xs) == Some(Num(Max(p)));
      MedianBetweenMinAndMax(p);
    }
  }

  /** `moda` is a present value occurring at least as often as any other. */
  lemma ModeIsMostFrequent(xs: seq<Option<real>>, v: real)
    requires Aggregate("moda", xs).Some? && Some(v) in xs
    ensures var m := Aggregate("moda", xs).value.r;
            Some(m) in xs && multiset(xs)[Some(v)] <= multiset(xs)[Some(m)]
  {
    var p := Present(xs);
    assert p != [] && Aggregate("moda", xs) == Some(Num(Mode(p)));
    var m := Mode(p);
    PresentMembers(xs, v);
    PresentMembers(xs, m);
    var i :| 0 <= i < |p| && p[i] == v;
  }
}
