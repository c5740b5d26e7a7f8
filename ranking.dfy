/** The ranking stage: the normalised column, indexed by sheet row, sorted by
    value (missing values last, whatever the direction) and cut by `head(n)`. */
module Ranking {
  import opened Wrappers

  /** One entry of the series: the row's position in the sheet and its value. */
  type Entry = (nat, Option<real>)

  /** The series `converter_para_numero` returns, with its row positions. */
  function Indexed(xs: seq<Option<real>>): seq<Entry> {
    seq(|xs|, i requires 0 <= i < |xs| => (i as nat, xs[i]))
  }

  /** The order `sort_values` puts values in: present values ascending or
      descending, and every missing value after every present one. */
  predicate Precedes(a: Option<real>, b: Option<real>, asc: bool) {
    b.None? || (a.Some? && (if asc then a.value <= b.value else a.value >= b.value))
  }

  predicate Sorted(s: seq<Entry>, asc: bool) {
    forall i, j :: 0 <= i < j < |s| ==> Precedes(s[i].1, s[j].1, asc)
  }

  lemma PrecedesTotal(a: Option<real>, b: Option<real>, asc: bool)
    ensures Precedes(a, b, asc) || Precedes(b, a, asc)
  {
  }

  lemma PrecedesTransitive(a: Option<real>, b: Option<real>, c: Option<real>, asc: bool)
    requires Precedes(a, b, asc) && Precedes(b, c, asc)
    ensures Precedes(a, c, asc)
  {
  }

  /** `x` goes in front of the first entry it precedes. */
  function Insert(x: Entry, s: seq<Entry>, asc: bool): (r: seq<Entry>)
    ensures multiset(r) == multiset(s) + multiset{x}
    ensures |r| == |s| + 1
  {
    if s == [] then [x]
    else if Precedes(x.1, s[0].1, asc) then [x] + s
    else
      assert s == [s[0]] + s[1..];
      [s[0]] + Insert(x, s[1..], asc)
  }

  /** Inserting into a sorted sequence keeps it sorted. */
  lemma {:induction false} InsertSorted(x: Entry, s: seq<Entry>, asc: bool)
    requires Sorted(s, asc)
    ensures Sorted(Insert(x, s, asc), asc)
  {
    if s == [] {
    } else if Precedes(x.1, s[0].1, asc) {
      forall j | 0 <= j < |s|
        ensures Precedes(x.1, s[j].1, asc)
      {
        if j > 0 {
          PrecedesTransitive(x.1, s[0].1, s[j].1, asc);
        }
      }
      var r := [x] + s;
      assert forall j :: 0 < j < |r| ==> r[j] == s[j - 1];
    } else {
      var rest := Insert(x, s[1..], asc);
      InsertSorted(x, s[1..], asc);
      PrecedesTotal(x.1, s[0].1, asc);
      forall j | 0 <= j < |rest|
        ensures Precedes(s[0].1, rest[j].1, asc)
      {
        assert rest[j] in multiset(rest);
        if rest[j] != x {
          assert rest[j] in multiset(s[1..]);
          var q :| 0 <= q < |s[1..]| && s[1..][q] == rest[j];
          assert s[q + 1] == rest[j];
        }
      }
      var r := [s[0]] + rest;
      assert forall j :: 0 < j < |r| ==> r[j] == rest[j - 1];
    }
  }

  /** `sort_values`: a sorted rearrangement of the series. */
  function Sort(s: seq<Entry>, asc: bool): (r: seq<Entry>)
    ensures Sorted(r, asc)
    ensures multiset(r) == multiset(s)
    ensures |r| == |s|
  {
    if s == [] then []
    else
      assert s == [s[0]] + s[1..];
      var rest := Sort(s[1..], asc);
      InsertSorted(s[0], rest, asc);
      Insert(s[0], rest, asc)
  }

  /** `head(n)`: the first n entries; a negative n drops the last |n|; no limit
      (a null `n`) keeps them all. */
  function Head(s: seq<Entry>, limit: Option<int>): (r: seq<Entry>)
    ensures r <= s
    ensures limit.None? ==> r == s
    ensures limit.Some? && limit.value >= 0 ==> |r| == if limit.value < |s| then limit.value else |s|
    ensures limit.Some? && limit.value < 0 ==> |r| == if |s| + limit.value > 0 then |s| + limit.value else 0
  {
    match limit
    case None => s
    case Some(k) =>
      var m := if k >= 0 then (if k < |s| then k else |s|)
               else (if |s| + k > 0 then |s| + k else 0);
      s[..m]
  }

  /** The ranking report's entries. */
  function Rank(xs: seq<Option<real>>, asc: bool, limit: Option<int>): seq<Entry> {
    Head(Sort(Indexed(xs), asc), limit)
  }

  /** A prefix of a sorted sequence is sorted. */
  lemma SortedPrefix(s: seq<Entry>, r: seq<Entry>, asc: bool)
    requires Sorted(s, asc) && r <= s
    ensures Sorted(r, asc)
  {
    assert forall i :: 0 <= i < |r| ==> r[i] == s[i];
  }

  /** The ranking is in the requested order, missing values at the end. */
  lemma RankSorted(xs: seq<Option<real>>, asc: bool, limit: Option<int>)
    ensures Sorted(Rank(xs, asc, limit), asc)
    ensures var r := Rank(xs, asc, limit);
            forall i, j :: 0 <= i < j < |r| && r[i].1.None? ==> r[j].1.None?
  {
    SortedPrefix(Sort(Indexed(xs), asc), Rank(xs, asc, limit), asc);
  }

  /** At most n entries, and all of them when n is at least the column's length. */
  lemma RankLength(xs: seq<Option<real>>, asc: bool, n: int)
    ensures 0 <= n ==> |Rank(xs, asc, Some(n))| == if n < |xs| then n else |xs|
    ensures n < 0 ==> |Rank(xs, asc, Some(n))| == if |xs| + n > 0 then |xs| + n else 0
    ensures |Rank(xs, asc, None)| == |xs|
  {
  }

  /** Every entry of the ranking is a row of the column with its own value,
      and no row appears twice. */
  lemma RankEntries(xs: seq<Option<real>>, asc: bool, limit: Option<int>)
    ensures var r := Rank(xs, asc, limit);
            (forall e :: e in r ==> e.0 < |xs| && e.1 == xs[e.0]) && DistinctRows(r)
  {
    var s := Sort(Indexed(xs), asc);
    var r := Rank(xs, asc, limit);
    forall e | e in r
      ensures e.0 < |xs| && e.1 == xs[e.0]
    {
      assert e in multiset(s);
      assert e in Indexed(xs);
    }
    SortedDistinctRows(xs, asc);
    forall i, j | 0 <= i < j < |r|
      ensures r[i].0 != r[j].0
    {
      assert r[i] == s[i] && r[j] == s[j];
    }
  }

  /** No row appears twice. */
  predicate DistinctRows(s: seq<Entry>) {
    forall i, j :: 0 <= i < j < |s| ==> s[i].0 != s[j].0
  }

  /** The sorted series lists each row once. */
  lemma SortedDistinctRows(xs: seq<Option<real>>, asc: bool)
    ensures DistinctRows(Sort(Indexed(xs), asc))
  {
    var t := Indexed(xs);
    var s := Sort(t, asc);
    forall i, j | 0 <= i < j < |s|
      ensures s[i].0 != s[j].0
    {
      if s[i].0 == s[j].0 {
        assert s[i] in multiset(t) && s[j] in multiset(t);
        assert s[i] == s[j];
        IndexedOnce(xs, s[i]);
        MultisetTwice(s, i, j);
        assert false;
      }
    }
  }

  /** Each entry occurs at most once in the indexed series. */
  lemma IndexedOnce(xs: seq<Option<real>>, e: Entry)
    ensures multiset(Indexed(xs))[e] <= 1
  {
    var t := Indexed(xs);
    if e in t {
      var k := e.0;
      assert k < |xs| && t[k] == e;
      assert t == t[..k] + [e] + t[k + 1..];
      var u, w := t[..k], t[k + 1..];
      assert forall i :: 0 <= i < |u| ==> u[i] == t[i];
      assert forall i :: 0 <= i < |w| ==> w[i] == t[k + 1 + i];
      assert e !in u && e !in w;
    }
  }

  /** Two positions holding the same entry count it twice. */
  lemma MultisetTwice(s: seq<Entry>, i: int, j: int)
    requires 0 <= i < j < |s| && s[i] == s[j]
    ensures multiset(s)[s[i]] >= 2
  {
    assert s == s[..j] + s[j..];
    assert s[i] in s[..j];
    assert s[j] == s[j..][0];
  }

  /** Top n: every ranked row precedes every row the ranking leaves out. */
  lemma RankTop(xs: seq<Option<real>>, asc: bool, limit: Option<int>, e: Entry, k: nat)
    requires e in Rank(xs, asc, limit)
    requires k < |xs| && (k, xs[k]) !in Rank(xs, asc, limit)
    ensures Precedes(e.1, xs[k], asc)
  {
    var s := Sort(Indexed(xs), asc);
    var r := Rank(xs, asc, limit);
    assert Indexed(xs)[k] == (k, xs[k]);
    assert (k, xs[k]) in multiset(s);
    var q :| 0 <= q < |s| && s[q] == (k, xs[k]);
    var p :| 0 <= p < |r| && r[p] == e;
    assert s[p] == e;
    assert forall i :: 0 <= i < |r| ==> r[i] == s[i];
    assert q >= |r|;
  }

  /** What a ranking of the column `xs` promises: sorted in the requested
      order, made of the column's own rows and values, and every ranked row
      ahead of every row left out. */
  predicate WellRanked(r: seq<Entry>, xs: seq<Option<real>>, asc: bool) {
    Sorted(r, asc)
    && (forall e :: e in r ==> e.0 < |xs| && e.1 == xs[e.0])
    && (forall e, k :: e in r && 0 <= k < |xs| && (k, xs[k]) !in r ==> Precedes(e.1, xs[k], asc))
  }

  lemma RankWellRanked(xs: seq<Option<real>>, asc: bool, limit: Option<int>)
    ensures WellRanked(Rank(xs, asc, limit), xs, asc)
  {
    var r := Rank(xs, asc, limit);
    RankSorted(xs, asc, limit);
    RankEntries(xs, asc, limit);
    forall e, k | e in r && 0 <= k < |xs| && (k, xs[k]) !in r
      ensures Precedes(e.1, xs[k], asc)
    {
      RankTop(xs, asc, limit, e, k);
    }
  }
}
