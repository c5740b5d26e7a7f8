/** Column resolution (codigo/langflow.py, `mapear_coluna` and
    `normalizar_colunas`): a free-form label from the request is mapped to one
    of the sheet's headers through the fixed alias table, an exact match on
    the lower-case, stripped header, or the first header containing it. */
module Columns {
  import opened Wrappers
  import opened Text
  import opened Json

  // ---------------------------------------------------------------- alias table

  /** The fixed alias table, alias -> canonical header, as the dict literal
      lists it. */
  const ColumnAliases: seq<(string, string)> := [
    ("aprovacao", "Approval Date"),
    ("approval", "Approval Date"),
    ("mes", "Month"),
    ("month", "Month"),
    ("bid", "Bid Number"),
    ("cases", "Bid Number"),
    ("casos", "Bid Number"),
    ("caso", "Bid Number"),
    ("case", "Bid Number"),
    ("approver", "Delegation Approver"),
    ("pricer", "Assigned Pricer"),
    ("cliente", "Customer Name"),
    ("customer", "Customer Name"),
    ("client", "Customer Name"),
    ("contract", "Contract Type"),
    ("market", "Market"),
    ("produto", "Product"),
    ("product", "Product"),
    ("serial", "Serial"),
    ("serie", "Serial"),
    ("transacao", "Transaction Type"),
    ("transaction", "Transaction Type"),
    ("description", "Case Description"),
    ("exchange", "Exchange/MO"),
    ("mo", "Exchange/MO"),
    ("path", "Path"),
    ("mips", "Incremental MIPS"),
    ("$/mips", "$/MIPS"),
    ("preco", "New Content Customer Price"),
    ("price", "New Content Customer Price"),
    ("tcv", "New Contnt Customer Price + WR"),
    ("invoice price", "New Contnt Customer Price + WR"),
    ("rbd", "RBD - Total"),
    ("tip", "TIP"),
    ("credito", "OIO & Other Credit"),
    ("credit", "OIO & Other Credit"),
    ("oio", "OIO & Other Credit"),
    ("receita", "New Content Net Revenue"),
    ("revenue", "New Content Net Revenue"),
    ("delegation rev", "New Content Delegation Rev"),
    ("bmc", "New Content BMC"),
    ("bmc gp %", "New Content BMC GP (%)"),
    ("tmc", "New Content TMC"),
    ("tmc gp %", "New Content TMC GP (%)"),
    ("delegation gp %", "Delegation GP %"),
    ("delta", "Delta % to Target Price"),
    ("machine", "To Model"),
    ("maquina", "To Model"),
    ("total price", "Total Customer Price"),
    ("config", "Upgrade Config"),
    ("configuration", "Upgrade Config"),
    ("partner bp", "Partner Margin %"),
    ("target", "Target Price"),
    ("target price", "Target Price"),
    ("delegation level", "Delegation Level"),
    ("upgrade ref price", "Upgrade Ref Price"),
    ("partner margin", "Partner Margin %"),
    ("contract type", "Contract Type")
  ]

  /** The lower-cased table the resolver consults: the dict the literal
      builds, then a dict comprehension over its items with both sides
      lowered. */
  function AliasTable(): Index {
    LoweredDict(ColumnAliases)
  }

  /** Each pair lowered on both sides. */
  function LowerPairs(ps: seq<(string, string)>): seq<(string, string)> {
    seq(|ps|, i requires 0 <= i < |ps| => (Lower(ps[i].0), Lower(ps[i].1)))
  }

  /** `{k.lower(): v.lower() for k, v in d.items()}` for the dict `d` the pairs
      `ps` build. */
  function LoweredDict(ps: seq<(string, string)>): Index {
    FromPairs(LowerPairs(FromPairs(ps)))
  }

  /** Every entry of the lowered dict is some pair of the input, lowered. */
  lemma LoweredDictEntries(ps: seq<(string, string)>, e: int)
    requires 0 <= e < |LoweredDict(ps)|
    ensures exists i :: 0 <= i < |ps| && LoweredDict(ps)[e] == (Lower(ps[i].0), Lower(ps[i].1))
  {
    var inner := FromPairs(ps);
    FromPairsEntries(LowerPairs(inner), e);
    var j :| 0 <= j < |inner| && LowerPairs(inner)[j] == LoweredDict(ps)[e] && LastWithKey(LowerPairs(inner), j);
    FromPairsEntries(ps, j);
  }

  /** Every key of the input, lowered, is a key of the lowered dict. */
  lemma LoweredDictCovers(ps: seq<(string, string)>, i: int)
    requires 0 <= i < |ps|
    ensures HasKey(LoweredDict(ps), Lower(ps[i].0))
  {
    var inner := FromPairs(ps);
    FromPairsCovers(ps, i);
    var p :| 0 <= p < |inner| && inner[p].0 == ps[i].0;
    assert LowerPairs(inner)[p].0 == Lower(ps[i].0);
    FromPairsCovers(LowerPairs(inner), p);
  }

  /** No other pair has the same key once lowered. */
  predicate SoleKey(ps: seq<(string, string)>, i: int)
    requires 0 <= i < |ps|
  {
    forall j :: 0 <= j < |ps| && j != i ==> Lower(ps[j].0) != Lower(ps[i].0)
  }

  /** The lowered dict's keys are distinct and lower case, so a lookup with
      a lowered label needs no further lowering of the keys. */
  lemma LoweredKeysAreLower(ps: seq<(string, string)>)
    ensures DistinctKeys(LoweredDict(ps))
    ensures forall e :: 0 <= e < |LoweredDict(ps)| ==> Lower(LoweredDict(ps)[e].0) == LoweredDict(ps)[e].0
  {
    forall e | 0 <= e < |LoweredDict(ps)|
      ensures Lower(LoweredDict(ps)[e].0) == LoweredDict(ps)[e].0
    {
      LoweredEntryIsLower(ps, e);
    }
  }

  /** An entry of the lowered dict is a lowered input pair, so its key is
      lower case. */
  lemma LoweredEntryIsLower(ps: seq<(string, string)>, e: int)
    requires 0 <= e < |LoweredDict(ps)|
    ensures exists i :: 0 <= i < |ps| && LoweredDict(ps)[e] == (Lower(ps[i].0), Lower(ps[i].1))
    ensures Lower(LoweredDict(ps)[e].0) == LoweredDict(ps)[e].0
  {
    LoweredDictEntries(ps, e);
    var i :| 0 <= i < |ps| && LoweredDict(ps)[e] == (Lower(ps[i].0), Lower(ps[i].1));
    LowerIdempotent(ps[i].0);
  }

  /** A key no other pair shares, lowered, looks up its own lowered value. */
  lemma SoleAliasLooksUpItsTarget(ps: seq<(string, string)>, i: int)
    requires 0 <= i < |ps|
    requires SoleKey(ps, i)
    ensures Lookup(LoweredDict(ps), Lower(ps[i].0)) == Some(Lower(ps[i].1))
  {
    var t := LoweredDict(ps);
    LoweredDictCovers(ps, i);
    var e :| 0 <= e < |t| && t[e].0 == Lower(ps[i].0);
    LoweredDictEntries(ps, e);
    var j :| 0 <= j < |ps| && t[e] == (Lower(ps[j].0), Lower(ps[j].1));
    assert j == i;
  }

  // ---------------------------------------------------------------- header index

  /** An insertion-ordered dictionary from normalised header to header. */
  type Index = seq<(string, string)>

  /** `str(c).strip().lower()`: the key a header is indexed under. */
  function Key(h: string): string {
    Lower(Trim(h))
  }

  predicate HasKey(idx: Index, k: string) {
    exists i :: 0 <= i < |idx| && idx[i].0 == k
  }

  predicate DistinctKeys(idx: Index) {
    forall i, j :: 0 <= i < j < |idx| ==> idx[i].0 != idx[j].0
  }

  /** The position of key `k` in the index, or |idx| when it is absent. */
  function KeyPosition(idx: Index, k: string): (p: nat)
    ensures p <= |idx|
    ensures p < |idx| ==> idx[p].0 == k
    ensures forall i :: 0 <= i < p ==> idx[i].0 != k
  {
    if idx == [] then 0
    else if idx[0].0 == k then 0
    else 1 + KeyPosition(idx[1..], k)
  }

  /** `d.get(k)` on an index: the value stored under `k`, if any. */
  function Lookup(idx: Index, k: string): (r: Option<string>)
    ensures r.None? <==> !HasKey(idx, k)
    ensures r.Some? ==> exists i :: 0 <= i < |idx| && idx[i] == (k, r.value)
    ensures DistinctKeys(idx) ==> forall i :: 0 <= i < |idx| && idx[i].0 == k ==> r == Some(idx[i].1)
  {
    var p := KeyPosition(idx, k);
    if p < |idx| then Some(idx[p].1) else None
  }

  /** `d[k] = v` on a Python dict: an existing key keeps its place and takes
      the new value; a new key goes last. */
  function Put(idx: Index, k: string, v: string): (r: Index)
    ensures HasKey(idx, k) ==> |r| == |idx|
    ensures !HasKey(idx, k) ==> r == idx + [(k, v)]
    ensures forall i :: 0 <= i < |idx| ==> r[i].0 == idx[i].0
    ensures forall i :: 0 <= i < |idx| && idx[i].0 != k ==> r[i] == idx[i]
    ensures DistinctKeys(idx) ==> forall i :: 0 <= i < |r| && r[i].0 == k ==> r[i] == (k, v)
    ensures DistinctKeys(idx) ==> DistinctKeys(r) && Lookup(r, k) == Some(v)
  {
    var p := KeyPosition(idx, k);
    if p < |idx| then idx[p := (k, v)]
    else
      var r := idx + [(k, v)];
      assert r[|idx|] == (k, v);
      r
  }

  /** A dict built from (key, value) pairs in order, later values overwriting. */
  function FromPairs(ps: seq<(string, string)>): (idx: Index)
    ensures DistinctKeys(idx)
    ensures |idx| <= |ps|
  {
    if ps == [] then []
    else
      var last := ps[|ps| - 1];
      Put(FromPairs(ps[..|ps| - 1]), last.0, last.1)
  }

  /** No pair after position `i` has the key of pair `i`. */
  predicate LastWithKey(ps: seq<(string, string)>, i: int)
    requires 0 <= i < |ps|
  {
    forall j :: i < j < |ps| ==> ps[j].0 != ps[i].0
  }

  /** An entry of `d[k] = v` is either an untouched entry of another key or
      the new pair. */
  lemma PutEntry(idx: Index, k: string, v: string, e: int)
    requires DistinctKeys(idx) && 0 <= e < |Put(idx, k, v)|
    ensures (e < |idx| && idx[e].0 != k && Put(idx, k, v)[e] == idx[e])
            || Put(idx, k, v)[e] == (k, v)
  {
  }

  /** Every entry of the dict is a pair of the input, and the LAST pair with
      that key. */
  lemma {:induction false} FromPairsEntries(ps: seq<(string, string)>, e: int)
    requires 0 <= e < |FromPairs(ps)|
    ensures exists i :: 0 <= i < |ps| && ps[i] == FromPairs(ps)[e] && LastWithKey(ps, i)
  {
    var n := |ps|;
    var front := ps[..n - 1];
    var prev := FromPairs(front);
    var (k, v) := ps[n - 1];
    assert FromPairs(ps) == Put(prev, k, v);
    PutEntry(prev, k, v, e);
    if e < |prev| && prev[e].0 != k && FromPairs(ps)[e] == prev[e] {
      FromPairsEntries(front, e);
      var i :| 0 <= i < |front| && front[i] == prev[e] && LastWithKey(front, i);
      LastWithKeyExtended(front, ps, i);
    } else {
      assert LastWithKey(ps, n - 1);
    }
  }

  /** Appending a pair of another key keeps a pair the last with its key. */
  lemma LastWithKeyExtended(front: seq<(string, string)>, ps: seq<(string, string)>, i: int)
    requires |ps| > 0 && front == ps[..|ps| - 1] && 0 <= i < |front|
    requires LastWithKey(front, i) && ps[|ps| - 1].0 != front[i].0
    ensures ps[i] == front[i] && LastWithKey(ps, i)
  {
    forall j | i < j < |ps|
      ensures ps[j].0 != ps[i].0
    {
      if j < |ps| - 1 {
        assert ps[j] == front[j];
      }
    }
  }

  /** Every key of the input is a key of the dict. */
  lemma {:induction false} FromPairsCovers(ps: seq<(string, string)>, i: int)
    requires 0 <= i < |ps|
    ensures HasKey(FromPairs(ps), ps[i].0)
  {
    var n := |ps|;
    var front := ps[..n - 1];
    assert FromPairs(ps) == Put(FromPairs(front), ps[n - 1].0, ps[n - 1].1);
    if i < n - 1 {
      FromPairsCovers(front, i);
      assert front[i] == ps[i];
    }
    PutCovers(FromPairs(front), ps[n - 1].0, ps[n - 1].1, ps[i].0);
  }

  /** `d[k] = v` keeps every key and adds `k`. */
  lemma PutCovers(idx: Index, k: string, v: string, c: string)
    requires HasKey(idx, c) || c == k
    ensures HasKey(Put(idx, k, v), c)
  {
    if c != k {
      var e :| 0 <= e < |idx| && idx[e].0 == c;
      assert Put(idx, k, v)[e].0 == c;
    } else {
      var r := Put(idx, k, v);
      if HasKey(idx, k) {
        var e :| 0 <= e < |idx| && idx[e].0 == k;
        assert r[e].0 == k;
      } else {
        assert r[|idx|].0 == k;
      }
    }
  }

  /** Input pairs with distinct keys make the dict equal to the pairs. */
  lemma {:induction false} FromPairsOfDistinct(ps: seq<(string, string)>)
    requires DistinctKeys(ps)
    ensures FromPairs(ps) == ps
  {
    if ps != [] {
      var n := |ps|;
      var front := ps[..n - 1];
      FromPairsOfDistinct(front);
      assert !HasKey(front, ps[n - 1].0) by {
        forall e | 0 <= e < |front|
          ensures front[e].0 != ps[n - 1].0
        {
          assert front[e] == ps[e];
        }
      }
      assert front + [ps[n - 1]] == ps;
    }
  }

  /** Each header paired with its key, in column order. */
  function KeyedHeaders(headers: seq<string>): seq<(string, string)> {
    seq(|headers|, i requires 0 <= i < |headers| => (Key(headers[i]), headers[i]))
  }

  /** `normalizar_colunas`: the dict comprehension `{key(c): c for c in headers}`. */
  function HeaderIndex(headers: seq<string>): (idx: Index)
    ensures DistinctKeys(idx)
  {
    FromPairs(KeyedHeaders(headers))
  }

  /** Every entry of the header index pairs a header of the sheet with its key,
      and that header is the LAST one with the key (later columns overwrite). */
  lemma HeaderIndexEntries(headers: seq<string>, e: int)
    requires 0 <= e < |HeaderIndex(headers)|
    ensures var (k, v) := HeaderIndex(headers)[e];
            Key(v) == k
            && exists i :: 0 <= i < |headers| && headers[i] == v
                           && forall j :: i < j < |headers| ==> Key(headers[j]) != k
  {
    var ps := KeyedHeaders(headers);
    FromPairsEntries(ps, e);
    var i :| 0 <= i < |ps| && ps[i] == FromPairs(ps)[e] && LastWithKey(ps, i);
    assert headers[i] == HeaderIndex(headers)[e].1;
    forall j | i < j < |headers|
      ensures Key(headers[j]) != HeaderIndex(headers)[e].0
    {
      assert ps[j].0 != ps[i].0;
    }
  }

  /** Every header of the sheet is indexed under its key. */
  lemma HeaderIndexCovers(headers: seq<string>, i: int)
    requires 0 <= i < |headers|
    ensures HasKey(HeaderIndex(headers), Key(headers[i]))
  {
    FromPairsCovers(KeyedHeaders(headers), i);
  }

  /** When no two headers share a key, the index is exactly (key, header) in
      column order. */
  lemma HeaderIndexOfDistinct(headers: seq<string>)
    requires forall i, j :: 0 <= i < j < |headers| ==> Key(headers[i]) != Key(headers[j])
    ensures HeaderIndex(headers) == KeyedHeaders(headers)
  {
    FromPairsOfDistinct(KeyedHeaders(headers));
  }

  // ---------------------------------------------------------------- resolver

  /** `for k, v in d.items(): if key in k: return v`: the first entry, in
      index order, whose key contains `key`. */
  function FirstContaining(idx: Index, key: string): (r: Option<string>)
    ensures r.None? <==> forall i :: 0 <= i < |idx| ==> !Contains(idx[i].0, key)
    ensures r.Some? ==> exists i :: 0 <= i < |idx| && idx[i].1 == r.value && Contains(idx[i].0, key)
                                   && forall j :: 0 <= j < i ==> !Contains(idx[j].0, key)
  {
    if idx == [] then None
    else if Contains(idx[0].0, key) then Some(idx[0].1)
    else
      var r := FirstContaining(idx[1..], key);
      assert forall i :: 1 <= i < |idx| ==> idx[i] == idx[1..][i - 1];
      if r.Some? then
        var i :| 0 <= i < |idx[1..]| && idx[1..][i].1 == r.value && Contains(idx[1..][i].0, key)
                 && forall j :: 0 <= j < i ==> !Contains(idx[1..][j].0, key);
        assert idx[i + 1].1 == r.value;
        r
      else r
  }

  /** The lower-case, stripped form of a label that every lookup uses. */
  function LabelKey(name: string): string {
    Lower(Trim(name))
  }

  /** What `mapear_coluna` consults: the lowered alias table and the sheet's
      header index `df_map`. */
  datatype Maps = Maps(aliases: Index, columns: Index)

  /** The maps the engine resolves against for a sheet with these headers:
      the fixed alias table and the sheet's own index. */
  function SheetMaps(headers: seq<string>): Maps {
    Maps(AliasTable(), HeaderIndex(headers))
  }

  /** The alias step: the header the label's alias names, when the label is an
      alias and the sheet has that header. */
  function AliasHit(key: string, m: Maps): Option<string> {
    match Lookup(m.aliases, key)
    case Some(target) => Lookup(m.columns, target)
    case None => None
  }

  /** `mapear_coluna(label, d)`: no label (or an empty one) resolves to
      nothing; otherwise the alias target when the sheet has it, else the
      exact key, else the first key containing the label. */
  function Resolve(name: Option<string>, m: Maps): (r: Option<string>)
    ensures r.Some? ==> exists i :: 0 <= i < |m.columns| && m.columns[i].1 == r.value
  {
    if name.None? || name.value == "" then None
    else
      var key := LabelKey(name.value);
      var alias := AliasHit(key, m);
      if alias.Some? then alias
      else
        var exact := Lookup(m.columns, key);
        if exact.Some? then exact else FirstContaining(m.columns, key)
  }

  /** Whatever the resolver returns is one of the sheet's own headers. */
  lemma ResolvesToHeader(name: Option<string>, aliases: Index, headers: seq<string>)
    ensures var r := Resolve(name, Maps(aliases, HeaderIndex(headers)));
            r.Some? ==> r.value in headers
  {
    var idx := HeaderIndex(headers);
    var r := Resolve(name, Maps(aliases, idx));
    if r.Some? {
      var e :| 0 <= e < |idx| && idx[e].1 == r.value;
      HeaderIndexEntries(headers, e);
    }
  }

  /** `mapear_coluna(label, df_map)` as every caller uses it: `if coluna_real:`,
      `if mapped:`, `if col_op:`, `if col_r:` and the comprehension guards
      keep the result only when it is truthy. The resolver returns headers as
      the sheet spells them, so only the empty header "" is falsy: it is never
      used, even when the resolver returns it. */
  function ColumnOf(field: Json, m: Maps): Option<string> {
    var r := Resolve(Label(field), m);
    if r.Some? && r.value != "" then r else None
  }

  /** A request field gives a column exactly when it is a string that resolves
      to a non-empty header, and the column is that header. */
  lemma ColumnOfIff(field: Json, m: Maps)
    ensures ColumnOf(field, m).Some? <==>
            field.JStr? && Resolve(Some(field.s), m).Some? && Resolve(Some(field.s), m).value != ""
    ensures ColumnOf(field, m).Some? ==> ColumnOf(field, m) == Resolve(Some(field.s), m)
  {
  }

  /** A column a request field gives over a sheet's index is a non-empty
      header of that sheet. */
  lemma ColumnOfIsHeader(field: Json, aliases: Index, headers: seq<string>)
    ensures var r := ColumnOf(field, Maps(aliases, HeaderIndex(headers)));
            r.Some? ==> r.value in headers && r.value != ""
  {
    ResolvesToHeader(Label(field), aliases, headers);
  }

  /** No label, or an empty label, resolves to nothing. */
  lemma ResolveEmpty(m: Maps)
    ensures Resolve(None, m) == None && Resolve(Some(""), m) == None
  {
  }

  /** The resolver fails exactly when the label is absent or empty, or when
      its alias target is not in the sheet and no key contains it (an exact
      key contains itself, so it is covered by the second condition). */
  lemma ResolveNoneIff(name: string, m: Maps)
    ensures Resolve(Some(name), m).None? <==>
            name == "" ||
            (AliasHit(LabelKey(name), m).None?
             && forall i :: 0 <= i < |m.columns| ==> !Contains(m.columns[i].0, LabelKey(name)))
  {
    var key := LabelKey(name);
    if name != "" && AliasHit(key, m).None? && Lookup(m.columns, key).Some? {
      var i :| 0 <= i < |m.columns| && m.columns[i] == (key, Lookup(m.columns, key).value);
      ContainsEmptyAndSelf(key);
    }
  }

  /** An alias whose target header the sheet has wins over every other rule. */
  lemma ResolveAliasWins(name: string, m: Maps, i: int)
    requires DistinctKeys(m.columns) && name != ""
    requires Lookup(m.aliases, LabelKey(name)).Some?
    requires 0 <= i < |m.columns| && m.columns[i].0 == Lookup(m.aliases, LabelKey(name)).value
    ensures Resolve(Some(name), m) == Some(m.columns[i].1)
  {
  }

  /** An alias whose target is absent from the sheet falls through: the label
      then resolves as if it were no alias, by exact key first. */
  lemma ResolveExactAfterAlias(name: string, m: Maps, i: int)
    requires DistinctKeys(m.columns) && name != ""
    requires AliasHit(LabelKey(name), m).None?
    requires 0 <= i < |m.columns| && m.columns[i].0 == LabelKey(name)
    ensures Resolve(Some(name), m) == Some(m.columns[i].1)
  {
  }

  /** Failing alias and exact key, the label resolves to the first header, in
      column order, whose key contains it: every earlier key does not. */
  lemma ResolveFirstSubstring(name: string, m: Maps, i: int)
    requires name != ""
    requires AliasHit(LabelKey(name), m).None? && !HasKey(m.columns, LabelKey(name))
    requires 0 <= i < |m.columns| && Contains(m.columns[i].0, LabelKey(name))
    requires forall j :: 0 <= j < i ==> !Contains(m.columns[j].0, LabelKey(name))
    ensures Resolve(Some(name), m) == Some(m.columns[i].1)
  {
    var idx := m.columns;
    var r := FirstContaining(idx, LabelKey(name));
    var p :| 0 <= p < |idx| && idx[p].1 == r.value && Contains(idx[p].0, LabelKey(name))
             && forall j :: 0 <= j < p ==> !Contains(idx[j].0, LabelKey(name));
    assert p == i;
  }

  /** Aliases of one canonical header resolve alike once the sheet has it:
      "bid", "cases", "casos", "caso" and "case" all give the same header. */
  lemma AliasesAgree(a: string, b: string, m: Maps)
    requires a != "" && b != ""
    requires Lookup(m.aliases, LabelKey(a)).Some?
    requires Lookup(m.aliases, LabelKey(a)) == Lookup(m.aliases, LabelKey(b))
    requires HasKey(m.columns, Lookup(m.aliases, LabelKey(a)).value)
    ensures Resolve(Some(a), m) == Resolve(Some(b), m) != None
  {
  }

  /** A label of spaces only passes the emptiness guard (the guard comes before
      stripping) and strips to "", which every key contains: with no alias
      and no header key for "", it resolves to the first column. */
  lemma BlankLabelResolvesToFirstColumn(name: string, m: Maps)
    requires name != "" && forall i :: 0 <= i < |name| ==> IsSpace(name[i])
    requires |m.columns| > 0 && !HasKey(m.columns, "") && AliasHit("", m).None?
    ensures Resolve(Some(name), m) == Some(m.columns[0].1)
  {
    assert Trim(name) == [];
    assert LabelKey(name) == "";
    ContainsEmptyAndSelf(m.columns[0].0);
  }
}
