/** The loaded spreadsheet as the engine sees it: named, ordered columns and rows of
    optional string cells (`None` is pandas' NaN), plus Python's insertion-ordered
    dictionaries as association lists. */
module Frames {
  import opened Text

  /** One cell; `None` is a missing (NaN) value. */
  type Cell = Option<string>

  datatype Table = Table(columns: seq<string>, rows: seq<seq<Cell>>)

  predicate Distinct<T(==)>(s: seq<T>) {
    forall i, j :: 0 <= i < j < |s| ==> s[i] != s[j]
  }

  /** Rectangular, with distinct column names (pandas de-duplicates headers on load). */
  predicate WellFormed(t: Table) {
    && (forall i :: 0 <= i < |t.rows| ==> |t.rows[i]| == |t.columns|)
    && Distinct(t.columns)
  }

  /** Position of the first column named `c`. */
  function IndexOf<T(==)>(cols: seq<T>, c: T): (r: Option<nat>)
    ensures r.None? <==> c !in cols
    ensures r.Some? ==> r.value < |cols| && cols[r.value] == c
    ensures r.Some? ==> forall j :: 0 <= j < r.value ==> cols[j] != c
  {
    if |cols| == 0 then None
    else
      var r := IndexOf(cols[..|cols| - 1], c);
      if r.Some? then r
      else if cols[|cols| - 1] == c then Some(|cols| - 1)
      else (assert cols == cols[..|cols| - 1] + [cols[|cols| - 1]]; None)
  }

  /** In a table with distinct names the column found is the only one with that name. */
  lemma IndexOfDistinct<T>(cols: seq<T>, c: T, j: nat)
    requires Distinct(cols) && j < |cols| && cols[j] == c
    ensures IndexOf(cols, c) == Some(j)
  {
  }

  /** `row[c]` on a row of a well-formed table; `c` must be a column. */
  function CellAt(t: Table, i: nat, c: string): Cell
    requires WellFormed(t) && i < |t.rows| && c in t.columns
  {
    t.rows[i][IndexOf(t.columns, c).value]
  }

  /** `str(cell)`: the text pandas gives a cell, NaN printing as "nan". */
  function CellText(c: Cell): string {
    match c
    case None => "nan"
    case Some(s) => s
  }

  /** The rewrite `.replace('nan', '').replace('None', '')` applied to `str(cell)`. */
  function NormalizeText(s: string): (r: string)
    ensures r == "" <==> s == "" || s == "nan" || s == "None"
    ensures r != s ==> r == ""
  {
    if s == "nan" || s == "None" then "" else s
  }

  // ---------------------------------------------------------------------------
  // List comprehensions: `[f(x) for x in s]`.

  function Map<A, B>(s: seq<A>, f: A --> B): (r: seq<B>)
    requires forall i :: 0 <= i < |s| ==> f.requires(s[i])
    ensures |r| == |s|
    ensures forall i :: 0 <= i < |s| ==> r[i] == f(s[i])
  {
    seq(|s|, i requires 0 <= i < |s| => f(s[i]))
  }

  /** A loop that appends `f(x)` for each `x` builds the comprehension: one more element
      maps to one more entry at the end. */
  lemma MapSnoc<A, B>(s: seq<A>, x: A, f: A --> B)
    requires forall i :: 0 <= i < |s| ==> f.requires(s[i])
    requires f.requires(x)
    ensures Map(s + [x], f) == Map(s, f) + [f(x)]
  {
  }

  // ---------------------------------------------------------------------------
  // List comprehensions with a condition: `[x for x in s if p(x)]`.

  function Filter<T>(s: seq<T>, p: T -> bool): (r: seq<T>)
    ensures |r| <= |s|
    ensures forall i :: 0 <= i < |r| ==> r[i] in s && p(r[i])
  {
    if |s| == 0 then []
    else Filter(s[..|s| - 1], p) + (if p(s[|s| - 1]) then [s[|s| - 1]] else [])
  }

  /** A loop that appends the elements passing `p`, and tells whether none did. */
  method FilterNoneFlag<T>(s: seq<T>, p: T -> bool) returns (none: bool, r: seq<T>)
    ensures r == Filter(s, p)
    ensures none <==> r == []
  {
    none := true;
    r := [];
    for j := 0 to |s|
      invariant r == Filter(s[..j], p)
      invariant none <==> r == []
    {
      FilterSnoc(s, j, p);
      if p(s[j]) {
        none := false;
        r := r + [s[j]];
      }
    }
    assert s[..|s|] == s;
  }

  /** What the filter keeps: exactly the elements that pass the test. */
  lemma {:induction false} FilterIn<T>(s: seq<T>, p: T -> bool, x: T)
    ensures x in Filter(s, p) <==> x in s && p(x)
    decreases |s|
  {
    if |s| > 0 {
      FilterIn(s[..|s| - 1], p, x);
      assert s == s[..|s| - 1] + [s[|s| - 1]];
    }
  }

  /** `a` is `b` with some elements dropped, the rest in their original order. */
  ghost predicate IsSubsequence<T>(a: seq<T>, b: seq<T>)
    decreases |b|
  {
    if |a| == 0 then true
    else if |b| == 0 then false
    else if a[|a| - 1] == b[|b| - 1] && IsSubsequence(a[..|a| - 1], b[..|b| - 1]) then true
    else IsSubsequence(a, b[..|b| - 1])
  }

  lemma {:induction false} FilterSubsequence<T>(s: seq<T>, p: T -> bool)
    ensures IsSubsequence(Filter(s, p), s)
    decreases |s|
  {
    if |s| > 0 {
      var q := s[..|s| - 1];
      FilterSubsequence(q, p);
      var r := Filter(s, p);
      if p(s[|s| - 1]) {
        assert r[..|r| - 1] == Filter(q, p);
        assert r[|r| - 1] == s[|s| - 1];
      } else {
        assert r == Filter(q, p);
        if |r| > 0 {
          assert IsSubsequence(r, s[..|s| - 1]);
        }
      }
    }
  }

  /** Filtering a list without repetitions keeps the relative order of what it keeps. */
  lemma {:induction false} FilterKeepsOrder<T>(s: seq<T>, p: T -> bool, i: nat, j: nat)
    requires Distinct(s) && i < j < |Filter(s, p)|
    ensures IndexOf(s, Filter(s, p)[i]).value < IndexOf(s, Filter(s, p)[j]).value
    decreases |s|
  {
    var q := s[..|s| - 1];
    var r := Filter(s, p);
    var x := s[|s| - 1];
    assert Distinct(q);
    if p(x) && j == |r| - 1 {
      assert r[i] in Filter(q, p);
      assert r[i] in q;
      var k := IndexOf(q, r[i]).value;
      IndexOfDistinct(s, r[i], k);
      IndexOfDistinct(s, x, |s| - 1);
    } else {
      assert r[i] == Filter(q, p)[i] && r[j] == Filter(q, p)[j];
      FilterKeepsOrder(q, p, i, j);
      var ki := IndexOf(q, r[i]).value;
      var kj := IndexOf(q, r[j]).value;
      IndexOfDistinct(s, r[i], ki);
      IndexOfDistinct(s, r[j], kj);
    }
  }

  // ---------------------------------------------------------------------------
  // Python dicts: insertion-ordered, assignment to an existing key keeps its place.

  function Keys<K, V>(d: seq<(K, V)>): (r: seq<K>)
    ensures |r| == |d|
    ensures forall i :: 0 <= i < |d| ==> r[i] == d[i].0
  {
    seq(|d|, i requires 0 <= i < |d| => d[i].0)
  }

  /** `d.values()`, in insertion order. */
  function Values<K, V>(d: seq<(K, V)>): (r: seq<V>)
    ensures |r| == |d|
    ensures forall i :: 0 <= i < |d| ==> r[i] == d[i].1
  {
    seq(|d|, i requires 0 <= i < |d| => d[i].1)
  }

  /** `d[k] = v`. */
  function Put<K(==), V>(d: seq<(K, V)>, k: K, v: V): seq<(K, V)>
  {
    match IndexOf(Keys(d), k)
    case None => d + [(k, v)]
    case Some(i) => d[i := (k, v)]
  }

  /** Assigning an existing key keeps every key in place; a new key is appended; the
      entries of the other keys are untouched. */
  lemma PutSpec<K, V>(d: seq<(K, V)>, k: K, v: V)
    ensures k in Keys(d) ==> |Put(d, k, v)| == |d| && Keys(Put(d, k, v)) == Keys(d)
    ensures k !in Keys(d) ==> Put(d, k, v) == d + [(k, v)]
    ensures forall i :: 0 <= i < |d| && d[i].0 != k ==> Put(d, k, v)[i] == d[i]
  {
    if k in Keys(d) {
      assert Keys(Put(d, k, v)) == Keys(d);
    }
  }

  /** After `d[k] = v` the dict holds the pair, every other entry was already there, and
      no key is lost. */
  lemma PutEntries<K, V>(d: seq<(K, V)>, k: K, v: V)
    ensures (k, v) in Put(d, k, v)
    ensures forall i :: 0 <= i < |Put(d, k, v)| ==> Put(d, k, v)[i] in d || Put(d, k, v)[i] == (k, v)
    ensures forall x :: x in Keys(d) ==> x in Keys(Put(d, k, v))
  {
    PutSpec(d, k, v);
    var r := Put(d, k, v);
    if k !in Keys(d) {
      assert r[|d|] == (k, v);
      forall x | x in Keys(d) ensures x in Keys(r) {
        var j :| 0 <= j < |d| && Keys(d)[j] == x;
        assert Keys(r)[j] == x;
      }
    } else {
      var i := IndexOf(Keys(d), k).value;
      assert r[i] == (k, v);
    }
  }

  /** `d.get(k)`. */
  function Get<K(==), V>(d: seq<(K, V)>, k: K): (r: Option<V>)
    ensures r.None? <==> k !in Keys(d)
  {
    match IndexOf(Keys(d), k)
    case None => None
    case Some(i) => Some(d[i].1)
  }

  /** A value read back is stored under that key. */
  lemma GetFound<K, V>(d: seq<(K, V)>, k: K)
    requires Get(d, k).Some?
    ensures (k, Get(d, k).value) in d
  {
    var i := IndexOf(Keys(d), k).value;
    assert d[i] == (k, Get(d, k).value);
  }

  /** A dict built by assignments never holds a key twice. */
  lemma PutDistinct<K, V>(d: seq<(K, V)>, k: K, v: V)
    requires Distinct(Keys(d))
    ensures Distinct(Keys(Put(d, k, v)))
  {
    PutSpec(d, k, v);
    var r := Put(d, k, v);
    if k !in Keys(d) {
      KeysAppend(d, [(k, v)]);
      assert Keys(r) == Keys(d) + [k];
    }
  }

  /** The first position of a key is fixed by the keys before it. */
  lemma IndexOfFirst<T>(s: seq<T>, c: T, j: nat)
    requires j < |s| && s[j] == c
    requires forall i :: 0 <= i < j ==> s[i] != c
    ensures IndexOf(s, c) == Some(j)
  {
  }

  /** Reading a key back after assigning it gives the value assigned; other keys keep
      theirs. */
  lemma GetPut<K, V>(d: seq<(K, V)>, k: K, v: V, k': K)
    ensures Get(Put(d, k, v), k') == if k' == k then Some(v) else Get(d, k')
  {
    PutSpec(d, k, v);
    var r := Put(d, k, v);
    if k !in Keys(d) {
      KeysAppend(d, [(k, v)]);
      assert Keys(r) == Keys(d) + [k];
      if k' == k {
        IndexOfFirst(Keys(r), k, |d|);
      } else if k' in Keys(d) {
        var j := IndexOf(Keys(d), k').value;
        IndexOfFirst(Keys(r), k', j);
      }
    }
  }

  // ---------------------------------------------------------------------------
  // `sum(1 for x in s if p(x))`, and pandas' `mask.sum()`.

  function CountIf<T>(s: seq<T>, p: T -> bool): (n: nat)
    ensures n <= |s|
  {
    if |s| == 0 then 0
    else CountIf(s[..|s| - 1], p) + (if p(s[|s| - 1]) then 1 else 0)
  }

  /** Counting one more element. */
  lemma CountIfSnoc<T>(s: seq<T>, j: nat, p: T -> bool)
    requires j < |s|
    ensures CountIf(s[..j + 1], p) == CountIf(s[..j], p) + (if p(s[j]) then 1 else 0)
  {
    assert s[..j + 1][..j] == s[..j];
  }

  /** One pass that counts the elements passing each of two tests. */
  method CountBoth<T>(s: seq<T>, p: T -> bool, q: T -> bool) returns (np: nat, nq: nat)
    ensures np == CountIf(s, p)
    ensures nq == CountIf(s, q)
  {
    np, nq := 0, 0;
    for j := 0 to |s|
      invariant np == CountIf(s[..j], p)
      invariant nq == CountIf(s[..j], q)
    {
      CountIfSnoc(s, j, p);
      CountIfSnoc(s, j, q);
      if p(s[j]) {
        np := np + 1;
      }
      if q(s[j]) {
        nq := nq + 1;
      }
    }
    assert s[..|s|] == s;
  }

  /** One pass that counts the elements passing a test. */
  method CountWhere<T>(s: seq<T>, p: T -> bool) returns (n: nat)
    ensures n == CountIf(s, p)
  {
    n := 0;
    for j := 0 to |s|
      invariant n == CountIf(s[..j], p)
    {
      CountIfSnoc(s, j, p);
      if p(s[j]) {
        n := n + 1;
      }
    }
    assert s[..|s|] == s;
  }

  /** Every element is counted exactly when all of them satisfy the test. */
  lemma {:induction false} CountIfAll<T>(s: seq<T>, p: T -> bool)
    ensures CountIf(s, p) == |s| <==> forall i :: 0 <= i < |s| ==> p(s[i])
    decreases |s|
  {
    if |s| > 0 {
      var q := s[..|s| - 1];
      CountIfAll(q, p);
      assert forall i :: 0 <= i < |q| ==> q[i] == s[i];
    }
  }

  /** Nothing is counted exactly when no element satisfies the test. */
  lemma {:induction false} CountIfNone<T>(s: seq<T>, p: T -> bool)
    ensures CountIf(s, p) == 0 <==> forall i :: 0 <= i < |s| ==> !p(s[i])
    decreases |s|
  {
    if |s| > 0 {
      var q := s[..|s| - 1];
      CountIfNone(q, p);
      assert forall i :: 0 <= i < |q| ==> q[i] == s[i];
    }
  }

  /** A weaker test counts at least as many elements. */
  lemma {:induction false} CountIfMono<T>(s: seq<T>, p: T -> bool, q: T -> bool)
    requires forall i :: 0 <= i < |s| ==> p(s[i]) ==> q(s[i])
    ensures CountIf(s, p) <= CountIf(s, q)
    decreases |s|
  {
    if |s| > 0 {
      var r := s[..|s| - 1];
      assert forall i :: 0 <= i < |r| ==> r[i] == s[i];
      CountIfMono(r, p, q);
    }
  }

  /** Inclusion-exclusion: with `u` the union and `b` the intersection of two tests,
      `#p + #q == #u + #b`. */
  lemma {:induction false} CountIfUnion<T>(s: seq<T>, p: T -> bool, q: T -> bool, u: T -> bool, b: T -> bool)
    requires forall i :: 0 <= i < |s| ==> (u(s[i]) <==> p(s[i]) || q(s[i]))
    requires forall i :: 0 <= i < |s| ==> (b(s[i]) <==> p(s[i]) && q(s[i]))
    ensures CountIf(s, p) + CountIf(s, q) == CountIf(s, u) + CountIf(s, b)
    decreases |s|
  {
    if |s| > 0 {
      var r := s[..|s| - 1];
      assert forall i :: 0 <= i < |r| ==> r[i] == s[i];
      CountIfUnion(r, p, q, u, b);
    }
  }

  /** A test and its negation split the elements. */
  lemma {:induction false} CountIfComplement<T>(s: seq<T>, p: T -> bool, q: T -> bool)
    requires forall i :: 0 <= i < |s| ==> (q(s[i]) <==> !p(s[i]))
    ensures CountIf(s, p) + CountIf(s, q) == |s|
    decreases |s|
  {
    if |s| > 0 {
      var r := s[..|s| - 1];
      assert forall i :: 0 <= i < |r| ==> r[i] == s[i];
      CountIfComplement(r, p, q);
    }
  }

  /** One more element through a filter. */
  lemma FilterSnoc<T>(s: seq<T>, j: nat, p: T -> bool)
    requires j < |s|
    ensures Filter(s[..j + 1], p) == Filter(s[..j], p) + (if p(s[j]) then [s[j]] else [])
  {
    assert s[..j + 1][..j] == s[..j];
  }

  /** A filter keeps as many elements as the test counts. */
  lemma {:induction false} FilterCount<T>(s: seq<T>, p: T -> bool)
    ensures |Filter(s, p)| == CountIf(s, p)
    decreases |s|
  {
    if |s| > 0 {
      FilterCount(s[..|s| - 1], p);
    }
  }

  lemma KeysAppend<K, V>(a: seq<(K, V)>, b: seq<(K, V)>)
    ensures Keys(a + b) == Keys(a) + Keys(b)
  {
    assert forall i :: 0 <= i < |a + b| ==> Keys(a + b)[i] == (Keys(a) + Keys(b))[i];
  }

  /** A dict built from a list of pairs, assigning them in order: `for k, v in ps: d[k] = v`. */
  function PutAll<K(==), V>(ps: seq<(K, V)>): seq<(K, V)> {
    if |ps| == 0 then [] else Put(PutAll(ps[..|ps| - 1]), ps[|ps| - 1].0, ps[|ps| - 1].1)
  }

  lemma PutAllAppend<K, V>(ps: seq<(K, V)>, x: (K, V))
    ensures PutAll(ps + [x]) == Put(PutAll(ps), x.0, x.1)
  {
    assert (ps + [x])[..|ps|] == ps;
  }

  lemma PutAllSnoc<K, V>(ps: seq<(K, V)>, j: nat)
    requires j < |ps|
    ensures PutAll(ps[..j + 1]) == Put(PutAll(ps[..j]), ps[j].0, ps[j].1)
  {
    assert ps[..j + 1][..j] == ps[..j];
  }

  /** The dict has each key of the list once, and every entry is one of the pairs. */
  lemma {:induction false} PutAllSpec<K, V>(ps: seq<(K, V)>)
    ensures Distinct(Keys(PutAll(ps)))
    ensures forall i :: 0 <= i < |ps| ==> ps[i].0 in Keys(PutAll(ps))
    ensures forall j :: 0 <= j < |PutAll(ps)| ==> PutAll(ps)[j] in ps
    decreases |ps|
  {
    if |ps| > 0 {
      var q := ps[..|ps| - 1];
      var x := ps[|ps| - 1];
      PutAllSpec(q);
      var m := PutAll(q);
      var r := Put(m, x.0, x.1);
      assert r == PutAll(ps);
      PutDistinct(m, x.0, x.1);
      PutEntries(m, x.0, x.1);
      forall i | 0 <= i < |ps| ensures ps[i].0 in Keys(r) {
        if i < |ps| - 1 {
          assert q[i] == ps[i];
        } else {
          var k :| 0 <= k < |r| && r[k] == (x.0, x.1);
          assert Keys(r)[k] == x.0;
        }
      }
      forall j | 0 <= j < |r| ensures r[j] in ps {
        if r[j] != (x.0, x.1) {
          var j' :| 0 <= j' < |q| && q[j'] == r[j];
          assert ps[j'] == q[j'];
        }
      }
    }
  }

  // ---------------------------------------------------------------------------
  // `sum(...)` of natural numbers.

  function Sum(s: seq<nat>): nat {
    if |s| == 0 then 0 else Sum(s[..|s| - 1]) + s[|s| - 1]
  }

  lemma SumSnoc(s: seq<nat>, j: nat)
    requires j < |s|
    ensures Sum(s[..j + 1]) == Sum(s[..j]) + s[j]
  {
    assert s[..j + 1][..j] == s[..j];
  }

  /** With every term at most `b`, the sum is at most `b * |s|`, and reaches it exactly
      when every term is `b`. */
  lemma {:induction false} SumBound(s: seq<nat>, b: nat)
    requires forall i :: 0 <= i < |s| ==> s[i] <= b
    ensures Sum(s) <= b * |s|
    ensures Sum(s) == b * |s| <==> forall i :: 0 <= i < |s| ==> s[i] == b
    decreases |s|
  {
    if |s| > 0 {
      var q := s[..|s| - 1];
      assert forall i :: 0 <= i < |q| ==> q[i] == s[i];
      SumBound(q, b);
      assert b * (|s| - 1) + b == b * |s|;
    }
  }

  /** Pairs with distinct keys build a dict that is the list itself. */
  lemma {:induction false} PutAllDistinct<K, V>(ps: seq<(K, V)>)
    requires Distinct(Keys(ps))
    ensures PutAll(ps) == ps
    decreases |ps|
  {
    if |ps| > 0 {
      var q := ps[..|ps| - 1];
      var x := ps[|ps| - 1];
      assert Distinct(Keys(q));
      PutAllDistinct(q);
      forall j | 0 <= j < |q| ensures Keys(q)[j] != x.0 {
        assert Keys(ps)[j] != Keys(ps)[|ps| - 1];
      }
      PutSpec(q, x.0, x.1);
      assert q + [x] == ps;
    }
  }

  /** Every key of the list can be read back from the dict, with a value paired with it in
      the list. */
  lemma GetPutAll<K, V>(ps: seq<(K, V)>, k: K)
    requires k in Keys(ps)
    ensures Get(PutAll(ps), k).Some? && (k, Get(PutAll(ps), k).value) in ps
  {
    PutAllSpec(ps);
    var j :| 0 <= j < |ps| && Keys(ps)[j] == k;
    assert ps[j].0 in Keys(PutAll(ps));
    GetFound(PutAll(ps), k);
  }

  /** Looking a key up after inserting pairs that agree on that key's value. */
  lemma GetPutAllOf<K, V>(ps: seq<(K, V)>, k: K, v: V)
    requires forall m :: 0 <= m < |ps| && ps[m].0 == k ==> ps[m].1 == v
    ensures Get(PutAll(ps), k) == if k in Keys(ps) then Some(v) else None
  {
    if k in Keys(ps) {
      GetPutAll(ps, k);
      var m :| 0 <= m < |ps| && ps[m] == (k, Get(PutAll(ps), k).value);
    } else {
      PutAllSpec(ps);
      forall j | 0 <= j < |PutAll(ps)| ensures Keys(PutAll(ps))[j] != k {
        assert PutAll(ps)[j] in ps;
      }
    }
  }

  /** The keys kept by a filter are the keys of the pairs that pass it. */
  lemma KeysFilterIn<K, V>(ps: seq<(K, V)>, keep: ((K, V)) -> bool, k: K)
    ensures k in Keys(Filter(ps, keep)) <==> exists j :: 0 <= j < |ps| && ps[j].0 == k && keep(ps[j])
  {
    var kept := Filter(ps, keep);
    if k in Keys(kept) {
      var m :| 0 <= m < |kept| && Keys(kept)[m] == k;
      var j :| 0 <= j < |ps| && ps[j] == kept[m];
      assert ps[j].0 == k && keep(ps[j]);
    }
    if exists j :: 0 <= j < |ps| && ps[j].0 == k && keep(ps[j]) {
      var j :| 0 <= j < |ps| && ps[j].0 == k && keep(ps[j]);
      FilterIn(ps, keep, ps[j]);
      var m :| 0 <= m < |kept| && kept[m] == ps[j];
      assert Keys(kept)[m] == k;
    }
  }

  /** A key survives the filter exactly when its pair passes the test. */
  lemma FilterKeys<K, V>(ks: seq<K>, ps: seq<(K, V)>, keep: ((K, V)) -> bool, c: K, v: V)
    requires |ps| == |ks| && forall j :: 0 <= j < |ks| ==> ps[j].0 == ks[j]
    requires forall j :: 0 <= j < |ks| && ks[j] == c ==> ps[j].1 == v
    ensures c in Keys(Filter(ps, keep)) <==> c in ks && keep((c, v))
  {
    var kept := Filter(ps, keep);
    if c in ks && keep((c, v)) {
      var j :| 0 <= j < |ks| && ks[j] == c;
      assert ps[j] == (c, v);
      FilterIn(ps, keep, ps[j]);
      var m :| 0 <= m < |kept| && kept[m] == ps[j];
      assert Keys(kept)[m] == c;
    }
    if c in Keys(kept) {
      var m :| 0 <= m < |kept| && Keys(kept)[m] == c;
      var j :| 0 <= j < |ps| && ps[j] == kept[m];
      assert ks[j] == c;
    }
  }

  /** The dict built from the pairs of `ps` that pass `keep`, where `ps` pairs each key of
      `ks` with a value: each key once, and a key read back gives its value when its pair
      was kept. */
  lemma GetPutAllFilter<K, V>(ks: seq<K>, ps: seq<(K, V)>, keep: ((K, V)) -> bool, c: K, v: V)
    requires |ps| == |ks| && forall j :: 0 <= j < |ks| ==> ps[j].0 == ks[j]
    requires forall j :: 0 <= j < |ks| && ks[j] == c ==> ps[j].1 == v
    ensures Distinct(Keys(PutAll(Filter(ps, keep))))
    ensures Get(PutAll(Filter(ps, keep)), c) == if c in ks && keep((c, v)) then Some(v) else None
  {
    var kept := Filter(ps, keep);
    PutAllSpec(kept);
    forall m | 0 <= m < |kept| && kept[m].0 == c ensures kept[m].1 == v {
      var j :| 0 <= j < |ps| && ps[j] == kept[m];
    }
    GetPutAllOf(kept, c, v);
    FilterKeys(ks, ps, keep, c, v);
  }

  /** One step of a loop that assigns `d[k] = v` only for the pairs that pass `keep`. */
  lemma PutAllFilterSnoc<K, V>(ps: seq<(K, V)>, keep: ((K, V)) -> bool, j: nat)
    requires j < |ps|
    ensures PutAll(Filter(ps[..j + 1], keep)) ==
      if keep(ps[j]) then Put(PutAll(Filter(ps[..j], keep)), ps[j].0, ps[j].1) else PutAll(Filter(ps[..j], keep))
  {
    FilterSnoc(ps, j, keep);
    if keep(ps[j]) {
      PutAllAppend(Filter(ps[..j], keep), ps[j]);
    } else {
      assert Filter(ps[..j + 1], keep) == Filter(ps[..j], keep);
    }
  }

  /** When `p` implies `q`, the counts agree exactly when `q` implies `p` as well. */
  lemma {:induction false} CountIfMonoEq<T>(s: seq<T>, p: T -> bool, q: T -> bool)
    requires forall i :: 0 <= i < |s| ==> p(s[i]) ==> q(s[i])
    ensures CountIf(s, p) == CountIf(s, q) <==> forall i :: 0 <= i < |s| ==> q(s[i]) ==> p(s[i])
    decreases |s|
  {
    if |s| > 0 {
      var r := s[..|s| - 1];
      assert forall i :: 0 <= i < |r| ==> r[i] == s[i];
      CountIfMonoEq(r, p, q);
      CountIfMono(r, p, q);
    }
  }
}
