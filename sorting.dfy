/** Python's `sorted`/`list.sort` with a key: a stable sort. `lt(a, b)` is "a sorts strictly
    before b" (`key(a) < key(b)`, or `key(a) > key(b)` under `reverse=True`, which Python
    keeps stable as well). */
module Sorting {

  ghost predicate Asymmetric<T>(lt: (T, T) -> bool, a: T, b: T) {
    lt(a, b) ==> !lt(b, a)
  }

  ghost predicate NegativelyTransitive<T>(lt: (T, T) -> bool, a: T, b: T, c: T) {
    !lt(a, b) && !lt(b, c) ==> !lt(a, c)
  }

  /** Asymmetric and negatively transitive: what a key comparison always is. The two
      laws are stated through named predicates so that proofs instantiate them on
      demand. */
  ghost predicate StrictWeakOrder<T(!new)>(lt: (T, T) -> bool) {
    && (forall a, b :: Asymmetric(lt, a, b))
    && (forall a, b, c :: NegativelyTransitive(lt, a, b, c))
  }

  ghost predicate Sorted<T>(s: seq<T>, lt: (T, T) -> bool) {
    forall i, j :: 0 <= i < j < |s| ==> !lt(s[j], s[i])
  }

  /** Inserts `x` after every element that does not sort after it, scanning from the end. */
  function Insert<T>(r: seq<T>, x: T, lt: (T, T) -> bool): (r': seq<T>)
    ensures |r'| == |r| + 1
    ensures multiset(r') == multiset(r) + multiset{x}
  {
    if |r| == 0 || !lt(x, r[|r| - 1]) then r + [x]
    else
      assert r == r[..|r| - 1] + [r[|r| - 1]];
      Insert(r[..|r| - 1], x, lt) + [r[|r| - 1]]
  }

  /** Stable insertion sort. */
  function SortBy<T>(s: seq<T>, lt: (T, T) -> bool): (r: seq<T>)
    ensures |r| == |s|
    ensures multiset(r) == multiset(s)
  {
    if |s| == 0 then []
    else
      assert s == s[..|s| - 1] + [s[|s| - 1]];
      Insert(SortBy(s[..|s| - 1], lt), s[|s| - 1], lt)
  }

  /** Appending an element that no element sorts after keeps the order. */
  lemma AppendSorted<T>(r: seq<T>, y: T, lt: (T, T) -> bool)
    requires Sorted(r, lt) && forall i :: 0 <= i < |r| ==> !lt(y, r[i])
    ensures Sorted(r + [y], lt)
  {
    var q := r + [y];
    forall i, j | 0 <= i < j < |q| ensures !lt(q[j], q[i]) {
      if j == |r| {
        assert q[i] == r[i];
      }
    }
  }

  /** What `y` does not sort before, neither does anything inserted among such elements
      together with something that sorts strictly before `y`. */
  lemma InsertBelow<T(!new)>(p: seq<T>, x: T, y: T, lt: (T, T) -> bool)
    requires StrictWeakOrder(lt) && lt(x, y) && forall i :: 0 <= i < |p| ==> !lt(y, p[i])
    ensures forall i :: 0 <= i < |p| + 1 ==> !lt(y, Insert(p, x, lt)[i])
  {
    var q := Insert(p, x, lt);
    forall i | 0 <= i < |q| ensures !lt(y, q[i]) {
      var e := q[i];
      assert e in multiset(q);
      if e == x {
        assert Asymmetric(lt, x, y);
      } else {
        assert e in multiset(p);
        var j :| 0 <= j < |p| && p[j] == e;
      }
    }
  }

  lemma {:induction false} InsertSorted<T(!new)>(r: seq<T>, x: T, lt: (T, T) -> bool)
    requires StrictWeakOrder(lt) && Sorted(r, lt)
    ensures Sorted(Insert(r, x, lt), lt)
    decreases |r|
  {
    if |r| == 0 {
    } else if !lt(x, r[|r| - 1]) {
      forall i | 0 <= i < |r| ensures !lt(x, r[i]) {
        assert NegativelyTransitive(lt, x, r[|r| - 1], r[i]);
      }
      AppendSorted(r, x, lt);
    } else {
      var p, y := r[..|r| - 1], r[|r| - 1];
      InsertSorted(p, x, lt);
      InsertBelow(p, x, y, lt);
      AppendSorted(Insert(p, x, lt), y, lt);
    }
  }

  /** The result is in non-decreasing order of `lt`. */
  lemma {:induction false} SortBySorted<T(!new)>(s: seq<T>, lt: (T, T) -> bool)
    requires StrictWeakOrder(lt)
    ensures Sorted(SortBy(s, lt), lt)
    decreases |s|
  {
    if |s| > 0 {
      SortBySorted(s[..|s| - 1], lt);
      InsertSorted(SortBy(s[..|s| - 1], lt), s[|s| - 1], lt);
    }
  }

  /** Elements that tie with `k`. */
  function Ties<T>(s: seq<T>, k: T, lt: (T, T) -> bool): seq<T> {
    if |s| == 0 then []
    else Ties(s[..|s| - 1], k, lt) + (if !lt(s[|s| - 1], k) && !lt(k, s[|s| - 1]) then [s[|s| - 1]] else [])
  }

  lemma {:induction false} TiesAppend<T>(a: seq<T>, b: seq<T>, k: T, lt: (T, T) -> bool)
    ensures Ties(a + b, k, lt) == Ties(a, k, lt) + Ties(b, k, lt)
    decreases |b|
  {
    if |b| > 0 {
      assert (a + b)[..|a + b| - 1] == a + b[..|b| - 1];
      TiesAppend(a, b[..|b| - 1], k, lt);
    } else {
      assert a + b == a;
    }
  }

  lemma {:induction false} InsertTies<T(!new)>(r: seq<T>, x: T, k: T, lt: (T, T) -> bool)
    requires StrictWeakOrder(lt)
    ensures Ties(Insert(r, x, lt), k, lt) == Ties(r + [x], k, lt)
    decreases |r|
  {
    if |r| > 0 && lt(x, r[|r| - 1]) {
      var p, y := r[..|r| - 1], r[|r| - 1];
      InsertTies(p, x, k, lt);
      var tx := Ties([x], k, lt);
      var ty := Ties([y], k, lt);
      assert Ties(Insert(r, x, lt), k, lt) == Ties(p, k, lt) + tx + ty by {
        TiesAppend(Insert(p, x, lt), [y], k, lt);
        TiesAppend(p, [x], k, lt);
      }
      assert Ties(r + [x], k, lt) == Ties(p, k, lt) + ty + tx by {
        assert r + [x] == (p + [y]) + [x];
        TiesAppend(p + [y], [x], k, lt);
        TiesAppend(p, [y], k, lt);
      }
      assert tx == [] || ty == [] by {
        assert [x][..0] == [] && [y][..0] == [];
        assert NegativelyTransitive(lt, x, k, y);
      }
    }
  }

  /** Stability: the elements of every tie class keep their input order. */
  lemma {:induction false} SortByStable<T(!new)>(s: seq<T>, k: T, lt: (T, T) -> bool)
    requires StrictWeakOrder(lt)
    ensures Ties(SortBy(s, lt), k, lt) == Ties(s, k, lt)
    decreases |s|
  {
    if |s| > 0 {
      var p, x := s[..|s| - 1], s[|s| - 1];
      var q := SortBy(p, lt);
      assert SortBy(s, lt) == Insert(q, x, lt);
      SortByStable(p, k, lt);
      InsertTies(q, x, k, lt);
      TiesAppend(q, [x], k, lt);
      var tx := if !lt(x, k) && !lt(k, x) then [x] else [];
      assert Ties([x], k, lt) == tx by {
        assert [x][..0] == [];
      }
      assert Ties(s, k, lt) == Ties(p, k, lt) + tx;
    }
  }

  /** `lst[:n]`. */
  function Take<T>(s: seq<T>, n: nat): (r: seq<T>)
    ensures |r| == if |s| < n then |s| else n
    ensures r == s[..|r|]
  {
    if |s| < n then s else s[..n]
  }
}
