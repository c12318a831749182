/** Strictly ascending enumerations of finite sets, for ORDER BY and for ordered sets. */
module Sorting {
  import opened Digraph

  ghost predicate StrictOrder<T(!new)>(less: (T, T) -> bool) {
    && (forall x :: !less(x, x))
    && (forall x, y, z :: less(x, y) && less(y, z) ==> less(x, z))
    && (forall x, y :: x == y || less(x, y) || less(y, x))
  }

  ghost predicate Ascending<T(!new)>(less: (T, T) -> bool, s: seq<T>) {
    forall i, j :: 0 <= i < j < |s| ==> less(s[i], s[j])
  }

  predicate IsLeast<T(==, !new)>(less: (T, T) -> bool, s: set<T>, m: T) {
    m in s && forall y | y in s :: y == m || less(m, y)
  }

  lemma {:induction false} LeastExists<T(!new)>(less: (T, T) -> bool, s: set<T>)
    requires StrictOrder(less) && s != {}
    ensures exists m :: IsLeast(less, s, m)
    decreases |s|
  {
    var x :| x in s;
    var rest := s - {x};
    if rest == {} {
      assert s == {x};
      assert IsLeast(less, s, x);
    } else {
      LeastExists(less, rest);
      var n :| IsLeast(less, rest, n);
      var m := if less(x, n) then x else n;
      forall y | y in s ensures y == m || less(m, y) {
        assert y == x || y in rest;
      }
      assert IsLeast(less, s, m);
    }
  }

  function Least<T(==, !new)>(less: (T, T) -> bool, s: set<T>): (m: T)
    requires StrictOrder(less) && s != {}
    ensures IsLeast(less, s, m)
  {
    LeastExists(less, s);
    var m :| m in s && IsLeast(less, s, m);
    m
  }

  /** The set's elements in ascending order. */
  function Sorted<T(==, !new)>(less: (T, T) -> bool, s: set<T>): (r: seq<T>)
    requires StrictOrder(less)
    ensures Ascending(less, r) && Distinct(r)
    ensures forall x :: x in r <==> x in s
    decreases |s|
  {
    if s == {} then []
    else var m := Least(less, s); [m] + Sorted(less, s - {m})
  }

  lemma {:induction false} TailOfAscending<T(!new)>(less: (T, T) -> bool, s: seq<T>)
    requires StrictOrder(less) && Ascending(less, s) && s != []
    ensures forall x :: x in s[1..] <==> x in s && x != s[0]
  {
    assert s == [s[0]] + s[1..];
    forall x | x in s[1..] ensures x != s[0] {
      var k :| 1 <= k < |s| && s[k] == x;
      assert less(s[0], s[k]);
    }
  }

  /** A set has only one ascending enumeration. */
  lemma {:induction false} AscendingIsUnique<T(!new)>(less: (T, T) -> bool, a: seq<T>, b: seq<T>)
    requires StrictOrder(less) && Ascending(less, a) && Ascending(less, b)
    requires forall x :: x in a <==> x in b
    ensures a == b
  {
    assert |b| > 0 ==> b[0] in b && b[0] in a;
    assert |a| > 0 ==> a[0] in a && a[0] in b;
    if a != [] {
      assert a[0] == b[0];
      TailOfAscending(less, a);
      TailOfAscending(less, b);
      AscendingIsUnique(less, a[1..], b[1..]);
    }
  }

  // ---------- strings and pairs of strings ----------

  /** Lexicographic order, as in SQLite's binary collation and Rust's `String`. */
  predicate Before(a: string, b: string) {
    b != [] && (a == [] || a[0] < b[0] || (a[0] == b[0] && Before(a[1..], b[1..])))
  }

  /** The order is decided at the first place where the strings differ, where one may have ended. */
  ghost predicate FirstDifference(a: string, b: string, k: nat) {
    k <= |a| && k < |b| && a[..k] == b[..k] && (k == |a| || a[k] < b[k])
  }

  lemma {:induction false} BeforeMeaning(a: string, b: string)
    ensures Before(a, b) <==> exists k: nat :: FirstDifference(a, b, k)
  {
    if Before(a, b) {
      if a == [] || a[0] < b[0] {
        assert FirstDifference(a, b, 0);
      } else {
        BeforeMeaning(a[1..], b[1..]);
        var k: nat :| FirstDifference(a[1..], b[1..], k);
        assert a[..k + 1] == [a[0]] + a[1..][..k] && b[..k + 1] == [b[0]] + b[1..][..k];
        assert FirstDifference(a, b, k + 1);
      }
    }
    if k: nat :| FirstDifference(a, b, k) {
      if k > 0 {
        assert a[0] == a[..k][0] == b[..k][0] == b[0];
        assert a[1..][..k - 1] == a[..k][1..] && b[1..][..k - 1] == b[..k][1..];
        assert FirstDifference(a[1..], b[1..], k - 1);
        BeforeMeaning(a[1..], b[1..]);
      }
    }
  }

  lemma {:induction false} BeforeIrreflexive(a: string)
    ensures !Before(a, a)
  {
    if a == [] {
    } else {
      BeforeIrreflexive(a[1..]);
    }
  }

  lemma {:induction false} BeforeTotal(a: string, b: string)
    ensures a == b || Before(a, b) || Before(b, a)
  {
    if a != [] && b != [] && a[0] == b[0] {
      BeforeTotal(a[1..], b[1..]);
      assert a == [a[0]] + a[1..] && b == [b[0]] + b[1..];
    }
  }

  lemma {:induction false} BeforeTransitive(a: string, b: string, c: string)
    requires Before(a, b) && Before(b, c)
    ensures Before(a, c)
  {
    if a != [] && a[0] == b[0] && b[0] == c[0] { BeforeTransitive(a[1..], b[1..], c[1..]); }
  }

  lemma {:induction false} BeforeIsStrictOrder()
    ensures StrictOrder(Before)
  {
    forall a { BeforeIrreflexive(a); }
    forall a, b ensures a == b || Before(a, b) || Before(b, a) { BeforeTotal(a, b); }
    forall a, b, c | Before(a, b) && Before(b, c) ensures Before(a, c) { BeforeTransitive(a, b, c); }
  }

  predicate PairBefore(p: (string, string), q: (string, string)) {
    Before(p.0, q.0) || (p.0 == q.0 && Before(p.1, q.1))
  }

  lemma {:induction false} PairBeforeIsStrictOrder()
    ensures StrictOrder(PairBefore)
  {
    BeforeIsStrictOrder();
    forall p, q, r | PairBefore(p, q) && PairBefore(q, r) ensures PairBefore(p, r) {
      if Before(p.0, q.0) && Before(q.0, r.0) { assert Before(p.0, r.0); }
      if p.0 == q.0 == r.0 { assert Before(p.1, r.1); }
    }
    forall p, q ensures p == q || PairBefore(p, q) || PairBefore(q, p) {
      assert p.0 == q.0 || Before(p.0, q.0) || Before(q.0, p.0);
      assert p.1 == q.1 || Before(p.1, q.1) || Before(q.1, p.1);
    }
  }

  /** ORDER BY on ids. */
  function SortIds(s: set<string>): (r: seq<string>)
    ensures Ascending(Before, r) && Distinct(r)
    ensures forall x :: x in r <==> x in s
  {
    BeforeIsStrictOrder();
    Sorted(Before, s)
  }

  /** ORDER BY on pairs of ids. */
  function SortPairs(s: set<(string, string)>): (r: seq<(string, string)>)
    ensures Ascending(PairBefore, r) && Distinct(r)
    ensures forall x :: x in r <==> x in s
  {
    PairBeforeIsStrictOrder();
    Sorted(PairBefore, s)
  }

  /** A set of ids has one ordered listing, however it was gathered. */
  lemma {:induction false} SortedIdsAreUnique(s: set<string>, r: seq<string>)
    requires Ascending(Before, r) && forall x :: x in r <==> x in s
    ensures r == SortIds(s)
  {
    BeforeIsStrictOrder();
    AscendingIsUnique(Before, r, SortIds(s));
  }
}
