/** Python's orders: strings by code point, and sorting a set by a strict total order. */
module Ordering {

  /** Lexicographic order on strings. */
  predicate StringLess(a: string, b: string) {
    if b == [] then false
    else if a == [] then true
    else a[0] < b[0] || (a[0] == b[0] && StringLess(a[1..], b[1..]))
  }

  lemma {:induction false} StringLessTotal(a: string, b: string)
    ensures a == b || StringLess(a, b) || StringLess(b, a)
    ensures !(StringLess(a, b) && StringLess(b, a)) && !StringLess(a, a)
  {
    if a != [] && b != [] {
      StringLessTotal(a[1..], b[1..]);
      if a[0] == b[0] && a[1..] == b[1..] {
        assert a == [a[0]] + a[1..] && b == [b[0]] + b[1..];
      }
    }
    if a != [] {
      StringLessTotal(a[1..], a[1..]);
    }
  }

  lemma {:induction false} StringLessTransitive(a: string, b: string, c: string)
    requires StringLess(a, b) && StringLess(b, c)
    ensures StringLess(a, c)
  {
    if a != [] && a[0] == b[0] && b[0] == c[0] {
      StringLessTransitive(a[1..], b[1..], c[1..]);
    }
  }

  ghost predicate StrictOrder<T(!new)>(less: (T, T) -> bool) {
    && (forall a :: !less(a, a))
    && (forall a, b, c :: less(a, b) && less(b, c) ==> less(a, c))
    && (forall a, b :: a == b || less(a, b) || less(b, a))
  }

  /** `q` lists the elements of `s`, each once, in ascending order. */
  ghost predicate IsSorting<T(!new)>(less: (T, T) -> bool, s: set<T>, q: seq<T>) {
    && (forall i, j :: 0 <= i < j < |q| ==> less(q[i], q[j]))
    && (forall x :: x in s <==> x in q)
  }

  /** There is only one way to sort a set. */
  lemma {:induction false} SortingUnique<T(!new)>(less: (T, T) -> bool, s: set<T>, p: seq<T>, q: seq<T>)
    requires StrictOrder(less) && IsSorting(less, s, p) && IsSorting(less, s, q)
    ensures p == q
    decreases |p|
  {
    if p == [] {
      assert forall k :: 0 <= k < |q| ==> q[k] in s;
    } else {
      assert p[0] in s;
      assert p[0] in q;
      assert q[0] in s;
      assert q[0] in p;
      assert p[0] == q[0];
      RestIsSorting(less, s, p);
      RestIsSorting(less, s, q);
      SortingUnique(less, s - {p[0]}, p[1..], q[1..]);
      assert p == [p[0]] + p[1..] && q == [q[0]] + q[1..];
    }
  }

  lemma RestIsSorting<T(!new)>(less: (T, T) -> bool, s: set<T>, p: seq<T>)
    requires StrictOrder(less) && IsSorting(less, s, p) && p != []
    ensures IsSorting(less, s - {p[0]}, p[1..])
  {
    forall x ensures x in s - {p[0]} <==> x in p[1..] {
      if x in p[1..] {
        var k :| 0 <= k < |p[1..]| && p[1..][k] == x;
        assert p[k + 1] == x;
        assert less(p[0], p[k + 1]);
      }
      if x in s - {p[0]} {
        var k :| 0 <= k < |p| && p[k] == x;
        assert p[1..][k - 1] == x;
      }
    }
  }

  /** `sorted(...)` of a set. */
  method Sort<T(!new,==)>(less: (T, T) -> bool, s: set<T>) returns (q: seq<T>)
    requires StrictOrder(less)
    ensures IsSorting(less, s, q)
  {
    q := [];
    var todo := s;
    while todo != {}
      invariant todo <= s
      invariant IsSorting(less, s - todo, q)
      decreases todo
    {
      var x :| x in todo;
      q := Insert(less, s - todo, q, x);
      assert s - todo + {x} == s - (todo - {x});
      todo := todo - {x};
    }
    assert s - todo == s;
  }

  method Insert<T(!new,==)>(less: (T, T) -> bool, ghost s: set<T>, q: seq<T>, x: T) returns (r: seq<T>)
    requires StrictOrder(less) && IsSorting(less, s, q) && x !in s
    ensures IsSorting(less, s + {x}, r)
  {
    var k := 0;
    while k < |q| && less(q[k], x)
      invariant k <= |q|
      invariant forall j :: 0 <= j < k ==> less(q[j], x)
    {
      k := k + 1;
    }
    r := q[..k] + [x] + q[k..];
    Inserted(less, s, q, x, k);
  }

  lemma Inserted<T(!new)>(less: (T, T) -> bool, s: set<T>, q: seq<T>, x: T, k: nat)
    requires StrictOrder(less) && IsSorting(less, s, q) && x !in s && k <= |q|
    requires forall j :: 0 <= j < k ==> less(q[j], x)
    requires k < |q| ==> !less(q[k], x)
    ensures IsSorting(less, s + {x}, q[..k] + [x] + q[k..])
  {
    var r := q[..k] + [x] + q[k..];
    if k < |q| {
      assert q[k] in s;
    }
    assert forall j :: k <= j < |q| ==> less(x, q[j]);
    forall y ensures y in s + {x} <==> y in r {
      if y in q {
        var j :| 0 <= j < |q| && q[j] == y;
        assert r[if j < k then j else j + 1] == y;
      }
      assert r[k] == x;
    }
  }

  /** Every finite set can be sorted. */
  lemma {:induction false} SortingExists<T(!new)>(less: (T, T) -> bool, s: set<T>) returns (q: seq<T>)
    requires StrictOrder(less)
    ensures IsSorting(less, s, q)
    decreases s
  {
    if s == {} {
      q := [];
    } else {
      var x :| x in s;
      var rest := SortingExists(less, s - {x});
      var k := 0;
      while k < |rest| && less(rest[k], x)
        invariant k <= |rest|
        invariant forall j :: 0 <= j < k ==> less(rest[j], x)
      {
        k := k + 1;
      }
      Inserted(less, s - {x}, rest, x, k);
      q := rest[..k] + [x] + rest[k..];
      assert s - {x} + {x} == s;
    }
  }

  function ByString(): (string, string) -> bool { (a: string, b: string) => StringLess(a, b) }

  lemma ByStringIsOrder()
    ensures StrictOrder(ByString())
  {
    forall a: string, b: string ensures !StringLess(a, a) && (a == b || StringLess(a, b) || StringLess(b, a)) {
      StringLessTotal(a, b);
      StringLessTotal(a, a);
    }
    forall a: string, b: string, c: string | StringLess(a, b) && StringLess(b, c) ensures StringLess(a, c) {
      StringLessTransitive(a, b, c);
    }
  }
}
