/**
 Total orders, the lexicographic order of sequences, and finite sets as ascending sequences:
 what `sorted` yields.
 */
module Orders {

  predicate Distinct<T(==)>(xs: seq<T>) { forall i, j :: 0 <= i < j < |xs| ==> xs[i] != xs[j] }

  ghost predicate Total<T(!new)>(less: (T, T) -> bool) {
    && (forall x, y :: less(x, y) ==> !less(y, x))
    && (forall x, y, z :: less(x, y) && less(y, z) ==> less(x, z))
    && (forall x, y :: x == y || less(x, y) || less(y, x))
  }

  // ---- the lexicographic order ----

  predicate Before<T(==)>(a: seq<T>, b: seq<T>, less: (T, T) -> bool) {
    b != [] && (a == [] || less(a[0], b[0]) || (a[0] == b[0] && Before(a[1..], b[1..], less)))
  }

  lemma {:induction false} BeforeTotal<T>(a: seq<T>, b: seq<T>, less: (T, T) -> bool)
    requires forall x, y :: x in a && y in b ==> x == y || less(x, y) || less(y, x)
    ensures a == b || Before(a, b, less) || Before(b, a, less)
  {
    if a != [] && b != [] && a[0] == b[0] {
      BeforeTotal(a[1..], b[1..], less);
      assert a == [a[0]] + a[1..] && b == [b[0]] + b[1..];
    }
  }

  lemma {:induction false} BeforeTransitive<T(!new)>(a: seq<T>, b: seq<T>, c: seq<T>, less: (T, T) -> bool)
    requires Total(less) && Before(a, b, less) && Before(b, c, less)
    ensures Before(a, c, less)
  {
    if a != [] && a[0] == b[0] == c[0] && !less(a[0], b[0]) {
      BeforeTransitive(a[1..], b[1..], c[1..], less);
    }
  }

  lemma {:induction false} BeforeAsymmetric<T(!new)>(a: seq<T>, b: seq<T>, less: (T, T) -> bool)
    requires Total(less) && Before(a, b, less)
    ensures !Before(b, a, less)
  {
    if a != [] && a[0] == b[0] {
      BeforeAsymmetric(a[1..], b[1..], less);
    }
  }

  // ---- sorting a set ----

  predicate IsLeast<T(==)>(s: set<T>, x: T, less: (T, T) -> bool) {
    x in s && forall y :: y in s && y != x ==> less(x, y)
  }

  lemma LeastExists<T(!new)>(s: set<T>, less: (T, T) -> bool)
    requires s != {} && Total(less)
    ensures exists x :: IsLeast(s, x, less)
  {
    var x :| x in s;
    if s == {x} {
      assert IsLeast(s, x, less);
    } else {
      LeastExists(s - {x}, less);
      var z :| IsLeast(s - {x}, z, less);
      var w := if less(z, x) then z else x;
      forall y | y in s && y != w ensures less(w, y) {
        if y != x && y != z {
          assert y in s - {x};
        }
      }
      assert IsLeast(s, w, less);
    }
  }

  lemma LeastUnique<T(!new)>(s: set<T>, less: (T, T) -> bool)
    requires Total(less)
    ensures forall x, y :: IsLeast(s, x, less) && IsLeast(s, y, less) ==> x == y
  {
  }

  function Least<T(!new, ==)>(s: set<T>, less: (T, T) -> bool): (x: T)
    requires s != {} && Total(less)
    ensures IsLeast(s, x, less)
  {
    LeastExists(s, less);
    LeastUnique(s, less);
    var x :| x in s && IsLeast(s, x, less);
    x
  }

  /** The members of `s` in ascending order, each once. */
  function Sorted<T(!new, ==)>(s: set<T>, less: (T, T) -> bool): (q: seq<T>)
    requires Total(less)
    ensures forall x :: x in q <==> x in s
  {
    if s == {} then [] else [Least(s, less)] + Sorted(s - {Least(s, less)}, less)
  }

  predicate Ascending<T>(q: seq<T>, less: (T, T) -> bool) { forall i, j :: 0 <= i < j < |q| ==> less(q[i], q[j]) }

  lemma {:induction false} SortedAscends<T(!new)>(s: set<T>, less: (T, T) -> bool)
    requires Total(less)
    ensures Ascending(Sorted(s, less), less) && Distinct(Sorted(s, less))
  {
    if s != {} {
      var least := Least(s, less);
      var rest, q := Sorted(s - {least}, less), Sorted(s, less);
      SortedAscends(s - {least}, less);
      forall i, j | 0 <= i < j < |q| ensures less(q[i], q[j]) {
        assert q[j] in rest;
      }
    }
  }
}
