/** Strings in code-point order. */
module StringOrder {
  import Orders

  predicate CharBefore(a: char, b: char) { a < b }

  predicate Before(a: string, b: string) { Orders.Before(a, b, CharBefore) }

  /** `a` comes before `b` when it is smaller where they first differ, or ends there. */
  lemma BeforeExactly(a: string, b: string)
    ensures Before(a, b) <==>
            exists n :: 0 <= n <= |a| && n < |b| && a[..n] == b[..n] && (n == |a| || a[n] < b[n])
  {
    if Before(a, b) {
      var n := PartingPlace(a, b);
    }
    if n :| 0 <= n <= |a| && n < |b| && a[..n] == b[..n] && (n == |a| || a[n] < b[n]) {
      BeforeByPrefix(a, b, n);
    }
  }

  lemma {:induction false} PartingPlace(a: string, b: string) returns (n: nat)
    requires Before(a, b)
    ensures n <= |a| && n < |b| && a[..n] == b[..n] && (n == |a| || a[n] < b[n])
  {
    if a == [] || a[0] != b[0] {
      n := 0;
    } else {
      var m := PartingPlace(a[1..], b[1..]);
      n := m + 1;
      assert a[..n] == [a[0]] + a[1..][..m] && b[..n] == [b[0]] + b[1..][..m];
    }
  }

  lemma {:induction false} BeforeByPrefix(a: string, b: string, n: nat)
    requires n <= |a| && n < |b| && a[..n] == b[..n] && (n == |a| || a[n] < b[n])
    ensures Before(a, b)
  {
    if n > 0 {
      assert a[0] == a[..n][0] && b[0] == b[..n][0];
      assert a[1..][..n - 1] == a[..n][1..] && b[1..][..n - 1] == b[..n][1..];
      BeforeByPrefix(a[1..], b[1..], n - 1);
    }
  }

  lemma BeforeIsTotal()
    ensures Orders.Total(Before)
  {
    assert Orders.Total(CharBefore);
    forall a, b | Before(a, b) ensures !Before(b, a) {
      Orders.BeforeAsymmetric(a, b, CharBefore);
    }
    forall a, b, c | Before(a, b) && Before(b, c) ensures Before(a, c) {
      Orders.BeforeTransitive(a, b, c, CharBefore);
    }
    forall a, b ensures a == b || Before(a, b) || Before(b, a) {
      Orders.BeforeTotal(a, b, CharBefore);
    }
  }

  /** The members of `s` in ascending order, each once. */
  function Sorted(s: set<string>): (q: seq<string>)
    ensures (forall x :: x in q <==> x in s) && Orders.Distinct(q)
  {
    BeforeIsTotal();
    Orders.SortedAscends(s, Before);
    Orders.Sorted(s, Before)
  }
}
