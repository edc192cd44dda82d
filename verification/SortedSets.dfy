/** Finite sets of numbers as ascending sequences: what `sorted` over numbered files yields. */
module SortedSets {
  import Orders

  predicate NatBefore(x: nat, y: nat) { x < y }

  lemma NatIsTotal()
    ensures Orders.Total(NatBefore)
  {
  }

  function Least(s: set<nat>): (x: nat)
    requires s != {}
    ensures x in s && forall y :: y in s ==> x <= y
  {
    NatIsTotal();
    Orders.Least(s, NatBefore)
  }

  /** The members of `s` in ascending order. */
  function Sorted(s: set<nat>): (q: seq<nat>)
    ensures forall x :: x in q <==> x in s
  {
    NatIsTotal();
    Orders.Sorted(s, NatBefore)
  }

  lemma SortedNotEmpty(s: set<nat>)
    requires s != {}
    ensures Sorted(s) != []
  {
  }

  function From(s: set<nat>, k: nat): set<nat> { set x | x in s && x >= k }

  lemma {:induction false} SortedFrom(s: set<nat>, k: nat) returns (j: nat)
    ensures j <= |Sorted(s)| && Sorted(s)[j..] == Sorted(From(s, k))
    ensures forall i :: 0 <= i < j ==> Sorted(s)[i] < k
    decreases s
  {
    if s == {} {
      j := 0;
      assert From(s, k) == {};
    } else if Least(s) >= k {
      j := 0;
      assert From(s, k) == s;
    } else {
      var t := s - {Least(s)};
      var i := SortedFrom(t, k);
      assert From(s, k) == From(t, k);
      j := SortedStep(Least(s), Sorted(t), i, k);
    }
  }

  lemma SortedStep(least: nat, rest: seq<nat>, i: nat, k: nat) returns (j: nat)
    requires i <= |rest| && least < k && forall n :: 0 <= n < i ==> rest[n] < k
    ensures j <= |[least] + rest| && ([least] + rest)[j..] == rest[i..]
    ensures forall n :: 0 <= n < j ==> ([least] + rest)[n] < k
  {
    j := i + 1;
  }

  /** The numbers from `low` up to, not including, `high`. */
  function Interval(low: nat, high: nat): (q: seq<nat>)
    requires low <= high
    ensures |q| == high - low
    ensures forall i :: 0 <= i < |q| ==> q[i] == low + i
  {
    seq(high - low, i requires 0 <= i => low + i)
  }

  lemma {:induction false} SortedInterval(s: set<nat>, low: nat, high: nat)
    requires low <= high && forall x :: x in s <==> low <= x < high
    ensures Sorted(s) == Interval(low, high)
    decreases high - low
  {
    if low == high {
      assert s == {};
    } else {
      assert low in s && Least(s) == low;
      var rest := s - {low};
      SortedInterval(rest, low + 1, high);
      assert Interval(low, high) == [low] + Interval(low + 1, high);
    }
  }
}
