/**
 The dependency graph of the suites: the elimination loop rejects exactly the cyclic graphs, and
 its rounds order every suite after its needs.
 */
module SuiteGraph {
  import opened Orders
  // ---- graphs ----

  /** A suite identifier. */
  datatype Name = Name(text: string)

  type Graph = map<Name, set<Name>>

  predicate Within(g: Graph) { forall k :: k in g ==> g[k] <= g.Keys }

  predicate StepAt(g: Graph, p: seq<Name>, i: nat)
    requires i + 1 < |p|
  {
    p[i] in g && p[i + 1] in g[p[i]]
  }

  /** Each step of `p` goes from a suite to one it needs. */
  predicate Path(g: Graph, p: seq<Name>) {
    && p != [] && (forall i :: 0 <= i < |p| ==> p[i] in g)
    && forall i :: 0 <= i < |p| - 1 ==> StepAt(g, p, i)
  }

  predicate Cycle(g: Graph, p: seq<Name>) { Path(g, p) && p[0] in g[p[|p| - 1]] }

  ghost predicate Acyclic(g: Graph) { forall p :: !Cycle(g, p) }

  // ---- a graph in which nothing is ready has a cycle ----

  lemma {:induction false} DistinctFit(p: seq<Name>, s: set<Name>)
    requires Distinct(p) && forall i :: 0 <= i < |p| ==> p[i] in s
    ensures |p| <= |s|
  {
    if p != [] {
      var rest := p[..|p| - 1];
      DistinctFit(rest, s - {p[|p| - 1]});
    }
  }

  predicate Blocked(g: Graph, s: set<Name>, k: Name)
    requires k in g
  {
    exists d :: d in s && d in g[k]
  }

  predicate Stuck(g: Graph, s: set<Name>) {
    s != {} && s <= g.Keys && forall k :: k in s ==> Blocked(g, s, k)
  }

  lemma {:induction false} Walk(g: Graph, s: set<Name>, n: nat) returns (p: seq<Name>)
    requires Stuck(g, s)
    ensures |p| == n + 1 && Path(g, p) && forall i :: 0 <= i < |p| ==> p[i] in s
  {
    if n == 0 {
      var k :| k in s;
      p := [k];
    } else {
      var q := Walk(g, s, n - 1);
      var last := q[n - 1];
      assert Blocked(g, s, last);
      var d :| d in s && d in g[last];
      p := q + [d];
      forall i | 0 <= i < |p| - 1 ensures StepAt(g, p, i) {
        if i < n - 1 {
          assert StepAt(g, q, i);
        }
      }
    }
  }

  lemma Slice(g: Graph, p: seq<Name>, i: nat, j: nat)
    requires Path(g, p) && i < j <= |p|
    ensures Path(g, p[i..j])
  {
    var q := p[i..j];
    forall k | 0 <= k < |q| - 1 ensures StepAt(g, q, k) {
      assert StepAt(g, p, i + k);
    }
  }

  lemma StuckHasCycle(g: Graph, s: set<Name>)
    requires Stuck(g, s)
    ensures !Acyclic(g)
  {
    var p := Walk(g, s, |s|);
    if Distinct(p) {
      DistinctFit(p, s);
    }
    var i, j :| 0 <= i < j < |p| && p[i] == p[j];
    assert StepAt(g, p, j - 1);
    Slice(g, p, i, j);
    assert Cycle(g, p[i..j]);
  }

  // ---- elimination rounds ----

  function Union(rounds: seq<set<Name>>): set<Name> {
    if rounds == [] then {} else Union(rounds[..|rounds| - 1]) + rounds[|rounds| - 1]
  }

  /** Every suite of a round has all its needs in earlier rounds. */
  predicate Ordered(g: Graph, rounds: seq<set<Name>>) {
    forall i, k :: 0 <= i < |rounds| && k in rounds[i] ==> k in g && g[k] <= Union(rounds[..i])
  }

  lemma {:induction false} RoundOf(rounds: seq<set<Name>>, k: Name) returns (i: nat)
    requires k in Union(rounds)
    ensures i < |rounds| && k in rounds[i]
  {
    var n := |rounds| - 1;
    if k in rounds[n] {
      i := n;
    } else {
      i := RoundOf(rounds[..n], k);
    }
  }

  /** Along a path the rounds fall: a suite's needs come strictly before it. */
  lemma {:induction false} PathDescends(g: Graph, rounds: seq<set<Name>>, p: seq<Name>, i: nat) returns (j: nat)
    requires Ordered(g, rounds) && Path(g, p) && i < |rounds| && p[0] in rounds[i]
    ensures j <= i && p[|p| - 1] in rounds[j]
    decreases |p|
  {
    if |p| == 1 {
      j := i;
    } else {
      assert StepAt(g, p, 0) && p[1] in Union(rounds[..i]);
      Slice(g, p, 1, |p|);
      assert p[1..|p|] == p[1..];
      var k := RoundOf(rounds[..i], p[1]);
      assert p[1..][0] == p[1];
      j := PathDescends(g, rounds, p[1..], k);
    }
  }

  lemma {:induction false} NoCycleFrom(g: Graph, rounds: seq<set<Name>>, p: seq<Name>, i: nat)
    requires Ordered(g, rounds) && Cycle(g, p) && i < |rounds| && p[0] in rounds[i]
    ensures false
    decreases i
  {
    var j := PathDescends(g, rounds, p, i);
    assert p[0] in Union(rounds[..j]);
    var k := RoundOf(rounds[..j], p[0]);
    NoCycleFrom(g, rounds, p, k);
  }

  lemma OrderedIsAcyclic(g: Graph, rounds: seq<set<Name>>)
    requires Ordered(g, rounds) && Union(rounds) == g.Keys
    ensures Acyclic(g)
  {
    forall p ensures !Cycle(g, p) {
      if Cycle(g, p) {
        var i := RoundOf(rounds, p[0]);
        NoCycleFrom(g, rounds, p, i);
      }
    }
  }

  lemma OrderedGrows(g: Graph, rounds: seq<set<Name>>, ready: set<Name>)
    requires Ordered(g, rounds)
    requires forall k :: k in ready ==> k in g && g[k] <= Union(rounds)
    ensures Ordered(g, rounds + [ready]) && Union(rounds + [ready]) == Union(rounds) + ready
  {
    var more := rounds + [ready];
    assert more[..|rounds|] == rounds;
    forall i, k | 0 <= i < |more| && k in more[i] ensures k in g && g[k] <= Union(more[..i]) {
      assert more[..i] == rounds[..i];
      if i == |rounds| {
        assert rounds[..i] == rounds;
      }
    }
  }

  /** What is left of the graph once `done` has been eliminated. */
  predicate Remaining(g: Graph, remaining: Graph, done: set<Name>) {
    remaining.Keys == g.Keys - done && forall k :: k in remaining ==> remaining[k] == g[k] - done
  }

  function Ready(remaining: Graph): set<Name> { set k | k in remaining && remaining[k] == {} }

  function Without(remaining: Graph, ready: set<Name>): Graph {
    map k | k in remaining && k !in ready :: remaining[k] - ready
  }

  lemma RoundKeeps(g: Graph, remaining: Graph, done: set<Name>)
    requires Remaining(g, remaining, done)
    ensures Remaining(g, Without(remaining, Ready(remaining)), done + Ready(remaining))
    ensures forall k :: k in Ready(remaining) ==> k in g && g[k] <= done
  {
    forall k | k in Ready(remaining) ensures k in g && g[k] <= done {
      assert forall d :: d in g[k] && d !in done ==> d in remaining[k];
    }
  }

  lemma RoundShrinks(remaining: Graph)
    requires Ready(remaining) != {}
    ensures |Without(remaining, Ready(remaining)).Keys| < |remaining.Keys|
  {
    var ready := Ready(remaining);
    assert Without(remaining, ready).Keys == remaining.Keys - ready && ready <= remaining.Keys;
    assert |remaining.Keys - ready| == |remaining.Keys| - |ready|;
  }

  lemma NothingLeft(g: Graph, remaining: Graph, rounds: seq<set<Name>>)
    requires Remaining(g, remaining, Union(rounds)) && Ordered(g, rounds) && remaining.Keys == {}
    ensures Acyclic(g) && Union(rounds) == g.Keys
  {
    forall k | k in Union(rounds) ensures k in g {
      var i := RoundOf(rounds, k);
    }
    OrderedIsAcyclic(g, rounds);
  }

  /** The elimination loop. It fails exactly on a cycle; otherwise its rounds hold every suite,
      each after everything it needs. */
  method Eliminate(g: Graph) returns (ok: bool, ghost rounds: seq<set<Name>>)
    requires Within(g)
    ensures ok <==> Acyclic(g)
    ensures ok ==> Ordered(g, rounds) && Union(rounds) == g.Keys
  {
    hide Ordered, Acyclic, Within;
    var remaining := g;
    rounds := [];
    OrderedStart(g);
    while remaining.Keys != {}
      invariant Remaining(g, remaining, Union(rounds)) && Ordered(g, rounds)
      decreases |remaining.Keys|
    {
      hide Remaining, Ready, Without, Union;
      var ready := Ready(remaining);
      if ready == {} {
        NothingReady(g, remaining, Union(rounds));
        return false, rounds;
      }
      RoundKeeps(g, remaining, Union(rounds));
      RoundShrinks(remaining);
      OrderedGrows(g, rounds, ready);
      remaining := Without(remaining, ready);
      rounds := rounds + [ready];
    }
    NothingLeft(g, remaining, rounds);
    ok := true;
  }

  lemma OrderedStart(g: Graph)
    ensures Ordered(g, []) && Remaining(g, g, Union([]))
  {
  }

  lemma NothingReady(g: Graph, remaining: Graph, done: set<Name>)
    requires Within(g) && Remaining(g, remaining, done) && remaining.Keys != {} && Ready(remaining) == {}
    ensures !Acyclic(g)
  {
    var s := remaining.Keys;
    forall k | k in s ensures Blocked(g, s, k) {
      assert k !in Ready(remaining);
      var d :| d in remaining[k];
      assert d in g[k] && d in s;
    }
    StuckHasCycle(g, s);
  }
}
