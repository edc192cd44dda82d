/**
 Recipes: which suites a profile runs. A recipe exists exactly for a valid registry whose
 selected suites need nothing that is left out, and it is closed under needs.
 */
module SuiteRecipes {
  import opened Options
  import opened Orders
  import opened SuiteGraph
  import opened SuiteRegistry

  datatype Plan = Plan(profile: string, selected: seq<Name>, expected: map<Name, string>, executedJobCount: nat)

  function Result(s: Suite, profile: string): string {
    if profile == "docs" then s.docsResult else if profile == "integration" then s.integrationResult else s.fullResult
  }

  function Selected(suites: seq<Suite>, profile: string): seq<Suite> {
    if suites == [] then []
    else (if Result(suites[0], profile) == "success" then [suites[0]] else []) + Selected(suites[1..], profile)
  }

  lemma {:induction false} SelectedExactly(suites: seq<Suite>, profile: string, s: Suite)
    ensures s in Selected(suites, profile) <==> s in suites && Result(s, profile) == "success"
  {
    if suites != [] {
      SelectedExactly(suites[1..], profile, s);
      assert suites == [suites[0]] + suites[1..];
    }
  }

  function Expected(suites: seq<Suite>, profile: string): map<Name, string>
    requires DistinctIds(suites)
  {
    map s | s in suites :: s.id := Result(s, profile)
  }

  function Names(suites: seq<Suite>): (ids: seq<Name>)
    ensures |ids| == |suites| && forall i :: 0 <= i < |ids| ==> ids[i] == suites[i].id
  {
    seq(|suites|, i requires 0 <= i < |suites| => suites[i].id)
  }

  lemma NamedBy(suites: seq<Suite>, n: Name)
    ensures n in Names(suites) <==> exists s :: s in suites && s.id == n
  {
    if s :| s in suites && s.id == n {
      var i :| 0 <= i < |suites| && suites[i] == s;
      assert Names(suites)[i] == n;
    }
  }

  predicate RowClosed(selected: seq<Suite>, s: Suite) {
    forall n :: n in s.needs ==> n == CHANGES || n in Names(selected)
  }

  /** What a selected suite needs is selected too. */
  predicate ClosedNeeds(selected: seq<Suite>) { forall s :: s in selected ==> RowClosed(selected, s) }

  /** No suite but the canonical one needs the canonical one. */
  predicate CanonicalIsLeaf(suites: seq<Suite>) {
    forall s :: s in suites && CANONICAL in s.needs ==> s.id == CANONICAL
  }

  /** Only the integration profile leaves out a suite that others may need. */
  lemma SelectionClosed(suites: seq<Suite>, profile: string)
    requires Described(suites) && profile in {"docs", "integration", "full"}
    ensures ClosedNeeds(Selected(suites, profile)) <==> (profile == "integration" ==> CanonicalIsLeaf(suites))
  {
    hide Names;
    var selected := Selected(suites, profile);
    forall s
      ensures s in selected <==> s in suites && profile != "docs" && !(profile == "integration" && s.id == CANONICAL)
    {
      SelectedExactly(suites, profile, s);
    }
    assert CANONICAL != CHANGES;
    NamedBy(selected, CANONICAL);
    if profile == "integration" && !CanonicalIsLeaf(suites) {
      var s :| s in suites && CANONICAL in s.needs && s.id != CANONICAL;
      assert s in selected && !RowClosed(selected, s);
    }
    if profile == "integration" ==> CanonicalIsLeaf(suites) {
      forall s | s in selected ensures RowClosed(selected, s) {
        RowIsClosed(suites, selected, profile, s);
      }
    }
  }

  lemma RowIsClosed(suites: seq<Suite>, selected: seq<Suite>, profile: string, s: Suite)
    requires Described(suites) && s in selected && (profile == "integration" ==> CanonicalIsLeaf(suites))
    requires forall s :: s in selected <==>
               s in suites && profile != "docs" && !(profile == "integration" && s.id == CANONICAL)
    ensures RowClosed(selected, s)
  {
    hide Names;
    forall n | n in s.needs && n != CHANGES ensures n in Names(selected) {
      assert n in Ids(suites);
      var t :| t in suites && t.id == n;
      NamedBy(selected, n);
    }
  }

  // ---- the names of a selection ----

  lemma DistinctParts<T>(a: seq<T>, b: seq<T>)
    requires Distinct(a + b)
    ensures Distinct(a) && Distinct(b) && forall x, y :: x in a && y in b ==> x != y
  {
    forall i, j | 0 <= i < j < |a| ensures a[i] != a[j] {
      assert (a + b)[i] == a[i] && (a + b)[j] == a[j];
    }
    forall i, j | 0 <= i < j < |b| ensures b[i] != b[j] {
      assert (a + b)[|a| + i] == b[i] && (a + b)[|a| + j] == b[j];
    }
    forall x, y | x in a && y in b ensures x != y {
      var i :| 0 <= i < |a| && a[i] == x;
      var j :| 0 <= j < |b| && b[j] == y;
      assert (a + b)[i] == x && (a + b)[|a| + j] == y;
    }
  }

  lemma DistinctJoin<T>(a: seq<T>, b: seq<T>)
    requires Distinct(a) && Distinct(b) && forall x, y :: x in a && y in b ==> x != y
    ensures Distinct(a + b)
  {
    var c := a + b;
    forall i, j | 0 <= i < j < |c| ensures c[i] != c[j] {
      if i < |a| && |a| <= j {
        assert c[i] in a && c[j] in b;
      }
    }
  }

  /** Leaving suites out leaves only job names of the whole list, and repeats none. */
  lemma {:induction false} SelectedNames(suites: seq<Suite>, profile: string)
    ensures var all, part := JobNames(suites), JobNames(Selected(suites, profile));
            (forall n :: n in part ==> n in all) && (Distinct(all) ==> Distinct(part))
  {
    hide Variants, Filled, Distinct, Result;
    if suites == [] {
      assert Selected(suites, profile) == [];
    } else {
      var first, rest := Filled(suites[0].title, Variants(suites[0].matrix)), suites[1..];
      SelectedNames(rest, profile);
      if Result(suites[0], profile) == "success" {
        assert ([suites[0]] + Selected(rest, profile))[1..] == Selected(rest, profile);
      } else {
        assert [] + Selected(rest, profile) == Selected(rest, profile);
      }
      if Distinct(JobNames(suites)) {
        DistinctParts(first, JobNames(rest));
        DistinctJoin(first, JobNames(Selected(rest, profile)));
      }
    }
  }

  lemma PartIsFine(all: seq<string>, part: seq<string>)
    requires Resolved(all) && UniqueTexts(META_NAMES + all)
    requires Distinct(part) && forall n :: n in part ==> n in all
    ensures Resolved(part) && UniqueTexts(META_NAMES + part)
  {
    DistinctParts(META_NAMES, all);
    hide Contains, Text;
    forall i | 0 <= i < |part| ensures !Contains(part[i], "${{") && Text(part[i]) {
      FineName(all, part[i]);
    }
    forall i | 0 <= i < |META_NAMES| ensures Text(META_NAMES[i]) {
      assert (META_NAMES + all)[i] == META_NAMES[i];
    }
    DistinctJoin(META_NAMES, part);
  }

  lemma FineName(all: seq<string>, n: string)
    requires Resolved(all) && UniqueTexts(META_NAMES + all) && n in all
    ensures !Contains(n, "${{") && Text(n)
  {
    hide Contains, Text;
    var k :| 0 <= k < |all| && all[k] == n;
    assert (META_NAMES + all)[|META_NAMES| + k] == all[k];
  }

  /** The names of a selection can always be expanded when those of the registry can. */
  lemma SelectionExpands(suites: seq<Suite>, profile: string)
    requires ExpandedNames(suites).Some?
    ensures ExpandedNames(Selected(suites, profile)).Some?
  {
    var all, part := JobNames(suites), JobNames(Selected(suites, profile));
    SelectedNames(suites, profile);
    hide JobNames, Selected, Resolved;
    DistinctParts(META_NAMES, all);
    hide UniqueTexts;
    PartIsFine(all, part);
  }

  /** The loop over the rows, which looks at the needs of the selected ones. */
  method CheckClosed(suites: seq<Suite>, selected: seq<Suite>) returns (ok: bool)
    requires forall s :: s in selected ==> s in suites
    ensures ok <==> ClosedNeeds(selected)
  {
    hide RowClosed;
    for i := 0 to |suites|
      invariant forall k :: 0 <= k < i && suites[k] in selected ==> RowClosed(selected, suites[k])
    {
      if suites[i] in selected && !RowClosed(selected, suites[i]) { return false; }
    }
    ok := true;
  }

  /** The recipe of a profile. */
  method SuitePlan(registry: Registry, profile: string) returns (r: Option<Plan>)
    ensures r.Some? <==>
      && RegistryValid(registry) && profile in {"docs", "integration", "full"}
      && (profile == "integration" ==> CanonicalIsLeaf(registry.suites))
    ensures r.Some? ==>
      var selected := Selected(registry.suites, profile);
      && r.value.profile == profile && r.value.selected == Names(selected)
      && r.value.expected == Expected(registry.suites, profile)
      && r.value.executedJobCount == |META_NAMES| + |JobNames(selected)|
      && ClosedNeeds(selected)
  {
    var ok, rounds := ValidateRegistry(registry);
    if !ok || profile !in {"docs", "integration", "full"} { return None; }
    var suites := registry.suites;
    var selected := Selected(suites, profile);
    SelectionClosed(suites, profile);
    SelectionExpands(suites, profile);
    forall s | s in selected ensures s in suites {
      SelectedExactly(suites, profile, s);
    }
    hide ClosedNeeds, Described, Names, Acyclic, Framed, CanonicalIsLeaf, Selected;
    var closed := CheckClosed(suites, selected);
    if !closed { return None; }
    var names := ExpandNames(selected);
    r := Some(Plan(profile, Names(selected), Expected(suites, profile), |names.value|));
  }

  lemma ClosedStep(suites: seq<Suite>, profile: string, a: Name, b: Name)
    requires DistinctIds(suites) && ClosedNeeds(Selected(suites, profile))
    requires a in Names(Selected(suites, profile)) && a in Needs(suites) && b in Needs(suites)[a]
    ensures b in Names(Selected(suites, profile))
  {
    hide Names;
    var selected := Selected(suites, profile);
    NamedBy(selected, a);
    var s :| s in selected && s.id == a;
    SelectedExactly(suites, profile, s);
    assert b in SuiteNeeds(s) && RowClosed(selected, s);
  }

  /** Whatever a recipe runs, it also runs everything that is needed for it, directly or not. */
  lemma {:induction false} ClosedUnderPaths(suites: seq<Suite>, profile: string, p: seq<Name>, i: nat)
    requires DistinctIds(suites) && ClosedNeeds(Selected(suites, profile))
    requires Path(Needs(suites), p) && p[0] in Names(Selected(suites, profile)) && i < |p|
    ensures p[i] in Names(Selected(suites, profile))
  {
    hide Names, Needs, Selected, DistinctIds, ClosedNeeds;
    if i > 0 {
      ClosedUnderPaths(suites, profile, p, i - 1);
      assert StepAt(Needs(suites), p, i - 1);
      ClosedStep(suites, profile, p[i - 1], p[i]);
    }
  }

  // ---- a valid registry without an integration recipe ----

  function ExampleSuite(id: Name, title: string, needs: seq<Name>, integrationResult: string): Suite {
    Suite(id, title, needs, NoMatrix, "a", 1, [], map[], [], "success", "skipped", integrationResult)
  }

  const CONSUMER := Name("b")

  /** The canonical suite, and a consumer that needs it. */
  const EXAMPLE := Registry(
    SCHEMA, WORKFLOW, META_JOBS,
    [ExampleSuite(CANONICAL, "a", [CHANGES], "skipped"), ExampleSuite(CONSUMER, "b", [CHANGES, CANONICAL], "success")],
    [Interface(WORKFLOW, "a", "a", None, [])])

  lemma ExampleTexts()
    ensures Identifier(CANONICAL.text) && Text(CANONICAL.text) && Text(CHANGES.text)
    ensures Identifier("b") && Text("a") && Text("b")
    ensures CANONICAL != CHANGES && CANONICAL != CONSUMER && CHANGES != CONSUMER && REQUIRED != CANONICAL
            && REQUIRED != CONSUMER
  {
    assert |CANONICAL.text| == 19 && |CHANGES.text| == 7 && |REQUIRED.text| == 8;
  }

  lemma ExampleSuiteValid(id: Name, title: string, needs: seq<Name>, integrationResult: string)
    requires Text(id.text) && Identifier(id.text) && Text(title) && Text("a")
    requires Distinct(needs) && CHANGES in needs && id !in needs && forall i :: 0 <= i < |needs| ==> Text(needs[i].text)
    requires integrationResult == if id == CANONICAL then "skipped" else "success"
    ensures SuiteValid(ExampleSuite(id, title, needs, integrationResult))
  {
    hide Text, Identifier;
  }

  lemma ExampleDescribed()
    ensures Described(EXAMPLE.suites)
  {
    ExampleTexts();
    hide Identifier, Text;
    ExampleSuiteValid(CANONICAL, "a", [CHANGES], "skipped");
    ExampleSuiteValid(CONSUMER, "b", [CHANGES, CANONICAL], "success");
    hide SuiteValid;
    var a, b := EXAMPLE.suites[0], EXAMPLE.suites[1];
    assert a in EXAMPLE.suites && b in EXAMPLE.suites;
    assert a.id == CANONICAL && b.id == CONSUMER && a.needs == [CHANGES] && b.needs == [CHANGES, CANONICAL];
    hide ExampleSuite;
  }

  lemma ExampleFramed()
    ensures Framed(EXAMPLE)
  {
    ExampleTexts();
    hide Identifier, Text;
  }

  lemma ExampleExpands()
    ensures ExpandedNames(EXAMPLE.suites).Some?
  {
    var suites := EXAMPLE.suites;
    assert Fill("a", []) == "a" && Fill("b", []) == "b";
    assert suites[1..][1..] == [];
    assert JobNames(suites[1..]) == ["b"];
    assert JobNames(suites) == ["a", "b"];
    assert !Contains("a", "${{") && !Contains("b", "${{");
    assert META_NAMES + ["a", "b"] == ["Change scope", "Required", "a", "b"];
  }

  lemma ExampleNeeds()
    ensures Described(EXAMPLE.suites)
    ensures var g := Needs(EXAMPLE.suites);
            g.Keys == {CANONICAL, CONSUMER} && g[CANONICAL] == {} && g[CONSUMER] == {CANONICAL}
  {
    ExampleDescribed();
    ExampleTexts();
    hide SuiteValid, Identifier, Text;
    var a, b := EXAMPLE.suites[0], EXAMPLE.suites[1];
    assert a in EXAMPLE.suites && b in EXAMPLE.suites;
    assert SuiteNeeds(a) == {} && SuiteNeeds(b) == {CANONICAL};
  }

  lemma TwoRounds(g: Graph, a: Name, b: Name)
    requires g.Keys == {a, b} && g[a] == {} && g[b] == {a}
    ensures Acyclic(g)
  {
    var none: seq<set<Name>> := [];
    assert Ordered(g, none) && Union(none) == {};
    hide Acyclic, Ordered, Union;
    OrderedGrows(g, none, {a});
    var one := none + [{a}];
    assert Union(one) == {a};
    OrderedGrows(g, one, {b});
    OrderedIsAcyclic(g, one + [{b}]);
  }

  lemma ExampleAcyclic()
    ensures DistinctIds(EXAMPLE.suites) && Acyclic(Needs(EXAMPLE.suites))
  {
    ExampleNeeds();
    hide Acyclic, Needs, SuiteValid;
    TwoRounds(Needs(EXAMPLE.suites), CANONICAL, CONSUMER);
  }

  /** A valid registry may make another suite need the canonical one; it has no integration recipe. */
  lemma ValidWithoutIntegration()
    ensures RegistryValid(EXAMPLE) && !CanonicalIsLeaf(EXAMPLE.suites)
  {
    ExampleDescribed();
    ExampleFramed();
    ExampleExpands();
    ExampleAcyclic();
    ExampleTexts();
    hide Described, Framed, Acyclic, Needs, ExpandedNames, Identifier, Text;
    assert EXAMPLE.suites[1] in EXAMPLE.suites && CANONICAL in EXAMPLE.suites[1].needs;
  }
}
