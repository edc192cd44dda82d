/**
 The three recipes of a valid registry in full: which suites run, in which order, with which expected
 results and how many jobs.
 */
module RecipeRules {
  import opened SuiteRegistry
  import opened SuiteRecipes
  import opened JobTitles

  predicate Canonical(s: Suite) { s.id.text == "v51-owned-canonical" }

  lemma ResultExactly(s: Suite, profile: string)
    requires SuiteValid(s) && profile in {"docs", "integration", "full"}
    ensures Result(s, profile) == if profile == "docs" || (profile == "integration" && Canonical(s)) then "skipped"
                                  else "success"
  {
  }

  lemma {:induction false} NothingSelected(suites: seq<Suite>, profile: string)
    requires forall s :: s in suites ==> Result(s, profile) != "success"
    ensures Selected(suites, profile) == []
  {
    if suites != [] {
      NothingSelected(suites[1..], profile);
    }
  }

  lemma {:induction false} AllSelected(suites: seq<Suite>, profile: string)
    requires forall s :: s in suites ==> Result(s, profile) == "success"
    ensures Selected(suites, profile) == suites
  {
    if suites != [] {
      AllSelected(suites[1..], profile);
      assert suites == [suites[0]] + suites[1..];
    }
  }

  lemma {:induction false} SelectedAppend(a: seq<Suite>, b: seq<Suite>, profile: string)
    ensures Selected(a + b, profile) == Selected(a, profile) + Selected(b, profile)
  {
    hide Result;
    if a == [] {
      assert a + b == b;
      assert Selected(a, profile) == [];
      hide Selected;
    } else {
      hide Selected;
      SelectedAppend(a[1..], b, profile);
      AppendHead(a, b, profile);
    }
  }

  lemma AppendHead(a: seq<Suite>, b: seq<Suite>, profile: string)
    requires a != []
    ensures Selected(a + b, profile) == Head(a[0], profile) + Selected(a[1..] + b, profile)
    ensures Selected(a, profile) == Head(a[0], profile) + Selected(a[1..], profile)
  {
    hide Result, Head, Selected;
    SelectedCons(a + b, profile);
    SelectedCons(a, profile);
    assert (a + b)[0] == a[0];
    assert (a + b)[1..] == a[1..] + b;
  }

  function Head(s: Suite, profile: string): seq<Suite> { if Result(s, profile) == "success" then [s] else [] }

  lemma SelectedCons(suites: seq<Suite>, profile: string)
    requires suites != []
    ensures Selected(suites, profile) == Head(suites[0], profile) + Selected(suites[1..], profile)
  {
    hide Result;
  }

  /** The docs recipe runs nothing, the full one everything in registry order. */
  lemma DocsAndFull(suites: seq<Suite>)
    requires Described(suites)
    ensures Selected(suites, "docs") == [] && Selected(suites, "full") == suites
  {
    forall s | s in suites ensures Result(s, "docs") == "skipped" && Result(s, "full") == "success" {
      ResultExactly(s, "docs");
      ResultExactly(s, "full");
    }
    hide SuiteValid, Result;
    NothingSelected(suites, "docs");
    AllSelected(suites, "full");
  }

  /** The integration recipe runs everything in registry order but the canonical suite, if there is
      one. */
  lemma Integration(suites: seq<Suite>, before: seq<Suite>, after: seq<Suite>)
    requires Described(suites)
    requires suites == before + after || exists s :: Canonical(s) && suites == before + [s] + after
    requires forall s :: s in before || s in after ==> !Canonical(s)
    ensures Selected(suites, "integration") == before + after
  {
    forall s | s in suites ensures Result(s, "integration") == if Canonical(s) then "skipped" else "success" {
      ResultExactly(s, "integration");
    }
    forall s | s in before || s in after ensures s in suites {
      if suites != before + after {
        var c :| Canonical(c) && suites == before + [c] + after;
      }
    }
    hide Described, Result, Selected, SuiteValid;
    if suites == before + after {
      AllSelected(suites, "integration");
    } else {
      var c :| Canonical(c) && suites == before + [c] + after;
      assert c in suites;
      OneSkipped(before, c, after, "integration");
    }
  }

  lemma OneSkipped(before: seq<Suite>, c: Suite, after: seq<Suite>, profile: string)
    requires forall s :: s in before || s in after ==> Result(s, profile) == "success"
    requires Result(c, profile) != "success"
    ensures Selected(before + [c] + after, profile) == before + after
  {
    hide Result, Selected;
    AllSelected(before, profile);
    AllSelected(after, profile);
    NothingSelected([c], profile);
    SelectedAppend(before + [c], after, profile);
    SelectedAppend(before, [c], profile);
    assert before + [] == before;
  }

  /** The expected results of all suites. */
  lemma ExpectedExactly(suites: seq<Suite>, profile: string)
    requires Described(suites) && profile in {"docs", "integration", "full"}
    ensures forall n :: n in Expected(suites, profile) <==> exists i :: 0 <= i < |suites| && suites[i].id == n
    ensures forall i :: 0 <= i < |suites| ==>
              suites[i].id in Expected(suites, profile)
              && Expected(suites, profile)[suites[i].id] ==
                   if profile == "docs" || (profile == "integration" && Canonical(suites[i])) then "skipped"
                   else "success"
  {
    hide Result, SuiteValid;
    forall i | 0 <= i < |suites|
      ensures suites[i].id in Expected(suites, profile)
              && Expected(suites, profile)[suites[i].id] == Result(suites[i], profile)
    {
      assert suites[i] in suites;
    }
    forall i | 0 <= i < |suites|
      ensures Result(suites[i], profile) ==
                if profile == "docs" || (profile == "integration" && Canonical(suites[i])) then "skipped" else "success"
    {
      assert suites[i] in suites;
      ResultExactly(suites[i], profile);
    }
    forall n | n in Expected(suites, profile) ensures exists i :: 0 <= i < |suites| && suites[i].id == n {
      var s :| s in suites && s.id == n;
      var i :| 0 <= i < |suites| && suites[i] == s;
    }
  }

  /** One job for a plain suite, one for each row or member of a matrix. */
  function Jobs(suites: seq<Suite>): nat {
    if suites == [] then 0 else JobCount(suites[0].matrix) + Jobs(suites[1..])
  }

  /** The number of jobs of a selection. */
  lemma {:induction false} JobsExactly(suites: seq<Suite>)
    ensures |JobNames(suites)| == Jobs(suites)
  {
    hide Fill;
    if suites != [] {
      JobsExactly(suites[1..]);
      CountOfVariants(suites[0].matrix);
    }
  }
}
