/**
 The valid registries, rule by rule and with every name and number written out.
 */
module RegistryRules {
  import opened Options
  import opened SuiteGraph
  import opened SuiteRegistry
  import opened JobTitles

  // ---- words ----

  /** Not empty, no control character. */
  predicate Plain(s: string) { s != "" && forall c :: c in s ==> c as int >= 0x20 }

  predicate Letter(c: char) { 0x61 <= c as int <= 0x7A }

  /** A lower-case letter, then lower-case letters, digits, hyphens and, in values, dots. */
  predicate Word(s: string, dots: bool) {
    && s != "" && Letter(s[0])
    && forall c :: c in s ==> Letter(c) || 0x30 <= c as int <= 0x39 || c as int == 0x2D || (dots && c as int == 0x2E)
  }

  /** A value that YAML does not read as anything but a string. */
  predicate PlainValue(s: string) {
    Word(s, true) && s != "true" && s != "false" && s != "null" && s != "yes" && s != "no" && s != "on" && s != "off"
  }

  lemma WordExactly(s: string)
    ensures Identifier(s) <==> Word(s, false)
    ensures MatrixValue(s) <==> PlainValue(s)
  {
    forall i | 0 <= i < |s| ensures s[i] in s {
    }
  }

  // ---- rows ----

  predicate AllApart<T(==)>(xs: seq<T>) { forall i, j :: 0 <= i < j < |xs| ==> xs[i] != xs[j] }

  predicate RowRule(row: Row) {
    && row != [] && (forall i :: 0 <= i < |row| ==> Word(row[i].0, false) && PlainValue(row[i].1))
    && forall i, j :: 0 <= i < j < |row| ==> row[i].0 != row[j].0
  }

  predicate SameColumns(a: Row, b: Row) { |a| == |b| && forall i :: 0 <= i < |a| ==> a[i].0 == b[i].0 }

  predicate MatrixRule(m: Matrix) {
    match m
    case NoMatrix => true
    case Include(rows) =>
      && rows != [] && AllApart(rows)
      && (forall i :: 0 <= i < |rows| ==> RowRule(rows[i]))
      && (forall i :: 0 < i < |rows| ==> SameColumns(rows[i], rows[0]))
    case Axis(axis, members) =>
      && Word(axis, false) && axis != "include" && members != [] && AllApart(members)
      && forall i :: 0 <= i < |members| ==>
           match members[i] case Count(n) => n >= 1 case Word(w) => PlainValue(w)
  }

  lemma RowExactly(row: Row)
    ensures RowOk(row) <==> RowRule(row)
  {
    hide Identifier, MatrixValue, Word, PlainValue;
    forall i | 0 <= i < |row|
      ensures Identifier(row[i].0) <==> Word(row[i].0, false)
      ensures MatrixValue(row[i].1) <==> PlainValue(row[i].1)
    {
      WordExactly(row[i].0);
      WordExactly(row[i].1);
    }
    if RowRule(row) {
      forall i, j | 0 <= i < j < |row| ensures Columns(row)[i] != Columns(row)[j] {
        assert row[i].0 != row[j].0;
      }
    }
    if RowOk(row) {
      forall i, j | 0 <= i < j < |row| ensures row[i].0 != row[j].0 {
        assert Columns(row)[i] != Columns(row)[j];
      }
    }
  }

  lemma ColumnsExactly(a: Row, b: Row)
    ensures Columns(a) == Columns(b) <==> SameColumns(a, b)
  {
    if Columns(a) == Columns(b) {
      forall i | 0 <= i < |a| ensures a[i].0 == b[i].0 {
        assert Columns(a)[i] == Columns(b)[i];
      }
    }
  }

  lemma MatrixExactly(m: Matrix)
    ensures MatrixOk(m) <==> MatrixRule(m)
  {
    hide RowOk, RowRule, Columns, SameColumns, Identifier, MatrixValue, Word, PlainValue;
    match m
    case NoMatrix =>
    case Include(rows) =>
      forall i | 0 <= i < |rows|
        ensures RowOk(rows[i]) <==> RowRule(rows[i])
        ensures Columns(rows[i]) == Columns(rows[0]) <==> SameColumns(rows[i], rows[0])
      {
        RowExactly(rows[i]);
        ColumnsExactly(rows[i], rows[0]);
      }
    case Axis(axis, members) =>
      WordExactly(axis);
      forall i | 0 <= i < |members| && members[i].Word?
        ensures MatrixValue(members[i].w) <==> PlainValue(members[i].w)
      {
        WordExactly(members[i].w);
      }
  }

  // ---- suites and interfaces ----

  predicate PlainOrAbsent(t: Option<string>) { t == None || Plain(t.value) }

  predicate ArtifactRule(a: Artifact) {
    Plain(a.step) && Plain(a.uses) && PlainOrAbsent(a.condition) && PlainOrAbsent(a.id) && |a.options| > 0
  }

  predicate SuiteRule(s: Suite) {
    && Word(s.id.text, false) && Plain(s.title) && Plain(s.domain)
    && (forall i :: 0 <= i < |s.needs| ==> Plain(s.needs[i].text)) && AllApart(s.needs)
    && Name("changes") in s.needs && s.id !in s.needs && s.timeoutMinutes >= 1
    && s.fullResult == "success" && s.docsResult == "skipped"
    && s.integrationResult == (if s.id.text == "v51-owned-canonical" then "skipped" else "success")
    && MatrixRule(s.matrix)
    && (forall k :: k in s.outputs ==> Plain(k) && Plain(s.outputs[k]))
    && (forall i :: 0 <= i < |s.inputs| ==> ArtifactRule(s.inputs[i]))
    && (forall i :: 0 <= i < |s.evidence| ==> ArtifactRule(s.evidence[i]))
  }

  predicate InterfaceRule(x: Interface) {
    && (x.workflow == ".github/workflows/ci.yml" || x.workflow == ".github/workflows/release.yml")
    && Plain(x.job) && Plain(x.title) && PlainOrAbsent(x.environment)
    && (forall i :: 0 <= i < |x.steps| ==> Plain(x.steps[i])) && AllApart(x.steps)
  }

  lemma PlainExactly(s: string)
    ensures Text(s) <==> Plain(s)
  {
    TextExactly(s);
  }

  lemma WordsArePlain(s: string)
    requires Word(s, false)
    ensures Plain(s)
  {
  }

  lemma ArtifactExactly(a: Artifact)
    ensures ArtifactOk(a) <==> ArtifactRule(a)
  {
    PlainExactly(a.step);
    PlainExactly(a.uses);
    if a.condition.Some? {
      PlainExactly(a.condition.value);
    }
    if a.id.Some? {
      PlainExactly(a.id.value);
    }
    assert a.options.Keys == {} <==> |a.options| == 0;
    hide Text, Plain;
  }

  lemma ArtifactsExactly(xs: seq<Artifact>)
    ensures (forall a :: a in xs ==> ArtifactOk(a)) <==> forall i :: 0 <= i < |xs| ==> ArtifactRule(xs[i])
  {
    hide ArtifactOk, ArtifactRule;
    forall i | 0 <= i < |xs| ensures xs[i] in xs && (ArtifactOk(xs[i]) <==> ArtifactRule(xs[i])) {
      ArtifactExactly(xs[i]);
    }
  }

  lemma NeedsExactly(needs: seq<Name>)
    ensures (forall i :: 0 <= i < |needs| ==> Text(needs[i].text)) <==>
            forall i :: 0 <= i < |needs| ==> Plain(needs[i].text)
  {
    hide Text, Plain;
    forall i | 0 <= i < |needs| ensures Text(needs[i].text) <==> Plain(needs[i].text) {
      PlainExactly(needs[i].text);
    }
  }

  lemma OutputsExactly(outputs: map<string, string>)
    ensures (forall k :: k in outputs ==> Text(k) && Text(outputs[k])) <==>
            forall k :: k in outputs ==> Plain(k) && Plain(outputs[k])
  {
    hide Text, Plain;
    forall k | k in outputs ensures (Text(k) <==> Plain(k)) && (Text(outputs[k]) <==> Plain(outputs[k])) {
      PlainExactly(k);
      PlainExactly(outputs[k]);
    }
  }

  lemma SuiteExactly(s: Suite)
    ensures SuiteValid(s) <==> SuiteRule(s)
  {
    WordExactly(s.id.text);
    PlainExactly(s.id.text);
    PlainExactly(s.title);
    PlainExactly(s.domain);
    if Word(s.id.text, false) {
      WordsArePlain(s.id.text);
    }
    NeedsExactly(s.needs);
    MatrixExactly(s.matrix);
    OutputsExactly(s.outputs);
    ArtifactsExactly(s.inputs);
    ArtifactsExactly(s.evidence);
    hide Text, Plain, Identifier, Word, MatrixOk, MatrixRule, ArtifactOk, ArtifactRule, PlainValue, MatrixValue;
  }

  lemma StepsExactly(steps: seq<string>)
    ensures UniqueTexts(steps) <==> (forall i :: 0 <= i < |steps| ==> Plain(steps[i])) && AllApart(steps)
  {
    hide Text, Plain;
    forall i | 0 <= i < |steps| ensures Text(steps[i]) <==> Plain(steps[i]) {
      PlainExactly(steps[i]);
    }
  }

  lemma InterfaceExactly(x: Interface)
    ensures InterfaceOk(x) <==> InterfaceRule(x)
  {
    PlainExactly(x.job);
    PlainExactly(x.title);
    if x.environment.Some? {
      PlainExactly(x.environment.value);
    }
    StepsExactly(x.steps);
    hide Text, Plain, UniqueTexts;
  }

  // ---- dependencies ----

  /** Some suite `a` needs `b`. */
  predicate Need(suites: seq<Suite>, a: Name, b: Name) {
    exists i :: 0 <= i < |suites| && suites[i].id == a && b in suites[i].needs
  }

  predicate IsSuite(suites: seq<Suite>, n: Name) { exists i :: 0 <= i < |suites| && suites[i].id == n }

  /** Suites that need each other in a circle. */
  predicate Circle(suites: seq<Suite>, p: seq<Name>) {
    && p != [] && (forall k :: 0 <= k < |p| ==> IsSuite(suites, p[k]))
    && (forall k :: 0 <= k < |p| - 1 ==> Need(suites, p[k], p[k + 1]))
    && Need(suites, p[|p| - 1], p[0])
  }

  lemma IdExactly(suites: seq<Suite>, n: Name)
    ensures n in Ids(suites) <==> IsSuite(suites, n)
  {
    if n in Ids(suites) {
      var s :| s in suites && s.id == n;
      var i :| 0 <= i < |suites| && suites[i] == s;
    }
    if IsSuite(suites, n) {
      var i :| 0 <= i < |suites| && suites[i].id == n;
      assert suites[i] in suites;
    }
  }

  lemma NeedExactly(suites: seq<Suite>, a: Name, b: Name)
    requires DistinctIds(suites) && IsSuite(suites, a) && b != CHANGES
    ensures a in Needs(suites) && (b in Needs(suites)[a] <==> Need(suites, a, b))
  {
    IdExactly(suites, a);
    var i :| 0 <= i < |suites| && suites[i].id == a;
    assert suites[i] in suites && Needs(suites)[a] == SuiteNeeds(suites[i]);
    if Need(suites, a, b) {
      var j :| 0 <= j < |suites| && suites[j].id == a && b in suites[j].needs;
      assert i == j;
    }
  }

  lemma CircleExactly(suites: seq<Suite>, p: seq<Name>)
    requires DistinctIds(suites) && !IsSuite(suites, CHANGES)
    ensures Cycle(Needs(suites), p) <==> Circle(suites, p)
  {
    hide Need, IsSuite, DistinctIds;
    var g := Needs(suites);
    if p != [] {
      forall k | 0 <= k < |p| ensures p[k] in g <==> IsSuite(suites, p[k]) {
        IdExactly(suites, p[k]);
      }
      if forall k :: 0 <= k < |p| ==> IsSuite(suites, p[k]) {
        forall k | 0 <= k < |p| - 1 ensures StepAt(g, p, k) <==> Need(suites, p[k], p[k + 1]) {
          NeedExactly(suites, p[k], p[k + 1]);
        }
        NeedExactly(suites, p[|p| - 1], p[0]);
        hide Needs;
        CircleSteps(g, suites, p);
      }
    }
  }

  lemma CircleSteps(g: Graph, suites: seq<Suite>, p: seq<Name>)
    requires p != [] && forall k :: 0 <= k < |p| ==> p[k] in g && IsSuite(suites, p[k])
    requires forall k :: 0 <= k < |p| - 1 ==> (StepAt(g, p, k) <==> Need(suites, p[k], p[k + 1]))
    requires p[0] in g[p[|p| - 1]] <==> Need(suites, p[|p| - 1], p[0])
    ensures Cycle(g, p) <==> Circle(suites, p)
  {
    hide Need, IsSuite, StepAt;
    if Cycle(g, p) {
      forall k | 0 <= k < |p| - 1 ensures Need(suites, p[k], p[k + 1]) {
        assert StepAt(g, p, k);
      }
    }
    if Circle(suites, p) {
      forall k | 0 <= k < |p| - 1 ensures StepAt(g, p, k) {
        assert Need(suites, p[k], p[k + 1]);
      }
    }
  }

  // ---- the registry ----

  predicate SuitesRule(suites: seq<Suite>) {
    && suites != [] && (forall i :: 0 <= i < |suites| ==> SuiteRule(suites[i]))
    && (forall i, j :: 0 <= i < j < |suites| ==> suites[i].id != suites[j].id)
    && (forall i :: 0 <= i < |suites| ==> suites[i].id.text != "required")
    && forall i, n :: 0 <= i < |suites| && n in suites[i].needs ==> n.text == "changes" || IsSuite(suites, n)
  }

  lemma DescribedExactly(suites: seq<Suite>)
    ensures Described(suites) <==> SuitesRule(suites)
    ensures Described(suites) ==> !IsSuite(suites, CHANGES)
  {
    hide SuiteValid, SuiteRule, IsSuite;
    forall i | 0 <= i < |suites| ensures suites[i] in suites && (SuiteValid(suites[i]) <==> SuiteRule(suites[i])) {
      SuiteExactly(suites[i]);
    }
    IdExactly(suites, REQUIRED);
    forall n ensures n in Ids(suites) <==> IsSuite(suites, n) {
      IdExactly(suites, n);
    }
    RequiredExactly(suites);
    hide Ids;
    if Described(suites) {
      ChangesIsNoSuite(suites);
    }
  }

  lemma RequiredExactly(suites: seq<Suite>)
    ensures !IsSuite(suites, REQUIRED) <==> forall i :: 0 <= i < |suites| ==> suites[i].id.text != "required"
  {
    forall i | 0 <= i < |suites| ensures suites[i].id == REQUIRED <==> suites[i].id.text == "required" {
    }
  }

  lemma ChangesIsNoSuite(suites: seq<Suite>)
    requires forall s :: s in suites ==> SuiteValid(s)
    ensures !IsSuite(suites, CHANGES)
  {
    forall i | 0 <= i < |suites| ensures suites[i].id != CHANGES {
      assert SuiteValid(suites[i]);
    }
  }

  /** The expanded names, if there are any, are those of `JobTitles.NamesExactly`. */
  ghost predicate Rules(r: Registry) {
    && r.schema == "gse-ci-suites-v2" && r.workflow == ".github/workflows/ci.yml"
    && r.metaJobs == map["changes" := "Change scope", "required" := "Required"]
    && r.externalInterfaces != []
    && (forall i :: 0 <= i < |r.externalInterfaces| ==> InterfaceRule(r.externalInterfaces[i]))
    && SuitesRule(r.suites) && (forall p :: !Circle(r.suites, p)) && exists all :: ExpandedNames(r.suites) == Some(all)
  }

  lemma FramedExactly(r: Registry)
    ensures Framed(r) <==>
            && r.schema == "gse-ci-suites-v2" && r.workflow == ".github/workflows/ci.yml"
            && r.metaJobs == map["changes" := "Change scope", "required" := "Required"]
            && r.externalInterfaces != []
            && forall i :: 0 <= i < |r.externalInterfaces| ==> InterfaceRule(r.externalInterfaces[i])
  {
    hide InterfaceOk, InterfaceRule;
    forall i | 0 <= i < |r.externalInterfaces|
      ensures r.externalInterfaces[i] in r.externalInterfaces
      ensures InterfaceOk(r.externalInterfaces[i]) <==> InterfaceRule(r.externalInterfaces[i])
    {
      InterfaceExactly(r.externalInterfaces[i]);
    }
  }

  /** A registry is valid exactly when it keeps these rules. */
  lemma RegistryExactly(r: Registry)
    ensures RegistryValid(r) <==> Rules(r)
  {
    hide Framed, ExpandedNames, InterfaceRule, SuitesRule, Circle, Cycle, IsSuite;
    FramedExactly(r);
    DescribedExactly(r.suites);
    if Described(r.suites) {
      forall p ensures Cycle(Needs(r.suites), p) <==> Circle(r.suites, p) {
        CircleExactly(r.suites, p);
      }
      if ExpandedNames(r.suites).Some? {
        assert ExpandedNames(r.suites) == Some(ExpandedNames(r.suites).value);
      }
    }
  }
}
