/**
 The suite registry: which registries are valid, how matrix rows expand to job names, and which
 recipes there are.
 */
module SuiteRegistry {
  import opened Options
  import opened Numerals
  import opened SuiteGraph
  import opened Orders

  // ---- text ----

  /** Non-empty and without control characters. */
  predicate Text(s: string) { s != "" && forall i :: 0 <= i < |s| ==> s[i] >= ' ' }

  predicate Lower(c: char) { 'a' <= c <= 'z' }

  predicate Identifier(s: string) {
    s != "" && Lower(s[0]) && forall i :: 0 <= i < |s| ==> Lower(s[i]) || '0' <= s[i] <= '9' || s[i] == '-'
  }

  predicate MatrixValue(s: string) {
    && s != "" && Lower(s[0])
    && (forall i :: 0 <= i < |s| ==> Lower(s[i]) || '0' <= s[i] <= '9' || s[i] == '-' || s[i] == '.')
    && s !in {"true", "false", "null", "yes", "no", "on", "off"}
  }

  predicate UniqueTexts(ts: seq<string>) { (forall i :: 0 <= i < |ts| ==> Text(ts[i])) && Distinct(ts) }

  predicate Contains(s: string, part: string) { part <= s || (s != "" && Contains(s[1..], part)) }

  /** Every occurrence of `before`, from the left and without overlap, replaced. */
  function Replace(s: string, before: string, after: string): string
    requires before != ""
  {
    if s == "" then ""
    else if before <= s then after + Replace(s[|before|..], before, after)
    else [s[0]] + Replace(s[1..], before, after)
  }

  // ---- the registry ----

  datatype Cell = Count(n: int) | Word(w: string)

  /** A dictionary in its own order. */
  type Row = seq<(string, string)>

  datatype Matrix = NoMatrix | Include(rows: seq<Row>) | Axis(axis: string, members: seq<Cell>)

  datatype Artifact = Artifact(
    step: string, uses: string, condition: Option<string>, id: Option<string>, options: map<string, string>)

  datatype Suite = Suite(
    id: Name, title: string, needs: seq<Name>, matrix: Matrix, domain: string, timeoutMinutes: int,
    inputs: seq<Artifact>, outputs: map<string, string>, evidence: seq<Artifact>,
    fullResult: string, docsResult: string, integrationResult: string)

  datatype Interface = Interface(workflow: string, job: string, title: string, environment: Option<string>,
    steps: seq<string>)

  datatype Registry = Registry(
    schema: string, workflow: string, metaJobs: map<string, string>, suites: seq<Suite>,
      externalInterfaces: seq<Interface>)

  const CANONICAL := Name("v51-owned-canonical")
  const CHANGES := Name("changes")
  const REQUIRED := Name("required")
  const WORKFLOW := ".github/workflows/ci.yml"
  const RELEASE_WORKFLOW := ".github/workflows/release.yml"
  const SCHEMA := "gse-ci-suites-v2"
  const META_JOBS: map<string, string> := map["changes" := "Change scope", "required" := "Required"]
  const META_NAMES: seq<string> := ["Change scope", "Required"]

  predicate Optional(t: Option<string>) { t.Some? ==> Text(t.value) }

  function Columns(row: Row): (ks: seq<string>)
    ensures |ks| == |row| && forall i :: 0 <= i < |ks| ==> ks[i] == row[i].0
  {
    seq(|row|, i requires 0 <= i < |row| => row[i].0)
  }

  predicate RowOk(row: Row) {
    row != [] && Distinct(Columns(row)) && forall i :: 0 <= i < |row| ==> Identifier(row[i].0) && MatrixValue(row[i].1)
  }

  /** `strategy`: one axis, either full rows with the same columns or a list of members. */
  predicate MatrixOk(m: Matrix) {
    match m
    case NoMatrix => true
    case Include(rows) =>
      && rows != [] && Distinct(rows)
      && forall i :: 0 <= i < |rows| ==> RowOk(rows[i]) && Columns(rows[i]) == Columns(rows[0])
    case Axis(axis, members) =>
      && axis != "include" && Identifier(axis) && members != [] && Distinct(members)
      && forall i :: 0 <= i < |members| ==> if members[i].Count? then members[i].n > 0 else MatrixValue(members[i].w)
  }

  predicate ArtifactOk(a: Artifact) {
    Text(a.step) && Text(a.uses) && Optional(a.condition) && Optional(a.id) && a.options.Keys != {}
  }

  predicate SuiteValid(s: Suite) {
    && Text(s.id.text) && Identifier(s.id.text) && Text(s.title) && Text(s.domain)
    && (forall i :: 0 <= i < |s.needs| ==> Text(s.needs[i].text)) && Distinct(s.needs)
    && CHANGES in s.needs && s.id !in s.needs
    && s.timeoutMinutes > 0 && s.fullResult == "success" && s.docsResult == "skipped"
    && s.integrationResult == (if s.id == CANONICAL then "skipped" else "success")
    && MatrixOk(s.matrix) && (forall k :: k in s.outputs ==> Text(k) && Text(s.outputs[k]))
    && (forall a :: a in s.inputs ==> ArtifactOk(a)) && (forall a :: a in s.evidence ==> ArtifactOk(a))
  }

  predicate InterfaceOk(x: Interface) {
    && (x.workflow == WORKFLOW || x.workflow == RELEASE_WORKFLOW) && Text(x.job) && Text(x.title)
    && Optional(x.environment) && UniqueTexts(x.steps)
  }

  function Ids(suites: seq<Suite>): set<Name> { set s | s in suites :: s.id }

  predicate DistinctIds(suites: seq<Suite>) { forall i, j :: 0 <= i < j < |suites| ==> suites[i].id != suites[j].id }

  predicate NeedsKnown(suites: seq<Suite>) {
    forall s, n :: s in suites && n in s.needs ==> n == CHANGES || n in Ids(suites)
  }

  predicate Described(suites: seq<Suite>) {
    && suites != [] && (forall s :: s in suites ==> SuiteValid(s)) && DistinctIds(suites)
    && REQUIRED !in Ids(suites) && NeedsKnown(suites)
  }

  // ---- job names ----

  function Show(c: Cell): string { if c.Word? then c.w else if c.n >= 0 then Decimal(c.n) else "-" + Decimal(-c.n) }

  function Variants(m: Matrix): seq<Row> {
    match m
    case NoMatrix => [[]]
    case Include(rows) => rows
    case Axis(axis, members) => seq(|members|, i requires 0 <= i < |members| => [(axis, Show(members[i]))])
  }

  /** The title with the row's placeholders filled in. */
  function Fill(title: string, row: Row): string
    decreases |row|
  {
    if row == [] then title else Fill(Replace(title, "${{ matrix." + row[0].0 + " }}", row[0].1), row[1..])
  }

  function Filled(title: string, rows: seq<Row>): (names: seq<string>)
    ensures |names| == |rows| && forall i :: 0 <= i < |names| ==> names[i] == Fill(title, rows[i])
  {
    seq(|rows|, i requires 0 <= i < |rows| => Fill(title, rows[i]))
  }

  function JobNames(suites: seq<Suite>): seq<string> {
    if suites == [] then [] else Filled(suites[0].title, Variants(suites[0].matrix)) + JobNames(suites[1..])
  }

  predicate Resolved(names: seq<string>) { forall i :: 0 <= i < |names| ==> !Contains(names[i], "${{") }

  /** All job names, or an error for an unresolved or repeated one. */
  function ExpandedNames(suites: seq<Suite>): Option<seq<string>> {
    var names := JobNames(suites);
    if Resolved(names) && UniqueTexts(META_NAMES + names) then Some(META_NAMES + names) else None
  }

  method FillRows(title: string, rows: seq<Row>) returns (names: Option<seq<string>>)
    ensures names == if Resolved(Filled(title, rows)) then Some(Filled(title, rows)) else None
  {
    hide Contains, Fill;
    var done: seq<string> := [];
    for k := 0 to |rows|
      invariant done == Filled(title, rows)[..k] && Resolved(done)
    {
      var name := Fill(title, rows[k]);
      if Contains(name, "${{") {
        assert Filled(title, rows)[k] == name;
        return None;
      }
      done := done + [name];
    }
    assert done == Filled(title, rows);
    names := Some(done);
  }

  lemma ResolvedAppend(a: seq<string>, b: seq<string>)
    ensures Resolved(a + b) <==> Resolved(a) && Resolved(b)
  {
    hide Contains;
    if Resolved(a + b) {
      forall i | 0 <= i < |a| ensures !Contains(a[i], "${{") {
        assert (a + b)[i] == a[i];
      }
      forall i | 0 <= i < |b| ensures !Contains(b[i], "${{") {
        assert (a + b)[|a| + i] == b[i];
      }
    }
  }

  lemma JobNamesStep(suites: seq<Suite>, i: nat, names: seq<string>)
    requires i < |suites|
    ensures names + JobNames(suites[i..])
            == (names + Filled(suites[i].title, Variants(suites[i].matrix))) + JobNames(suites[i + 1..])
  {
    assert suites[i..][0] == suites[i] && suites[i..][1..] == suites[i + 1..];
  }

  /** The nested loops over suites and matrix variants. */
  method ExpandNames(suites: seq<Suite>) returns (r: Option<seq<string>>)
    ensures r == ExpandedNames(suites)
  {
    hide JobNames, Resolved, UniqueTexts, Variants;
    var names: seq<string> := [];
    assert suites[0..] == suites && [] + JobNames(suites) == JobNames(suites);
    NothingUnresolved();
    for i := 0 to |suites|
      invariant JobNames(suites) == names + JobNames(suites[i..]) && Resolved(names)
    {
      JobNamesStep(suites, i, names);
      var filled := FillRows(suites[i].title, Variants(suites[i].matrix));
      var all := Filled(suites[i].title, Variants(suites[i].matrix));
      ResolvedAppend(names + all, JobNames(suites[i + 1..]));
      ResolvedAppend(names, all);
      if filled.None? { return None; }
      names := names + filled.value;
    }
    NoJobs(suites[|suites|..]);
    assert names + [] == names;
    r := if UniqueTexts(META_NAMES + names) then Some(META_NAMES + names) else None;
  }

  lemma NothingUnresolved()
    ensures Resolved([])
  {
  }

  lemma NoJobs(suites: seq<Suite>)
    requires suites == []
    ensures JobNames(suites) == []
  {
  }

  // ---- validation ----

  function SuiteNeeds(s: Suite): set<Name> { (set n | n in s.needs) - {CHANGES} }

  /** The needs of each suite, without the change-scope job. */
  function Needs(suites: seq<Suite>): (g: Graph)
    requires DistinctIds(suites)
    ensures g.Keys == Ids(suites) && forall s :: s in suites ==> g[s.id] == SuiteNeeds(s)
  {
    map s | s in suites :: s.id := SuiteNeeds(s)
  }

  lemma NeedsWithin(suites: seq<Suite>)
    requires Described(suites)
    ensures Within(Needs(suites))
  {
    hide SuiteValid;
    var g := Needs(suites);
    forall k | k in g ensures g[k] <= g.Keys {
      var s :| s in suites && s.id == k;
      assert forall n :: n in g[k] ==> n in s.needs;
    }
  }

  predicate Framed(r: Registry) {
    && r.schema == SCHEMA && r.workflow == WORKFLOW && r.metaJobs == META_JOBS
    && r.externalInterfaces != [] && forall x :: x in r.externalInterfaces ==> InterfaceOk(x)
  }

  ghost predicate RegistryValid(r: Registry) {
    Framed(r) && Described(r.suites) && Acyclic(Needs(r.suites)) && ExpandedNames(r.suites).Some?
  }

  /** Row checks, elimination loop and name expansion: accepts exactly the valid registries. */
  method ValidateRegistry(r: Registry) returns (ok: bool, ghost rounds: seq<set<Name>>)
    ensures ok <==> RegistryValid(r)
    ensures ok ==> Ordered(Needs(r.suites), rounds) && Union(rounds) == Ids(r.suites)
  {
    hide SuiteValid, InterfaceOk, ExpandedNames;
    rounds := [];
    var suites := r.suites;
    if r.schema != SCHEMA || r.workflow != WORKFLOW || r.metaJobs != META_JOBS || suites == [] { return false, rounds; }
    for i := 0 to |suites|
      invariant forall k :: 0 <= k < i ==> SuiteValid(suites[k])
    {
      if !SuiteValid(suites[i]) { return false, rounds; }
    }
    if !DistinctIds(suites) || REQUIRED in Ids(suites) || !NeedsKnown(suites) { return false, rounds; }
    NeedsWithin(suites);
    ok, rounds := Eliminate(Needs(suites));
    if !ok { return; }
    if r.externalInterfaces == [] { return false, rounds; }
    for i := 0 to |r.externalInterfaces|
      invariant forall k :: 0 <= k < i ==> InterfaceOk(r.externalInterfaces[k])
    {
      if !InterfaceOk(r.externalInterfaces[i]) { return false, rounds; }
    }
    var names := ExpandNames(suites);
    ok := names.Some?;
  }
}
