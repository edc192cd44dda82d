/**
 Job names as the workflow shows them: substitution of matrix placeholders by where they occur, and
 one name for each row, member or plain suite.
 */
module JobTitles {
  import opened Options
  import opened Numerals
  import opened Orders
  import opened SuiteRegistry

  // ---- substitution ----

  predicate OccursAt(s: string, part: string, i: int) { 0 <= i <= |s| - |part| && s[i..i + |part|] == part }

  /** The pieces with `glue` between them. */
  function Join(pieces: seq<string>, glue: string): string {
    if pieces == [] then "" else if |pieces| == 1 then pieces[0] else pieces[0] + glue + Join(pieces[1..], glue)
  }

  /** No occurrence of `glue` begins inside a piece. */
  predicate Leftmost(pieces: seq<string>, glue: string) {
    && pieces != [] && Absent(pieces[|pieces| - 1], glue)
    && forall k :: 0 <= k < |pieces| - 1 ==> Before(pieces[k], glue)
  }

  predicate Absent(s: string, glue: string) { forall i :: 0 <= i < |s| ==> !OccursAt(s, glue, i) }

  predicate Before(piece: string, glue: string) {
    forall i :: 0 <= i < |piece| ==> !OccursAt(piece + glue, glue, i)
  }

  lemma {:induction false} ReplaceNone(s: string, glue: string, after: string)
    requires glue != "" && Absent(s, glue)
    ensures Replace(s, glue, after) == s
  {
    if s != "" {
      assert glue <= s ==> OccursAt(s, glue, 0);
      forall i | 0 <= i < |s| - 1 ensures !OccursAt(s[1..], glue, i) {
        assert !OccursAt(s, glue, i + 1);
      }
      ReplaceNone(s[1..], glue, after);
      assert s == [s[0]] + s[1..];
    }
  }

  lemma {:induction false} ReplaceFirst(piece: string, glue: string, after: string, rest: string)
    requires glue != "" && Before(piece, glue)
    ensures Replace(piece + glue + rest, glue, after) == piece + after + Replace(rest, glue, after)
  {
    var s := piece + glue + rest;
    if piece == "" {
      assert s == glue + rest && s[|glue|..] == rest;
    } else {
      BeforeTail(piece, glue, rest);
      hide Before;
      var tail := piece[1..];
      ReplaceFirst(tail, glue, after, rest);
      assert s[1..] == tail + glue + rest;
      assert piece + after + Replace(rest, glue, after) == [piece[0]] + (tail + after + Replace(rest, glue, after));
    }
  }

  lemma BeforeTail(piece: string, glue: string, rest: string)
    requires piece != "" && Before(piece, glue)
    ensures !(glue <= piece + glue + rest) && Before(piece[1..], glue)
  {
    var s, tail := piece + glue + rest, piece[1..];
    if glue <= s {
      assert (piece + glue)[..|glue|] == s[..|glue|] == glue;
      assert OccursAt(piece + glue, glue, 0);
    }
    forall i | 0 <= i < |tail| ensures !OccursAt(tail + glue, glue, i) {
      assert !OccursAt(piece + glue, glue, i + 1);
      assert (piece + glue)[1..] == tail + glue;
    }
  }

  lemma {:induction false} ReplaceJoined(pieces: seq<string>, glue: string, after: string)
    requires glue != "" && Leftmost(pieces, glue)
    ensures Replace(Join(pieces, glue), glue, after) == Join(pieces, after)
    decreases |pieces|
  {
    hide Replace, OccursAt;
    if |pieces| == 1 {
      ReplaceNone(pieces[0], glue, after);
    } else {
      assert Before(pieces[0], glue);
      forall k | 0 <= k < |pieces| - 2 ensures Before(pieces[1..][k], glue) {
        assert Before(pieces[k + 1], glue);
      }
      assert pieces[1..][|pieces| - 2] == pieces[|pieces| - 1];
      ReplaceJoined(pieces[1..], glue, after);
      ReplaceFirst(pieces[0], glue, after, Join(pieces[1..], glue));
    }
  }

  /** Every string can be cut at the leftmost occurrences that do not overlap. */
  lemma {:induction false} Cut(s: string, glue: string) returns (pieces: seq<string>)
    requires glue != ""
    ensures Leftmost(pieces, glue) && Join(pieces, glue) == s
    decreases |s|
  {
    if i :| 0 <= i < |s| && OccursAt(s, glue, i) {
      var n := FirstOccurrence(s, glue, i);
      var rest := Cut(s[n + |glue|..], glue);
      pieces := [s[..n]] + rest;
      assert s == s[..n] + glue + s[n + |glue|..];
      assert pieces[1..] == rest;
      CutOk(s, glue, n);
      forall k | 0 <= k < |pieces| - 1 ensures Before(pieces[k], glue) {
        if k > 0 {
          assert Before(rest[k - 1], glue);
        }
      }
    } else {
      pieces := [s];
    }
  }

  lemma {:induction false} FirstOccurrence(s: string, glue: string, i: nat) returns (n: nat)
    requires OccursAt(s, glue, i)
    ensures OccursAt(s, glue, n) && forall k :: 0 <= k < n ==> !OccursAt(s, glue, k)
    decreases i
  {
    if k :| 0 <= k < i && OccursAt(s, glue, k) {
      n := FirstOccurrence(s, glue, k);
    } else {
      n := i;
    }
  }

  lemma CutOk(s: string, glue: string, n: nat)
    requires OccursAt(s, glue, n) && forall k :: 0 <= k < n ==> !OccursAt(s, glue, k)
    ensures Before(s[..n], glue)
  {
    assert s[..n] + glue == s[..n + |glue|];
    forall i | 0 <= i < n ensures !OccursAt(s[..n] + glue, glue, i) {
      if OccursAt(s[..n] + glue, glue, i) {
        assert s[..n + |glue|][i..i + |glue|] == s[i..i + |glue|];
        assert OccursAt(s, glue, i);
      }
    }
  }

  /** `t` is `s` with the leftmost occurrences of `glue` that do not overlap exchanged for `after`. */
  ghost predicate Substituted(s: string, glue: string, after: string, t: string) {
    exists pieces :: Leftmost(pieces, glue) && Join(pieces, glue) == s && Join(pieces, after) == t
  }

  /** What replacing does. */
  lemma ReplaceExactly(s: string, glue: string, after: string, t: string)
    requires glue != ""
    ensures t == Replace(s, glue, after) <==> Substituted(s, glue, after, t)
  {
    hide Replace, Leftmost, Join;
    var pieces := Cut(s, glue);
    ReplaceJoined(pieces, glue, after);
    if Substituted(s, glue, after, t) {
      var others :| Leftmost(others, glue) && Join(others, glue) == s && Join(others, after) == t;
      ReplaceJoined(others, glue, after);
    }
  }

  lemma {:induction false} ContainsExactly(s: string, part: string)
    ensures Contains(s, part) <==> exists i :: OccursAt(s, part, i)
  {
    if Contains(s, part) {
      if part <= s {
        assert OccursAt(s, part, 0);
      } else {
        ContainsExactly(s[1..], part);
        var i :| OccursAt(s[1..], part, i);
        assert OccursAt(s, part, i + 1);
      }
    }
    if i :| OccursAt(s, part, i) {
      if i == 0 {
        assert s[..|part|] == part;
      } else {
        assert OccursAt(s[1..], part, i - 1);
        ContainsExactly(s[1..], part);
      }
    }
  }

  // ---- names of one suite ----

  function Placeholder(column: string): (p: string)
    ensures p != ""
  {
    "${{ matrix." + column + " }}"
  }

  ghost predicate Filling(titles: seq<string>, row: Row, k: nat)
    requires k < |row| && |titles| == |row| + 1
  {
    Substituted(titles[k], Placeholder(row[k].0), row[k].1, titles[k + 1])
  }

  /** `titles` leads from the title to the name, one column of the row at a time. */
  ghost predicate FilledIn(titles: seq<string>, title: string, row: Row, name: string) {
    && |titles| == |row| + 1 && titles[0] == title && titles[|row|] == name
    && forall k :: 0 <= k < |row| ==> Filling(titles, row, k)
  }

  ghost predicate NamedAfter(title: string, row: Row, name: string) {
    exists titles :: FilledIn(titles, title, row, name)
  }

  lemma {:induction false} FillRead(title: string, row: Row) returns (titles: seq<string>)
    ensures FilledIn(titles, title, row, Fill(title, row))
    decreases |row|
  {
    hide Replace, Substituted;
    if row == [] {
      titles := [title];
    } else {
      var next := Replace(title, Placeholder(row[0].0), row[0].1);
      ReplaceExactly(title, Placeholder(row[0].0), row[0].1, next);
      var rest := FillRead(next, row[1..]);
      titles := [title] + rest;
      forall k | 0 <= k < |row| ensures Filling(titles, row, k) {
        if k > 0 {
          assert Filling(rest, row[1..], k - 1);
        }
      }
    }
  }

  lemma {:induction false} FillWritten(titles: seq<string>, title: string, row: Row, name: string)
    requires FilledIn(titles, title, row, name)
    ensures name == Fill(title, row)
    decreases |row|
  {
    hide Replace, Substituted;
    if row != [] {
      assert Filling(titles, row, 0);
      ReplaceExactly(title, Placeholder(row[0].0), row[0].1, titles[1]);
      forall k | 0 <= k < |row| - 1 ensures Filling(titles[1..], row[1..], k) {
        assert Filling(titles, row, k + 1);
      }
      FillWritten(titles[1..], titles[1], row[1..], name);
    }
  }

  /** A title is filled in column by column, from the first on. */
  lemma FillExactly(title: string, row: Row, name: string)
    ensures name == Fill(title, row) <==> NamedAfter(title, row, name)
  {
    hide Fill, FilledIn;
    var titles := FillRead(title, row);
    if NamedAfter(title, row, name) {
      var others :| FilledIn(others, title, row, name);
      FillWritten(others, title, row, name);
    }
  }

  /** How many jobs a suite has. */
  function JobCount(m: Matrix): nat {
    match m
    case NoMatrix => 1
    case Include(rows) => |rows|
    case Axis(_, members) => |members|
  }

  /** The values of job `j`: none, the row, or the one member, numbers in decimal. */
  predicate RowOf(m: Matrix, j: nat, row: Row)
    requires j < JobCount(m)
  {
    match m
    case NoMatrix => row == []
    case Include(rows) => row == rows[j]
    case Axis(axis, members) => |row| == 1 && row[0].0 == axis && Shown(members[j], row[0].1)
  }

  predicate Shown(c: Cell, text: string) {
    match c
    case Word(w) => text == w
    case Count(n) =>
      if n >= 0 then text == Decimal(n) else |text| > 1 && text[0] == '-' && text[1..] == Decimal(-n)
  }

  lemma ShownExactly(c: Cell, text: string)
    ensures text == Show(c) <==> Shown(c, text)
  {
    if c.Count? && c.n < 0 {
      DecimalExactly(-c.n, Decimal(-c.n));
      if |text| > 1 && text[0] == '-' {
        assert text == "-" + text[1..];
      }
    }
  }

  ghost predicate JobNamed(s: Suite, j: nat, name: string)
    requires j < JobCount(s.matrix)
  {
    exists row :: RowOf(s.matrix, j, row) && NamedAfter(s.title, row, name)
  }

  lemma VariantExactly(m: Matrix, j: nat, row: Row)
    requires j < JobCount(m)
    ensures |Variants(m)| == JobCount(m) && (row == Variants(m)[j] <==> RowOf(m, j, row))
  {
    hide Show, Shown;
    if m.Axis? {
      ShownExactly(m.members[j], Show(m.members[j]));
      if RowOf(m, j, row) {
        ShownExactly(m.members[j], row[0].1);
        assert row[0] == (m.axis, Show(m.members[j]));
        assert row == [row[0]];
      }
    }
  }

  lemma CountOfVariants(m: Matrix)
    ensures |Variants(m)| == JobCount(m)
  {
  }

  lemma JobExactly(s: Suite, j: nat, name: string)
    requires j < JobCount(s.matrix)
    ensures |Filled(s.title, Variants(s.matrix))| == JobCount(s.matrix)
    ensures name == Filled(s.title, Variants(s.matrix))[j] <==> JobNamed(s, j, name)
  {
    hide Variants, Fill, NamedAfter, RowOf, JobCount;
    CountOfVariants(s.matrix);
    var row := Variants(s.matrix)[j];
    VariantExactly(s.matrix, j, row);
    FillExactly(s.title, row, name);
    if JobNamed(s, j, name) {
      var other :| RowOf(s.matrix, j, other) && NamedAfter(s.title, other, name);
      VariantExactly(s.matrix, j, other);
    }
  }

  // ---- names of all suites ----

  /** `names` lists the jobs of the suites in order, each suite's jobs in the order of its matrix. */
  ghost predicate AllNamed(suites: seq<Suite>, names: seq<string>)
    decreases |suites|
  {
    if suites == [] then names == []
    else
      var n := JobCount(suites[0].matrix);
      && n <= |names| && (forall j :: 0 <= j < n ==> JobNamed(suites[0], j, names[j]))
      && AllNamed(suites[1..], names[n..])
  }

  lemma {:induction false} JobNamesExactly(suites: seq<Suite>, names: seq<string>)
    ensures names == JobNames(suites) <==> AllNamed(suites, names)
    decreases |suites|
  {
    hide JobNamed, Variants, Fill, JobCount;
    if suites != [] {
      var s, filled := suites[0], Filled(suites[0].title, Variants(suites[0].matrix));
      var n := JobCount(s.matrix);
      CountOfVariants(s.matrix);
      if n <= |names| {
        JobNamesExactly(suites[1..], names[n..]);
        assert names == names[..n] + names[n..];
        forall j | 0 <= j < n ensures names[j] == filled[j] <==> JobNamed(s, j, names[j]) {
          JobExactly(s, j, names[j]);
        }
        if names == JobNames(suites) {
          assert names[..n] == filled && names[n..] == JobNames(suites[1..]);
        }
        if AllNamed(suites, names) {
          assert names[..n] == filled;
        }
      }
    }
  }

  /** Expansion succeeds with exactly the two meta jobs and the jobs of all suites, when no name keeps
      a placeholder, is empty, has a control character, or comes twice. */
  lemma NamesExactly(suites: seq<Suite>, all: seq<string>)
    ensures ExpandedNames(suites) == Some(all) <==>
            && |all| >= 2 && all[0] == "Change scope" && all[1] == "Required" && AllNamed(suites, all[2..])
            && (forall i, k :: 2 <= i < |all| ==> !OccursAt(all[i], "${{", k))
            && (forall i :: 0 <= i < |all| ==> all[i] != "" && forall c :: c in all[i] ==> c as int >= 0x20)
            && forall i, j :: 0 <= i < j < |all| ==> all[i] != all[j]
  {
    hide AllNamed, JobNames, Contains, OccursAt;
    if |all| >= 2 {
      JobNamesExactly(suites, all[2..]);
      assert all == [all[0], all[1]] + all[2..];
      ResolvedExactly(all[2..]);
      forall i, k | 2 <= i < |all| ensures OccursAt(all[i], "${{", k) <==> OccursAt(all[2..][i - 2], "${{", k) {
      }
      forall i | 0 <= i < |all|
        ensures Text(all[i]) <==> all[i] != "" && forall c :: c in all[i] ==> c as int >= 0x20
      {
        TextExactly(all[i]);
      }
      if ExpandedNames(suites) == Some(all) {
        assert all[2..] == JobNames(suites);
      }
    }
  }

  lemma ResolvedExactly(names: seq<string>)
    ensures Resolved(names) <==> forall i, k :: 0 <= i < |names| ==> !OccursAt(names[i], "${{", k)
  {
    hide OccursAt, Contains;
    forall i | 0 <= i < |names| ensures Contains(names[i], "${{") <==> exists k :: OccursAt(names[i], "${{", k) {
      ContainsExactly(names[i], "${{");
    }
  }

  lemma TextExactly(s: string)
    ensures Text(s) <==> s != "" && forall c :: c in s ==> c as int >= 0x20
  {
    if forall c :: c in s ==> c as int >= 0x20 {
      forall i | 0 <= i < |s| ensures s[i] >= ' ' {
        assert s[i] in s;
      }
    }
  }

  /** One example: a title with one placeholder. */
  lemma TitleExample()
    ensures Fill("Tests (${{ matrix.group }})", [("group", "core")]) == "Tests (core)"
  {
    hide Replace;
    var glue, pieces := "${{ matrix.group }}", ["Tests (", ")"];
    ExamplePieces(glue, pieces);
    ReplaceJoined(pieces, glue, "core");
    ExampleJoins(glue, pieces);
    assert [("group", "core")][1..] == [];
    assert "${{ matrix." + "group" + " }}" == glue;
  }

  lemma ExamplePieces(glue: string, pieces: seq<string>)
    requires glue == "${{ matrix.group }}" && pieces == ["Tests (", ")"]
    ensures Leftmost(pieces, glue)
  {
    forall i | 0 <= i < |pieces[0]| ensures !OccursAt(pieces[0] + glue, glue, i) {
      BeginsAlike(pieces[0] + glue, glue, i);
    }
    forall i | 0 <= i < |pieces[1]| ensures !OccursAt(pieces[1], glue, i) {
      BeginsAlike(pieces[1], glue, i);
    }
  }

  lemma BeginsAlike(s: string, part: string, i: nat)
    requires i < |s| && part != ""
    ensures OccursAt(s, part, i) ==> s[i] == part[0]
  {
    if OccursAt(s, part, i) {
      assert s[i..i + |part|][0] == s[i];
    }
  }

  lemma ExampleJoins(glue: string, pieces: seq<string>)
    requires glue == "${{ matrix.group }}" && pieces == ["Tests (", ")"]
    ensures Join(pieces, glue) == "Tests (${{ matrix.group }})" && Join(pieces, "core") == "Tests (core)"
  {
    assert pieces[1..] == [")"];
  }
}
