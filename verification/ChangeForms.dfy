/**
 Raw change records in the terms of git: what exists before and after, and under which path. The
 parser accepts exactly the printed lists of such changes.
 */
module ChangeForms {
  import opened Bytes
  import opened Options
  import opened ChangeRecords

  // ---- versions and deltas ----

  /** What a path holds on one side: a file, a symbolic link or a submodule, by its object name. */
  datatype Version = File(executable: bool, blob: seq<byte>) | Link(blob: seq<byte>) | Submodule(blob: seq<byte>)

  datatype Delta =
    | Added(after: Version)
    | Deleted(before: Version)
    | Modified(before: Version, after: Version)
    | TypeChanged(before: Version, after: Version)

  datatype Entry = Entry(path: seq<byte>, delta: Delta)

  /** 40 lower-case hexadecimal digits, not all zero. */
  predicate BlobOk(s: seq<byte>) {
    && |s| == 40 && (forall i :: 0 <= i < 40 ==> 0x30 <= s[i] <= 0x39 || 0x61 <= s[i] <= 0x66)
    && exists i :: 0 <= i < 40 && s[i] != 0x30
  }

  function Mode(v: Version): seq<byte> {
    match v
    case File(executable, _) => if executable then Ascii("100755") else Ascii("100644")
    case Link(_) => Ascii("120000")
    case Submodule(_) => Ascii("160000")
  }

  predicate DeltaOk(d: Delta) { (d.Added? || BlobOk(d.before.blob)) && (d.Deleted? || BlobOk(d.after.blob)) }

  function NullBlob(): (s: seq<byte>)
    ensures |s| == 40 && forall i :: 0 <= i < 40 ==> s[i] == 0x30
  {
    seq(40, _ => 0x30)
  }

  function BeforeMode(d: Delta): seq<byte> { if d.Added? then Ascii("000000") else Mode(d.before) }

  function AfterMode(d: Delta): seq<byte> { if d.Deleted? then Ascii("000000") else Mode(d.after) }

  function BeforeBlob(d: Delta): seq<byte> { if d.Added? then NullBlob() else d.before.blob }

  function AfterBlob(d: Delta): seq<byte> { if d.Deleted? then NullBlob() else d.after.blob }

  function Letter(d: Delta): byte {
    match d
    case Added(_) => 0x41
    case Deleted(_) => 0x44
    case Modified(_, _) => 0x4D
    case TypeChanged(_, _) => 0x54
  }

  /** The header line: a colon, both modes, both object names and the status letter. */
  function Header(d: Delta): seq<byte> {
    Ascii(":") + BeforeMode(d) + Ascii(" ") + AfterMode(d) + Ascii(" ") + BeforeBlob(d) + Ascii(" ") + AfterBlob(d)
    + Ascii(" ") + [Letter(d)]
  }

  function ChangeOf(e: Entry): Change {
    Change(e.path, Letter(e.delta), BeforeMode(e.delta), AfterMode(e.delta), BeforeBlob(e.delta), AfterBlob(e.delta))
  }

  // ---- paths ----

  function Joined(parts: seq<seq<byte>>): seq<byte>
    requires parts != []
  {
    if |parts| == 1 then parts[0] else parts[0] + Ascii("/") + Joined(parts[1..])
  }

  predicate PartOk(p: seq<byte>) {
    p != [] && p != Ascii(".") && p != Ascii("..") && forall i :: 0 <= i < |p| ==> p[i] != 0x2F && p[i] != 0
  }

  /** Names separated by single slashes, none of them `.` or `..`, in UTF-8. */
  ghost predicate PathOf(path: seq<byte>) {
    Utf8(path) && exists parts :: IsPath(path, parts)
  }

  predicate IsPath(path: seq<byte>, parts: seq<seq<byte>>) {
    parts != [] && (forall i :: 0 <= i < |parts| ==> PartOk(parts[i])) && Joined(parts) == path
  }

  lemma {:induction false} JoinedTerminates(parts: seq<seq<byte>>)
    requires parts != []
    ensures Terminate(parts, SLASH) == Joined(parts) + [SLASH]
    decreases |parts|
  {
    if |parts| == 1 {
      assert Terminate(parts[1..], SLASH) == [];
    } else {
      JoinedTerminates(parts[1..]);
      assert parts[0] + [SLASH] + (Joined(parts[1..]) + [SLASH]) == parts[0] + [SLASH] + Joined(parts[1..]) + [SLASH];
    }
  }

  lemma {:induction false} JoinedFree(parts: seq<seq<byte>>)
    requires parts != []
    ensures Free(Joined(parts), NUL) <==> forall p :: p in parts ==> Free(p, NUL)
    decreases |parts|
  {
    assert parts == [parts[0]] + parts[1..];
    if |parts| > 1 {
      JoinedFree(parts[1..]);
      FreeJoin(parts[0] + [SLASH], Joined(parts[1..]));
      FreeJoin(parts[0], [SLASH]);
      assert Free([SLASH], NUL) && Ascii("/") == [SLASH];
    }
    hide Free;
  }

  lemma FreeJoin(a: seq<byte>, b: seq<byte>)
    ensures Free(a + b, NUL) <==> Free(a, NUL) && Free(b, NUL)
  {
    if Free(a + b, NUL) {
      forall i | 0 <= i < |a| ensures a[i] != NUL {
        assert (a + b)[i] == a[i];
      }
      forall i | 0 <= i < |b| ensures b[i] != NUL {
        assert (a + b)[|a| + i] == b[i];
      }
    }
  }

  lemma PartExactly(p: seq<byte>)
    requires Free(p, SLASH) && Free(p, NUL)
    ensures PartOk(p) <==> p != [] && p != [DOT] && p != [DOT, DOT]
  {
    assert Ascii(".") == [DOT] && Ascii("..") == [DOT, DOT];
  }

  lemma PathRead(path: seq<byte>)
    requires ValidPath(path) && Free(path, NUL)
    ensures IsPath(path, Split(path, SLASH))
  {
    var parts := Split(path, SLASH);
    SplitTerminates(path, SLASH);
    JoinedTerminates(parts);
    assert Joined(parts) == (Joined(parts) + [SLASH])[..|Joined(parts)|] == path;
    JoinedFree(parts);
    forall i | 0 <= i < |parts| ensures PartOk(parts[i]) {
      PartExactly(parts[i]);
      assert parts[i] in parts;
    }
  }

  lemma PathWritten(path: seq<byte>, parts: seq<seq<byte>>)
    requires IsPath(path, parts)
    ensures ValidPath(path) && Free(path, NUL) && Split(path, SLASH) == parts
  {
    forall i | 0 <= i < |parts| ensures Free(parts[i], SLASH) && Free(parts[i], NUL) {
      assert PartOk(parts[i]);
    }
    JoinedTerminates(parts);
    SplitUnique(parts, SLASH);
    var t := Terminate(parts, SLASH);
    assert t[..|t| - 1] == path;
    JoinedFree(parts);
    forall part | part in parts ensures part != [] && part != [DOT] && part != [DOT, DOT] {
      var i :| 0 <= i < |parts| && parts[i] == part;
      PartExactly(part);
    }
    assert PartOk(parts[0]);
    assert path[0] == parts[0][0];
  }

  /** The path check, without splitting. */
  lemma PathExactly(path: seq<byte>)
    ensures PathOk(path) && Free(path, NUL) <==> PathOf(path)
  {
    hide Utf8, ValidPath, Free, IsPath;
    if PathOk(path) && Free(path, NUL) {
      PathRead(path);
    }
    if PathOf(path) {
      var parts :| IsPath(path, parts);
      PathWritten(path, parts);
    }
  }

  // ---- records ----

  lemma BlobExactly(s: seq<byte>)
    ensures AllHex(s) && !NoBlob(s) <==> BlobOk(s)
    ensures NoBlob(s) <==> s == NullBlob()
    ensures NoBlob(s) ==> AllHex(s)
  {
  }

  lemma ModeExactly(mode: seq<byte>)
    ensures KindOf(mode).Some? && mode != ABSENT <==> exists v :: Mode(v) == mode
    ensures KindOf(mode).Some? ==> AllOctal(mode)
  {
    assert Ascii("000000")[0] == 0x30 && Ascii("100644")[0] == Ascii("100755")[0] == 0x31;
    assert Ascii("120000")[0] == Ascii("160000")[0] == 0x31;
    if mode == Ascii("100644") {
      assert Mode(File(false, [])) == mode;
    } else if mode == Ascii("100755") {
      assert Mode(File(true, [])) == mode;
    } else if mode == Ascii("120000") {
      assert Mode(Link([])) == mode;
    } else if mode == Ascii("160000") {
      assert Mode(Submodule([])) == mode;
    }
  }

  function WithBlob(v: Version, blob: seq<byte>): (w: Version)
    ensures Mode(w) == Mode(v) && w.blob == blob
  {
    match v
    case File(executable, _) => File(executable, blob)
    case Link(_) => Link(blob)
    case Submodule(_) => Submodule(blob)
  }

  lemma VersionOf(mode: seq<byte>, blob: seq<byte>) returns (v: Version)
    requires KindOf(mode).Some? && mode != ABSENT
    ensures Mode(v) == mode && v.blob == blob
  {
    ModeExactly(mode);
    var u :| Mode(u) == mode;
    v := WithBlob(u, blob);
  }

  /** A record is well formed exactly if it is one of the four changes. */
  lemma RecordRead(c: Change) returns (d: Delta)
    requires HeaderShape(c) && Consistent(c)
    ensures DeltaOk(d) && c == ChangeOf(Entry(c.path, d))
  {
    BlobExactly(c.oldBlob);
    BlobExactly(c.newBlob);
    hide BlobOk, NoBlob, AllHex, AllOctal, KindOf, Ascii, Mode;
    if c.status == 0x41 {
      var after := VersionOf(c.newMode, c.newBlob);
      d := Added(after);
    } else if c.status == 0x44 {
      var before := VersionOf(c.oldMode, c.oldBlob);
      d := Deleted(before);
    } else {
      var before := VersionOf(c.oldMode, c.oldBlob);
      var after := VersionOf(c.newMode, c.newBlob);
      d := if c.status == 0x4D then Modified(before, after) else TypeChanged(before, after);
    }
  }

  lemma ModeKnown(v: Version)
    ensures KindOf(Mode(v)) == Some(if v.File? then Regular else if v.Link? then Symlink else Gitlink)
    ensures Mode(v) != ABSENT && AllOctal(Mode(v))
  {
    ModeExactly(Mode(v));
    assert Ascii("120000")[1] != Ascii("100644")[1] == Ascii("100755")[1] && Ascii("120000")[1] != Ascii("160000")[1];
    assert Ascii("160000")[1] != Ascii("100644")[1];
  }

  lemma AbsentKnown()
    ensures KindOf(ABSENT).Some? && AllOctal(ABSENT)
  {
  }

  lemma SideOk(d: Delta)
    requires DeltaOk(d)
    ensures KindOf(BeforeMode(d)).Some? && AllOctal(BeforeMode(d)) && (BeforeMode(d) == ABSENT <==> d.Added?)
    ensures KindOf(AfterMode(d)).Some? && AllOctal(AfterMode(d)) && (AfterMode(d) == ABSENT <==> d.Deleted?)
    ensures AllHex(BeforeBlob(d)) && (NoBlob(BeforeBlob(d)) <==> d.Added?)
    ensures AllHex(AfterBlob(d)) && (NoBlob(AfterBlob(d)) <==> d.Deleted?)
  {
    AbsentKnown();
    BlobExactly(NullBlob());
    if !d.Added? {
      ModeKnown(d.before);
      BlobExactly(d.before.blob);
    }
    if !d.Deleted? {
      ModeKnown(d.after);
      BlobExactly(d.after.blob);
    }
    hide KindOf, AllOctal, AllHex, NoBlob, BlobOk, Mode, Ascii;
  }

  lemma RecordWritten(e: Entry)
    requires DeltaOk(e.delta)
    ensures HeaderShape(ChangeOf(e)) && Consistent(ChangeOf(e)) && EncodeHeader(ChangeOf(e)) == Header(e.delta)
  {
    SideOk(e.delta);
    hide KindOf, AllOctal, AllHex, NoBlob, DeltaOk, BeforeMode, AfterMode, BeforeBlob, AfterBlob;
    assert Ascii(":") == [COLON] && Ascii(" ") == [SPACE];
  }

  // ---- lists ----

  ghost predicate EntryOk(e: Entry) { DeltaOk(e.delta) && PathOf(e.path) }

  lemma EntryExactly(e: Entry)
    requires EntryOk(e)
    ensures WellFormed(ChangeOf(e))
  {
    PathExactly(e.path);
    RecordWritten(e);
    hide PathOk, PathOf, HeaderShape, Consistent, Free, DeltaOk;
  }

  lemma EntryRead(c: Change) returns (e: Entry)
    requires WellFormed(c)
    ensures EntryOk(e) && c == ChangeOf(e)
  {
    hide PathOk, PathOf, HeaderShape, Consistent, Free, DeltaOk, BeforeMode, AfterMode, BeforeBlob, AfterBlob, Letter;
    PathExactly(c.path);
    var d := RecordRead(c);
    e := Entry(c.path, d);
  }

  /** Header and path of every change, each followed by a NUL. */
  function Printed(es: seq<Entry>): seq<byte> {
    if es == [] then [] else Header(es[0].delta) + [0] + es[0].path + [0] + Printed(es[1..])
  }

  function Changes(es: seq<Entry>): (cs: seq<Change>)
    ensures |cs| == |es| && forall i :: 0 <= i < |es| ==> cs[i] == ChangeOf(es[i])
  {
    seq(|es|, i requires 0 <= i < |es| => ChangeOf(es[i]))
  }

  lemma TerminateTwo(a: seq<byte>, b: seq<byte>, ps: seq<seq<byte>>)
    ensures Terminate([a, b] + ps, NUL) == a + [NUL] + b + [NUL] + Terminate(ps, NUL)
  {
    assert ([a, b] + ps)[1..] == [b] + ps && ([b] + ps)[1..] == ps;
    assert a + [NUL] + (b + [NUL] + Terminate(ps, NUL)) == a + [NUL] + b + [NUL] + Terminate(ps, NUL);
  }

  lemma {:induction false} PrintedExactly(es: seq<Entry>)
    requires forall e :: e in es ==> EntryOk(e)
    ensures PrintChanges(Changes(es)) == Printed(es)
  {
    hide Header, EncodeHeader, Terminate, ChangeOf;
    if es == [] {
      NothingPrinted();
    } else {
      assert EntryOk(es[0]);
      RecordWritten(es[0]);
      PrintedExactly(es[1..]);
      assert Changes(es)[1..] == Changes(es[1..]);
      PathOfChange(es[0]);
      TerminateTwo(Header(es[0].delta), es[0].path, Pieces(Changes(es[1..])));
    }
  }

  lemma NothingPrinted()
    ensures PrintChanges([]) == []
  {
  }

  lemma PathOfChange(e: Entry)
    ensures ChangeOf(e).path == e.path
  {
  }

  lemma {:induction false} EntriesRead(cs: seq<Change>) returns (es: seq<Entry>)
    requires forall c :: c in cs ==> WellFormed(c)
    ensures (forall e :: e in es ==> EntryOk(e)) && Changes(es) == cs
  {
    hide WellFormed, EntryOk, ChangeOf;
    if cs == [] {
      es := [];
    } else {
      var e := EntryRead(cs[0]);
      var rest := EntriesRead(cs[1..]);
      es := [e] + rest;
      assert cs == [cs[0]] + cs[1..];
      assert Changes(es) == cs by {
        forall i | 0 <= i < |cs| ensures Changes(es)[i] == cs[i] {
          if i > 0 {
            assert Changes(rest)[i - 1] == cs[1..][i - 1];
          }
        }
      }
    }
  }

  /** The parser accepts a byte string as `cs` exactly when it is the print of a non-empty list of
      changes with distinct paths, and `cs` are these changes. */
  lemma ParsesExactly(raw: seq<byte>, cs: seq<Change>)
    ensures Parse(raw) == Some(cs) <==> exists es :: IsPrint(raw, cs, es)
  {
    hide IsPrint, WellFormed;
    ParserInvertsPrinter(raw, cs);
    if Parse(raw) == Some(cs) {
      var es := EntriesRead(cs);
      PrintRead(raw, cs, es);
    }
    if es :| IsPrint(raw, cs, es) {
      PrintWritten(raw, cs, es);
    }
  }

  ghost predicate IsPrint(raw: seq<byte>, cs: seq<Change>, es: seq<Entry>) {
    && es != [] && (forall e :: e in es ==> EntryOk(e))
    && (forall i, j :: 0 <= i < j < |es| ==> es[i].path != es[j].path)
    && raw == Printed(es) && cs == Changes(es)
  }

  lemma PathsOf(es: seq<Entry>)
    ensures DistinctPaths(Changes(es)) <==> forall i, j :: 0 <= i < j < |es| ==> es[i].path != es[j].path
  {
    forall i | 0 <= i < |es| ensures Changes(es)[i].path == es[i].path {
      PathOfChange(es[i]);
    }
    hide ChangeOf;
  }

  lemma PrintRead(raw: seq<byte>, cs: seq<Change>, es: seq<Entry>)
    requires cs != [] && DistinctPaths(cs) && raw == PrintChanges(cs)
    requires (forall e :: e in es ==> EntryOk(e)) && Changes(es) == cs
    ensures IsPrint(raw, cs, es)
  {
    PathsOf(es);
    PrintedExactly(es);
    hide EntryOk, PrintChanges, Printed, ChangeOf;
  }

  lemma PrintWritten(raw: seq<byte>, cs: seq<Change>, es: seq<Entry>)
    requires IsPrint(raw, cs, es)
    ensures cs != [] && DistinctPaths(cs) && (forall c :: c in cs ==> WellFormed(c)) && raw == PrintChanges(cs)
  {
    PathsOf(es);
    PrintedExactly(es);
    hide PrintChanges, Printed, ChangeOf, WellFormed;
    forall c | c in cs ensures WellFormed(c) {
      var i :| 0 <= i < |cs| && cs[i] == c;
      EntryExactly(es[i]);
    }
  }
}
