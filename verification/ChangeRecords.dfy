/**
 Raw NUL-terminated git change records: the parser accepts exactly the non-empty printed lists
 of well-formed records with distinct paths, so parser and printer undo each other.
 */
module ChangeRecords {
  import opened Bytes
  import opened Options

  const NUL: byte := 0
  const COLON: byte := 0x3A
  const SPACE: byte := 0x20
  const SLASH: byte := 0x2F
  const DOT: byte := 0x2E

  // ---- splitting ----

  predicate Free(s: seq<byte>, sep: byte) { forall i :: 0 <= i < |s| ==> s[i] != sep }

  /** Where the first separator is, or the length. */
  function FirstOf(s: seq<byte>, sep: byte): (n: nat)
    ensures n <= |s| && Free(s[..n], sep) && (n < |s| ==> s[n] == sep)
  {
    if s == [] || s[0] == sep then 0 else FirstOf(s[1..], sep) + 1
  }

  /** The pieces between separators; one more than there are separators. */
  function Split(s: seq<byte>, sep: byte): (ps: seq<seq<byte>>)
    ensures ps != []
    decreases |s|
  {
    var n := FirstOf(s, sep);
    if n == |s| then [s] else [s[..n]] + Split(s[n + 1..], sep)
  }

  /** Every piece followed by a separator. */
  function Terminate(ps: seq<seq<byte>>, sep: byte): seq<byte> {
    if ps == [] then [] else ps[0] + [sep] + Terminate(ps[1..], sep)
  }

  predicate AllFree(ps: seq<seq<byte>>, sep: byte) { forall i :: 0 <= i < |ps| ==> Free(ps[i], sep) }

  lemma SplitAtFirst(s: seq<byte>, sep: byte) returns (first: seq<byte>, rest: seq<byte>)
    requires FirstOf(s, sep) < |s|
    ensures s == first + [sep] + rest && Free(first, sep) && Split(s, sep) == [first] + Split(rest, sep)
  {
    var n := FirstOf(s, sep);
    first, rest := s[..n], s[n + 1..];
    hide FirstOf, Free;
    assert s == s[..n] + [s[n]] + s[n + 1..];
  }

  lemma NoSplit(s: seq<byte>, sep: byte)
    requires FirstOf(s, sep) == |s|
    ensures Split(s, sep) == [s] && Free(s, sep)
  {
    assert s[..|s|] == s;
  }

  lemma {:induction false} SplitTerminates(s: seq<byte>, sep: byte)
    ensures Terminate(Split(s, sep), sep) == s + [sep] && AllFree(Split(s, sep), sep)
    decreases |s|
  {
    hide Free, FirstOf, Split, Terminate;
    if FirstOf(s, sep) == |s| {
      NoSplit(s, sep);
      TerminateOne(s, sep);
    } else {
      var first, rest := SplitAtFirst(s, sep);
      SplitTerminates(rest, sep);
      TerminateCons(first, Split(rest, sep), sep);
      assert s + [sep] == first + [sep] + (rest + [sep]);
    }
  }

  lemma TerminateOne(p: seq<byte>, sep: byte)
    ensures Terminate([p], sep) == p + [sep]
  {
    assert [p][1..] == [];
  }

  lemma TerminateCons(p: seq<byte>, ps: seq<seq<byte>>, sep: byte)
    ensures Terminate([p] + ps, sep) == p + [sep] + Terminate(ps, sep)
  {
    assert ([p] + ps)[1..] == ps;
  }

  lemma {:induction false} FirstOfPiece(p: seq<byte>, sep: byte, rest: seq<byte>)
    requires Free(p, sep)
    ensures FirstOf(p + [sep] + rest, sep) == |p|
  {
    var s := p + [sep] + rest;
    if p != [] {
      FirstOfPiece(p[1..], sep, rest);
      assert s[0] == p[0] && s[1..] == p[1..] + [sep] + rest;
    }
  }

  lemma SplitPiece(p: seq<byte>, sep: byte, rest: seq<byte>)
    requires Free(p, sep)
    ensures Split(p + [sep] + rest, sep) == [p] + Split(rest, sep)
  {
    var s := p + [sep] + rest;
    FirstOfPiece(p, sep, rest);
    assert s[..|p|] == p && s[|p| + 1..] == rest;
  }

  lemma SplitLast(p: seq<byte>, sep: byte)
    requires Free(p, sep)
    ensures Split(p, sep) == [p]
  {
    var n := FirstOf(p, sep);
    assert p[..|p|] == p;
  }

  /** The pieces of what `Terminate` builds, without its last separator. */
  lemma {:induction false} SplitUnique(ps: seq<seq<byte>>, sep: byte)
    requires ps != [] && AllFree(ps, sep)
    ensures var t := Terminate(ps, sep); t != [] && t[|t| - 1] == sep && Split(t[..|t| - 1], sep) == ps
    decreases |ps|
  {
    hide Split, Free;
    var p, t := ps[0], Terminate(ps, sep);
    if |ps| == 1 {
      assert ps[1..] == [] && Terminate([], sep) == [];
      assert t == p + [sep] && t[..|t| - 1] == p && ps == [p];
      SplitLast(p, sep);
    } else {
      var rest := Terminate(ps[1..], sep);
      SplitUnique(ps[1..], sep);
      assert t[..|t| - 1] == p + [sep] + rest[..|rest| - 1];
      SplitPiece(p, sep, rest[..|rest| - 1]);
      assert ps == [p] + ps[1..];
    }
  }

  // ---- one record ----

  datatype Change = Change(
    path: seq<byte>, status: byte, oldMode: seq<byte>, newMode: seq<byte>, oldBlob: seq<byte>, newBlob: seq<byte>)

  datatype Kind = Absent | Regular | Symlink | Gitlink

  const ABSENT: seq<byte> := Ascii("000000")

  /** The kind a mode stands for, if it is one of the five known modes. */
  function KindOf(mode: seq<byte>): Option<Kind> {
    if mode == ABSENT then Some(Absent)
    else if mode == Ascii("100644") || mode == Ascii("100755") then Some(Regular)
    else if mode == Ascii("120000") then Some(Symlink)
    else if mode == Ascii("160000") then Some(Gitlink)
    else None
  }

  predicate Octal(b: byte) { 0x30 <= b <= 0x37 }

  predicate Hex(b: byte) { 0x30 <= b <= 0x39 || 0x61 <= b <= 0x66 }

  predicate AllOctal(s: seq<byte>) { |s| == 6 && forall i :: 0 <= i < 6 ==> Octal(s[i]) }

  predicate AllHex(s: seq<byte>) { |s| == 40 && forall i :: 0 <= i < 40 ==> Hex(s[i]) }

  predicate NoBlob(s: seq<byte>) { |s| == 40 && forall i :: 0 <= i < 40 ==> s[i] == 0x30 }

  predicate Status(b: byte) { b == 0x41 || b == 0x4D || b == 0x44 || b == 0x54 }

  predicate HeaderShape(c: Change) {
    AllOctal(c.oldMode) && AllOctal(c.newMode) && AllHex(c.oldBlob) && AllHex(c.newBlob) && Status(c.status)
  }

  function EncodeHeader(c: Change): seq<byte> {
    [COLON] + c.oldMode + [SPACE] + c.newMode + [SPACE] + c.oldBlob + [SPACE] + c.newBlob + [SPACE, c.status]
  }

  /** The header pattern, 98 bytes. */
  function ParseHeader(h: seq<byte>, path: seq<byte>): Option<Change> {
    if |h| != 98 || h[0] != COLON || h[7] != SPACE || h[14] != SPACE || h[55] != SPACE || h[96] != SPACE then None
    else
      var c := Change(path, h[97], h[1..7], h[8..14], h[15..55], h[56..96]);
      if HeaderShape(c) then Some(c) else None
  }

  predicate ValidPath(path: seq<byte>) {
    path != [] && path[0] != SLASH
    && forall part :: part in Split(path, SLASH) ==> part != [] && part != [DOT] && part != [DOT, DOT]
  }

  /** A blob is null exactly on the absent side, and the status says which sides exist. */
  predicate Consistent(c: Change) {
    && KindOf(c.oldMode).Some? && KindOf(c.newMode).Some?
    && (c.oldMode == ABSENT <==> NoBlob(c.oldBlob)) && (c.newMode == ABSENT <==> NoBlob(c.newBlob))
    && (|| (c.status == 0x41 && c.oldMode == ABSENT && c.newMode != ABSENT)
        || (c.status == 0x44 && c.oldMode != ABSENT && c.newMode == ABSENT)
        || ((c.status == 0x4D || c.status == 0x54) && c.oldMode != ABSENT && c.newMode != ABSENT))
  }

  predicate PathOk(path: seq<byte>) { Utf8(path) && ValidPath(path) }

  function ParseChange(h: seq<byte>, path: seq<byte>): Option<Change> {
    match ParseHeader(h, path)
    case None => None
    case Some(c) => if PathOk(path) && Consistent(c) then Some(c) else None
  }

  predicate WellFormed(c: Change) { HeaderShape(c) && PathOk(c.path) && Free(c.path, NUL) && Consistent(c) }

  lemma HeaderParts(c: Change)
    requires HeaderShape(c)
    ensures var h := EncodeHeader(c);
            && |h| == 98 && Free(h, NUL) && h[0] == COLON && h[7] == SPACE && h[14] == SPACE && h[55] == SPACE
            && h[96] == SPACE
            && h[97] == c.status && h[1..7] == c.oldMode && h[8..14] == c.newMode
            && h[15..55] == c.oldBlob && h[56..96] == c.newBlob
  {
    var h := EncodeHeader(c);
    forall i | 0 <= i < 98 ensures h[i] != NUL {
      if 1 <= i < 7 {
        assert h[i] == c.oldMode[i - 1] && Octal(h[i]);
      } else if 8 <= i < 14 {
        assert h[i] == c.newMode[i - 8] && Octal(h[i]);
      } else if 15 <= i < 55 {
        assert h[i] == c.oldBlob[i - 15] && Hex(h[i]);
      } else if 56 <= i < 96 {
        assert h[i] == c.newBlob[i - 56] && Hex(h[i]);
      }
    }
  }

  lemma HeaderJoins(h: seq<byte>, path: seq<byte>)
    requires ParseHeader(h, path).Some?
    ensures EncodeHeader(ParseHeader(h, path).value) == h
  {
    hide HeaderShape;
    var c := ParseHeader(h, path).value;
    assert [COLON] + c.oldMode + [SPACE] == h[..8];
    assert h[..8] + c.newMode + [SPACE] == h[..15];
    assert h[..15] + c.oldBlob + [SPACE] == h[..56];
    assert h[..56] + c.newBlob + [SPACE, c.status] == h;
  }

  /** A header and a path give the record `c` exactly when they are its printed parts. */
  lemma ChangeCodec(h: seq<byte>, path: seq<byte>, c: Change)
    requires Free(path, NUL)
    ensures ParseChange(h, path) == Some(c) <==> WellFormed(c) && h == EncodeHeader(c) && path == c.path
  {
    if ParseChange(h, path) == Some(c) {
      HeaderJoins(h, path);
    }
    if WellFormed(c) && h == EncodeHeader(c) && path == c.path {
      HeaderParts(c);
      hide EncodeHeader, Consistent, PathOk;
    }
  }

  // ---- lists of records ----

  function Pieces(cs: seq<Change>): seq<seq<byte>> {
    if cs == [] then [] else [EncodeHeader(cs[0]), cs[0].path] + Pieces(cs[1..])
  }

  /** What `git diff --raw -z` prints for these changes. */
  function PrintChanges(cs: seq<Change>): seq<byte> { Terminate(Pieces(cs), NUL) }

  predicate DistinctPaths(cs: seq<Change>) { forall i, j :: 0 <= i < j < |cs| ==> cs[i].path != cs[j].path }

  function ParsePieces(ps: seq<seq<byte>>): Option<seq<Change>> {
    if ps == [] then Some([])
    else if |ps| == 1 then None
    else match ParseChange(ps[0], ps[1])
      case None => None
      case Some(c) =>
        match ParsePieces(ps[2..])
        case None => None
        case Some(cs) => Some([c] + cs)
  }

  function Parse(raw: seq<byte>): Option<seq<Change>> {
    if raw == [] || raw[|raw| - 1] != NUL then None
    else match ParsePieces(Split(raw[..|raw| - 1], NUL))
      case None => None
      case Some(cs) => if DistinctPaths(cs) then Some(cs) else None
  }

  lemma {:induction false} PiecesCodec(ps: seq<seq<byte>>, cs: seq<Change>)
    requires AllFree(ps, NUL)
    ensures ParsePieces(ps) == Some(cs) <==> (forall c :: c in cs ==> WellFormed(c)) && ps == Pieces(cs)
    decreases |ps|
  {
    hide ParseChange, WellFormed, EncodeHeader;
    if |ps| >= 2 {
      if cs != [] {
        ChangeCodec(ps[0], ps[1], cs[0]);
        PiecesCodec(ps[2..], cs[1..]);
        assert cs == [cs[0]] + cs[1..];
        assert Pieces(cs)[2..] == Pieces(cs[1..]);
        if ParsePieces(ps) == Some(cs) {
          assert ParsePieces(ps).value[1..] == ParsePieces(ps[2..]).value;
          assert ps == [ps[0], ps[1]] + ps[2..];
        }
      }
    } else if |ps| == 1 {
      assert cs != [] ==> |Pieces(cs)| >= 2;
    }
  }

  lemma {:induction false} PiecesFree(cs: seq<Change>)
    requires forall c :: c in cs ==> WellFormed(c)
    ensures AllFree(Pieces(cs), NUL) && |Pieces(cs)| == 2 * |cs|
  {
    hide WellFormed, EncodeHeader;
    if cs != [] {
      PiecesFree(cs[1..]);
      RecordFree(cs[0]);
    }
  }

  lemma RecordFree(c: Change)
    requires WellFormed(c)
    ensures Free(EncodeHeader(c), NUL) && Free(c.path, NUL)
  {
    HeaderParts(c);
  }

  lemma ParseThenPrint(raw: seq<byte>)
    requires Parse(raw).Some?
    ensures var cs := Parse(raw).value;
            cs != [] && DistinctPaths(cs) && (forall c :: c in cs ==> WellFormed(c)) && raw == PrintChanges(cs)
  {
    var s, cs := raw[..|raw| - 1], Parse(raw).value;
    assert s + [NUL] == raw;
    assert Pieces([]) == [];
    hide WellFormed, ParsePieces, Pieces, Terminate, AllFree, DistinctPaths;
    SplitTerminates(s, NUL);
    PiecesCodec(Split(s, NUL), cs);
  }

  lemma PrintThenParse(cs: seq<Change>)
    requires cs != [] && DistinctPaths(cs) && forall c :: c in cs ==> WellFormed(c)
    ensures Parse(PrintChanges(cs)) == Some(cs)
  {
    hide WellFormed, ParsePieces, Pieces, Terminate, AllFree, DistinctPaths, Split;
    PiecesFree(cs);
    SplitUnique(Pieces(cs), NUL);
    PiecesCodec(Pieces(cs), cs);
  }

  /** Parser and printer are inverse, and a list has one printed form. */
  lemma ParserInvertsPrinter(raw: seq<byte>, cs: seq<Change>)
    ensures Parse(raw) == Some(cs)
            <==> cs != [] && DistinctPaths(cs) && (forall c :: c in cs ==> WellFormed(c)) && raw == PrintChanges(cs)
  {
    if Parse(raw) == Some(cs) {
      ParseThenPrint(raw);
    } else if cs != [] && DistinctPaths(cs) && (forall c :: c in cs ==> WellFormed(c)) && raw == PrintChanges(cs) {
      PrintThenParse(cs);
    }
  }

  // ---- the loop ----

  lemma {:induction false} OddPieces(ps: seq<seq<byte>>)
    requires |ps| % 2 == 1
    ensures ParsePieces(ps).None?
    decreases |ps|
  {
    if |ps| > 1 {
      OddPieces(ps[2..]);
    }
  }

  /** The records read so far, before those that the remaining pieces hold. */
  ghost function After(records: seq<Change>, more: Option<seq<Change>>): Option<seq<Change>> {
    match more case None => None case Some(cs) => Some(records + cs)
  }

  lemma AfterStep(records: seq<Change>, ps: seq<seq<byte>>, c: Change)
    requires |ps| >= 2 && ParseChange(ps[0], ps[1]) == Some(c)
    ensures After(records, ParsePieces(ps)) == After(records + [c], ParsePieces(ps[2..]))
  {
    hide ParseChange;
    var more := ParsePieces(ps[2..]);
    if more.Some? {
      assert records + ([c] + more.value) == (records + [c]) + more.value;
    }
  }

  lemma AfterNothing(more: Option<seq<Change>>)
    ensures After([], more) == more
  {
    if more.Some? {
      assert [] + more.value == more.value;
    }
  }

  /** The source's loop over header and path pairs. */
  method ParseRecords(raw: seq<byte>) returns (r: Option<seq<Change>>)
    ensures r == Parse(raw)
  {
    hide ParseChange, Split, DistinctPaths, ParsePieces;
    if raw == [] || raw[|raw| - 1] != NUL { return None; }
    var ps := Split(raw[..|raw| - 1], NUL);
    if |ps| % 2 != 0 {
      OddPieces(ps);
      return None;
    }
    var records: seq<Change> := [];
    AfterNothing(ParsePieces(ps));
    assert ps[0..] == ps;
    for i := 0 to |ps| / 2
      invariant After(records, ParsePieces(ps[2 * i..])) == ParsePieces(ps)
    {
      var rest := ps[2 * i..];
      assert rest[0] == ps[2 * i] && rest[1] == ps[2 * i + 1] && rest[2..] == ps[2 * i + 2..];
      var c := ParseChange(ps[2 * i], ps[2 * i + 1]);
      if c.None? {
        NoRecord(rest);
        return None;
      }
      AfterStep(records, rest, c.value);
      records := records + [c.value];
    }
    NoPieces(ps[|ps|..]);
    assert records + [] == records;
    if !DistinctPaths(records) { return None; }
    r := Some(records);
  }

  lemma NoRecord(ps: seq<seq<byte>>)
    requires |ps| >= 2 && ParseChange(ps[0], ps[1]).None?
    ensures ParsePieces(ps).None?
  {
  }

  lemma NoPieces(ps: seq<seq<byte>>)
    requires ps == []
    ensures ParsePieces(ps) == Some([])
  {
  }
}
