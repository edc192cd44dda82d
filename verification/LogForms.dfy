/**
 The whole log file byte by byte, and the theorem that the inspector accepts exactly such files
 with a clean tail.
 */
module LogForms {
  import opened Bytes
  import opened Options
  import opened Crc32c
  import opened ByteForms
  import opened StorageFiles
  import opened WriteAheadLog
  import opened LogDurability
  import opened LogUnits
  import opened LogGrammar

  // ---- the bytes ----

  /** What a frame's checksum covers. */
  function FrameBody(sequence: nat, u: LogicalUnit): seq<byte> {
    [0x47, 0x53, 0x45, 0x46, 0, 1, 0, 0] + Digits(|Payload(u)| + 32, 4) + Digits(sequence, 8)
    + [TypeOf(u) as byte, 0, 0, 0] + Digits(|Payload(u)|, 4) + Payload(u)
  }

  function FrameBytes(sequence: nat, u: LogicalUnit): seq<byte> {
    FrameBody(sequence, u) + Digits(Checksum(FrameBody(sequence, u)), 4)
  }

  function FramesBytes(first: nat, us: seq<LogicalUnit>): seq<byte>
    decreases |us|
  {
    if us == [] then [] else FrameBytes(first, us[0]) + FramesBytes(first + 1, us[1..])
  }

  /** What the generation header's checksum covers. */
  function HeaderBody(most: nat, least: nat, generation: nat, first: nat): seq<byte> {
    Ascii("GSEWAL10") + [0, 1, 0, 0] + Digits(most, 8) + Digits(least, 8) + Digits(generation, 8) + Digits(first, 8)
  }

  function HeaderBytes(most: nat, least: nat, generation: nat, first: nat): seq<byte> {
    HeaderBody(most, least, generation, first) + Digits(Checksum(HeaderBody(most, least, generation, first)), 4)
  }

  predicate Eight(n: int) { 0 <= n < 0x1_0000_0000_0000_0000 }

  /** A frame of at most 256 MiB, numbered below 2^63. */
  predicate FrameOk(m: Metadata, sequence: int, u: LogicalUnit) {
    LogicalOk(m, u) && |Payload(u)| + 32 <= 268_435_456 && 0 <= sequence < 0x8000_0000_0000_0000
  }

  predicate FramesOk(m: Metadata, first: int, us: seq<LogicalUnit>) {
    forall i :: 0 <= i < |us| ==> FrameOk(m, first + i, us[i])
  }

  // ---- frames ----

  lemma FrameFields(sequence: nat, kind: int, size: nat)
    requires sequence < 0x8000_0000_0000_0000 && 1 <= kind <= 4 && size + 32 <= 268_435_456
    ensures InSigned(sequence, 8) && SignedDigits(sequence, 8) == Digits(sequence, 8)
    ensures Digits(FRAME_MAGIC, 4) == [0x47, 0x53, 0x45, 0x46]
    ensures InSigned(1, 2) && SignedDigits(1, 2) == [0, 1] && InSigned(0, 2) && SignedDigits(0, 2) == [0, 0]
    ensures InSigned(kind, 1) && SignedDigits(kind, 1) == [kind as byte]
    ensures InSigned(0, 1) && SignedDigits(0, 1) == [0]
    ensures InSigned(size, 4) && SignedDigits(size, 4) == Digits(size, 4)
  {
    IntegerBounds();
    FourByteConstant([0x47, 0x53, 0x45, 0x46]);
    TwoByteConstant([0, 1]);
    TwoByteConstant([0, 0]);
    OneByteSigned(kind as byte);
    OneByteSigned(0);
  }

  lemma FourByteConstant(s: seq<byte>)
    requires |s| == 4
    ensures Digits(0x100_0000 * s[0] as int + 0x1_0000 * s[1] as int + 0x100 * s[2] as int + s[3] as int, 4) == s
  {
    UnsignedOfFour(s);
    DigitsOfUnsigned(s);
  }

  lemma TwoByteConstant(s: seq<byte>)
    requires |s| == 2
    ensures Digits(0x100 * s[0] as int + s[1] as int, 2) == s
  {
    UnsignedByPlace([s[0]], [s[1]]);
    assert s == [s[0]] + [s[1]];
    assert Pow256(1) == 256;
    DigitsOfUnsigned(s);
  }

  function UnitOf(u: LogicalUnit): Unit { Unit(TypeOf(u), Payload(u)) }

  lemma FrameOkIsUnitOk(m: Metadata, sequence: nat, u: LogicalUnit)
    requires FrameOk(m, sequence, u)
    ensures UnitOk(m, UnitOf(u)) && InSigned(sequence, 8)
  {
    hide LogicalOk, Payload;
    IntegerBounds();
    assert IsPayload(m, TypeOf(u), Payload(u));
  }

  lemma FrameWritten(m: Metadata, sequence: nat, u: LogicalUnit)
    requires FrameOk(m, sequence, u)
    ensures UnitOk(m, UnitOf(u)) && InSigned(sequence, 8)
    ensures EncodeFrame(m, sequence, UnitOf(u)) == FrameBytes(sequence, u)
  {
    hide LogicalOk, Payload, Digits, SignedDigits, Checksum, Pow256;
    FrameOkIsUnitOk(m, sequence, u);
    UnitHeaderFits(m, sequence, UnitOf(u));
    FrameFields(sequence, TypeOf(u), |Payload(u)|);
    HeaderWritten(sequence, UnitOf(u));
  }

  lemma HeaderWritten(sequence: nat, u: Unit)
    requires sequence < 0x8000_0000_0000_0000 && 1 <= u.kind <= 4 && |u.payload| + 32 <= 268_435_456
    requires HeaderFits(HeaderFor(sequence, u))
    ensures PackHeader(HeaderFor(sequence, u)) ==
            [0x47, 0x53, 0x45, 0x46, 0, 1, 0, 0] + Digits(|u.payload| + 32, 4) + Digits(sequence, 8)
            + [u.kind as byte, 0, 0, 0] + Digits(|u.payload|, 4)
  {
    hide Digits, SignedDigits, Pow256;
    FrameFields(sequence, u.kind, |u.payload|);
  }

  // ---- lists of frames ----

  function UnitsFor(us: seq<LogicalUnit>): (vs: seq<Unit>)
    ensures |vs| == |us| && forall i :: 0 <= i < |us| ==> vs[i] == UnitOf(us[i])
  {
    seq(|us|, i requires 0 <= i < |us| => UnitOf(us[i]))
  }

  lemma FramesAreUnits(m: Metadata, first: nat, us: seq<LogicalUnit>)
    requires FramesOk(m, first, us)
    ensures UnitsOk(m, first, UnitsFor(us))
  {
    hide FrameOk, UnitOk;
    forall i | 0 <= i < |us| ensures UnitOk(m, UnitsFor(us)[i]) && InSigned(first + i, 8) {
      assert FrameOk(m, first + i, us[i]);
      FrameOkIsUnitOk(m, first + i, us[i]);
    }
  }

  lemma FramesOkTail(m: Metadata, first: nat, us: seq<LogicalUnit>)
    requires us != [] && FramesOk(m, first, us)
    ensures FrameOk(m, first, us[0]) && FramesOk(m, first + 1, us[1..])
  {
    hide FrameOk;
    assert FrameOk(m, first + 0, us[0]);
    forall i | 0 <= i < |us| - 1 ensures FrameOk(m, first + 1 + i, us[1..][i]) {
      assert FrameOk(m, first + (i + 1), us[i + 1]);
    }
  }

  lemma {:induction false} FramesWritten(m: Metadata, first: nat, us: seq<LogicalUnit>)
    requires FramesOk(m, first, us)
    ensures UnitsOk(m, first, UnitsFor(us)) && EncodeLog(m, first, UnitsFor(us)) == FramesBytes(first, us)
    decreases |us|
  {
    hide FrameOk, UnitOk, UnitsOk, FramesOk, UnitOf, EncodeFrame, FrameBytes;
    FramesAreUnits(m, first, us);
    if us != [] {
      FramesOkTail(m, first, us);
      FramesWritten(m, first + 1, us[1..]);
      FrameWritten(m, first, us[0]);
      assert UnitsFor(us)[1..] == UnitsFor(us[1..]);
    }
  }

  lemma {:induction false} UnitsRead(m: Metadata, first: nat, vs: seq<Unit>) returns (us: seq<LogicalUnit>)
    requires UnitsOk(m, first, vs)
    ensures UnitsFor(us) == vs && FramesOk(m, first, us)
    decreases |vs|
  {
    hide UnitOk, FrameOk, UnitOf;
    if vs == [] {
      us := [];
    } else {
      UnitsOkTail(m, first, vs);
      var tail := UnitsRead(m, first + 1, vs[1..]);
      assert UnitOk(m, vs[0]) && InSigned(first + 0, 8);
      var u := UnitRead(m, first, vs[0]);
      us := [u] + tail;
      assert vs == [vs[0]] + vs[1..];
      forall i | 0 <= i < |us| ensures FrameOk(m, first + i, us[i]) && UnitsFor(us)[i] == vs[i] {
        if i > 0 {
          assert us[i] == tail[i - 1] && FrameOk(m, first + 1 + (i - 1), tail[i - 1]);
          assert UnitsFor(tail)[i - 1] == vs[1..][i - 1];
        }
      }
    }
  }

  lemma UnitRead(m: Metadata, sequence: nat, v: Unit) returns (u: LogicalUnit)
    requires UnitOk(m, v) && InSigned(sequence, 8)
    ensures UnitOf(u) == v && FrameOk(m, sequence, u)
  {
    hide LogicalOk, Payload;
    IntegerBounds();
    u :| LogicalOk(m, u) && TypeOf(u) == v.kind && Payload(u) == v.payload;
  }

  lemma {:induction false} UnitsUnique(m: Metadata, us: seq<LogicalUnit>, vs: seq<LogicalUnit>)
    requires UnitsFor(us) == UnitsFor(vs)
    requires forall i :: 0 <= i < |us| ==> LogicalOk(m, us[i])
    requires forall i :: 0 <= i < |vs| ==> LogicalOk(m, vs[i])
    ensures us == vs
  {
    hide LogicalOk, Payload;
    forall i | 0 <= i < |us| ensures us[i] == vs[i] {
      assert UnitsFor(us)[i] == UnitsFor(vs)[i];
      PayloadUnique(m, us[i], vs[i]);
    }
  }

  // ---- the generation header ----

  lemma WalMagic()
    ensures Digits(WAL_MAGIC, 8) == Ascii("GSEWAL10")
  {
    var s, t: seq<byte> := [0x47, 0x53, 0x45, 0x57], [0x41, 0x4C, 0x31, 0x30];
    UnsignedOfFour(s);
    UnsignedOfFour(t);
    UnsignedByPlace(s, t);
    FourByteBound();
    assert s + t == Ascii("GSEWAL10");
    DigitsOfUnsigned(s + t);
  }

  lemma HeaderBytesAre(m: Metadata, generation: nat, first: nat)
    requires Eight(m.historyMost) && Eight(m.historyLeast) && Eight(generation) && Eight(first)
    ensures HistoryFits(m) && InUnsigned(generation, 8) && InUnsigned(first, 8)
    ensures WalHeader(m, generation, first) == HeaderBytes(m.historyMost, m.historyLeast, generation, first)
  {
    hide Digits, Checksum, Ascii;
    IntegerBounds();
    WalMagic();
    assert SignedOne() + [0, 0] == [0, 1, 0, 0];
    var d, a, b, g, f := Digits(WAL_MAGIC, 8), Digits(m.historyMost, 8), Digits(m.historyLeast, 8),
      Digits(generation, 8), Digits(first, 8);
    assert d + SignedOne() + [0, 0] + a + b + g + f == d + [0, 1, 0, 0] + a + b + g + f;
  }

  lemma NumberDecodes(s: seq<byte>, n: int)
    requires |s| == 8 && Unsigned(s) == n
    ensures Eight(n) && s == Digits(n, 8)
  {
    DigitsOfUnsigned(s);
    IntegerBounds();
  }

  lemma HeaderDecodes(data: seq<byte>, m: Metadata, generation: int, first: int)
    requires |data| >= WAL_HEADER_BYTES && WalHeaderOk(data, m, generation, first)
    ensures Eight(m.historyMost) && Eight(m.historyLeast) && Eight(generation) && Eight(first)
    ensures data[..48] == HeaderBytes(m.historyMost, m.historyLeast, generation, first)
  {
    hide Digits, Checksum, Ascii, Unsigned, Signed;
    NumberDecodes(data[20..28], m.historyLeast);
    NumberDecodes(data[12..20], m.historyMost);
    NumberDecodes(data[28..36], generation);
    NumberDecodes(data[36..44], first);
    NumberDecodes(data[0..8], WAL_MAGIC);
    WalMagic();
    VersionBytes(data[8..10], 1);
    VersionBytes(data[10..12], 0);
    DigitsOfUnsigned(data[44..48]);
    HeaderPieces(data);
    var a, b, g, f := Digits(m.historyMost, 8), Digits(m.historyLeast, 8), Digits(generation, 8), Digits(first, 8);
    assert data[..44] == Ascii("GSEWAL10") + [0, 1] + [0, 0] + a + b + g + f;
    assert Ascii("GSEWAL10") + [0, 1] + [0, 0] == Ascii("GSEWAL10") + [0, 1, 0, 0];
  }

  lemma HeaderPieces(data: seq<byte>)
    requires |data| >= 48
    ensures data[..44] == data[0..8] + data[8..10] + data[10..12] + data[12..20] + data[20..28] + data[28..36]
                          + data[36..44]
    ensures data[..48] == data[..44] + data[44..48]
  {
  }

  /** The files the inspector accepts with a clean tail are exactly these: the generation header,
      then the frames of well-formed units numbered from `first`, byte for byte. */
  lemma CleanLogsExactly(data: seq<byte>, m: Metadata, generation: int, first: int)
    ensures InspectWal(data, m, generation, first).Some? && InspectWal(data, m, generation, first).value.tail == NoTail
            <==> && Eight(m.historyMost) && Eight(m.historyLeast) && Eight(generation) && Eight(first)
                 && exists us :: FramesOk(m, first, us)
                      && data == HeaderBytes(m.historyMost, m.historyLeast, generation, first) + FramesBytes(first, us)
  {
    hide InspectWal, FramesOk, FramesBytes, WalHeaderOk, HeaderBytes;
    var r := InspectWal(data, m, generation, first);
    if r.Some? && r.value.tail == NoTail {
      AcceptedHeader(data, m, generation, first);
      HeaderDecodes(data, m, generation, first);
      var us := UnitsOfClean(data, m, generation, first);
      assert data == data[..48] + data[48..];
    }
    if Eight(m.historyMost) && Eight(m.historyLeast) && Eight(generation) && Eight(first) {
      forall us | FramesOk(m, first, us)
        && data == HeaderBytes(m.historyMost, m.historyLeast, generation, first) + FramesBytes(first, us)
        ensures r.Some? && r.value.tail == NoTail
      {
        WrittenIsClean(data, m, generation, first, us);
      }
    }
  }

  lemma AcceptedHeader(data: seq<byte>, m: Metadata, generation: int, first: int)
    requires InspectWal(data, m, generation, first).Some?
    ensures |data| >= WAL_HEADER_BYTES && WalHeaderOk(data, m, generation, first)
  {
    hide WalHeaderOk, Scan;
  }

  lemma UnitsOfClean(data: seq<byte>, m: Metadata, generation: int, first: int) returns (us: seq<LogicalUnit>)
    requires |data| >= WAL_HEADER_BYTES && WalHeaderOk(data, m, generation, first) && first >= 0
    requires var r := InspectWal(data, m, generation, first); r.Some? && r.value.tail == NoTail
    ensures FramesOk(m, first, us) && data[48..] == FramesBytes(first, us)
  {
    hide InspectWal, FramesOk, FramesBytes, WalHeaderOk, UnitsOk, EncodeLog;
    CleanLogs(data, m, generation, first);
    var vs :| UnitsOk(m, first, vs) && data[WAL_HEADER_BYTES..] == EncodeLog(m, first, vs);
    us := UnitsRead(m, first, vs);
    FramesWritten(m, first, us);
  }

  lemma WrittenIsClean(data: seq<byte>, m: Metadata, generation: nat, first: nat, us: seq<LogicalUnit>)
    requires Eight(m.historyMost) && Eight(m.historyLeast) && Eight(generation) && Eight(first)
    requires FramesOk(m, first, us)
    requires data == HeaderBytes(m.historyMost, m.historyLeast, generation, first) + FramesBytes(first, us)
    ensures var r := InspectWal(data, m, generation, first); r.Some? && r.value.tail == NoTail
  {
    hide InspectWal, FramesOk, FramesBytes, WalHeaderOk, UnitsOk, EncodeLog, HeaderBytes, WalHeader, Eight, UnitsFor;
    HeaderBytesAre(m, generation, first);
    var h := WalHeader(m, generation, first);
    WalHeaderEncodes(m, generation, first, FramesBytes(first, us));
    FramesWritten(m, first, us);
    assert data[48..] == FramesBytes(first, us);
    assert UnitsOk(m, first, UnitsFor(us)) && data[48..] == EncodeLog(m, first, UnitsFor(us));
    CleanLogs(data, m, generation, first);
  }

  /** A clean log file can be read in one way only. */
  lemma CleanLogsUnique(m: Metadata, generation: nat, first: nat, us: seq<LogicalUnit>, vs: seq<LogicalUnit>)
    requires Eight(m.historyMost) && Eight(m.historyLeast) && Eight(generation) && Eight(first)
    requires FramesOk(m, first, us) && FramesOk(m, first, vs) && FramesBytes(first, us) == FramesBytes(first, vs)
    ensures us == vs
  {
    hide FramesOk, FramesBytes, WalHeaderOk, UnitsOk, EncodeLog, HeaderBytes, WalHeader, Eight, LogicalOk, UnitsFor;
    FramesWritten(m, first, us);
    FramesWritten(m, first, vs);
    HeaderBytesAre(m, generation, first);
    WalHeaderEncodes(m, generation, first, FramesBytes(first, us));
    var data := WalHeader(m, generation, first) + FramesBytes(first, us);
    assert data[48..] == FramesBytes(first, us);
    CleanLogs(data, m, generation, first);
    AllLogical(m, first, us);
    AllLogical(m, first, vs);
    UnitsUnique(m, us, vs);
  }

  lemma AllLogical(m: Metadata, first: int, us: seq<LogicalUnit>)
    requires FramesOk(m, first, us)
    ensures forall i :: 0 <= i < |us| ==> LogicalOk(m, us[i])
  {
    hide LogicalOk;
    forall i | 0 <= i < |us| ensures LogicalOk(m, us[i]) {
      assert FrameOk(m, first + i, us[i]);
    }
  }
}
