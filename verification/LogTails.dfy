/**
 Every accepted log file, torn ones included: complete frames, then nothing, the beginning of a
 frame header, or a complete header whose frame is cut off.
 */
module LogTails {
  import opened Bytes
  import opened Options
  import opened ByteForms
  import opened StorageFiles
  import opened WriteAheadLog
  import opened LogDurability
  import opened LogUnits
  import opened LogGrammar
  import opened LogForms

  /** Fewer than 28 bytes: "GSEF", version (1,0), a frame length, the expected sequence, a unit type
      and zeros, as far as each of these is complete. */
  predicate TornHeader(t: seq<byte>, expected: int) {
    && 0 < |t| < 28
    && (if |t| < 8 then t <= [0x47, 0x53, 0x45, 0x46, 0, 1, 0, 0] else [0x47, 0x53, 0x45, 0x46, 0, 1, 0, 0] <= t)
    && (|t| >= 12 ==> 32 <= Unsigned(t[8..12]) <= 268_435_456)
    && (|t| >= 20 ==> Signed(t[12..20]) == expected)
    && (|t| >= 21 ==> t[20] in {1, 2, 3, 4})
    && (|t| >= 22 ==> t[21] == 0)
    && (|t| >= 24 ==> t[22..24] == [0, 0])
  }

  /** A complete header with any sequence, but fewer bytes than the frame length it gives. */
  predicate TornFrame(t: seq<byte>) {
    && |t| >= 28
    && [0x47, 0x53, 0x45, 0x46, 0, 1, 0, 0] <= t && t[20] in {1, 2, 3, 4} && t[21..24] == [0, 0, 0]
    && |t| < Unsigned(t[8..12]) == Unsigned(t[24..28]) + 32 <= 268_435_456
  }

  // ---- where the loop stops ----

  lemma SmallSignedFour(s: seq<byte>, low: int, high: int)
    requires |s| == 4 && 0 <= low && high < 0x8000_0000
    ensures low <= Signed(s) <= high <==> low <= Unsigned(s) <= high
  {
    FourByteBound();
    DigitsOfUnsigned(s);
  }

  lemma HeaderBegins(t: seq<byte>)
    ensures (forall i :: 0 <= i < |t| && i < 8 ==> t[i] == FRAME_IDENTITY[i])
            <==> if |t| < 8 then t <= [0x47, 0x53, 0x45, 0x46, 0, 1, 0, 0]
                 else [0x47, 0x53, 0x45, 0x46, 0, 1, 0, 0] <= t
  {
    var id: seq<byte> := [0x47, 0x53, 0x45, 0x46, 0, 1, 0, 0];
    assert FRAME_IDENTITY == id;
    if |t| >= 8 && forall i :: 0 <= i < 8 ==> t[i] == id[i] {
      assert t[..8] == id;
    }
    if |t| < 8 && forall i :: 0 <= i < |t| ==> t[i] == id[i] {
      assert t == id[..|t|];
    }
  }

  lemma TornHeaderExactly(t: seq<byte>, expected: int)
    requires 0 < |t| < 28
    ensures IncompleteHeaderOk(t, expected) <==> TornHeader(t, expected)
  {
    hide Signed, Unsigned, FRAME_IDENTITY;
    HeaderBegins(t);
    if |t| >= 12 {
      SmallSignedFour(t[8..12], 32, 268_435_456);
    }
  }

  lemma ByteField(b: byte, n: int)
    requires 0 <= n < 0x80
    ensures Signed([b]) == n <==> b as int == n
  {
    UnsignedByte(b);
    assert Pow256(1) == 256;
  }

  lemma IdentityFields(h: seq<byte>)
    requires |h| == 28
    ensures [0x47, 0x53, 0x45, 0x46, 0, 1, 0, 0] <= h <==>
            Unsigned(h[0..4]) == 0x4753_4546 && Signed(h[4..6]) == 1 && Signed(h[6..8]) == 0
  {
    var id: seq<byte> := [0x47, 0x53, 0x45, 0x46, 0, 1, 0, 0];
    assert h[..8] == h[0..4] + h[4..6] + h[6..8];
    assert id <= h <==> h[..8] == id;
    if h[..8] == id {
      assert h[0..4] == [0x47, 0x53, 0x45, 0x46] && h[4..6] == [0, 1] && h[6..8] == [0, 0];
      UnsignedOfFour(h[0..4]);
      Unsigned2(h[4..6]);
      Unsigned2(h[6..8]);
      assert Pow256(2) == 65536;
    } else if Unsigned(h[0..4]) == 0x4753_4546 && Signed(h[4..6]) == 1 && Signed(h[6..8]) == 0 {
      MagicBytes(h[0..4]);
      VersionBytes(h[4..6], 1);
      VersionBytes(h[6..8], 0);
    }
  }

  lemma TornFrameExactly(t: seq<byte>)
    requires |t| >= 28
    ensures HeaderOk(ReadFrameHeader(t[0..28])) && ReadFrameHeader(t[0..28]).length > |t| <==> TornFrame(t)
  {
    hide Signed, Unsigned;
    var h := t[0..28];
    IdentityFields(h);
    assert h[20..21] == [t[20]] && h[21..22] == [t[21]] && h[22..24] == t[22..24] && h[24..28] == t[24..28];
    assert h[8..12] == t[8..12];
    ByteField(t[20], 1);
    ByteField(t[20], 2);
    ByteField(t[20], 3);
    ByteField(t[20], 4);
    SmallByte(t[20]);
    ByteField(t[21], 0);
    ZeroPair(t[22..24]);
    SmallSignedFour(t[24..28], 0, 268_435_456);
    assert t[21..24] == [t[21]] + t[22..24];
    SignedFourExactly(t[24..28]);
  }

  lemma SmallByte(b: byte)
    ensures 1 <= Signed([b]) <= 4 <==> b in {1, 2, 3, 4}
  {
    UnsignedByte(b);
    assert Pow256(1) == 256;
  }

  lemma ZeroPair(s: seq<byte>)
    requires |s| == 2
    ensures Signed(s) == 0 <==> s == [0, 0]
  {
    Unsigned2(s);
    assert Pow256(2) == 65536;
  }

  lemma SignedFourExactly(s: seq<byte>)
    requires |s| == 4
    ensures 0 <= Signed(s) <= 268_435_456 ==> Signed(s) == Unsigned(s)
    ensures Unsigned(s) <= 268_435_456 ==> Signed(s) == Unsigned(s)
  {
    FourByteBound();
    DigitsOfUnsigned(s);
  }

  lemma StopsExactly(m: Metadata, data: seq<byte>, offset: nat, expected: int)
    requires offset < |data|
    ensures FrameAt(m, data, offset, expected) == Stop(IncompleteHeader) <==> TornHeader(data[offset..], expected)
    ensures FrameAt(m, data, offset, expected) == Stop(IncompleteFrame) <==> TornFrame(data[offset..])
  {
    hide ReadFrameHeader, HeaderOk, IncompleteHeaderOk, CompleteFrameOk, TornHeader, TornFrame;
    var t := data[offset..];
    if |t| < 28 {
      TornHeaderExactly(t, expected);
      assert !TornFrame(t) by { ShortIsNoFrame(t); }
    } else {
      assert data[offset..offset + 28] == t[0..28];
      TornFrameExactly(t);
      assert !TornHeader(t, expected) by { LongIsNoHeader(t, expected); }
    }
  }

  lemma ShortIsNoFrame(t: seq<byte>)
    requires |t| < 28
    ensures !TornFrame(t)
  {
  }

  lemma LongIsNoHeader(t: seq<byte>, expected: int)
    requires |t| >= 28
    ensures !TornHeader(t, expected)
  {
  }

  // ---- from the frames to the tail ----

  /** What the report lists for a frame. */
  function InfoOf(offset: nat, sequence: nat, u: LogicalUnit): FrameInfo {
    FrameInfo(sequence, TypeOf(u), |Payload(u)|, offset, |Payload(u)| + 32)
  }

  function InfosOf(offset: nat, first: nat, us: seq<LogicalUnit>): seq<FrameInfo>
    decreases |us|
  {
    if us == [] then []
    else [InfoOf(offset, first, us[0])] + InfosOf(offset + |Payload(us[0])| + 32, first + 1, us[1..])
  }

  lemma ScanStep(m: Metadata, data: seq<byte>, offset: nat, first: nat)
    requires offset < |data| && FrameAt(m, data, offset, first).Next?
    ensures var f := FrameAt(m, data, offset, first).frame;
            Scan(m, data, offset, first) == Prefixed(f, Scan(m, data, f.End(), first + 1))
  {
    hide ReadFrameHeader, HeaderOk, IncompleteHeaderOk, CompleteFrameOk;
  }

  lemma FrameSize(sequence: nat, u: LogicalUnit)
    ensures |FrameBytes(sequence, u)| == |Payload(u)| + 32
  {
    hide Payload;
  }

  lemma StepOver(m: Metadata, data: seq<byte>, offset: nat, first: nat, u: LogicalUnit, rest: seq<byte>)
    requires offset <= |data| && FrameOk(m, first, u) && data[offset..] == FrameBytes(first, u) + rest
    ensures var end := offset + |Payload(u)| + 32;
            && end <= |data| && data[end..] == rest
            && Scan(m, data, offset, first) == Prefixed(InfoOf(offset, first, u), Scan(m, data, end, first + 1))
  {
    hide FrameAt, FrameBytes, FrameOk, EncodeFrame, Scan, UnitOk, InSigned, Payload, TypeOf;
    FrameSize(first, u);
    SplitAt(data, offset, FrameBytes(first, u), rest);
    FrameWritten(m, first, u);
    FrameEncodes(m, data, offset, first, UnitOf(u));
    ScanStep(m, data, offset, first);
  }

  lemma PrefixedMore(f: FrameInfo, fs: seq<FrameInfo>, r: Option<Frames>)
    ensures PrefixedAll([f] + fs, r) == Prefixed(f, PrefixedAll(fs, r))
  {
    if r.Some? {
      assert [f] + fs + r.value.frames == [f] + (fs + r.value.frames);
    }
  }

  lemma {:induction false} ScanIntoTail(m: Metadata, data: seq<byte>, offset: nat, first: nat, us: seq<LogicalUnit>,
      t: seq<byte>)
    requires offset <= |data| && FramesOk(m, first, us) && data[offset..] == FramesBytes(first, us) + t
    ensures var end := offset + |FramesBytes(first, us)|;
            && end <= |data| && data[end..] == t
            && Scan(m, data, offset, first)
               == PrefixedAll(InfosOf(offset, first, us), Scan(m, data, end, first + |us|))
    decreases |us|
  {
    hide FrameBytes, FrameOk, FramesOk, Scan, Payload, InfoOf, Prefixed, PrefixedAll;
    if us == [] {
      assert [] + t == t;
      PrefixedAllNothing(Scan(m, data, offset, first));
    } else {
      var e, more := FrameBytes(first, us[0]), FramesBytes(first + 1, us[1..]);
      FramesOkTail(m, first, us);
      assert FramesBytes(first, us) + t == e + (more + t);
      FrameSize(first, us[0]);
      StepOver(m, data, offset, first, us[0], more + t);
      var next := offset + |Payload(us[0])| + 32;
      ScanIntoTail(m, data, next, first + 1, us[1..], t);
      PrefixedMore(InfoOf(offset, first, us[0]), InfosOf(next, first + 1, us[1..]),
        Scan(m, data, next + |more|, first + 1 + |us[1..]|));
    }
  }

  /** How the loop ended: with nothing left, or stopped by what is left. */
  ghost predicate EndsWith(m: Metadata, data: seq<byte>, t: seq<byte>, expected: int, tail: Tail) {
    |t| <= |data| && data[|data| - |t|..] == t
    && if tail == NoTail then t == [] else t != [] && FrameAt(m, data, |data| - |t|, expected) == Stop(tail)
  }

  lemma ScanEnds(m: Metadata, data: seq<byte>, offset: nat, first: nat)
    requires offset <= |data| && Scan(m, data, offset, first).Some?
    requires offset == |data| || !FrameAt(m, data, offset, first).Next?
    ensures EndsWith(m, data, data[offset..], first, Scan(m, data, offset, first).value.tail)
  {
    hide ReadFrameHeader, HeaderOk, IncompleteHeaderOk, CompleteFrameOk;
  }

  /** The first frame of an accepted log, as a unit. */
  lemma FirstUnit(m: Metadata, data: seq<byte>, offset: nat, first: nat) returns (u: LogicalUnit, end: nat)
    requires offset < |data| && FrameAt(m, data, offset, first).Next?
    ensures end == FrameAt(m, data, offset, first).frame.End() && offset < end <= |data|
    ensures FrameOk(m, first, u) && data[offset..end] == FrameBytes(first, u)
  {
    hide FrameBytes, FrameOk, UnitOf;
    var f := FrameAt(m, data, offset, first).frame;
    end := f.End();
    FrameDecodes(m, data, offset, first);
    hide FrameAt;
    u := UnitRead(m, first, UnitAt(data, f));
    FrameWritten(m, first, u);
  }

  lemma {:induction false} TailOfScan(m: Metadata, data: seq<byte>, offset: nat, first: nat)
    returns (us: seq<LogicalUnit>, t: seq<byte>)
    requires offset <= |data| && Scan(m, data, offset, first).Some?
    ensures FramesOk(m, first, us) && data[offset..] == FramesBytes(first, us) + t
    ensures EndsWith(m, data, t, first + |us|, Scan(m, data, offset, first).value.tail)
    decreases |data| - offset
  {
    hide FrameAt, FrameBytes, FrameOk, FramesOk, Scan, EndsWith;
    if offset < |data| && FrameAt(m, data, offset, first).Next? {
      var u, end := FirstUnit(m, data, offset, first);
      ScanStep(m, data, offset, first);
      var more: seq<LogicalUnit>;
      more, t := TailOfScan(m, data, end, first + 1);
      us := [u] + more;
      FramesOkCons(m, first, u, more);
      assert us[1..] == more;
      var e := FrameBytes(first, u);
      assert data[offset..] == data[offset..end] + data[end..];
      assert e + (FramesBytes(first + 1, more) + t) == e + FramesBytes(first + 1, more) + t;
    } else {
      us, t := [], data[offset..];
      ScanEnds(m, data, offset, first);
      NoFrames(m, first);
      assert [] + t == t;
    }
  }

  lemma NoFrames(m: Metadata, first: nat)
    ensures FramesOk(m, first, [])
  {
  }

  lemma FramesOkCons(m: Metadata, first: nat, u: LogicalUnit, us: seq<LogicalUnit>)
    requires FrameOk(m, first, u) && FramesOk(m, first + 1, us)
    ensures FramesOk(m, first, [u] + us)
  {
    hide FrameOk;
    var all := [u] + us;
    forall i | 0 <= i < |all| ensures FrameOk(m, first + i, all[i]) {
      if i > 0 {
        assert FrameOk(m, first + 1 + (i - 1), us[i - 1]);
      }
    }
  }

  /** What may follow the complete frames. */
  predicate TailOk(t: seq<byte>, expected: int) { t == [] || TornHeader(t, expected) || TornFrame(t) }

  /** The tail that the report names. */
  function TailOf(t: seq<byte>): Tail {
    if t == [] then NoTail else if |t| < 28 then IncompleteHeader else IncompleteFrame
  }

  lemma ScanOfTail(m: Metadata, data: seq<byte>, end: nat, expected: int, t: seq<byte>)
    requires end <= |data| && data[end..] == t && TailOk(t, expected)
    ensures Scan(m, data, end, expected) == Some(Frames([], end, TailOf(t)))
  {
    hide FrameAt, TornHeader, TornFrame;
    if t != [] {
      StopsExactly(m, data, end, expected);
      if |t| < 28 {
        ShortIsNoFrame(t);
      } else {
        LongIsNoHeader(t, expected);
      }
    }
  }

  /** The inspector accepts a file exactly when it is the generation header, frames of well-formed
      units numbered from `first`, and a possibly torn tail; and this is what it reports. */
  lemma AcceptedLogsExactly(data: seq<byte>, m: Metadata, generation: int, first: int)
    ensures InspectWal(data, m, generation, first).Some? <==>
            && Eight(m.historyMost) && Eight(m.historyLeast) && Eight(generation) && Eight(first)
            && exists us, t :: Accepted(m, data, generation, first, us, t)
    ensures Eight(m.historyMost) && Eight(m.historyLeast) && Eight(generation) && Eight(first) ==>
            forall us, t :: Accepted(m, data, generation, first, us, t) ==>
              InspectWal(data, m, generation, first) ==
                Some(WalReport(generation, first, InfosOf(48, first, us), first + |us| - 1,
                               48 + |FramesBytes(first, us)|, TailOf(t), |data|))
  {
    hide InspectWal, Accepted, InfosOf, TailOf;
    if InspectWal(data, m, generation, first).Some? {
      AcceptedHeader(data, m, generation, first);
      HeaderDecodes(data, m, generation, first);
      var us, t := PartsOfLog(data, m, generation, first);
    }
    if Eight(m.historyMost) && Eight(m.historyLeast) && Eight(generation) && Eight(first) {
      forall us, t | Accepted(m, data, generation, first, us, t)
        ensures InspectWal(data, m, generation, first) ==
                Some(WalReport(generation, first, InfosOf(48, first, us), first + |us| - 1,
                               48 + |FramesBytes(first, us)|, TailOf(t), |data|))
      {
        PartsAreAccepted(data, m, generation, first, us, t);
      }
    }
  }

  predicate Accepted(m: Metadata, data: seq<byte>, generation: nat, first: nat, us: seq<LogicalUnit>, t: seq<byte>)
    requires Eight(m.historyMost) && Eight(m.historyLeast)
  {
    && FramesOk(m, first, us) && TailOk(t, first + |us|)
    && data == HeaderBytes(m.historyMost, m.historyLeast, generation, first) + (FramesBytes(first, us) + t)
  }

  lemma PartsOfLog(data: seq<byte>, m: Metadata, generation: nat, first: nat)
    returns (us: seq<LogicalUnit>, t: seq<byte>)
    requires InspectWal(data, m, generation, first).Some?
    ensures Eight(m.historyMost) && Eight(m.historyLeast)
    ensures Accepted(m, data, generation, first, us, t)
  {
    hide Scan, FrameAt, WalHeaderOk, HeaderBytes, FramesOk, FramesBytes, TailOk, Eight, TornHeader, TornFrame;
    AcceptedHeader(data, m, generation, first);
    HeaderDecodes(data, m, generation, first);
    us, t := TailOfScan(m, data, 48, first);
    assert data == data[..48] + data[48..];
    TailIsOk(m, data, t, first + |us|, Scan(m, data, 48, first).value.tail);
  }

  lemma TailIsOk(m: Metadata, data: seq<byte>, t: seq<byte>, expected: int, tail: Tail)
    requires EndsWith(m, data, t, expected, tail)
    ensures TailOk(t, expected) && TailOf(t) == tail
  {
    hide FrameAt, TornHeader, TornFrame;
    if t != [] {
      StopsExactly(m, data, |data| - |t|, expected);
      if |t| < 28 {
        ShortIsNoFrame(t);
      } else {
        LongIsNoHeader(t, expected);
      }
    }
  }

  lemma PartsAreAccepted(data: seq<byte>, m: Metadata, generation: nat, first: nat, us: seq<LogicalUnit>, t: seq<byte>)
    requires Eight(m.historyMost) && Eight(m.historyLeast) && Eight(generation) && Eight(first)
    requires Accepted(m, data, generation, first, us, t)
    ensures InspectWal(data, m, generation, first) ==
            Some(WalReport(generation, first, InfosOf(48, first, us), first + |us| - 1, 48 + |FramesBytes(first, us)|,
                           TailOf(t), |data|))
  {
    hide Scan, WalHeaderOk, HeaderBytes, WalHeader, FramesOk, FramesBytes, TailOk, Eight, InfosOf, TailOf;
    HeaderBytesAre(m, generation, first);
    WalHeaderEncodes(m, generation, first, FramesBytes(first, us) + t);
    assert data[48..] == FramesBytes(first, us) + t;
    ScanIntoTail(m, data, 48, first, us, t);
    ScanOfTail(m, data, 48 + |FramesBytes(first, us)|, first + |us|, t);
    InfosSize(48, first, us);
    assert InfosOf(48, first, us) + [] == InfosOf(48, first, us);
  }

  lemma {:induction false} InfosSize(offset: nat, first: nat, us: seq<LogicalUnit>)
    ensures |InfosOf(offset, first, us)| == |us|
    decreases |us|
  {
    hide Payload, InfoOf;
    if us != [] {
      InfosSize(offset + |Payload(us[0])| + 32, first + 1, us[1..]);
    }
  }
}
