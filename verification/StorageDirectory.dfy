/**
 The directory-level inspector: how WAL generations chain into one durable history, and what
 may be deleted once a checkpoint is authoritative.
 */
module StorageDirectory {
  import opened Bytes
  import opened Options
  import opened SortedSets
  import opened StorageFiles
  import opened WriteAheadLog
  import opened LogDurability

  /** A regular file, by what its name pattern captures. */
  datatype Name =
    | Lock | MetadataFile | MetadataStaging | ManifestFile | ManifestStaging
    | Wal(generation: nat)
    | CheckpointFile(file: seq<byte>)
    | CheckpointStaging(file: seq<byte>)
    | Unknown(file: seq<byte>)
  {
    predicate IsStaging() { MetadataStaging? || ManifestStaging? || CheckpointStaging? }
  }

  type Directory = map<Name, seq<byte>>

  datatype Inspection = Inspection(
    metadata: Metadata, manifest: Option<Manifest>, checkpoint: Option<Checkpoint>,
    wals: seq<WalReport>, durableSequence: int)

  // ---- generations ----

  function Generations(dir: Directory): set<nat> { set n | n in dir && n.Wal? :: n.generation }

  // ---- the inspector ----

  /** The checks on the leading generation, or on a later one against its predecessor:
      `previous` holds the predecessor's generation and the sequence due next. */
  predicate LinkOk(manifest: Option<Manifest>, previous: Option<(nat, int)>, generation: nat, first: int) {
    match previous
    case None =>
      && (generation == 1 ==> first == 1)
      && (generation != 1 ==> manifest.Some? && generation <= manifest.value.walGeneration)
    case Some((before, due)) => generation == before + 1 && first == due
  }

  function FirstField(data: seq<byte>): int
    requires |data| >= WAL_HEADER_BYTES
  {
    Unsigned(data[36..44])
  }

  function InspectLink(m: Metadata, manifest: Option<Manifest>, data: seq<byte>, generation: nat,
      previous: Option<(nat, int)>): Option<WalReport> {
    if |data| < WAL_HEADER_BYTES || !LinkOk(manifest, previous, generation, FirstField(data)) then None
    else InspectWal(data, m, generation, FirstField(data))
  }

  function InspectChain(m: Metadata, manifest: Option<Manifest>, dir: Directory, gens: seq<nat>,
      previous: Option<(nat, int)>): Option<seq<WalReport>>
    requires forall g :: g in gens ==> Wal(g) in dir
  {
    if gens == [] then Some([])
    else
      match InspectLink(m, manifest, dir[Wal(gens[0])], gens[0], previous)
      case None => None
      case Some(r) =>
        match InspectChain(m, manifest, dir, gens[1..], Some((gens[0], r.lastSequence + 1)))
        case None => None
        case Some(rs) => Some([r] + rs)
  }

  predicate BoundaryOk(manifest: Manifest, wals: seq<WalReport>) {
    exists i :: 0 <= i < |wals| && wals[i].generation == manifest.walGeneration
      && wals[i].firstSequence == manifest.walFirstSequence
  }

  function MaxLast(wals: seq<WalReport>, floor: int): int {
    if wals == [] then floor
    else var rest := MaxLast(wals[1..], floor); if wals[0].lastSequence > rest then wals[0].lastSequence else rest
  }

  function InspectAuthority(dir: Directory, m: Metadata): Option<(Option<Manifest>, Option<Checkpoint>)> {
    if ManifestFile !in dir then Some((None, None))
    else
      match InspectManifest(dir[ManifestFile], m)
      case None => None
      case Some(man) =>
        var name := CheckpointFile(man.checkpointFile);
        if name !in dir then None
        else
          match InspectCheckpoint(dir[name], m, man)
          case None => None
          case Some(c) => Some((Some(man), Some(c)))
  }

  function InspectDirectory(dir: Directory): Option<Inspection> {
    if (exists n :: n in dir && n.Unknown?) || MetadataFile !in dir || Generations(dir) == {} then None
    else
      match InspectMetadata(dir[MetadataFile])
      case None => None
      case Some(m) =>
        match InspectAuthority(dir, m)
        case None => None
        case Some((manifest, checkpoint)) =>
          match InspectChain(m, manifest, dir, Sorted(Generations(dir)), None)
          case None => None
          case Some(wals) =>
            if manifest.Some? && !BoundaryOk(manifest.value, wals) then None
            else Some(Inspection(m, manifest, checkpoint, wals,
                                 MaxLast(wals, if manifest.Some? then manifest.value.checkpointSequence else 0)))
  }

  /** The loop over the sorted generations. */
  method InspectGenerations(m: Metadata, manifest: Option<Manifest>, dir: Directory, gens: seq<nat>)
    returns (r: Option<seq<WalReport>>)
    requires forall g :: g in gens ==> Wal(g) in dir
    ensures r == InspectChain(m, manifest, dir, gens, None)
  {
    hide InspectWal;
    var wals: seq<WalReport> := [];
    var previousGeneration: Option<nat>, expectedFirst: int := None, 0;
    assert gens[0..] == gens;
    JoinedNothing(InspectChain(m, manifest, dir, gens, None));
    for i := 0 to |gens|
      invariant InspectChain(m, manifest, dir, gens, None)
                == Joined(wals, InspectChain(m, manifest, dir, gens[i..], Previous(previousGeneration, expectedFirst)))
    {
      var generation, data := gens[i], dir[Wal(gens[i])];
      assert gens[i..][0] == gens[i] && gens[i..][1..] == gens[i + 1..];
      if previousGeneration.Some? && generation != previousGeneration.value + 1 { return None; }
      if |data| < WAL_HEADER_BYTES { return None; }
      var first := FirstField(data);
      if previousGeneration.None? {
        if generation == 1 && first != 1 { return None; }
        if generation != 1 && (manifest.None? || generation > manifest.value.walGeneration) { return None; }
      } else if first != expectedFirst {
        return None;
      }
      var inspected := InspectWalFile(data, m, generation, first);
      if inspected.None? { return None; }
      JoinedStep(wals, inspected.value,
                 InspectChain(m, manifest, dir, gens[i + 1..], Some((generation, inspected.value.lastSequence + 1))));
      wals := wals + [inspected.value];
      previousGeneration, expectedFirst := Some(generation), inspected.value.lastSequence + 1;
    }
    assert wals + [] == wals;
    r := Some(wals);
  }

  /** The whole inspection: names, metadata, authority, generations, boundary and maximum. */
  method InspectPhase4Directory(dir: Directory) returns (r: Option<Inspection>)
    ensures r == InspectDirectory(dir)
  {
    hide InspectMetadata, InspectManifest, InspectCheckpoint, InspectChain, Sorted;
    if exists n :: n in dir && n.Unknown? { return None; }
    if MetadataFile !in dir || Generations(dir) == {} { return None; }
    var metadata := InspectMetadataFile(dir[MetadataFile]);
    if metadata.None? { return None; }
    var manifest, checkpoint := None, None;
    if ManifestFile in dir {
      manifest := InspectManifestFile(dir[ManifestFile], metadata.value);
      if manifest.None? || CheckpointFile(manifest.value.checkpointFile) !in dir { return None; }
      checkpoint := InspectCheckpointFile(dir[CheckpointFile(manifest.value.checkpointFile)], metadata.value,
        manifest.value);
      if checkpoint.None? { return None; }
    }
    var wals := InspectGenerations(metadata.value, manifest, dir, Sorted(Generations(dir)));
    if wals.None? || (manifest.Some? && !BoundaryOk(manifest.value, wals.value)) { return None; }
    var floor := if manifest.Some? then manifest.value.checkpointSequence else 0;
    var durableSequence := floor;
    for i := 0 to |wals.value|
      invariant MaxLast(wals.value, floor) == MaxLast(wals.value[i..], durableSequence)
    {
      MaxLastRaise(wals.value[i + 1..], wals.value[i].lastSequence, durableSequence);
      assert wals.value[i..][1..] == wals.value[i + 1..];
      if wals.value[i].lastSequence > durableSequence { durableSequence := wals.value[i].lastSequence; }
    }
    r := Some(Inspection(metadata.value, manifest, checkpoint, wals.value, durableSequence));
  }

  /** Raising the floor raises the maximum no further than that. */
  lemma {:induction false} MaxLastRaise(wals: seq<WalReport>, a: int, floor: int)
    ensures var m := MaxLast(wals, floor); MaxLast(wals, if a > floor then a else floor) == if a > m then a else m
  {
    if wals != [] {
      MaxLastRaise(wals[1..], a, floor);
    }
  }

  ghost function Previous(generation: Option<nat>, due: int): Option<(nat, int)> {
    if generation.None? then None else Some((generation.value, due))
  }

  ghost function Joined(done: seq<WalReport>, rest: Option<seq<WalReport>>): Option<seq<WalReport>> {
    match rest
    case None => None
    case Some(more) => Some(done + more)
  }

  lemma JoinedNothing(rest: Option<seq<WalReport>>)
    ensures Joined([], rest) == rest
  {
    if rest.Some? {
      assert [] + rest.value == rest.value;
    }
  }

  lemma JoinedStep(done: seq<WalReport>, r: WalReport, rest: Option<seq<WalReport>>)
    ensures Joined(done + [r], rest) == Joined(done, Joined([r], rest))
  {
    if rest.Some? {
      assert done + [r] + rest.value == done + ([r] + rest.value);
    }
  }

  // ---- chaining ----

  /** Consecutive generations, each continuing the sequence of the one before. */
  ghost predicate Chained(wals: seq<WalReport>) {
    && (forall i :: 0 <= i < |wals| ==>
          && wals[i].lastSequence == wals[i].firstSequence + |wals[i].frames| - 1
          && forall j :: 0 <= j < |wals[i].frames| ==> wals[i].frames[j].sequence == wals[i].firstSequence + j)
    && (forall i :: 0 < i < |wals| ==>
          && wals[i].generation == wals[i - 1].generation + 1
          && wals[i].firstSequence == wals[i - 1].lastSequence + 1)
  }

  lemma LinkShape(m: Metadata, manifest: Option<Manifest>, data: seq<byte>, generation: nat,
      previous: Option<(nat, int)>)
    requires InspectLink(m, manifest, data, generation, previous).Some?
    ensures var r := InspectLink(m, manifest, data, generation, previous).value;
            && r.generation == generation && LinkOk(manifest, previous, generation, r.firstSequence)
            && r.lastSequence == r.firstSequence + |r.frames| - 1
            && forall j :: 0 <= j < |r.frames| ==> r.frames[j].sequence == r.firstSequence + j
  {
    ScanShape(m, data, WAL_HEADER_BYTES, FirstField(data));
  }

  lemma NoneChained()
    ensures Chained([])
  {
  }

  lemma ChainedCons(r: WalReport, rest: seq<WalReport>)
    requires r.lastSequence == r.firstSequence + |r.frames| - 1
    requires forall j :: 0 <= j < |r.frames| ==> r.frames[j].sequence == r.firstSequence + j
    requires Chained(rest)
    requires rest != [] ==> rest[0].generation == r.generation + 1 && rest[0].firstSequence == r.lastSequence + 1
    ensures Chained([r] + rest)
  {
    var wals := [r] + rest;
    forall i | 0 < i < |wals|
      ensures wals[i].generation == wals[i - 1].generation + 1 && wals[i].firstSequence == wals[i - 1].lastSequence + 1
    {
      assert wals[i] == rest[i - 1];
      if i > 1 {
        assert wals[i - 1] == rest[i - 1 - 1];
      }
    }
  }

  lemma {:induction false} ChainIsChained(m: Metadata, manifest: Option<Manifest>, dir: Directory, gens: seq<nat>,
      previous: Option<(nat, int)>)
    requires forall g :: g in gens ==> Wal(g) in dir
    requires InspectChain(m, manifest, dir, gens, previous).Some?
    ensures var wals := InspectChain(m, manifest, dir, gens, previous).value;
            && |wals| == |gens| && (forall i :: 0 <= i < |wals| ==> wals[i].generation == gens[i])
            && Chained(wals)
            && (gens != [] ==> LinkOk(manifest, previous, gens[0], wals[0].firstSequence))
    decreases |gens|
  {
    hide InspectLink, Chained;
    if gens == [] {
      NoneChained();
    } else {
      var data := dir[Wal(gens[0])];
      var r := InspectLink(m, manifest, data, gens[0], previous).value;
      LinkShape(m, manifest, data, gens[0], previous);
      ChainIsChained(m, manifest, dir, gens[1..], Some((gens[0], r.lastSequence + 1)));
      ChainedCons(r, InspectChain(m, manifest, dir, gens[1..], Some((gens[0], r.lastSequence + 1))).value);
    }
  }

  /** The frames of all generations, oldest first. */
  function AllFrames(wals: seq<WalReport>): seq<FrameInfo> {
    if wals == [] then [] else wals[0].frames + AllFrames(wals[1..])
  }

  /** The frames of a chain are one gap-free run of sequences. */
  lemma {:induction false} FramesAreOneRun(wals: seq<WalReport>)
    requires wals != [] && Chained(wals)
    ensures |AllFrames(wals)| == wals[|wals| - 1].lastSequence - wals[0].firstSequence + 1
    ensures forall k :: 0 <= k < |AllFrames(wals)| ==> AllFrames(wals)[k].sequence == wals[0].firstSequence + k
    decreases |wals|
  {
    if |wals| > 1 {
      FramesAreOneRun(wals[1..]);
    } else {
      assert AllFrames(wals[1..]) == [];
    }
  }

  lemma {:induction false} MaxLastIsLast(wals: seq<WalReport>, floor: int)
    requires wals != [] && Chained(wals) && floor <= wals[|wals| - 1].lastSequence
    ensures MaxLast(wals, floor) == wals[|wals| - 1].lastSequence
    ensures wals[0].firstSequence - 1 <= wals[|wals| - 1].lastSequence
    decreases |wals|
  {
    if |wals| > 1 {
      MaxLastIsLast(wals[1..], floor);
    } else {
      assert MaxLast(wals[1..], floor) == floor;
    }
  }

  lemma ChainedSuffix(wals: seq<WalReport>, b: nat)
    requires Chained(wals) && b <= |wals|
    ensures Chained(wals[b..])
  {
    forall i | 0 < i < |wals[b..]|
      ensures wals[b..][i].generation == wals[b..][i - 1].generation + 1
              && wals[b..][i].firstSequence == wals[b..][i - 1].lastSequence + 1
    {
      assert wals[b..][i] == wals[b + i] && wals[b..][i - 1] == wals[b + i - 1];
    }
  }

  /** What acceptance says about the generations and the manifest. */
  ghost predicate ChainFacts(r: Inspection, gens: seq<nat>) {
    && gens != [] && |gens| == |r.wals| && Chained(r.wals)
    && (forall i :: 0 <= i < |gens| ==> r.wals[i].generation == gens[i] == gens[0] + i)
    && LinkOk(r.manifest, None, gens[0], r.wals[0].firstSequence)
    && (r.manifest.Some? ==> r.manifest.value.walGeneration > 1 && BoundaryOk(r.manifest.value, r.wals))
  }

  lemma AcceptedFacts(dir: Directory, r: Inspection)
    requires InspectDirectory(dir) == Some(r)
    ensures ChainFacts(r, Sorted(Generations(dir)))
    ensures InspectChain(r.metadata, r.manifest, dir, Sorted(Generations(dir)), None) == Some(r.wals)
  {
    hide InspectMetadata, InspectManifest, InspectCheckpoint, InspectLink, MaxLast, Chained, LinkOk, BoundaryOk, Sorted;
    var gens := Sorted(Generations(dir));
    SortedNotEmpty(Generations(dir));
    ChainIsChained(r.metadata, r.manifest, dir, gens, None);
    Consecutive(r.wals, |r.wals|);
    if r.manifest.Some? {
      ManifestLinks(dir[ManifestFile], r.metadata);
    }
  }

  lemma {:induction false} Consecutive(wals: seq<WalReport>, n: nat)
    requires Chained(wals) && n <= |wals|
    ensures forall i :: 0 <= i < n ==> wals[i].generation == wals[0].generation + i
    decreases n
  {
    if n > 1 {
      Consecutive(wals, n - 1);
      assert wals[n - 1].generation == wals[n - 1 - 1].generation + 1;
    }
  }

  function Floor(r: Inspection): int { if r.manifest.Some? then r.manifest.value.checkpointSequence else 0 }

  lemma DurableIsMax(dir: Directory, r: Inspection)
    requires InspectDirectory(dir) == Some(r)
    ensures r.durableSequence == MaxLast(r.wals, Floor(r))
  {
    hide InspectMetadata, InspectAuthority, InspectChain, Generations, Sorted, MaxLast;
  }

  /** The checkpoint is not ahead of the log. */
  lemma FloorIsBelow(dir: Directory, r: Inspection)
    requires InspectDirectory(dir) == Some(r)
    ensures r.wals != [] && Chained(r.wals) && Floor(r) <= r.wals[|r.wals| - 1].lastSequence
  {
    hide InspectDirectory, Generations, Sorted, Chained, InspectChain;
    AcceptedFacts(dir, r);
    SuffixNotBelow(r.wals);
    if r.manifest.Some? {
      var b := Boundary(dir);
      ChainedSuffix(r.wals, b);
      SuffixNotBelow(r.wals[b..]);
      ManifestSequences(dir, r);
    }
  }

  /** An accepted directory holds one durable history: consecutive generations whose frames
      are the sequences from the first generation's first one up to `durableSequence`, without
      gap or repetition. */
  lemma DurableHistory(dir: Directory)
    requires InspectDirectory(dir).Some?
    ensures var r := InspectDirectory(dir).value;
            && r.wals != [] && Chained(r.wals)
            && r.durableSequence == r.wals[|r.wals| - 1].lastSequence
            && |AllFrames(r.wals)| == r.durableSequence - r.wals[0].firstSequence + 1
            && (forall k :: 0 <= k < |AllFrames(r.wals)| ==>
                  AllFrames(r.wals)[k].sequence == r.wals[0].firstSequence + k)
  {
    hide InspectDirectory, Chained, MaxLast, AllFrames;
    var r := InspectDirectory(dir).value;
    FloorIsBelow(dir, r);
    DurableIsMax(dir, r);
    FramesAreOneRun(r.wals);
    MaxLastIsLast(r.wals, Floor(r));
  }

  lemma ManifestSequences(dir: Directory, r: Inspection)
    requires InspectDirectory(dir) == Some(r) && r.manifest.Some?
    ensures r.manifest.value.walFirstSequence == r.manifest.value.checkpointSequence + 1
  {
    hide InspectMetadata, InspectCheckpoint, InspectChain, Generations, Sorted;
    ManifestLinks(dir[ManifestFile], r.metadata);
  }

  lemma {:induction false} SuffixNotBelow(wals: seq<WalReport>)
    requires wals != [] && Chained(wals)
    ensures wals[0].firstSequence - 1 <= wals[|wals| - 1].lastSequence
    decreases |wals|
  {
    if |wals| > 1 {
      ChainedSuffix(wals, 1);
      SuffixNotBelow(wals[1..]);
    }
  }

  lemma ManifestLinks(data: seq<byte>, m: Metadata)
    requires InspectManifest(data, m).Some?
    ensures InspectManifest(data, m).value.walFirstSequence == InspectManifest(data, m).value.checkpointSequence + 1
    ensures InspectManifest(data, m).value.walGeneration > 1
  {
  }

  /** The index of the manifest's boundary generation. */
  ghost function Boundary(dir: Directory): (b: nat)
    requires InspectDirectory(dir).Some? && InspectDirectory(dir).value.manifest.Some?
    ensures var r := InspectDirectory(dir).value;
            b < |r.wals| && r.wals[b].generation == r.manifest.value.walGeneration
              && r.wals[b].firstSequence == r.manifest.value.walFirstSequence
  {
    var r := InspectDirectory(dir).value;
    var b :| 0 <= b < |r.wals| && r.wals[b].generation == r.manifest.value.walGeneration
      && r.wals[b].firstSequence == r.manifest.value.walFirstSequence;
    b
  }

  /** With an authoritative checkpoint, the frames from its boundary generation on are exactly
      the sequences after the checkpoint, up to `durableSequence`. */
  lemma ReplayAfterCheckpoint(dir: Directory)
    requires InspectDirectory(dir).Some? && InspectDirectory(dir).value.manifest.Some?
    ensures var r := InspectDirectory(dir).value;
            var replay := AllFrames(r.wals[Boundary(dir)..]);
            && |replay| == r.durableSequence - r.manifest.value.checkpointSequence
            && forall k :: 0 <= k < |replay| ==> replay[k].sequence == r.manifest.value.checkpointSequence + 1 + k
  {
    var r := InspectDirectory(dir).value;
    DurableHistory(dir);
    ChainedSuffix(r.wals, Boundary(dir));
    FramesAreOneRun(r.wals[Boundary(dir)..]);
    ManifestLinks(dir[ManifestFile], r.metadata);
  }

  // ---- safe cleanup ----

  /** The chain from a later generation on, in a directory that still has those generations. */
  lemma {:induction false} ChainSuffix(m: Metadata, manifest: Option<Manifest>, dir: Directory, kept: Directory,
      gens: seq<nat>, previous: Option<(nat, int)>, j: nat)
    requires forall g :: g in gens ==> Wal(g) in dir
    requires InspectChain(m, manifest, dir, gens, previous).Some? && 0 < j <= |gens|
    requires forall g :: g in gens[j..] ==> Wal(g) in kept && kept[Wal(g)] == dir[Wal(g)]
    ensures var wals := InspectChain(m, manifest, dir, gens, previous).value;
            && |wals| == |gens|
            && InspectChain(m, manifest, kept, gens[j..], Some((gens[j - 1], wals[j - 1].lastSequence + 1)))
               == Some(wals[j..])
    decreases |gens|
  {
    hide InspectLink, LinkOk, Chained;
    var r := InspectLink(m, manifest, dir[Wal(gens[0])], gens[0], previous).value;
    var next := Some((gens[0], r.lastSequence + 1));
    var tail := InspectChain(m, manifest, dir, gens[1..], next).value;
    assert InspectChain(m, manifest, dir, gens, previous).value == [r] + tail;
    hide InspectChain;
    assert gens[j..] == gens[1..][j - 1..];
    if j == 1 {
      ChainIsChained(m, manifest, dir, gens[1..], next);
      ChainAgrees(m, manifest, dir, kept, gens[1..], next);
      assert ([r] + tail)[1..] == tail;
    } else {
      ChainSuffix(m, manifest, dir, kept, gens[1..], next, j - 1);
      assert ([r] + tail)[j..] == tail[j - 1..];
    }
  }

  lemma {:induction false} ChainAgrees(m: Metadata, manifest: Option<Manifest>, dir: Directory, kept: Directory,
      gens: seq<nat>, previous: Option<(nat, int)>)
    requires forall g :: g in gens ==> Wal(g) in dir && Wal(g) in kept && kept[Wal(g)] == dir[Wal(g)]
    ensures InspectChain(m, manifest, dir, gens, previous) == InspectChain(m, manifest, kept, gens, previous)
    decreases |gens|
  {
    hide InspectLink;
    if gens != [] {
      var link := InspectLink(m, manifest, dir[Wal(gens[0])], gens[0], previous);
      if link.Some? {
        ChainAgrees(m, manifest, dir, kept, gens[1..], Some((gens[0], link.value.lastSequence + 1)));
      }
    }
  }

  /** Promoting a later generation to the front changes only the check on the link. */
  lemma ChainPromoted(m: Metadata, manifest: Option<Manifest>, dir: Directory, gens: seq<nat>, previous: (nat, int))
    requires gens != [] && forall g :: g in gens ==> Wal(g) in dir
    requires InspectChain(m, manifest, dir, gens, Some(previous)).Some?
    ensures var wals := InspectChain(m, manifest, dir, gens, Some(previous)).value;
            && wals != []
            && InspectChain(m, manifest, dir, gens, None)
               == if LinkOk(manifest, None, gens[0], wals[0].firstSequence) then Some(wals) else None
  {
    hide InspectWal;
    LinkShape(m, manifest, dir[Wal(gens[0])], gens[0], Some(previous));
    FirstFieldIsFirst(dir[Wal(gens[0])], m, gens[0]);
  }

  lemma FirstFieldIsFirst(data: seq<byte>, m: Metadata, generation: nat)
    requires |data| >= WAL_HEADER_BYTES && InspectWal(data, m, generation, FirstField(data)).Some?
    ensures InspectWal(data, m, generation, FirstField(data)).value.firstSequence == FirstField(data)
  {
  }

  /** What a cleanup up to generation `k` removes: any staging files, any checkpoints the
      manifest does not name, and exactly the generations below `k`. */
  ghost predicate CleanupUpTo(dir: Directory, r: Inspection, k: nat, removed: set<Name>) {
    && (forall n :: n in removed ==>
          || n.IsStaging()
          || (n.CheckpointFile? && (r.manifest.Some? ==> n.file != r.manifest.value.checkpointFile))
          || (n.Wal? && n.generation < k))
    && (forall g: nat :: Wal(g) in dir && g < k ==> Wal(g) in removed)
  }

  /** The cleanup removes no generation, or an authoritative checkpoint covers what it removes.
      A generation numbered 1 that becomes the first must still begin at sequence 1. */
  predicate CleanupCovered(r: Inspection, k: nat)
    requires r.wals != []
  {
    || k <= r.wals[0].generation
    || (&& r.manifest.Some? && k <= r.manifest.value.walGeneration
        && (k == 1 ==> |r.wals| > 1 && r.wals[1].firstSequence == 1))
  }

  lemma AuthoritySurvives(dir: Directory, r: Inspection, k: nat, removed: set<Name>)
    requires InspectDirectory(dir) == Some(r) && CleanupUpTo(dir, r, k, removed)
    ensures InspectAuthority(dir - removed, r.metadata) == InspectAuthority(dir, r.metadata)
            == Some((r.manifest, r.checkpoint))
    ensures MetadataFile in dir - removed && (dir - removed)[MetadataFile] == dir[MetadataFile]
    ensures !exists n :: n in dir - removed && n.Unknown?
  {
    hide InspectMetadata, InspectManifest, InspectCheckpoint, InspectChain, Sorted, MaxLast;
    assert MetadataFile !in removed && ManifestFile !in removed;
    if r.manifest.Some? {
      assert CheckpointFile(r.manifest.value.checkpointFile) !in removed;
    }
  }

  lemma GenerationsLeft(dir: Directory, r: Inspection, k: nat, removed: set<Name>)
    requires CleanupUpTo(dir, r, k, removed)
    ensures Generations(dir - removed) == From(Generations(dir), k)
  {
    var kept := dir - removed;
    forall g: nat ensures g in Generations(kept) <==> g in From(Generations(dir), k) {
      assert g in Generations(kept) <==> Wal(g) in kept;
      assert g in Generations(dir) <==> Wal(g) in dir;
    }
  }

  /** The chain that is left after removing the first `j` generations. */
  lemma ChainAfterCleanup(dir: Directory, kept: Directory, r: Inspection, gens: seq<nat>, j: nat)
    requires ChainFacts(r, gens) && j < |gens|
    requires forall g :: g in gens ==> Wal(g) in dir
    requires forall g :: g in gens[j..] ==> Wal(g) in kept && kept[Wal(g)] == dir[Wal(g)]
    requires InspectChain(r.metadata, r.manifest, dir, gens, None) == Some(r.wals)
    ensures InspectChain(r.metadata, r.manifest, kept, gens[j..], None)
            == if j == 0 || LinkOk(r.manifest, None, gens[j], r.wals[j].firstSequence) then Some(r.wals[j..]) else None
  {
    hide InspectChain, LinkOk, Chained;
    if j == 0 {
      assert gens[0..] == gens && r.wals[0..] == r.wals;
      ChainAgrees(r.metadata, r.manifest, dir, kept, gens, None);
    } else {
      ChainSuffix(r.metadata, r.manifest, dir, kept, gens, None, j);
      ChainPromoted(r.metadata, r.manifest, kept, gens[j..], (gens[j - 1], r.wals[j - 1].lastSequence + 1));
    }
  }

  /** The first generation left is `k` itself, unless nothing was removed. */
  lemma CoveredIsLinked(r: Inspection, gens: seq<nat>, k: nat, j: nat)
    requires ChainFacts(r, gens) && j < |gens| && gens[j] >= k && forall i :: 0 <= i < j ==> gens[i] < k
    ensures CleanupCovered(r, k) <==> (j == 0 || LinkOk(r.manifest, None, gens[j], r.wals[j].firstSequence))
  {
    if j > 0 {
      assert gens[j - 1] < k && gens[j] == gens[j - 1] + 1;
      assert gens[j] == k && gens[0] < k;
    }
  }

  lemma NothingLeft(r: Inspection, gens: seq<nat>, k: nat)
    requires ChainFacts(r, gens) && forall i :: 0 <= i < |gens| ==> gens[i] < k
    ensures !CleanupCovered(r, k)
  {
  }

  lemma BoundarySurvives(r: Inspection, gens: seq<nat>, k: nat, j: nat)
    requires ChainFacts(r, gens) && j < |gens| && CleanupCovered(r, k) && r.manifest.Some?
    requires forall i :: 0 <= i < j ==> gens[i] < k
    ensures BoundaryOk(r.manifest.value, r.wals[j..])
  {
    var b :| 0 <= b < |r.wals| && r.wals[b].generation == r.manifest.value.walGeneration
      && r.wals[b].firstSequence == r.manifest.value.walFirstSequence;
    assert r.wals[j..][b - j] == r.wals[b];
  }

  lemma InspectFromParts(dir: Directory, r: Inspection, wals: Option<seq<WalReport>>)
    requires MetadataFile in dir && !(exists n :: n in dir && n.Unknown?)
             && InspectMetadata(dir[MetadataFile]) == Some(r.metadata)
    requires InspectAuthority(dir, r.metadata) == Some((r.manifest, r.checkpoint))
    requires InspectChain(r.metadata, r.manifest, dir, Sorted(Generations(dir)), None) == wals
    requires Generations(dir) == {} || wals.None? || (r.manifest.Some? ==> BoundaryOk(r.manifest.value, wals.value))
    ensures InspectDirectory(dir).Some? <==> Generations(dir) != {} && wals.Some?
    ensures InspectDirectory(dir).Some? ==>
              var c := InspectDirectory(dir).value;
              c.metadata == r.metadata && c.manifest == r.manifest && c.checkpoint == r.checkpoint
                && c.wals == wals.value
  {
    hide InspectMetadata, InspectAuthority, InspectChain, Sorted, MaxLast, BoundaryOk;
  }

  lemma MetadataAccepted(dir: Directory, r: Inspection)
    requires InspectDirectory(dir) == Some(r)
    ensures MetadataFile in dir && InspectMetadata(dir[MetadataFile]) == Some(r.metadata)
  {
    hide InspectMetadata, InspectAuthority, InspectChain, MaxLast, Sorted;
  }

  lemma NoGenerations(kept: Directory, k: nat, gens: seq<nat>, j: nat)
    requires j == |gens| && gens[j..] == Sorted(Generations(kept))
    ensures InspectDirectory(kept).None?
  {
    hide InspectMetadata, InspectAuthority, InspectChain;
    if Generations(kept) != {} {
      SortedNotEmpty(Generations(kept));
    }
  }

  lemma LeftBehind(dir: Directory, kept: Directory, gens: seq<nat>, k: nat, j: nat)
    requires gens == Sorted(Generations(dir)) && j < |gens| && gens[j..] == Sorted(Generations(kept))
    requires Generations(kept) == From(Generations(dir), k)
    requires forall n :: n in kept ==> n in dir && kept[n] == dir[n]
    ensures gens[j] >= k && Generations(kept) != {}
    ensures forall g :: g in gens ==> Wal(g) in dir
    ensures forall g :: g in gens[j..] ==> Wal(g) in kept && kept[Wal(g)] == dir[Wal(g)]
  {
    assert gens[j] == gens[j..][0];
    assert gens[j] in Generations(kept);
  }

  /** When something is left, the verdict on it. */
  lemma CleanupVerdict(dir: Directory, kept: Directory, r: Inspection, gens: seq<nat>, k: nat, j: nat)
    requires ChainFacts(r, gens) && gens == Sorted(Generations(dir)) && j < |gens|
             && gens[j..] == Sorted(Generations(kept))
    requires Generations(kept) == From(Generations(dir), k) && forall i :: 0 <= i < j ==> gens[i] < k
    requires forall n :: n in kept ==> n in dir && kept[n] == dir[n]
    requires InspectChain(r.metadata, r.manifest, dir, gens, None) == Some(r.wals)
    requires MetadataFile in kept && !(exists n :: n in kept && n.Unknown?)
             && InspectMetadata(kept[MetadataFile]) == Some(r.metadata)
    requires InspectAuthority(kept, r.metadata) == Some((r.manifest, r.checkpoint))
    ensures InspectDirectory(kept).Some? <==> CleanupCovered(r, k)
    ensures InspectDirectory(kept).Some? ==>
              var c := InspectDirectory(kept).value;
              c.metadata == r.metadata && c.manifest == r.manifest && c.checkpoint == r.checkpoint
                && c.wals == r.wals[j..]
  {
    hide InspectDirectory, InspectMetadata, InspectAuthority, InspectChain, Generations, Sorted, CleanupCovered;
    LeftBehind(dir, kept, gens, k, j);
    CoveredIsLinked(r, gens, k, j);
    ChainAfterCleanup(dir, kept, r, gens, j);
    if CleanupCovered(r, k) && r.manifest.Some? {
      BoundarySurvives(r, gens, k, j);
    }
    InspectFromParts(kept, r, if CleanupCovered(r, k) then Some(r.wals[j..]) else None);
  }

  /** Which cleanups are safe: the directory is still accepted exactly when the removed
      generations are covered, and then it has the same authority and the same
      `durableSequence`, and keeps the later generations unchanged. */
  lemma SafeCleanup(dir: Directory, k: nat, removed: set<Name>)
    requires InspectDirectory(dir).Some? && CleanupUpTo(dir, InspectDirectory(dir).value, k, removed)
    ensures var r, c := InspectDirectory(dir).value, InspectDirectory(dir - removed);
            && r.wals != []
            && (c.Some? <==> CleanupCovered(r, k))
            && (c.Some? ==>
                  && c.value.durableSequence == r.durableSequence
                  && c.value.metadata == r.metadata && c.value.manifest == r.manifest
                  && c.value.checkpoint == r.checkpoint
                  && exists j :: 0 <= j < |r.wals| && c.value.wals == r.wals[j..])
  {
    hide InspectMetadata, InspectAuthority, InspectChain, MaxLast, AllFrames, Generations, Sorted, CleanupCovered;
    var r, kept, gens := InspectDirectory(dir).value, dir - removed, Sorted(Generations(dir));
    AcceptedFacts(dir, r);
    DurableHistory(dir);
    AuthoritySurvives(dir, r, k, removed);
    GenerationsLeft(dir, r, k, removed);
    MetadataAccepted(dir, r);
    hide InspectDirectory, CleanupUpTo, From;
    var j := SortedFrom(Generations(dir), k);
    if j == |gens| {
      NothingLeft(r, gens, k);
      NoGenerations(kept, k, gens, j);
    } else {
      CleanupVerdict(dir, kept, r, gens, k, j);
      if CleanupCovered(r, k) {
        DurableHistory(kept);
      }
    }
  }
}
