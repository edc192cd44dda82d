/**
 Exactly which directories the inspector accepts and what it reports, over all generations at
 once instead of one after the other.
 */
module DirectoryForms {
  import opened Bytes
  import opened Options
  import opened SortedSets
  import opened StorageFiles
  import opened WriteAheadLog
  import opened StorageDirectory

  // ---- the chain ----

  function Before(gens: seq<nat>, wals: seq<WalReport>, previous: Option<(nat, int)>, i: nat): Option<(nat, int)>
    requires i < |gens| == |wals|
  {
    if i == 0 then previous else Some((gens[i - 1], wals[i - 1].lastSequence + 1))
  }

  predicate Linked(m: Metadata, manifest: Option<Manifest>, dir: Directory, gens: seq<nat>, wals: seq<WalReport>,
      previous: Option<(nat, int)>, i: nat)
    requires i < |gens| == |wals|
  {
    && Wal(gens[i]) in dir
    && InspectWal(dir[Wal(gens[i])], m, gens[i], wals[i].firstSequence) == Some(wals[i])
    && LinkOk(manifest, Before(gens, wals, previous, i), gens[i], wals[i].firstSequence)
  }

  lemma LinkExactly(m: Metadata, manifest: Option<Manifest>, data: seq<byte>, generation: nat,
      previous: Option<(nat, int)>, r: WalReport)
    ensures InspectLink(m, manifest, data, generation, previous) == Some(r) <==>
            && InspectWal(data, m, generation, r.firstSequence) == Some(r)
            && LinkOk(manifest, previous, generation, r.firstSequence)
  {
    hide Scan, Unsigned, Signed;
  }

  lemma LinkedTail(m: Metadata, manifest: Option<Manifest>, dir: Directory, gens: seq<nat>, wals: seq<WalReport>,
      previous: Option<(nat, int)>, next: Option<(nat, int)>)
    requires gens != [] && |gens| == |wals| && next == Some((gens[0], wals[0].lastSequence + 1))
    ensures (forall i :: 0 <= i < |gens| ==> Linked(m, manifest, dir, gens, wals, previous, i)) <==>
            && Linked(m, manifest, dir, gens, wals, previous, 0)
            && forall i :: 0 <= i < |gens| - 1 ==>
                 Linked(m, manifest, dir, gens[1..], wals[1..], next, i)
  {
    hide InspectWal, LinkOk;
    forall i | 0 <= i < |gens| - 1
      ensures Linked(m, manifest, dir, gens[1..], wals[1..], next, i)
              <==> Linked(m, manifest, dir, gens, wals, previous, i + 1)
    {
    }
    if Linked(m, manifest, dir, gens, wals, previous, 0)
      && forall i :: 0 <= i < |gens| - 1 ==> Linked(m, manifest, dir, gens[1..], wals[1..], next, i) {
      forall i | 0 <= i < |gens| ensures Linked(m, manifest, dir, gens, wals, previous, i) {
        if i > 0 {
          assert Linked(m, manifest, dir, gens[1..], wals[1..], next, i - 1);
        }
      }
    }
  }

  lemma {:induction false} ChainExactly(m: Metadata, manifest: Option<Manifest>, dir: Directory, gens: seq<nat>,
      previous: Option<(nat, int)>, wals: seq<WalReport>)
    requires forall g :: g in gens ==> Wal(g) in dir
    ensures InspectChain(m, manifest, dir, gens, previous) == Some(wals) <==>
            |wals| == |gens| && forall i :: 0 <= i < |gens| ==> Linked(m, manifest, dir, gens, wals, previous, i)
    decreases |gens|
  {
    hide InspectLink, InspectWal, LinkOk;
    if gens != [] {
      if wals == [] {
        assert InspectChain(m, manifest, dir, gens, previous) != Some(wals);
      } else {
        var next := Some((gens[0], wals[0].lastSequence + 1));
        LinkExactly(m, manifest, dir[Wal(gens[0])], gens[0], previous, wals[0]);
        ChainExactly(m, manifest, dir, gens[1..], next, wals[1..]);
        if |wals| == |gens| {
          LinkedTail(m, manifest, dir, gens, wals, previous, next);
        }
        assert wals == [wals[0]] + wals[1..];
      }
    }
  }

  // ---- the directory ----

  /** The report lists the generations of the directory, which are consecutive numbers; each log is
      accepted with the sequence that follows the one before; and the first one is generation 1
      with sequence 1, or not after the manifest's generation. */
  predicate ChainAccepted(dir: Directory, r: Inspection) {
    && r.wals != []
    && (forall i :: 0 <= i < |r.wals| ==>
          && r.wals[i].generation == r.wals[0].generation + i >= 0
          && Wal(r.wals[i].generation) in dir
          && InspectWal(dir[Wal(r.wals[i].generation)], r.metadata, r.wals[i].generation, r.wals[i].firstSequence)
             == Some(r.wals[i]))
    && (forall n :: n in dir && n.Wal? ==>
          r.wals[0].generation <= n.generation < r.wals[0].generation + |r.wals|)
    && (forall i :: 0 < i < |r.wals| ==> r.wals[i].firstSequence == r.wals[i - 1].lastSequence + 1)
    && (if r.wals[0].generation == 1 then r.wals[0].firstSequence == 1
        else r.manifest.Some? && r.wals[0].generation <= r.manifest.value.walGeneration)
  }

  /** With a manifest: its checkpoint is there and accepted, and its boundary generation is among the
      reported ones, beginning where the manifest says. */
  predicate AuthorityAccepted(dir: Directory, r: Inspection) {
    if ManifestFile in dir then
      && r.manifest.Some? && r.checkpoint.Some?
      && InspectManifest(dir[ManifestFile], r.metadata) == r.manifest
      && CheckpointFile(r.manifest.value.checkpointFile) in dir
      && InspectCheckpoint(dir[CheckpointFile(r.manifest.value.checkpointFile)], r.metadata, r.manifest.value)
         == r.checkpoint
      && exists i :: 0 <= i < |r.wals| && r.wals[i].generation == r.manifest.value.walGeneration
           && r.wals[i].firstSequence == r.manifest.value.walFirstSequence
    else r.manifest == None && r.checkpoint == None
  }

  /** The durable sequence is the largest one the checkpoint or a log vouches for. */
  predicate DurableIsLargest(r: Inspection) {
    var floor := if r.manifest.Some? then r.manifest.value.checkpointSequence else 0;
    && floor <= r.durableSequence && (forall i :: 0 <= i < |r.wals| ==> r.wals[i].lastSequence <= r.durableSequence)
    && (r.durableSequence == floor || exists i :: 0 <= i < |r.wals| && r.wals[i].lastSequence == r.durableSequence)
  }

  lemma {:induction false} MaxLastExactly(wals: seq<WalReport>, floor: int, n: int)
    ensures n == MaxLast(wals, floor) <==>
            && floor <= n && (forall i :: 0 <= i < |wals| ==> wals[i].lastSequence <= n)
            && (n == floor || exists i :: 0 <= i < |wals| && wals[i].lastSequence == n)
  {
    MaxLastBounds(wals, floor);
  }

  lemma {:induction false} MaxLastBounds(wals: seq<WalReport>, floor: int)
    ensures var n := MaxLast(wals, floor);
            && floor <= n && (forall i :: 0 <= i < |wals| ==> wals[i].lastSequence <= n)
            && (n == floor || exists i :: 0 <= i < |wals| && wals[i].lastSequence == n)
  {
    if wals != [] {
      MaxLastBounds(wals[1..], floor);
      assert wals == [wals[0]] + wals[1..];
    }
  }

  function Numbers(wals: seq<WalReport>): (q: seq<int>)
    ensures |q| == |wals| && forall i :: 0 <= i < |q| ==> q[i] == wals[i].generation
  {
    seq(|wals|, i requires 0 <= i < |wals| => wals[i].generation)
  }

  lemma ChainOfDirectory(dir: Directory, r: Inspection)
    requires Generations(dir) != {}
    ensures InspectChain(r.metadata, r.manifest, dir, Sorted(Generations(dir)), None) == Some(r.wals)
            <==> ChainAccepted(dir, r)
  {
    hide InspectWal, InspectChain;
    var gens := Sorted(Generations(dir));
    SortedNotEmpty(Generations(dir));
    ChainExactly(r.metadata, r.manifest, dir, gens, None, r.wals);
    if |r.wals| == |gens|
      && forall i :: 0 <= i < |gens| ==> Linked(r.metadata, r.manifest, dir, gens, r.wals, None, i) {
      LinkedIsAccepted(dir, r, gens);
    }
    if ChainAccepted(dir, r) {
      AcceptedNumbers(dir, r);
      AcceptedIsLinked(dir, r, gens);
    }
  }

  lemma {:induction false} Consecutive(gens: seq<nat>, i: nat)
    requires i < |gens| && forall k :: 0 < k < |gens| ==> gens[k] == gens[k - 1] + 1
    ensures gens[i] == gens[0] + i
    decreases i
  {
    if i > 0 {
      Consecutive(gens, i - 1);
    }
  }

  predicate InPlace(dir: Directory, r: Inspection, gens: seq<nat>, i: nat)
    requires i < |gens| == |r.wals|
  {
    && r.wals[i].generation == gens[i] && Wal(gens[i]) in dir
    && InspectWal(dir[Wal(gens[i])], r.metadata, gens[i], r.wals[i].firstSequence) == Some(r.wals[i])
    && (if i > 0 then gens[i] == gens[i - 1] + 1 && r.wals[i].firstSequence == r.wals[i - 1].lastSequence + 1
        else if gens[0] == 1 then r.wals[0].firstSequence == 1
        else r.manifest.Some? && gens[0] <= r.manifest.value.walGeneration)
  }

  lemma LinkedInPlace(dir: Directory, r: Inspection, gens: seq<nat>, i: nat)
    requires i < |gens| == |r.wals| && Linked(r.metadata, r.manifest, dir, gens, r.wals, None, i)
    ensures InPlace(dir, r, gens, i)
  {
    hide Scan, WalHeaderOk;
  }

  lemma LinkedIsAccepted(dir: Directory, r: Inspection, gens: seq<nat>)
    requires gens != [] && forall g :: g in gens <==> g in Generations(dir)
    requires |r.wals| == |gens|
    requires forall i :: 0 <= i < |gens| ==> Linked(r.metadata, r.manifest, dir, gens, r.wals, None, i)
    ensures ChainAccepted(dir, r)
  {
    hide InspectWal, Linked;
    forall i | 0 <= i < |gens| ensures InPlace(dir, r, gens, i) {
      LinkedInPlace(dir, r, gens, i);
    }
    forall i | 0 < i < |gens| ensures gens[i] == gens[i - 1] + 1 {
      assert InPlace(dir, r, gens, i);
    }
    assert InPlace(dir, r, gens, 0);
    forall i | 0 <= i < |r.wals|
      ensures r.wals[i].generation == r.wals[0].generation + i && InPlace(dir, r, gens, i)
    {
      assert InPlace(dir, r, gens, i);
      Consecutive(gens, i);
    }
    forall i | 0 < i < |gens| ensures r.wals[i].firstSequence == r.wals[i - 1].lastSequence + 1 {
      assert InPlace(dir, r, gens, i);
    }
    forall n | n in dir && n.Wal?
      ensures r.wals[0].generation <= n.generation < r.wals[0].generation + |r.wals|
    {
      assert n.generation in Generations(dir);
      var i :| 0 <= i < |gens| && gens[i] == n.generation;
      assert r.wals[i].generation == r.wals[0].generation + i;
      assert InPlace(dir, r, gens, i);
    }
  }

  lemma AcceptedNumbers(dir: Directory, r: Inspection)
    requires ChainAccepted(dir, r)
    ensures Sorted(Generations(dir)) == Interval(r.wals[0].generation, r.wals[0].generation + |r.wals|)
  {
    hide InspectWal;
    var low := r.wals[0].generation;
    forall g ensures g in Generations(dir) <==> low <= g < low + |r.wals| {
      if low <= g < low + |r.wals| {
        assert r.wals[g - low].generation == low + (g - low);
        assert Wal(g) in dir;
      }
    }
    SortedInterval(Generations(dir), low, low + |r.wals|);
  }

  lemma AcceptedIsLinked(dir: Directory, r: Inspection, gens: seq<nat>)
    requires ChainAccepted(dir, r) && gens == Interval(r.wals[0].generation, r.wals[0].generation + |r.wals|)
    ensures |r.wals| == |gens|
    ensures forall i :: 0 <= i < |gens| ==> Linked(r.metadata, r.manifest, dir, gens, r.wals, None, i)
  {
    hide InspectWal;
    forall i | 0 <= i < |gens| ensures Linked(r.metadata, r.manifest, dir, gens, r.wals, None, i) {
      assert r.wals[i].generation == r.wals[0].generation + i == gens[i];
    }
  }

  /** The inspector accepts a directory with report `r` exactly if every file has a known name, the
      metadata is accepted, the logs form a chain, the manifest's checkpoint and boundary generation
      are there, and the durable sequence is the largest. */
  lemma DirectoryExactly(dir: Directory, r: Inspection)
    ensures InspectDirectory(dir) == Some(r) <==>
            && (forall n :: n in dir ==> !n.Unknown?)
            && MetadataFile in dir && InspectMetadata(dir[MetadataFile]) == Some(r.metadata)
            && AuthorityAccepted(dir, r) && ChainAccepted(dir, r) && DurableIsLargest(r)
  {
    hide InspectMetadata, InspectManifest, InspectCheckpoint, InspectChain, ChainAccepted, MaxLast;
    var floor := if r.manifest.Some? then r.manifest.value.checkpointSequence else 0;
    MaxLastExactly(r.wals, floor, r.durableSequence);
    if Generations(dir) != {} {
      ChainOfDirectory(dir, r);
    } else if ChainAccepted(dir, r) {
      SomeGeneration(dir, r);
    }
  }

  lemma SomeGeneration(dir: Directory, r: Inspection)
    requires ChainAccepted(dir, r)
    ensures Generations(dir) != {}
  {
    hide InspectWal;
    assert r.wals[0].generation == r.wals[0].generation + 0 && Wal(r.wals[0].generation) in dir;
    assert Wal(r.wals[0].generation).generation in Generations(dir);
  }
}
