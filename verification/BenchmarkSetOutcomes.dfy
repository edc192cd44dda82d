/**
 What each exit code of an attempt leads to, with the numbers written out: its classification,
 the state of the set, and whether the attempt can ever be replaced.
 */
module BenchmarkSetOutcomes {
  import opened Options
  import opened BenchmarkSet
  import opened BenchmarkSetRuns
  import opened BenchmarkSetTheorems
  import opened BenchmarkSetEndStates

  // ---- one record ----

  /** The pointer leads to a finished record under the results root whose exit text is `exit`. */
  predicate Confirms(pointer: Pointer, exit: int) {
    match pointer
    case Recorded(finished, ExitDigits(value, canonical), portable, _, _) =>
      finished && portable && canonical && value == exit
    case _ => false
  }

  /** The classification that each exit code gets, and the rest of the attempt record. */
  lemma OutcomeExactly(slot: nat, attempt: nat, exit: int, pointer: Pointer)
    ensures var r := Outcome(slot, attempt, exit, pointer);
            && (r.classification == InfrastructureInvalid <==>
                  Confirms(pointer, exit) && exit in {10, 20, 40, 50, 60, 70})
            && (r.classification == BenchmarkFailure <==> Confirms(pointer, exit) && exit == 30)
            && (r.classification == ConfigurationFailure <==>
                  exit == 2 && (pointer.NoPointer? || Confirms(pointer, exit)))
            && (r.classification == EvidenceInvalid <==>
                  && Confirms(pointer, exit)
                  && (exit in {80, 81, 82} || (exit == 0 && pointer.derived.DerivationFailed?)))
            && (r.classification == ValidMember <==>
                  Confirms(pointer, exit) && exit == 0 && pointer.derived.Derivation?)
            && r.classification !in {Pending, Running}
            && r.slot == slot && r.attempt == attempt && r.v1Exit == Some(exit)
            && r.orchestration == (if Confirms(pointer, exit) then Some(pointer.orchestration) else None)
            && r.member == (if r.classification == ValidMember then Some(pointer.derived.member) else None)
            && r.phase1Exit == (if Confirms(pointer, exit) && exit == 0 && pointer.derived.DerivationFailed?
                                then Some(pointer.derived.exitCode) else None)
  {
  }

  // ---- replacements, over runs ----

  lemma InfrastructureRecord(r: AttemptRecord)
    requires FromCommand(r)
    ensures r.classification == InfrastructureInvalid <==>
            r.orchestration.Some? && r.v1Exit.Some? && r.v1Exit.value in {10, 20, 40, 50, 60, 70}
    ensures r.classification == BenchmarkFailure <==> r.orchestration.Some? && r.v1Exit == Some(30)
    ensures r.classification == ValidMember <==> r.member.Some?
    ensures r.classification == ValidMember ==> r.orchestration.Some? && r.v1Exit == Some(0)
    ensures r.classification == ConfigurationFailure ==> r.v1Exit == Some(2)
    ensures r.classification == EvidenceInvalid ==>
            r.orchestration.Some? && r.v1Exit.Some? && r.v1Exit.value in {0, 80, 81, 82}
    ensures r.v1Exit.None? ==> r.classification == Unresolved
  {
    if r != GivenUp(r.slot, r.attempt) {
      var exit, pointer :| r == Outcome(r.slot, r.attempt, exit, pointer);
      OutcomeExactly(r.slot, r.attempt, exit, pointer);
    }
    hide Outcome, Confirms;
  }

  /** In every reachable state a record says why it has its classification: an infrastructure
      failure is an attempt with a confirmed exit 10, 20, 40, 50, 60 or 70, a benchmark failure one
      with a confirmed exit 30, a valid member one with exit 0 and a member. */
  lemma RecordsByExit(w: World, states: seq<Disk>, steps: seq<Step>, i: nat, k: (nat, nat))
    requires IsRun(w, states, steps) && i < |states| && k in states[i].attempts
    ensures var r := states[i].attempts[k];
            && (r.classification == InfrastructureInvalid <==>
                  r.orchestration.Some? && r.v1Exit.Some? && r.v1Exit.value in {10, 20, 40, 50, 60, 70})
            && (r.classification == BenchmarkFailure <==> r.orchestration.Some? && r.v1Exit == Some(30))
            && (r.classification == ValidMember <==> r.member.Some?)
            && (r.classification == ValidMember ==> r.orchestration.Some? && r.v1Exit == Some(0))
            && (r.classification == ConfigurationFailure ==> r.v1Exit == Some(2))
            && (r.classification == EvidenceInvalid ==>
                  r.orchestration.Some? && r.v1Exit.Some? && r.v1Exit.value in {0, 80, 81, 82})
            && (r.v1Exit.None? ==> r.classification == Unresolved)
  {
    hide IsRun, FromCommand, Inv;
    RunTraced(w, states, steps, i);
    InfrastructureRecord(states[i].attempts[k]);
  }

  /** In every run, each replacement was authorized for an attempt that ended with exit 10, 20, 40,
      50, 60 or 70, and with a reason of 1 to 500 characters on one line. */
  lemma OnlyInfrastructureExitsAreReplaced(w: World, states: seq<Disk>, steps: seq<Step>, i: nat, k: (nat, nat))
    requires IsRun(w, states, steps) && i < |states| && k in states[i].replacements
    ensures var auth := states[i].replacements[k];
            && k in states[i].attempts && auth.priorV1Exit == states[i].attempts[k].v1Exit
            && auth.priorV1Exit.Some? && auth.priorV1Exit.value in {10, 20, 40, 50, 60, 70}
            && auth.priorOrchestration == states[i].attempts[k].orchestration && auth.priorOrchestration.Some?
            && 1 <= |auth.reason| <= 500 && forall c :: c in auth.reason ==> c != '\n' && c != '\r'
  {
    hide IsRun, FromCommand;
    RunTraced(w, states, steps, i);
    assert AuthorizationOk(states[i], k, states[i].replacements[k]);
    InfrastructureRecord(states[i].attempts[k]);
  }

  /** An attempt recorded with any other exit, or with none, is its slot's last for ever. */
  lemma OtherExitsStay(w: World, states: seq<Disk>, steps: seq<Step>, i: nat, j: nat, k: (nat, nat))
    requires IsRun(w, states, steps) && i <= j < |states| && k in states[i].attempts
    requires var exit := states[i].attempts[k].v1Exit;
             exit.None? || exit.value !in {10, 20, 40, 50, 60, 70}
    ensures k in states[j].attempts && states[j].attempts[k] == states[i].attempts[k]
    ensures k !in states[j].replacements
    ensures SlotInRange(states[j].checkpoint, k.0) && SlotOf(states[j].checkpoint, k.0).attemptCount == k.1
  {
    hide IsRun, AuthorizationOk;
    RecordsByExit(w, states, steps, i, k);
    ResultIsNeverRerolled(w, states, steps, i, j, k);
    if k in states[j].replacements {
      OnlyInfrastructureExitsAreReplaced(w, states, steps, j, k);
    }
  }

  // ---- which slots agree ----

  /** The record of a slot's selected attempt. */
  function MemberOf(d: Disk, s: nat): Option<AttemptRecord> {
    if SlotInRange(d.checkpoint, s) && SlotOf(d.checkpoint, s).state == ValidMember
      && SlotOf(d.checkpoint, s).selectedAttempt.Some?
      && (s, SlotOf(d.checkpoint, s).selectedAttempt.value) in d.attempts
    then Some(d.attempts[(s, SlotOf(d.checkpoint, s).selectedAttempt.value)])
    else None
  }

  predicate OneKey(w: World, a: AttemptRecord, b: AttemptRecord) {
    a.member.Some? && b.member.Some? && w.key(a.member.value) == w.key(b.member.value)
  }

  /** Run, instance, orchestration record and manifest all differ. */
  predicate Apart(a: AttemptRecord, b: AttemptRecord) {
    && a.member.Some? && b.member.Some? && a.orchestration.Some? && b.orchestration.Some?
    && a.member.value.rawRunId != b.member.value.rawRunId
    && a.orchestration.value.instance != b.orchestration.value.instance
    && a.orchestration.value.digest != b.orchestration.value.digest
    && a.member.value.manifestDigest != b.member.value.manifestDigest
  }

  ghost predicate AllOneKey(w: World, d: Disk) {
    forall s: nat, t: nat :: s < t && MemberOf(d, s).Some? && MemberOf(d, t).Some? ==>
      OneKey(w, MemberOf(d, s).value, MemberOf(d, t).value)
  }

  ghost predicate AllApart(d: Disk) {
    forall s: nat, t: nat :: s < t && MemberOf(d, s).Some? && MemberOf(d, t).Some? ==>
      Apart(MemberOf(d, s).value, MemberOf(d, t).value)
  }

  /** The valid slots from index `i` on, counted from 1. */
  function ValidSlots(slots: seq<Slot>, i: nat): (q: seq<nat>)
    requires i <= |slots|
    ensures forall n :: 0 <= n < |q| ==> i < q[n] <= |slots| && slots[q[n] - 1].state == ValidMember
    ensures forall n, m :: 0 <= n < m < |q| ==> q[n] < q[m]
    ensures forall s :: i < s <= |slots| && slots[s - 1].state == ValidMember ==> s in q
    decreases |slots| - i
  {
    if i == |slots| then []
    else (if slots[i].state == ValidMember then [i + 1] else []) + ValidSlots(slots, i + 1)
  }

  predicate Picked(w: World, d: Disk, c: Chosen, s: nat) {
    && MemberOf(d, s) == Some(c.record) && c.record.member.Some? && c.record.orchestration.Some?
    && w.key(c.record.member.value) == Some(c.key)
  }

  predicate PickedFrom(w: World, d: Disk, chosen: seq<Chosen>, q: seq<nat>) {
    |chosen| == |q| && forall n :: 0 <= n < |q| ==> Picked(w, d, chosen[n], q[n])
  }

  lemma {:induction false} SelectedSlots(w: World, d: Disk, i: nat)
    requires i <= |d.checkpoint.slots| && SelectedFrom(w, d.attempts, d.checkpoint.slots, i).Some?
    ensures PickedFrom(w, d, SelectedFrom(w, d.attempts, d.checkpoint.slots, i).value,
                       ValidSlots(d.checkpoint.slots, i))
    decreases |d.checkpoint.slots| - i
  {
    if i < |d.checkpoint.slots| {
      SelectedSlots(w, d, i + 1);
      var slots := d.checkpoint.slots;
      var rest, q := SelectedFrom(w, d.attempts, slots, i + 1).value, ValidSlots(slots, i + 1);
      if d.checkpoint.slots[i].state == ValidMember {
        var c := FirstSelected(w, d, i);
        FirstValid(d.checkpoint.slots, i);
        PickedCons(w, d, c, i + 1, rest, q);
      } else {
        FirstValid(d.checkpoint.slots, i);
      }
      hide ValidSlots, PickedFrom;
    }
  }

  lemma FirstSelected(w: World, d: Disk, i: nat) returns (c: Chosen)
    requires i < |d.checkpoint.slots| && SelectedFrom(w, d.attempts, d.checkpoint.slots, i).Some?
    requires d.checkpoint.slots[i].state == ValidMember
    ensures Picked(w, d, c, i + 1) && SelectedFrom(w, d.attempts, d.checkpoint.slots, i + 1).Some?
    ensures SelectedFrom(w, d.attempts, d.checkpoint.slots, i).value
            == [c] + SelectedFrom(w, d.attempts, d.checkpoint.slots, i + 1).value
  {
    c := SelectedFrom(w, d.attempts, d.checkpoint.slots, i).value[0];
  }

  lemma FirstValid(slots: seq<Slot>, i: nat)
    requires i < |slots|
    ensures ValidSlots(slots, i) == (if slots[i].state == ValidMember then [i + 1] else []) + ValidSlots(slots, i + 1)
    ensures slots[i].state != ValidMember ==> ValidSlots(slots, i) == ValidSlots(slots, i + 1)
  {
  }

  lemma PickedCons(w: World, d: Disk, c: Chosen, s: nat, rest: seq<Chosen>, q: seq<nat>)
    requires Picked(w, d, c, s) && PickedFrom(w, d, rest, q)
    ensures PickedFrom(w, d, [c] + rest, [s] + q)
  {
    hide Picked;
  }

  /** The checks over the collected list are checks over every two valid slots. */
  lemma ChecksBySlot(w: World, d: Disk)
    requires Selected(w, d).Some?
    ensures EqualKeys(Selected(w, d).value) <==> AllOneKey(w, d)
    ensures MembersCompatible(w, d) <==> AllOneKey(w, d) && AllApart(d)
  {
    SelectedComplete(w, d.attempts, d.checkpoint.slots, 0);
    SelectedSlots(w, d, 0);
    hide SelectedFrom, ValidSlots, AllOneKey, AllApart, EqualKeys, DistinctIdentities, PickedFrom;
    KeysBySlot(w, d, Selected(w, d).value);
    ApartBySlot(w, d, Selected(w, d).value);
  }

  lemma PlaceOf(d: Disk, s: nat) returns (n: nat)
    requires MemberOf(d, s).Some?
    ensures n < |ValidSlots(d.checkpoint.slots, 0)| && ValidSlots(d.checkpoint.slots, 0)[n] == s
  {
    assert s in ValidSlots(d.checkpoint.slots, 0);
    n :| 0 <= n < |ValidSlots(d.checkpoint.slots, 0)| && ValidSlots(d.checkpoint.slots, 0)[n] == s;
  }

  lemma TwoPlaces(d: Disk, s: nat, t: nat) returns (n: nat, m: nat)
    requires s < t && MemberOf(d, s).Some? && MemberOf(d, t).Some?
    ensures var q := ValidSlots(d.checkpoint.slots, 0); n < m < |q| && q[n] == s && q[m] == t
  {
    n := PlaceOf(d, s);
    m := PlaceOf(d, t);
    hide MemberOf;
  }

  lemma KeysBySlot(w: World, d: Disk, chosen: seq<Chosen>)
    requires PickedFrom(w, d, chosen, ValidSlots(d.checkpoint.slots, 0))
    ensures EqualKeys(chosen) <==> AllOneKey(w, d)
  {
    hide MemberOf;
    var q := ValidSlots(d.checkpoint.slots, 0);
    if EqualKeys(chosen) {
      forall s: nat, t: nat | s < t && MemberOf(d, s).Some? && MemberOf(d, t).Some?
        ensures OneKey(w, MemberOf(d, s).value, MemberOf(d, t).value)
      {
        var n, m := TwoPlaces(d, s, t);
        assert Picked(w, d, chosen[n], s) && Picked(w, d, chosen[m], t) && chosen[n].key == chosen[m].key;
      }
    }
    if AllOneKey(w, d) {
      forall n, m | 0 <= n < m < |chosen| ensures chosen[n].key == chosen[m].key {
        assert Picked(w, d, chosen[n], q[n]) && Picked(w, d, chosen[m], q[m]);
        assert q[n] < q[m] && OneKey(w, MemberOf(d, q[n]).value, MemberOf(d, q[m]).value);
      }
    }
  }

  lemma ApartBySlot(w: World, d: Disk, chosen: seq<Chosen>)
    requires PickedFrom(w, d, chosen, ValidSlots(d.checkpoint.slots, 0))
    requires forall c :: c in chosen ==> c.record.member.Some? && c.record.orchestration.Some?
    ensures DistinctIdentities(chosen) <==> AllApart(d)
  {
    hide MemberOf;
    var q := ValidSlots(d.checkpoint.slots, 0);
    if DistinctIdentities(chosen) {
      forall s: nat, t: nat | s < t && MemberOf(d, s).Some? && MemberOf(d, t).Some?
        ensures Apart(MemberOf(d, s).value, MemberOf(d, t).value)
      {
        var n, m := TwoPlaces(d, s, t);
        assert Picked(w, d, chosen[n], s) && Picked(w, d, chosen[m], t);
        assert chosen[n] in chosen && chosen[m] in chosen;
      }
    }
    if AllApart(d) {
      forall n, m | 0 <= n < m < |chosen| ensures Apart(chosen[n].record, chosen[m].record) {
        assert Picked(w, d, chosen[n], q[n]) && Picked(w, d, chosen[m], q[m]);
        assert q[n] < q[m] && Apart(MemberOf(d, q[n]).value, MemberOf(d, q[m]).value);
      }
    }
  }

  /** In every reachable state that is neither INCOMPATIBLE nor COMPLETE, any two valid slots have
      one compatibility key and differ in run, instance, orchestration record and manifest. */
  lemma ValidSlotsAgree(w: World, states: seq<Disk>, steps: seq<Step>, i: nat, s: nat, t: nat)
    requires IsRun(w, states, steps) && i < |states| && s < t
    requires states[i].checkpoint.state != Incompatible && states[i].checkpoint.state != Complete
    requires IsValid(states[i], s) && IsValid(states[i], t)
    ensures MemberOf(states[i], s).Some? && MemberOf(states[i], t).Some?
    ensures OneKey(w, MemberOf(states[i], s).value, MemberOf(states[i], t).value)
    ensures Apart(MemberOf(states[i], s).value, MemberOf(states[i], t).value)
  {
    RunInv(w, states, steps, i);
    SelectedIsRecorded(states[i], s);
    SelectedIsRecorded(states[i], t);
    hide IsRun, Bookkeeping, MemberOf, OneKey, Apart, EqualKeys, DistinctIdentities, SelectedFrom;
    ChecksBySlot(w, states[i]);
  }

  lemma SelectedIsRecorded(d: Disk, s: nat)
    requires Bookkeeping(d) && IsValid(d, s)
    ensures MemberOf(d, s) == Some(d.attempts[(s, SlotOf(d.checkpoint, s).attemptCount)])
  {
    hide NoReroll, AuthorizationsOk, OrderOk, AttemptsOk, CountsOk, RunningOk;
  }
}
