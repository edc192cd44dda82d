/**
 What `set-next` announces, in every run and not only in those that follow it: when an announced
 command can be carried out.
 */
module BenchmarkSetAnnouncements {
  import opened Options
  import opened BenchmarkSet
  import opened BenchmarkSetRuns
  import opened BenchmarkSetTheorems
  import opened BenchmarkSetGuided

  predicate Failed(state: SlotState) {
    state == BenchmarkFailure || state == ConfigurationFailure || state == EvidenceInvalid || state == Unresolved
  }

  ghost predicate NoFailure(cp: Checkpoint) { forall s: nat :: SlotInRange(cp, s) ==> !Failed(SlotOf(cp, s).state) }

  predicate IsLost(cp: Checkpoint, s: nat) { SlotInRange(cp, s) && SlotOf(cp, s).state == InfrastructureInvalid }

  predicate Authorized(d: Disk, s: nat)
    requires SlotInRange(d.checkpoint, s)
  {
    (s, SlotOf(d.checkpoint, s).attemptCount) in d.replacements
  }

  /** What a READY set announces: finalization only when no slot is pending, otherwise a pending
      slot or a lost slot whose replacement is authorized. */
  ghost predicate Announces(d: Disk) {
    match d.checkpoint.nextPending
    case None => forall s: nat :: SlotInRange(d.checkpoint, s) ==> SlotOf(d.checkpoint, s).state != Pending
    case Some(n) =>
      SlotInRange(d.checkpoint, n)
        && (SlotOf(d.checkpoint, n).state == Pending || (IsLost(d.checkpoint, n) && Authorized(d, n)))
  }

  ghost predicate Announced(d: Disk) {
    && (d.checkpoint.state in {Ready, AttemptRunning, BlockedInfrastructure} ==> NoFailure(d.checkpoint))
    && (d.checkpoint.state == Ready ==> Announces(d))
  }

  // ---- it holds in every reachable state ----

  lemma BeginAnnounced(d: Disk, s: nat, targetExists: bool)
    requires Announced(d) && Begin(d, s, targetExists).Some?
    ensures Announced(Begin(d, s, targetExists).value)
  {
    var cp, cq := d.checkpoint, Begin(d, s, targetExists).value.checkpoint;
    assert forall t: nat :: SlotInRange(cp, t) && t != s ==> SlotOf(cq, t) == SlotOf(cp, t);
    assert SlotOf(cq, s).state == Running;
  }

  lemma SaveNoFailure(w: World, d: Disk, record: AttemptRecord)
    requires RunningRecorded(d, record) && Announced(d) && SaveOutcome(w, d, record).Some?
    ensures var cq := SaveOutcome(w, d, record).value.checkpoint;
            cq.state in {Ready, AttemptRunning, BlockedInfrastructure} ==> NoFailure(cq)
  {
    SaveSettles(w, d, record);
    SavedState(w, d, record);
    hide SaveOutcome, NoReroll, LatestOk, CountsOk, AuthorizationsOk, OrderOk, SelectionOk, AttemptsOk, Announces;
    assert d.checkpoint.state == AttemptRunning;
  }

  lemma SavedState(w: World, d: Disk, record: AttemptRecord)
    requires SlotInRange(d.checkpoint, record.slot) && SaveOutcome(w, d, record).Some?
    ensures var state := SaveOutcome(w, d, record).value.checkpoint.state;
            && (state == Ready ==> record.classification == ValidMember)
            && (state == BlockedInfrastructure ==> record.classification == InfrastructureInvalid)
            && state != AttemptRunning
  {
    hide SelectedFrom, EqualKeys, DistinctIdentities, FirstPending;
  }

  lemma FirstPendingAnnounces(d: Disk)
    requires d.checkpoint.nextPending == FirstPending(d.checkpoint.slots, 0)
    ensures Announces(d)
  {
    var cp := d.checkpoint;
    FirstPendingShape(cp.slots, 0);
    match cp.nextPending
    case None =>
      forall s: nat | SlotInRange(cp, s) ensures SlotOf(cp, s).state != Pending {
        assert cp.slots[s - 1] == SlotOf(cp, s);
      }
    case Some(n) =>
  }

  lemma SaveAnnounced(w: World, d: Disk, record: AttemptRecord)
    requires RunningRecorded(d, record) && Announced(d) && SaveOutcome(w, d, record).Some?
    ensures Announced(SaveOutcome(w, d, record).value)
  {
    var e := SaveOutcome(w, d, record).value;
    SaveNoFailure(w, d, record);
    if e.checkpoint.state == Ready {
      assert SlotInRange(d.checkpoint, record.slot);
      SavedAnnouncement(w, d, record);
      FirstPendingAnnounces(e);
    }
    hide SaveOutcome, Announces, NoFailure, Bookkeeping;
  }

  lemma SettleAnnounced(w: World, d: Disk, record: AttemptRecord)
    requires Inv(w, d) && Fresh(d, record) && Announced(d) && WriteAttempt(d, record).Some?
    ensures var e := WriteAttempt(d, record).value;
            && Announced(e) && SlotInRange(e.checkpoint, record.slot)
            && (SaveOutcome(w, e, record).Some? ==> Announced(SaveOutcome(w, e, record).value))
  {
    WriteAttemptInv(w, d, record);
    var e := WriteAttempt(d, record).value;
    assert e.checkpoint == d.checkpoint && e.replacements == d.replacements;
    hide SaveOutcome, Inv;
    if SaveOutcome(w, e, record).Some? {
      SaveAnnounced(w, e, record);
    }
  }

  lemma RecordAnnounced(w: World, d: Disk, s: nat, exit: int, pointer: Pointer)
    requires Inv(w, d) && Announced(d)
    ensures Announced(AfterFailedRecord(d, s, exit, pointer))
    ensures Record(w, d, s, exit, pointer).Some? ==> Announced(Record(w, d, s, exit, pointer).value)
  {
    if IntentFor(d.checkpoint, s) {
      var record := Outcome(s, d.checkpoint.current.value.attempt, exit, pointer);
      OutcomeShape(s, d.checkpoint.current.value.attempt, exit, pointer);
      hide Outcome, SaveOutcome, Inv, Announced;
      if WriteAttempt(d, record).Some? {
        SettleAnnounced(w, d, record);
      }
    }
  }

  lemma GiveUpAnnounced(w: World, d: Disk)
    requires Inv(w, d) && Announced(d)
    ensures GiveUpWrite(d).Some? ==> Announced(GiveUpWrite(d).value)
    ensures GiveUp(w, d).Some? ==> Announced(GiveUp(w, d).value)
  {
    if d.checkpoint.current.Some? {
      var record := GivenUp(d.checkpoint.current.value.slot, d.checkpoint.current.value.attempt);
      hide SaveOutcome, Inv, Announced;
      if WriteAttempt(d, record).Some? {
        SettleAnnounced(w, d, record);
      }
    }
  }

  lemma ReconcileAnnounced(w: World, d: Disk, pointer: Pointer)
    requires Inv(w, d) && Announced(d) && Reconcile(w, d, pointer).Some?
    ensures Announced(Reconcile(w, d, pointer).value)
  {
    hide Inv, Record, AfterFailedRecord, GiveUp, Announced;
    GiveUpAnnounced(w, d);
    if d.checkpoint.current.Some? && pointer.Recorded? && pointer.exit.ExitDigits? {
      var s, exit := d.checkpoint.current.value.slot, pointer.exit.value;
      RecordAnnounced(w, d, s, exit, pointer);
      RecordInv(w, d, s, exit, pointer);
      GiveUpAnnounced(w, AfterFailedRecord(d, s, exit, pointer));
    }
  }

  lemma AuthorizeAnnounced(d: Disk, s: nat, reason: string)
    requires Announced(d) && WriteAuthorization(d, s, reason).Some?
    ensures Announced(WriteAuthorization(d, s, reason).value) && Announced(Authorize(d, s, reason).value)
  {
    var cp, cq := d.checkpoint, Authorize(d, s, reason).value.checkpoint;
    assert cq.slots == cp.slots && cp.state == BlockedInfrastructure;
    assert forall t: nat :: SlotInRange(cp, t) ==> SlotOf(cq, t) == SlotOf(cp, t);
  }

  lemma FinalizeAnnounced(w: World, d: Disk)
    requires Announced(d) && d.checkpoint.state != Complete && Publish(w, d).Some?
    ensures Announced(Publish(w, d).value) && Announced(Finalize(w, d).value)
  {
    hide Finalized;
  }

  lemma StepAnnounced(w: World, d: Disk, step: Step)
    requires Inv(w, d) && Announced(d) && Apply(w, d, step).Some?
    ensures Announced(Apply(w, d, step).value)
  {
    hide Inv, Begin, Record, AfterFailedRecord, Reconcile, GiveUpWrite, WriteAuthorization, Publish, Announced;
    match step
    case BeginStep(s, targetExists) => BeginAnnounced(d, s, targetExists);
    case RecordStep(s, exit, pointer) => RecordAnnounced(w, d, s, exit, pointer);
    case RecordCut(s, exit, pointer) => RecordAnnounced(w, d, s, exit, pointer);
    case ReconcileStep(pointer) => ReconcileAnnounced(w, d, pointer);
    case GiveUpCut => GiveUpAnnounced(w, d);
    case AuthorizeStep(s, reason) => AuthorizeAnnounced(d, s, reason);
    case AuthorizeCut(s, reason) => AuthorizeAnnounced(d, s, reason);
    case FinalizeStep => if d.checkpoint.state != Complete { FinalizeAnnounced(w, d); }
    case FinalizeCut => FinalizeAnnounced(w, d);
  }

  lemma InitiallyAnnounced(d: Disk)
    requires Initial(d)
    ensures Announced(d)
  {
  }

  lemma {:induction false} RunAnnounced(w: World, states: seq<Disk>, steps: seq<Step>, i: nat)
    requires IsRun(w, states, steps) && i < |states|
    ensures Announced(states[i]) && Inv(w, states[i])
    decreases i
  {
    hide IsRun, Inv, Apply, Announced, Initial;
    RunInv(w, states, steps, i);
    if i == 0 {
      RunStarts(w, states, steps);
      InitiallyAnnounced(states[0]);
    } else {
      RunAnnounced(w, states, steps, i - 1);
      StepBefore(w, states, steps, i);
      StepAnnounced(w, states[i - 1], steps[i - 1]);
    }
  }

  // ---- what an announcement is worth ----

  lemma OnlyValidOrLost(w: World, d: Disk, s: nat)
    requires Inv(w, d) && Announced(d) && SetNext(d.checkpoint) == FinalizeNow && SlotInRange(d.checkpoint, s)
    ensures IsValid(d, s) || IsLost(d.checkpoint, s)
  {
    hide NoReroll, LatestOk, CountsOk, AuthorizationsOk, OrderOk, SelectionOk, AttemptsOk, VerdictOk;
    assert SlotOf(d.checkpoint, s).state != Running;
  }

  /** In any run, following the announcements or not: when FINALIZE is announced, all slots are
      valid exactly if none is lost; with a lost slot finalization is refused. */
  lemma FinalizeIsAnnounced(w: World, states: seq<Disk>, steps: seq<Step>, i: nat)
    requires IsRun(w, states, steps) && i < |states| && SetNext(states[i].checkpoint) == FinalizeNow
    ensures var d := states[i];
            && ((forall s: nat :: SlotInRange(d.checkpoint, s) ==> IsValid(d, s))
               <==> (forall s: nat :: !IsLost(d.checkpoint, s)))
            && ((exists s: nat :: IsLost(d.checkpoint, s)) ==> Finalize(w, d).None?)
  {
    RunAnnounced(w, states, steps, i);
    var d := states[i];
    ReadyState(d.checkpoint);
    hide IsRun, Inv, Announced, Finalize, SetNext;
    forall s: nat | SlotInRange(d.checkpoint, s) ensures IsValid(d, s) <==> !IsLost(d.checkpoint, s) {
      OnlyValidOrLost(w, d, s);
    }
    if s: nat :| IsLost(d.checkpoint, s) {
      assert d.checkpoint.slots[s - 1].state != ValidMember;
      NotYetFinal(w, d, s - 1);
    }
  }

  lemma ReadyState(cp: Checkpoint)
    requires SetNext(cp) == FinalizeNow || SetNext(cp).Start?
    ensures cp.state == Ready && cp.current.None?
  {
  }

  /** In any run: an announced slot can be begun exactly if no later slot is valid. */
  lemma StartIsAnnounced(w: World, states: seq<Disk>, steps: seq<Step>, i: nat, n: nat)
    requires IsRun(w, states, steps) && i < |states| && SetNext(states[i].checkpoint) == Start(n)
    ensures Begin(states[i], n, false).Some? <==> forall t: nat :: t > n ==> !IsValid(states[i], t)
  {
    RunAnnounced(w, states, steps, i);
    BeginExactly(w, states[i], n);
  }

  predicate Beginnable(d: Disk, s: nat)
    requires SlotInRange(d.checkpoint, s)
  {
    SlotOf(d.checkpoint, s).state == Pending
      || (SlotOf(d.checkpoint, s).state == InfrastructureInvalid && Authorized(d, s))
  }

  ghost predicate LaterValid(d: Disk, s: nat) { exists t: nat :: t > s && IsValid(d, t) }

  lemma BeginExactly(w: World, d: Disk, s: nat)
    requires Inv(w, d) && d.checkpoint.state == Ready
    ensures Begin(d, s, false).Some? <==> SlotInRange(d.checkpoint, s) && Beginnable(d, s) && !LaterValid(d, s)
  {
    hide NoReroll, LatestOk, CountsOk, AuthorizationsOk, OrderOk, SelectionOk, AttemptsOk, VerdictOk;
    var cp := d.checkpoint;
    if SlotInRange(cp, s) {
      forall j | s <= j < |cp.slots| ensures cp.slots[j].state == ValidMember <==> IsValid(d, j + 1) {
        assert SlotOf(cp, j + 1) == cp.slots[j];
      }
      if LaterValid(d, s) {
        var t: nat :| t > s && IsValid(d, t);
        assert cp.slots[t - 1].state == ValidMember;
      }
    }
  }

  /** In a run that follows the announcements, every announced slot can be begun. */
  lemma GuidedStartSucceeds(w: World, states: seq<Disk>, steps: seq<Step>, i: nat, n: nat)
    requires IsGuidedRun(w, states, steps) && i < |states| && SetNext(states[i].checkpoint) == Start(n)
    ensures Begin(states[i], n, false).Some?
  {
    StartIsAnnounced(w, states, steps, i, n);
    RunAnnounced(w, states, steps, i);
    GuidedRunInv(w, states, steps, i);
    hide Inv, Begin, IsRun;
    var d := states[i];
    assert SlotInRange(d.checkpoint, n) && SlotOf(d.checkpoint, n).state != ValidMember;
    forall t: nat | t > n ensures !IsValid(d, t) {
    }
  }
}
