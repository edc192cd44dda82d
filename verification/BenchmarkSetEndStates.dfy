/**
 End states: in which reachable states no command changes any file any more, with runs that end
 in them.
 */
module BenchmarkSetEndStates {
  import opened Options
  import opened BenchmarkSet
  import opened BenchmarkSetRuns
  import opened BenchmarkSetTheorems
  import opened BenchmarkSetGuided
  import opened BenchmarkSetAnnouncements

  /** No command, whole or cut short, changes any file. */
  ghost predicate Frozen(w: World, d: Disk) {
    forall step :: Apply(w, d, step).Some? ==> Apply(w, d, step).value == d
  }

  // ---- where the records come from ----

  ghost predicate FromCommand(r: AttemptRecord) {
    || r == GivenUp(r.slot, r.attempt)
    || exists exit, pointer :: r == Outcome(r.slot, r.attempt, exit, pointer)
  }

  /** Every record was written by a command, every authorization has a proper reason, and a set
      blocked by infrastructure has a lost slot after which no slot is valid. */
  ghost predicate Traced(d: Disk) {
    && (forall k :: k in d.attempts ==> FromCommand(d.attempts[k]))
    && (forall k :: k in d.replacements ==> ReasonOk(d.replacements[k].reason))
    && (d.checkpoint.state == BlockedInfrastructure ==> exists s: nat :: LastLost(d, s))
  }

  ghost predicate LastLost(d: Disk, s: nat) { IsLost(d.checkpoint, s) && !LaterValid(d, s) }

  lemma BeginTraced(d: Disk, s: nat, targetExists: bool)
    requires Traced(d) && Begin(d, s, targetExists).Some?
    ensures Traced(Begin(d, s, targetExists).value)
  {
    hide FromCommand, LastLost;
  }

  lemma WriteAttemptTraced(d: Disk, record: AttemptRecord)
    requires Traced(d) && FromCommand(record) && WriteAttempt(d, record).Some? && d.checkpoint.current.Some?
    requires RunningOk(d.checkpoint)
    ensures Traced(WriteAttempt(d, record).value)
  {
    hide FromCommand, LastLost;
  }

  lemma SaveTraced(w: World, d: Disk, record: AttemptRecord)
    requires RunningRecorded(d, record) && Traced(d) && SaveOutcome(w, d, record).Some?
    ensures Traced(SaveOutcome(w, d, record).value)
  {
    SaveSettles(w, d, record);
    SavedState(w, d, record);
    var e := SaveOutcome(w, d, record).value;
    hide SaveOutcome, FromCommand, NoReroll, LatestOk, CountsOk, AuthorizationsOk, SelectionOk, AttemptsOk;
    if e.checkpoint.state == BlockedInfrastructure {
      forall t: nat | t > record.slot ensures !IsValid(e, t) {
        assert SlotInRange(d.checkpoint, t) ==> SlotOf(e.checkpoint, t) == SlotOf(d.checkpoint, t);
      }
      assert LastLost(e, record.slot);
    }
  }

  lemma SettleTraced(w: World, d: Disk, record: AttemptRecord)
    requires Inv(w, d) && Fresh(d, record) && FromCommand(record) && Traced(d) && WriteAttempt(d, record).Some?
    ensures var e := WriteAttempt(d, record).value;
            && Traced(e) && SlotInRange(e.checkpoint, record.slot)
            && (SaveOutcome(w, e, record).Some? ==> Traced(SaveOutcome(w, e, record).value))
  {
    WriteAttemptInv(w, d, record);
    WriteAttemptTraced(d, record);
    var e := WriteAttempt(d, record).value;
    hide SaveOutcome, Inv, Traced;
    if SaveOutcome(w, e, record).Some? {
      SaveTraced(w, e, record);
    }
  }

  lemma RecordTraced(w: World, d: Disk, s: nat, exit: int, pointer: Pointer)
    requires Inv(w, d) && Traced(d)
    ensures Traced(AfterFailedRecord(d, s, exit, pointer))
    ensures Record(w, d, s, exit, pointer).Some? ==> Traced(Record(w, d, s, exit, pointer).value)
  {
    hide SaveOutcome, Inv, Traced, Fresh;
    if IntentFor(d.checkpoint, s) {
      var record := RecordedOutcome(d, s, exit, pointer);
      OutcomeShape(s, d.checkpoint.current.value.attempt, exit, pointer);
      assert FromCommand(record);
      hide Outcome, FromCommand;
      if WriteAttempt(d, record).Some? {
        SettleTraced(w, d, record);
      }
    }
  }

  lemma GiveUpTraced(w: World, d: Disk)
    requires Inv(w, d) && Traced(d)
    ensures GiveUpWrite(d).Some? ==> Traced(GiveUpWrite(d).value)
    ensures GiveUp(w, d).Some? ==> Traced(GiveUp(w, d).value)
  {
    if d.checkpoint.current.Some? {
      var record := GivenUp(d.checkpoint.current.value.slot, d.checkpoint.current.value.attempt);
      hide SaveOutcome, Inv, Traced;
      if WriteAttempt(d, record).Some? {
        SettleTraced(w, d, record);
      }
    }
  }

  lemma ReconcileTraced(w: World, d: Disk, pointer: Pointer)
    requires Inv(w, d) && Traced(d) && Reconcile(w, d, pointer).Some?
    ensures Traced(Reconcile(w, d, pointer).value)
  {
    hide Inv, Record, AfterFailedRecord, GiveUp, Traced;
    GiveUpTraced(w, d);
    if d.checkpoint.current.Some? && pointer.Recorded? && pointer.exit.ExitDigits? {
      var s, exit := d.checkpoint.current.value.slot, pointer.exit.value;
      RecordTraced(w, d, s, exit, pointer);
      RecordInv(w, d, s, exit, pointer);
      GiveUpTraced(w, AfterFailedRecord(d, s, exit, pointer));
    }
  }

  lemma AuthorizeTraced(d: Disk, s: nat, reason: string)
    requires Traced(d) && WriteAuthorization(d, s, reason).Some?
    ensures Traced(WriteAuthorization(d, s, reason).value) && Traced(Authorize(d, s, reason).value)
  {
    hide FromCommand, ReasonOk;
    var e := WriteAuthorization(d, s, reason).value;
    var t: nat :| LastLost(d, t);
    assert LastLost(e, t) by { SameValid(d, e, t); }
  }

  lemma SameValid(d: Disk, e: Disk, s: nat)
    requires e.checkpoint == d.checkpoint
    ensures LastLost(e, s) <==> LastLost(d, s)
  {
    assert forall t: nat :: IsValid(e, t) <==> IsValid(d, t);
  }

  lemma FinalizeTraced(w: World, d: Disk)
    requires Traced(d) && d.checkpoint.state != Complete && Publish(w, d).Some?
    ensures Traced(Publish(w, d).value) && Traced(Finalize(w, d).value)
  {
    hide Finalized, FromCommand;
    var e := Publish(w, d).value;
    if s: nat :| LastLost(d, s) {
      SameValid(d, e, s);
    }
  }

  lemma StepTraced(w: World, d: Disk, step: Step)
    requires Inv(w, d) && Traced(d) && Apply(w, d, step).Some?
    ensures Traced(Apply(w, d, step).value)
  {
    hide Inv, Begin, Record, AfterFailedRecord, Reconcile, GiveUpWrite, WriteAuthorization, Publish, Traced;
    match step
    case BeginStep(s, targetExists) => BeginTraced(d, s, targetExists);
    case RecordStep(s, exit, pointer) => RecordTraced(w, d, s, exit, pointer);
    case RecordCut(s, exit, pointer) => RecordTraced(w, d, s, exit, pointer);
    case ReconcileStep(pointer) => ReconcileTraced(w, d, pointer);
    case GiveUpCut => GiveUpTraced(w, d);
    case AuthorizeStep(s, reason) => AuthorizeTraced(d, s, reason);
    case AuthorizeCut(s, reason) => AuthorizeTraced(d, s, reason);
    case FinalizeStep => if d.checkpoint.state != Complete { FinalizeTraced(w, d); }
    case FinalizeCut => FinalizeTraced(w, d);
  }

  lemma {:induction false} RunTraced(w: World, states: seq<Disk>, steps: seq<Step>, i: nat)
    requires IsRun(w, states, steps) && i < |states|
    ensures Traced(states[i]) && Announced(states[i]) && Inv(w, states[i])
    decreases i
  {
    hide IsRun, Inv, Apply, Traced, Announced;
    RunAnnounced(w, states, steps, i);
    if i == 0 {
      RunStarts(w, states, steps);
      InitiallyTraced(states[0]);
    } else {
      RunTraced(w, states, steps, i - 1);
      StepBefore(w, states, steps, i);
      StepTraced(w, states[i - 1], steps[i - 1]);
    }
  }

  lemma InitiallyTraced(d: Disk)
    requires Initial(d)
    ensures Traced(d)
  {
  }

  // ---- no attempt is running ----

  ghost predicate AllValid(d: Disk) { forall s: nat :: SlotInRange(d.checkpoint, s) ==> IsValid(d, s) }

  /** The guards of finalization: every slot valid, one key, metrics that aggregate, and no other
      set under the name. */
  ghost predicate Publishable(w: World, d: Disk)
    requires Selected(w, d).Some?
  {
    var chosen := Selected(w, d).value;
    && AllValid(d) && EqualKeys(chosen)
    && (SelectedComplete(w, d.attempts, d.checkpoint.slots, 0); w.aggregates(Members(chosen)))
    && (AllChosen(w, d); NameIsFree(w, d, FinalDocument(d, chosen)))
  }

  predicate NameIsFree(w: World, d: Disk, document: FinalSet) {
    w.setId(document) in d.sets ==> d.sets[w.setId(document)] == document
  }

  lemma AllChosen(w: World, d: Disk)
    requires AllValid(d) && Selected(w, d).Some?
    ensures |Selected(w, d).value| == |d.checkpoint.slots|
    ensures forall c :: c in Selected(w, d).value ==> c.record.member.Some? && c.record.orchestration.Some?
  {
    forall j | 0 <= j < |d.checkpoint.slots| ensures d.checkpoint.slots[j].state == ValidMember {
      assert IsValid(d, j + 1);
    }
    AllSelected(w, d.attempts, d.checkpoint.slots, 0);
    SelectedComplete(w, d.attempts, d.checkpoint.slots, 0);
  }

  /** Finalization succeeds exactly under its guards, and its first write with it. */
  lemma FinalizeExactly(w: World, d: Disk)
    requires Inv(w, d) && d.checkpoint.state != Complete && d.checkpoint.current.None?
    ensures Publish(w, d).Some? <==> Publishable(w, d)
    ensures Finalize(w, d).Some? <==> Publishable(w, d)
  {
    hide SelectedFrom, AuditOf, NoReroll, AuthorizationsOk, LatestOk, DistinctIdentities, EqualKeys;
    if AllValid(d) {
      AllChosen(w, d);
      forall j | 0 <= j < |d.checkpoint.slots| ensures d.checkpoint.slots[j].state == ValidMember {
        assert IsValid(d, j + 1);
      }
    } else {
      var s: nat :| SlotInRange(d.checkpoint, s) && !IsValid(d, s);
      assert d.checkpoint.slots[s - 1].state != ValidMember;
    }
  }

  lemma FinalizeChanges(w: World, d: Disk)
    requires d.checkpoint.state != Complete && Finalize(w, d).Some?
    ensures Finalize(w, d).value != d
  {
    hide Publish, Finalized;
  }

  /** Without a running attempt only beginning, authorizing and finalizing can change anything. */
  lemma IdleStep(w: World, d: Disk, step: Step)
    requires d.checkpoint.current.None? && Apply(w, d, step).Some? && Apply(w, d, step).value != d
    ensures step.BeginStep? || step.AuthorizeStep? || step.AuthorizeCut? || step.FinalizeStep? || step.FinalizeCut?
  {
    hide Outcome, SaveOutcome;
  }

  lemma AuthorizeNeedsBlock(w: World, d: Disk, step: Step)
    requires (step.AuthorizeStep? || step.AuthorizeCut?) && Apply(w, d, step).Some?
    ensures d.checkpoint.state == BlockedInfrastructure
  {
  }

  lemma TargetIsFree(d: Disk, s: nat, targetExists: bool)
    requires Begin(d, s, targetExists).Some?
    ensures Begin(d, s, false).Some?
  {
  }

  lemma CompleteIsFrozen(w: World, d: Disk)
    requires d.checkpoint.state == Complete && d.checkpoint.current.None?
    ensures Frozen(w, d)
  {
    forall step | Apply(w, d, step).Some? ensures Apply(w, d, step).value == d {
      if Apply(w, d, step).value != d {
        IdleStep(w, d, step);
      }
    }
  }

  /** A failed or unresolved slot ends the set. */
  lemma FailedIsFrozen(w: World, d: Disk)
    requires Inv(w, d) && d.checkpoint.state in {BlockedFailure, SetUnresolved}
    ensures Frozen(w, d)
  {
    hide NoReroll, LatestOk, CountsOk, AuthorizationsOk, OrderOk, SelectionOk, AttemptsOk, Publish;
    var cp := d.checkpoint;
    var i :| 0 <= i < |cp.slots| && cp.slots[i].state != ValidMember;
    NotYetFinal(w, d, i);
    NotYetPublished(w, d, i);
    hide Inv, Apply;
    forall step | Apply(w, d, step).Some? ensures Apply(w, d, step).value == d {
      FailedStep(w, d, step);
    }
  }

  lemma NotYetPublished(w: World, d: Disk, i: nat)
    requires i < |d.checkpoint.slots| && d.checkpoint.slots[i].state != ValidMember
    ensures Publish(w, d).None?
  {
  }

  lemma FailedStep(w: World, d: Disk, step: Step)
    requires d.checkpoint.state in {BlockedFailure, SetUnresolved} && d.checkpoint.current.None?
    requires Finalize(w, d).None? && Publish(w, d).None? && Apply(w, d, step).Some?
    ensures Apply(w, d, step).value == d
  {
    hide Publish, Finalize;
    if Apply(w, d, step).value != d {
      IdleStep(w, d, step);
    }
  }

  /** An INCOMPATIBLE set can only be finalized. */
  lemma IncompatibleExactly(w: World, d: Disk)
    requires Inv(w, d) && d.checkpoint.state == Incompatible
    ensures Frozen(w, d) <==> !Publishable(w, d)
  {
    hide NoReroll, LatestOk, CountsOk, AuthorizationsOk, OrderOk, SelectionOk, AttemptsOk, Publishable, Publish;
    assert d.checkpoint.current.None?;
    FinalizeExactly(w, d);
    hide Inv, Finalize;
    if Publishable(w, d) {
      FinalizeChanges(w, d);
      assert Apply(w, d, FinalizeStep).Some?;
    } else {
      forall step | Apply(w, d, step).Some? ensures Apply(w, d, step).value == d {
        if Apply(w, d, step).value != d {
          IdleStep(w, d, step);
        }
      }
    }
  }

  /** No slot can be begun: each that is not valid precedes a valid one, or is lost without an
      authorization. */
  ghost predicate NothingToBegin(d: Disk) {
    forall s: nat :: SlotInRange(d.checkpoint, s) && !IsValid(d, s) ==>
      LaterValid(d, s) || (IsLost(d.checkpoint, s) && !Authorized(d, s))
  }

  lemma NothingBegins(w: World, d: Disk)
    requires Inv(w, d) && Announced(d) && d.checkpoint.state == Ready
    ensures NothingToBegin(d) <==> forall s: nat :: Begin(d, s, false).None?
  {
    hide Begin, Inv, Announced, Authorized, LaterValid;
    forall s: nat
      ensures Begin(d, s, false).Some? <==> SlotInRange(d.checkpoint, s) && Beginnable(d, s) && !LaterValid(d, s)
    {
      BeginExactly(w, d, s);
    }
    forall s: nat | SlotInRange(d.checkpoint, s) && !IsValid(d, s)
      ensures !Beginnable(d, s) <==> IsLost(d.checkpoint, s) && !Authorized(d, s)
    {
      ReadySlots(w, d, s);
    }
    if forall s: nat :: Begin(d, s, false).None? {
      forall s: nat | SlotInRange(d.checkpoint, s) && !IsValid(d, s)
        ensures LaterValid(d, s) || (IsLost(d.checkpoint, s) && !Authorized(d, s))
      {
        var began := Begin(d, s, false);
      }
    }
  }

  lemma ReadySlots(w: World, d: Disk, s: nat)
    requires Inv(w, d) && Announced(d) && d.checkpoint.state == Ready && SlotInRange(d.checkpoint, s)
    ensures SlotOf(d.checkpoint, s).state in {Pending, ValidMember, InfrastructureInvalid}
  {
    hide NoReroll, LatestOk, CountsOk, AuthorizationsOk, OrderOk, SelectionOk, AttemptsOk, VerdictOk, Announces;
    assert SlotOf(d.checkpoint, s).state != Running;
  }

  lemma BeginChanges(d: Disk, s: nat, targetExists: bool)
    requires Begin(d, s, targetExists).Some?
    ensures Begin(d, s, targetExists).value != d
  {
  }

  lemma ReadyExactly(w: World, d: Disk)
    requires Inv(w, d) && Announced(d) && d.checkpoint.state == Ready
    ensures Frozen(w, d) <==> NothingToBegin(d) && !Publishable(w, d)
  {
    hide NoReroll, LatestOk, CountsOk, AuthorizationsOk, OrderOk, SelectionOk, AttemptsOk, Publishable, Publish;
    hide NothingToBegin, Announced, Begin;
    assert d.checkpoint.current.None?;
    FinalizeExactly(w, d);
    NothingBegins(w, d);
    hide Inv, Finalize;
    if Publishable(w, d) {
      FinalizeChanges(w, d);
      assert Apply(w, d, FinalizeStep).Some?;
    } else if s: nat :| Begin(d, s, false).Some? {
      BeginChanges(d, s, false);
      assert Apply(w, d, BeginStep(s, false)).Some?;
    } else {
      forall step | Apply(w, d, step).Some? ensures Apply(w, d, step).value == d {
        if Apply(w, d, step).value != d {
          IdleStep(w, d, step);
          if step.BeginStep? {
            TargetIsFree(d, step.slot, step.targetExists);
          } else if step.AuthorizeStep? || step.AuthorizeCut? {
            AuthorizeNeedsBlock(w, d, step);
          }
        }
      }
    }
  }

  // ---- blocked by infrastructure: never an end ----

  /** The last slot that was ever begun. */
  lemma LastBegun(cp: Checkpoint, s: nat) returns (t: nat)
    requires SlotInRange(cp, s) && SlotOf(cp, s).state != Pending
    ensures s <= t && SlotInRange(cp, t) && SlotOf(cp, t).state != Pending
    ensures forall u: nat :: SlotInRange(cp, u) && u > t ==> SlotOf(cp, u).state == Pending
    decreases |cp.slots| - s
  {
    if u: nat :| SlotInRange(cp, u) && u > s && SlotOf(cp, u).state != Pending {
      t := LastBegun(cp, u);
    } else {
      t := s;
    }
  }

  /** An authorization that was written before its checkpoint is completed with the same reason. */
  lemma AuthorizeWorks(w: World, d: Disk, s: nat) returns (reason: string)
    requires Inv(w, d) && Traced(d) && d.checkpoint.state == BlockedInfrastructure && IsLost(d.checkpoint, s)
    requires forall u: nat :: SlotInRange(d.checkpoint, u) && u > s ==> SlotOf(d.checkpoint, u).state == Pending
    ensures Authorize(d, s, reason).Some? && Authorize(d, s, reason).value != d
  {
    hide NoReroll, CountsOk, OrderOk, SelectionOk, VerdictOk, FromCommand, LastLost;
    var cp, k := d.checkpoint, (s, SlotOf(d.checkpoint, s).attemptCount);
    assert forall j :: s <= j < |cp.slots| ==> cp.slots[j] == SlotOf(cp, j + 1);
    assert k in d.attempts && d.attempts[k].classification == InfrastructureInvalid;
    reason := if k in d.replacements then d.replacements[k].reason else "x";
    if k in d.replacements {
      assert AuthorizationOk(d, k, d.replacements[k]);
    }
  }

  lemma BlockedIsNotFrozen(w: World, d: Disk)
    requires Inv(w, d) && Traced(d) && Announced(d) && d.checkpoint.state == BlockedInfrastructure
    ensures !Frozen(w, d)
  {
    hide NoReroll, LatestOk, CountsOk, AuthorizationsOk, OrderOk, SelectionOk, AttemptsOk, VerdictOk;
    hide FromCommand, Authorize, Announces;
    var s: nat :| LastLost(d, s);
    var t := LastBegun(d.checkpoint, s);
    assert SlotOf(d.checkpoint, t).state != Running && !Failed(SlotOf(d.checkpoint, t).state);
    assert t > s ==> !IsValid(d, t);
    assert IsLost(d.checkpoint, t);
    var reason := AuthorizeWorks(w, d, t);
    assert Apply(w, d, AuthorizeStep(t, reason)).Some?;
  }

  // ---- an attempt is running ----

  /** The running attempt is recorded as a success whose documents give no key. */
  predicate Stranded(w: World, d: Disk) {
    && d.checkpoint.current.Some?
    && var k := (d.checkpoint.current.value.slot, d.checkpoint.current.value.attempt);
       && k in d.attempts && d.attempts[k].classification == ValidMember
       && d.attempts[k].member.Some? && w.key(d.attempts[k].member.value).None?
  }

  /** With one more valid slot the members can be read back exactly if the new one can. */
  lemma {:induction false} OneMoreSelected(w: World, attempts: map<(nat, nat), AttemptRecord>, slots: seq<Slot>,
      slots': seq<Slot>, i: nat, s: nat)
    requires i <= |slots| == |slots'| && 1 <= s <= |slots| && SelectedFrom(w, attempts, slots, i).Some?
    requires forall j :: 0 <= j < |slots| && j != s - 1 ==> slots'[j] == slots[j]
    requires slots[s - 1].state != ValidMember && slots'[s - 1].state == ValidMember
    requires slots'[s - 1].selectedAttempt.Some? && (s, slots'[s - 1].selectedAttempt.value) in attempts
    requires var r := attempts[(s, slots'[s - 1].selectedAttempt.value)]; r.member.Some? && r.orchestration.Some?
    ensures SelectedFrom(w, attempts, slots', i).Some?
            <==> (i < s ==> w.key(attempts[(s, slots'[s - 1].selectedAttempt.value)].member.value).Some?)
    decreases |slots| - i
  {
    if i < |slots| {
      OneMoreSelected(w, attempts, slots, slots', i + 1, s);
    }
  }

  lemma SaveExactly(w: World, d: Disk, r: AttemptRecord)
    requires Inv(w, d) && RunningRecorded(d, r)
    ensures SaveOutcome(w, d, r).None? <==> Stranded(w, d)
  {
    hide NoReroll, LatestOk, CountsOk, AuthorizationsOk, OrderOk, SelectionOk;
    var cp, s := d.checkpoint, r.slot;
    assert AttemptOk(cp, (r.slot, r.attempt), r);
    assert SlotOf(cp, s).state == Running;
    if r.classification == ValidMember {
      var slots' := cp.slots[s - 1 := Slot(ValidMember, cp.slots[s - 1].attemptCount, Some(r.attempt))];
      hide Bookkeeping, EqualKeys, DistinctIdentities, FirstPending;
      OneMoreSelected(w, d.attempts, cp.slots, slots', 0, s);
    }
  }

  /** What a running set still writes: nothing exactly when it is stranded. */
  lemma StrandedIsFrozen(w: World, d: Disk)
    requires Inv(w, d) && Stranded(w, d)
    ensures Frozen(w, d)
  {
    hide NoReroll, LatestOk, CountsOk, AuthorizationsOk, OrderOk, SelectionOk, VerdictOk;
    assert d.checkpoint.state == AttemptRunning;
    var r := RecordOf(w, d);
    SaveExactly(w, d, r);
    hide Inv, Apply;
    forall step | Apply(w, d, step).Some? ensures Apply(w, d, step).value == d {
      StrandedStep(w, d, r, step);
    }
  }

  lemma RecordOf(w: World, d: Disk) returns (r: AttemptRecord)
    requires Inv(w, d) && d.checkpoint.current.Some?
    requires var intent := d.checkpoint.current.value; (intent.slot, intent.attempt) in d.attempts
    ensures RunningRecorded(d, r)
  {
    hide NoReroll, LatestOk, CountsOk, AuthorizationsOk, OrderOk, SelectionOk, VerdictOk;
    var intent := d.checkpoint.current.value;
    r := d.attempts[(intent.slot, intent.attempt)];
    assert AttemptOk(d.checkpoint, (intent.slot, intent.attempt), r);
  }

  lemma StrandedStep(w: World, d: Disk, r: AttemptRecord, step: Step)
    requires RunningRecorded(d, r) && r.classification == ValidMember && SaveOutcome(w, d, r).None?
    requires d.checkpoint.state == AttemptRunning && Apply(w, d, step).Some?
    ensures Apply(w, d, step).value == d
  {
    hide Bookkeeping, SaveOutcome;
    RewriteRecord(w, d, r);
    if step.RecordStep? || step.RecordCut? {
      RecordStranded(w, d, r, step.slot, step.exit, step.pointer);
    } else if step.ReconcileStep? {
      var s := d.checkpoint.current.value.slot;
      if step.pointer.Recorded? && step.pointer.exit.ExitDigits? {
        RecordStranded(w, d, r, s, step.pointer.exit.value, step.pointer);
      }
    }
    hide Record, AfterFailedRecord;
  }

  /** The record cannot be given up any more. */
  lemma RewriteRecord(w: World, d: Disk, r: AttemptRecord)
    requires RunningRecorded(d, r) && r.classification == ValidMember
    ensures GiveUpWrite(d).None? && GiveUp(w, d).None?
  {
    hide Bookkeeping, SaveOutcome;
  }

  lemma RecordStranded(w: World, d: Disk, r: AttemptRecord, s: nat, exit: int, pointer: Pointer)
    requires RunningRecorded(d, r) && SaveOutcome(w, d, r).None?
    ensures Record(w, d, s, exit, pointer).None? && AfterFailedRecord(d, s, exit, pointer) == d
  {
    hide Bookkeeping, SaveOutcome;
    if IntentFor(d.checkpoint, s) {
      OutcomeShape(s, d.checkpoint.current.value.attempt, exit, pointer);
      var o := Outcome(s, d.checkpoint.current.value.attempt, exit, pointer);
      hide Outcome;
      if o == r {
        assert d.attempts[(r.slot, r.attempt) := r] == d.attempts;
        assert WriteAttempt(d, o) == Some(d);
      } else {
        assert WriteAttempt(d, o).None?;
      }
    }
  }

  lemma UnrecordedIsNotFrozen(w: World, d: Disk)
    requires d.checkpoint.current.Some?
    requires var intent := d.checkpoint.current.value; (intent.slot, intent.attempt) !in d.attempts
    ensures !Frozen(w, d)
  {
    var e := GiveUpWrite(d).value;
    assert Apply(w, d, GiveUpCut) == Some(e);
    assert e.attempts != d.attempts;
  }

  lemma RecordedIsNotFrozen(w: World, d: Disk, r: AttemptRecord)
    requires RunningRecorded(d, r) && Traced(d) && SaveOutcome(w, d, r).Some?
    ensures !Frozen(w, d)
  {
    hide Bookkeeping, LastLost;
    assert WriteAttempt(d, r) == Some(d);
    var e := SaveOutcome(w, d, r).value;
    assert e.checkpoint.revision == d.checkpoint.revision + 1 by { SaveCounts(w, d, r); }
    hide SaveOutcome, WriteAttempt;
    if r == GivenUp(r.slot, r.attempt) {
      assert Apply(w, d, ReconcileStep(NoPointer)) == Some(e);
    } else {
      var exit, pointer :| r == Outcome(r.slot, r.attempt, exit, pointer);
      assert Apply(w, d, RecordStep(r.slot, exit, pointer)) == Some(e);
    }
  }

  lemma SaveCounts(w: World, d: Disk, r: AttemptRecord)
    requires SlotInRange(d.checkpoint, r.slot) && SaveOutcome(w, d, r).Some?
    ensures SaveOutcome(w, d, r).value.checkpoint.revision == d.checkpoint.revision + 1
  {
    hide SelectedFrom, EqualKeys, DistinctIdentities, FirstPending;
  }

  lemma RunningExactly(w: World, d: Disk)
    requires Inv(w, d) && Traced(d) && d.checkpoint.state == AttemptRunning
    ensures Frozen(w, d) <==> Stranded(w, d)
  {
    hide NoReroll, LatestOk, CountsOk, AuthorizationsOk, OrderOk, SelectionOk, VerdictOk, AttemptsOk, Frozen, Traced;
    var intent := d.checkpoint.current.value;
    if Stranded(w, d) {
      StrandedIsFrozen(w, d);
    } else if (intent.slot, intent.attempt) !in d.attempts {
      UnrecordedIsNotFrozen(w, d);
    } else {
      var r := RecordOf(w, d);
      SaveExactly(w, d, r);
      RecordedIsNotFrozen(w, d, r);
    }
  }

  // ---- the end states ----

  ghost predicate EndState(w: World, d: Disk)
    requires Selected(w, d).Some?
  {
    match d.checkpoint.state
    case Complete => true
    case BlockedFailure => true
    case SetUnresolved => true
    case BlockedInfrastructure => false
    case AttemptRunning => Stranded(w, d)
    case Incompatible => !Publishable(w, d)
    case Ready => NothingToBegin(d) && !Publishable(w, d)
  }

  /** In every run, exactly these states are never left again. */
  lemma FrozenExactly(w: World, states: seq<Disk>, steps: seq<Step>, i: nat)
    requires IsRun(w, states, steps) && i < |states|
    ensures Selected(w, states[i]).Some?
    ensures Frozen(w, states[i]) <==> EndState(w, states[i])
  {
    RunTraced(w, states, steps, i);
    var d := states[i];
    hide IsRun, Bookkeeping, Frozen, Traced, Announced, Publishable, Stranded, NothingToBegin, MembersCompatible;
    hide SomeSlot;
    hide Published;
    match d.checkpoint.state
    case Complete =>
      IdleStates(w, d);
      CompleteIsFrozen(w, d);
    case BlockedFailure => FailedIsFrozen(w, d);
    case SetUnresolved => FailedIsFrozen(w, d);
    case BlockedInfrastructure => BlockedIsNotFrozen(w, d);
    case AttemptRunning => RunningExactly(w, d);
    case Incompatible => IncompatibleExactly(w, d);
    case Ready => ReadyExactly(w, d);
  }

  lemma IdleStates(w: World, d: Disk)
    requires Inv(w, d) && d.checkpoint.state != AttemptRunning
    ensures d.checkpoint.current.None?
  {
    hide NoReroll, LatestOk, CountsOk, AuthorizationsOk, OrderOk, SelectionOk, VerdictOk, AttemptsOk;
  }

  lemma {:induction false} FrozenIsForEver(w: World, states: seq<Disk>, steps: seq<Step>, i: nat, j: nat)
    requires IsRun(w, states, steps) && i <= j < |states| && Frozen(w, states[i])
    ensures states[j] == states[i]
    decreases j
  {
    hide IsRun, Inv, Apply;
    if i < j {
      FrozenIsForEver(w, states, steps, i, j - 1);
      StepBefore(w, states, steps, j);
    }
  }

  /** Following the announcements leaves one kind of READY end: all slots valid, and finalization
      refused by the metrics or by another set under the name. */
  lemma GuidedReadyExactly(w: World, states: seq<Disk>, steps: seq<Step>, i: nat)
    requires IsGuidedRun(w, states, steps) && i < |states| && states[i].checkpoint.state == Ready
    ensures Selected(w, states[i]).Some?
    ensures Frozen(w, states[i]) <==> AllValid(states[i]) && !Publishable(w, states[i])
  {
    RunTraced(w, states, steps, i);
    var d := states[i];
    hide NoReroll, LatestOk, CountsOk, AuthorizationsOk, OrderOk, SelectionOk, AttemptsOk, Traced, Announced;
    hide Publishable;
    hide MembersCompatible, IsRun, Frozen, NothingToBegin, Begin;
    ReadyExactly(w, d);
    NothingBegins(w, d);
    assert d.checkpoint.current.None?;
    if d.checkpoint.nextPending.Some? {
      GuidedStartSucceeds(w, states, steps, i, d.checkpoint.nextPending.value);
      StartIsNotValid(w, d, d.checkpoint.nextPending.value);
    } else {
      forall s: nat | SlotInRange(d.checkpoint, s) ensures IsValid(d, s) {
        GuidedMembersFormPrefix(w, states, steps, i, s, 0);
      }
    }
    if AllValid(d) {
      assert NothingToBegin(d) by { AllValidBegins(d); }
    }
  }

  lemma StartIsNotValid(w: World, d: Disk, s: nat)
    requires Begin(d, s, false).Some?
    ensures SlotInRange(d.checkpoint, s) && !IsValid(d, s)
  {
  }

  lemma AllValidBegins(d: Disk)
    requires AllValid(d)
    ensures NothingToBegin(d)
  {
  }

  // ---- READY with a slot missing ----

  /** Some slot is not valid, and none that is not can be begun. */
  ghost predicate DeadEnd(d: Disk) { d.checkpoint.state == Ready && !AllValid(d) && NothingToBegin(d) }

  /** A reachable READY set with a slot still missing is at a dead end exactly when no slot at all
      can be begun. */
  lemma DeadEndExactly(w: World, states: seq<Disk>, steps: seq<Step>, i: nat)
    requires IsRun(w, states, steps) && i < |states| && states[i].checkpoint.state == Ready
    requires !AllValid(states[i])
    ensures DeadEnd(states[i]) <==> forall s: nat :: Begin(states[i], s, false).None?
  {
    hide IsRun, Begin, NothingToBegin;
    RunAnnounced(w, states, steps, i);
    NothingBegins(w, states[i]);
  }

  /** From a dead end every later state is the same. */
  lemma DeadEndIsForEver(w: World, states: seq<Disk>, steps: seq<Step>, i: nat, j: nat)
    requires IsRun(w, states, steps) && i <= j < |states| && DeadEnd(states[i])
    ensures Frozen(w, states[i]) && states[j] == states[i]
  {
    hide IsRun, NothingToBegin, Frozen;
    FrozenExactly(w, states, steps, i);
    FrozenIsForEver(w, states, steps, i, j);
  }

  // ---- runs that end ----

  /** The run in which FINALIZE is announced and refused has reached a dead end. */
  lemma UnguidedRunIsStuck() returns (states: seq<Disk>, steps: seq<Step>)
    ensures IsRun(PLAIN_WORLD, states, steps) && |states| == 5
    ensures SetNext(states[4].checkpoint) == FinalizeNow && Finalize(PLAIN_WORLD, states[4]).None?
    ensures DeadEnd(states[4]) && Frozen(PLAIN_WORLD, states[4])
  {
    states, steps := UnguidedAnnouncement();
    var d := states[4];
    assert SlotOf(d.checkpoint, 1) == MEMBER && SlotOf(d.checkpoint, 2) == LOST;
    assert SlotInRange(d.checkpoint, 2) && !IsValid(d, 2);
    DeadEndIsForEver(PLAIN_WORLD, states, steps, 4, 4);
  }

  lemma SecondAlone(w: World, r: AttemptRecord, attempts: map<(nat, nat), AttemptRecord>)
    requires w == PLAIN_WORLD && r.member.Some? && r.orchestration.Some?
    requires (2, 1) in attempts && attempts[(2, 1)] == r
    ensures SelectedFrom(w, attempts, [UNTOUCHED, MEMBER], 0) == Some([Chosen(r, "key")])
  {
    var slots := [UNTOUCHED, MEMBER];
    assert SelectedFrom(w, attempts, slots, 2) == Some([]);
    SelectedStep(w, attempts, slots, 1, r);
    assert [Chosen(r, "key")] + [] == [Chosen(r, "key")];
  }

  lemma SecondFirst(w: World, d: Disk, r: AttemptRecord, e: Disk)
    requires w == PLAIN_WORLD && r == SuccessRecord(2, "run", "a")
    requires d == At([UNTOUCHED, STARTED], Some(Intent(2, 1)), Some(2), AttemptRunning, 1, map[])
    requires e == At([UNTOUCHED, MEMBER], None, Some(1), Ready, 2, map[(2, 1) := r])
    ensures Record(w, d, 2, 0, Success("run", "a")) == Some(e)
  {
    assert Outcome(2, 1, 0, Success("run", "a")) == r;
    SecondAlone(w, r, map[(2, 1) := r]);
    assert [UNTOUCHED, STARTED][1 := MEMBER] == [UNTOUCHED, MEMBER];
    hide SelectedFrom, Outcome;
  }

  /** An announced slot that cannot be begun: slot 2 was begun first and is valid. */
  lemma AnnouncedStartIsRefused() returns (states: seq<Disk>, steps: seq<Step>)
    ensures IsRun(PLAIN_WORLD, states, steps) && |states| == 3
    ensures SetNext(states[2].checkpoint) == Start(1) && Begin(states[2], 1, false).None?
    ensures DeadEnd(states[2]) && Frozen(PLAIN_WORLD, states[2])
  {
    hide Begin, Record, SelectedFrom, Frozen;
    var w, r := PLAIN_WORLD, SuccessRecord(2, "run", "a");
    var s1 := At([UNTOUCHED, STARTED], Some(Intent(2, 1)), Some(2), AttemptRunning, 1, map[]);
    var s2 := At([UNTOUCHED, MEMBER], None, Some(1), Ready, 2, map[(2, 1) := r]);
    ExampleStart();
    BeginExample(S0, 2, s1);
    SecondFirst(w, s1, r, s2);
    states, steps := [S0, s1, s2], [BeginStep(2, false), RecordStep(2, 0, Success("run", "a"))];
    assert SlotOf(s2.checkpoint, 1) == UNTOUCHED && SlotOf(s2.checkpoint, 2) == MEMBER;
    assert IsValid(s2, 2) && !IsValid(s2, 1) && SlotInRange(s2.checkpoint, 1);
    assert LaterValid(s2, 1);
    StartIsAnnounced(w, states, steps, 2, 1);
    DeadEndIsForEver(w, states, steps, 2, 2);
  }

  /** A world in which no member's documents can be read back. */
  const UNREADABLE_WORLD := World((m: Member) => None, (ms: seq<Member>) => true, (s: FinalSet) => "set")

  /** A run that follows the announcements and is stranded: the record of a success is on disk,
      its documents give no key, and whatever is tried next changes nothing. */
  lemma GuidedRunIsStranded() returns (states: seq<Disk>, steps: seq<Step>)
    ensures IsGuidedRun(UNREADABLE_WORLD, states, steps) && |states| == 3
    ensures SetNext(states[2].checkpoint) == Continue(1, 1)
    ensures Frozen(UNREADABLE_WORLD, states[2])
  {
    hide Begin, Frozen;
    var w, r := UNREADABLE_WORLD, SuccessRecord(1, "run", "a");
    var s1 := At([STARTED, UNTOUCHED], Some(Intent(1, 1)), Some(1), AttemptRunning, 1, map[]);
    var s2 := At([STARTED, UNTOUCHED], Some(Intent(1, 1)), Some(1), AttemptRunning, 1, map[(1, 1) := r]);
    ExampleStart();
    BeginExample(S0, 1, s1);
    assert Outcome(1, 1, 0, Success("run", "a")) == r;
    assert AfterFailedRecord(s1, 1, 0, Success("run", "a")) == s2;
    states, steps := [S0, s1, s2], [BeginStep(1, false), RecordCut(1, 0, Success("run", "a"))];
    assert IsRun(w, states, steps);
    FrozenExactly(w, states, steps, 2);
  }
}
