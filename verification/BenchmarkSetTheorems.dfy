/**
 What the set protocol promises: no result is thrown away and re-rolled, crashes between
 writes are harmless, members are collected in order, and what is published is the whole
 history.
 */
module BenchmarkSetTheorems {
  import opened Options
  import opened SortedSets
  import opened BenchmarkSet
  import opened BenchmarkSetRuns

  // ---- records are never altered, valid slots stay valid ----

  ghost predicate Kept<K, V>(before: map<K, V>, after: map<K, V>) {
    forall k :: k in before ==> k in after && after[k] == before[k]
  }

  ghost predicate Extends(d: Disk, e: Disk) {
    e.plan == d.plan && Kept(d.attempts, e.attempts) && Kept(d.replacements, e.replacements) && Kept(d.sets, e.sets)
  }

  predicate IsValid(d: Disk, s: nat) { SlotInRange(d.checkpoint, s) && SlotOf(d.checkpoint, s).state == ValidMember }

  ghost predicate ValidStay(d: Disk, e: Disk) {
    forall s: nat :: IsValid(d, s) ==> IsValid(e, s) && SlotOf(e.checkpoint, s) == SlotOf(d.checkpoint, s)
  }

  /** Valid slots stay as they are, and a slot that becomes valid comes after all of them. */
  ghost predicate OrderedStep(d: Disk, e: Disk) {
    && ValidStay(d, e)
    && (forall s: nat, t: nat :: IsValid(e, s) && !IsValid(d, s) && IsValid(d, t) ==> t < s)
  }

  lemma PutKeeps<K, V>(files: map<K, V>, name: K, content: V)
    requires Put(files, name, content).Some?
    ensures Kept(files, Put(files, name, content).value)
  {
  }

  lemma BeginExtends(w: World, d: Disk, s: nat, targetExists: bool)
    requires Inv(w, d) && Begin(d, s, targetExists).Some?
    ensures var e := Begin(d, s, targetExists).value; Extends(d, e) && OrderedStep(d, e)
  {
    hide NoReroll, AttemptsOk, AuthorizationsOk, LatestOk, SelectionOk, VerdictOk, OrderOk;
    var e := Begin(d, s, targetExists).value;
    assert SlotOf(e.checkpoint, s).state == Running && SlotOf(d.checkpoint, s).state != ValidMember;
    assert forall t: nat :: SlotInRange(d.checkpoint, t) && t != s ==>
      SlotOf(e.checkpoint, t) == SlotOf(d.checkpoint, t);
  }

  lemma SettleExtends(w: World, d: Disk, record: AttemptRecord)
    requires Inv(w, d) && Fresh(d, record) && WriteAttempt(d, record).Some?
    ensures var e := WriteAttempt(d, record).value;
            && Extends(d, e) && OrderedStep(d, e) && SlotInRange(e.checkpoint, record.slot)
            && (SaveOutcome(w, e, record).Some? ==>
                  Extends(d, SaveOutcome(w, e, record).value) && OrderedStep(d, SaveOutcome(w, e, record).value))
  {
    hide SaveOutcome, VerdictOk, NoReroll, AuthorizationsOk, AttemptsOk, LatestOk;
    var e := WriteAttempt(d, record).value;
    PutKeeps(d.attempts, (record.slot, record.attempt), record);
    assert SlotInRange(d.checkpoint, record.slot) && SlotOf(d.checkpoint, record.slot).state == Running;
    if SaveOutcome(w, e, record).Some? {
      SaveSettles(w, e, record);
    }
  }

  lemma AuthorizeExtends(d: Disk, s: nat, reason: string)
    requires WriteAuthorization(d, s, reason).Some?
    ensures var e, f := WriteAuthorization(d, s, reason).value, Authorize(d, s, reason).value;
            Extends(d, e) && OrderedStep(d, e) && Extends(d, f) && OrderedStep(d, f)
  {
    var auth := AuthorizationFor(d, s, reason).value;
    hide AuthorizationFor;
    PutKeeps(d.replacements, (s, auth.priorAttempt), auth);
  }

  lemma PublishExtends(w: World, d: Disk)
    requires Publish(w, d).Some?
    ensures var e := Publish(w, d).value; Extends(d, e) && OrderedStep(d, e)
    ensures d.checkpoint.state != Complete ==>
            Finalize(w, d).Some? && Extends(d, Finalize(w, d).value) && OrderedStep(d, Finalize(w, d).value)
  {
    hide Finalized;
    PutKeeps(d.sets, Finalized(w, d).value.0, Finalized(w, d).value.1);
  }

  lemma RecordedOutcome(d: Disk, s: nat, exit: int, pointer: Pointer) returns (record: AttemptRecord)
    requires IntentFor(d.checkpoint, s)
    ensures record == Outcome(s, d.checkpoint.current.value.attempt, exit, pointer)
    ensures record.slot == s && Fresh(d, record)
  {
    record := Outcome(s, d.checkpoint.current.value.attempt, exit, pointer);
    OutcomeShape(s, d.checkpoint.current.value.attempt, exit, pointer);
  }

  lemma RecordExtends(w: World, d: Disk, s: nat, exit: int, pointer: Pointer)
    requires Inv(w, d)
    ensures var e := AfterFailedRecord(d, s, exit, pointer);
            Extends(d, e) && OrderedStep(d, e) && e.checkpoint == d.checkpoint
    ensures Record(w, d, s, exit, pointer).Some? ==>
              var e := Record(w, d, s, exit, pointer).value; Extends(d, e) && OrderedStep(d, e)
  {
    hide Outcome, SaveOutcome, Inv, Extends, OrderedStep, Fresh;
    SameExtends(d);
    if IntentFor(d.checkpoint, s) {
      var record := RecordedOutcome(d, s, exit, pointer);
      if WriteAttempt(d, record).Some? {
        SettleExtends(w, d, record);
      }
    }
  }

  lemma GiveUpExtends(w: World, d: Disk)
    requires Inv(w, d)
    ensures GiveUpWrite(d).Some? ==> Extends(d, GiveUpWrite(d).value) && OrderedStep(d, GiveUpWrite(d).value)
    ensures GiveUp(w, d).Some? ==> Extends(d, GiveUp(w, d).value) && OrderedStep(d, GiveUp(w, d).value)
  {
    if d.checkpoint.current.Some? {
      var record := GivenUp(d.checkpoint.current.value.slot, d.checkpoint.current.value.attempt);
      hide SaveOutcome, Inv;
      if WriteAttempt(d, record).Some? {
        SettleExtends(w, d, record);
      }
    }
  }

  lemma ReconcileExtends(w: World, d: Disk, pointer: Pointer)
    requires Inv(w, d) && Reconcile(w, d, pointer).Some?
    ensures Extends(d, Reconcile(w, d, pointer).value) && OrderedStep(d, Reconcile(w, d, pointer).value)
  {
    hide Inv, Record, AfterFailedRecord, GiveUp;
    GiveUpExtends(w, d);
    if d.checkpoint.current.Some? && pointer.Recorded? && pointer.exit.ExitDigits? {
      var s, exit := d.checkpoint.current.value.slot, pointer.exit.value;
      RecordExtends(w, d, s, exit, pointer);
      RecordInv(w, d, s, exit, pointer);
      GiveUpExtends(w, AfterFailedRecord(d, s, exit, pointer));
    }
  }

  /** No operation, whole or cut short, alters a written record or a valid slot, and slots
      become valid in increasing order. */
  lemma StepExtends(w: World, d: Disk, step: Step)
    requires Inv(w, d) && Apply(w, d, step).Some?
    ensures Extends(d, Apply(w, d, step).value) && OrderedStep(d, Apply(w, d, step).value)
  {
    hide Inv, Begin, Record, AfterFailedRecord, Reconcile, GiveUpWrite, WriteAuthorization, Publish, Extends;
    hide OrderedStep;
    match step
    case BeginStep(s, targetExists) => BeginExtends(w, d, s, targetExists);
    case RecordStep(s, exit, pointer) => RecordExtends(w, d, s, exit, pointer);
    case RecordCut(s, exit, pointer) => RecordExtends(w, d, s, exit, pointer);
    case ReconcileStep(pointer) => ReconcileExtends(w, d, pointer);
    case GiveUpCut => GiveUpExtends(w, d);
    case AuthorizeStep(s, reason) => AuthorizeExtends(d, s, reason);
    case AuthorizeCut(s, reason) => AuthorizeExtends(d, s, reason);
    case FinalizeStep => if d.checkpoint.state == Complete { SameExtends(d); } else { PublishExtends(w, d); }
    case FinalizeCut => PublishExtends(w, d);
  }

  lemma SameExtends(d: Disk)
    ensures Extends(d, d) && ValidStay(d, d) && OrderedStep(d, d)
  {
  }

  lemma StepAt(w: World, states: seq<Disk>, steps: seq<Step>, i: nat)
    requires IsRun(w, states, steps) && i < |steps|
    ensures Inv(w, states[i]) && Inv(w, states[i + 1])
    ensures Apply(w, states[i], steps[i]) == Some(states[i + 1])
    ensures Extends(states[i], states[i + 1]) && OrderedStep(states[i], states[i + 1])
  {
    RunInv(w, states, steps, i);
    RunInv(w, states, steps, i + 1);
    hide Inv, Apply;
    StepExtends(w, states[i], steps[i]);
  }

  lemma RunStarts(w: World, states: seq<Disk>, steps: seq<Step>)
    requires IsRun(w, states, steps)
    ensures Initial(states[0])
  {
    hide Apply;
  }

  /** The last step of a run up to state `j`. */
  lemma StepBefore(w: World, states: seq<Disk>, steps: seq<Step>, j: nat)
    requires IsRun(w, states, steps) && 0 < j < |states|
    ensures j <= |steps| && Inv(w, states[j - 1]) && Apply(w, states[j - 1], steps[j - 1]) == Some(states[j])
  {
    RunInv(w, states, steps, j - 1);
    hide Inv, Apply;
    assert states[j - 1 + 1] == states[j];
  }

  lemma RunStep(w: World, states: seq<Disk>, steps: seq<Step>, j: nat)
    requires IsRun(w, states, steps) && 0 < j < |states|
    ensures Extends(states[j - 1], states[j]) && ValidStay(states[j - 1], states[j])
  {
    hide IsRun, Extends, ValidStay, Inv, Apply;
    StepBefore(w, states, steps, j);
    StepAt(w, states, steps, j - 1);
    assert states[j - 1 + 1] == states[j];
  }

  lemma ExtendsFurther(a: Disk, b: Disk, c: Disk)
    requires Extends(a, b) && Extends(b, c) && ValidStay(a, b) && ValidStay(b, c)
    ensures Extends(a, c) && ValidStay(a, c)
  {
  }

  /** Over any stretch of a run, records and valid slots only accumulate. */
  lemma {:induction false} RunExtends(w: World, states: seq<Disk>, steps: seq<Step>, i: nat, j: nat)
    requires IsRun(w, states, steps) && i <= j < |states|
    ensures Extends(states[i], states[j]) && ValidStay(states[i], states[j])
    decreases j
  {
    hide IsRun, Extends, ValidStay, Inv, Apply, OrderedStep;
    if i < j {
      RunExtends(w, states, steps, i, j - 1);
      RunStep(w, states, steps, j);
      ExtendsFurther(states[i], states[j - 1], states[j]);
    } else {
      SameExtends(states[i]);
    }
  }

  // ---- no re-rolling ----

  /** In every reachable state, every attempt before a slot's latest was recorded as an
      infrastructure failure and replaced under an authorization naming exactly it. */
  lemma EarlierAttemptsWereSetAside(w: World, states: seq<Disk>, steps: seq<Step>, i: nat, s: nat, a: nat)
    requires IsRun(w, states, steps) && i < |states|
    requires SlotInRange(states[i].checkpoint, s) && 1 <= a < SlotOf(states[i].checkpoint, s).attemptCount
    ensures SetAside(states[i], s, a)
    ensures states[i].replacements[(s, a)].priorAttempt == a && states[i].replacements[(s, a)].nextAttempt == a + 1
  {
    RunInv(w, states, steps, i);
    assert SetAside(states[i], s, a);
    assert AuthorizationOk(states[i], (s, a), states[i].replacements[(s, a)]);
  }

  /** Once an attempt is recorded with any outcome but an infrastructure failure, it stays the
      slot's last attempt for ever, and its record stays what it is. */
  lemma ResultIsNeverRerolled(w: World, states: seq<Disk>, steps: seq<Step>, i: nat, j: nat, k: (nat, nat))
    requires IsRun(w, states, steps) && i <= j < |states|
    requires k in states[i].attempts && states[i].attempts[k].classification != InfrastructureInvalid
    ensures k in states[j].attempts && states[j].attempts[k] == states[i].attempts[k]
    ensures SlotInRange(states[j].checkpoint, k.0) && SlotOf(states[j].checkpoint, k.0).attemptCount == k.1
  {
    RunExtends(w, states, steps, i, j);
    RunInv(w, states, steps, j);
    assert AttemptOk(states[j].checkpoint, k, states[j].attempts[k]);
    var setAside := SetAside(states[j], k.0, k.1);
  }

  // ---- order ----

  /** Members arrive in strictly increasing slot order. */
  lemma {:induction false} MembersArriveInOrder(w: World, states: seq<Disk>, steps: seq<Step>, i: nat, j: nat, s: nat,
      t: nat)
    requires IsRun(w, states, steps) && i <= j < |states|
    requires IsValid(states[j], s) && !IsValid(states[i], s) && IsValid(states[i], t)
    ensures t < s
    decreases j
  {
    if IsValid(states[j - 1], s) {
      MembersArriveInOrder(w, states, steps, i, j - 1, s, t);
    } else {
      RunExtends(w, states, steps, i, j - 1);
      StepAt(w, states, steps, j - 1);
    }
  }

  /** In every reachable state exactly the slot named by `currentAttempt` is RUNNING, and none
      is when it is unset. */
  lemma OneRunningSlot(w: World, states: seq<Disk>, steps: seq<Step>, i: nat, s: nat)
    requires IsRun(w, states, steps) && i < |states| && SlotInRange(states[i].checkpoint, s)
    ensures var cp := states[i].checkpoint;
            SlotOf(cp, s).state == Running <==> cp.current == Some(Intent(s, SlotOf(cp, s).attemptCount))
  {
    RunInv(w, states, steps, i);
  }

  // ---- crashes ----

  /** Repeating an interrupted record reaches exactly what the uninterrupted one would have. */
  lemma RecordAfterCrash(w: World, d: Disk, s: nat, exit: int, pointer: Pointer)
    ensures Record(w, AfterFailedRecord(d, s, exit, pointer), s, exit, pointer) == Record(w, d, s, exit, pointer)
  {
    hide SaveOutcome, Outcome;
  }

  lemma FailedRecordAgain(d: Disk, s: nat, exit: int, pointer: Pointer)
    ensures AfterFailedRecord(AfterFailedRecord(d, s, exit, pointer), s, exit, pointer)
            == AfterFailedRecord(d, s, exit, pointer)
  {
    hide Outcome;
  }

  lemma GiveUpAfterCrash(w: World, d: Disk)
    requires GiveUpWrite(d).Some?
    ensures GiveUp(w, GiveUpWrite(d).value) == GiveUp(w, d)
  {
    hide SaveOutcome;
  }

  /** Reconciling after any interrupted record of the same outcome is reconciling once; and
      when the outcome could be recorded, it completes that record. */
  lemma ReconcileAfterCrash(w: World, d: Disk, s: nat, exit: nat, pointer: Pointer)
    requires IntentFor(d.checkpoint, s) && pointer.Recorded? && pointer.finished && pointer.exit.ExitDigits?
             && pointer.exit.value == exit
    ensures var e := AfterFailedRecord(d, s, exit, pointer);
            && Reconcile(w, e, pointer) == Reconcile(w, d, pointer)
            && (Record(w, d, s, exit, pointer).Some? ==> Reconcile(w, e, pointer) == Record(w, d, s, exit, pointer))
  {
    RecordAfterCrash(w, d, s, exit, pointer);
    FailedRecordAgain(d, s, exit, pointer);
    assert AfterFailedRecord(d, s, exit, pointer).checkpoint == d.checkpoint;
    hide Record, AfterFailedRecord, GiveUp;
  }

  /** A pointer that reconciliation tries to record. */
  predicate Usable(pointer: Pointer) { pointer.Recorded? && pointer.finished && pointer.exit.ExitDigits? }

  lemma OutcomeKeepsExit(s: nat, attempt: nat, exit: int, pointer: Pointer)
    ensures Outcome(s, attempt, exit, pointer).v1Exit == Some(exit)
  {
  }

  /** Once `written` is on disk and could be completed, another outcome cannot be recorded. */
  lemma OnlyWritten(w: World, e: Disk, s: nat, exit: int, pointer: Pointer, written: AttemptRecord)
    requires IntentFor(e.checkpoint, s) && written.slot == s && written.attempt == e.checkpoint.current.value.attempt
    requires (s, written.attempt) in e.attempts && e.attempts[(s, written.attempt)] == written
    requires SaveOutcome(w, e, written).Some? && written.v1Exit.Some?
    ensures AfterFailedRecord(e, s, exit, pointer) == e && GiveUp(w, e).None?
    ensures Record(w, e, s, exit, pointer)
            == if Outcome(s, written.attempt, exit, pointer) == written then SaveOutcome(w, e, written) else None
  {
    OutcomeShape(s, written.attempt, exit, pointer);
    hide Outcome, SaveOutcome;
    assert e.attempts[(s, written.attempt) := written] == e.attempts;
  }

  lemma WrittenRecord(w: World, d: Disk, s: nat, exit: int, pointer: Pointer)
    requires Record(w, d, s, exit, pointer).Some?
    ensures IntentFor(d.checkpoint, s)
    ensures var e, r := AfterFailedRecord(d, s, exit, pointer),
            Outcome(s, d.checkpoint.current.value.attempt, exit, pointer);
            && e.checkpoint == d.checkpoint && (s, r.attempt) in e.attempts && e.attempts[(s, r.attempt)] == r
            && r.slot == s && r.attempt == d.checkpoint.current.value.attempt
            && Record(w, d, s, exit, pointer) == SaveOutcome(w, e, r)
  {
    OutcomeShape(s, d.checkpoint.current.value.attempt, exit, pointer);
    hide Outcome, SaveOutcome;
  }

  /** After an interrupted record that could have been completed, reconciliation succeeds exactly
      if the pointer is usable and gives the very outcome that was written; it then completes the
      record, and the exit codes are the same. */
  lemma ReconcileExactly(w: World, d: Disk, s: nat, exit: int, pointer: Pointer, found: Pointer)
    requires Record(w, d, s, exit, pointer).Some?
    ensures d.checkpoint.current.Some?
    ensures var e, a := AfterFailedRecord(d, s, exit, pointer), d.checkpoint.current.value.attempt;
            && (Reconcile(w, e, found).Some? <==>
                  Usable(found) && Outcome(s, a, found.exit.value, found) == Outcome(s, a, exit, pointer))
            && (Reconcile(w, e, found).Some? ==>
                  Reconcile(w, e, found) == Record(w, d, s, exit, pointer) && found.exit.value == exit)
  {
    WrittenRecord(w, d, s, exit, pointer);
    var e, a := AfterFailedRecord(d, s, exit, pointer), d.checkpoint.current.value.attempt;
    var r := Outcome(s, a, exit, pointer);
    OutcomeKeepsExit(s, a, exit, pointer);
    hide Record, AfterFailedRecord, GiveUp, Outcome, SaveOutcome;
    var v := if Usable(found) then found.exit.value else 0;
    OutcomeKeepsExit(s, a, v, found);
    OnlyWritten(w, e, s, v, found, r);
  }

  /** A configuration failure recorded without a pointer is never completed by reconciliation,
      whatever pointer it finds; only recording it again does. */
  lemma MissingPointerIsNotReconciled(w: World, d: Disk, s: nat, found: Pointer)
    requires Record(w, d, s, 2, NoPointer).Some?
    ensures Reconcile(w, AfterFailedRecord(d, s, 2, NoPointer), found).None?
  {
    ReconcileExactly(w, d, s, 2, NoPointer, found);
    hide Record, AfterFailedRecord, Reconcile;
  }

  lemma AuthorizeAfterCrash(d: Disk, s: nat, reason: string)
    requires WriteAuthorization(d, s, reason).Some?
    ensures Authorize(WriteAuthorization(d, s, reason).value, s, reason) == Authorize(d, s, reason)
  {
  }

  /** Publishing the set and crashing before the checkpoint is saved changes nothing. */
  lemma FinalizeAfterCrash(w: World, d: Disk)
    requires d.checkpoint.state != Complete && Publish(w, d).Some?
    ensures Finalize(w, Publish(w, d).value) == Finalize(w, d)
  {
    FinalizedSame(w, d, Publish(w, d).value);
    hide Finalized;
  }

  // ---- what a finalized set contains ----

  /** In every reachable state in which the set is neither INCOMPATIBLE nor COMPLETE, the
      selected members have one compatibility key and pairwise distinct identities. */
  lemma ReachableMembersCompatible(w: World, states: seq<Disk>, steps: seq<Step>, i: nat)
    requires IsRun(w, states, steps) && i < |states|
    requires states[i].checkpoint.state != Incompatible && states[i].checkpoint.state != Complete
    ensures MembersCompatible(w, states[i])
  {
    RunInv(w, states, steps, i);
  }

  /** A set is finalized only from READY or INCOMPATIBLE; it always holds the planned number of
      members with one compatibility key; and its identities are distinct exactly when the set
      was not INCOMPATIBLE. */
  lemma FinalizedMembers(w: World, d: Disk)
    requires Inv(w, d) && d.checkpoint.state != Complete && Finalize(w, d).Some?
    ensures var e := Finalize(w, d).value;
            && d.checkpoint.state in {Ready, Incompatible}
            && Published(w, e) && Selected(w, e) == Selected(w, d) && Selected(w, d).Some?
            && |Finalized(w, e).value.1.members| == |Selected(w, d).value| == d.plan.repeats
            && EqualKeys(Selected(w, d).value)
            && (MembersCompatible(w, e) <==> d.checkpoint.state != Incompatible)
  {
    hide SelectedFrom, AuditOf, NoReroll, AuthorizationsOk, LatestOk, DistinctIdentities, EqualKeys, Minimum;
    var e := Finalize(w, d).value;
    FinalizableState(w, d);
    FinalizedSame(w, d, e);
    AllSelected(w, d.attempts, d.checkpoint.slots, 0);
    SelectedComplete(w, d.attempts, d.checkpoint.slots, 0);
  }

  /** What a final member copies from its slot's selected attempt. */
  predicate CopiesSelected(d: Disk, j: nat, m: FinalMember)
    requires j < |d.checkpoint.slots|
  {
    var selected := d.checkpoint.slots[j].selectedAttempt;
    && m.slot == j + 1 && selected.Some? && (j + 1, selected.value) in d.attempts
    && d.attempts[(j + 1, selected.value)].member == Some(m.member)
    && d.attempts[(j + 1, selected.value)].orchestration == Some(m.orchestration)
  }

  /** In every reachable COMPLETE state the named set is on disk and holds, for each planned slot,
      the member and orchestration of its selected attempt, all with one compatibility key. */
  lemma CompleteHoldsPlan(w: World, states: seq<Disk>, steps: seq<Step>, i: nat)
    requires IsRun(w, states, steps) && i < |states| && states[i].checkpoint.state == Complete
    ensures var d := states[i];
            && Selected(w, d).Some? && EqualKeys(Selected(w, d).value)
            && d.checkpoint.finalSet.Some? && d.checkpoint.finalSet.value in d.sets
            && d.checkpoint.finalSet.value == w.setId(d.sets[d.checkpoint.finalSet.value])
            && var members := d.sets[d.checkpoint.finalSet.value].members;
               && |members| == d.plan.repeats == |d.checkpoint.slots|
               && forall j :: 0 <= j < |members| ==> CopiesSelected(d, j, members[j])
  {
    RunInv(w, states, steps, i);
    hide IsRun, NoReroll, AuthorizationsOk, LatestOk, DistinctIdentities, EqualKeys, Minimum, MembersCompatible;
    FinalMembers(w, states[i]);
  }

  lemma FinalMembers(w: World, d: Disk)
    requires Finalized(w, d).Some?
    ensures var members := Finalized(w, d).value.1.members;
            && |members| == |d.checkpoint.slots| && forall j :: 0 <= j < |members| ==> CopiesSelected(d, j, members[j])
  {
    SelectedComplete(w, d.attempts, d.checkpoint.slots, 0);
    AllSelected(w, d.attempts, d.checkpoint.slots, 0);
    hide SelectedFrom, AuditOf, EqualKeys, Minimum;
    var chosen := Selected(w, d).value;
    forall j | 0 <= j < |chosen| ensures CopiesSelected(d, j, Finalized(w, d).value.1.members[j]) {
      assert chosen[j] in chosen;
    }
  }

  // ---- identities of a completed set ----

  lemma SavedNotComplete(w: World, d: Disk, record: AttemptRecord)
    requires SlotInRange(d.checkpoint, record.slot) && SaveOutcome(w, d, record).Some?
    ensures SaveOutcome(w, d, record).value.checkpoint.state != Complete
  {
    hide SelectedFrom, EqualKeys, DistinctIdentities, FirstPending;
  }

  lemma RecordNotComplete(w: World, d: Disk, s: nat, exit: int, pointer: Pointer)
    requires d.checkpoint.state != Complete
    ensures AfterFailedRecord(d, s, exit, pointer).checkpoint.state != Complete
    ensures Record(w, d, s, exit, pointer).Some? ==> Record(w, d, s, exit, pointer).value.checkpoint.state != Complete
  {
    hide SaveOutcome, Outcome;
    if Record(w, d, s, exit, pointer).Some? {
      OutcomeShape(s, d.checkpoint.current.value.attempt, exit, pointer);
      var record := Outcome(s, d.checkpoint.current.value.attempt, exit, pointer);
      SavedNotComplete(w, WriteAttempt(d, record).value, record);
    }
  }

  lemma GiveUpNotComplete(w: World, d: Disk)
    requires d.checkpoint.state != Complete
    ensures GiveUpWrite(d).Some? ==> GiveUpWrite(d).value.checkpoint.state != Complete
    ensures GiveUp(w, d).Some? ==> GiveUp(w, d).value.checkpoint.state != Complete
  {
    hide SaveOutcome;
    if GiveUp(w, d).Some? {
      var record := GivenUp(d.checkpoint.current.value.slot, d.checkpoint.current.value.attempt);
      SavedNotComplete(w, WriteAttempt(d, record).value, record);
    }
  }

  /** Only finalization completes a set. */
  lemma OnlyFinalizeCompletes(w: World, d: Disk, step: Step)
    requires d.checkpoint.state != Complete && Apply(w, d, step).Some? && step != FinalizeStep
    ensures Apply(w, d, step).value.checkpoint.state != Complete
  {
    hide Record, AfterFailedRecord, GiveUp, GiveUpWrite, Finalized, AuthorizationFor;
    match step
    case RecordStep(s, exit, pointer) => RecordNotComplete(w, d, s, exit, pointer);
    case RecordCut(s, exit, pointer) => RecordNotComplete(w, d, s, exit, pointer);
    case ReconcileStep(pointer) =>
      GiveUpNotComplete(w, d);
      if d.checkpoint.current.Some? && pointer.Recorded? && pointer.exit.ExitDigits? {
        var s, exit := d.checkpoint.current.value.slot, pointer.exit.value;
        RecordNotComplete(w, d, s, exit, pointer);
        GiveUpNotComplete(w, AfterFailedRecord(d, s, exit, pointer));
      }
    case GiveUpCut => GiveUpNotComplete(w, d);
    case _ =>
  }

  /** An incompatible set can only be finalized, and a complete one does not change any more. */
  lemma SettledStep(w: World, d: Disk, step: Step)
    requires Inv(w, d) && d.checkpoint.state in {Incompatible, Complete} && Apply(w, d, step).Some?
    ensures var e := Apply(w, d, step).value;
            && (e == d || step in {FinalizeStep, FinalizeCut})
            && (d.checkpoint.state == Complete ==> e == d)
            && (step == FinalizeCut ==> e.checkpoint == d.checkpoint)
  {
    hide NoReroll, LatestOk, CountsOk, AuthorizationsOk, OrderOk, SelectionOk, AttemptsOk, VerdictOk, Finalized;
    assert d.checkpoint.current.None?;
  }

  lemma {:induction false} IncompatibleLeavesItsMark(w: World, states: seq<Disk>, steps: seq<Step>, k: nat, j: nat)
    requires IsRun(w, states, steps) && k <= j < |states| && states[k].checkpoint.state == Incompatible
    ensures states[j].checkpoint.state in {Incompatible, Complete} && !MembersCompatible(w, states[j])
    decreases j
  {
    hide IsRun, Apply, MembersCompatible, Bookkeeping;
    RunInv(w, states, steps, j);
    if k < j {
      IncompatibleLeavesItsMark(w, states, steps, k, j - 1);
      StepBefore(w, states, steps, j);
      MarkStep(w, states[j - 1], steps[j - 1]);
    }
  }

  lemma MarkStep(w: World, d: Disk, step: Step)
    requires Inv(w, d) && d.checkpoint.state in {Incompatible, Complete} && Apply(w, d, step).Some?
             && !MembersCompatible(w, d)
    ensures var e := Apply(w, d, step).value;
            e.checkpoint.state in {Incompatible, Complete} && !MembersCompatible(w, e)
  {
    SettledStep(w, d, step);
    StepInv(w, d, step);
    hide Bookkeeping, MembersCompatible;
    if d.checkpoint.state == Incompatible && step == FinalizeStep {
      FinalizedMembers(w, d);
    }
  }

  lemma {:induction false} NeverIncompatible(w: World, states: seq<Disk>, steps: seq<Step>, i: nat)
    requires IsRun(w, states, steps) && i < |states| && states[i].checkpoint.state == Complete
    requires forall k :: 0 <= k < i ==> states[k].checkpoint.state != Incompatible
    ensures MembersCompatible(w, states[i])
    decreases i
  {
    hide IsRun, Apply, MembersCompatible, Inv;
    if i == 0 {
      RunStarts(w, states, steps);
    } else {
      StepBefore(w, states, steps, i);
      CompletingStep(w, states[i - 1], steps[i - 1]);
      if states[i - 1].checkpoint.state == Complete {
        NeverIncompatible(w, states, steps, i - 1);
      }
    }
  }

  lemma CompletingStep(w: World, d: Disk, step: Step)
    requires Inv(w, d) && Apply(w, d, step).Some? && Apply(w, d, step).value.checkpoint.state == Complete
    ensures d.checkpoint.state == Complete ==> Apply(w, d, step).value == d
    ensures d.checkpoint.state != Complete ==>
              (MembersCompatible(w, Apply(w, d, step).value) <==> d.checkpoint.state != Incompatible)
  {
    if d.checkpoint.state == Complete {
      SettledStep(w, d, step);
    } else {
      if step != FinalizeStep {
        OnlyFinalizeCompletes(w, d, step);
      }
      FinalizedMembers(w, d);
    }
  }

  /** A completed set has one key and distinct identities exactly when it never was INCOMPATIBLE. */
  lemma CompleteIdentities(w: World, states: seq<Disk>, steps: seq<Step>, i: nat)
    requires IsRun(w, states, steps) && i < |states| && states[i].checkpoint.state == Complete
    ensures MembersCompatible(w, states[i]) <==> forall k :: 0 <= k <= i ==> states[k].checkpoint.state != Incompatible
  {
    hide IsRun, MembersCompatible;
    if k :| 0 <= k <= i && states[k].checkpoint.state == Incompatible {
      IncompatibleLeavesItsMark(w, states, steps, k, i);
    } else {
      NeverIncompatible(w, states, steps, i);
    }
  }

  lemma FinalizableState(w: World, d: Disk)
    requires Inv(w, d) && d.checkpoint.state != Complete && Finalized(w, d).Some?
    ensures d.checkpoint.state in {Ready, Incompatible}
  {
    hide SelectedFrom, AuditOf, NoReroll, AuthorizationsOk, LatestOk, DistinctIdentities, EqualKeys, Minimum;
    hide MembersCompatible;
    assert forall i :: 0 <= i < |d.checkpoint.slots| ==> d.checkpoint.slots[i].state == ValidMember;
  }

  /** The numbers of a slot's files. */
  lemma AuditNumbers(d: Disk, s: nat)
    requires Bookkeeping(d) && SlotInRange(d.checkpoint, s) && SlotOf(d.checkpoint, s).state == ValidMember
    ensures var n := SlotOf(d.checkpoint, s).attemptCount;
            && n >= 1
            && (forall a: nat :: a in AttemptNumbers(d.attempts, s) <==> 1 <= a < n + 1)
            && (forall a: nat :: a in AttemptNumbers(d.replacements, s) <==> 1 <= a < n)
  {
    var n := SlotOf(d.checkpoint, s).attemptCount;
    forall a: nat ensures a in AttemptNumbers(d.attempts, s) <==> 1 <= a < n + 1 {
      var setAside := SetAside(d, s, a);
      if (s, a) in d.attempts {
        assert AttemptOk(d.checkpoint, (s, a), d.attempts[(s, a)]);
      }
    }
    forall a: nat ensures a in AttemptNumbers(d.replacements, s) <==> 1 <= a < n {
      var setAside := SetAside(d, s, a);
      if (s, a) in d.replacements {
        assert AuthorizationOk(d, (s, a), d.replacements[(s, a)]);
        assert AttemptOk(d.checkpoint, (s, a), d.attempts[(s, a)]);
      }
    }
  }

  /** Entry `i` of an audit is attempt `i + 1`; every entry but the last was set aside under
      an authorization for exactly it, and the last is the valid member. */
  predicate AuditEntry(d: Disk, s: nat, audit: SlotAudit, i: nat)
    requires i < |audit.attempts|
  {
    var last := i + 1 == |audit.attempts|;
    && (s, i + 1) in d.attempts && audit.attempts[i] == d.attempts[(s, i + 1)]
    && audit.attempts[i].classification == (if last then ValidMember else InfrastructureInvalid)
    && (!last ==> i < |audit.replacements| && audit.replacements[i].priorAttempt == i + 1)
  }

  /** The audit is the slot's whole history, from the first attempt to the selected one. */
  ghost predicate WholeHistory(d: Disk, s: nat, audit: SlotAudit)
    requires SlotInRange(d.checkpoint, s)
  {
    var n := SlotOf(d.checkpoint, s).attemptCount;
    && n >= 1 && audit.slot == s && audit.selectedAttempt == Some(n)
    && |audit.attempts| == n && |audit.replacements| == n - 1
    && forall i :: 0 <= i < n ==> AuditEntry(d, s, audit, i)
  }

  /** `q` holds the files numbered 1 to n, in order. */
  predicate Numbered<V(==)>(files: map<(nat, nat), V>, s: nat, n: nat, q: seq<V>) {
    |q| == n && forall i :: 0 <= i < n ==> (s, i + 1) in files && q[i] == files[(s, i + 1)]
  }

  lemma NumberedFiles<V>(files: map<(nat, nat), V>, s: nat, n: nat)
    requires forall a: nat :: a in AttemptNumbers(files, s) <==> 1 <= a < n + 1
    ensures Numbered(files, s, n, InOrder(files, s, Sorted(AttemptNumbers(files, s))))
  {
    hide Sorted;
    var q := InOrder(files, s, Sorted(AttemptNumbers(files, s)));
    SortedInterval(AttemptNumbers(files, s), 1, n + 1);
    forall i | 0 <= i < n ensures (s, i + 1) in files && q[i] == files[(s, i + 1)] {
      assert i + 1 in AttemptNumbers(files, s);
    }
  }

  lemma EntryOk(d: Disk, s: nat, audit: SlotAudit, i: nat)
    requires Bookkeeping(d) && SlotInRange(d.checkpoint, s) && SlotOf(d.checkpoint, s).state == ValidMember
    requires var n := SlotOf(d.checkpoint, s).attemptCount;
             && i < n && Numbered(d.attempts, s, n, audit.attempts)
             && Numbered(d.replacements, s, n - 1, audit.replacements)
    ensures AuditEntry(d, s, audit, i)
  {
    hide RunningOk, CountsOk, AttemptsOk, SelectionOk, OrderOk;
    var setAside := SetAside(d, s, i + 1);
    var attempt := audit.attempts[i];
    if i + 1 < |audit.attempts| {
      var replacement := audit.replacements[i];
      assert AuthorizationOk(d, (s, i + 1), d.replacements[(s, i + 1)]);
    }
  }

  lemma AuditFiles(d: Disk, s: nat)
    requires Bookkeeping(d) && SlotInRange(d.checkpoint, s) && SlotOf(d.checkpoint, s).state == ValidMember
    ensures var n, audit := SlotOf(d.checkpoint, s).attemptCount, AuditOf(d, s);
            n >= 1 && Numbered(d.attempts, s, n, audit.attempts)
              && Numbered(d.replacements, s, n - 1, audit.replacements)
  {
    hide Bookkeeping, AttemptNumbers, Sorted, Numbered, InOrder;
    var n := SlotOf(d.checkpoint, s).attemptCount;
    AuditNumbers(d, s);
    NumberedFiles(d.attempts, s, n);
    NumberedFiles(d.replacements, s, n - 1);
  }

  lemma AuditSelects(d: Disk, s: nat)
    requires Bookkeeping(d) && SlotInRange(d.checkpoint, s) && SlotOf(d.checkpoint, s).state == ValidMember
    ensures AuditOf(d, s).slot == s && AuditOf(d, s).selectedAttempt == Some(SlotOf(d.checkpoint, s).attemptCount)
  {
    hide RunningOk, CountsOk, AttemptsOk, AuthorizationsOk, NoReroll, LatestOk, OrderOk;
  }

  lemma AuditHistory(d: Disk, s: nat)
    requires Bookkeeping(d) && SlotInRange(d.checkpoint, s) && SlotOf(d.checkpoint, s).state == ValidMember
    ensures WholeHistory(d, s, AuditOf(d, s))
  {
    hide Bookkeeping, AuditEntry, AuditOf;
    var n, audit := SlotOf(d.checkpoint, s).attemptCount, AuditOf(d, s);
    AuditFiles(d, s);
    AuditSelects(d, s);
    forall i | 0 <= i < n ensures AuditEntry(d, s, audit, i) {
      EntryOk(d, s, audit, i);
    }
  }

  lemma FinalizedAudits(w: World, d: Disk)
    requires Finalized(w, d).Some?
    ensures var document := Finalized(w, d).value.1;
            && |document.audit| == |d.checkpoint.slots|
            && (forall i :: 0 <= i < |document.audit| ==> document.audit[i] == AuditOf(d, i + 1))
            && (forall i :: 0 <= i < |d.checkpoint.slots| ==> d.checkpoint.slots[i].state == ValidMember)
  {
    hide AuditOf;
    SelectedComplete(w, d.attempts, d.checkpoint.slots, 0);
    AllSelected(w, d.attempts, d.checkpoint.slots, 0);
  }

  /** The published audit of every slot is its whole history: nothing measured is left out. */
  lemma PublishedAudit(w: World, d: Disk, s: nat)
    requires Inv(w, d) && Finalized(w, d).Some? && SlotInRange(d.checkpoint, s)
    ensures s <= |Finalized(w, d).value.1.audit| && WholeHistory(d, s, Finalized(w, d).value.1.audit[s - 1])
  {
    FinalizedAudits(w, d);
    hide Finalized, VerdictOk, AuditOf, WholeHistory;
    assert d.checkpoint.slots[s - 1].state == ValidMember;
    AuditHistory(d, s);
  }
}
