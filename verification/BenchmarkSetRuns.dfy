/**
 Every run of a benchmark set: any sequence of operations, each of which may be cut short
 after its first write. What holds in every state such a run can reach.
 */
module BenchmarkSetRuns {
  import opened Options
  import opened BenchmarkSet

  // ---- runs ----

  /** An operation, or its first write alone (a crash, or an error raised between the writes). */
  datatype Step =
    | BeginStep(slot: nat, targetExists: bool)
    | RecordStep(slot: nat, exit: int, pointer: Pointer)
    | RecordCut(slot: nat, exit: int, pointer: Pointer)
    | ReconcileStep(pointer: Pointer)
    | GiveUpCut
    | AuthorizeStep(slot: nat, reason: string)
    | AuthorizeCut(slot: nat, reason: string)
    | FinalizeStep
    | FinalizeCut

  function GiveUpWrite(d: Disk): Option<Disk> {
    if d.checkpoint.current.None? then None
    else WriteAttempt(d, GivenUp(d.checkpoint.current.value.slot, d.checkpoint.current.value.attempt))
  }

  function Apply(w: World, d: Disk, step: Step): Option<Disk> {
    match step
    case BeginStep(s, targetExists) => Begin(d, s, targetExists)
    case RecordStep(s, exit, pointer) => Record(w, d, s, exit, pointer)
    case RecordCut(s, exit, pointer) => Some(AfterFailedRecord(d, s, exit, pointer))
    case ReconcileStep(pointer) => Reconcile(w, d, pointer)
    case GiveUpCut => GiveUpWrite(d)
    case AuthorizeStep(s, reason) => Authorize(d, s, reason)
    case AuthorizeCut(s, reason) => WriteAuthorization(d, s, reason)
    case FinalizeStep => Finalize(w, d)
    case FinalizeCut => if d.checkpoint.state == Complete then None else Publish(w, d)
  }

  ghost predicate Initial(d: Disk) {
    && ValidPlan(d.plan) && d.checkpoint == InitialCheckpoint(d.plan)
    && d.attempts == map[] && d.replacements == map[]
  }

  ghost predicate IsRun(w: World, states: seq<Disk>, steps: seq<Step>) {
    && |states| == |steps| + 1 && Initial(states[0])
    && forall i :: 0 <= i < |steps| ==> Apply(w, states[i], steps[i]) == Some(states[i + 1])
  }

  // ---- the invariant ----

  function SlotOf(cp: Checkpoint, s: nat): Slot
    requires SlotInRange(cp, s)
  {
    cp.slots[s - 1]
  }

  /** Exactly the slot named by `currentAttempt` is RUNNING. */
  ghost predicate RunningOk(cp: Checkpoint) {
    && (cp.state == AttemptRunning <==> cp.current.Some?)
    && (cp.current.Some? ==>
          && SlotInRange(cp, cp.current.value.slot)
          && SlotOf(cp, cp.current.value.slot).attemptCount == cp.current.value.attempt)
    && (forall s: nat :: SlotInRange(cp, s) ==>
          (SlotOf(cp, s).state == Running <==> cp.current.Some? && cp.current.value.slot == s))
  }

  ghost predicate CountsOk(d: Disk) {
    && ValidPlan(d.plan) && |d.checkpoint.slots| == d.plan.repeats
    && (forall s: nat :: SlotInRange(d.checkpoint, s) ==>
          (SlotOf(d.checkpoint, s).state == Pending <==> SlotOf(d.checkpoint, s).attemptCount == 0))
  }

  /** A recorded attempt belongs to a slot, carries its own numbers and a final classification. */
  predicate AttemptOk(cp: Checkpoint, k: (nat, nat), r: AttemptRecord) {
    && SlotInRange(cp, k.0) && 1 <= k.1 <= SlotOf(cp, k.0).attemptCount
    && r.slot == k.0 && r.attempt == k.1
    && r.classification != Pending && r.classification != Running
    && (r.classification == ValidMember ==> r.member.Some? && r.orchestration.Some?)
  }

  ghost predicate AttemptsOk(d: Disk) { forall k :: k in d.attempts ==> AttemptOk(d.checkpoint, k, d.attempts[k]) }

  /** An authorization names exactly the attempt it was given for. */
  predicate AuthorizationOk(d: Disk, k: (nat, nat), auth: Authorization) {
    && k in d.attempts && d.attempts[k].classification == InfrastructureInvalid
    && auth.slot == k.0 && auth.priorAttempt == k.1 && auth.nextAttempt == k.1 + 1
    && auth.infrastructureClassification == InfrastructureInvalid
    && auth.priorOrchestration == d.attempts[k].orchestration && auth.priorV1Exit == d.attempts[k].v1Exit
  }

  ghost predicate AuthorizationsOk(d: Disk) {
    forall k :: k in d.replacements ==> AuthorizationOk(d, k, d.replacements[k])
  }

  /** Attempt `a` of slot `s` was set aside with an explicit authorization. */
  predicate SetAside(d: Disk, s: nat, a: nat) {
    && (s, a) in d.attempts && d.attempts[(s, a)].classification == InfrastructureInvalid
    && (s, a) in d.replacements
  }

  /** No re-rolling: every attempt before the latest was set aside as infrastructure failure. */
  ghost predicate NoReroll(d: Disk) {
    forall s: nat, a: nat :: SlotInRange(d.checkpoint, s) && 1 <= a < SlotOf(d.checkpoint, s).attemptCount ==>
      SetAside(d, s, a)
  }

  /** The latest attempt of a settled slot is recorded with the slot's own state. */
  ghost predicate LatestOk(d: Disk) {
    forall s: nat :: SlotInRange(d.checkpoint, s) && SlotOf(d.checkpoint, s).state !in {Pending, Running} ==>
      var slot := SlotOf(d.checkpoint, s);
      (s, slot.attemptCount) in d.attempts && d.attempts[(s, slot.attemptCount)].classification == slot.state
  }

  ghost predicate SelectionOk(d: Disk) {
    forall s: nat :: SlotInRange(d.checkpoint, s) ==>
      var slot := SlotOf(d.checkpoint, s);
      slot.selectedAttempt == if slot.state == ValidMember then Some(slot.attemptCount) else None
  }

  /** No slot after the running one is valid. */
  ghost predicate OrderOk(cp: Checkpoint) {
    cp.current.Some? ==> forall s: nat :: SlotInRange(cp, s) && s > cp.current.value.slot ==>
      SlotOf(cp, s).state != ValidMember
  }

  ghost predicate Bookkeeping(d: Disk) {
    && RunningOk(d.checkpoint) && CountsOk(d) && AttemptsOk(d) && AuthorizationsOk(d)
    && NoReroll(d) && LatestOk(d) && SelectionOk(d) && OrderOk(d.checkpoint)
  }

  // ---- bookkeeping is kept ----

  lemma InitialBookkeeping(d: Disk)
    requires Initial(d)
    ensures Bookkeeping(d)
  {
  }

  lemma BeginNoReroll(d: Disk, s: nat, targetExists: bool)
    requires Bookkeeping(d) && Begin(d, s, targetExists).Some?
    ensures NoReroll(Begin(d, s, targetExists).value)
  {
    hide RunningOk, OrderOk, SelectionOk, AttemptsOk, AuthorizationsOk;
    var e := Begin(d, s, targetExists).value;
    var cp, cq := d.checkpoint, e.checkpoint;
    forall t: nat, a: nat | SlotInRange(cq, t) && 1 <= a < SlotOf(cq, t).attemptCount ensures SetAside(e, t, a) {
      assert SlotInRange(cp, t);
      if t == s && a == SlotOf(cp, s).attemptCount {
        assert SlotOf(cp, s).state == InfrastructureInvalid;
      } else {
        assert SetAside(d, t, a);
      }
    }
  }

  lemma BeginOrder(d: Disk, s: nat, targetExists: bool)
    requires Bookkeeping(d) && Begin(d, s, targetExists).Some?
    ensures OrderOk(Begin(d, s, targetExists).value.checkpoint)
  {
    hide RunningOk, CountsOk, NoReroll, SelectionOk, AttemptsOk, AuthorizationsOk, LatestOk;
    var cp, cq := d.checkpoint, Begin(d, s, targetExists).value.checkpoint;
    forall t: nat | SlotInRange(cq, t) && t > s ensures SlotOf(cq, t).state != ValidMember {
      assert cp.slots[t - 1] == SlotOf(cq, t);
    }
  }

  lemma BeginSlots(d: Disk, s: nat, targetExists: bool)
    requires Bookkeeping(d) && Begin(d, s, targetExists).Some?
    ensures var e := Begin(d, s, targetExists).value; RunningOk(e.checkpoint) && CountsOk(e) && SelectionOk(e)
  {
    hide NoReroll, OrderOk, AttemptsOk, AuthorizationsOk, LatestOk;
    var cp, cq := d.checkpoint, Begin(d, s, targetExists).value.checkpoint;
    assert forall t: nat :: SlotInRange(cp, t) && t != s ==> SlotOf(cq, t) == SlotOf(cp, t);
    assert SlotOf(cq, s) == SlotOf(cp, s).(state := Running, attemptCount := SlotOf(cp, s).attemptCount + 1);
  }

  lemma BeginFiles(d: Disk, s: nat, targetExists: bool)
    requires Bookkeeping(d) && Begin(d, s, targetExists).Some?
    ensures var e := Begin(d, s, targetExists).value; AttemptsOk(e) && AuthorizationsOk(e) && LatestOk(e)
  {
    hide NoReroll, OrderOk, RunningOk, SelectionOk;
    var cp, cq := d.checkpoint, Begin(d, s, targetExists).value.checkpoint;
    assert forall t: nat :: SlotInRange(cp, t) && t != s ==> SlotOf(cq, t) == SlotOf(cp, t);
    assert SlotOf(cq, s) == SlotOf(cp, s).(state := Running, attemptCount := SlotOf(cp, s).attemptCount + 1);
  }

  lemma BeginKeeps(d: Disk, s: nat, targetExists: bool)
    requires Bookkeeping(d) && Begin(d, s, targetExists).Some?
    ensures Bookkeeping(Begin(d, s, targetExists).value)
  {
    hide Begin, RunningOk, CountsOk, AttemptsOk, AuthorizationsOk, NoReroll, LatestOk, SelectionOk, OrderOk;
    BeginNoReroll(d, s, targetExists);
    BeginOrder(d, s, targetExists);
    BeginSlots(d, s, targetExists);
    BeginFiles(d, s, targetExists);
  }

  lemma WriteAttemptNoReroll(d: Disk, record: AttemptRecord)
    requires NoReroll(d) && WriteAttempt(d, record).Some?
    ensures NoReroll(WriteAttempt(d, record).value)
  {
    var e := WriteAttempt(d, record).value;
    forall s: nat, a: nat | SlotInRange(e.checkpoint, s) && 1 <= a < SlotOf(e.checkpoint, s).attemptCount
      ensures SetAside(e, s, a)
    {
      assert SetAside(d, s, a);
    }
  }

  lemma WriteAttemptFiles(d: Disk, record: AttemptRecord)
    requires Bookkeeping(d) && d.checkpoint.current == Some(Intent(record.slot, record.attempt))
    requires record.classification != Pending && record.classification != Running
    requires record.classification == ValidMember ==> record.member.Some? && record.orchestration.Some?
    requires WriteAttempt(d, record).Some?
    ensures var e := WriteAttempt(d, record).value; AttemptsOk(e) && LatestOk(e)
  {
    hide NoReroll, OrderOk, AuthorizationsOk, SelectionOk;
    assert SlotInRange(d.checkpoint, record.slot);
    assert SlotOf(d.checkpoint, record.slot).state == Running && record.attempt >= 1;
  }

  lemma WriteAttemptSlots(d: Disk, record: AttemptRecord)
    requires Bookkeeping(d) && d.checkpoint.current == Some(Intent(record.slot, record.attempt))
    requires WriteAttempt(d, record).Some?
    ensures var e := WriteAttempt(d, record).value; CountsOk(e) && AuthorizationsOk(e) && SelectionOk(e)
  {
    hide NoReroll, OrderOk, AttemptsOk, LatestOk;
    assert SlotOf(d.checkpoint, record.slot).state == Running;
  }

  lemma WriteAttemptKeeps(d: Disk, record: AttemptRecord)
    requires Bookkeeping(d) && d.checkpoint.current == Some(Intent(record.slot, record.attempt))
    requires record.classification != Pending && record.classification != Running
    requires record.classification == ValidMember ==> record.member.Some? && record.orchestration.Some?
    requires WriteAttempt(d, record).Some?
    ensures var e := WriteAttempt(d, record).value;
            Bookkeeping(e) && e.checkpoint == d.checkpoint && (record.slot, record.attempt) in e.attempts
            && e.attempts[(record.slot, record.attempt)] == record
  {
    hide NoReroll, OrderOk, RunningOk, CountsOk, AttemptsOk, LatestOk, AuthorizationsOk, SelectionOk;
    WriteAttemptNoReroll(d, record);
    WriteAttemptFiles(d, record);
    WriteAttemptSlots(d, record);
  }

  /** `e` is `d` with the running attempt settled as `record` says. */
  ghost predicate Settled(d: Disk, e: Disk, record: AttemptRecord) {
    var cp, cq, s := d.checkpoint, e.checkpoint, record.slot;
    && e == d.(checkpoint := cq)
    && SlotInRange(cp, s) && |cq.slots| == |cp.slots| && cq.current.None? && cq.state != AttemptRunning
    && cq.state != Complete
    && SlotOf(cq, s) == Slot(record.classification, SlotOf(cp, s).attemptCount,
                             if record.classification == ValidMember then Some(record.attempt)
                               else SlotOf(cp, s).selectedAttempt)
    && (forall t: nat :: SlotInRange(cp, t) && t != s ==> SlotOf(cq, t) == SlotOf(cp, t))
  }

  lemma SaveSettles(w: World, d: Disk, record: AttemptRecord)
    requires SlotInRange(d.checkpoint, record.slot) && SaveOutcome(w, d, record).Some?
    ensures Settled(d, SaveOutcome(w, d, record).value, record)
  {
    hide SelectedFrom, FirstPending, EqualKeys, DistinctIdentities;
  }

  ghost predicate RunningRecorded(d: Disk, record: AttemptRecord) {
    && Bookkeeping(d) && d.checkpoint.current == Some(Intent(record.slot, record.attempt))
    && SlotInRange(d.checkpoint, record.slot)
    && (record.slot, record.attempt) in d.attempts && d.attempts[(record.slot, record.attempt)] == record
  }

  lemma SettledSlots(d: Disk, e: Disk, record: AttemptRecord)
    requires RunningRecorded(d, record) && Settled(d, e, record)
    ensures RunningOk(e.checkpoint) && CountsOk(e) && SelectionOk(e) && LatestOk(e) && OrderOk(e.checkpoint)
  {
    hide NoReroll, AuthorizationsOk;
    assert AttemptOk(d.checkpoint, (record.slot, record.attempt), record);
    assert SlotOf(d.checkpoint, record.slot).state == Running
      && SlotOf(d.checkpoint, record.slot).selectedAttempt == None;
  }

  lemma SettledRecords(d: Disk, e: Disk, record: AttemptRecord)
    requires RunningRecorded(d, record) && Settled(d, e, record)
    ensures AttemptsOk(e) && AuthorizationsOk(e) && NoReroll(e)
  {
    hide LatestOk, SelectionOk;
    forall t: nat, a: nat | SlotInRange(e.checkpoint, t) && 1 <= a < SlotOf(e.checkpoint, t).attemptCount
      ensures SetAside(e, t, a)
    {
      assert SetAside(d, t, a);
    }
    forall k | k in e.attempts ensures AttemptOk(e.checkpoint, k, e.attempts[k]) {
      assert AttemptOk(d.checkpoint, k, d.attempts[k]);
    }
  }

  lemma SaveOutcomeKeeps(w: World, d: Disk, record: AttemptRecord)
    requires RunningRecorded(d, record) && SaveOutcome(w, d, record).Some?
    ensures Bookkeeping(SaveOutcome(w, d, record).value)
  {
    SaveSettles(w, d, record);
    SettledSlots(d, SaveOutcome(w, d, record).value, record);
    SettledRecords(d, SaveOutcome(w, d, record).value, record);
  }

  lemma WriteAuthorizationKeeps(d: Disk, s: nat, reason: string)
    requires Bookkeeping(d) && WriteAuthorization(d, s, reason).Some?
    ensures Bookkeeping(WriteAuthorization(d, s, reason).value)
    ensures WriteAuthorization(d, s, reason).value.checkpoint == d.checkpoint
  {
    var e := WriteAuthorization(d, s, reason).value;
    assert SlotOf(d.checkpoint, s).state == InfrastructureInvalid;
    forall t: nat, a: nat | SlotInRange(e.checkpoint, t) && 1 <= a < SlotOf(e.checkpoint, t).attemptCount
      ensures SetAside(e, t, a)
    {
      assert SetAside(d, t, a);
    }
  }

  lemma AuthorizeKeeps(d: Disk, s: nat, reason: string)
    requires Bookkeeping(d) && Authorize(d, s, reason).Some?
    ensures Bookkeeping(Authorize(d, s, reason).value)
  {
    WriteAuthorizationKeeps(d, s, reason);
    var e, f := WriteAuthorization(d, s, reason).value, Authorize(d, s, reason).value;
    hide WriteAuthorization;
    SameSlotsKeep(e, f);
  }

  /** Only the set state, the announcement, the final identity or the published sets change. */
  lemma SameSlotsKeep(d: Disk, e: Disk)
    requires Bookkeeping(d) && d.checkpoint.current.None? && e.plan == d.plan
    requires e.checkpoint.slots == d.checkpoint.slots && e.checkpoint.current.None?
             && e.checkpoint.state != AttemptRunning
    requires e.attempts == d.attempts && e.replacements == d.replacements
    ensures Bookkeeping(e)
  {
    assert forall s: nat :: SlotInRange(d.checkpoint, s) ==> SlotOf(e.checkpoint, s) == SlotOf(d.checkpoint, s);
    forall t: nat, a: nat | SlotInRange(e.checkpoint, t) && 1 <= a < SlotOf(e.checkpoint, t).attemptCount
      ensures SetAside(e, t, a)
    {
      assert SetAside(d, t, a);
    }
    forall k | k in e.attempts ensures AttemptOk(e.checkpoint, k, e.attempts[k]) {
      assert AttemptOk(d.checkpoint, k, d.attempts[k]);
    }
    forall k | k in e.replacements ensures AuthorizationOk(e, k, e.replacements[k]) {
      assert AuthorizationOk(d, k, d.replacements[k]);
    }
  }

  // ---- the selected members ----

  lemma {:induction false} SelectedSame(w: World, attempts: map<(nat, nat), AttemptRecord>, slots: seq<Slot>,
      attempts': map<(nat, nat), AttemptRecord>, slots': seq<Slot>, i: nat)
    requires i <= |slots| == |slots'|
    requires forall j :: i <= j < |slots| ==> (slots[j].state == ValidMember <==> slots'[j].state == ValidMember)
    requires forall j :: i <= j < |slots| && slots[j].state == ValidMember ==>
             slots[j].selectedAttempt == slots'[j].selectedAttempt
    requires forall j: nat, a: nat ::
             i <= j < |slots| && slots[j].state == ValidMember && slots[j].selectedAttempt == Some(a) ==>
               ((j + 1, a) in attempts <==> (j + 1, a) in attempts')
                 && ((j + 1, a) in attempts ==> attempts[(j + 1, a)] == attempts'[(j + 1, a)])
    ensures SelectedFrom(w, attempts, slots, i) == SelectedFrom(w, attempts', slots', i)
    decreases |slots| - i
  {
    if i < |slots| {
      SelectedSame(w, attempts, slots, attempts', slots', i + 1);
    }
  }

  ghost predicate MembersCompatible(w: World, d: Disk) {
    && Selected(w, d).Some? && EqualKeys(Selected(w, d).value)
    && (SelectedComplete(w, d.attempts, d.checkpoint.slots, 0); DistinctIdentities(Selected(w, d).value))
  }

  ghost predicate SomeSlot(cp: Checkpoint, p: SlotState -> bool) {
    exists i :: 0 <= i < |cp.slots| && p(cp.slots[i].state)
  }

  ghost predicate Published(w: World, d: Disk) {
    && Finalized(w, d).Some?
    && d.checkpoint.finalSet == Some(Finalized(w, d).value.0)
    && Finalized(w, d).value.0 in d.sets && d.sets[Finalized(w, d).value.0] == Finalized(w, d).value.1
  }

  /** What each set state says about the members and the slots. */
  ghost predicate VerdictOk(w: World, d: Disk) {
    var cp := d.checkpoint;
    && Selected(w, d).Some?
    && (cp.state == Incompatible ==> !MembersCompatible(w, d))
    && (cp.state != Incompatible && cp.state != Complete ==> MembersCompatible(w, d))
    && (cp.state == BlockedInfrastructure ==> SomeSlot(cp, s => s == InfrastructureInvalid))
    && (cp.state == BlockedFailure ==>
       SomeSlot(cp, s => s in {BenchmarkFailure, ConfigurationFailure, EvidenceInvalid}))
    && (cp.state == SetUnresolved ==> SomeSlot(cp, s => s == Unresolved))
    && (cp.state == Complete ==> Published(w, d))
  }

  /** A change that touches no valid slot and none of their records. */
  lemma SelectionUntouched(w: World, d: Disk, e: Disk, s: nat)
    requires Bookkeeping(d) && |e.checkpoint.slots| == |d.checkpoint.slots| && SlotInRange(d.checkpoint, s)
    requires SlotOf(d.checkpoint, s).state != ValidMember && SlotOf(e.checkpoint, s).state != ValidMember
    requires forall t: nat :: SlotInRange(d.checkpoint, t) && t != s ==>
             SlotOf(e.checkpoint, t) == SlotOf(d.checkpoint, t)
    requires forall k :: k in d.attempts ==> k in e.attempts && e.attempts[k] == d.attempts[k]
    ensures Selected(w, e) == Selected(w, d)
    ensures MembersCompatible(w, e) <==> MembersCompatible(w, d)
  {
    var slots, slots' := d.checkpoint.slots, e.checkpoint.slots;
    forall j | 0 <= j < |slots| ensures j + 1 == s || slots'[j] == slots[j] {
      assert j + 1 != s ==> SlotOf(e.checkpoint, j + 1) == SlotOf(d.checkpoint, j + 1);
    }
    forall j: nat | j < |slots| && slots[j].state == ValidMember
      ensures slots[j].selectedAttempt.Some? && (j + 1, slots[j].selectedAttempt.value) in d.attempts
    {
      assert SlotOf(d.checkpoint, j + 1) == slots[j];
    }
    SelectedSame(w, d.attempts, slots, e.attempts, slots', 0);
  }

  // ---- the verdict is kept ----

  ghost predicate Inv(w: World, d: Disk) { Bookkeeping(d) && VerdictOk(w, d) }

  lemma {:induction false} NoneSelected(w: World, attempts: map<(nat, nat), AttemptRecord>, slots: seq<Slot>, i: nat)
    requires i <= |slots| && forall j :: i <= j < |slots| ==> slots[j].state != ValidMember
    ensures SelectedFrom(w, attempts, slots, i) == Some([])
    decreases |slots| - i
  {
    if i < |slots| {
      NoneSelected(w, attempts, slots, i + 1);
    }
  }

  lemma InitialInv(w: World, d: Disk)
    requires Initial(d)
    ensures Inv(w, d)
  {
    InitialBookkeeping(d);
    NoneSelected(w, d.attempts, d.checkpoint.slots, 0);
  }

  lemma BeginInv(w: World, d: Disk, s: nat, targetExists: bool)
    requires Inv(w, d) && Begin(d, s, targetExists).Some?
    ensures Inv(w, Begin(d, s, targetExists).value)
  {
    var e := Begin(d, s, targetExists).value;
    BeginKeeps(d, s, targetExists);
    assert SlotOf(d.checkpoint, s).state != ValidMember && SlotOf(e.checkpoint, s).state == Running;
    SelectionUntouched(w, d, e, s);
  }

  /** The outcome of an attempt is a complete record of that attempt. */
  lemma OutcomeShape(s: nat, attempt: nat, exit: int, pointer: Pointer)
    ensures var r := Outcome(s, attempt, exit, pointer);
            && r.slot == s && r.attempt == attempt && r.classification != Pending && r.classification != Running
            && (r.classification == ValidMember <==> exit == 0 && Matches(pointer, exit) && pointer.derived.Derivation?)
            && (r.classification == ValidMember ==> r.member.Some? && r.orchestration.Some?)
  {
  }

  ghost predicate Fresh(d: Disk, record: AttemptRecord) {
    && d.checkpoint.current == Some(Intent(record.slot, record.attempt))
    && record.classification != Pending && record.classification != Running
    && (record.classification == ValidMember ==> record.member.Some? && record.orchestration.Some?)
  }

  lemma WriteAttemptInv(w: World, d: Disk, record: AttemptRecord)
    requires Inv(w, d) && Fresh(d, record) && WriteAttempt(d, record).Some?
    ensures Inv(w, WriteAttempt(d, record).value)
    ensures RunningRecorded(WriteAttempt(d, record).value, record)
  {
    hide NoReroll, AuthorizationsOk, LatestOk, SelectedFrom, EqualKeys, DistinctIdentities, Finalized;
    hide MembersCompatible, Selected;
    WriteAttemptKeeps(d, record);
    var e := WriteAttempt(d, record).value;
    assert SlotInRange(d.checkpoint, record.slot);
    assert SlotOf(d.checkpoint, record.slot).state == Running;
    SelectionUntouched(w, d, e, record.slot);
  }

  lemma SaveMemberVerdict(w: World, d: Disk, record: AttemptRecord)
    requires SlotInRange(d.checkpoint, record.slot) && SaveOutcome(w, d, record).Some?
             && record.classification == ValidMember
    ensures VerdictOk(w, SaveOutcome(w, d, record).value)
  {
    hide SelectedFrom, EqualKeys, DistinctIdentities, FirstPending, Finalized;
  }

  lemma SaveFailureVerdict(w: World, d: Disk, record: AttemptRecord)
    requires Inv(w, d) && RunningRecorded(d, record) && SaveOutcome(w, d, record).Some?
             && record.classification != ValidMember
    ensures VerdictOk(w, SaveOutcome(w, d, record).value)
  {
    hide NoReroll, AuthorizationsOk, LatestOk, SelectedFrom, EqualKeys, DistinctIdentities, Finalized;
    hide MembersCompatible, Selected;
    var e := SaveOutcome(w, d, record).value;
    SaveSettles(w, d, record);
    assert SlotOf(d.checkpoint, record.slot).state == Running;
    assert AttemptOk(d.checkpoint, (record.slot, record.attempt), record);
    SelectionUntouched(w, d, e, record.slot);
    assert e.checkpoint.slots[record.slot - 1].state == record.classification;
  }

  lemma SaveOutcomeInv(w: World, d: Disk, record: AttemptRecord)
    requires Inv(w, d) && RunningRecorded(d, record) && SaveOutcome(w, d, record).Some?
    ensures Inv(w, SaveOutcome(w, d, record).value)
  {
    hide SaveOutcome, Bookkeeping, VerdictOk;
    SaveOutcomeKeeps(w, d, record);
    if record.classification == ValidMember {
      SaveMemberVerdict(w, d, record);
    } else {
      SaveFailureVerdict(w, d, record);
    }
  }

  lemma SettleInv(w: World, d: Disk, record: AttemptRecord)
    requires Inv(w, d) && Fresh(d, record)
    ensures WriteAttempt(d, record).Some? ==> Inv(w, WriteAttempt(d, record).value)
    ensures WriteAttempt(d, record).Some? && SlotInRange(WriteAttempt(d, record).value.checkpoint, record.slot) ==>
              var e := WriteAttempt(d, record).value;
              SaveOutcome(w, e, record).Some? ==> Inv(w, SaveOutcome(w, e, record).value)
  {
    if WriteAttempt(d, record).Some? {
      WriteAttemptInv(w, d, record);
      var e := WriteAttempt(d, record).value;
      if SlotInRange(e.checkpoint, record.slot) && SaveOutcome(w, e, record).Some? {
        SaveOutcomeInv(w, e, record);
      }
    }
  }

  lemma RecordInv(w: World, d: Disk, s: nat, exit: int, pointer: Pointer)
    requires Inv(w, d)
    ensures Inv(w, AfterFailedRecord(d, s, exit, pointer))
    ensures Record(w, d, s, exit, pointer).Some? ==> Inv(w, Record(w, d, s, exit, pointer).value)
  {
    hide SaveOutcome, Bookkeeping, VerdictOk;
    if IntentFor(d.checkpoint, s) {
      OutcomeShape(s, d.checkpoint.current.value.attempt, exit, pointer);
      hide Outcome;
      SettleInv(w, d, Outcome(s, d.checkpoint.current.value.attempt, exit, pointer));
    }
  }

  lemma GiveUpInv(w: World, d: Disk)
    requires Inv(w, d)
    ensures GiveUpWrite(d).Some? ==> Inv(w, GiveUpWrite(d).value)
    ensures GiveUp(w, d).Some? ==> Inv(w, GiveUp(w, d).value)
  {
    if d.checkpoint.current.Some? {
      hide SaveOutcome, Bookkeeping, VerdictOk;
      SettleInv(w, d, GivenUp(d.checkpoint.current.value.slot, d.checkpoint.current.value.attempt));
    }
  }

  lemma ReconcileInv(w: World, d: Disk, pointer: Pointer)
    requires Inv(w, d) && Reconcile(w, d, pointer).Some?
    ensures Inv(w, Reconcile(w, d, pointer).value)
  {
    hide Inv, Record, AfterFailedRecord, GiveUp;
    GiveUpInv(w, d);
    if d.checkpoint.current.Some? && pointer.Recorded? && pointer.exit.ExitDigits? {
      var s, exit := d.checkpoint.current.value.slot, pointer.exit.value;
      RecordInv(w, d, s, exit, pointer);
      GiveUpInv(w, AfterFailedRecord(d, s, exit, pointer));
    }
  }

  lemma AuthorizeInv(w: World, d: Disk, s: nat, reason: string)
    requires Inv(w, d)
    ensures WriteAuthorization(d, s, reason).Some? ==> Inv(w, WriteAuthorization(d, s, reason).value)
    ensures Authorize(d, s, reason).Some? ==> Inv(w, Authorize(d, s, reason).value)
  {
    if WriteAuthorization(d, s, reason).Some? {
      WriteAuthorizationKeeps(d, s, reason);
      AuthorizeKeeps(d, s, reason);
    }
  }

  lemma PublishInv(w: World, d: Disk)
    requires Inv(w, d) && d.checkpoint.state != Complete && Publish(w, d).Some?
    ensures Inv(w, Publish(w, d).value)
  {
    hide FinalDocument, Members, Minimum, EqualKeys, DistinctIdentities, SelectedFrom, NoReroll, AuthorizationsOk;
    hide LatestOk;
    SameSlotsKeep(d, Publish(w, d).value);
  }

  lemma FinalizeFields(w: World, d: Disk)
    requires d.checkpoint.state != Complete && Finalize(w, d).Some?
    ensures Finalized(w, d).Some? && d.checkpoint.current.None?
    ensures var e, (id, document) := Finalize(w, d).value, Finalized(w, d).value;
            && e.plan == d.plan && e.attempts == d.attempts && e.replacements == d.replacements
            && e.checkpoint.slots == d.checkpoint.slots && e.checkpoint.current.None? && e.checkpoint.state == Complete
            && e.checkpoint.finalSet == Some(id) && id in e.sets && e.sets[id] == document
  {
    hide FinalDocument, Members, Minimum, EqualKeys, SelectedFrom;
  }

  lemma FinalizeInv(w: World, d: Disk)
    requires Inv(w, d) && Finalize(w, d).Some?
    ensures Inv(w, Finalize(w, d).value)
  {
    if d.checkpoint.state != Complete {
      FinalizeFields(w, d);
      var e := Finalize(w, d).value;
      FinalizedSame(w, d, e);
      hide Finalize, Finalized, MembersCompatible, SelectedFrom;
      SameSlotsKeep(d, e);
      hide Bookkeeping;
    }
  }

  lemma FinalizedSame(w: World, d: Disk, e: Disk)
    requires e.plan == d.plan && e.attempts == d.attempts && e.replacements == d.replacements
    requires e.checkpoint.slots == d.checkpoint.slots && e.checkpoint.current == d.checkpoint.current
    ensures Finalized(w, e) == Finalized(w, d)
  {
    if Finalized(w, d).Some? {
      var chosen := Selected(w, d).value;
      SelectedComplete(w, d.attempts, d.checkpoint.slots, 0);
      AllSelected(w, d.attempts, d.checkpoint.slots, 0);
      assert FinalDocument(d, chosen) == FinalDocument(e, chosen);
    }
  }

  lemma StepInv(w: World, d: Disk, step: Step)
    requires Inv(w, d) && Apply(w, d, step).Some?
    ensures Inv(w, Apply(w, d, step).value)
  {
    hide Inv, Begin, Record, AfterFailedRecord, Reconcile, GiveUpWrite, Authorize, WriteAuthorization, Finalize;
    hide Publish;
    match step
    case BeginStep(s, targetExists) => BeginInv(w, d, s, targetExists);
    case RecordStep(s, exit, pointer) => RecordInv(w, d, s, exit, pointer);
    case RecordCut(s, exit, pointer) => RecordInv(w, d, s, exit, pointer);
    case ReconcileStep(pointer) => ReconcileInv(w, d, pointer);
    case GiveUpCut => GiveUpInv(w, d);
    case AuthorizeStep(s, reason) => AuthorizeInv(w, d, s, reason);
    case AuthorizeCut(s, reason) => AuthorizeInv(w, d, s, reason);
    case FinalizeStep => FinalizeInv(w, d);
    case FinalizeCut => PublishInv(w, d);
  }

  /** The invariant holds in every state of every run. */
  lemma {:induction false} RunInv(w: World, states: seq<Disk>, steps: seq<Step>, i: nat)
    requires IsRun(w, states, steps) && i < |states|
    ensures Inv(w, states[i])
    decreases i
  {
    hide Inv, Apply;
    if i == 0 {
      InitialInv(w, states[0]);
    } else {
      RunInv(w, states, steps, i - 1);
      assert Apply(w, states[i - 1], steps[i - 1]) == Some(states[i - 1 + 1]);
      StepInv(w, states[i - 1], steps[i - 1]);
    }
  }
}
