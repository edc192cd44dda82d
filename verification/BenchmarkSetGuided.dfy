/**
 Runs that begin only the slot `set-next` announces, and what goes wrong in runs that do not.
 */
module BenchmarkSetGuided {
  import opened Options
  import opened BenchmarkSet
  import opened BenchmarkSetRuns
  import opened BenchmarkSetTheorems

  ghost predicate IsGuidedRun(w: World, states: seq<Disk>, steps: seq<Step>) {
    && IsRun(w, states, steps)
    && forall i :: 0 <= i < |steps| && steps[i].BeginStep? ==> SetNext(states[i].checkpoint) == Start(steps[i].slot)
  }

  /** Every slot before a started slot is valid. */
  ghost predicate PrefixOk(cp: Checkpoint) {
    forall s: nat, t: nat :: SlotInRange(cp, s) && SlotInRange(cp, t) && t < s && SlotOf(cp, s).state != Pending ==>
      SlotOf(cp, t).state == ValidMember
  }

  /** A READY set announces the first slot that is not valid, or finalization when there is none. */
  ghost predicate AnnouncementOk(cp: Checkpoint) {
    cp.state == Ready ==>
      match cp.nextPending
      case None => forall s: nat :: SlotInRange(cp, s) ==> SlotOf(cp, s).state == ValidMember
      case Some(n) =>
        && SlotInRange(cp, n) && SlotOf(cp, n).state != ValidMember
        && forall t: nat :: SlotInRange(cp, t) && t < n ==> SlotOf(cp, t).state == ValidMember
  }

  ghost predicate Guided(cp: Checkpoint) { PrefixOk(cp) && AnnouncementOk(cp) }

  lemma BeginGuided(d: Disk, s: nat, targetExists: bool)
    requires Guided(d.checkpoint) && SetNext(d.checkpoint) == Start(s) && Begin(d, s, targetExists).Some?
    ensures Guided(Begin(d, s, targetExists).value.checkpoint)
  {
    var cp, cq := d.checkpoint, Begin(d, s, targetExists).value.checkpoint;
    assert forall t: nat :: SlotInRange(cp, t) && t != s ==> SlotOf(cq, t) == SlotOf(cp, t);
  }

  lemma {:induction false} FirstPendingShape(slots: seq<Slot>, i: nat)
    requires i <= |slots|
    ensures match FirstPending(slots, i)
            case None => forall j :: i <= j < |slots| ==> slots[j].state != Pending
            case Some(p) => i < p <= |slots| && slots[p - 1].state == Pending && forall j :: i <= j < p - 1 ==>
              slots[j].state != Pending
    decreases |slots| - i
  {
    if i < |slots| && slots[i].state != Pending {
      FirstPendingShape(slots, i + 1);
    }
  }

  lemma SavePrefix(w: World, d: Disk, record: AttemptRecord)
    requires RunningRecorded(d, record) && PrefixOk(d.checkpoint) && SaveOutcome(w, d, record).Some?
    ensures PrefixOk(SaveOutcome(w, d, record).value.checkpoint)
  {
    SaveSettles(w, d, record);
    hide SaveOutcome, NoReroll, LatestOk, CountsOk, AuthorizationsOk, OrderOk, SelectionOk;
    assert SlotOf(d.checkpoint, record.slot).state == Running;
    assert AttemptOk(d.checkpoint, (record.slot, record.attempt), record);
  }

  /** Only a new member makes a set READY, and then the first pending slot is announced. */
  lemma SavedAnnouncement(w: World, d: Disk, record: AttemptRecord)
    requires SlotInRange(d.checkpoint, record.slot) && SaveOutcome(w, d, record).Some?
    requires SaveOutcome(w, d, record).value.checkpoint.state == Ready
    ensures var cq := SaveOutcome(w, d, record).value.checkpoint;
            cq.nextPending == FirstPending(cq.slots, 0) && SlotInRange(cq, record.slot)
              && SlotOf(cq, record.slot).state == ValidMember
  {
    hide SelectedFrom, EqualKeys, DistinctIdentities, FirstPending;
  }

  lemma AnnounceFirst(cq: Checkpoint, s: nat)
    requires PrefixOk(cq) && cq.nextPending == FirstPending(cq.slots, 0)
    requires SlotInRange(cq, s) && SlotOf(cq, s).state == ValidMember
    requires forall t: nat :: SlotInRange(cq, t) && t > s ==> SlotOf(cq, t).state == Pending
    ensures AnnouncementOk(cq)
  {
    FirstPendingShape(cq.slots, 0);
    match cq.nextPending
    case None =>
      forall t: nat | SlotInRange(cq, t) ensures SlotOf(cq, t).state == ValidMember {
        assert cq.slots[t - 1] == SlotOf(cq, t);
      }
    case Some(n) =>
      forall t: nat | SlotInRange(cq, t) && t < n ensures SlotOf(cq, t).state == ValidMember {
        assert cq.slots[t - 1] == SlotOf(cq, t);
      }
      assert SlotOf(cq, n) == cq.slots[n - 1];
  }

  /** Slots after the running one have not been started. */
  lemma LaterAreUntouched(w: World, d: Disk, record: AttemptRecord)
    requires RunningRecorded(d, record) && PrefixOk(d.checkpoint) && SaveOutcome(w, d, record).Some?
    ensures var cq := SaveOutcome(w, d, record).value.checkpoint;
            forall t: nat :: SlotInRange(cq, t) && t > record.slot ==> SlotOf(cq, t).state == Pending
  {
    SaveSettles(w, d, record);
    hide SaveOutcome, NoReroll, LatestOk, CountsOk, AuthorizationsOk, OrderOk, SelectionOk;
    assert SlotOf(d.checkpoint, record.slot).state == Running;
  }

  lemma SaveGuided(w: World, d: Disk, record: AttemptRecord)
    requires RunningRecorded(d, record) && Guided(d.checkpoint) && SaveOutcome(w, d, record).Some?
    ensures Guided(SaveOutcome(w, d, record).value.checkpoint)
  {
    var cq := SaveOutcome(w, d, record).value.checkpoint;
    SavePrefix(w, d, record);
    if cq.state == Ready {
      assert SlotInRange(d.checkpoint, record.slot);
      SavedAnnouncement(w, d, record);
      LaterAreUntouched(w, d, record);
      AnnounceFirst(cq, record.slot);
    }
    hide SaveOutcome, PrefixOk, Bookkeeping;
  }

  lemma SettleGuided(w: World, d: Disk, record: AttemptRecord)
    requires Inv(w, d) && Fresh(d, record) && Guided(d.checkpoint) && WriteAttempt(d, record).Some?
    ensures var e := WriteAttempt(d, record).value;
            && e.checkpoint == d.checkpoint && SlotInRange(e.checkpoint, record.slot)
            && (SaveOutcome(w, e, record).Some? ==> Guided(SaveOutcome(w, e, record).value.checkpoint))
  {
    WriteAttemptInv(w, d, record);
    hide SaveOutcome, Inv;
    var e := WriteAttempt(d, record).value;
    if SaveOutcome(w, e, record).Some? {
      SaveGuided(w, e, record);
    }
  }

  lemma RecordGuided(w: World, d: Disk, s: nat, exit: int, pointer: Pointer)
    requires Inv(w, d) && Guided(d.checkpoint)
    ensures AfterFailedRecord(d, s, exit, pointer).checkpoint == d.checkpoint
    ensures Record(w, d, s, exit, pointer).Some? ==> Guided(Record(w, d, s, exit, pointer).value.checkpoint)
  {
    if IntentFor(d.checkpoint, s) {
      var record := Outcome(s, d.checkpoint.current.value.attempt, exit, pointer);
      OutcomeShape(s, d.checkpoint.current.value.attempt, exit, pointer);
      hide Outcome, SaveOutcome, Inv, Guided;
      if WriteAttempt(d, record).Some? {
        SettleGuided(w, d, record);
      }
    }
  }

  lemma GiveUpGuided(w: World, d: Disk)
    requires Inv(w, d) && Guided(d.checkpoint)
    ensures GiveUpWrite(d).Some? ==> GiveUpWrite(d).value.checkpoint == d.checkpoint
    ensures GiveUp(w, d).Some? ==> Guided(GiveUp(w, d).value.checkpoint)
  {
    if d.checkpoint.current.Some? {
      var record := GivenUp(d.checkpoint.current.value.slot, d.checkpoint.current.value.attempt);
      hide SaveOutcome, Inv, Guided;
      if WriteAttempt(d, record).Some? {
        SettleGuided(w, d, record);
      }
    }
  }

  lemma ReconcileGuided(w: World, d: Disk, pointer: Pointer)
    requires Inv(w, d) && Guided(d.checkpoint) && Reconcile(w, d, pointer).Some?
    ensures Guided(Reconcile(w, d, pointer).value.checkpoint)
  {
    hide Inv, Record, AfterFailedRecord, GiveUp, Guided;
    GiveUpGuided(w, d);
    if d.checkpoint.current.Some? && pointer.Recorded? && pointer.exit.ExitDigits? {
      var s, exit := d.checkpoint.current.value.slot, pointer.exit.value;
      RecordGuided(w, d, s, exit, pointer);
      RecordInv(w, d, s, exit, pointer);
      GiveUpGuided(w, AfterFailedRecord(d, s, exit, pointer));
    }
  }

  lemma AuthorizeGuided(d: Disk, s: nat, reason: string)
    requires Guided(d.checkpoint) && WriteAuthorization(d, s, reason).Some?
    ensures WriteAuthorization(d, s, reason).value.checkpoint == d.checkpoint
    ensures Guided(Authorize(d, s, reason).value.checkpoint)
  {
    var cp, cq := d.checkpoint, Authorize(d, s, reason).value.checkpoint;
    assert cq.slots == cp.slots;
    assert SlotOf(cp, s).state == InfrastructureInvalid;
    assert forall t: nat :: SlotInRange(cp, t) ==> SlotOf(cq, t) == SlotOf(cp, t);
  }

  lemma FinalizeGuided(w: World, d: Disk)
    requires Guided(d.checkpoint) && Publish(w, d).Some?
    ensures Publish(w, d).value.checkpoint == d.checkpoint
    ensures d.checkpoint.state != Complete ==> Guided(Finalize(w, d).value.checkpoint)
  {
    hide Finalized;
    if d.checkpoint.state != Complete {
      var cp, cq := d.checkpoint, Finalize(w, d).value.checkpoint;
      assert forall t: nat :: SlotInRange(cp, t) ==> SlotOf(cq, t) == SlotOf(cp, t);
    }
  }

  lemma StepGuided(w: World, d: Disk, step: Step)
    requires Inv(w, d) && Guided(d.checkpoint) && Apply(w, d, step).Some?
    requires step.BeginStep? ==> SetNext(d.checkpoint) == Start(step.slot)
    ensures Guided(Apply(w, d, step).value.checkpoint)
  {
    hide Inv, Begin, Record, AfterFailedRecord, Reconcile, GiveUpWrite, WriteAuthorization, Publish, Guided;
    match step
    case BeginStep(s, targetExists) => BeginGuided(d, s, targetExists);
    case RecordStep(s, exit, pointer) => RecordGuided(w, d, s, exit, pointer);
    case RecordCut(s, exit, pointer) => RecordGuided(w, d, s, exit, pointer);
    case ReconcileStep(pointer) => ReconcileGuided(w, d, pointer);
    case GiveUpCut => GiveUpGuided(w, d);
    case AuthorizeStep(s, reason) => AuthorizeGuided(d, s, reason);
    case AuthorizeCut(s, reason) => AuthorizeGuided(d, s, reason);
    case FinalizeStep => if d.checkpoint.state != Complete { FinalizeGuided(w, d); }
    case FinalizeCut => FinalizeGuided(w, d);
  }

  lemma {:induction false} GuidedRunInv(w: World, states: seq<Disk>, steps: seq<Step>, i: nat)
    requires IsGuidedRun(w, states, steps) && i < |states|
    ensures Guided(states[i].checkpoint)
    decreases i
  {
    if i == 0 {
      InitiallyGuided(states[0]);
    } else {
      GuidedRunInv(w, states, steps, i - 1);
      StepAt(w, states, steps, i - 1);
      hide Inv, Apply, Guided;
      StepGuided(w, states[i - 1], steps[i - 1]);
    }
  }

  lemma InitiallyGuided(d: Disk)
    requires Initial(d)
    ensures Guided(d.checkpoint)
  {
  }

  /** In a guided run the valid slots always form a prefix, and finalization is announced only
      when every slot is valid. */
  lemma GuidedMembersFormPrefix(w: World, states: seq<Disk>, steps: seq<Step>, i: nat, s: nat, t: nat)
    requires IsGuidedRun(w, states, steps) && i < |states| && SlotInRange(states[i].checkpoint, s)
    ensures IsValid(states[i], s) && 1 <= t < s ==> IsValid(states[i], t)
    ensures SetNext(states[i].checkpoint) == FinalizeNow ==> IsValid(states[i], s)
  {
    GuidedRunInv(w, states, steps, i);
    if 1 <= t < s {
      assert SlotInRange(states[i].checkpoint, t);
    }
  }

  // ---- runs that show what the protocol does not promise ----

  const TWO_SLOTS := Plan(Experiment, 2)

  /** A world in which every member has the same compatibility key. */
  const PLAIN_WORLD := World((m: Member) => Some("key"), (ms: seq<Member>) => true, (s: FinalSet) => "set")

  function Success(runId: string, digest: string): Pointer {
    Recorded(true, ExitDigits(0, true), true, Orchestration(Some(digest), digest),
      Derivation(Member(runId, digest, "manifest", "metrics")))
  }

  function SuccessRecord(slot: nat, runId: string, digest: string): AttemptRecord {
    AttemptRecord(slot, 1, ValidMember, Some(Member(runId, digest, "manifest", "metrics")),
      Some(Orchestration(Some(digest), digest)), None, Some(0))
  }

  const LOSS := Recorded(true, ExitDigits(10, true), true, Orchestration(None, "lost"), DerivationFailed(0))
  const LOSS_RECORD := AttemptRecord(2, 1, InfrastructureInvalid, None, Some(Orchestration(None, "lost")), None,
    Some(10))

  const UNTOUCHED := Slot(Pending, 0, None)
  const STARTED := Slot(Running, 1, None)
  const MEMBER := Slot(ValidMember, 1, Some(1))
  const LOST := Slot(InfrastructureInvalid, 1, None)

  function At(slots: seq<Slot>, current: Option<Intent>, next: Option<nat>, state: SetState, revision: nat,
      attempts: map<(nat, nat), AttemptRecord>): Disk {
    Disk(TWO_SLOTS, Checkpoint(slots, current, next, state, None, revision), attempts, map[], map[])
  }

  const S0 := At([UNTOUCHED, UNTOUCHED], None, Some(1), Ready, 0, map[])

  lemma ExampleStart()
    ensures Initial(S0)
  {
    assert InitialCheckpoint(TWO_SLOTS).slots == [UNTOUCHED, UNTOUCHED];
  }

  lemma BeginExample(d: Disk, s: nat, e: Disk)
    requires d.checkpoint.state in {Ready, BlockedInfrastructure} && d.checkpoint.current.None?
             && |d.checkpoint.slots| == 2 && 1 <= s <= 2
    requires d.checkpoint.slots[s - 1] == UNTOUCHED && (s == 1 ==> d.checkpoint.slots[1].state != ValidMember)
    requires |e.checkpoint.slots| == 2 && e.checkpoint.slots[s - 1] == STARTED
             && e.checkpoint.slots[2 - s] == d.checkpoint.slots[2 - s]
    requires e == d.(checkpoint := e.checkpoint)
    requires e.checkpoint == Checkpoint(e.checkpoint.slots, Some(Intent(s, 1)), Some(s), AttemptRunning,
             d.checkpoint.finalSet, d.checkpoint.revision + 1)
    ensures Begin(d, s, false) == Some(e)
  {
    assert e.checkpoint.slots == d.checkpoint.slots[s - 1 := STARTED];
  }

  lemma TwoMembers(w: World, r1: AttemptRecord, r2: AttemptRecord)
    requires w == PLAIN_WORLD && r1.member.Some? && r1.orchestration.Some? && r2.member.Some? && r2.orchestration.Some?
    ensures SelectedFrom(w, map[(1, 1) := r1, (2, 1) := r2], [MEMBER, MEMBER], 0)
            == Some([Chosen(r1, "key"), Chosen(r2, "key")])
  {
    var attempts: map<(nat, nat), AttemptRecord>, slots := map[(1, 1) := r1, (2, 1) := r2], [MEMBER, MEMBER];
    assert SelectedFrom(w, attempts, slots, 2) == Some([]);
    SelectedStep(w, attempts, slots, 1, r2);
    SelectedStep(w, attempts, slots, 0, r1);
    assert [Chosen(r1, "key")] + ([Chosen(r2, "key")] + []) == [Chosen(r1, "key"), Chosen(r2, "key")];
  }

  lemma SelectedStep(w: World, attempts: map<(nat, nat), AttemptRecord>, slots: seq<Slot>, i: nat, r: AttemptRecord)
    requires i < |slots| && slots[i] == MEMBER && (i + 1, 1) in attempts && attempts[(i + 1, 1)] == r
    requires r.member.Some? && r.orchestration.Some? && w.key(r.member.value) == Some("key")
             && SelectedFrom(w, attempts, slots, i + 1).Some?
    ensures SelectedFrom(w, attempts, slots, i)
            == Some([Chosen(r, "key")] + SelectedFrom(w, attempts, slots, i + 1).value)
  {
  }

  lemma OneMember(w: World, r1: AttemptRecord, other: Slot, attempts: map<(nat, nat), AttemptRecord>)
    requires w == PLAIN_WORLD && r1.member.Some? && r1.orchestration.Some? && other.state != ValidMember
    requires (1, 1) in attempts && attempts[(1, 1)] == r1
    ensures SelectedFrom(w, attempts, [MEMBER, other], 0) == Some([Chosen(r1, "key")])
  {
    var slots := [MEMBER, other];
    assert SelectedFrom(w, attempts, slots, 2) == Some([]);
    assert SelectedFrom(w, attempts, slots, 1) == Some([]);
    SelectedStep(w, attempts, slots, 0, r1);
    assert [Chosen(r1, "key")] + [] == [Chosen(r1, "key")];
  }

  /** A set whose two members are one and the same run is finalized: INCOMPATIBLE does not stop
      finalization, which does not look at the identities again. */
  lemma DuplicateIdentityIsPublished() returns (states: seq<Disk>, steps: seq<Step>)
    ensures IsGuidedRun(PLAIN_WORLD, states, steps) && |states| == 6
    ensures states[4].checkpoint.state == Incompatible && states[5].checkpoint.state == Complete
    ensures !MembersCompatible(PLAIN_WORLD, states[5])
  {
    hide Begin, Record, Finalize, SelectedFrom;
    var w := PLAIN_WORLD;
    var r1, r2 := SuccessRecord(1, "run", "a"), SuccessRecord(2, "run", "b");
    var both: map<(nat, nat), AttemptRecord> := map[(1, 1) := r1, (2, 1) := r2];
    var s1 := At([STARTED, UNTOUCHED], Some(Intent(1, 1)), Some(1), AttemptRunning, 1, map[]);
    var s2 := At([MEMBER, UNTOUCHED], None, Some(2), Ready, 2, map[(1, 1) := r1]);
    var s3 := At([MEMBER, STARTED], Some(Intent(2, 1)), Some(2), AttemptRunning, 3, map[(1, 1) := r1]);
    var s4 := At([MEMBER, MEMBER], None, None, Incompatible, 4, both);
    ExampleStart();
    OneMember(w, r1, UNTOUCHED, map[(1, 1) := r1]);
    TwoMembers(w, r1, r2);
    BeginExample(S0, 1, s1);
    FirstMember(w, s1, r1, Success("run", "a"), s2);
    BeginExample(s2, 2, s3);
    SecondMember(w, s3, r1, r2, s4);
    var s5 := PublishTwo(w, s4, r1, r2);
    states := [S0, s1, s2, s3, s4, s5];
    steps := [BeginStep(1, false), RecordStep(1, 0, Success("run", "a")), BeginStep(2, false),
      RecordStep(2, 0, Success("run", "b")), FinalizeStep];
  }

  lemma FirstMember(w: World, d: Disk, r1: AttemptRecord, pointer: Pointer, e: Disk)
    requires w == PLAIN_WORLD && r1 == SuccessRecord(1, "run", "a") && pointer == Success("run", "a")
    requires d == At([STARTED, UNTOUCHED], Some(Intent(1, 1)), Some(1), AttemptRunning, 1, map[])
    requires e == At([MEMBER, UNTOUCHED], None, Some(2), Ready, 2, map[(1, 1) := r1])
    ensures Record(w, d, 1, 0, pointer) == Some(e)
  {
    assert Outcome(1, 1, 0, pointer) == r1;
    OneMember(w, r1, UNTOUCHED, map[(1, 1) := r1]);
    assert [STARTED, UNTOUCHED][0 := MEMBER] == [MEMBER, UNTOUCHED];
    assert FirstPending([MEMBER, UNTOUCHED], 1) == Some(2);
    hide SelectedFrom, Outcome;
  }

  lemma SecondMember(w: World, d: Disk, r1: AttemptRecord, r2: AttemptRecord, e: Disk)
    requires w == PLAIN_WORLD && r1 == SuccessRecord(1, "run", "a") && r2 == SuccessRecord(2, "run", "b")
    requires d == At([MEMBER, STARTED], Some(Intent(2, 1)), Some(2), AttemptRunning, 3, map[(1, 1) := r1])
    requires e == At([MEMBER, MEMBER], None, None, Incompatible, 4, map[(1, 1) := r1, (2, 1) := r2])
    ensures Record(w, d, 2, 0, Success("run", "b")) == Some(e)
  {
    assert Outcome(2, 1, 0, Success("run", "b")) == r2;
    TwoMembers(w, r1, r2);
    var attempts: map<(nat, nat), AttemptRecord> := map[(1, 1) := r1];
    assert attempts[(2, 1) := r2] == map[(1, 1) := r1, (2, 1) := r2];
    assert [MEMBER, STARTED][1 := MEMBER] == [MEMBER, MEMBER];
    var chosen := [Chosen(r1, "key"), Chosen(r2, "key")];
    assert !DistinctIdentities(chosen) by {
      assert chosen[0].record.member.value.rawRunId == chosen[1].record.member.value.rawRunId;
    }
    hide SelectedFrom, Outcome, DistinctIdentities;
  }

  lemma PublishTwo(w: World, d: Disk, r1: AttemptRecord, r2: AttemptRecord) returns (e: Disk)
    requires w == PLAIN_WORLD && r1 == SuccessRecord(1, "run", "a") && r2 == SuccessRecord(2, "run", "b")
    requires d == At([MEMBER, MEMBER], None, None, Incompatible, 4, map[(1, 1) := r1, (2, 1) := r2])
    ensures Finalize(w, d) == Some(e) && e.checkpoint.state == Complete && !MembersCompatible(w, e)
  {
    TwoMembers(w, r1, r2);
    var chosen := [Chosen(r1, "key"), Chosen(r2, "key")];
    assert Selected(w, d) == Some(chosen);
    assert !DistinctIdentities(chosen) by {
      assert chosen[0].record.member.value.rawRunId == chosen[1].record.member.value.rawRunId;
    }
    hide SelectedFrom, AuditOf, DistinctIdentities;
    assert Finalized(w, d).Some?;
    e := Finalize(w, d).value;
    assert Selected(w, e) == Some(chosen);
  }

  /** Outside guided runs finalization can be announced although a slot failed and was never
      replaced: slot 2 is lost, then slot 1 is begun and succeeds. */
  lemma UnguidedAnnouncement() returns (states: seq<Disk>, steps: seq<Step>)
    ensures IsRun(PLAIN_WORLD, states, steps) && |states| == 5
    ensures SetNext(states[4].checkpoint) == FinalizeNow && !IsValid(states[4], 2)
    ensures states[4] == At([MEMBER, LOST], None, None, Ready, 4, states[4].attempts)
    ensures Finalize(PLAIN_WORLD, states[4]).None?
  {
    hide Begin, Record, Finalize, SelectedFrom;
    var w := PLAIN_WORLD;
    var r1 := SuccessRecord(1, "run", "a");
    var lost: map<(nat, nat), AttemptRecord> := map[(2, 1) := LOSS_RECORD];
    var s1 := At([UNTOUCHED, STARTED], Some(Intent(2, 1)), Some(2), AttemptRunning, 1, map[]);
    var s2 := At([UNTOUCHED, LOST], None, None, BlockedInfrastructure, 2, lost);
    var s3 := At([STARTED, LOST], Some(Intent(1, 1)), Some(1), AttemptRunning, 3, lost);
    var s4 := At([MEMBER, LOST], None, None, Ready, 4, lost[(1, 1) := r1]);
    ExampleStart();
    BeginExample(S0, 2, s1);
    LoseSecond(w, s1, s2);
    BeginExample(s2, 1, s3);
    LateMember(w, s3, r1, s4);
    NotYetFinal(w, s4, 1);
    states := [S0, s1, s2, s3, s4];
    steps := [BeginStep(2, false), RecordStep(2, 10, LOSS), BeginStep(1, false), RecordStep(1, 0, Success("run", "a"))];
  }

  lemma NotYetFinal(w: World, d: Disk, i: nat)
    requires d.checkpoint.state != Complete && i < |d.checkpoint.slots| && d.checkpoint.slots[i].state != ValidMember
    ensures Finalize(w, d).None?
  {
  }

  lemma LoseSecond(w: World, d: Disk, e: Disk)
    requires d == At([UNTOUCHED, STARTED], Some(Intent(2, 1)), Some(2), AttemptRunning, 1, map[])
    requires e == At([UNTOUCHED, LOST], None, None, BlockedInfrastructure, 2, map[(2, 1) := LOSS_RECORD])
    ensures Record(w, d, 2, 10, LOSS) == Some(e)
  {
    assert Outcome(2, 1, 10, LOSS) == LOSS_RECORD;
    assert [UNTOUCHED, STARTED][1 := LOST] == [UNTOUCHED, LOST];
  }

  lemma LateMember(w: World, d: Disk, r1: AttemptRecord, e: Disk)
    requires w == PLAIN_WORLD && r1 == SuccessRecord(1, "run", "a")
    requires d == At([STARTED, LOST], Some(Intent(1, 1)), Some(1), AttemptRunning, 3, map[(2, 1) := LOSS_RECORD])
    requires e == At([MEMBER, LOST], None, None, Ready, 4, d.attempts[(1, 1) := r1])
    ensures Record(w, d, 1, 0, Success("run", "a")) == Some(e)
  {
    assert Outcome(1, 1, 0, Success("run", "a")) == r1;
    OneMember(w, r1, LOST, d.attempts[(1, 1) := r1]);
    assert [STARTED, LOST][0 := MEMBER] == [MEMBER, LOST];
    assert FirstPending([MEMBER, LOST], 2) == None;
    assert FirstPending([MEMBER, LOST], 1) == None;
    hide SelectedFrom, Outcome;
  }
}
