/**
 Each command in full, for every state that satisfies the invariant: exactly when it succeeds,
 and the files and the checkpoint it leaves.
 */
module BenchmarkSetCommands {
  import opened Options
  import opened BenchmarkSet
  import opened BenchmarkSetRuns
  import opened BenchmarkSetTheorems
  import opened BenchmarkSetGuided
  import opened BenchmarkSetEndStates
  import opened BenchmarkSetOutcomes

  /** `nextPendingSlot` names the first slot never begun. */
  ghost predicate NamesFirstPending(cp: Checkpoint) {
    match cp.nextPending
    case None => forall s: nat :: SlotInRange(cp, s) ==> SlotOf(cp, s).state != Pending
    case Some(n) =>
      && SlotInRange(cp, n) && SlotOf(cp, n).state == Pending
      && forall s: nat :: SlotInRange(cp, s) && s < n ==> SlotOf(cp, s).state != Pending
  }

  /** `cq` differs from `cp` in its state, its announcement, its running attempt and slot `s`. */
  ghost predicate OnlySlot(cp: Checkpoint, cq: Checkpoint, s: nat, slot: Slot) {
    && SlotInRange(cp, s) && |cq.slots| == |cp.slots| && SlotOf(cq, s) == slot
    && (forall t: nat :: SlotInRange(cp, t) && t != s ==> SlotOf(cq, t) == SlotOf(cp, t))
    && cq.finalSet == cp.finalSet && cq.revision == cp.revision + 1
  }

  // ---- beginning ----

  /** An attempt begins exactly when the set is neither ended nor running, the slot was never begun
      or was lost and its replacement authorized, no later slot is valid and no control or log
      file is in the way. */
  lemma BeginExactly(d: Disk, s: nat, targetExists: bool)
    requires Bookkeeping(d)
    ensures Begin(d, s, targetExists).Some? <==>
            var cp := d.checkpoint;
            && cp.state in {Ready, BlockedInfrastructure} && SlotInRange(cp, s) && !targetExists
            && (|| SlotOf(cp, s).attemptCount == 0
                || (SlotOf(cp, s).state == InfrastructureInvalid && (s, SlotOf(cp, s).attemptCount) in d.replacements))
            && forall t: nat :: SlotInRange(cp, t) && t > s ==> SlotOf(cp, t).state != ValidMember
  {
    hide NoReroll, LatestOk, AttemptsOk, AuthorizationsOk, SelectionOk, OrderOk;
    var cp := d.checkpoint;
    if SlotInRange(cp, s) {
      LaterValidExactly(cp, s);
      hide LaterSlot;
    }
  }

  lemma LaterValidExactly(cp: Checkpoint, s: nat)
    requires SlotInRange(cp, s)
    ensures LaterSlot(cp, s, state => state == ValidMember) <==>
            exists t: nat :: SlotInRange(cp, t) && t > s && SlotOf(cp, t).state == ValidMember
  {
    if LaterSlot(cp, s, state => state == ValidMember) {
      var j :| s <= j < |cp.slots| && cp.slots[j].state == ValidMember;
      assert SlotOf(cp, j + 1).state == ValidMember;
    }
    if t: nat :| SlotInRange(cp, t) && t > s && SlotOf(cp, t).state == ValidMember {
      assert s <= t - 1 < |cp.slots| && cp.slots[t - 1].state == ValidMember;
    }
  }

  /** What beginning writes. */
  lemma BeginEffect(d: Disk, s: nat, targetExists: bool)
    requires Bookkeeping(d) && Begin(d, s, targetExists).Some?
    ensures var e := Begin(d, s, targetExists).value;
            var a := SlotOf(e.checkpoint, s).attemptCount;
            && e == d.(checkpoint := e.checkpoint)
            && OnlySlot(d.checkpoint, e.checkpoint, s, Slot(Running, SlotOf(d.checkpoint, s).attemptCount + 1, None))
            && e.checkpoint.current == Some(Intent(s, a)) && e.checkpoint.nextPending == Some(s)
            && e.checkpoint.state == AttemptRunning
  {
    hide NoReroll, LatestOk, AttemptsOk, AuthorizationsOk, OrderOk, LaterSlot;
  }

  // ---- recording ----

  /** `e` is `d` after the running attempt was settled with record `r`: which state of the set each
      classification leads to, and what is announced next. */
  ghost predicate SettledAs(w: World, d: Disk, e: Disk, r: AttemptRecord) {
    var cp, cq := d.checkpoint, e.checkpoint;
    && e == d.(attempts := d.attempts[(r.slot, r.attempt) := r], checkpoint := cq)
    && OnlySlot(cp, cq, r.slot, Slot(r.classification, r.attempt,
                                     if r.classification == ValidMember then Some(r.attempt) else None))
    && cq.current == None
    && match r.classification
       case InfrastructureInvalid => cq.state == BlockedInfrastructure && cq.nextPending == None
       case Unresolved => cq.state == SetUnresolved && cq.nextPending == None
       case ValidMember =>
         if AllOneKey(w, e) && AllApart(e) then cq.state == Ready && NamesFirstPending(cq)
         else cq.state == Incompatible && cq.nextPending == None
       case _ => cq.state == BlockedFailure && cq.nextPending == None
  }

  lemma SaveEffect(w: World, d: Disk, r: AttemptRecord)
    requires RunningRecorded(d, r) && SaveOutcome(w, d, r).Some?
    ensures SettledAs(w, d, SaveOutcome(w, d, r).value, r)
  {
    var e := SaveOutcome(w, d, r).value;
    SaveSettles(w, d, r);
    SaveFields(w, d, r);
    if r.classification == ValidMember {
      SaveVerdict(w, d, r);
    }
    assert d.attempts == d.attempts[(r.slot, r.attempt) := r];
    hide SaveOutcome, NoReroll, LatestOk, AttemptsOk, AuthorizationsOk, OrderOk, AllOneKey, AllApart, NamesFirstPending;
  }

  lemma SaveFields(w: World, d: Disk, r: AttemptRecord)
    requires SlotInRange(d.checkpoint, r.slot) && SaveOutcome(w, d, r).Some?
    ensures var cq := SaveOutcome(w, d, r).value.checkpoint;
            && cq.finalSet == d.checkpoint.finalSet && cq.revision == d.checkpoint.revision + 1
            && (r.classification == InfrastructureInvalid ==> cq.state == BlockedInfrastructure)
            && (r.classification == Unresolved ==> cq.state == SetUnresolved)
            && (r.classification !in {InfrastructureInvalid, Unresolved, ValidMember} ==> cq.state == BlockedFailure)
            && (r.classification != ValidMember ==> cq.nextPending == None)
  {
    hide SelectedFrom, FirstPending, EqualKeys, DistinctIdentities;
  }

  lemma SaveVerdict(w: World, d: Disk, r: AttemptRecord)
    requires SlotInRange(d.checkpoint, r.slot) && SaveOutcome(w, d, r).Some? && r.classification == ValidMember
    ensures var e := SaveOutcome(w, d, r).value;
            if AllOneKey(w, e) && AllApart(e) then e.checkpoint.state == Ready && NamesFirstPending(e.checkpoint)
            else e.checkpoint.state == Incompatible && e.checkpoint.nextPending == None
  {
    var e := SaveOutcome(w, d, r).value;
    SaveBranches(w, d, r);
    hide SaveOutcome, MembersCompatible, AllOneKey, AllApart, NamesFirstPending;
    ChecksBySlot(w, e);
    if e.checkpoint.state == Ready {
      FirstPendingNamed(e.checkpoint);
    }
  }

  lemma SaveBranches(w: World, d: Disk, r: AttemptRecord)
    requires SlotInRange(d.checkpoint, r.slot) && SaveOutcome(w, d, r).Some? && r.classification == ValidMember
    ensures var e := SaveOutcome(w, d, r).value;
            && Selected(w, e).Some?
            && if MembersCompatible(w, e)
               then e.checkpoint.state == Ready && e.checkpoint.nextPending == FirstPending(e.checkpoint.slots, 0)
               else e.checkpoint.state == Incompatible && e.checkpoint.nextPending == None
  {
    hide FirstPending, EqualKeys, DistinctIdentities, SelectedFrom;
  }

  lemma FirstPendingNamed(cp: Checkpoint)
    requires cp.nextPending == FirstPending(cp.slots, 0)
    ensures NamesFirstPending(cp)
  {
    FirstPendingShape(cp.slots, 0);
    hide FirstPending;
    forall s: nat | SlotInRange(cp, s) ensures cp.slots[s - 1] == SlotOf(cp, s) {
    }
  }

  /** Recording the running attempt succeeds exactly when its file holds no other record and, for a
      success, the member's documents can be read back. */
  lemma RecordExactly(w: World, d: Disk, s: nat, exit: int, pointer: Pointer)
    requires Inv(w, d)
    ensures Record(w, d, s, exit, pointer).Some? <==>
            && d.checkpoint.current.Some? && d.checkpoint.current.value.slot == s
            && var a := d.checkpoint.current.value.attempt;
               var r := Outcome(s, a, exit, pointer);
               && ((s, a) in d.attempts ==> d.attempts[(s, a)] == r)
               && (r.member.Some? ==> w.key(r.member.value).Some?)
  {
    hide Inv, SaveOutcome;
    InvBooks(w, d);
    hide Bookkeeping;
    if IntentFor(d.checkpoint, s) {
      var r := RecordedOutcome(d, s, exit, pointer);
      OutcomeExactly(s, r.attempt, exit, pointer);
      hide Outcome;
      if WriteAttempt(d, r).Some? {
        SettlesExactly(w, d, r);
      }
    }
  }

  lemma SettlesExactly(w: World, d: Disk, r: AttemptRecord)
    requires Inv(w, d) && Fresh(d, r) && WriteAttempt(d, r).Some?
    ensures SlotInRange(WriteAttempt(d, r).value.checkpoint, r.slot)
    ensures SaveOutcome(w, WriteAttempt(d, r).value, r).None? <==>
            r.classification == ValidMember && r.member.Some? && w.key(r.member.value).None?
  {
    WriteAttemptInv(w, d, r);
    hide Inv, SaveOutcome;
    SaveExactly(w, WriteAttempt(d, r).value, r);
    hide Bookkeeping;
  }

  lemma InvBooks(w: World, d: Disk)
    requires Inv(w, d)
    ensures Bookkeeping(d) && RunningOk(d.checkpoint)
    ensures d.checkpoint.current.Some? ==> IntentFor(d.checkpoint, d.checkpoint.current.value.slot)
  {
    hide NoReroll, LatestOk, AttemptsOk, AuthorizationsOk, OrderOk, CountsOk, SelectionOk, VerdictOk;
  }

  /** What recording leaves. */
  lemma RecordEffect(w: World, d: Disk, s: nat, exit: int, pointer: Pointer)
    requires Inv(w, d) && Record(w, d, s, exit, pointer).Some?
    ensures d.checkpoint.current.Some?
    ensures SettledAs(w, d, Record(w, d, s, exit, pointer).value,
                      Outcome(s, d.checkpoint.current.value.attempt, exit, pointer))
  {
    hide Inv, SaveOutcome, SettledAs;
    InvBooks(w, d);
    hide Bookkeeping;
    var r := RecordedOutcome(d, s, exit, pointer);
    OutcomeExactly(s, r.attempt, exit, pointer);
    hide Outcome;
    SettleEffect(w, d, r);
  }

  lemma SettleEffect(w: World, d: Disk, r: AttemptRecord)
    requires Inv(w, d) && Fresh(d, r) && WriteAttempt(d, r).Some?
    ensures SlotInRange(WriteAttempt(d, r).value.checkpoint, r.slot)
    ensures var o := SaveOutcome(w, WriteAttempt(d, r).value, r); o.Some? ==> SettledAs(w, d, o.value, r)
  {
    WriteAttemptInv(w, d, r);
    var e := WriteAttempt(d, r).value;
    WrittenOver(d, r);
    hide Inv, SaveOutcome, WriteAttempt, RunningRecorded;
    if SaveOutcome(w, e, r).Some? {
      SaveEffect(w, e, r);
    }
    hide AllOneKey, AllApart, NamesFirstPending;
  }

  lemma WrittenOver(d: Disk, r: AttemptRecord)
    requires WriteAttempt(d, r).Some?
    ensures WriteAttempt(d, r).value == d.(attempts := d.attempts[(r.slot, r.attempt) := r])
  {
    if (r.slot, r.attempt) in d.attempts {
      assert d.attempts == d.attempts[(r.slot, r.attempt) := r];
    }
  }

  // ---- reconciling ----

  /** Reconciling an attempt with no record yet: recorded with the exit it finds, if the pointer
      leads to a finished record with a number as exit text, else as unresolved. */
  lemma ReconcileUnrecorded(w: World, d: Disk, pointer: Pointer)
    requires Inv(w, d) && d.checkpoint.current.Some?
    requires (d.checkpoint.current.value.slot, d.checkpoint.current.value.attempt) !in d.attempts
    ensures match pointer
            case Recorded(true, ExitDigits(exit, _), _, _, _) =>
              Reconcile(w, d, pointer) == Record(w, d, d.checkpoint.current.value.slot, exit, pointer)
            case _ =>
              && Reconcile(w, d, pointer).Some?
              && var intent := d.checkpoint.current.value;
                 SettledAs(w, d, Reconcile(w, d, pointer).value,
                           AttemptRecord(intent.slot, intent.attempt, Unresolved, None, None, None, None))
  {
    hide Inv, SaveOutcome, SettledAs;
    InvBooks(w, d);
    hide Bookkeeping;
    var s, a := d.checkpoint.current.value.slot, d.checkpoint.current.value.attempt;
    if pointer.Recorded? && pointer.finished && pointer.exit.ExitDigits? {
      var exit := pointer.exit.value;
      if Record(w, d, s, exit, pointer).None? {
        NotGivenUp(w, d, s, exit, pointer);
      }
    } else {
      var r := GivenUp(s, a);
      SettleEffect(w, d, r);
      SettlesExactly(w, d, r);
    }
  }

  lemma NotGivenUp(w: World, d: Disk, s: nat, exit: int, pointer: Pointer)
    requires IntentFor(d.checkpoint, s) && (s, d.checkpoint.current.value.attempt) !in d.attempts
    ensures GiveUp(w, AfterFailedRecord(d, s, exit, pointer)).None?
  {
    OutcomeExactly(s, d.checkpoint.current.value.attempt, exit, pointer);
    hide Outcome, SaveOutcome;
  }

  lemma ReconcileIdle(w: World, d: Disk, pointer: Pointer)
    requires d.checkpoint.current.None?
    ensures Reconcile(w, d, pointer) == Some(d)
  {
  }

  // ---- authorizing ----

  /** A replacement is authorized exactly for the lost slot that blocks the set, when nothing after
      it was ever begun, for a reason of 1 to 500 characters on one line; authorizing again takes
      the same reason. */
  lemma AuthorizeExactly(w: World, d: Disk, s: nat, reason: string)
    requires Inv(w, d)
    ensures Authorize(d, s, reason).Some? <==>
            var cp := d.checkpoint;
            && 1 <= |reason| <= 500 && (forall c :: c in reason ==> c != '\n' && c != '\r')
            && cp.state == BlockedInfrastructure && SlotInRange(cp, s) && SlotOf(cp, s).state == InfrastructureInvalid
            && (forall t: nat :: SlotInRange(cp, t) && t > s ==> SlotOf(cp, t).attemptCount == 0)
            && var k := (s, SlotOf(cp, s).attemptCount);
               k in d.replacements ==> d.replacements[k].reason == reason
  {
    hide NoReroll, AttemptsOk, SelectionOk, OrderOk, VerdictOk, RunningOk;
    var cp := d.checkpoint;
    if SlotInRange(cp, s) {
      LaterBegunExactly(d, s);
      hide LaterSlot;
      if (s, SlotOf(cp, s).attemptCount) in d.replacements {
        var ok := AuthorizationOk(d, (s, SlotOf(cp, s).attemptCount), d.replacements[(s, SlotOf(cp, s).attemptCount)]);
      }
    }
  }

  lemma LaterBegunExactly(d: Disk, s: nat)
    requires CountsOk(d) && SlotInRange(d.checkpoint, s)
    ensures LaterSlot(d.checkpoint, s, state => state != Pending) <==>
            exists t: nat :: SlotInRange(d.checkpoint, t) && t > s && SlotOf(d.checkpoint, t).attemptCount != 0
  {
    var cp := d.checkpoint;
    if LaterSlot(cp, s, state => state != Pending) {
      var j :| s <= j < |cp.slots| && cp.slots[j].state != Pending;
      assert SlotInRange(cp, j + 1) && SlotOf(cp, j + 1).state != Pending;
    }
    if t: nat :| SlotInRange(cp, t) && t > s && SlotOf(cp, t).attemptCount != 0 {
      assert s <= t - 1 < |cp.slots| && cp.slots[t - 1].state != Pending;
    }
  }

  /** What authorizing writes. */
  lemma AuthorizeEffect(w: World, d: Disk, s: nat, reason: string)
    requires Inv(w, d) && Authorize(d, s, reason).Some?
    ensures SlotInRange(d.checkpoint, s)
    ensures var e, a := Authorize(d, s, reason).value, SlotOf(d.checkpoint, s).attemptCount;
            && (s, a) in d.attempts
            && e.replacements == d.replacements[(s, a) := Authorization(s, a, a + 1, InfrastructureInvalid,
                 d.attempts[(s, a)].orchestration, d.attempts[(s, a)].v1Exit, reason)]
            && e.plan == d.plan && e.attempts == d.attempts && e.sets == d.sets
            && e.checkpoint == Checkpoint(d.checkpoint.slots, None, Some(s), Ready, d.checkpoint.finalSet,
                 d.checkpoint.revision + 1)
  {
    hide NoReroll, AttemptsOk, SelectionOk, OrderOk, VerdictOk, CountsOk, LaterSlot;
    var k := (s, SlotOf(d.checkpoint, s).attemptCount);
    if k in d.replacements {
      assert AuthorizationOk(d, k, d.replacements[k]);
      assert d.replacements == d.replacements[k := d.replacements[k]];
    }
  }

  // ---- finalizing and announcing ----

  /** A set is finalized exactly when no attempt runs, every slot is valid, all have one key, the
      metrics aggregate and no other set has the name; it then has 3 to 10 members, or 1 to 10 for
      an experiment. */
  lemma FinalizeBySlot(w: World, d: Disk)
    requires Inv(w, d) && d.checkpoint.state != Complete && d.checkpoint.current.None?
    ensures Selected(w, d).Some?
    ensures (if d.plan.profile == Canonical then 3 else 1) <= |d.checkpoint.slots| <= 10
    ensures Finalize(w, d).Some? <==>
            && (forall s: nat :: SlotInRange(d.checkpoint, s) ==> SlotOf(d.checkpoint, s).state == ValidMember)
            && AllOneKey(w, d)
            && (SelectedComplete(w, d.attempts, d.checkpoint.slots, 0); w.aggregates(Members(Selected(w, d).value)))
            && (AllChosen(w, d); NameIsFree(w, d, FinalDocument(d, Selected(w, d).value)))
  {
    FinalizeExactly(w, d);
    SelectedReadable(w, d);
    ChecksBySlot(w, d);
    hide Inv, Finalize, Publish, AllOneKey, AllApart, EqualKeys, MembersCompatible;
  }

  lemma SelectedReadable(w: World, d: Disk)
    requires Inv(w, d)
    ensures Selected(w, d).Some?
    ensures (if d.plan.profile == Canonical then 3 else 1) <= |d.checkpoint.slots| <= 10
  {
    hide NoReroll, AttemptsOk, SelectionOk, OrderOk, RunningOk, AuthorizationsOk, LatestOk;
  }

  /** A slot's whole history: its attempts in order, the authorizations between them, and that the
      last attempt is the selected one. */
  ghost predicate HistoryOf(d: Disk, s: nat, audit: SlotAudit)
    requires SlotInRange(d.checkpoint, s)
  {
    var n := SlotOf(d.checkpoint, s).attemptCount;
    && n >= 1 && audit.slot == s && audit.selectedAttempt == Some(n)
    && Numbered(d.attempts, s, n, audit.attempts) && Numbered(d.replacements, s, n - 1, audit.replacements)
  }

  /** What slot `s` contributes to a set. */
  ghost predicate EntryOf(d: Disk, s: nat, m: FinalMember, audit: SlotAudit)
    requires SlotInRange(d.checkpoint, s)
  {
    && MemberOf(d, s).Some? && HistoryOf(d, s, audit)
    && var r := MemberOf(d, s).value;
       r.member == Some(m.member) && r.orchestration == Some(m.orchestration) && m.slot == s
  }

  /** `doc` is the set of the plan: one entry for each slot, in slot order. */
  ghost predicate IsSetOf(d: Disk, doc: FinalSet) {
    && doc.plan == d.plan && |doc.members| == |doc.audit| == |d.checkpoint.slots|
    && forall s: nat :: SlotInRange(d.checkpoint, s) ==> EntryOf(d, s, doc.members[s - 1], doc.audit[s - 1])
  }

  function MembersIn(doc: FinalSet): (ms: seq<Member>)
    ensures |ms| == |doc.members| && forall i :: 0 <= i < |ms| ==> ms[i] == doc.members[i].member
  {
    seq(|doc.members|, i requires 0 <= i < |doc.members| => doc.members[i].member)
  }

  /** `doc` may be published: it is the set, with one key, metrics that aggregate and a name that no
      other set has. */
  ghost predicate MayPublish(w: World, d: Disk, doc: FinalSet) {
    && IsSetOf(d, doc) && AllOneKey(w, d) && w.aggregates(MembersIn(doc))
    && (w.setId(doc) in d.sets ==> d.sets[w.setId(doc)] == doc)
  }

  /** Finalization publishes the one set there is, under its name, and completes the checkpoint. */
  lemma PublishedExactly(w: World, d: Disk)
    requires Inv(w, d) && d.checkpoint.state != Complete && d.checkpoint.current.None?
    ensures Finalize(w, d).Some? <==> exists doc :: MayPublish(w, d, doc)
    ensures forall doc :: MayPublish(w, d, doc) ==>
              Finalize(w, d) == Some(Disk(d.plan,
                d.checkpoint.(finalSet := Some(w.setId(doc)), nextPending := None, state := Complete,
                              revision := d.checkpoint.revision + 1),
                d.attempts, d.replacements, d.sets[w.setId(doc) := doc]))
  {
    hide Inv, AllOneKey, IsSetOf, Finalize, EqualKeys;
    FinalizeExactly(w, d);
    SelectedReadable(w, d);
    ChecksBySlot(w, d);
    if AllValid(d) {
      DocumentIsSet(w, d);
      var one := FinalDocument(d, Selected(w, d).value);
      assert Publishable(w, d) <==> MayPublish(w, d, one);
      forall doc | MayPublish(w, d, doc) ensures doc == one {
        SetIsUnique(d, doc, one);
      }
      if Finalize(w, d).Some? {
        PublishedFiles(w, d);
      }
    } else {
      forall doc ensures !MayPublish(w, d, doc) {
        SetIsValid(d, doc);
      }
    }
  }

  lemma SetIsValid(d: Disk, doc: FinalSet)
    ensures IsSetOf(d, doc) ==> AllValid(d)
  {
    hide HistoryOf;
    if IsSetOf(d, doc) {
      forall s: nat | SlotInRange(d.checkpoint, s) ensures IsValid(d, s) {
        assert EntryOf(d, s, doc.members[s - 1], doc.audit[s - 1]);
      }
    }
  }

  lemma EntryIsUnique(d: Disk, s: nat, m: FinalMember, audit: SlotAudit, n: FinalMember, other: SlotAudit)
    requires SlotInRange(d.checkpoint, s) && EntryOf(d, s, m, audit) && EntryOf(d, s, n, other)
    ensures m == n && audit == other
  {
    assert audit.attempts == other.attempts && audit.replacements == other.replacements;
  }

  lemma SetIsUnique(d: Disk, doc: FinalSet, other: FinalSet)
    requires IsSetOf(d, doc) && IsSetOf(d, other)
    ensures doc == other
  {
    hide EntryOf;
    forall i | 0 <= i < |doc.members| ensures doc.members[i] == other.members[i] && doc.audit[i] == other.audit[i] {
      var s := i + 1;
      assert SlotInRange(d.checkpoint, s);
      EntryIsUnique(d, s, doc.members[s - 1], doc.audit[s - 1], other.members[s - 1], other.audit[s - 1]);
    }
  }

  lemma SlotEntry(w: World, d: Disk, s: nat)
    requires Bookkeeping(d) && AllValid(d) && Selected(w, d).Some? && SlotInRange(d.checkpoint, s)
    ensures |Selected(w, d).value| == |d.checkpoint.slots|
    ensures var r := Selected(w, d).value[s - 1].record;
            && r.member.Some? && r.orchestration.Some?
            && EntryOf(d, s, FinalMember(s, r.member.value, r.orchestration.value), AuditOf(d, s))
  {
    AllChosen(w, d);
    assert IsValid(d, s);
    forall j | 0 <= j < |d.checkpoint.slots| ensures d.checkpoint.slots[j].state == ValidMember {
      assert IsValid(d, j + 1);
    }
    AllSelected(w, d.attempts, d.checkpoint.slots, 0);
    assert Selected(w, d).value[s - 1] in Selected(w, d).value;
    SlotHistory(d, s);
    hide Bookkeeping, AuditOf, HistoryOf, SelectedFrom;
  }

  lemma SlotHistory(d: Disk, s: nat)
    requires Bookkeeping(d) && SlotInRange(d.checkpoint, s) && SlotOf(d.checkpoint, s).state == ValidMember
    ensures HistoryOf(d, s, AuditOf(d, s))
  {
    hide Bookkeeping, AuditOf, Numbered;
    AuditFiles(d, s);
    AuditSelects(d, s);
  }

  lemma DocumentIsSet(w: World, d: Disk)
    requires Inv(w, d) && AllValid(d) && Selected(w, d).Some?
    ensures |Selected(w, d).value| == |d.checkpoint.slots|
    ensures forall c :: c in Selected(w, d).value ==> c.record.member.Some? && c.record.orchestration.Some?
    ensures var doc := FinalDocument(d, Selected(w, d).value);
            IsSetOf(d, doc) && MembersIn(doc) == Members(Selected(w, d).value)
  {
    AllChosen(w, d);
    InvBooks(w, d);
    forall s: nat | SlotInRange(d.checkpoint, s)
      ensures var r := Selected(w, d).value[s - 1].record;
              r.member.Some? && r.orchestration.Some?
              && EntryOf(d, s, FinalMember(s, r.member.value, r.orchestration.value), AuditOf(d, s))
    {
      SlotEntry(w, d, s);
    }
    hide Inv, EntryOf, AuditOf, Selected, AllValid, Bookkeeping;
    DocumentOf(d, Selected(w, d).value);
  }

  lemma DocumentOf(d: Disk, chosen: seq<Chosen>)
    requires |chosen| == |d.checkpoint.slots|
    requires forall c :: c in chosen ==> c.record.member.Some? && c.record.orchestration.Some?
    requires forall s: nat :: SlotInRange(d.checkpoint, s) ==>
               var r := chosen[s - 1].record;
               r.member.Some? && r.orchestration.Some?
               && EntryOf(d, s, FinalMember(s, r.member.value, r.orchestration.value), AuditOf(d, s))
    ensures IsSetOf(d, FinalDocument(d, chosen)) && MembersIn(FinalDocument(d, chosen)) == Members(chosen)
  {
    hide EntryOf, AuditOf;
    assert MembersIn(FinalDocument(d, chosen)) == Members(chosen);
  }

  lemma PublishedFiles(w: World, d: Disk)
    requires Finalize(w, d).Some? && d.checkpoint.state != Complete && Selected(w, d).Some?
    requires |Selected(w, d).value| == |d.checkpoint.slots|
    requires forall c :: c in Selected(w, d).value ==> c.record.member.Some? && c.record.orchestration.Some?
    ensures var doc := FinalDocument(d, Selected(w, d).value);
            Finalize(w, d) == Some(Disk(d.plan,
              d.checkpoint.(finalSet := Some(w.setId(doc)), nextPending := None, state := Complete,
                            revision := d.checkpoint.revision + 1),
              d.attempts, d.replacements, d.sets[w.setId(doc) := doc]))
  {
    hide FinalDocument, Selected, EqualKeys, Members, Minimum;
    var doc := FinalDocument(d, Selected(w, d).value);
    assert Finalized(w, d) == Some((w.setId(doc), doc));
    if w.setId(doc) in d.sets {
      assert d.sets == d.sets[w.setId(doc) := doc];
    }
  }

  /** What `set-next` answers: the running slot to continue, the set that is done, the state that
      stopped it, or what the checkpoint announces. */
  lemma AnswerExactly(w: World, d: Disk)
    requires Inv(w, d)
    ensures match SetNext(d.checkpoint)
            case Continue(s, a) =>
              SlotInRange(d.checkpoint, s) && SlotOf(d.checkpoint, s).state == Running
              && SlotOf(d.checkpoint, s).attemptCount == a
            case Done(id) => d.checkpoint.state == Complete && id.Some? && id.value in d.sets
            case Stopped(state) =>
              d.checkpoint.state == state
              && state in {BlockedInfrastructure, BlockedFailure, SetUnresolved, Incompatible}
            case FinalizeNow => d.checkpoint.state == Ready && d.checkpoint.nextPending == None
            case Start(s) => d.checkpoint.state == Ready && d.checkpoint.nextPending == Some(s)
  {
    hide NoReroll, AttemptsOk, SelectionOk, OrderOk, AuthorizationsOk, LatestOk, CountsOk, Finalized, MembersCompatible;
  }
}
