/**
 The set workspace as the driver's commands update it, one file at a time. Each command is
 proved to do what its specification function says, on success and on error; `cut` stops a
 command after its first write.
 */
module BenchmarkSetWorkspace {
  import opened Options
  import opened BenchmarkSet
  import opened BenchmarkSetRuns

  class SetWorkspace {
    const plan: Plan
    var checkpoint: Checkpoint
    var attempts: map<(nat, nat), AttemptRecord>
    var replacements: map<(nat, nat), Authorization>
    var sets: map<string, FinalSet>

    ghost function View(): Disk
      reads this
    {
      Disk(plan, checkpoint, attempts, replacements, sets)
    }

    constructor (plan: Plan, sets: map<string, FinalSet>)
      requires ValidPlan(plan)
      ensures Initial(View()) && this.plan == plan && this.sets == sets
    {
      this.plan := plan;
      this.sets := sets;
      checkpoint, attempts, replacements := InitialCheckpoint(plan), map[], map[];
    }

    method SaveCheckpoint(cp: Checkpoint)
      modifies this`checkpoint
      ensures View() == Save(old(View()), cp)
    {
      checkpoint := cp.(revision := cp.revision + 1);
    }

    method BeginAttempt(s: nat, targetExists: bool) returns (ok: bool)
      modifies this
      ensures match Begin(old(View()), s, targetExists)
              case None => !ok && View() == old(View())
              case Some(e) => ok && View() == e
    {
      var cp := checkpoint;
      if cp.state in {Complete, Incompatible, SetUnresolved, BlockedFailure} { return false; }
      if cp.current.Some? { return false; }
      if !SlotInRange(cp, s) { return false; }
      var slot := cp.slots[s - 1];
      if exists j :: s <= j < |cp.slots| && cp.slots[j].state == ValidMember { return false; }
      if slot.state !in {Pending, InfrastructureInvalid} { return false; }
      if slot.state == InfrastructureInvalid && (s, slot.attemptCount) !in replacements { return false; }
      if targetExists { return false; }
      var attempt := slot.attemptCount + 1;
      cp := cp.(slots := cp.slots[s - 1 := slot.(state := Running, attemptCount := attempt)]);
      cp := cp.(current := Some(Intent(s, attempt)), nextPending := Some(s), state := AttemptRunning);
      SaveCheckpoint(cp);
      ok := true;
    }

    /** The immutable attempt file. */
    method PutAttempt(record: AttemptRecord) returns (ok: bool)
      modifies this`attempts
      ensures match WriteAttempt(old(View()), record)
              case None => !ok && View() == old(View())
              case Some(e) => ok && View() == e
    {
      var name := (record.slot, record.attempt);
      if name in attempts {
        return attempts[name] == record;
      }
      attempts := attempts[name := record];
      ok := true;
    }

    /** The checkpoint that settles the running attempt. */
    method Settle(w: World, record: AttemptRecord) returns (ok: bool)
      requires SlotInRange(checkpoint, record.slot)
      modifies this`checkpoint
      ensures match SaveOutcome(w, old(View()), record)
              case None => !ok && View() == old(View())
              case Some(e) => ok && View() == e
    {
      var cp, i := checkpoint, record.slot - 1;
      var outcome := record.classification;
      var selected := if outcome == ValidMember then Some(record.attempt) else cp.slots[i].selectedAttempt;
      cp := cp.(slots := cp.slots[i := Slot(outcome, cp.slots[i].attemptCount, selected)], current := None,
        nextPending := None);
      if outcome == ValidMember {
        var chosen := SelectedFrom(w, attempts, cp.slots, 0);
        if chosen.None? { return false; }
        SelectedComplete(w, attempts, cp.slots, 0);
        if !EqualKeys(chosen.value) || !DistinctIdentities(chosen.value) {
          cp := cp.(state := Incompatible);
        } else {
          cp := cp.(nextPending := FirstPending(cp.slots, 0), state := Ready);
        }
      } else if outcome == InfrastructureInvalid {
        cp := cp.(state := BlockedInfrastructure);
      } else if outcome == Unresolved {
        cp := cp.(state := SetUnresolved);
      } else {
        cp := cp.(state := BlockedFailure);
      }
      SaveCheckpoint(cp);
      ok := true;
    }

    method RecordAttempt(w: World, s: nat, exit: int, pointer: Pointer, cut: bool) returns (ok: bool)
      modifies this
      ensures cut ==> !ok && View() == AfterFailedRecord(old(View()), s, exit, pointer)
      ensures !cut ==>
                match Record(w, old(View()), s, exit, pointer)
                case None => !ok && View() == AfterFailedRecord(old(View()), s, exit, pointer)
                case Some(e) => ok && View() == e
    {
      hide Outcome, SaveOutcome;
      if !IntentFor(checkpoint, s) { return false; }
      var record := Outcome(s, checkpoint.current.value.attempt, exit, pointer);
      OutcomeShape(s, checkpoint.current.value.attempt, exit, pointer);
      ok := PutAttempt(record);
      if !ok || cut { return false; }
      ok := Settle(w, record);
    }

    /** The fallback branch of reconciliation. */
    method GiveUpAttempt(w: World) returns (ok: bool)
      modifies this
      ensures ok <==> GiveUp(w, old(View())).Some?
      ensures ok ==> View() == GiveUp(w, old(View())).value
      ensures !ok ==> View() == old(View()) || GiveUpWrite(old(View())) == Some(View())
    {
      hide SaveOutcome;
      if checkpoint.current.None? || !SlotInRange(checkpoint, checkpoint.current.value.slot) { return false; }
      var record := GivenUp(checkpoint.current.value.slot, checkpoint.current.value.attempt);
      ok := PutAttempt(record);
      if !ok { return; }
      ok := Settle(w, record);
    }

    /** The files that a failed reconciliation may leave: those before it, or with the attempt's
        outcome, its unresolved record, or both tried in turn. */
    ghost predicate ReconcileLeaves(d: Disk, pointer: Pointer, e: Disk) {
      || e == d || GiveUpWrite(d) == Some(e)
      || (pointer.Recorded? && pointer.exit.ExitDigits? && d.checkpoint.current.Some?
          && var r := AfterFailedRecord(d, d.checkpoint.current.value.slot, pointer.exit.value, pointer);
             e == r || GiveUpWrite(r) == Some(e))
    }

    method ReconcileAttempt(w: World, pointer: Pointer) returns (ok: bool)
      modifies this
      ensures ok <==> Reconcile(w, old(View()), pointer).Some?
      ensures ok ==> View() == Reconcile(w, old(View()), pointer).value
      ensures !ok ==> ReconcileLeaves(old(View()), pointer, View())
    {
      hide Record, AfterFailedRecord, GiveUp;
      if checkpoint.current.None? { return true; }
      if pointer.Recorded? && pointer.finished && pointer.exit.ExitDigits? {
        ok := RecordAttempt(w, checkpoint.current.value.slot, pointer.exit.value, pointer, false);
        if ok { return; }
      }
      ok := GiveUpAttempt(w);
    }

    method AuthorizeReplacement(s: nat, reason: string, cut: bool) returns (ok: bool)
      modifies this
      ensures match WriteAuthorization(old(View()), s, reason)
              case None => !ok && View() == old(View())
              case Some(e) => if cut then !ok && View() == e
                else ok && Authorize(old(View()), s, reason) == Some(View())
    {
      var cp := checkpoint;
      if !ReasonOk(reason) || !SlotInRange(cp, s) { return false; }
      if cp.slots[s - 1].state != InfrastructureInvalid || cp.state != BlockedInfrastructure { return false; }
      if exists j :: s <= j < |cp.slots| && cp.slots[j].state != Pending { return false; }
      var prior := cp.slots[s - 1].attemptCount;
      if (s, prior) !in attempts { return false; }
      var attempt := attempts[(s, prior)];
      var auth := Authorization(s, prior, prior + 1, attempt.classification, attempt.orchestration, attempt.v1Exit,
        reason);
      if (s, prior) in replacements && replacements[(s, prior)] != auth { return false; }
      if (s, prior) !in replacements {
        replacements := replacements[(s, prior) := auth];
      }
      if cut { return false; }
      SaveCheckpoint(cp.(nextPending := Some(s), state := Ready));
      ok := true;
    }

    method FinalizeSet(w: World, cut: bool) returns (ok: bool)
      modifies this
      ensures cut ==>
                && View() == (if old(View()).checkpoint.state == Complete
                   || Publish(w, old(View())).None? then old(View())
                              else Publish(w, old(View())).value)
                && (ok <==> old(View()).checkpoint.state == Complete && Finalize(w, old(View())).Some?)
      ensures !cut ==>
                match Finalize(w, old(View()))
                case None => !ok && View() == old(View())
                case Some(e) => ok && View() == e
    {
      hide Finalized;
      if checkpoint.state == Complete {
        return checkpoint.finalSet.Some? && checkpoint.finalSet.value in sets;
      }
      var result := Finalized(w, Disk(plan, checkpoint, attempts, replacements, sets));
      if result.None? { return false; }
      var (id, document) := result.value;
      if id in sets && sets[id] != document { return false; }
      if id !in sets {
        sets := sets[id := document];
      }
      if cut { return false; }
      SaveCheckpoint(checkpoint.(finalSet := Some(id), nextPending := None, state := Complete));
      ok := true;
    }
  }
}
