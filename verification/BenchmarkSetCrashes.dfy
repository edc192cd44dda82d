/**
 Crash transparency: a run whose interrupted commands are all repeated ends exactly where the
 same run without the crashes ends, however often and wherever it was interrupted.
 */
module BenchmarkSetCrashes {
  import opened Options
  import opened BenchmarkSet
  import opened BenchmarkSetRuns
  import opened BenchmarkSetTheorems

  /** The files after all `steps`, if none of them raises. */
  function Execute(w: World, d: Disk, steps: seq<Step>): Option<Disk>
    decreases |steps|
  {
    if steps == [] then Some(d)
    else match Apply(w, d, steps[0])
      case None => None
      case Some(e) => Execute(w, e, steps[1..])
  }

  predicate IsCut(step: Step) { step.RecordCut? || step.GiveUpCut? || step.AuthorizeCut? || step.FinalizeCut? }

  predicate Usable(pointer: Pointer) { pointer.Recorded? && pointer.finished && pointer.exit.ExitDigits? }

  /** `next` repeats the interrupted command, is interrupted at the same place again, or
      reconciles an attempt whose outcome was being recorded. */
  predicate Repeats(cut: Step, next: Step) {
    match cut
    case RecordCut(s, exit, pointer) =>
      || next == cut || next == RecordStep(s, exit, pointer)
      || (next == ReconcileStep(pointer) && Usable(pointer) && pointer.exit.value == exit)
    case GiveUpCut => next == cut || (next.ReconcileStep? && !Usable(next.pointer))
    case AuthorizeCut(s, reason) => next == cut || next == AuthorizeStep(s, reason)
    case FinalizeCut => next == cut || next == FinalizeStep
    case _ => false
  }

  predicate AllRepeated(steps: seq<Step>) {
    forall i :: 0 <= i < |steps| && IsCut(steps[i]) ==> i + 1 < |steps| && Repeats(steps[i], steps[i + 1])
  }

  /** The run as it would have been without crashes. */
  function Uninterrupted(steps: seq<Step>): (q: seq<Step>)
    ensures forall step :: step in q <==> step in steps && !IsCut(step)
  {
    if steps == [] then []
    else (if IsCut(steps[0]) then [] else [steps[0]]) + Uninterrupted(steps[1..])
  }

  lemma RecordRepeated(w: World, d: Disk, s: nat, exit: int, pointer: Pointer, next: Step)
    requires Repeats(RecordCut(s, exit, pointer), next)
    ensures Apply(w, AfterFailedRecord(d, s, exit, pointer), next) == Apply(w, d, next)
  {
    hide Record, AfterFailedRecord, Reconcile;
    if next.RecordCut? {
      FailedRecordAgain(d, s, exit, pointer);
    } else if next.RecordStep? {
      RecordAfterCrash(w, d, s, exit, pointer);
    } else if IntentFor(d.checkpoint, s) {
      ReconcileAfterCrash(w, d, s, exit, pointer);
    } else {
      NotRecording(d, s, exit, pointer);
    }
  }

  lemma NotRecording(d: Disk, s: nat, exit: int, pointer: Pointer)
    requires !IntentFor(d.checkpoint, s)
    ensures AfterFailedRecord(d, s, exit, pointer) == d
  {
  }

  lemma GiveUpRepeated(w: World, d: Disk, next: Step)
    requires GiveUpWrite(d).Some? && Repeats(GiveUpCut, next)
    ensures Apply(w, GiveUpWrite(d).value, next) == Apply(w, d, next)
  {
    GiveUpAfterCrash(w, d);
    hide GiveUp;
  }

  lemma AuthorizeRepeated(w: World, d: Disk, s: nat, reason: string, next: Step)
    requires WriteAuthorization(d, s, reason).Some? && Repeats(AuthorizeCut(s, reason), next)
    ensures Apply(w, WriteAuthorization(d, s, reason).value, next) == Apply(w, d, next)
  {
    AuthorizeAfterCrash(d, s, reason);
    if next.AuthorizeCut? {
      assert AuthorizationFor(WriteAuthorization(d, s, reason).value, s, reason) == AuthorizationFor(d, s, reason);
    }
    hide Authorize, AuthorizationFor;
  }

  lemma PublishAgain(w: World, d: Disk)
    requires Publish(w, d).Some?
    ensures Publish(w, Publish(w, d).value) == Publish(w, d)
    ensures Publish(w, d).value.checkpoint == d.checkpoint
  {
    FinalizedSame(w, d, Publish(w, d).value);
    hide Finalized;
  }

  lemma FinalizeRepeated(w: World, d: Disk, next: Step)
    requires d.checkpoint.state != Complete && Publish(w, d).Some? && Repeats(FinalizeCut, next)
    ensures Apply(w, Publish(w, d).value, next) == Apply(w, d, next)
  {
    FinalizeAfterCrash(w, d);
    PublishAgain(w, d);
    hide Publish, Finalize;
  }

  /** Repeating an interrupted command gives what the uninterrupted one would have given. */
  lemma RepeatedStep(w: World, d: Disk, cut: Step, next: Step)
    requires IsCut(cut) && Repeats(cut, next) && Apply(w, d, cut).Some?
    ensures Apply(w, Apply(w, d, cut).value, next) == Apply(w, d, next)
  {
    hide Repeats, AfterFailedRecord, GiveUpWrite, WriteAuthorization, Publish, Record, Reconcile, Begin, Authorize;
    hide Finalize;
    match cut
    case RecordCut(s, exit, pointer) => RecordRepeated(w, d, s, exit, pointer, next);
    case GiveUpCut => GiveUpRepeated(w, d, next);
    case AuthorizeCut(s, reason) => AuthorizeRepeated(w, d, s, reason, next);
    case FinalizeCut => FinalizeRepeated(w, d, next);
  }

  lemma TailRepeated(steps: seq<Step>)
    requires steps != [] && AllRepeated(steps)
    ensures AllRepeated(steps[1..])
  {
    var rest := steps[1..];
    forall i | 0 <= i < |rest| && IsCut(rest[i]) ensures i + 1 < |rest| && Repeats(rest[i], rest[i + 1]) {
      assert rest[i] == steps[i + 1];
    }
  }

  /** Crashes leave no trace: if every interrupted command is repeated, all files end up exactly
      as in the run that was never interrupted. */
  lemma {:induction false} CrashesLeaveNoTrace(w: World, d: Disk, steps: seq<Step>)
    requires AllRepeated(steps) && Execute(w, d, steps).Some?
    ensures Execute(w, d, Uninterrupted(steps)) == Execute(w, d, steps)
    decreases |steps|
  {
    hide Apply;
    if steps != [] {
      var first, rest := steps[0], steps[1..];
      TailRepeated(steps);
      if IsCut(first) {
        assert rest[0] == steps[1] && Repeats(first, rest[0]);
        RepeatedStep(w, d, first, rest[0]);
        CrashesLeaveNoTrace(w, d, rest);
        assert [] + Uninterrupted(rest) == Uninterrupted(rest);
      } else {
        CrashesLeaveNoTrace(w, Apply(w, d, first).value, rest);
        assert ([first] + Uninterrupted(rest))[1..] == Uninterrupted(rest);
      }
    }
  }
}
