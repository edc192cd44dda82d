/**
 A benchmark set: slots that each collect one valid measurement, driven by a checkpoint file
 and immutable attempt, authorization and set records. Every function below is one write, or
 one operation made of such writes; `None` stands for a raised error.
 */
module BenchmarkSet {
  import opened Options
  import opened SortedSets

  datatype Profile = Canonical | Experiment

  datatype Plan = Plan(profile: Profile, repeats: nat)

  function Minimum(plan: Plan): nat { if plan.profile == Canonical then 3 else 1 }

  /** `validate_set_plan_inputs`, as far as the slots go. */
  predicate ValidPlan(plan: Plan) { Minimum(plan) <= plan.repeats <= 10 }

  datatype SlotState =
    | Pending | Running | ValidMember
    | InfrastructureInvalid | BenchmarkFailure | ConfigurationFailure | EvidenceInvalid | Unresolved

  datatype SetState = Ready | AttemptRunning | BlockedInfrastructure | BlockedFailure | SetUnresolved | Incompatible
    | Complete

  datatype Slot = Slot(state: SlotState, attemptCount: nat, selectedAttempt: Option<nat>)

  datatype Intent = Intent(slot: nat, attempt: nat)

  /** `checkpoint.json`. Slot `s` (counted from 1) is `slots[s - 1]`. */
  datatype Checkpoint = Checkpoint(
    slots: seq<Slot>, current: Option<Intent>, nextPending: Option<nat>, state: SetState,
    finalSet: Option<string>, revision: nat)

  datatype Member = Member(rawRunId: string, manifestDigest: string, manifestReference: string,
    metricsReference: string)

  datatype Orchestration = Orchestration(instance: Option<string>, digest: string)

  datatype AttemptRecord = AttemptRecord(
    slot: nat, attempt: nat, classification: SlotState, member: Option<Member>,
    orchestration: Option<Orchestration>, phase1Exit: Option<int>, v1Exit: Option<int>)

  datatype Authorization = Authorization(
    slot: nat, priorAttempt: nat, nextAttempt: nat, infrastructureClassification: SlotState,
    priorOrchestration: Option<Orchestration>, priorV1Exit: Option<int>, reason: string)

  datatype FinalMember = FinalMember(slot: nat, member: Member, orchestration: Orchestration)

  datatype SlotAudit = SlotAudit(slot: nat, attempts: seq<AttemptRecord>, replacements: seq<Authorization>,
    selectedAttempt: Option<nat>)

  /** What `finalize_benchmark_set` publishes under the set identity. */
  datatype FinalSet = FinalSet(plan: Plan, members: seq<FinalMember>, audit: seq<SlotAudit>)

  /** Files on disk: the plan, the checkpoint, and the immutable records by (slot, attempt)
      and by set identity. */
  datatype Disk = Disk(
    plan: Plan, checkpoint: Checkpoint,
    attempts: map<(nat, nat), AttemptRecord>,
    replacements: map<(nat, nat), Authorization>,
    sets: map<string, FinalSet>)

  /** What the model leaves uninterpreted: the compatibility key read back from a member's
      immutable documents (`None` when they cannot be read or contradict each other), whether
      its metrics can be aggregated, and the digest that names a final set. */
  datatype World = World(
    key: Member -> Option<string>,
    aggregates: seq<Member> -> bool,
    setId: FinalSet -> string)

  // ---- what an attempt leaves behind ----

  datatype ExitText = NotDigits | ExitDigits(value: nat, canonical: bool)

  datatype Derived = Derivation(member: Member) | DerivationFailed(exitCode: int)

  /** The orchestration pointer as found when the outcome is recorded. */
  datatype Pointer =
    | NoPointer
    | Unreadable
    | Recorded(finished: bool, exit: ExitText, portable: bool, orchestration: Orchestration, derived: Derived)

  const INFRASTRUCTURE_EXITS: set<int> := {10, 20, 40, 50, 60, 70}
  const EVIDENCE_EXITS: set<int> := {80, 81, 82}

  function ClassifyAttemptExit(exit: int): SlotState {
    if exit == 0 then ValidMember
    else if exit in INFRASTRUCTURE_EXITS then InfrastructureInvalid
    else if exit == 30 then BenchmarkFailure
    else if exit == 2 then ConfigurationFailure
    else if exit in EVIDENCE_EXITS then EvidenceInvalid
    else Unresolved
  }

  /** The pointer leads to a finished record of exactly this exit code. */
  predicate Matches(pointer: Pointer, exit: int) {
    && pointer.Recorded? && pointer.finished && pointer.portable
    && pointer.exit.ExitDigits? && pointer.exit.canonical && pointer.exit.value == exit
  }

  function Outcome(slot: nat, attempt: nat, exit: int, pointer: Pointer): AttemptRecord {
    var matched := Matches(pointer, exit);
    var orchestration := if matched then Some(pointer.orchestration) else None;
    if !matched && (exit != 2 || !pointer.NoPointer?) then
      AttemptRecord(slot, attempt, Unresolved, None, orchestration, None, Some(exit))
    else if exit == 0 then
      match pointer.derived
      case Derivation(member) =>
        AttemptRecord(slot, attempt, ValidMember, Some(member), orchestration, None, Some(exit))
      case DerivationFailed(code) =>
        AttemptRecord(slot, attempt, EvidenceInvalid, None, orchestration, Some(code), Some(exit))
    else
      AttemptRecord(slot, attempt, ClassifyAttemptExit(exit), None, orchestration, None, Some(exit))
  }

  /** The record written when a running attempt has no usable outcome. */
  function GivenUp(slot: nat, attempt: nat): AttemptRecord {
    AttemptRecord(slot, attempt, Unresolved, None, None, None, None)
  }

  // ---- immutable files ----

  /** Writing an immutable file: the same content again is accepted, other content raises. */
  function Put<K, V(==)>(files: map<K, V>, name: K, content: V): Option<map<K, V>> {
    if name !in files then Some(files[name := content])
    else if files[name] == content then Some(files)
    else None
  }

  // ---- the operations ----

  function InitialCheckpoint(plan: Plan): Checkpoint {
    Checkpoint(seq(plan.repeats, _ => Slot(Pending, 0, None)), None, Some(1), Ready, None, 0)
  }

  predicate SlotInRange(cp: Checkpoint, s: nat) { 1 <= s <= |cp.slots| }

  predicate LaterSlot(cp: Checkpoint, s: nat, p: SlotState -> bool)
    requires s <= |cp.slots|
  {
    exists j :: s <= j < |cp.slots| && p(cp.slots[j].state)
  }

  function Save(d: Disk, cp: Checkpoint): Disk { d.(checkpoint := cp.(revision := cp.revision + 1)) }

  /** `begin_set_attempt`; `targetExists` says that a control or log file is already there. */
  function Begin(d: Disk, s: nat, targetExists: bool): Option<Disk> {
    var cp := d.checkpoint;
    if cp.state in {Complete, Incompatible, SetUnresolved, BlockedFailure} || cp.current.Some?
      || !SlotInRange(cp, s) then None
    else if LaterSlot(cp, s, state => state == ValidMember) then None
    else
      var slot := cp.slots[s - 1];
      if slot.state !in {Pending, InfrastructureInvalid} then None
      else if slot.state == InfrastructureInvalid && (s, slot.attemptCount) !in d.replacements then None
      else if targetExists then None
      else
        var attempt := slot.attemptCount + 1;
        Some(Save(d, cp.(slots := cp.slots[s - 1 := slot.(state := Running, attemptCount := attempt)],
                         current := Some(Intent(s, attempt)), nextPending := Some(s), state := AttemptRunning)))
  }

  /** One selected member as read back from disk. */
  datatype Chosen = Chosen(record: AttemptRecord, key: string)

  /** `selected_member_documents` from slot index `i` on. */
  function SelectedFrom(w: World, attempts: map<(nat, nat), AttemptRecord>, slots: seq<Slot>,
      i: nat): Option<seq<Chosen>>
    requires i <= |slots|
    decreases |slots| - i
  {
    if i == |slots| then Some([])
    else if slots[i].state != ValidMember then SelectedFrom(w, attempts, slots, i + 1)
    else if slots[i].selectedAttempt.None? || (i + 1, slots[i].selectedAttempt.value) !in attempts then None
    else
      var record := attempts[(i + 1, slots[i].selectedAttempt.value)];
      if record.member.None? || record.orchestration.None? || w.key(record.member.value).None? then None
      else
        match SelectedFrom(w, attempts, slots, i + 1)
        case None => None
        case Some(rest) => Some([Chosen(record, w.key(record.member.value).value)] + rest)
  }

  function Selected(w: World, d: Disk): Option<seq<Chosen>> { SelectedFrom(w, d.attempts, d.checkpoint.slots, 0) }

  predicate EqualKeys(chosen: seq<Chosen>) { forall i, j :: 0 <= i < j < |chosen| ==> chosen[i].key == chosen[j].key }

  /** The four identity columns hold no value twice. */
  predicate DistinctIdentities(chosen: seq<Chosen>)
    requires forall c :: c in chosen ==> c.record.member.Some? && c.record.orchestration.Some?
  {
    forall i, j :: 0 <= i < j < |chosen| ==>
      var a, b := chosen[i].record, chosen[j].record;
      && a.member.value.rawRunId != b.member.value.rawRunId
      && a.orchestration.value.instance != b.orchestration.value.instance
      && a.orchestration.value.digest != b.orchestration.value.digest
      && a.member.value.manifestDigest != b.member.value.manifestDigest
  }

  lemma {:induction false} SelectedComplete(w: World, attempts: map<(nat, nat), AttemptRecord>, slots: seq<Slot>,
      i: nat)
    requires i <= |slots| && SelectedFrom(w, attempts, slots, i).Some?
    ensures forall c :: c in SelectedFrom(w, attempts, slots, i).value ==>
            c.record.member.Some? && c.record.orchestration.Some?
    decreases |slots| - i
  {
    if i < |slots| {
      SelectedComplete(w, attempts, slots, i + 1);
    }
  }

  function FirstPending(slots: seq<Slot>, i: nat): Option<nat>
    requires i <= |slots|
    decreases |slots| - i
  {
    if i == |slots| then None else if slots[i].state == Pending then Some(i + 1) else FirstPending(slots, i + 1)
  }

  predicate IntentFor(cp: Checkpoint, s: nat) { cp.current.Some? && cp.current.value.slot == s && SlotInRange(cp, s) }

  /** First write of `record_set_attempt` and of giving up: the immutable attempt record. */
  function WriteAttempt(d: Disk, record: AttemptRecord): Option<Disk> {
    match Put(d.attempts, (record.slot, record.attempt), record)
    case None => None
    case Some(attempts) => Some(d.(attempts := attempts))
  }

  /** Second write of `record_set_attempt`: the checkpoint that reflects the record. */
  function SaveOutcome(w: World, d: Disk, record: AttemptRecord): Option<Disk>
    requires SlotInRange(d.checkpoint, record.slot)
  {
    var cp := d.checkpoint;
    var prior := cp.slots[record.slot - 1];
    var outcome := record.classification;
    var selected := if outcome == ValidMember then Some(record.attempt) else prior.selectedAttempt;
    var after := cp.(slots := cp.slots[record.slot - 1 := Slot(outcome, prior.attemptCount, selected)],
                     current := None, nextPending := None);
    if outcome == ValidMember then (
      match SelectedFrom(w, d.attempts, after.slots, 0)
      case None => None
      case Some(chosen) =>
        SelectedComplete(w, d.attempts, after.slots, 0);
        if !EqualKeys(chosen) || !DistinctIdentities(chosen) then Some(Save(d, after.(state := Incompatible)))
        else Some(Save(d, after.(nextPending := FirstPending(after.slots, 0), state := Ready))))
    else if outcome == InfrastructureInvalid then Some(Save(d, after.(state := BlockedInfrastructure)))
    else if outcome == Unresolved then Some(Save(d, after.(state := SetUnresolved)))
    else Some(Save(d, after.(state := BlockedFailure)))
  }

  /** `record_set_attempt`. */
  function Record(w: World, d: Disk, s: nat, exit: int, pointer: Pointer): Option<Disk> {
    if !IntentFor(d.checkpoint, s) then None
    else
      var record := Outcome(s, d.checkpoint.current.value.attempt, exit, pointer);
      match WriteAttempt(d, record)
      case None => None
      case Some(written) => SaveOutcome(w, written, record)
  }

  /** The fallback of `reconcile_running_attempt`. */
  function GiveUp(w: World, d: Disk): Option<Disk> {
    if d.checkpoint.current.None? || !SlotInRange(d.checkpoint, d.checkpoint.current.value.slot) then None
    else
      var record := GivenUp(d.checkpoint.current.value.slot, d.checkpoint.current.value.attempt);
      match WriteAttempt(d, record)
      case None => None
      case Some(written) => SaveOutcome(w, written, record)
  }

  /** The files after `Record` raised: the attempt record may already be there. */
  function AfterFailedRecord(d: Disk, s: nat, exit: int, pointer: Pointer): Disk {
    if !IntentFor(d.checkpoint, s) then d
    else
      match WriteAttempt(d, Outcome(s, d.checkpoint.current.value.attempt, exit, pointer))
      case None => d
      case Some(written) => written
  }

  /** `reconcile_running_attempt`. */
  function Reconcile(w: World, d: Disk, pointer: Pointer): Option<Disk> {
    if d.checkpoint.current.None? then Some(d)
    else if pointer.Recorded? && pointer.finished && pointer.exit.ExitDigits? then (
      var s, exit := d.checkpoint.current.value.slot, pointer.exit.value;
      match Record(w, d, s, exit, pointer)
      case Some(recorded) => Some(recorded)
      case None => GiveUp(w, AfterFailedRecord(d, s, exit, pointer)))
    else GiveUp(w, d)
  }

  predicate ReasonOk(reason: string) { 0 < |reason| <= 500 && '\n' !in reason && '\r' !in reason }

  function AuthorizationFor(d: Disk, s: nat, reason: string): Option<Authorization> {
    var cp := d.checkpoint;
    if !ReasonOk(reason) || !SlotInRange(cp, s) then None
    else if cp.slots[s - 1].state != InfrastructureInvalid || cp.state != BlockedInfrastructure then None
    else if LaterSlot(cp, s, state => state != Pending) then None
    else
      var prior := cp.slots[s - 1].attemptCount;
      if (s, prior) !in d.attempts then None
      else
        var attempt := d.attempts[(s, prior)];
        Some(Authorization(s, prior, prior + 1, attempt.classification, attempt.orchestration, attempt.v1Exit, reason))
  }

  /** First write of `authorize_set_replacement`: the immutable authorization. */
  function WriteAuthorization(d: Disk, s: nat, reason: string): Option<Disk> {
    match AuthorizationFor(d, s, reason)
    case None => None
    case Some(auth) =>
      match Put(d.replacements, (s, auth.priorAttempt), auth)
      case None => None
      case Some(replacements) => Some(d.(replacements := replacements))
  }

  /** `authorize_set_replacement`, confirmed. */
  function Authorize(d: Disk, s: nat, reason: string): Option<Disk> {
    match WriteAuthorization(d, s, reason)
    case None => None
    case Some(written) => Some(Save(written, written.checkpoint.(nextPending := Some(s), state := Ready)))
  }

  // ---- finalization ----

  function AttemptNumbers<V>(files: map<(nat, nat), V>, s: nat): set<nat> { set k | k in files && k.0 == s :: k.1 }

  /** The files of one slot in order of their numbers. */
  function InOrder<V>(files: map<(nat, nat), V>, s: nat, numbers: seq<nat>): (q: seq<V>)
    requires forall a :: a in numbers ==> (s, a) in files
    ensures |q| == |numbers| && forall i :: 0 <= i < |q| ==> q[i] == files[(s, numbers[i])]
  {
    seq(|numbers|, i requires 0 <= i < |numbers| => files[(s, numbers[i])])
  }

  function AuditOf(d: Disk, s: nat): SlotAudit
    requires SlotInRange(d.checkpoint, s)
  {
    SlotAudit(s, InOrder(d.attempts, s, Sorted(AttemptNumbers(d.attempts, s))),
              InOrder(d.replacements, s, Sorted(AttemptNumbers(d.replacements, s))),
              d.checkpoint.slots[s - 1].selectedAttempt)
  }

  function FinalDocument(d: Disk, chosen: seq<Chosen>): FinalSet
    requires |chosen| == |d.checkpoint.slots|
    requires forall c :: c in chosen ==> c.record.member.Some? && c.record.orchestration.Some?
  {
    var n := |chosen|;
    FinalSet(d.plan,
             seq(n, i requires 0 <= i < n => FinalMember(i + 1, chosen[i].record.member.value,
               chosen[i].record.orchestration.value)),
             seq(n, i requires 0 <= i < n => AuditOf(d, i + 1)))
  }

  function Members(chosen: seq<Chosen>): seq<Member>
    requires forall c :: c in chosen ==> c.record.member.Some?
  {
    seq(|chosen|, i requires 0 <= i < |chosen| => chosen[i].record.member.value)
  }

  lemma {:induction false} AllSelected(w: World, attempts: map<(nat, nat), AttemptRecord>, slots: seq<Slot>, i: nat)
    requires i <= |slots| && SelectedFrom(w, attempts, slots, i).Some?
    requires forall j :: i <= j < |slots| ==> slots[j].state == ValidMember
    ensures |SelectedFrom(w, attempts, slots, i).value| == |slots| - i
    ensures forall j :: i <= j < |slots| ==>
              slots[j].selectedAttempt.Some? && (j + 1, slots[j].selectedAttempt.value) in attempts
              && SelectedFrom(w, attempts, slots, i).value[j - i].record
                 == attempts[(j + 1, slots[j].selectedAttempt.value)]
    decreases |slots| - i
  {
    if i < |slots| {
      AllSelected(w, attempts, slots, i + 1);
    }
  }

  /** The set `finalize_benchmark_set` would publish, with its identity. */
  function Finalized(w: World, d: Disk): Option<(string, FinalSet)> {
    var cp := d.checkpoint;
    if cp.current.Some? || exists i :: 0 <= i < |cp.slots| && cp.slots[i].state != ValidMember then None
    else
      match Selected(w, d)
      case None => None
      case Some(chosen) =>
        SelectedComplete(w, d.attempts, cp.slots, 0);
        AllSelected(w, d.attempts, cp.slots, 0);
        if |chosen| < Minimum(d.plan) || !EqualKeys(chosen) || !w.aggregates(Members(chosen)) then None
        else Some((w.setId(FinalDocument(d, chosen)), FinalDocument(d, chosen)))
  }

  /** First write of finalization: the set directory, moved into place as a whole. */
  function Publish(w: World, d: Disk): Option<Disk> {
    match Finalized(w, d)
    case None => None
    case Some((id, document)) =>
      match Put(d.sets, id, document)
      case None => None
      case Some(sets) => Some(d.(sets := sets))
  }

  /** `finalize_benchmark_set`. A complete set is only verified. */
  function Finalize(w: World, d: Disk): Option<Disk> {
    if d.checkpoint.state == Complete then
      if d.checkpoint.finalSet.Some? && d.checkpoint.finalSet.value in d.sets then Some(d) else None
    else
      match Publish(w, d)
      case None => None
      case Some(published) =>
        Some(Save(published, d.checkpoint.(finalSet := Some(Finalized(w, d).value.0), nextPending := None,
          state := Complete)))
  }

  // ---- what the driver is told to do next ----

  datatype Command = Continue(slot: nat, attempt: nat) | Done(setId: Option<string>) | Stopped(state: SetState)
    | FinalizeNow | Start(slot: nat)

  /** The `set-next` command. */
  function SetNext(cp: Checkpoint): Command {
    if cp.current.Some? then Continue(cp.current.value.slot, cp.current.value.attempt)
    else if cp.state == Complete then Done(cp.finalSet)
    else if cp.state != Ready then Stopped(cp.state)
    else if cp.nextPending.None? then FinalizeNow
    else Start(cp.nextPending.value)
  }
}
