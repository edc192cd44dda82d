/**
 Create-only upload. Several uploaders describe and create objects in one store, in any
 interleaving; describe calls may go unanswered and create calls may fail before or after
 taking effect.
 */
module ObjectUpload {
  import opened Options
  import opened Numerals

  /** What `local_object_integrity` reads off a file. */
  datatype Integrity = Integrity(size: string, crc32c: string, md5: string, sha256: string)

  /** One planned object. */
  datatype Item = Item(uri: string, integrity: Integrity)

  /** Object metadata as the store answers it, before any check. */
  datatype Metadata = Metadata(
    bucket: string, name: string, generation: string, size: string,
    crc32c: Option<string>, custom: Option<map<string, string>>, md5: Option<string>)

  /** Checked metadata. A store may omit the MD5. */
  datatype Remote = Remote(size: string, crc32c: string, md5: Option<string>, sha256: string, generation: string)

  datatype Entry = Entry(uri: string, size: string, crc32c: string, md5: Option<string>, sha256: string,
    generation: string)

  /** The metadata kept for each address, and the last generation handed out. */
  datatype Store = Store(objects: map<string, Metadata>, generation: nat)

  // ---- addresses and metadata ----

  /** Where the first slash is, or the length. */
  function FirstSlash(s: string): (n: nat)
    ensures n <= |s|
  {
    if s == "" || s[0] == '/' then 0 else FirstSlash(s[1..]) + 1
  }

  /** Bucket and object name of `gs://bucket/name`, without control characters. */
  function SplitUri(uri: string): Option<(string, string)> {
    if !("gs://" <= uri) || exists i :: 0 <= i < |uri| && uri[i] < ' ' then None
    else
      var path := uri[5..];
      var n := FirstSlash(path);
      if n == 0 || n + 1 >= |path| then None else Some((path[..n], path[n + 1..]))
  }

  predicate Digit(c: char) { '0' <= c <= '9' }

  predicate Positive(s: string) { s != "" && '1' <= s[0] <= '9' && forall i :: 0 <= i < |s| ==> Digit(s[i]) }

  predicate Base64(s: string, n: nat) {
    && |s| == n + 2 && s[n..] == "=="
    && forall i :: 0 <= i < n ==> 'A' <= s[i] <= 'Z' || 'a' <= s[i] <= 'z' || Digit(s[i]) || s[i] == '+' || s[i] == '/'
  }

  predicate Sha256(s: string) { |s| == 64 && forall i :: 0 <= i < 64 ==> Digit(s[i]) || 'a' <= s[i] <= 'f' }

  const SHA_FIELD := "gse-sha256"

  /** `normalized_remote_metadata`: identity and syntax of what the store answered. */
  function Normalize(metadata: Metadata, uri: string): Option<Remote> {
    if SplitUri(uri) != Some((metadata.bucket, metadata.name)) then None
    else if !Positive(metadata.generation) || !(metadata.size == "0" || Positive(metadata.size)) then None
    else if metadata.crc32c.None? || !Base64(metadata.crc32c.value, 6) then None
    else if metadata.custom.None? || metadata.custom.value.Keys != {SHA_FIELD}
      || !Sha256(metadata.custom.value[SHA_FIELD]) then None
    else if metadata.md5.Some? && !Base64(metadata.md5.value, 22) then None
    else Some(Remote(metadata.size, metadata.crc32c.value, metadata.md5, metadata.custom.value[SHA_FIELD],
      metadata.generation))
  }

  // ---- the store ----

  /** `None` when the object is missing or the call is not answered. */
  function Describe(store: Store, uri: string, answered: bool): Option<Metadata> {
    if answered && uri in store.objects then Some(store.objects[uri]) else None
  }

  /** How a create call ends when the object does not exist yet. */
  datatype CreateFate = Done | LostBefore | LostAfter

  /** What `cp` stores: digests of the file as it is now, and the digest it was told. */
  function NewObject(store: Store, address: (string, string), actual: Integrity, withMd5: bool,
      sha256: string): Metadata {
    Metadata(address.0, address.1, Decimal(store.generation + 1), actual.size, Some(actual.crc32c),
             Some(map[SHA_FIELD := sha256]), if withMd5 then Some(actual.md5) else None)
  }

  predicate TakesEffect(store: Store, uri: string, fate: CreateFate) {
    uri !in store.objects && SplitUri(uri).Some? && fate != LostBefore
  }

  /** Create with the precondition that no generation exists: the store after the call. */
  function Create(store: Store, uri: string, actual: Integrity, withMd5: bool, sha256: string,
      fate: CreateFate): Store {
    if TakesEffect(store, uri, fate)
    then Store(store.objects[uri := NewObject(store, SplitUri(uri).value, actual, withMd5, sha256)],
      store.generation + 1)
    else store
  }

  predicate CreateSucceeds(store: Store, uri: string, fate: CreateFate) {
    TakesEffect(store, uri, fate) && fate == Done
  }

  // ---- verification ----

  /** `verify_remote_upload_object`. */
  function VerifyUpload(item: Item, metadata: Metadata): Option<Entry> {
    match Normalize(metadata, item.uri)
    case None => None
    case Some(remote) =>
      if remote.size != item.integrity.size || remote.crc32c != item.integrity.crc32c
        || remote.sha256 != item.integrity.sha256
         || (remote.md5.Some? && remote.md5.value != item.integrity.md5)
      then None
      else Some(Entry(item.uri, remote.size, remote.crc32c, remote.md5, item.integrity.sha256, remote.generation))
  }

  /** `verify_recorded_remote_object`. */
  predicate VerifyRecorded(entry: Entry, store: Store, answered: bool) {
    match Describe(store, entry.uri, answered)
    case None => false
    case Some(metadata) =>
      match Normalize(metadata, entry.uri)
      case None => false
      case Some(remote) =>
        && remote.crc32c == entry.crc32c && remote.generation == entry.generation
        && remote.sha256 == entry.sha256 && remote.size == entry.size
        && (entry.md5.Some? ==> remote.md5 == entry.md5)
  }

  // ---- one uploader, call by call ----

  /** Where an uploader is: about to check the file, about to make one of the calls, or stopped. */
  datatype Pc = Checking | Describing | Creating | AfterError | AfterCreate | Failed

  /** `upload_evidence`: the planned objects in order, and the entries verified so far. */
  datatype Uploader = Uploader(items: seq<Item>, entries: seq<Entry>, pc: Pc)

  predicate Active(u: Uploader) { u.pc != Failed && |u.entries| < |u.items| }

  /** All objects are verified: the uploader returns its receipt. */
  predicate Returned(u: Uploader) { u.pc == Checking && |u.entries| == |u.items| }

  function Current(u: Uploader): Item
    requires Active(u)
  {
    u.items[|u.entries|]
  }

  /** One call, with everything its environment decides. */
  datatype Call =
    | Check(current: Integrity)
    | Look(answered: bool)
    | Copy(actual: Integrity, withMd5: bool, fate: CreateFate)

  function Verified(u: Uploader, metadata: Metadata): Uploader
    requires Active(u)
  {
    match VerifyUpload(Current(u), metadata)
    case None => u.(pc := Failed)
    case Some(entry) => u.(entries := u.entries + [entry], pc := Checking)
  }

  /** The uploader and the store after one call; `None` when this call is not its next one. */
  function Advance(u: Uploader, store: Store, call: Call): Option<(Uploader, Store)>
    requires Active(u)
  {
    var item := Current(u);
    match (u.pc, call)
    case (Checking, Check(current)) =>
      Some((u.(pc := if current == item.integrity then Describing else Failed), store))
    case (Describing, Look(answered)) => (
      match Describe(store, item.uri, answered)
      case None => Some((u.(pc := Creating), store))
      case Some(metadata) => Some((Verified(u, metadata), store)))
    case (Creating, Copy(actual, withMd5, fate)) =>
      Some((u.(pc := if CreateSucceeds(store, item.uri, fate) then AfterCreate else AfterError),
            Create(store, item.uri, actual, withMd5, item.integrity.sha256, fate)))
    case (AfterError, Look(answered)) => (
      match Describe(store, item.uri, answered)
      case None => Some((u.(pc := Failed), store))
      case Some(metadata) => Some((Verified(u, metadata), store)))
    case (AfterCreate, Look(answered)) => (
      match Describe(store, item.uri, answered)
      case None => Some((u.(pc := Failed), store))
      case Some(metadata) => Some((Verified(u, metadata), store)))
    case _ => None
  }

  // ---- interleavings ----

  datatype Cloud = Cloud(store: Store, uploaders: seq<Uploader>)

  datatype Event = Event(who: nat, call: Call)

  predicate CanStep(c: Cloud, e: Event) {
    && e.who < |c.uploaders| && Active(c.uploaders[e.who])
    && Advance(c.uploaders[e.who], c.store, e.call).Some?
  }

  function Step(c: Cloud, e: Event): Cloud
    requires CanStep(c, e)
  {
    var (u, store) := Advance(c.uploaders[e.who], c.store, e.call).value;
    Cloud(store, c.uploaders[e.who := u])
  }

  ghost predicate IsRun(states: seq<Cloud>, events: seq<Event>) {
    && |states| == |events| + 1
    && (forall u :: u in states[0].uploaders ==> u.entries == [] && u.pc == Checking)
    && (forall i :: 0 <= i < |events| ==> CanStep(states[i], events[i]) && Step(states[i], events[i]) == states[i + 1])
  }

  // ---- the store only grows ----

  ghost predicate Grows(s: Store, t: Store) {
    && s.generation <= t.generation
    && forall uri :: uri in s.objects ==> uri in t.objects && t.objects[uri] == s.objects[uri]
  }

  lemma StepGrows(c: Cloud, e: Event)
    requires CanStep(c, e)
    ensures Grows(c.store, Step(c, e).store)
  {
  }

  /** A stored object never changes. */
  lemma {:induction false} StoredObjectsNeverChange(states: seq<Cloud>, events: seq<Event>, i: nat, j: nat)
    requires IsRun(states, events) && i <= j < |states|
    ensures Grows(states[i].store, states[j].store)
    decreases j
  {
    if i < j {
      StoredObjectsNeverChange(states, events, i, j - 1);
      assert CanStep(states[j - 1], events[j - 1]) && Step(states[j - 1], events[j - 1]) == states[j - 1 + 1];
      StepGrows(states[j - 1], events[j - 1]);
    }
  }

  /** The entry describes the object stored under its address. */
  predicate Describes(entry: Entry, store: Store) {
    && entry.uri in store.objects
    && Normalize(store.objects[entry.uri], entry.uri)
       == Some(Remote(entry.size, entry.crc32c, entry.md5, entry.sha256, entry.generation))
  }

  /** The entry repeats the planned digests. */
  predicate AsPlanned(entry: Entry, item: Item) {
    && entry.uri == item.uri && entry.size == item.integrity.size && entry.crc32c == item.integrity.crc32c
    && entry.sha256 == item.integrity.sha256 && (entry.md5.Some? ==> entry.md5.value == item.integrity.md5)
  }

  ghost predicate UploaderOk(u: Uploader, store: Store) {
    && |u.entries| <= |u.items|
    && (forall k :: 0 <= k < |u.entries| ==> Describes(u.entries[k], store) && AsPlanned(u.entries[k], u.items[k]))
  }

  ghost predicate CloudOk(c: Cloud) {
    forall i :: 0 <= i < |c.uploaders| ==> UploaderOk(c.uploaders[i], c.store)
  }

  lemma AdvanceOk(u: Uploader, store: Store, call: Call)
    requires Active(u) && UploaderOk(u, store) && Advance(u, store, call).Some?
    ensures UploaderOk(Advance(u, store, call).value.0, Advance(u, store, call).value.1)
  {
  }

  lemma StepOk(c: Cloud, e: Event)
    requires CloudOk(c) && CanStep(c, e)
    ensures CloudOk(Step(c, e))
  {
    StepGrows(c, e);
    AdvanceOk(c.uploaders[e.who], c.store, e.call);
  }

  lemma {:induction false} RunOk(states: seq<Cloud>, events: seq<Event>, i: nat)
    requires IsRun(states, events) && i < |states|
    ensures CloudOk(states[i])
    decreases i
  {
    if i > 0 {
      RunOk(states, events, i - 1);
      assert CanStep(states[i - 1], events[i - 1]) && Step(states[i - 1], events[i - 1]) == states[i - 1 + 1];
      StepOk(states[i - 1], events[i - 1]);
    }
  }

  /** Every verified entry still passes the recorded-object check in every later state in which
      describe answers. */
  lemma ReceiptStaysVerifiable(states: seq<Cloud>, events: seq<Event>, i: nat, j: nat, who: nat, k: nat)
    requires IsRun(states, events) && i <= j < |states|
    requires who < |states[i].uploaders| && k < |states[i].uploaders[who].entries|
    ensures VerifyRecorded(states[i].uploaders[who].entries[k], states[j].store, true)
  {
    RunOk(states, events, i);
    StoredObjectsNeverChange(states, events, i, j);
    assert UploaderOk(states[i].uploaders[who], states[i].store);
  }

  /** An uploader that returns holds one entry for each planned object, in order; each repeats the
      planned digests and stays verifiable. */
  lemma ReturnedReceipt(states: seq<Cloud>, events: seq<Event>, i: nat, j: nat, who: nat)
    requires IsRun(states, events) && i <= j < |states|
    requires who < |states[i].uploaders| && Returned(states[i].uploaders[who])
    ensures var u := states[i].uploaders[who];
            && |u.entries| == |u.items|
            && forall k :: 0 <= k < |u.entries| ==>
               AsPlanned(u.entries[k], u.items[k]) && VerifyRecorded(u.entries[k], states[j].store, true)
  {
    var u := states[i].uploaders[who];
    RunOk(states, events, i);
    forall k | 0 <= k < |u.entries|
      ensures AsPlanned(u.entries[k], u.items[k]) && VerifyRecorded(u.entries[k], states[j].store, true)
    {
      ReceiptStaysVerifiable(states, events, i, j, who, k);
    }
  }

  /** Two uploaders that verified one address, at whatever times, hold the same entry, and
      planned the same content. */
  lemma UploadersAgree(states: seq<Cloud>, events: seq<Event>, i: nat, j: nat, a: nat, k: nat, b: nat, l: nat)
    requires IsRun(states, events) && i <= j < |states|
    requires a < |states[i].uploaders| && k < |states[i].uploaders[a].entries|
    requires b < |states[j].uploaders| && l < |states[j].uploaders[b].entries|
    requires states[i].uploaders[a].entries[k].uri == states[j].uploaders[b].entries[l].uri
    ensures var x, y := states[i].uploaders[a].entries[k], states[j].uploaders[b].entries[l];
            && x == y
            && k < |states[i].uploaders[a].items| && l < |states[j].uploaders[b].items|
            && AsPlanned(x, states[i].uploaders[a].items[k]) && AsPlanned(x, states[j].uploaders[b].items[l])
  {
    RunOk(states, events, i);
    RunOk(states, events, j);
    StoredObjectsNeverChange(states, events, i, j);
    assert UploaderOk(states[i].uploaders[a], states[i].store);
    assert UploaderOk(states[j].uploaders[b], states[j].store);
  }

  predicate Creates(c: Cloud, e: Event, uri: string) {
    && CanStep(c, e) && c.uploaders[e.who].pc == Creating && e.call.Copy?
    && Current(c.uploaders[e.who]).uri == uri && TakesEffect(c.store, uri, e.call.fate)
  }

  /** However many uploaders race, at most one create call of an address takes effect. */
  lemma CreatedOnce(states: seq<Cloud>, events: seq<Event>, i: nat, j: nat, uri: string)
    requires IsRun(states, events) && i < |events| && j < |events|
    requires Creates(states[i], events[i], uri) && Creates(states[j], events[j], uri)
    ensures i == j
  {
    assert Step(states[i], events[i]) == states[i + 1] && Step(states[j], events[j]) == states[j + 1];
    if i < j {
      StoredObjectsNeverChange(states, events, i + 1, j);
    } else if j < i {
      StoredObjectsNeverChange(states, events, j + 1, i);
    }
  }

  // ---- one uploader alone, over the store as it is kept on disk ----

  /** The create-only store. */
  class GcsStore {
    var objects: map<string, Metadata>
    var generation: nat

    ghost function View(): Store
      reads this
    {
      Store(objects, generation)
    }

    /** An empty store; the first generation handed out is 1000. */
    constructor ()
      ensures View() == Store(map[], 999)
    {
      objects, generation := map[], 999;
    }

    method DescribeObject(uri: string, answered: bool) returns (r: Option<Metadata>)
      ensures r == Describe(View(), uri, answered)
    {
      if !answered || uri !in objects { return None; }
      r := Some(objects[uri]);
    }

    method CreateObject(uri: string, actual: Integrity, withMd5: bool, sha256: string, fate: CreateFate)
      returns (ok: bool)
      modifies this
      ensures View() == Create(old(View()), uri, actual, withMd5, sha256, fate)
      ensures ok <==> CreateSucceeds(old(View()), uri, fate)
    {
      if uri in objects || fate == LostBefore || SplitUri(uri).None? { return false; }
      var (bucket, name) := SplitUri(uri).value;
      generation := generation + 1;
      objects := objects[uri := Metadata(bucket, name, Decimal(generation), actual.size, Some(actual.crc32c),
                                         Some(map[SHA_FIELD := sha256]), if withMd5 then Some(actual.md5) else None)];
      ok := fate == Done;
    }
  }

  /** `upload_and_verify_object`, with `current` and `actual` the file when it is checked and
      when it is copied, and `first` and `second` whether the describe calls are answered. It
      returns an entry exactly when the file is as planned, the object is there in the end with
      the planned digests, and the describe call that looks for it is answered. */
  method UploadAndVerifyObject(store: GcsStore, item: Item, current: Integrity, actual: Integrity,
                               withMd5: bool, fate: CreateFate, first: bool, second: bool) returns (r: Option<Entry>)
    modifies store
    ensures Grows(old(store.View()), store.View())
    ensures forall uri :: uri in store.objects ==> uri == item.uri || uri in old(store.objects)
    ensures r.Some? <==>
              && current == item.integrity
              && item.uri in store.objects && VerifyUpload(item, store.objects[item.uri]).Some?
              && (second || (first && item.uri in old(store.objects)))
    ensures r.Some? ==> Describes(r.value, store.View()) && AsPlanned(r.value, item)
  {
    if current != item.integrity { return None; }
    var metadata := store.DescribeObject(item.uri, first);
    if metadata.None? {
      var created := store.CreateObject(item.uri, actual, withMd5, current.sha256, fate);
      metadata := store.DescribeObject(item.uri, second);
    }
    if metadata.None? { return None; }
    r := VerifyUpload(item, metadata.value);
  }
}
