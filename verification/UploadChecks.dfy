/**
 The checks on object metadata, character by character: which addresses, numbers and digests they
 accept, what a verified upload and a verified receipt entry have to agree in, and that an upload
 to a free address does return.
 */
module UploadChecks {
  import opened Options
  import opened Numerals
  import opened ObjectUpload

  // ---- addresses ----

  lemma {:induction false} FirstSlashExactly(s: string, n: nat)
    ensures n == FirstSlash(s) <==>
            n <= |s| && '/' !in s[..n] && (n < |s| ==> s[n] == '/')
    decreases |s|
  {
    if s != "" && s[0] != '/' && 0 < n <= |s| {
      FirstSlashExactly(s[1..], n - 1);
      assert s[..n] == [s[0]] + s[1..][..n - 1];
    } else if n > 0 && s != "" {
      if s[0] == '/' && n <= |s| {
        assert s[..n][0] == '/';
      }
    }
  }

  /** `gs://`, a bucket without a slash, a slash, and a name; neither empty, no control character. */
  lemma AddressExactly(uri: string, bucket: string, name: string)
    ensures SplitUri(uri) == Some((bucket, name)) <==>
            && uri == "gs://" + bucket + "/" + name && bucket != "" && name != "" && '/' !in bucket
            && forall c :: c in uri ==> c as int >= 0x20
  {
    if SplitUri(uri) == Some((bucket, name)) {
      AddressRead(uri, bucket, name);
    }
    if uri == "gs://" + bucket + "/" + name && bucket != "" && name != "" && '/' !in bucket
      && forall c :: c in uri ==> c as int >= 0x20 {
      AddressWritten(uri, bucket, name);
    }
  }

  lemma AddressRead(uri: string, bucket: string, name: string)
    requires SplitUri(uri) == Some((bucket, name))
    ensures uri == "gs://" + bucket + "/" + name && bucket != "" && name != "" && '/' !in bucket
    ensures forall c :: c in uri ==> c as int >= 0x20
  {
    var path := uri[5..];
    assert uri == "gs://" + path;
    FirstSlashExactly(path, FirstSlash(path));
    hide FirstSlash;
    assert path == path[..|bucket|] + [path[|bucket|]] + path[|bucket| + 1..];
  }

  lemma AddressWritten(uri: string, bucket: string, name: string)
    requires uri == "gs://" + bucket + "/" + name && bucket != "" && name != "" && '/' !in bucket
    requires forall c :: c in uri ==> c as int >= 0x20
    ensures SplitUri(uri) == Some((bucket, name))
  {
    var path := uri[5..];
    assert uri[..5] == "gs://" && path == bucket + "/" + name;
    assert path[..|bucket|] == bucket && path[|bucket|] == '/' && path[|bucket| + 1..] == name;
    FirstSlashExactly(path, |bucket|);
    hide FirstSlash;
    assert forall i :: 0 <= i < |uri| ==> uri[i] in uri;
  }

  // ---- numbers and digests ----

  lemma NumeralExactly(s: string)
    ensures s == "0" || Positive(s) <==> exists n: nat :: s == Decimal(n)
    ensures Positive(s) <==> exists n: nat :: n > 0 && s == Decimal(n)
  {
    if s != "" && Digits(s) {
      var n := Value(s);
      DecimalExactly(n, s);
      if Positive(s) {
        LeadingDigit(s);
        assert s == Decimal(n) && n > 0;
      }
      if s == "0" {
        assert s == Decimal(0);
      }
    }
    forall n: nat | s == Decimal(n) ensures Digits(s) && s != "" && (n > 0 ==> s[0] != '0') {
      DecimalExactly(n, s);
      if s == "0" {
        assert s[..0] == "" && Value(s) == 0;
      }
    }
  }

  predicate Base64Char(c: char) {
    var n := c as int;
    0x41 <= n <= 0x5A || 0x61 <= n <= 0x7A || 0x30 <= n <= 0x39 || n == 0x2B || n == 0x2F
  }

  /** `n` base-64 characters, then two equals signs. */
  predicate Padded(s: string, n: nat) {
    |s| == n + 2 && s[n] == '=' && s[n + 1] == '=' && forall i :: 0 <= i < n ==> Base64Char(s[i])
  }

  predicate HexDigest(s: string) {
    |s| == 64 && forall i :: 0 <= i < 64 ==> 0x30 <= s[i] as int <= 0x39 || 0x61 <= s[i] as int <= 0x66
  }

  lemma PaddedExactly(s: string, n: nat)
    ensures Base64(s, n) <==> Padded(s, n)
  {
    if |s| == n + 2 {
      assert s[n..] == [s[n], s[n + 1]];
    }
  }

  lemma HexExactly(s: string)
    ensures Sha256(s) <==> HexDigest(s)
  {
  }

  /** The metadata of an object that is accepted for `uri`, field by field. */
  lemma MetadataExactly(metadata: Metadata, uri: string, remote: Remote)
    ensures Normalize(metadata, uri) == Some(remote) <==>
            && uri == "gs://" + metadata.bucket + "/" + metadata.name && metadata.bucket != "" && metadata.name != ""
            && '/' !in metadata.bucket && (forall c :: c in uri ==> c as int >= 0x20)
            && metadata.generation == remote.generation && (exists n: nat :: n > 0 && remote.generation == Decimal(n))
            && metadata.size == remote.size && (exists n: nat :: remote.size == Decimal(n))
            && metadata.crc32c == Some(remote.crc32c) && Padded(remote.crc32c, 6)
            && metadata.custom == Some(map["gse-sha256" := remote.sha256]) && HexDigest(remote.sha256)
            && metadata.md5 == remote.md5 && (remote.md5.Some? ==> Padded(remote.md5.value, 22))
  {
    AddressExactly(uri, metadata.bucket, metadata.name);
    NumeralExactly(metadata.generation);
    NumeralExactly(metadata.size);
    PaddedExactly(remote.crc32c, 6);
    HexExactly(remote.sha256);
    if remote.md5.Some? {
      PaddedExactly(remote.md5.value, 22);
    }
    CustomExactly(metadata.custom, remote.sha256);
    hide SplitUri, Positive, Decimal, Base64, Padded, Sha256, HexDigest;
  }

  lemma CustomExactly(custom: Option<map<string, string>>, sha256: string)
    ensures custom == Some(map["gse-sha256" := sha256]) <==>
            custom.Some? && custom.value.Keys == {SHA_FIELD} && custom.value[SHA_FIELD] == sha256
  {
    if custom.Some? && custom.value.Keys == {SHA_FIELD} && custom.value[SHA_FIELD] == sha256 {
      assert custom.value == map["gse-sha256" := sha256];
    }
  }

  // ---- verification ----

  /** A created or found object is verified exactly when size, CRC32C, SHA-256 and, if the store gives
      one, MD5 are the planned ones; the entry repeats them with the generation. */
  lemma UploadVerified(item: Item, metadata: Metadata, entry: Entry)
    ensures VerifyUpload(item, metadata) == Some(entry) <==>
            && Normalize(metadata, item.uri)
               == Some(Remote(item.integrity.size, item.integrity.crc32c, entry.md5, item.integrity.sha256,
                              entry.generation))
            && (entry.md5.Some? ==> entry.md5 == Some(item.integrity.md5))
            && entry == Entry(item.uri, item.integrity.size, item.integrity.crc32c, entry.md5, item.integrity.sha256,
                              entry.generation)
  {
    hide Normalize;
  }

  /** A receipt entry is confirmed exactly by an answered describe call whose metadata has the same
      size, CRC32C, SHA-256 and generation, and the same MD5 if the entry has one. */
  lemma RecordedVerified(entry: Entry, store: Store, answered: bool)
    ensures VerifyRecorded(entry, store, answered) <==>
            && answered && entry.uri in store.objects
            && exists md5 ::
                 && Normalize(store.objects[entry.uri], entry.uri)
                    == Some(Remote(entry.size, entry.crc32c, md5, entry.sha256, entry.generation))
                 && (entry.md5.Some? ==> md5 == entry.md5)
  {
    hide Normalize;
    if VerifyRecorded(entry, store, answered) {
      var md5 := Normalize(store.objects[entry.uri], entry.uri).value.md5;
      assert Normalize(store.objects[entry.uri], entry.uri)
             == Some(Remote(entry.size, entry.crc32c, md5, entry.sha256, entry.generation));
    }
  }

  // ---- an upload that returns ----

  /** What a file's integrity record looks like. */
  ghost predicate Proper(x: Integrity) {
    (exists n: nat :: x.size == Decimal(n)) && Padded(x.crc32c, 6) && Padded(x.md5, 22) && HexDigest(x.sha256)
  }

  /** The four calls of an upload to a free address, all answered. */
  function Upload(u: Uploader, store: Store, withMd5: bool): Option<(Uploader, Store)>
    requires Active(u)
  {
    var file := Current(u).integrity;
    match Advance(u, store, Check(file))
    case None => None
    case Some((u1, s1)) =>
      if !Active(u1) then None
      else match Advance(u1, s1, Look(true))
        case None => None
        case Some((u2, s2)) =>
          if !Active(u2) then None
          else match Advance(u2, s2, Copy(file, withMd5, Done))
            case None => None
            case Some((u3, s3)) => if !Active(u3) then None else Advance(u3, s3, Look(true))
  }

  /** An upload of an unchanged file to a free address returns: it appends one entry with the planned
      digests and the generation handed out, and its object is the only change in the store. */
  lemma FreeAddressIsUploaded(u: Uploader, store: Store, bucket: string, name: string, withMd5: bool)
    requires Active(u) && u.pc == Checking && Proper(Current(u).integrity)
    requires Current(u).uri == "gs://" + bucket + "/" + name && bucket != "" && name != "" && '/' !in bucket
    requires (forall c :: c in Current(u).uri ==> c as int >= 0x20) && Current(u).uri !in store.objects
    ensures var file, md5 := Current(u).integrity, if withMd5 then Some(Current(u).integrity.md5) else None;
            var generation := Decimal(store.generation + 1);
            Upload(u, store, withMd5) ==
              Some((u.(entries := u.entries
                         + [Entry(Current(u).uri, file.size, file.crc32c, md5, file.sha256, generation)]),
                    Store(store.objects[Current(u).uri :=
                            ObjectUpload.Metadata(bucket, name, generation, file.size, Some(file.crc32c),
                                                  Some(map["gse-sha256" := file.sha256]), md5)],
                          store.generation + 1)))
  {
    hide Normalize, SplitUri, Decimal, Padded, HexDigest;
    var item, file := Current(u), Current(u).integrity;
    var md5, generation := if withMd5 then Some(file.md5) else None, Decimal(store.generation + 1);
    AddressExactly(item.uri, bucket, name);
    var answer := NewObject(store, (bucket, name), file, withMd5, file.sha256);
    var n := store.generation + 1;
    assert n > 0 && generation == Decimal(n);
    assert exists n: nat :: file.size == Decimal(n);
    assert exists n: nat :: n > 0 && answer.generation == Decimal(n);
    MetadataExactly(answer, item.uri, Remote(file.size, file.crc32c, md5, file.sha256, generation));
    UploadVerified(item, answer, Entry(item.uri, file.size, file.crc32c, md5, file.sha256, generation));
    UploadCalls(u, store, answer, withMd5);
    hide VerifyUpload, Upload;
  }

  lemma UploadCalls(u: Uploader, store: Store, answer: ObjectUpload.Metadata, withMd5: bool)
    requires Active(u) && u.pc == Checking && Current(u).uri !in store.objects && SplitUri(Current(u).uri).Some?
    requires var file := Current(u).integrity;
             answer == NewObject(store, SplitUri(Current(u).uri).value, file, withMd5, file.sha256)
    requires VerifyUpload(Current(u), answer).Some?
    ensures Upload(u, store, withMd5) ==
              Some((u.(entries := u.entries + [VerifyUpload(Current(u), answer).value]),
                    Store(store.objects[Current(u).uri := answer], store.generation + 1)))
  {
    hide VerifyUpload, SplitUri, Decimal, NewObject;
    var item, file := Current(u), Current(u).integrity;
    var u1, u2, u3 := u.(pc := Describing), u.(pc := Creating), u.(pc := AfterCreate);
    var after := Store(store.objects[item.uri := answer], store.generation + 1);
    assert Advance(u, store, Check(file)) == Some((u1, store));
    assert Advance(u1, store, Look(true)) == Some((u2, store));
    assert Advance(u2, store, Copy(file, withMd5, Done)) == Some((u3, after));
    assert Current(u3) == item && Describe(after, item.uri, true) == Some(answer);
    assert Advance(u3, after, Look(true)) == Some((Verified(u3, answer), after));
  }

  // ---- any upload, among any number of others ----

  /** The uploader's next call, unless it has failed or is done with the object. */
  function Next(u: Uploader, store: Store, call: Call): Option<Uploader> {
    if !Active(u) || u.pc == Checking then Some(u)
    else match Advance(u, store, call)
      case None => None
      case Some((v, _)) => Some(v)
  }

  /** One object, with the store as each call finds it: others may change it in between. */
  function OneObject(u: Uploader, start: Store, current: Integrity, found: Store, first: bool, before: Store,
      copy: Call, later: Store, second: bool): Option<Uploader>
    requires Active(u)
  {
    match Advance(u, start, Check(current))
    case None => None
    case Some((u1, _)) =>
      match Next(u1, found, Look(first))
      case None => None
      case Some(u2) =>
        match Next(u2, before, copy)
        case None => None
        case Some(u3) => Next(u3, later, Look(second))
  }

  /** What a describe call sees: the first that is answered with an object decides. */
  function Seen(uri: string, found: Store, first: bool, later: Store, second: bool): Option<ObjectUpload.Metadata> {
    if first && uri in found.objects then Some(found.objects[uri])
    else if second && uri in later.objects then Some(later.objects[uri])
    else None
  }

  /** An object is uploaded exactly when its file is as planned and the object a describe call sees is
      verified, whoever created it and whatever the create call reported; else the uploader fails. */
  lemma ObjectIsUploaded(u: Uploader, start: Store, current: Integrity, found: Store, first: bool, before: Store,
    actual: Integrity, withMd5: bool, fate: CreateFate, later: Store, second: bool)
    requires Active(u) && u.pc == Checking
    ensures var item := Current(u);
            var seen := Seen(item.uri, found, first, later, second);
            OneObject(u, start, current, found, first, before, Copy(actual, withMd5, fate), later, second) ==
              Some(if current == item.integrity && seen.Some? && VerifyUpload(item, seen.value).Some?
                   then u.(entries := u.entries + [VerifyUpload(item, seen.value).value])
                   else u.(pc := Failed))
  {
    hide VerifyUpload, Create, CreateSucceeds;
  }
}
