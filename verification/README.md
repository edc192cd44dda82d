# Storage, benchmark-evidence and CI models

This project models the parts of the search-engine repository that decide something on their
own: the byte-level inspectors of the durable store and of its backups, the benchmark-set
state machine, the create-only upload protocol, the comparison of two measured sets, and two
CI decisions. Each model takes the same branches, constants and error exits as the Python it
describes, and its properties are proved for all inputs or for all runs.

`dafny verify dfyconfig.toml` checks everything.

## What is modelled

**Bytes and layouts.** `Bytes` has big-endian integers and strict UTF-8; a decoded string is
represented by its bytes. `Layouts` covers what the Python writes with `struct` shapes,
length-prefixed strings and a cursor: one theorem, `LayoutCodec`, makes every layout a canonical,
uniquely decodable encoding, and the class `Cursor` is the parser's mutable offset. `StorageParts`
adds the two repeated parts, index descriptors and document slots. `Orders`, `StringOrder`,
`SortedSets` and `Numerals` are what Python's `sorted` and `str` yield. `ByteForms`, `PartForms`
and `Utf8Forms` say the same a second time without decoders: integers by place, strings and
records as the concatenation of their fields, UTF-8 as the encoding of code points.

**CRC32C.** `Crc32c` has the bitwise loop, the lookup table and the streamed loop over chunks,
each proved equal to one bit-by-bit shift register (32 bits, least significant first), and proves
that two equally long byte strings which differ only inside four consecutive bytes never have the
same checksum. `CrcBursts` extends this to bursts that reach into the stored checksum, computing
the exceptions on 32-bit machine words (`CrcWords`). The generator is that of section 12.1 of RFC
3720 in reflected form. `CrcDivision` says what the checksum is without any register: the
complement of a remainder of polynomial long division.

**Write-ahead log and directory.** `WriteAheadLog` is the frame loop; `LogGrammar` ties it to a
declarative grammar of frames; `LogDurability` says what truncation and corruption do;
`StorageFiles` has metadata, manifest and checkpoint; `StorageDirectory` chains the generations
and decides which deletions are safe; `StorageDirectoryExample` is a concrete accepted directory,
byte for byte. Directory members are represented by what their name patterns capture. `LogUnits`
has the logical units a frame can carry, `LogForms`, `LogTails`, `StorageForms` and
`DirectoryForms` describe every accepted log, file and directory as a whole: bytes and bounds
written out, no parser involved.

**Backups.** `BackupFormat` and `BackupPayloads` are the three files of a (1,0) backup, each the
one and only encoding of what it decodes to. `ContentIdentity` is the bundle inspector and its
content digest; `StorageFormat11` is the same for format (1,1), with its capability profile,
`SealedBackup11` says exactly which files and bundles it accepts, in all their forms, and
`BackupForms11` which of them have one form only. `BackupForms` and `WrittenBackup11` write out
every field of all six files, of the two hashed strings and of the capability profile. SHA-256 is
an arbitrary function from byte strings to 32 bytes, so the theorems end in "equal, or here is a
collision".

**Benchmark sets.** `BenchmarkSet` has every operation as a function on the files on disk
(checkpoint, write-once attempt, authorization and set records), `BenchmarkSetWorkspace` the same
operations as methods that update one file at a time, and `BenchmarkSetRuns` the runs: any
sequence of commands, each possibly cut short between its writes. What evidence yields is an
arbitrary but fixed function (`World`). `BenchmarkSetTheorems` holds the guarantees,
`BenchmarkSetCrashes` what repeating interrupted commands achieves, `BenchmarkSetGuided` the
guarantees that need the operator to follow `set-next`, `BenchmarkSetAnnouncements` what each
`set-next` announcement is worth in an arbitrary run, and `BenchmarkSetEndStates` exactly which
states no command changes any more. `BenchmarkSetOutcomes` says which exit code leads where, by
number, and `BenchmarkSetCommands` exactly when each command succeeds and all that it changes.

**Uploads.** `ObjectUpload` has any number of uploaders, one call at a time, over a store whose
describe calls may go unanswered and whose create calls may fail before or after taking effect.
`UploadChecks` has the accepted metadata character by character.

**Comparison and CI.** `MetricComparison` aggregates and classifies over exact reals;
`DocumentDiff` is the structural difference of two documents under Python's equality, and
`DocumentDiffExactly` says which differences it lists; `SuiteGraph` the dependency elimination,
`SuiteRegistry` the registry with its rows, matrices and job names, `SuiteRecipes` the recipe of
each profile, with `RegistryRules`, `JobTitles` and `RecipeRules` as their rules in full;
`ChangeRecords` the raw change-record parser and its printer, `ChangeForms` the changes they stand
for.

## Findings

Where the code does not have a property one might expect of it, the model keeps the code and
states exactly when the property holds.

- A torn frame's sequence is not checked while its header is complete, but is checked once the
  header is cut too. So truncating an accepted log can make it rejected:
  `LogDurability.TruncationClosed` gives the exact condition, `LogGrammar.TornLogExample` a log.
- Deleting leading generations is safe exactly under `StorageDirectory.CleanupCovered`. A
  generation numbered 0 is admitted by the file-name pattern; deleting it leaves generation 1
  in front, which must then begin at sequence 1. `StorageDirectoryExample` has such a directory:
  it is accepted, deleting generation 0 makes it rejected, deleting 0 and 1 does not.
- Finalization looks neither at the INCOMPATIBLE state nor at the identities, so a set whose
  members share an identity can be published: `BenchmarkSetTheorems.FinalizedMembers` says
  exactly when for one command and `BenchmarkSetTheorems.CompleteIdentities` for whole runs,
  `BenchmarkSetGuided.DuplicateIdentityIsPublished` is a run.
- Beginning slots out of order can make `set-next` announce FINALIZE while a slot is not valid.
  In any run, when FINALIZE is announced, all slots are valid exactly when none is
  INFRASTRUCTURE_INVALID, and finalization is refused otherwise
  (`BenchmarkSetAnnouncements.FinalizeIsAnnounced`); `BenchmarkSetGuided.UnguidedAnnouncement`
  is a run. An announced slot can be begun exactly when no later slot is valid
  (`StartIsAnnounced`); in `BenchmarkSetEndStates.AnnouncedStartIsRefused` it cannot. In runs
  that begin only announced slots, FINALIZE is announced only when every slot is valid and an
  announced slot can always be begun (`GuidedMembersFormPrefix`, `GuidedStartSucceeds`).
- A set can end without being COMPLETE. `BenchmarkSetEndStates.FrozenExactly` says in exactly
  which reachable states no command changes any file: a failed or unresolved slot; an attempt
  recorded as a success whose documents give no key; an INCOMPATIBLE set that cannot be
  published; and a READY set with no slot to begin that cannot be published. A set blocked by
  infrastructure never ends. A run that follows `set-next` can still end with its attempt
  running (`GuidedRunIsStranded`); of the READY ends following it leaves those with every slot
  valid (`GuidedReadyExactly`), whereas `UnguidedRunIsStuck` ends with a slot missing.
- After an interrupted record, reconciliation completes it exactly when the pointer it finds
  gives the very outcome that was written (`BenchmarkSetTheorems.ReconcileExactly`). A
  configuration failure recorded without a pointer is therefore never completed by
  reconciliation (`MissingPointerIsNotReconciled`), only by recording it again.
- An integration recipe exists only if no other suite needs the canonical suite
  (`SuiteRecipes.SuitePlan`), which a valid registry does not promise:
  `SuiteRecipes.ValidWithoutIntegration` is one.
- A negative count in a (1,1) metadata file or checkpoint is read as an empty list. So the
  content of an accepted metadata file determines its bytes exactly when it lists an index
  (`BackupForms11.UniqueFormExactly`), and that of a checkpoint exactly when there are both
  indexes and slots (`CheckpointUniqueExactly`); `NegativeCountIsAccepted` has two accepted files
  of one content. (1,0) files always have one form.
- The (1,1) inspector compares history and sequence of the manifest with its members, but no
  name and no codec version: `SealedBackup11.AcceptedExactly11` describes all accepted bundles, and in
  `BackupForms11.NamesMayDiffer` manifest and metadata name different stores. The (1,0)
  inspector compares all of them (`ContentIdentity.AcceptedExactly`).
- A checksummed file notices every change of four consecutive bytes but two: those that change
  the last content byte by 5D and the checksum by EE 0D 96 00, or the last two content bytes by
  4D 90 and the checksum by AD 83 00 00 (`CrcBursts.FileBurstExactly`). Both exist for every
  file long enough (`CrcBursts.UnnoticedExist`).

## Model

| member | source | states |
|---|---|---|
| Bytes.UnsignedOfDigits | scripts/v41/backup_format.py:47-53 | big-endian packing reads back, for every width |
| Bytes.DigitsOfUnsigned | scripts/v41/backup_format.py:68-69 | every byte string is the packing of its value |
| ByteForms.UnsignedByPlace | scripts/v41/backup_format.py:47-53 | big-endian: each byte counts 256 times as much as the one behind it |
| ByteForms.SignedBySign | scripts/v4/storage_inspector.py:93-95 | two's complement: the sign is the top bit of the first byte |
| Utf8Forms.Utf8Exactly | scripts/v4/storage_inspector.py:97-104 | the accepted strings are exactly the UTF-8 encodings (RFC 3629, section 3) of lists of code points without surrogates |
| CrcWords.ShiftOnWords | scripts/v4/storage_inspector.py:75-77 | one conditional shift-and-xor of a 32-bit word is one step of the register |
| Crc32c.BitwiseCrc | scripts/v4/storage_inspector.py:71-78 | the nested loops compute the bit-by-bit register `Crc` |
| Crc32c.DivideByte | scripts/v4/storage_inspector.py:75-77 | eight conditional shift-and-xor steps advance the register by one byte |
| Crc32c.MakeTable | scripts/cloud/benchmark_v2.py:3748-3755 | all 256 entries are the register after eight bits from the byte |
| Crc32c.FeedChunk | scripts/cloud/benchmark_v2.py:3781-3782 | the table step folds a whole chunk exactly as the bitwise loop does |
| Crc32c.StreamedCrc | scripts/cloud/benchmark_v2.py:3776-3786 | fed in any chunking, the table-driven form equals the bitwise CRC of the whole |
| CrcDivision.ChecksumIsRemainder | scripts/v4/storage_inspector.py:71-78 | each bit of the checksum is the complement of a coefficient of the remainder that long division by x^32 + x^28 + ... + x^6 + 1 leaves of the message: the data bits, 32 zeros behind them, the first 32 coefficients complemented |
| CrcDivision.CheckValues | scripts/cloud/benchmark_v2.py:3776-3786 | the checksum of nothing is 0, that of "123456789" is E3069283 |
| Crc32c.BurstIsDetected | scripts/v4/storage_inspector.py:71-78 | equally long strings that differ only inside four consecutive bytes have different checksums |
| Crc32c.CheckedCodec | scripts/v41/backup_format.py:52-53 | a checked file is accepted with a content exactly when it is that content with its checksum appended and is long enough |
| Crc32c.CheckedFileDetectsBurst | scripts/v4/storage_inspector.py:287-289 | changing up to four consecutive content bytes of an accepted checked file makes it rejected |
| CrcBursts.FileBurstExactly | scripts/v4/storage_inspector.py:287-289 | a file changed inside any four consecutive bytes, checksum included, stays accepted exactly if the change is one of two differences |
| CrcBursts.UnnoticedExist | scripts/v4/storage_inspector.py:287-289 | for every accepted file long enough each of the two exists |
| Layouts.LayoutCodec | scripts/v41/backup_format.py:56-79 | a record decodes to values and a rest exactly when it is their encoding followed by the rest |
| Layouts.EncodeInjective | scripts/v41/backup_format.py:47-49 | encodings of one layout are uniquely decodable, even with something appended |
| Layouts.Cursor.constructor | scripts/v4/storage_inspector.py:82-84 | a cursor starts in front of all its bytes |
| Layouts.Cursor.Read | scripts/v4/storage_inspector.py:86-91 | succeeds exactly for sizes that fit, returns the next bytes and moves behind them; otherwise does not move |
| Layouts.Cursor.ReadInt | scripts/v4/storage_inspector.py:93-95 | reads the integer in front or fails, as the decoder says |
| Layouts.Cursor.ReadText | scripts/v4/storage_inspector.py:97-104 | reads a bounded strict UTF-8 string or fails, as the decoder says |
| Layouts.Cursor.ReadFields | scripts/v41/backup_format.py:68-69 | reads a whole record field by field, as the decoder says |
| StorageParts.IndexesCodec | scripts/v41/backup_format.py:256-263 | any number of index descriptors is read back from, and only from, their encoding |
| StorageParts.ReadIndexes | scripts/v4/storage_inspector.py:249-260 | the loop over index descriptors computes the specified list and end |
| StorageParts.SlotsCodec | scripts/v41/backup_format.py:302-316 | any number of document slots is read back from, and only from, their encoding |
| StorageParts.ReadSlots | scripts/v41/backup_format.py:301-317 | the slot loop accepts as specified and counts exactly the live documents |
| PartForms.LiveAreDocuments | scripts/v41/backup_format.py:301-317 | the live count is the number of positions that hold a document |
| StorageFiles.InspectMetadataFile | scripts/v4/storage_inspector.py:224-279 | the cursor-driven metadata parser equals its specification |
| StorageForms.MetadataExactly | scripts/v4/storage_inspector.py:224-279 | a file is accepted as given metadata exactly when it is the written-out bytes of them and they keep the literal bounds (64 MiB keys, 256 MiB documents, and so on) |
| StorageFiles.InspectManifestFile | scripts/v4/storage_inspector.py:282-314 | the same for the checkpoint manifest |
| StorageForms.ManifestExactly | scripts/v4/storage_inspector.py:282-314 | the same for the manifest: its 144 bytes, its checkpoint name, generation above 1, first sequence one after the checkpoint's |
| StorageFiles.InspectCheckpointFile | scripts/v4/storage_inspector.py:317-383 | the same for the checkpoint, with its loops over indexes and slots |
| StorageForms.CheckpointExactly | scripts/v4/storage_inspector.py:317-383 | the same for the checkpoint, for some list of slots of which as many hold documents as it says, with the size, checksum and sequence of the manifest |
| StorageFiles.ManifestDetectsBurst | scripts/v4/storage_inspector.py:282-289 | changing up to four consecutive checksummed bytes of an accepted manifest makes it rejected |
| WriteAheadLog.InspectMutation | scripts/v4/storage_inspector.py:511-527 | a mutation is skipped exactly when it is well formed, leaving what follows |
| WriteAheadLog.InspectPayload | scripts/v4/storage_inspector.py:483-508 | the payload check by unit kind, including the loop over bulk mutations |
| LogUnits.PayloadsExactly | scripts/v4/storage_inspector.py:483-527 | the payload check accepts exactly the bytes of a unit of the type: an addition (1), update (2) or removal (3), a bulk of these, an index creation, an index drop, each within its bounds |
| LogUnits.PayloadUnique | scripts/v4/storage_inspector.py:483-527 | a payload can be read as one unit only |
| WriteAheadLog.InspectFrameAt | scripts/v4/storage_inspector.py:412-449 | one turn of the frame loop: reject, stop with a tail, or go on behind a frame |
| WriteAheadLog.ScanFrames | scripts/v4/storage_inspector.py:408-458 | the while loop over offset and expected sequence computes the specified frames, end and tail |
| WriteAheadLog.InspectWalFile | scripts/v4/storage_inspector.py:386-458 | header check and frame loop together equal the specification |
| LogGrammar.ScanSound | scripts/v4/storage_inspector.py:408-449 | what a clean scan accepts is the encoding of consecutive well-formed units |
| LogGrammar.ScanComplete | scripts/v4/storage_inspector.py:408-449 | the encoding of consecutive well-formed units is accepted with a clean tail and read back |
| LogGrammar.CleanLogs | scripts/v4/storage_inspector.py:386-458 | clean logs are exactly the header followed by frames of consecutive well-formed units, and the units are unique |
| LogForms.CleanLogsExactly | scripts/v4/storage_inspector.py:386-458 | a file is accepted with a clean tail exactly when it is, byte for byte, the generation header and the frames of well-formed units numbered from the first sequence |
| LogForms.CleanLogsUnique | scripts/v4/storage_inspector.py:386-458 | these units are determined by the file |
| LogTails.AcceptedLogsExactly | scripts/v4/storage_inspector.py:386-480 | the same with torn tails: which beginnings of a header and which cut-off frames may follow the complete frames, and the whole report |
| LogGrammar.TornLogExample | scripts/v4/storage_inspector.py:430-438 | an accepted log with an incomplete frame whose truncation is rejected |
| LogDurability.TruncatedLog | scripts/v4/storage_inspector.py:386-480 | what remains of an accepted log after any cut: acceptance, frames wholly before the cut, clean tail exactly at frame boundaries |
| LogDurability.TruncationClosed | scripts/v4/storage_inspector.py:412-480 | exactly which accepted logs stay accepted under every cut; clean logs always do |
| LogDurability.FrameCorruptionIsDetected | scripts/v4/storage_inspector.py:433-438 | changing up to four consecutive checksummed bytes of any complete frame makes the log rejected |
| LogDurability.HeaderCorruptionIsDetected | scripts/v4/storage_inspector.py:393-406 | the same for the generation header |
| StorageDirectory.InspectGenerations | scripts/v4/storage_inspector.py:174-199 | the loop with its previous generation and expected first sequence equals the chain specification |
| StorageDirectory.InspectPhase4Directory | scripts/v4/storage_inspector.py:137-222 | the whole directory inspection, with its maximum, equals the specification |
| DirectoryForms.DirectoryExactly | scripts/v4/storage_inspector.py:137-222 | a directory is accepted with a report exactly when all names are known, all files it relies on are accepted, the generations are consecutive and continue each other's sequences, the first one is 1 or not after the manifest's, the boundary generation is there, and the durable sequence is the largest |
| StorageDirectory.DurableHistory | scripts/v4/storage_inspector.py:174-210 | in an accepted directory all frames form one gap-free, duplicate-free run of sequences ending at the durable sequence |
| StorageDirectory.ReplayAfterCheckpoint | scripts/v4/storage_inspector.py:201-210 | the frames from the boundary generation on are exactly the sequences after the checkpoint up to the durable sequence |
| StorageDirectory.SafeCleanup | scripts/v4/storage_inspector.py:142-213 | deleting staging files, unnamed checkpoints and a leading run of generations leaves an accepted directory exactly when the run is covered, and then with the same durable sequence and authority |
| StorageDirectoryExample.ExampleAccepted | scripts/v4/storage_inspector.py:137-222 | a concrete directory with generations 0, 1 and 2 is accepted |
| StorageDirectoryExample.LeadingZeroMayNotBeDeleted | scripts/v4/storage_inspector.py:174-199 | in it, deleting generation 0 alone makes the directory rejected, deleting 0 and 1 does not |
| BackupFormat.ParseManifestFile | scripts/v41/backup_format.py:175-234 | the cursor-driven manifest parser equals its specification |
| BackupFormat.ManifestCanonical | scripts/v41/backup_format.py:175-234 | the manifest parser accepts exactly the encodings of in-bound manifests and decodes each to what it encodes |
| BackupForms.ManifestExactly | scripts/v41/backup_format.py:175-234 | the in-bound manifests and the bytes of their file, field by field |
| BackupPayloads.ParseMetadataFile | scripts/v41/backup_format.py:237-273 | the cursor-driven metadata parser equals its specification |
| BackupPayloads.MetadataCanonical | scripts/v41/backup_format.py:237-273 | the same exactness for metadata, for any number of indexes |
| BackupForms.MetadataExactly | scripts/v41/backup_format.py:237-273 | the in-bound metadata and the bytes of their file, field by field |
| BackupPayloads.ParseCheckpointFile | scripts/v41/backup_format.py:276-320 | the cursor-driven checkpoint parser accepts as specified and returns sequence and counts |
| BackupPayloads.CheckpointCanonical | scripts/v41/backup_format.py:276-320 | the same exactness for checkpoints, for any number of indexes and slots |
| BackupForms.CheckpointExactly | scripts/v41/backup_format.py:276-320 | the in-bound checkpoints and the bytes of their file, field by field |
| ContentIdentity.PreimageInjective | scripts/v41/backup_format.py:153-172 | the hashed bytes determine every identity field and the names, sizes and digests of any list of payloads |
| BackupForms.ContentExactly | scripts/v41/backup_format.py:153-172 | the hashed bytes, field by field |
| ContentIdentity.InspectBundleFiles | scripts/v41/backup_format.py:339-392 | the bundle inspector as it runs equals its specification |
| ContentIdentity.ContentIdentityBinds | scripts/v41/backup_format.py:355-379 | two accepted bundles with one content identity have the same payload bytes and identity fields, or exhibit a hash collision |
| ContentIdentity.SealedIsAccepted | scripts/v41/backup_format.py:89-150 | sealing any in-bound metadata and checkpoint gives an accepted bundle |
| ContentIdentity.AcceptedExactly | scripts/v41/backup_format.py:339-392 | the accepted bundles are exactly the sealed ones |
| BackupForms.BundleExactly | scripts/v41/backup_format.py:339-392 | a bundle is accepted under a manifest exactly when its files are the written-out bytes of one backup whose sizes, digests, content digest and shared fields agree |
| BackupForms.FilesExactly | scripts/v41/backup_format.py:339-349 | a bundle is a directory of exactly the three named files |
| StorageFormat11.CapabilitiesCodec | scripts/v42/storage_format_v11.py:263-271 | a capability list is read back exactly from its canonical encoding |
| StorageFormat11.ProfileIsCanonical | scripts/v42/storage_format_v11.py:246-260 | the bound profile field has one accepted form: the known profile, its length and its digest |
| WrittenBackup11.ProfileExactly | scripts/v42/storage_format_v11.py:246-260 | the known profile byte by byte: five named capabilities, no optional one, bound by its length and the digest of a domain string and itself |
| StorageFormat11.ReadProfileField | scripts/v42/storage_format_v11.py:246-260 | the nested profile reader equals its specification |
| StorageFormat11.ParseMetadataFile11 | scripts/v42/storage_format_v11.py:274-302 | the (1,1) metadata parser equals its specification |
| StorageFormat11.ParseCheckpointFile11 | scripts/v42/storage_format_v11.py:305-336 | the (1,1) checkpoint parser equals its specification, loops over negative counts included |
| StorageFormat11.ParseManifestFile11 | scripts/v42/storage_format_v11.py:441-479 | the (1,1) backup manifest parser equals its specification |
| StorageFormat11.BackupPreimageInjective | scripts/v42/storage_format_v11.py:215-234 | the hashed bytes determine profile, identity fields and any list of payloads |
| StorageFormat11.VersionsNeverHashAlike | scripts/v42/storage_format_v11.py:21 | the two format versions never hash the same bytes |
| StorageFormat11.InspectBackupFiles | scripts/v42/storage_format_v11.py:482-517 | the (1,1) bundle inspector as it runs equals its specification |
| StorageFormat11.BackupIdentityBinds | scripts/v42/storage_format_v11.py:482-517 | two accepted (1,1) bundles with one content identity are equal in payloads and identity fields, or exhibit a collision |
| SealedBackup11.MetadataForms | scripts/v42/storage_format_v11.py:274-302 | the accepted (1,1) metadata files are exactly the encodings under every count that stands for the index list |
| WrittenBackup11.MetadataExactly11 | scripts/v42/storage_format_v11.py:274-302 | the in-bound (1,1) metadata with the counts that stand for their indexes, and the bytes of their files |
| SealedBackup11.CheckpointForms | scripts/v42/storage_format_v11.py:305-336 | the same for (1,1) checkpoints, for both of their counts |
| WrittenBackup11.CheckpointExactly11 | scripts/v42/storage_format_v11.py:305-336 | the in-bound (1,1) checkpoints with both counts, and the bytes of their files |
| SealedBackup11.ManifestCanonical11 | scripts/v42/storage_format_v11.py:441-479 | the (1,1) manifest parser accepts exactly one form of each in-bound manifest |
| WrittenBackup11.ManifestExactly11 | scripts/v42/storage_format_v11.py:441-479 | the in-bound (1,1) manifests and the bytes of their files |
| WrittenBackup11.ContentExactly11 | scripts/v42/storage_format_v11.py:215-234 | the hashed bytes, field by field |
| BackupForms11.UniqueFormExactly | scripts/v42/storage_format_v11.py:284-294 | an accepted (1,1) metadata file is the only form of its fields exactly when it lists an index |
| BackupForms11.CheckpointUniqueExactly | scripts/v42/storage_format_v11.py:309-330 | sequence and slots of a (1,1) checkpoint have one form exactly when there are both indexes and slots |
| BackupForms11.NegativeCountIsAccepted | scripts/v42/storage_format_v11.py:284-294 | two different accepted metadata files of one content, one with the index count -1 |
| SealedBackup11.SealedIsAccepted11 | scripts/v42/storage_format_v11.py:128-212 | sealing any in-bound metadata and checkpoint, in any of their forms and under any in-bound names, gives an accepted (1,1) bundle |
| SealedBackup11.OwnIdentityVouches | scripts/v42/storage_format_v11.py:178-186 | the store's own identity may always be sealed under |
| SealedBackup11.AcceptedExactly11 | scripts/v42/storage_format_v11.py:482-517 | the accepted (1,1) bundles are exactly the sealed ones: history, sequence, fingerprints and digest agree, names and codec version need not |
| WrittenBackup11.BundleExactly11 | scripts/v42/storage_format_v11.py:482-517 | a (1,1) bundle is accepted exactly when its files are the written-out bytes of one backup |
| BackupForms11.NamesMayDiffer | scripts/v42/storage_format_v11.py:505-512 | an accepted bundle whose manifest names another store than its metadata |
| BenchmarkSetWorkspace.SetWorkspace.constructor | scripts/cloud/benchmark_v2.py:2065-2080 | a new workspace is an initial state of the runs |
| BenchmarkSetWorkspace.SetWorkspace.BeginAttempt | scripts/cloud/benchmark_v2.py:2131-2168 | begins an attempt or leaves every file unchanged, as specified |
| BenchmarkSetCommands.BeginExactly | scripts/cloud/benchmark_v2.py:2131-2168 | exactly when an attempt can be begun: READY or blocked by infrastructure, slot never begun or lost and authorized, no later slot valid, no leftover file |
| BenchmarkSetCommands.BeginEffect | scripts/cloud/benchmark_v2.py:2150-2168 | what beginning changes, and that nothing else does |
| BenchmarkSetWorkspace.SetWorkspace.PutAttempt | scripts/cloud/benchmark_v2.py:1943-1950 | an immutable file is written once; the same content again is accepted, other content raises |
| BenchmarkSetWorkspace.SetWorkspace.Settle | scripts/cloud/benchmark_v2.py:2486-2523 | the checkpoint that reflects a recorded attempt, for every classification |
| BenchmarkSetWorkspace.SetWorkspace.RecordAttempt | scripts/cloud/benchmark_v2.py:2415-2528 | the record command on success, on error, and cut after its first write |
| BenchmarkSetOutcomes.OutcomeExactly | scripts/cloud/benchmark_v2.py:2178-2189 | for each exit code, by number, the classification and the whole attempt record: 10, 20, 40, 50, 60, 70 infrastructure; 30 benchmark; 2 configuration, also without a pointer; 80, 81, 82 or a failed derivation evidence; 0 valid; else unresolved |
| BenchmarkSetCommands.RecordExactly | scripts/cloud/benchmark_v2.py:2415-2528 | exactly when recording succeeds |
| BenchmarkSetCommands.RecordEffect | scripts/cloud/benchmark_v2.py:2484-2523 | the set state, announcement and slot that each classification leads to: READY with the first pending slot exactly when all valid slots have one key and differ in all four identities |
| BenchmarkSetWorkspace.SetWorkspace.ReconcileAttempt | scripts/cloud/benchmark_v2.py:2531-2563 | reconciliation, with its fallback to an unresolved record, and which files a failed or cut one leaves |
| BenchmarkSetCommands.ReconcileUnrecorded | scripts/cloud/benchmark_v2.py:2531-2563 | what reconciling an attempt without a record does, for every pointer |
| BenchmarkSetWorkspace.SetWorkspace.AuthorizeReplacement | scripts/cloud/benchmark_v2.py:2566-2596 | the authorization command on success, on error, and cut after its first write |
| BenchmarkSetCommands.AuthorizeExactly | scripts/cloud/benchmark_v2.py:2566-2580 | exactly when a replacement is authorized, the reason's 1 to 500 single-line characters included |
| BenchmarkSetCommands.AuthorizeEffect | scripts/cloud/benchmark_v2.py:2581-2596 | the authorization and the checkpoint it leaves |
| BenchmarkSetWorkspace.SetWorkspace.FinalizeSet | scripts/cloud/benchmark_v2.py:2709-2852 | finalization on success, on error, and cut before the checkpoint is saved |
| BenchmarkSetCommands.FinalizeBySlot | scripts/cloud/benchmark_v2.py:2709-2724 | exactly when a set is finalized, slot by slot, and that it then has 3 to 10 members, or 1 to 10 for an experiment |
| BenchmarkSetCommands.PublishedExactly | scripts/cloud/benchmark_v2.py:2709-2852 | a set is finalized exactly when the one document that holds the plan, each slot's selected member and its whole history may be published; its file and the completed checkpoint are then all that changes |
| BenchmarkSetRuns.StepInv | scripts/cloud/benchmark_v2.py:2131-2852 | every command, whole or cut short, keeps the invariant |
| BenchmarkSetRuns.RunInv | scripts/cloud/benchmark_v2.py:2131-2852 | the invariant holds in every state of every run |
| BenchmarkSetTheorems.StepExtends | scripts/cloud/benchmark_v2.py:1943-1950 | no command alters a written record or a valid slot, and a slot that becomes valid comes after all valid ones |
| BenchmarkSetTheorems.RunExtends | scripts/cloud/benchmark_v2.py:1943-1950 | over any stretch of a run, records and valid slots only accumulate |
| BenchmarkSetTheorems.EarlierAttemptsWereSetAside | scripts/cloud/benchmark_v2.py:2131-2189 | every attempt before a slot's latest was recorded as an infrastructure failure and replaced under an authorization for exactly it |
| BenchmarkSetTheorems.ResultIsNeverRerolled | scripts/cloud/benchmark_v2.py:2415-2596 | an attempt recorded with any other outcome stays its slot's last attempt for ever, with its record unchanged |
| BenchmarkSetOutcomes.RecordsByExit | scripts/cloud/benchmark_v2.py:2178-2189 | in every reachable state a record's classification is that of its confirmed exit code, by number |
| BenchmarkSetOutcomes.OnlyInfrastructureExitsAreReplaced | scripts/cloud/benchmark_v2.py:2566-2596 | in every run each replacement was authorized for an attempt with exit 10, 20, 40, 50, 60 or 70 |
| BenchmarkSetOutcomes.OtherExitsStay | scripts/cloud/benchmark_v2.py:2415-2596 | an attempt recorded with any other exit, or none, is its slot's last for ever |
| BenchmarkSetTheorems.MembersArriveInOrder | scripts/cloud/benchmark_v2.py:2131-2168 | slots become valid in strictly increasing order |
| BenchmarkSetTheorems.OneRunningSlot | scripts/cloud/benchmark_v2.py:2131-2168 | exactly the slot of the current attempt is RUNNING, and none is when there is no current attempt |
| BenchmarkSetTheorems.FinalizeAfterCrash | scripts/cloud/benchmark_v2.py:2824-2852 | publishing the set, crashing before COMPLETE is saved and finalizing again gives exactly the uninterrupted result |
| BenchmarkSetTheorems.ReconcileExactly | scripts/cloud/benchmark_v2.py:2531-2563 | after an interrupted record that could be completed, exactly which pointers let reconciliation complete it, and that it then does just that |
| BenchmarkSetTheorems.MissingPointerIsNotReconciled | scripts/cloud/benchmark_v2.py:2531-2563 | a configuration failure written without a pointer is not completed by any reconciliation |
| BenchmarkSetCrashes.RepeatedStep | scripts/cloud/benchmark_v2.py:2484-2596 | repeating any interrupted record, reconciliation, authorization or finalization gives what the uninterrupted command would have given |
| BenchmarkSetCrashes.CrashesLeaveNoTrace | scripts/cloud/benchmark_v2.py:1943-1950 | a run with any number of crashes, each followed by the same command, leaves all files exactly as the run without crashes |
| BenchmarkSetTheorems.ReachableMembersCompatible | scripts/cloud/benchmark_v2.py:2489-2516 | in every reachable state that is neither INCOMPATIBLE nor COMPLETE the members have one key and distinct identities |
| BenchmarkSetOutcomes.ValidSlotsAgree | scripts/cloud/benchmark_v2.py:2489-2516 | the same for any two valid slots: one key, and run, instance, orchestration record and manifest all different |
| BenchmarkSetTheorems.FinalizedMembers | scripts/cloud/benchmark_v2.py:2709-2724 | finalization happens only from READY or INCOMPATIBLE, with the planned number of members and one key; identities are distinct exactly when the set was not INCOMPATIBLE |
| BenchmarkSetTheorems.CompleteIdentities | scripts/cloud/benchmark_v2.py:2489-2516 | in every run, a COMPLETE set has one key and distinct identities exactly when it never was INCOMPATIBLE |
| BenchmarkSetTheorems.CompleteHoldsPlan | scripts/cloud/benchmark_v2.py:2709-2852 | in every reachable COMPLETE state the named set is on disk, with one member for each planned slot that copies that slot's selected record |
| BenchmarkSetTheorems.PublishedAudit | scripts/cloud/benchmark_v2.py:2725-2789 | the published audit of a slot is its whole history: all attempts in order, every replacement, the selected one last |
| BenchmarkSetGuided.GuidedMembersFormPrefix | scripts/cloud/benchmark_v2.py:4829-4843 | in runs that begin only the announced slot, valid slots form a prefix and FINALIZE is announced only when all are valid |
| BenchmarkSetCommands.AnswerExactly | scripts/cloud/benchmark_v2.py:4829-4843 | what each answer of `set-next` says about the checkpoint |
| BenchmarkSetGuided.DuplicateIdentityIsPublished | scripts/cloud/benchmark_v2.py:2716-2724 | a run that publishes a set with a repeated identity |
| BenchmarkSetGuided.UnguidedAnnouncement | scripts/cloud/benchmark_v2.py:2131-2168 | a run out of slot order in which FINALIZE is announced and refused |
| BenchmarkSetAnnouncements.FinalizeIsAnnounced | scripts/cloud/benchmark_v2.py:4829-4843 | in every run, when FINALIZE is announced all slots are valid exactly when none is lost, and finalization is refused when one is |
| BenchmarkSetAnnouncements.StartIsAnnounced | scripts/cloud/benchmark_v2.py:2131-2168 | in every run, with no leftover control or log file, the announced slot can be begun exactly when no later slot is valid |
| BenchmarkSetAnnouncements.GuidedStartSucceeds | scripts/cloud/benchmark_v2.py:4829-4843 | in a run that begins only announced slots, with no leftover control or log file, the announced slot can always be begun |
| BenchmarkSetEndStates.FrozenExactly | scripts/cloud/benchmark_v2.py:2131-2852 | in every run, exactly which states no command, whole or cut short, changes any more |
| BenchmarkSetEndStates.FrozenIsForEver | scripts/cloud/benchmark_v2.py:2131-2852 | from such a state every continuation of the run stays in it |
| BenchmarkSetEndStates.GuidedReadyExactly | scripts/cloud/benchmark_v2.py:4829-4843 | in a run that begins only announced slots, a READY set is at its end exactly when every slot is valid and it cannot be published |
| BenchmarkSetEndStates.GuidedRunIsStranded | scripts/cloud/benchmark_v2.py:2484-2516 | a run that follows the announcements and ends with the attempt still running |
| BenchmarkSetEndStates.AnnouncedStartIsRefused | scripts/cloud/benchmark_v2.py:2131-2168 | a run of two commands whose announced slot cannot be begun |
| BenchmarkSetEndStates.DeadEndExactly | scripts/cloud/benchmark_v2.py:2131-2189 | in every run, a READY set with a slot missing can begin no slot exactly when each missing slot precedes a valid one or is lost without an authorization |
| BenchmarkSetEndStates.DeadEndIsForEver | scripts/cloud/benchmark_v2.py:2131-2852 | from a dead end, no command of any continuation changes any file |
| BenchmarkSetEndStates.UnguidedRunIsStuck | scripts/cloud/benchmark_v2.py:2131-2168 | a run of four commands that ends in a dead end announcing FINALIZE |
| ObjectUpload.StoredObjectsNeverChange | scripts/cloud/fake-gcloud-storage.py:36-80 | under any interleaving of uploaders and failing calls, a stored object never changes |
| ObjectUpload.CreatedOnce | scripts/cloud/fake-gcloud-storage.py:45-80 | at most one create call for an address takes effect |
| ObjectUpload.ReceiptStaysVerifiable | scripts/cloud/benchmark_v2.py:4474-4489 | every verified entry passes the recorded-object check in every later state in which describe answers |
| ObjectUpload.UploadersAgree | scripts/cloud/benchmark_v2.py:4195-4227 | uploaders that verified one address hold the same entry, and each had planned that content |
| ObjectUpload.ReturnedReceipt | scripts/cloud/benchmark_v2.py:4195-4227 | an uploader that returns holds one verified entry for each planned object, in order, and each stays verifiable |
| ObjectUpload.UploadAndVerifyObject | scripts/cloud/benchmark_v2.py:4019-4139 | exactly when an upload returns, metadata syntax included, and that the entry describes the stored object and the plan |
| UploadChecks.MetadataExactly | scripts/cloud/benchmark_v2.py:4019-4051 | which metadata is accepted for an address, character by character |
| UploadChecks.UploadVerified | scripts/cloud/benchmark_v2.py:4054-4078 | an uploaded object is verified exactly when size, CRC32C, SHA-256 and any MD5 are the planned ones |
| UploadChecks.RecordedVerified | scripts/cloud/benchmark_v2.py:4474-4489 | a receipt entry is confirmed exactly by an answer with the same size, CRC32C, SHA-256, generation and MD5 |
| UploadChecks.FreeAddressIsUploaded | scripts/cloud/benchmark_v2.py:4120-4139 | an upload of an unchanged file to a free address returns, with which entry, and adds only its object |
| UploadChecks.ObjectIsUploaded | scripts/cloud/benchmark_v2.py:4120-4139 | among any other uploads, an entry is appended exactly when the file is as planned and the first object that a describe call sees is verified, whatever the create call reported; else the upload fails |
| SuiteGraph.Eliminate | scripts/ci_suites.py:340-345 | the loop ends without error exactly when the needs relation has no cycle, and its rounds put every suite after its needs |
| SuiteGraph.StuckHasCycle | scripts/ci_suites.py:343-344 | a non-empty remainder in which nothing is ready contains a cycle |
| SuiteRegistry.ExpandNames | scripts/ci_suites.py:294-308 | the loops over rows and axis members compute the job names, or fail on an unresolved or repeated one |
| JobTitles.ReplaceExactly | scripts/ci_suites.py:302-305 | replacing exchanges exactly the leftmost occurrences that do not overlap |
| JobTitles.NamesExactly | scripts/ci_suites.py:294-308 | the expanded names: the two meta jobs, then one for each suite, row or member with its values substituted column by column; and when there are none |
| JobTitles.TitleExample | scripts/ci_suites.py:302-305 | "Tests (${{ matrix.group }})" with group core is "Tests (core)" |
| SuiteRegistry.ValidateRegistry | scripts/ci_suites.py:311-354 | accepts exactly the described registries without a cycle, and orders them |
| RegistryRules.RegistryExactly | scripts/ci_suites.py:311-354 | the valid registries rule by rule, with all names and numbers written out and cycles as circles of needs |
| SuiteRecipes.SelectionExpands | scripts/ci_shadow_plan.py:151-162 | every selection from a valid registry has job names of its own |
| SuiteRecipes.SuitePlan | scripts/ci_shadow_plan.py:151-162 | exactly when a profile has a recipe, what it holds, and that it is closed under needs |
| RecipeRules.DocsAndFull | scripts/ci_shadow_plan.py:151-162 | the docs recipe runs nothing, the full one every suite in order |
| RecipeRules.Integration | scripts/ci_shadow_plan.py:151-162 | the integration recipe runs every suite in order but the canonical one |
| RecipeRules.ExpectedExactly | scripts/ci_shadow_plan.py:155 | the expected results by suite and profile |
| RecipeRules.JobsExactly | scripts/ci_shadow_plan.py:160-162 | the number of jobs: one for a plain suite, one for each row or member of a matrix |
| SuiteRecipes.ValidWithoutIntegration | scripts/ci_shadow_plan.py:151-162 | a valid registry in which another suite needs the canonical one |
| SuiteRecipes.ClosedUnderPaths | scripts/ci_shadow_plan.py:151-162 | a recipe also runs everything that is needed indirectly |
| ChangeRecords.ParseRecords | scripts/ci_shadow_plan.py:123-148 | the loop over header and path pairs equals the specified parser |
| ChangeRecords.ChangeCodec | scripts/ci_shadow_plan.py:131-146 | a header and a path give a record exactly when they are its printed parts |
| ChangeRecords.ParserInvertsPrinter | scripts/ci_shadow_plan.py:123-148 | accepts exactly the printed non-empty lists of well-formed records with distinct paths, each in one way |
| ChangeForms.ParsesExactly | scripts/ci_shadow_plan.py:123-148 | the parser accepts exactly the prints of non-empty lists of additions, deletions, modifications and type changes of files, links and submodules under distinct paths |
| ChangeForms.PathExactly | scripts/ci_shadow_plan.py:106-107 | the accepted paths: UTF-8 names between single slashes, none of them `.` or `..` |
| MetricComparison.OrderIrrelevant | scripts/cloud/benchmark_v2.py:2599-2604 | median and relative range do not depend on the order of the runs |
| MetricComparison.MedianOfArrangement | scripts/cloud/benchmark_v2.py:2599-2604 | the median is the middle value of any ascending arrangement of the runs, or the midpoint of its two middle values |
| MetricComparison.RelativeRangeOfRuns | scripts/cloud/benchmark_v2.py:2653-2669 | the relative range by the least and the greatest run, and that only a median of 0 has none |
| MetricComparison.MedianWithin | scripts/cloud/benchmark_v2.py:2653-2655 | the median lies between minimum and maximum |
| MetricComparison.RunOrderIrrelevant | scripts/cloud/benchmark_v2.py:3470-3505 | the order of the runs on either side changes no class |
| MetricComparison.MedianMonotone | scripts/cloud/benchmark_v2.py:2599-2604 | when every run got larger, so did the median |
| MetricComparison.RelativeRangeScales | scripts/cloud/benchmark_v2.py:2653-2669 | a positive unit factor changes no relative range |
| MetricComparison.UnitIrrelevant | scripts/cloud/benchmark_v2.py:3470-3505 | rescaling all values of both sides changes no class |
| MetricComparison.ConversionIrrelevant | scripts/cloud/benchmark_v2.py:426-435 | canonical unit conversion changes no class; a million nanoseconds and a thousand microseconds are one millisecond |
| MetricComparison.BetterIsNeverWorse | scripts/cloud/benchmark_v2.py:3470-3505 | with fixed variations a better candidate value never gets a worse class |
| MetricComparison.ClassByThresholds | scripts/cloud/benchmark_v2.py:3483-3492 | the five classes by quotient-free thresholds: 5 and 10 percent of the baseline against once and twice the larger variation |
| MetricComparison.ComparedByArrangement | scripts/cloud/benchmark_v2.py:3470-3505 | the class of two sets from ascending arrangements of their runs alone: medians, ranges and limits written out |
| DocumentDiffExactly.SameExactly | scripts/cloud/benchmark_v2.py:2244 | when two documents are equal in Python's sense: numbers, strings and null by value, `True` also with 1 and `False` also with 0, lists item by item, objects key by key, no two kinds together |
| DocumentDiffExactly.SameIsIdentical | scripts/cloud/benchmark_v2.py:2244 | without booleans, equal means identical |
| DocumentDiffExactly.ListedExactly | scripts/cloud/benchmark_v2.py:2241-2261 | the differences are exactly the values that differ at the deepest places both documents still have in common |
| DocumentDiffExactly.DifferencesInOrder | scripts/cloud/benchmark_v2.py:2248-2260 | they come in the order of their paths, keys by code points and positions by number, no path twice |
| DocumentDiffExactly.RenderedStep | scripts/cloud/benchmark_v2.py:2251-2259 | how a path string grows by a key or a position |
| DocumentDiff.EmptyExactlyWhenEqual | scripts/cloud/benchmark_v2.py:2241-2261 | there is no difference exactly when the documents are equal in Python's sense, at any depth |
| DocumentDiff.ApplyYieldsCandidate | scripts/cloud/benchmark_v2.py:2241-2261 | writing the listed values into the reference, one after the other, yields a document equal to the candidate |
| DocumentDiffExactly.ApplyYieldsCandidateItself | scripts/cloud/benchmark_v2.py:2241-2261 | without booleans it is the candidate itself |
| DocumentDiff.EachIsReal | scripts/cloud/benchmark_v2.py:2241-2261 | each difference names what the two documents hold at its path, and these differ |
| DocumentDiff.Collect | scripts/cloud/benchmark_v2.py:2241-2261 | the recursion with its accumulating loops and rendered path strings equals the specification |
| StringOrder.BeforeExactly | scripts/cloud/benchmark_v2.py:2248 | strings are ordered where they first differ, a prefix first |
| Numerals.DecimalExactly | scripts/cloud/benchmark_v2.py:2259 | a position is shown as its one decimal numeral without leading zero |

## Left out

- SHA-256, MD5, base64, JSON text and regular expressions as such; hashes are arbitrary functions and file names are represented by what their patterns capture.
- Real file-system behaviour: symbolic links, changes while a file is read, partial writes of one file; writes are atomic and immutable files are maps that are written once.
- Phase 1 to 3 directory inspection, and the single-generation store inspection of format (1,1): the same checks on fewer files.
- The write-ahead-log reader of format (1,1): the (1,0) frame loop without payload inspection and without torn tails.
- The checksum loops run on lists of 32 bits, least significant first, not on machine words (`CrcWords.ShiftOnWords` relates the two); the final value is compared as a number.
- ContentIdentity.PreimageInjective: takes the payloads in name order; that sorting a dictionary by name gives such a list is not modelled.
- The plan's own inputs (presets, controls, source revision), the shape of evidence documents and how a compatibility key is computed: `World` is any fixed function of the member.
- Attempt files are read back in numeric order; the source sorts their names, which is the same up to 999 attempts.
- ObjectUpload.UploadAndVerifyObject: describe output that is not a JSON object, and the upload of the receipt itself, are not modelled.
- Rounding: medians, ranges and percentages are exact reals.
- Health-metric consensus and categorical observations in `classify_metric`: fixed tables of literals.
- DocumentDiff.EmptyExactlyWhenEqual: numbers are reals, so NaN, which Python holds unequal to itself, is not a value here.
- SuiteRegistry.ValidateRegistry: the registry is already parsed; the checks on JSON types, key sets and duplicate keys of its text are not modelled.
- The workflow-text checks, health and retry scripts, evidence builders and command-line parsing.
