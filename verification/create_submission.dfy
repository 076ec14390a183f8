/** The `create_submission` tool (src/tools/create_submission.cpp): the
    protect pipeline. It encrypts a student's file under a fresh content
    key, wraps that key under the master key, writes the metadata record
    next to the ciphertext and registers the submission in the database,
    stopping at the first step that fails. */
module CreateSubmission {
  import opened Base
  import opened Text
  import Hex
  import opened Codecs
  import opened Storage
  import opened Primitives
  import opened Config
  import KeyProtect
  import FileCrypto
  import opened Submissions

  const ContentKeyBytes := 32
  const ContentIvBytes := 16
  const UuidBytes := 16
  const ConfigPath := "config/config.json"

  // ---------------------------------------------------------------------------
  // Arguments

  /** The command line once read: `<input_file> <student_id>
      <assignment_id> [original_name]`. */
  datatype Args = Args(inputFile: string, studentId: int, assignmentId: int, originalName: string)

  /** Reads `argv` (program name first): fewer than three arguments is a
      usage error; the ids go through `std::atoi`; the original name is the
      fourth argument, or else the file name of the input path. */
  function ParseArgs(argv: seq<string>): (r: Option<Args>)
    ensures r.None? <==> |argv| < 4
    ensures r.Some? ==> r.value.inputFile == argv[1]
    ensures r.Some? ==> r.value.studentId == Atoi(argv[2]) && r.value.assignmentId == Atoi(argv[3])
    ensures r.Some? && |argv| >= 5 ==> r.value.originalName == argv[4]
    ensures r.Some? && |argv| == 4 ==> r.value.originalName == FileName(argv[1]) && '/' !in r.value.originalName
  {
    if |argv| < 4 then None
    else Some(Args(argv[1], Atoi(argv[2]), Atoi(argv[3]), if |argv| >= 5 then argv[4] else FileName(argv[1])))
  }

  // ---------------------------------------------------------------------------
  // Storage names

  /** A uuid is the lower-case base16 text of 16 bytes. */
  ghost predicate IsUuid(uuid: string) {
    exists v :: |v| == UuidBytes && uuid == Hex.Encode(v)
  }

  /** `make_uuid_hex()`: 16 random bytes in lower-case base16. */
  method MakeUuidHex() returns (uuid: string)
    ensures IsUuid(uuid) && |uuid| == 2 * UuidBytes
  {
    var v := FileCrypto.GenRandomBytes(UuidBytes);
    uuid := Hex.HexEncode(v);
  }

  /** The name the ciphertext is stored and registered under. */
  function DataFileName(uuid: string): string { uuid + ".dat" }
  function DataRel(fileName: string): string { "files/" + fileName }
  function MetaRel(uuid: string): string { "metadata/" + uuid + ".json" }

  /** The metadata of a stored file is found again from the registered file
      name: its base name is the uuid. */
  lemma UuidOfDataFileName(uuid: string)
    requires IsUuid(uuid)
    ensures BaseName(DataFileName(uuid)) == uuid
  {
    var v :| |v| == UuidBytes && uuid == Hex.Encode(v);
    assert '/' !in uuid && '.' !in uuid by {
      forall i | 0 <= i < |uuid| ensures uuid[i] != '/' && uuid[i] != '.' {
        assert Hex.IsLowerHexDigit(uuid[i]);
      }
    }
    assert DataFileName(uuid) == uuid + "." + "dat";
    BaseNameOfStorageName(uuid, "dat");
  }

  /** Ciphertexts and metadata live in different directories, so the two
      files of one submission never coincide. */
  lemma StorageAreasDistinct(root: string, dataName: string, uuid: string)
    ensures StoragePath(root, DataRel(dataName)) != StoragePath(root, MetaRel(uuid))
  {
    var i := |root| + 1;
    assert StoragePath(root, DataRel(dataName))[i] == 'f';
    assert StoragePath(root, MetaRel(uuid))[i] == 'm';
  }

  // ---------------------------------------------------------------------------
  // Metadata

  /** The metadata object: the owner, the original name and, base64-encoded,
      the content IV and the wrapped key with its nonce and tag. */
  function Metadata(b64: Base64, ownerId: int, originalName: string, iv: Bytes,
                    keyEncrypted: Bytes, keyIv: Bytes, keyTag: Bytes): (m: map<string, Json>)
    ensures m.Keys == {"owner_id", "original_name", "iv", "key_encrypted", "key_iv", "key_tag"}
    ensures m["owner_id"] == JNumber(ownerId as real) && m["original_name"] == JString(originalName)
    ensures m["iv"].JString? && b64.decode(m["iv"].s) == iv
    ensures m["key_encrypted"].JString? && b64.decode(m["key_encrypted"].s) == keyEncrypted
    ensures m["key_iv"].JString? && b64.decode(m["key_iv"].s) == keyIv
    ensures m["key_tag"].JString? && b64.decode(m["key_tag"].s) == keyTag
  {
    map["owner_id" := JNumber(ownerId as real),
        "original_name" := JString(originalName),
        "iv" := JString(b64.encode(iv)),
        "key_encrypted" := JString(b64.encode(keyEncrypted)),
        "key_iv" := JString(b64.encode(keyIv)),
        "key_tag" := JString(b64.encode(keyTag))]
  }

  /** The metadata that records a content key wrapped under `master` with a
      12-byte nonce. */
  function WrappedMetadata(gcm: Aes256Gcm, b64: Base64, master: Bytes, ownerId: int, originalName: string,
                           fileKey: Bytes, fileIv: Bytes, keyIv: Bytes): map<string, Json>
  {
    var enc := gcm.encrypt(master, keyIv, fileKey);
    Metadata(b64, ownerId, originalName, fileIv, enc, keyIv, gcm.tag(master, keyIv, enc))
  }

  /** `dat` is a frame of `plain` under some 32-byte content key, and
      `metaText` is what was written of the metadata recording that key
      wrapped under `master`. */
  ghost predicate Protects(gcm: Aes256Gcm, box: SecretBox, b64: Base64, json: JsonText, quota: nat,
                           master: Bytes, plain: Bytes, ownerId: int, originalName: string,
                           dat: Bytes, metaText: Bytes)
  {
    exists fileKey: Bytes, fileIv: Bytes, keyIv: Bytes ::
      && |fileKey| == ContentKeyBytes && |fileIv| == ContentIvBytes && |keyIv| == KeyProtect.IvBytes
      && FileCrypto.IsFrame(box, fileKey, plain, dat)
      && var text := json.write(WrappedMetadata(gcm, b64, master, ownerId, originalName, fileKey, fileIv, keyIv));
         metaText == text[..Min(|text|, quota)]
  }

  /** `dat` is stored at `path` in `files` and is a frame of `plain` under
      some 32-byte content key. */
  ghost predicate FrameStored(box: SecretBox, files: map<string, Bytes>, path: string, plain: Bytes) {
    path in files
    && exists key :: |key| == ContentKeyBytes && FileCrypto.IsFrame(box, key, plain, files[path])
  }

  // ---------------------------------------------------------------------------
  // The pipeline

  /** Where the tool stopped; each failure stands for the message it prints
      to standard error, `Created` for the line it prints on success. */
  datatype Outcome =
    | SodiumInitFailed
    | Usage
    | ConfigLoadFailed
    | StorageLayoutFailed
    | DbOpenFailed
    | EncryptFailed(err: string)
    | WrapFailed(err: string)
    | MetadataOpenFailed
    | InsertFailed
    | Created(uuid: string, outPath: string)

  /** The failures of the storing steps, after the ciphertext was written. */
  predicate AfterCiphertext(o: Outcome) {
    o.WrapFailed? || o.MetadataOpenFailed?
  }

  /** Encrypting `input` into a file that can be opened for writing
      (`writable`) cannot fail: the input is readable, secretbox seals it
      under every 32-byte key and 24-byte nonce, and the whole frame fits
      the write limit. */
  ghost predicate CanEncrypt(box: SecretBox, input: Option<Bytes>, writable: bool, quota: nat) {
    && input.Some? && writable
    && FileCrypto.FrameOverhead + |input.value| <= quota
    && forall k, n :: |k| == ContentKeyBytes && |n| == SecretBoxNonceBytes ==> box.seal(k, n, input.value).Some?
  }

  /** Each failure of the storing steps has its cause: the encryption could
      fail, an OpenSSL step of the wrap failed, or the metadata path cannot
      be opened for writing. */
  ghost predicate StoreFailureCaused(o: Outcome, box: SecretBox, gcmFaults: set<KeyProtect.GcmStep>,
                                     input: Option<Bytes>, unwritable: set<string>, quota: nat,
                                     dat: string, meta: string) {
    && (o.EncryptFailed? ==> !CanEncrypt(box, input, dat !in unwritable, quota))
    && (o.WrapFailed? ==> KeyProtect.EncryptFault(gcmFaults).Some?)
    && (o.MetadataOpenFailed? ==> meta in unwritable)
  }

  /** The outcomes reached once the ciphertext and the metadata are both
      written. */
  predicate MetadataWritten(o: Outcome) {
    o.InsertFailed? || o.Created?
  }

  /** The files after the tool stopped with `o`, given the files `before`,
      the arguments `args` and the input file's contents `input`. No file
      changes before the encryption step; an encryption failure touches at
      most the ciphertext file `dat`; a later failure leaves the ciphertext;
      once the metadata was written, the ciphertext at `dat` and the
      metadata at `meta` are the only changes and protect the input. */
  ghost predicate FilesAfter(o: Outcome, gcm: Aes256Gcm, box: SecretBox, b64: Base64, json: JsonText,
                             quota: nat, master: Bytes, args: Option<Args>, input: Option<Bytes>,
                             dat: string, meta: string, before: map<string, Bytes>, after: map<string, Bytes>)
  {
    if o.EncryptFailed? then
      after - {dat} == before - {dat}
    else if AfterCiphertext(o) then
      && input.Some? && dat in after
      && after == before[dat := after[dat]]
      && FrameStored(box, after, dat, input.value)
    else if MetadataWritten(o) then
      && args.Some? && input.Some? && dat in after && meta in after
      && after == before[dat := after[dat]][meta := after[meta]]
      && Protects(gcm, box, b64, json, quota, master, input.value,
                  args.value.studentId, args.value.originalName, after[dat], after[meta])
    else
      after == before
  }

  /** The `submissions` rows after the tool stopped with `o`: one new row,
      with the next id and no grade, exactly when it succeeded. */
  ghost predicate RowsAfter(o: Outcome, args: Option<Args>, uuid: string,
                            before: seq<SubmissionRow>, nextId: int, after: seq<SubmissionRow>)
  {
    if o.Created? then
      args.Some?
      && after == before + [SubmissionRow(nextId, args.value.assignmentId, args.value.studentId,
                                          DataFileName(uuid), args.value.originalName, "", "")]
    else
      after == before
  }

  /** Lines 85-98 of `main`: name the submission and encrypt the input into
      `files/<uuid>.dat` under a fresh 32-byte content key and a 16-byte IV.
      A failure touches no file but the ciphertext file; success leaves
      there a frame of the input's bytes under that key, and the step cannot
      fail when `CanEncrypt` holds. */
  method EncryptInput(root: string, fs: FileStore, box: SecretBox, a: Args)
    returns (ok: bool, err: string, uuid: string, fileKey: Bytes, fileIv: Bytes)
    modifies fs`files
    ensures IsUuid(uuid) && |fileKey| == ContentKeyBytes && |fileIv| == ContentIvBytes
    ensures var dat := StoragePath(root, DataRel(DataFileName(uuid)));
            !ok ==> fs.files - {dat} == old(fs.files) - {dat}
    ensures var dat := StoragePath(root, DataRel(DataFileName(uuid)));
            ok ==> && old(fs.Read(a.inputFile)).Some? && dat in fs.files
                   && fs.files == old(fs.files)[dat := fs.files[dat]]
                   && FileCrypto.IsFrame(box, fileKey, old(fs.Read(a.inputFile)).value, fs.files[dat])
    ensures var dat := StoragePath(root, DataRel(DataFileName(uuid)));
            CanEncrypt(box, old(fs.Read(a.inputFile)), dat !in fs.unwritable, fs.quota) ==> ok
  {
    uuid := MakeUuidHex();
    var outPath := StoragePath(root, DataRel(DataFileName(uuid)));
    fileKey := FileCrypto.GenRandomBytes(ContentKeyBytes);
    fileIv := FileCrypto.GenRandomBytes(ContentIvBytes);
    ok, err := FileCrypto.Aes256CbcEncrypt(box, fs, true, fileKey, fileIv, a.inputFile, outPath, "");
  }

  /** Lines 85-126 of `main`: name the submission, encrypt the input into
      `files/<uuid>.dat` under a fresh content key, wrap that key under
      `master` and write the metadata record. Each step runs only when the
      one before it succeeded. `Created` here means both files were
      written; the database row is not yet added. */
  method StoreProtected(root: string, master: Bytes, fs: FileStore, json: JsonText, b64: Base64,
                        box: SecretBox, gcm: Aes256Gcm, gcmFaults: set<KeyProtect.GcmStep>, a: Args)
    returns (outcome: Outcome, uuid: string)
    requires |master| == MasterKeyBytes
    modifies fs`files
    ensures IsUuid(uuid)
    ensures outcome.EncryptFailed? || AfterCiphertext(outcome) || outcome.Created?
    ensures outcome.Created? ==> outcome == Created(uuid, StoragePath(root, DataRel(DataFileName(uuid))))
    ensures StoreFailureCaused(outcome, box, gcmFaults, old(fs.Read(a.inputFile)), fs.unwritable, fs.quota,
                               StoragePath(root, DataRel(DataFileName(uuid))), StoragePath(root, MetaRel(uuid)))
    ensures FilesAfter(outcome, gcm, box, b64, json, fs.quota, master, Some(a), old(fs.Read(a.inputFile)),
                       StoragePath(root, DataRel(DataFileName(uuid))), StoragePath(root, MetaRel(uuid)),
                       old(fs.files), fs.files)
  {
    var encrypted, err, fileKey, fileIv;
    encrypted, err, uuid, fileKey, fileIv := EncryptInput(root, fs, box, a);
    var outPath := StoragePath(root, DataRel(DataFileName(uuid)));
    var metaPath := StoragePath(root, MetaRel(uuid));
    if !encrypted {
      return EncryptFailed(err), uuid;
    }
    ghost var plain := old(fs.Read(a.inputFile)).value;
    ghost var afterEncrypt := fs.files;
    StorageAreasDistinct(root, DataFileName(uuid), uuid);

    var wrapped, encKey, keyIv, keyTag;
    wrapped, encKey, keyIv, keyTag, err :=
      KeyProtect.EncryptWithAesGcm(gcm, gcmFaults, master, fileKey, [], [], [], err);
    if !wrapped {
      outcome := WrapFailed(err);
      FilesAfterCiphertext(outcome, gcm, box, b64, json, fs.quota, master, a, plain, fileKey, outPath, metaPath,
                           old(fs.files), fs.files);
      return;
    }

    var meta := Metadata(b64, a.studentId, a.originalName, fileIv, encKey, keyIv, keyTag);
    assert meta == WrappedMetadata(gcm, b64, master, a.studentId, a.originalName, fileKey, fileIv, keyIv);
    var metaOpened, written := fs.Write(metaPath, json.write(meta));
    if !metaOpened {
      outcome := MetadataOpenFailed;
      FilesAfterCiphertext(outcome, gcm, box, b64, json, fs.quota, master, a, plain, fileKey, outPath, metaPath,
                           old(fs.files), fs.files);
      return;
    }
    // the number of bytes written is not checked
    outcome := Created(uuid, outPath);
    FilesAfterRecorded(outcome, gcm, box, b64, json, fs.quota, master, a, plain, fileKey, fileIv, keyIv,
                       outPath, metaPath, old(fs.files), afterEncrypt, fs.files);
  }

  /** Once the ciphertext is stored, a failure before the metadata is
      written leaves the files as `FilesAfter` describes. */
  lemma FilesAfterCiphertext(o: Outcome, gcm: Aes256Gcm, box: SecretBox, b64: Base64, json: JsonText, quota: nat,
                             master: Bytes, a: Args, plain: Bytes, fileKey: Bytes, dat: string, meta: string,
                             before: map<string, Bytes>, after: map<string, Bytes>)
    requires AfterCiphertext(o) && |fileKey| == ContentKeyBytes
    requires dat in after && after == before[dat := after[dat]]
    requires FileCrypto.IsFrame(box, fileKey, plain, after[dat])
    ensures FilesAfter(o, gcm, box, b64, json, quota, master, Some(a), Some(plain), dat, meta, before, after)
  {
  }

  /** Once the ciphertext is stored and the metadata written, the files are
      as `FilesAfter` describes for `MetadataWritten` outcomes. */
  lemma FilesAfterRecorded(o: Outcome, gcm: Aes256Gcm, box: SecretBox, b64: Base64, json: JsonText, quota: nat,
                           master: Bytes, a: Args, plain: Bytes, fileKey: Bytes, fileIv: Bytes, keyIv: Bytes,
                           dat: string, meta: string, before: map<string, Bytes>,
                           afterEncrypt: map<string, Bytes>, after: map<string, Bytes>)
    requires MetadataWritten(o) && dat != meta
    requires |fileKey| == ContentKeyBytes && |fileIv| == ContentIvBytes && |keyIv| == KeyProtect.IvBytes
    requires dat in afterEncrypt && afterEncrypt == before[dat := afterEncrypt[dat]]
    requires FileCrypto.IsFrame(box, fileKey, plain, afterEncrypt[dat])
    requires var text := json.write(WrappedMetadata(gcm, b64, master, a.studentId, a.originalName, fileKey, fileIv, keyIv));
             after == afterEncrypt[meta := text[..Min(|text|, quota)]]
    ensures FilesAfter(o, gcm, box, b64, json, quota, master, Some(a), Some(plain), dat, meta, before, after)
  {
    assert after[dat] == afterEncrypt[dat];
  }

  /** Lines 85-143 of `main`, once the configuration has loaded and the
      database is open: store the protected file and its metadata, then
      register the submission. The row is added only after the metadata
      file was opened and written. */
  method StoreAndRegister(root: string, master: Bytes, fs: FileStore, json: JsonText, b64: Base64,
                          box: SecretBox, gcm: Aes256Gcm, gcmFaults: set<KeyProtect.GcmStep>,
                          subs: SubmissionsTable, insertAccepted: bool, a: Args)
    returns (outcome: Outcome, uuid: string)
    requires |master| == MasterKeyBytes && subs.Valid()
    modifies fs`files, subs
    ensures subs.Valid() && IsUuid(uuid)
    ensures outcome.EncryptFailed? || AfterCiphertext(outcome) || MetadataWritten(outcome)
    ensures outcome.Created? ==> outcome == Created(uuid, StoragePath(root, DataRel(DataFileName(uuid))))
    ensures outcome.InsertFailed? ==> !insertAccepted
    ensures StoreFailureCaused(outcome, box, gcmFaults, old(fs.Read(a.inputFile)), fs.unwritable, fs.quota,
                               StoragePath(root, DataRel(DataFileName(uuid))), StoragePath(root, MetaRel(uuid)))
    ensures FilesAfter(outcome, gcm, box, b64, json, fs.quota, master, Some(a), old(fs.Read(a.inputFile)),
                       StoragePath(root, DataRel(DataFileName(uuid))), StoragePath(root, MetaRel(uuid)),
                       old(fs.files), fs.files)
    ensures RowsAfter(outcome, Some(a), uuid, old(subs.rows), old(subs.nextId), subs.rows)
    ensures !outcome.Created? ==> subs.nextId == old(subs.nextId)
  {
    outcome, uuid := StoreProtected(root, master, fs, json, b64, box, gcm, gcmFaults, a);
    if !outcome.Created? {
      return;
    }
    var inserted := subs.Create(insertAccepted, a.assignmentId, a.studentId, DataFileName(uuid), a.originalName);
    if !inserted {
      outcome := InsertFailed;
    }
  }

  /** What the process environment decides: whether libsodium starts,
      whether the storage directories can be prepared
      (`ensureStorageLayout`, whose definition is not part of this model),
      whether the database connection opens and whether
      `sp_create_submission` accepts the row. */
  datatype Host = Host(sodiumInit: bool, storageReady: bool, dbOpens: bool, insertAccepted: bool)

  /** The outcomes reached before anything is written. */
  predicate Early(o: Outcome) {
    o.SodiumInitFailed? || o.Usage? || o.ConfigLoadFailed? || o.StorageLayoutFailed? || o.DbOpenFailed?
  }

  /** Lines 48-83 of `main`: start libsodium, read the arguments, load the
      configuration, prepare the storage and open the database, stopping at
      the first failure. Only loading the configuration changes anything. */
  method Prepare(host: Host, argv: seq<string>, cfg: ConfigManager, fs: FileStore, json: JsonText)
    returns (stop: Option<Outcome>, a: Args)
    requires cfg.Valid()
    modifies cfg
    ensures cfg.Valid()
    ensures stop.Some? ==> Early(stop.value)
    ensures (stop == Some(SodiumInitFailed)) <==> !host.sodiumInit
    ensures (stop == Some(Usage)) <==> host.sodiumInit && |argv| < 4
    ensures stop == Some(SodiumInitFailed) || stop == Some(Usage) ==> cfg.Current() == old(cfg.Current())
    ensures stop == Some(ConfigLoadFailed) ==> !LoadOutcome(fs.Read(ConfigPath), json, old(cfg.Current())).0
    ensures stop == Some(StorageLayoutFailed) ==> !host.storageReady
    ensures stop == Some(DbOpenFailed) ==> !host.dbOpens
    ensures !(stop == Some(SodiumInitFailed) || stop == Some(Usage)) ==>
              && ParseArgs(argv) == Some(a)
              && cfg.Current() == LoadOutcome(fs.Read(ConfigPath), json, old(cfg.Current())).1
    ensures stop.None? ==> LoadOutcome(fs.Read(ConfigPath), json, old(cfg.Current())).0
                           && |cfg.master| == MasterKeyBytes
  {
    a := Args("", 0, 0, "");
    if !host.sodiumInit {
      return Some(SodiumInitFailed), a;
    }
    var args := ParseArgs(argv);
    if args.None? {
      return Some(Usage), a;
    }
    a := args.value;
    var loaded := cfg.Load(fs, json, ConfigPath);
    if !loaded {
      return Some(ConfigLoadFailed), a;
    }
    if !host.storageReady {
      return Some(StorageLayoutFailed), a;
    }
    if !host.dbOpens {
      return Some(DbOpenFailed), a;
    }
    stop := None;
  }

  /** What `main` promises, over the values it reads and writes: the
      configuration file's contents `configText`, the settings `prior` before
      and `loaded` after, the input file's contents `input`, and the files
      and rows before and after. Each early outcome names the check that
      failed; past them the configuration has loaded and a uuid was drawn;
      `FilesAfter` and `RowsAfter` say what was written. */
  ghost predicate Ran(outcome: Outcome, host: Host, argv: seq<string>, uuid: string, json: JsonText, b64: Base64,
                      box: SecretBox, gcm: Aes256Gcm, gcmFaults: set<KeyProtect.GcmStep>, unwritable: set<string>,
                      quota: nat, root: string, configText: Option<Bytes>,
                      prior: Settings, loaded: Settings, input: Option<Bytes>,
                      filesBefore: map<string, Bytes>, filesAfter: map<string, Bytes>,
                      rowsBefore: seq<SubmissionRow>, nextId: int, rowsAfter: seq<SubmissionRow>)
  {
    && (outcome.SodiumInitFailed? <==> !host.sodiumInit)
    && (outcome.Usage? <==> host.sodiumInit && |argv| < 4)
    && ((outcome.SodiumInitFailed? || outcome.Usage?) ==> loaded == prior)
    && (outcome.ConfigLoadFailed? ==> !LoadOutcome(configText, json, prior).0)
    && (outcome.StorageLayoutFailed? ==> !host.storageReady)
    && (outcome.DbOpenFailed? ==> !host.dbOpens)
    && (outcome.InsertFailed? ==> !host.insertAccepted)
    && (!Early(outcome) ==> LoadOutcome(configText, json, prior).0 && IsUuid(uuid) && |argv| >= 4)
    && (outcome.Created? ==> outcome == Created(uuid, StoragePath(root, DataRel(DataFileName(uuid)))))
    && StoreFailureCaused(outcome, box, gcmFaults, input, unwritable, quota,
                          StoragePath(root, DataRel(DataFileName(uuid))), StoragePath(root, MetaRel(uuid)))
    && FilesAfter(outcome, gcm, box, b64, json, quota, loaded.master, ParseArgs(argv), input,
                  StoragePath(root, DataRel(DataFileName(uuid))), StoragePath(root, MetaRel(uuid)),
                  filesBefore, filesAfter)
    && RowsAfter(outcome, ParseArgs(argv), uuid, rowsBefore, nextId, rowsAfter)
  }

  /** A stop in `Prepare` meets `Ran` with nothing written. */
  lemma RanEarly(outcome: Outcome, host: Host, argv: seq<string>, json: JsonText, b64: Base64,
                 box: SecretBox, gcm: Aes256Gcm, gcmFaults: set<KeyProtect.GcmStep>, unwritable: set<string>,
                 quota: nat, root: string, configText: Option<Bytes>,
                 prior: Settings, loaded: Settings, input: Option<Bytes>,
                 files: map<string, Bytes>, rows: seq<SubmissionRow>, nextId: int)
    requires Early(outcome)
    requires outcome == SodiumInitFailed <==> !host.sodiumInit
    requires outcome == Usage <==> host.sodiumInit && |argv| < 4
    requires outcome == SodiumInitFailed || outcome == Usage ==> loaded == prior
    requires outcome == ConfigLoadFailed ==> !LoadOutcome(configText, json, prior).0
    requires outcome == StorageLayoutFailed ==> !host.storageReady
    requires outcome == DbOpenFailed ==> !host.dbOpens
    ensures Ran(outcome, host, argv, "", json, b64, box, gcm, gcmFaults, unwritable, quota, root, configText,
                prior, loaded, input, files, files, rows, nextId, rows)
  {
  }

  /** A run that got past `Prepare` meets `Ran` when `StoreAndRegister`
      kept its promises. */
  lemma RanLate(outcome: Outcome, host: Host, argv: seq<string>, a: Args, uuid: string, json: JsonText, b64: Base64,
                box: SecretBox, gcm: Aes256Gcm, gcmFaults: set<KeyProtect.GcmStep>, unwritable: set<string>,
                quota: nat, root: string, configText: Option<Bytes>,
                prior: Settings, loaded: Settings, input: Option<Bytes>,
                filesBefore: map<string, Bytes>, filesAfter: map<string, Bytes>,
                rowsBefore: seq<SubmissionRow>, nextId: int, rowsAfter: seq<SubmissionRow>)
    requires host.sodiumInit && ParseArgs(argv) == Some(a)
    requires LoadOutcome(configText, json, prior).0 && loaded == LoadOutcome(configText, json, prior).1
    requires IsUuid(uuid)
    requires outcome.EncryptFailed? || AfterCiphertext(outcome) || MetadataWritten(outcome)
    requires outcome.Created? ==> outcome == Created(uuid, StoragePath(root, DataRel(DataFileName(uuid))))
    requires outcome.InsertFailed? ==> !host.insertAccepted
    requires StoreFailureCaused(outcome, box, gcmFaults, input, unwritable, quota,
                                StoragePath(root, DataRel(DataFileName(uuid))), StoragePath(root, MetaRel(uuid)))
    requires FilesAfter(outcome, gcm, box, b64, json, quota, loaded.master, Some(a), input,
                        StoragePath(root, DataRel(DataFileName(uuid))), StoragePath(root, MetaRel(uuid)),
                        filesBefore, filesAfter)
    requires RowsAfter(outcome, Some(a), uuid, rowsBefore, nextId, rowsAfter)
    ensures Ran(outcome, host, argv, uuid, json, b64, box, gcm, gcmFaults, unwritable, quota, root, configText,
                prior, loaded, input, filesBefore, filesAfter, rowsBefore, nextId, rowsAfter)
  {
  }

  /** `main`. The exit code is 0 exactly when every step succeeded, and
      every failure has its cause in `Ran`. Nothing is
      written before the configuration has loaded, the storage is ready and
      the database is open; the database row is added only after the
      metadata file was opened and written. */
  method Run(host: Host, argv: seq<string>, cfg: ConfigManager, fs: FileStore, json: JsonText,
             b64: Base64, box: SecretBox, gcm: Aes256Gcm, gcmFaults: set<KeyProtect.GcmStep>,
             subs: SubmissionsTable)
    returns (exit: int, outcome: Outcome, uuid: string)
    requires cfg.Valid() && subs.Valid()
    modifies cfg, fs`files, subs
    ensures cfg.Valid() && subs.Valid()
    ensures exit == (if outcome.Created? then 0 else 1)
    ensures Ran(outcome, host, argv, uuid, json, b64, box, gcm, gcmFaults, fs.unwritable, fs.quota,
                cfg.storageRoot, old(fs.Read(ConfigPath)), old(cfg.Current()), cfg.Current(),
                if |argv| >= 4 then old(fs.Read(argv[1])) else None,
                old(fs.files), fs.files, old(subs.rows), old(subs.nextId), subs.rows)
  {
    ghost var configText := fs.Read(ConfigPath);
    ghost var prior := cfg.Current();
    ghost var files := fs.files;
    ghost var rows, nextId := subs.rows, subs.nextId;
    var stop, a := Prepare(host, argv, cfg, fs, json);
    if stop.Some? {
      RanEarly(stop.value, host, argv, json, b64, box, gcm, gcmFaults, fs.unwritable, fs.quota, cfg.storageRoot,
               configText, prior, cfg.Current(), if |argv| >= 4 then fs.Read(argv[1]) else None, files, rows, nextId);
      return 1, stop.value, "";
    }
    // `load` succeeded, so the master key has 32 bytes and the source's
    // empty-key check after the encryption never fires
    ghost var input := fs.Read(a.inputFile);
    ghost var loaded := cfg.Current();
    outcome, uuid := StoreAndRegister(cfg.storageRoot, cfg.master, fs, json, b64, box, gcm, gcmFaults,
                                      subs, host.insertAccepted, a);
    RanLate(outcome, host, argv, a, uuid, json, b64, box, gcm, gcmFaults, fs.unwritable, fs.quota, cfg.storageRoot,
            configText, prior, loaded, input, files, fs.files, rows, nextId, subs.rows);
    exit := if outcome.Created? then 0 else 1;
  }
}
