/** The teacher's window (src/gui/TeacherWindow.cpp): the guard on choosing
    an assignment, the grade/feedback cell of the submissions table, and the
    reveal pipeline behind "download submission", which finds a
    submission's metadata, unwraps its content key under the master key and
    decrypts the stored file into the temporary directory. */
module Teacher {
  import opened Base
  import opened Text
  import opened Codecs
  import opened Storage
  import opened Primitives
  import opened Config
  import KeyProtect
  import FileCrypto
  import opened Submissions
  import CreateSubmission
  import opened Reveal

  // ---------------------------------------------------------------------------
  // The grade/feedback cell

  /** The "grade / feedback" cell: the separator is put in only when both
      parts are present. */
  function GradeCell(grade: string, feedback: string): (gf: string)
    ensures feedback == "" ==> gf == grade
    ensures grade == "" ==> gf == feedback
    ensures grade != "" && feedback != "" ==> gf == grade + " / " + feedback
  {
    var gf := grade;
    if feedback == "" then gf
    else (if gf == "" then gf else gf + " / ") + feedback
  }

  // ---------------------------------------------------------------------------
  // Names

  /** The metadata path the window derives from a registered file name:
      `metadata/<baseName(file_path)>.json` under the storage root. */
  function MetaPathOf(root: string, filePath: string): string {
    StoragePath(root, "metadata/" + BaseName(filePath) + ".json")
  }

  /** The reveal side finds the metadata the protect side wrote for the
      same submission. */
  lemma MetaPathOfDataFile(root: string, uuid: string)
    requires CreateSubmission.IsUuid(uuid)
    ensures MetaPathOf(root, CreateSubmission.DataFileName(uuid)) == StoragePath(root, CreateSubmission.MetaRel(uuid))
  {
    CreateSubmission.UuidOfDataFileName(uuid);
  }

  /** The original name reduced to its file name, with every '/' and '\'
      turned into '_'. */
  function SafeName(originalName: string): (r: string)
    ensures '/' !in r && '\\' !in r
  {
    ReplaceAll(ReplaceAll(FileName(originalName), '/', '_'), '\\', '_')
  }

  /** A name without '\' is reduced to its file name and nothing else. */
  lemma SafeNameOfPlainName(originalName: string)
    requires '\\' !in originalName
    ensures SafeName(originalName) == FileName(originalName)
  {
    var name := FileName(originalName);
    var tail := originalName[|originalName| - |name|..];
    assert name == tail;
    assert '\\' !in tail by {
      forall i | 0 <= i < |tail| ensures tail[i] != '\\' {
        assert tail[i] in originalName;
      }
    }
    ReplaceAllAbsent(name, '/', '_');
    ReplaceAllAbsent(name, '\\', '_');
  }

  /** `edudesk_sub_<subId>_<safeName>`, the temporary file's name. */
  function TempName(subId: int, originalName: string): string {
    "edudesk_sub_" + IntToString(subId) + "_" + SafeName(originalName)
  }

  /** The temporary name has no '/', so the file lands directly in the
      temporary directory whatever the original name was. */
  lemma TempNameIsFlat(subId: int, originalName: string)
    ensures '/' !in TempName(subId, originalName)
  {
    var digits := IntToString(subId);
    assert '/' !in digits by {
      forall i | 0 <= i < |digits| ensures digits[i] != '/' {
        DecimalHasNoSlash(subId, i);
      }
    }
    var prefix := "edudesk_sub_";
    assert '/' !in prefix;
    LacksConcat(prefix, digits, '/');
    LacksConcat(prefix + digits, "_", '/');
    LacksConcat(prefix + digits + "_", SafeName(originalName), '/');
  }

  lemma LacksConcat(a: string, b: string, c: char)
    requires c !in a && c !in b
    ensures c !in a + b
  {
  }

  lemma DecimalHasNoSlash(n: int, i: int)
    requires 0 <= i < |IntToString(n)|
    ensures IntToString(n)[i] != '/'
  {
    if n >= 0 {
      assert IsDigit(NatToString(n)[i]);
    } else if i > 0 {
      assert IntToString(n)[i] == NatToString(-n)[i - 1];
      assert IsDigit(NatToString(-n)[i - 1]);
    }
  }

  // ---------------------------------------------------------------------------
  // The reveal pipeline

  /** Where "download submission" stopped; each failure stands for the
      message box it shows. */
  datatype Download =
    | NoSelection
    | BadRecord
    | NotFound
    | NoMetadata
    | BadMetadata
    | NoMasterKey
    | KeyDecryptFailed(err: string)
    | NoEncryptedFile
    | FileDecryptFailed(err: string)
    | Revealed(tmpPath: string)

  /** The outcomes reached once the metadata was read and parsed. */
  predicate PastMetadata(d: Download) {
    d.NoMasterKey? || d.KeyDecryptFailed? || PastUnwrap(d)
  }

  /** The outcomes reached once the content key was unwrapped. */
  predicate PastUnwrap(d: Download) {
    d.NoEncryptedFile? || d.FileDecryptFailed? || d.Revealed?
  }

  /** Lines 287-294: remove any old temporary file, then decrypt the stored
      file into it. On success the temporary file holds exactly the
      plaintext of the stored frame; in every case nothing but the
      temporary file changes. */
  method DecryptToTemp(fs: FileStore, box: SecretBox, sodiumReady: bool, key: Bytes, iv: Bytes,
                       encPath: string, tmpPath: string)
    returns (ok: bool, err: string)
    modifies fs`files
    ensures fs.files - {tmpPath} == old(fs.files) - {tmpPath}
    ensures ok <==> && sodiumReady && encPath != tmpPath && old(fs.Read(encPath)).Some?
                    && FileCrypto.OpenFrame(box, key, old(fs.Read(encPath)).value).Some?
                    && tmpPath !in fs.unwritable
                    && |FileCrypto.OpenFrame(box, key, old(fs.Read(encPath)).value).value| <= fs.quota
    ensures ok ==> fs.files == old(fs.files)[tmpPath := FileCrypto.OpenFrame(box, key, old(fs.Read(encPath)).value).value]
  {
    fs.Remove(tmpPath);
    ghost var removed := fs.files;
    ghost var source := fs.Read(encPath);
    assert encPath != tmpPath ==> source == old(fs.Read(encPath));
    ok, err := FileCrypto.Aes256CbcDecrypt(box, fs, sodiumReady, key, iv, encPath, tmpPath, "");
    if ok {
      assert source.Some? && encPath in removed;
      var plain := FileCrypto.OpenFrame(box, key, source.value).value;
      assert plain[..Min(|plain|, fs.quota)] == plain;
      assert removed[tmpPath := plain] == old(fs.files)[tmpPath := plain];
    }
  }

  /** The row the lookup query returns for the selected id. */
  function RecordOf(selection: Option<int>, queryOk: bool, rows: seq<SubmissionRow>): (r: Option<SubmissionRow>)
    ensures r.Some? ==> selection.Some? && selection.value > 0 && queryOk
                        && r.value in rows && r.value.id == selection.value
  {
    if selection.None? || selection.value <= 0 || !queryOk then None else FindById(rows, selection.value)
  }

  /** The metadata step: it stops with `NoMetadata` exactly when the file
      cannot be read and with `BadMetadata` exactly when it holds no JSON
      object. */
  ghost predicate MetadataStep(outcome: Download, contents: Option<Bytes>, json: JsonText) {
    && (outcome.NoMetadata? <==> contents.None?)
    && (outcome.BadMetadata? <==> contents.Some? && ObjectOf(contents, json).None?)
  }

  /** The unwrap step: it stops with `NoMasterKey` exactly when no master
      key is loaded and with `KeyDecryptFailed` only when the envelope does
      not unwrap; every later outcome had the envelope unwrap. */
  ghost predicate UnwrapStep(outcome: Download, gcm: Aes256Gcm, faults: set<KeyProtect.GcmStep>, master: Bytes, e: Envelope) {
    && (outcome.NoMasterKey? <==> |master| == 0)
    && (outcome.KeyDecryptFailed? ==> |master| != 0 && !Unwraps(gcm, faults, master, e))
    && (PastUnwrap(outcome) ==> Unwraps(gcm, faults, master, e))
  }

  /** Decrypting the stored file (`stored`, read from `enc`) into `tmp`
      succeeds: libsodium is ready, the two paths differ, the frame opens
      under `key`, and the temporary file can be written whole. */
  ghost predicate DecryptsInto(box: SecretBox, sodiumReady: bool, key: Bytes, enc: string, tmp: string,
                               stored: Option<Bytes>, unwritable: set<string>, quota: nat) {
    && sodiumReady && enc != tmp && stored.Some?
    && FileCrypto.OpenFrame(box, key, stored.value).Some?
    && tmp !in unwritable
    && |FileCrypto.OpenFrame(box, key, stored.value).value| <= quota
  }

  /** The file step: it stops with `NoEncryptedFile` exactly when the stored
      file is missing; past that, decryption succeeds exactly when
      `DecryptsInto` holds; a failed decryption changes no file but the
      temporary one, and a successful one leaves the temporary file holding
      exactly the stored frame's plaintext under `key`. */
  ghost predicate FileStep(outcome: Download, box: SecretBox, sodiumReady: bool, key: Bytes, enc: string, tmp: string,
                           stored: Option<Bytes>, unwritable: set<string>, quota: nat,
                           before: map<string, Bytes>, after: map<string, Bytes>) {
    && (outcome.NoEncryptedFile? <==> enc !in before)
    && ((outcome.FileDecryptFailed? || outcome.Revealed?) ==>
          (outcome.Revealed? <==> DecryptsInto(box, sodiumReady, key, enc, tmp, stored, unwritable, quota)))
    && (outcome.FileDecryptFailed? ==> after - {tmp} == before - {tmp})
    && (outcome.Revealed? ==>
          && outcome.tmpPath == tmp && sodiumReady && stored.Some?
          && FileCrypto.OpenFrame(box, key, stored.value).Some?
          && after == before[tmp := FileCrypto.OpenFrame(box, key, stored.value).value])
  }

  /** The outcomes reached once the selected row was found. */
  predicate PastLookup(d: Download) {
    d.NoMetadata? || d.BadMetadata? || PastMetadata(d)
  }

  /** What `onDownloadSubmission` promises, step by step: the selection and
      the lookup decide the first three outcomes; from then on each step's
      outcome is fixed by the store before the call (`before`), and only a
      decryption changes the store (`after`). */
  ghost predicate Downloaded(outcome: Download, selection: Option<int>, queryOk: bool, rows: seq<SubmissionRow>,
                            root: string, master: Bytes, tempDir: string, json: JsonText, b64: Base64,
                            gcm: Aes256Gcm, faults: set<KeyProtect.GcmStep>, box: SecretBox, sodiumReady: bool,
                            unreadable: set<string>, unwritable: set<string>, quota: nat, before: map<string, Bytes>, after: map<string, Bytes>)
  {
    && (outcome.NoSelection? <==> selection.None?)
    && (outcome.BadRecord? <==> selection.Some? && selection.value <= 0)
    && (outcome.NotFound? <==> selection.Some? && selection.value > 0 && RecordOf(selection, queryOk, rows).None?)
    && (!(outcome.FileDecryptFailed? || outcome.Revealed?) ==> after == before)
    && (PastLookup(outcome) ==>
          && RecordOf(selection, queryOk, rows).Some?
          && var rec := RecordOf(selection, queryOk, rows).value;
          && var contents := ReadFrom(before, unreadable, MetaPathOf(root, rec.filePath));
          && MetadataStep(outcome, contents, json)
          && (PastMetadata(outcome) ==>
                var e := EnvelopeOf(b64, ObjectOf(contents, json).value);
                && UnwrapStep(outcome, gcm, faults, master, e)
                && (PastUnwrap(outcome) ==>
                      var enc := StoragePath(root, CreateSubmission.DataRel(rec.filePath));
                      FileStep(outcome, box, sodiumReady, UnwrappedKey(gcm, master, e), enc,
                               JoinPath(tempDir, TempName(selection.value, rec.originalName)),
                               ReadFrom(before, unreadable, enc), unwritable, quota, before, after))))
  }

  /** The first five outcomes, which change nothing, meet `Downloaded`. */
  lemma DownloadedEarly(outcome: Download, selection: Option<int>, queryOk: bool, rows: seq<SubmissionRow>,
                        root: string, master: Bytes, tempDir: string, json: JsonText, b64: Base64,
                        gcm: Aes256Gcm, faults: set<KeyProtect.GcmStep>, box: SecretBox, sodiumReady: bool,
                        unreadable: set<string>, unwritable: set<string>, quota: nat, files: map<string, Bytes>)
    requires outcome in {NoSelection, BadRecord, NotFound, NoMetadata, BadMetadata}
    requires outcome == NoSelection <==> selection.None?
    requires outcome == BadRecord <==> selection.Some? && selection.value <= 0
    requires outcome == NotFound <==> selection.Some? && selection.value > 0 && RecordOf(selection, queryOk, rows).None?
    requires (outcome == NoMetadata || outcome == BadMetadata) ==>
               && RecordOf(selection, queryOk, rows).Some?
               && MetadataStep(outcome, ReadFrom(files, unreadable, MetaPathOf(root, RecordOf(selection, queryOk, rows).value.filePath)), json)
    ensures Downloaded(outcome, selection, queryOk, rows, root, master, tempDir, json, b64,
                       gcm, faults, box, sodiumReady, unreadable, unwritable, quota, files, files)
  {
    assert !PastMetadata(outcome);
  }

  /** The outcomes reached after the envelope was read meet `Downloaded`
      when the unwrap and decryption steps behaved as promised. */
  lemma DownloadedLate(outcome: Download, selection: Option<int>, queryOk: bool, rows: seq<SubmissionRow>,
                       rec: SubmissionRow, e: Envelope,
                       root: string, master: Bytes, tempDir: string, json: JsonText, b64: Base64,
                       gcm: Aes256Gcm, faults: set<KeyProtect.GcmStep>, box: SecretBox, sodiumReady: bool,
                       unreadable: set<string>, unwritable: set<string>, quota: nat, before: map<string, Bytes>, after: map<string, Bytes>)
    requires selection.Some? && RecordOf(selection, queryOk, rows) == Some(rec)
    requires var contents := ReadFrom(before, unreadable, MetaPathOf(root, rec.filePath));
             ObjectOf(contents, json).Some? && e == EnvelopeOf(b64, ObjectOf(contents, json).value)
    requires PastMetadata(outcome) && UnwrapStep(outcome, gcm, faults, master, e)
    requires !(outcome.FileDecryptFailed? || outcome.Revealed?) ==> after == before
    requires PastUnwrap(outcome) ==>
               var enc := StoragePath(root, CreateSubmission.DataRel(rec.filePath));
               FileStep(outcome, box, sodiumReady, UnwrappedKey(gcm, master, e), enc,
                        JoinPath(tempDir, TempName(selection.value, rec.originalName)),
                        ReadFrom(before, unreadable, enc), unwritable, quota, before, after)
    ensures Downloaded(outcome, selection, queryOk, rows, root, master, tempDir, json, b64,
                       gcm, faults, box, sodiumReady, unreadable, unwritable, quota, before, after)
  {
  }

  /** Lines 199-262: find the selected row, read its metadata and take the
      key envelope out of it. Nothing is changed. */
  method LocateEnvelope(selection: Option<int>, queryOk: bool, rows: seq<SubmissionRow>, root: string,
                        fs: FileStore, json: JsonText, b64: Base64)
    returns (stop: Option<Download>, rec: SubmissionRow, e: Envelope)
    ensures stop.Some? ==> stop.value in {NoSelection, BadRecord, NotFound, NoMetadata, BadMetadata}
    ensures stop == Some(NoSelection) <==> selection.None?
    ensures stop == Some(BadRecord) <==> selection.Some? && selection.value <= 0
    ensures stop == Some(NotFound) <==> selection.Some? && selection.value > 0 && RecordOf(selection, queryOk, rows).None?
    ensures (stop.None? || stop == Some(NoMetadata) || stop == Some(BadMetadata)) ==>
              && RecordOf(selection, queryOk, rows) == Some(rec)
              && MetadataStep(if stop.None? then NoMasterKey else stop.value,
                              ReadFrom(fs.files, fs.unreadable, MetaPathOf(root, rec.filePath)), json)
    ensures stop.None? ==>
              var contents := ReadFrom(fs.files, fs.unreadable, MetaPathOf(root, rec.filePath));
              ObjectOf(contents, json).Some? && e == EnvelopeOf(b64, ObjectOf(contents, json).value)
  {
    rec, e := SubmissionRow(0, 0, 0, "", "", "", ""), Envelope([], [], [], []);
    if selection.None? {
      return Some(NoSelection), rec, e;
    }
    var subId := selection.value;
    if subId <= 0 {
      return Some(BadRecord), rec, e;
    }
    var found := RecordOf(selection, queryOk, rows);
    if found.None? {
      return Some(NotFound), rec, e;
    }
    rec := found.value;

    var metaRaw := fs.Read(MetaPathOf(root, rec.filePath));
    if metaRaw.None? {
      return Some(NoMetadata), rec, e;
    }
    var mo := ObjectOf(metaRaw, json);
    if mo.None? {
      return Some(BadMetadata), rec, e;
    }
    e := EnvelopeOf(b64, mo.value);
    stop := None;
  }

  /** Lines 264-294: with the envelope in hand, check that a master key is
      loaded, unwrap the content key, check that the stored file exists and
      decrypt it into the temporary file. */
  method UnwrapAndDecrypt(gcm: Aes256Gcm, gcmFaults: set<KeyProtect.GcmStep>, master: Bytes, e: Envelope,
                          box: SecretBox, sodiumReady: bool, fs: FileStore, encPath: string, tmpPath: string)
    returns (outcome: Download)
    modifies fs`files
    ensures PastMetadata(outcome)
    ensures UnwrapStep(outcome, gcm, gcmFaults, master, e)
    ensures !(outcome.FileDecryptFailed? || outcome.Revealed?) ==> fs.files == old(fs.files)
    ensures PastUnwrap(outcome) ==>
              FileStep(outcome, box, sodiumReady, UnwrappedKey(gcm, master, e), encPath, tmpPath,
                       ReadFrom(old(fs.files), fs.unreadable, encPath), fs.unwritable, fs.quota,
                       old(fs.files), fs.files)
  {
    if |master| == 0 {
      return NoMasterKey;
    }
    var unwrapped, fileKey, err := KeyProtect.DecryptWithAesGcm(gcm, gcmFaults, master, e.keyEncrypted,
                                                                e.keyIv, e.keyTag, [], "");
    if !unwrapped {
      return KeyDecryptFailed(err);
    }
    if !fs.Exists(encPath) {
      return NoEncryptedFile;
    }
    var decrypted, serr := DecryptToTemp(fs, box, sodiumReady, fileKey, e.iv, encPath, tmpPath);
    if !decrypted {
      return FileDecryptFailed(serr);
    }
    outcome := Revealed(tmpPath);
  }

  class TeacherWindow {
    var currentAssignmentId: int

    constructor ()
      ensures currentAssignmentId == -1
    {
      currentAssignmentId := -1;
    }

    /** `onAssignmentSelected(row, col)`: `item` is the id stored in the
        clicked row's first cell, `None` when there is no such cell. The
        current assignment changes, and the submissions are reloaded, only
        for a real row whose id is positive. */
    method OnAssignmentSelected(row: int, item: Option<int>) returns (reload: bool)
      modifies this
      ensures reload <==> row >= 0 && item.Some? && item.value > 0
      ensures reload ==> currentAssignmentId == item.value
      ensures !reload ==> currentAssignmentId == old(currentAssignmentId)
    {
      reload := false;
      if row < 0 {
        return;
      }
      if item.None? {
        return;
      }
      var assignmentId := item.value;
      if assignmentId <= 0 {
        return;
      }
      currentAssignmentId := assignmentId;
      reload := true;
    }

    /** `onDownloadSubmission()`. `selection` is the id stored in the
        selected row's file cell (`None` when no row or cell is selected),
        `queryOk` whether the lookup query ran, `rows` the submissions
        table. Each step runs only after the one before succeeded: the
        metadata is read and parsed before the master key is looked at, the
        content key is unwrapped before the stored file is looked for, and
        only then is the temporary file touched. */
    method OnDownloadSubmission(selection: Option<int>, queryOk: bool, rows: seq<SubmissionRow>,
                                cfg: ConfigManager, fs: FileStore, json: JsonText, b64: Base64,
                                gcm: Aes256Gcm, gcmFaults: set<KeyProtect.GcmStep>, box: SecretBox,
                                sodiumReady: bool, tempDir: string)
      returns (outcome: Download)
      modifies fs`files
      ensures Downloaded(outcome, selection, queryOk, rows, cfg.storageRoot, cfg.master, tempDir, json, b64,
                         gcm, gcmFaults, box, sodiumReady, fs.unreadable, fs.unwritable, fs.quota, old(fs.files), fs.files)
    {
      var stop, rec, e := LocateEnvelope(selection, queryOk, rows, cfg.storageRoot, fs, json, b64);
      if stop.Some? {
        DownloadedEarly(stop.value, selection, queryOk, rows, cfg.storageRoot, cfg.master, tempDir, json, b64,
                        gcm, gcmFaults, box, sodiumReady, fs.unreadable, fs.unwritable, fs.quota, fs.files);
        return stop.value;
      }
      ghost var before := fs.files;
      var encFilePath := StoragePath(cfg.storageRoot, CreateSubmission.DataRel(rec.filePath));
      var tmpPath := JoinPath(tempDir, TempName(selection.value, rec.originalName));
      outcome := UnwrapAndDecrypt(gcm, gcmFaults, cfg.master, e, box, sodiumReady, fs, encFilePath, tmpPath);
      DownloadedLate(outcome, selection, queryOk, rows, rec, e, cfg.storageRoot, cfg.master, tempDir, json, b64,
                     gcm, gcmFaults, box, sodiumReady, fs.unreadable, fs.unwritable, fs.quota, before, fs.files);
    }
  }
}
