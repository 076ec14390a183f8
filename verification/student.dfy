/** The student's window (src/gui/StudentWindow.cpp): the grade/feedback
    cell of "my submissions", the search for the `create_submission`
    executable and the arguments an upload passes to it, and the student's
    own reveal pipeline, which decrypts a submission when its metadata is
    present and otherwise copies the stored bytes as they are. */
module Student {
  import opened Base
  import opened Text
  import opened Codecs
  import opened Storage
  import opened Primitives
  import opened Config
  import KeyProtect
  import FileCrypto
  import CreateSubmission
  import opened Reveal
  import Teacher

  // ---------------------------------------------------------------------------
  // The grade/feedback cell

  /** `grade + (fb.isEmpty() ? "" : " / " + fb)`. */
  function StudentGradeCell(grade: string, feedback: string): (cell: string)
    ensures |cell| == |grade| + (if feedback == "" then 0 else 3 + |feedback|)
    ensures cell[..|grade|] == grade
  {
    grade + (if feedback == "" then "" else " / " + feedback)
  }

  /** The student's cell equals the teacher's except when there is feedback
      but no grade: then the student's starts with " / ". */
  lemma GradeCellsAgree(grade: string, feedback: string)
    ensures StudentGradeCell(grade, feedback) == Teacher.GradeCell(grade, feedback)
            <==> !(grade == "" && feedback != "")
    ensures grade == "" && feedback != "" ==> StudentGradeCell(grade, feedback) == " / " + feedback
  {
    if grade == "" && feedback != "" {
      assert |StudentGradeCell(grade, feedback)| != |Teacher.GradeCell(grade, feedback)|;
    }
  }

  // ---------------------------------------------------------------------------
  // Finding create_submission

  /** The three places `findCreateSubmissionExe` looks, in order. */
  function ExeCandidates(appDir: string): (r: seq<string>)
    ensures |r| == 3
  {
    [JoinPath(appDir, "create_submission"), JoinPath(appDir, "../build/create_submission"), "create_submission"]
  }

  /** `QFileInfo(p).exists() && QFileInfo(p).isExecutable()`. */
  predicate Runnable(fs: FileStore, path: string)
    reads fs
  {
    fs.Exists(path) && path in fs.executables
  }

  /** Candidate `k` is the first that exists and is executable. */
  predicate FirstRunnable(fs: FileStore, appDir: string, k: int)
    reads fs
  {
    && 0 <= k < 3 && Runnable(fs, ExeCandidates(appDir)[k])
    && forall j :: 0 <= j < k ==> !Runnable(fs, ExeCandidates(appDir)[j])
  }

  /** `findCreateSubmissionExe()`: the first candidate that exists and is
      executable, or the empty string when none is. */
  method FindCreateSubmissionExe(fs: FileStore, appDir: string) returns (exe: string)
    ensures exe == "" <==> forall k :: 0 <= k < 3 ==> !Runnable(fs, ExeCandidates(appDir)[k])
    ensures exe != "" ==> exists k :: FirstRunnable(fs, appDir, k) && exe == ExeCandidates(appDir)[k]
  {
    var candidates := ExeCandidates(appDir);
    var exePath := JoinPath(appDir, "create_submission");
    if fs.Exists(exePath) && exePath in fs.executables {
      assert exePath == candidates[0];
      return exePath;
    }
    var alt := JoinPath(appDir, "../build/create_submission");
    if fs.Exists(alt) && alt in fs.executables {
      assert alt == candidates[1];
      return alt;
    }
    if fs.Exists("create_submission") && "create_submission" in fs.executables {
      assert "create_submission" == candidates[2];
      return "create_submission";
    }
    exe := "";
  }

  // ---------------------------------------------------------------------------
  // Upload

  /** The arguments `onUpload` passes: the file, the student's id, the
      assignment's id and the file's name. */
  function UploadArgs(file: string, studentId: int, assignmentId: int): (r: seq<string>)
    ensures |r| == 4
  {
    [file, IntToString(studentId), IntToString(assignmentId), FileName(file)]
  }

  /** What `create_submission` reads back from those arguments is exactly
      the upload: the same file, the same two ids and the file's name as
      the original name. */
  lemma UploadArgsParse(exe: string, file: string, studentId: int, assignmentId: int)
    ensures CreateSubmission.ParseArgs([exe] + UploadArgs(file, studentId, assignmentId))
            == Some(CreateSubmission.Args(file, studentId, assignmentId, FileName(file)))
  {
    AtoiOfIntToString(studentId);
    AtoiOfIntToString(assignmentId);
  }

  /** How an upload ended; each failure stands for the message box it
      shows. */
  datatype Upload = NoAssignment | Cancelled | NoExecutable | UploadFailed(rc: int) | Uploaded

  /** `onUpload()`. `assignment` is the id read from the selected row of the
      assignments table (`None` with no selection or no current row),
      `file` the dialog's answer (empty when cancelled), and `execute` runs
      a program with its arguments and returns its exit status. The program
      run is the first runnable candidate, and the submissions are reloaded
      exactly when it exits with 0. */
  method OnUpload(studentId: int, assignment: Option<int>, file: string, fs: FileStore, appDir: string,
                  execute: (string, seq<string>) -> int)
    returns (outcome: Upload, reload: bool)
    ensures reload <==> outcome.Uploaded?
    ensures outcome.NoAssignment? <==> assignment.None?
    ensures outcome.Cancelled? <==> assignment.Some? && file == ""
    ensures outcome.NoExecutable? <==>
              assignment.Some? && file != "" && forall k :: 0 <= k < 3 ==> !Runnable(fs, ExeCandidates(appDir)[k])
    ensures (outcome.UploadFailed? || outcome.Uploaded?) ==>
              && assignment.Some?
              && exists k :: && FirstRunnable(fs, appDir, k)
                             && var rc := execute(ExeCandidates(appDir)[k], UploadArgs(file, studentId, assignment.value));
                             && (outcome.Uploaded? <==> rc == 0)
                             && (outcome.UploadFailed? ==> outcome.rc == rc)
  {
    reload := false;
    if assignment.None? {
      return NoAssignment, reload;
    }
    if file == "" {
      return Cancelled, reload;
    }
    var exe := FindCreateSubmissionExe(fs, appDir);
    if exe == "" {
      return NoExecutable, reload;
    }
    var args := UploadArgs(file, studentId, assignment.value);
    var rc := execute(exe, args);
    if rc != 0 {
      return UploadFailed(rc), reload;
    }
    outcome, reload := Uploaded, true;
  }

  // ---------------------------------------------------------------------------
  // The student's reveal pipeline

  /** `storage/files/<file_path>`, relative to the working directory. */
  function EncPathOf(filePath: string): string {
    "storage" + "/" + "files/" + filePath
  }

  /** `storage/metadata/<baseName(file_path)>.json`, relative to the working
      directory. */
  function MetaPathOf(filePath: string): string {
    "storage" + "/" + "metadata/" + BaseName(filePath) + ".json"
  }

  /** The student's two literal paths are the storage paths the teacher's
      window uses, under the storage root "storage". */
  lemma StudentPathsUnderStorage(filePath: string)
    ensures EncPathOf(filePath) == StoragePath("storage", CreateSubmission.DataRel(filePath))
    ensures MetaPathOf(filePath) == Teacher.MetaPathOf("storage", filePath)
  {
    JoinPathAppend("storage", "files/", filePath);
    JoinPathAppendExt("storage", "metadata/", BaseName(filePath), ".json");
  }

  /** The temporary path: `<uuid>_<originalName>` in the temporary
      directory, after which every '/' of the whole path is replaced by '_'. */
  function TempPathOf(tempDir: string, filePath: string, originalName: string): (r: string)
    ensures '/' !in r
    ensures |r| == |tempDir| + 1 + |BaseName(filePath)| + 1 + |originalName|
  {
    ReplaceAll(JoinPath(tempDir, BaseName(filePath) + "_" + originalName), '/', '_')
  }

  /** Replacing every '/' also flattens the directory part: the temporary
      file is never inside a temporary directory named by an absolute path,
      but in the working directory under a name that starts with '_'. */
  lemma TempPathLeavesTempDir(tempDir: string, filePath: string, originalName: string)
    requires |tempDir| > 0 && tempDir[0] == '/'
    ensures var r := TempPathOf(tempDir, filePath, originalName);
            r[0] == '_' && !(|r| > |tempDir| && r[..|tempDir| + 1] == tempDir + "/")
  {
    var r := TempPathOf(tempDir, filePath, originalName);
    assert JoinPath(tempDir, BaseName(filePath) + "_" + originalName)[0] == '/';
    assert |r| > |tempDir| ==> r[..|tempDir| + 1][|tempDir|] == '_';
  }

  /** The protect pipeline's names, looked up from the working directory
      with "storage" as the storage root, are where the student looks. */
  lemma StudentFindsStoredSubmission(uuid: string)
    requires CreateSubmission.IsUuid(uuid)
    ensures EncPathOf(CreateSubmission.DataFileName(uuid))
            == StoragePath("storage", CreateSubmission.DataRel(CreateSubmission.DataFileName(uuid)))
    ensures MetaPathOf(CreateSubmission.DataFileName(uuid)) == StoragePath("storage", CreateSubmission.MetaRel(uuid))
  {
    StudentPathsUnderStorage(CreateSubmission.DataFileName(uuid));
    Teacher.MetaPathOfDataFile("storage", uuid);
  }

  /** The selected row of "my submissions": the registered file name and the
      original name. */
  datatype Selected = Selected(filePath: string, originalName: string)

  /** Where the student's download stopped. */
  datatype MyDownload =
    | NoSelection
    | NoPath
    | NoEncryptedFile
    | MetaOpenFailed
    | BadMetadata
    | NoMasterKey
    | KeyDecryptFailed(err: string)
    | FileDecryptFailed(err: string)
    | Decrypted(tmpPath: string)
    | CopyFailed
    | Copied(tmpPath: string)

  /** The outcomes of the branch taken when the metadata file exists. */
  predicate WithMetadata(d: MyDownload) {
    d.MetaOpenFailed? || d.BadMetadata? || d.NoMasterKey? || d.KeyDecryptFailed?
    || d.FileDecryptFailed? || d.Decrypted?
  }

  /** The steps of the metadata branch: reading and parsing the metadata,
      the master key check and the unwrap each stop the pipeline, and only
      an unwrapped key reaches the decryption, which succeeds exactly when
      libsodium is ready, the stored frame opens and its plaintext can be
      written whole to the temporary file; it changes no file but the
      temporary one and on success leaves there exactly the plaintext of
      the stored frame. */
  ghost predicate MetadataBranch(d: MyDownload, contents: Option<Bytes>, json: JsonText, b64: Base64,
                                 gcm: Aes256Gcm, faults: set<KeyProtect.GcmStep>, master: Bytes,
                                 box: SecretBox, stored: Option<Bytes>, tmp: string, sodiumReady: bool,
                                 unwritable: set<string>, quota: nat,
                                 before: map<string, Bytes>, after: map<string, Bytes>) {
    && WithMetadata(d)
    && (d.MetaOpenFailed? <==> contents.None?)
    && (d.BadMetadata? <==> contents.Some? && ObjectOf(contents, json).None?)
    && (!(d.MetaOpenFailed? || d.BadMetadata?) ==>
          var e := EnvelopeOf(b64, ObjectOf(contents, json).value);
          && (d.NoMasterKey? <==> |master| == 0)
          && (d.KeyDecryptFailed? ==> |master| != 0 && !Unwraps(gcm, faults, master, e))
          && ((d.FileDecryptFailed? || d.Decrypted?) ==> Unwraps(gcm, faults, master, e))
          && ((d.FileDecryptFailed? || d.Decrypted?) ==>
                var key := UnwrappedKey(gcm, master, e);
                (d.Decrypted? <==> && sodiumReady && stored.Some?
                                   && FileCrypto.OpenFrame(box, key, stored.value).Some?
                                   && tmp !in unwritable
                                   && |FileCrypto.OpenFrame(box, key, stored.value).value| <= quota))
          && (d.FileDecryptFailed? ==> after - {tmp} == before - {tmp})
          && (d.Decrypted? ==>
                && d.tmpPath == tmp && stored.Some?
                && FileCrypto.OpenFrame(box, UnwrappedKey(gcm, master, e), stored.value).Some?
                && after == before[tmp := FileCrypto.OpenFrame(box, UnwrappedKey(gcm, master, e), stored.value).value]))
    && (!(d.FileDecryptFailed? || d.Decrypted?) ==> after == before)
  }

  /** The branch taken without metadata: the old temporary file is removed
      and the stored bytes are copied there unchanged. */
  ghost predicate CopyBranch(d: MyDownload, fs: FileStore, enc: string, tmp: string,
                             before: map<string, Bytes>, after: map<string, Bytes>) {
    && (d.CopyFailed? || d.Copied?)
    && (d.Copied? <==> && enc in before && enc !in fs.unreadable && enc != tmp && tmp !in fs.unwritable
                       && |before[enc]| <= fs.quota)
    && (d.Copied? ==> d.tmpPath == tmp && after == before[tmp := before[enc]])
    && (d.CopyFailed? ==> after == before - {tmp})
  }

  /** The stops before the decryption change nothing and meet
      `MetadataBranch`. */
  lemma MetadataBranchEarly(d: MyDownload, contents: Option<Bytes>, json: JsonText, b64: Base64,
                            gcm: Aes256Gcm, faults: set<KeyProtect.GcmStep>, master: Bytes,
                            box: SecretBox, stored: Option<Bytes>, tmp: string, sodiumReady: bool,
                            unwritable: set<string>, quota: nat, files: map<string, Bytes>)
    requires d.MetaOpenFailed? || d.BadMetadata? || d.NoMasterKey? || d.KeyDecryptFailed?
    requires d.MetaOpenFailed? <==> contents.None?
    requires d.BadMetadata? <==> contents.Some? && ObjectOf(contents, json).None?
    requires d.NoMasterKey? || d.KeyDecryptFailed? ==>
               && ObjectOf(contents, json).Some?
               && (d.NoMasterKey? <==> |master| == 0)
               && (d.KeyDecryptFailed? ==>
                     |master| != 0 && !Unwraps(gcm, faults, master, EnvelopeOf(b64, ObjectOf(contents, json).value)))
    ensures MetadataBranch(d, contents, json, b64, gcm, faults, master, box, stored, tmp, sodiumReady,
                           unwritable, quota, files, files)
  {
  }

  /** Lines 201-234, once the metadata file is known to exist. */
  method RevealWithMetadata(fs: FileStore, json: JsonText, b64: Base64, master: Bytes, gcm: Aes256Gcm,
                            gcmFaults: set<KeyProtect.GcmStep>, box: SecretBox, sodiumReady: bool,
                            enc: string, meta: string, tmp: string)
    returns (outcome: MyDownload)
    modifies fs`files
    ensures MetadataBranch(outcome, old(fs.Read(meta)), json, b64, gcm, gcmFaults, master, box,
                           old(fs.Read(enc)), tmp, sodiumReady, fs.unwritable, fs.quota, old(fs.files), fs.files)
  {
    var metaRaw := fs.Read(meta);
    ghost var stored := fs.Read(enc);
    if metaRaw.None? {
      outcome := MetaOpenFailed;
      MetadataBranchEarly(outcome, metaRaw, json, b64, gcm, gcmFaults, master, box, stored, tmp, sodiumReady,
                          fs.unwritable, fs.quota, fs.files);
      return;
    }
    var mo := ObjectOf(metaRaw, json);
    if mo.None? {
      outcome := BadMetadata;
      MetadataBranchEarly(outcome, metaRaw, json, b64, gcm, gcmFaults, master, box, stored, tmp, sodiumReady,
                          fs.unwritable, fs.quota, fs.files);
      return;
    }
    var e := EnvelopeOf(b64, mo.value);
    if |master| == 0 {
      outcome := NoMasterKey;
      MetadataBranchEarly(outcome, metaRaw, json, b64, gcm, gcmFaults, master, box, stored, tmp, sodiumReady,
                          fs.unwritable, fs.quota, fs.files);
      return;
    }
    var unwrapped, fileKey, err := KeyProtect.DecryptWithAesGcm(gcm, gcmFaults, master, e.keyEncrypted,
                                                                e.keyIv, e.keyTag, [], "");
    if !unwrapped {
      outcome := KeyDecryptFailed(err);
      MetadataBranchEarly(outcome, metaRaw, json, b64, gcm, gcmFaults, master, box, stored, tmp, sodiumReady,
                          fs.unwritable, fs.quota, fs.files);
      return;
    }
    var decrypted, serr := FileCrypto.Aes256CbcDecrypt(box, fs, sodiumReady, fileKey, e.iv, enc, tmp, "");
    if !decrypted {
      return FileDecryptFailed(serr);
    }
    ghost var plain := FileCrypto.OpenFrame(box, fileKey, stored.value).value;
    assert plain[..Min(|plain|, fs.quota)] == plain;
    outcome := Decrypted(tmp);
  }

  /** Lines 235-241: with no metadata, remove the temporary file and copy the
      stored bytes there. */
  method CopyStored(fs: FileStore, enc: string, tmp: string) returns (outcome: MyDownload)
    modifies fs`files
    ensures CopyBranch(outcome, fs, enc, tmp, old(fs.files), fs.files)
  {
    fs.Remove(tmp);
    ghost var removed := fs.files;
    var copied := fs.Copy(enc, tmp);
    if !copied {
      return CopyFailed;
    }
    assert removed[tmp := old(fs.files)[enc]] == old(fs.files)[tmp := old(fs.files)[enc]];
    outcome := Copied(tmp);
  }

  /** `onDownloadMySubmission()`. `selection` is the selected row (`None`
      when nothing is selected). An empty file name or a missing stored file
      stops before anything else is looked at; then the existence of the
      metadata file chooses between decrypting and copying. */
  method OnDownloadMySubmission(selection: Option<Selected>, cfg: ConfigManager, fs: FileStore,
                                json: JsonText, b64: Base64, gcm: Aes256Gcm,
                                gcmFaults: set<KeyProtect.GcmStep>, box: SecretBox, sodiumReady: bool,
                                tempDir: string)
    returns (outcome: MyDownload)
    modifies fs`files
    ensures outcome.NoSelection? <==> selection.None?
    ensures outcome.NoPath? <==> selection.Some? && selection.value.filePath == ""
    ensures outcome.NoEncryptedFile? <==>
              selection.Some? && selection.value.filePath != "" && EncPathOf(selection.value.filePath) !in old(fs.files)
    ensures (outcome.NoSelection? || outcome.NoPath? || outcome.NoEncryptedFile?) ==> fs.files == old(fs.files)
    ensures WithMetadata(outcome) ==>
              var s := selection.value;
              && MetaPathOf(s.filePath) in old(fs.files)
              && MetadataBranch(outcome, old(fs.Read(MetaPathOf(s.filePath))), json, b64, gcm, gcmFaults,
                                cfg.master, box, old(fs.Read(EncPathOf(s.filePath))),
                                TempPathOf(tempDir, s.filePath, s.originalName), sodiumReady,
                                fs.unwritable, fs.quota, old(fs.files), fs.files)
    ensures (outcome.CopyFailed? || outcome.Copied?) ==>
              var s := selection.value;
              && MetaPathOf(s.filePath) !in old(fs.files)
              && CopyBranch(outcome, fs, EncPathOf(s.filePath), TempPathOf(tempDir, s.filePath, s.originalName),
                            old(fs.files), fs.files)
  {
    if selection.None? {
      return NoSelection;
    }
    var filePath := selection.value.filePath;
    var originalName := selection.value.originalName;
    if filePath == "" {
      return NoPath;
    }
    var encFilePath := EncPathOf(filePath);
    if !fs.Exists(encFilePath) {
      return NoEncryptedFile;
    }
    var metaPath := MetaPathOf(filePath);
    var tmpPath := TempPathOf(tempDir, filePath, originalName);
    if fs.Exists(metaPath) {
      outcome := RevealWithMetadata(fs, json, b64, cfg.master, gcm, gcmFaults, box, sodiumReady, encFilePath, metaPath, tmpPath);
    } else {
      outcome := CopyStored(fs, encFilePath, tmpPath);
    }
  }
}
