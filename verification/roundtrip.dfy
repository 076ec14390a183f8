/** The envelope scheme end to end: what the protect pipeline
    (src/tools/create_submission.cpp) leaves in storage is what both reveal
    pipelines (src/gui/TeacherWindow.cpp, src/gui/StudentWindow.cpp) turn
    back into the uploaded bytes. */
module RoundTrip {
  import opened Base
  import opened Codecs
  import opened Primitives
  import opened Storage
  import KeyProtect
  import FileCrypto
  import CreateSubmission
  import opened Reveal
  import Teacher
  import Student

  /** The metadata and data file written for a submission, read back with
      the same master key and no failing OpenSSL step: the metadata parses,
      its envelope unwraps, and the unwrapped key opens the data file to the
      uploaded plaintext. `|metaText| < quota` says the metadata was written
      out whole. */
  lemma ProtectedOpensToPlaintext(gcm: Aes256Gcm, box: SecretBox, b64: Base64, json: JsonText, quota: nat,
                                  master: Bytes, plain: Bytes, ownerId: int, originalName: string,
                                  dat: Bytes, metaText: Bytes)
    requires JsonTextLaws(json) && |master| == KeyProtect.MasterKeyBytes && |metaText| < quota
    requires CreateSubmission.Protects(gcm, box, b64, json, quota, master, plain, ownerId, originalName, dat, metaText)
    ensures ObjectOf(Some(metaText), json).Some?
    ensures var e := EnvelopeOf(b64, ObjectOf(Some(metaText), json).value);
            && Unwraps(gcm, {}, master, e)
            && FileCrypto.OpenFrame(box, UnwrappedKey(gcm, master, e), dat) == Some(plain)
  {
    var fileKey: Bytes, fileIv: Bytes, keyIv: Bytes :|
      && |fileKey| == CreateSubmission.ContentKeyBytes && |fileIv| == CreateSubmission.ContentIvBytes
      && |keyIv| == KeyProtect.IvBytes
      && FileCrypto.IsFrame(box, fileKey, plain, dat)
      && var text := json.write(CreateSubmission.WrappedMetadata(gcm, b64, master, ownerId, originalName, fileKey, fileIv, keyIv));
         metaText == text[..Min(|text|, quota)];
    var m := CreateSubmission.WrappedMetadata(gcm, b64, master, ownerId, originalName, fileKey, fileIv, keyIv);
    assert metaText == json.write(m);
    ObjectOfWritten(json, m);
    var enc := gcm.encrypt(master, keyIv, fileKey);
    EnvelopeOfMetadata(b64, ownerId, originalName, fileIv, enc, keyIv, gcm.tag(master, keyIv, enc));
    UnwrapsWrapped(gcm, master, keyIv, fileKey, fileIv);
    FileCrypto.OpenFrameOfFrame(box, fileKey, plain, dat);
  }

  /** When the teacher's download of a protected submission ends in
      `Revealed`, the temporary file holds exactly the uploaded bytes. */
  lemma TeacherRevealsUpload(gcm: Aes256Gcm, box: SecretBox, b64: Base64, json: JsonText, quota: nat,
                             master: Bytes, plain: Bytes, ownerId: int, originalName: string,
                             dat: Bytes, metaText: Bytes, sodiumReady: bool, enc: string, tmp: string,
                             unwritable: set<string>, before: map<string, Bytes>, after: map<string, Bytes>)
    requires JsonTextLaws(json) && |master| == KeyProtect.MasterKeyBytes && |metaText| < quota
    requires CreateSubmission.Protects(gcm, box, b64, json, quota, master, plain, ownerId, originalName, dat, metaText)
    requires ObjectOf(Some(metaText), json).Some?
    requires Teacher.FileStep(Teacher.Revealed(tmp), box, sodiumReady,
                              UnwrappedKey(gcm, master, EnvelopeOf(b64, ObjectOf(Some(metaText), json).value)),
                              enc, tmp, Some(dat), unwritable, quota, before, after)
    ensures tmp in after && after[tmp] == plain
  {
    ProtectedOpensToPlaintext(gcm, box, b64, json, quota, master, plain, ownerId, originalName, dat, metaText);
  }

  /** The same for the student's download: `Decrypted` leaves the uploaded
      bytes in the temporary file. */
  lemma StudentRevealsUpload(gcm: Aes256Gcm, box: SecretBox, b64: Base64, json: JsonText, quota: nat,
                             master: Bytes, plain: Bytes, ownerId: int, originalName: string,
                             dat: Bytes, metaText: Bytes, tmp: string, sodiumReady: bool,
                             unwritable: set<string>, before: map<string, Bytes>, after: map<string, Bytes>)
    requires JsonTextLaws(json) && |master| == KeyProtect.MasterKeyBytes && |metaText| < quota
    requires CreateSubmission.Protects(gcm, box, b64, json, quota, master, plain, ownerId, originalName, dat, metaText)
    requires Student.MetadataBranch(Student.Decrypted(tmp), Some(metaText), json, b64, gcm, {}, master,
                                    box, Some(dat), tmp, sodiumReady, unwritable, quota, before, after)
    ensures tmp in after && after[tmp] == plain
  {
    ProtectedOpensToPlaintext(gcm, box, b64, json, quota, master, plain, ownerId, originalName, dat, metaText);
  }

  /** With no failing OpenSSL step, the teacher's download of a protected
      submission never stops at the unwrap. */
  lemma TeacherUnwrapsProtected(gcm: Aes256Gcm, box: SecretBox, b64: Base64, json: JsonText, quota: nat,
                                master: Bytes, plain: Bytes, ownerId: int, originalName: string,
                                dat: Bytes, metaText: Bytes, outcome: Teacher.Download)
    requires JsonTextLaws(json) && |master| == KeyProtect.MasterKeyBytes && |metaText| < quota
    requires CreateSubmission.Protects(gcm, box, b64, json, quota, master, plain, ownerId, originalName, dat, metaText)
    requires ObjectOf(Some(metaText), json).Some?
    requires Teacher.UnwrapStep(outcome, gcm, {}, master, EnvelopeOf(b64, ObjectOf(Some(metaText), json).value))
    ensures !outcome.NoMasterKey? && !outcome.KeyDecryptFailed?
  {
    ProtectedOpensToPlaintext(gcm, box, b64, json, quota, master, plain, ownerId, originalName, dat, metaText);
  }
}
