/** What the two reveal pipelines (the teacher's and the student's
    download of a submission) share: reading the key envelope out of a
    metadata record and the conditions under which the content key is
    recovered from it. */
module Reveal {
  import opened Base
  import opened Codecs
  import opened Primitives
  import KeyProtect
  import CreateSubmission

  /** The four binary members of a metadata record, base64-decoded. */
  datatype Envelope = Envelope(keyEncrypted: Bytes, keyIv: Bytes, keyTag: Bytes, iv: Bytes)

  /** `QByteArray::fromBase64(mo.value(k).toString().toUtf8())` for the four
      keys; a missing member, or one that is not a string, reads as the
      empty text. */
  function EnvelopeOf(b64: Base64, mo: map<string, Json>): Envelope {
    Envelope(b64.decode(StringOr(mo, "key_encrypted", "")), b64.decode(StringOr(mo, "key_iv", "")),
             b64.decode(StringOr(mo, "key_tag", "")), b64.decode(StringOr(mo, "iv", "")))
  }

  /** The envelope read from a record written by the protect pipeline is
      the one it wrote. */
  lemma EnvelopeOfMetadata(b64: Base64, ownerId: int, originalName: string, iv: Bytes,
                           keyEncrypted: Bytes, keyIv: Bytes, keyTag: Bytes)
    ensures EnvelopeOf(b64, CreateSubmission.Metadata(b64, ownerId, originalName, iv, keyEncrypted, keyIv, keyTag))
            == Envelope(keyEncrypted, keyIv, keyTag, iv)
  {
    var m := CreateSubmission.Metadata(b64, ownerId, originalName, iv, keyEncrypted, keyIv, keyTag);
    assert StringOr(m, "key_encrypted", "") == m["key_encrypted"].s;
    assert StringOr(m, "key_iv", "") == m["key_iv"].s;
    assert StringOr(m, "key_tag", "") == m["key_tag"].s;
    assert StringOr(m, "iv", "") == m["iv"].s;
  }

  /** `decryptWithAesGcm` accepts the envelope under `master`: a 32-byte
      key, no failing OpenSSL step and a tag that verifies. */
  ghost predicate Unwraps(gcm: Aes256Gcm, faults: set<KeyProtect.GcmStep>, master: Bytes, e: Envelope) {
    && |master| == KeyProtect.MasterKeyBytes
    && KeyProtect.DecryptFault(faults, e.keyTag).None?
    && gcm.verify(master, KeyProtect.IvWindow(e.keyIv), e.keyEncrypted, e.keyTag)
  }

  /** The content key `decryptWithAesGcm` leaves in its output buffer. */
  function UnwrappedKey(gcm: Aes256Gcm, master: Bytes, e: Envelope): Bytes {
    gcm.decrypt(master, KeyProtect.IvWindow(e.keyIv), e.keyEncrypted)
  }

  /** A key wrapped under `master` with a 12-byte nonce and its own tag
      unwraps, when no OpenSSL step fails, to itself. */
  lemma UnwrapsWrapped(gcm: Aes256Gcm, master: Bytes, keyIv: Bytes, key: Bytes, iv: Bytes)
    requires |master| == KeyProtect.MasterKeyBytes && |keyIv| == KeyProtect.IvBytes
    ensures var enc := gcm.encrypt(master, keyIv, key);
            var e := Envelope(enc, keyIv, gcm.tag(master, keyIv, enc), iv);
            Unwraps(gcm, {}, master, e) && UnwrappedKey(gcm, master, e) == key
  {
    assert KeyProtect.IvWindow(keyIv) == keyIv;
  }
}
