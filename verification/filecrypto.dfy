/** `crypto::genRandomBytes`, the secretbox framing helpers and the file
    wrappers `crypto::aes256_cbc_encrypt` / `crypto::aes256_cbc_decrypt`
    (src/crypto/FileCrypto.cpp). Despite their names the wrappers use
    libsodium's secretbox (XSalsa20-Poly1305), and an encrypted file is laid
    out as nonce (24 bytes) followed by MAC (16 bytes) and ciphertext. */
module FileCrypto {
  import opened Base
  import opened Primitives
  import opened Storage

  const FrameOverhead := SecretBoxNonceBytes + SecretBoxMacBytes

  const KeySizeError := "invalid key size for secretbox (must be 32 bytes)"
  const TooShortError := "cipher too short"
  const OpenError := "crypto_secretbox_open_easy failed (decryption/auth error)"

  /** `genRandomBytes(len)`: `len` bytes from `randombytes_buf`. */
  method GenRandomBytes(len: nat) returns (out: Bytes)
    ensures |out| == len
  {
    out := Zeros(len);
    if len > 0 {
      out := ArbitraryBytes(len);
    }
  }

  /** `c` is a frame of `plain` under `key`: its first 24 bytes are the nonce
      and the rest is the secretbox of `plain` under that nonce. */
  ghost predicate IsFrame(box: SecretBox, key: Bytes, plain: Bytes, c: Bytes) {
    |c| == FrameOverhead + |plain|
    && box.seal(key, c[..SecretBoxNonceBytes], plain) == Some(c[SecretBoxNonceBytes..])
  }

  /** What `decryptBufferSecretbox` recovers from `c`: `None` for a wrong-size
      key, a frame shorter than nonce and MAC together, or a MAC that does
      not verify. */
  function OpenFrame(box: SecretBox, key: Bytes, c: Bytes): (r: Option<Bytes>)
    ensures r.Some? ==> |key| == SecretBoxKeyBytes && |c| >= FrameOverhead
                        && |r.value| == |c| - FrameOverhead
  {
    if |key| != SecretBoxKeyBytes || |c| < FrameOverhead then None
    else box.open(key, c[..SecretBoxNonceBytes], c[SecretBoxNonceBytes..])
  }

  /** The message `decryptBufferSecretbox` leaves in `err` when it fails. */
  function OpenFrameError(key: Bytes, c: Bytes): string {
    if |key| != SecretBoxKeyBytes then KeySizeError
    else if |c| < FrameOverhead then TooShortError
    else OpenError
  }

  /** Round trip of the framing: a frame opens to the plaintext it was made
      from. */
  lemma OpenFrameOfFrame(box: SecretBox, key: Bytes, plain: Bytes, c: Bytes)
    requires |key| == SecretBoxKeyBytes && IsFrame(box, key, plain, c)
    ensures OpenFrame(box, key, c) == Some(plain)
  {
    var nonce := c[..SecretBoxNonceBytes];
    assert box.open(key, nonce, box.seal(key, nonce, plain).value) == Some(plain);
  }

  /** `encryptBufferSecretbox(key, plain, outCipher, err)`: a wrong-size key
      changes nothing but `err`; otherwise the output is sized to 24 + |plain|
      + 16 bytes and starts with a fresh nonce, and on success it is a frame
      of `plain`. */
  method EncryptBufferSecretbox(box: SecretBox, key: Bytes, plain: Bytes, outCipher0: Bytes, err0: string)
    returns (ok: bool, outCipher: Bytes, err: string)
    ensures |key| != SecretBoxKeyBytes ==> !ok && err == KeySizeError && outCipher == outCipher0
    ensures |key| == SecretBoxKeyBytes ==> |outCipher| == FrameOverhead + |plain|
    ensures ok ==> err == err0 && IsFrame(box, key, plain, outCipher)
    ensures !ok && |key| == SecretBoxKeyBytes ==>
              err == "crypto_secretbox_easy failed"
              && box.seal(key, outCipher[..SecretBoxNonceBytes], plain).None?
  {
    ok, outCipher, err := false, outCipher0, err0;
    if |key| != SecretBoxKeyBytes {
      err := KeySizeError;
      return;
    }
    var nonce := ArbitraryBytes(SecretBoxNonceBytes);
    outCipher := Resize(outCipher, SecretBoxNonceBytes + |plain| + SecretBoxMacBytes);
    outCipher := nonce + outCipher[SecretBoxNonceBytes..];
    var sealed := box.seal(key, nonce, plain);
    if sealed.None? {
      err := "crypto_secretbox_easy failed";
      return;
    }
    outCipher := nonce + sealed.value;
    assert outCipher[..SecretBoxNonceBytes] == nonce;
    ok := true;
  }

  /** `decryptBufferSecretbox(key, cipher, outPlain, err)`: the key size and
      the frame length are checked before anything is written; once they
      pass, the output is sized to |cipher| - 40 bytes and holds the
      plaintext when the MAC verifies. */
  method DecryptBufferSecretbox(box: SecretBox, key: Bytes, cipher: Bytes, outPlain0: Bytes, err0: string)
    returns (ok: bool, outPlain: Bytes, err: string)
    ensures ok <==> OpenFrame(box, key, cipher).Some?
    ensures ok ==> err == err0 && outPlain == OpenFrame(box, key, cipher).value
    ensures !ok ==> err == OpenFrameError(key, cipher)
    ensures (|key| != SecretBoxKeyBytes || |cipher| < FrameOverhead) ==> outPlain == outPlain0
    ensures |key| == SecretBoxKeyBytes && |cipher| >= FrameOverhead ==>
              |outPlain| == |cipher| - FrameOverhead
  {
    ok, outPlain, err := false, outPlain0, err0;
    if |key| != SecretBoxKeyBytes {
      err := KeySizeError;
      return;
    }
    if |cipher| < SecretBoxNonceBytes + SecretBoxMacBytes {
      err := TooShortError;
      return;
    }
    var nonce := cipher[..SecretBoxNonceBytes];
    var c := cipher[SecretBoxNonceBytes..];
    // the source checks |c| < 16 again here ("cipher data too short");
    // after the check above that branch can never be taken
    assert |c| >= SecretBoxMacBytes;
    outPlain := Resize(outPlain, |c| - SecretBoxMacBytes);
    var unsealed := box.open(key, nonce, c);
    if unsealed.None? {
      err := OpenError;
      return;
    }
    outPlain := unsealed.value;
    ok := true;
  }

  /** `aes256_cbc_encrypt(key, iv, inPath, outPath, err)`. `iv` is accepted
      and ignored: no clause below depends on it. Every failure sets `err`
      and returns false; only the last two steps touch the output file. On
      success `outPath` holds a frame of the input file's bytes. */
  method Aes256CbcEncrypt(box: SecretBox, fs: FileStore, sodiumReady: bool, key: Bytes, iv: Bytes,
                          inPath: string, outPath: string, err0: string)
    returns (ok: bool, err: string)
    modifies fs`files
    ensures !sodiumReady ==> !ok && err == "sodium_init failed" && fs.files == old(fs.files)
    ensures sodiumReady && old(fs.Read(inPath)).None? ==>
              !ok && err == "cannot open input file" && fs.files == old(fs.files)
    ensures sodiumReady && old(fs.Read(inPath)).Some? && |key| != SecretBoxKeyBytes ==>
              !ok && err == KeySizeError && fs.files == old(fs.files)
    ensures sodiumReady && old(fs.Read(inPath)).Some? && |key| == SecretBoxKeyBytes
            && outPath in fs.unwritable ==>
              !ok && fs.files == old(fs.files)
              && err in {"crypto_secretbox_easy failed", "cannot open output file"}
    ensures ok ==> exists c :: && IsFrame(box, key, old(fs.Read(inPath)).value, c)
                               && fs.files == old(fs.files)[outPath := c]
    // with a working library, a readable input, a 32-byte key, a writable
    // output and room for the whole frame, the call succeeds
    ensures (&& sodiumReady && old(fs.Read(inPath)).Some? && |key| == SecretBoxKeyBytes
             && (forall n :: |n| == SecretBoxNonceBytes ==> box.seal(key, n, old(fs.Read(inPath)).value).Some?)
             && outPath !in fs.unwritable
             && FrameOverhead + |old(fs.Read(inPath)).value| <= fs.quota) ==> ok
    ensures ok ==> err == err0
    ensures !ok && fs.files != old(fs.files) ==>
              err == "failed to write all cipher bytes" && outPath in fs.files
              && fs.files == old(fs.files)[outPath := fs.files[outPath]]
              && |fs.files[outPath]| < FrameOverhead + |old(fs.Read(inPath)).value|
  {
    ok, err := false, err0;
    if !sodiumReady {
      err := "sodium_init failed";
      return;
    }
    var plain := fs.Read(inPath);
    if plain.None? {
      err := "cannot open input file";
      return;
    }
    var cipher;
    ok, cipher, err := EncryptBufferSecretbox(box, key, plain.value, [], err);
    if !ok {
      return;
    }
    ok := false;
    var didOpen, written := fs.Write(outPath, cipher);
    if !didOpen {
      err := "cannot open output file";
      return;
    }
    if written != |cipher| {
      err := "failed to write all cipher bytes";
      return;
    }
    assert cipher[..written] == cipher;
    assert IsFrame(box, key, plain.value, cipher) && fs.files == old(fs.files)[outPath := cipher];
    ok := true;
  }

  /** `aes256_cbc_decrypt(key, iv, inPath, outPath, err)`. `iv` is accepted
      and ignored. The output file is opened only after the frame has been
      opened successfully, so a failed decryption never creates or
      truncates it. */
  method Aes256CbcDecrypt(box: SecretBox, fs: FileStore, sodiumReady: bool, key: Bytes, iv: Bytes,
                          inPath: string, outPath: string, err0: string)
    returns (ok: bool, err: string)
    modifies fs`files
    ensures !sodiumReady ==> !ok && err == "sodium_init failed" && fs.files == old(fs.files)
    ensures sodiumReady && old(fs.Read(inPath)).None? ==>
              !ok && err == "cannot open encrypted file" && fs.files == old(fs.files)
    ensures sodiumReady && old(fs.Read(inPath)).Some? ==>
              var plain := OpenFrame(box, key, old(fs.Read(inPath)).value);
              && (plain.None? ==> !ok && err == OpenFrameError(key, old(fs.Read(inPath)).value)
                                  && fs.files == old(fs.files))
              && (plain.Some? && outPath in fs.unwritable ==>
                    !ok && err == "cannot open output file" && fs.files == old(fs.files))
              && (plain.Some? && outPath !in fs.unwritable ==>
                    && fs.files == old(fs.files)[outPath := plain.value[..Min(|plain.value|, fs.quota)]]
                    && (ok <==> |plain.value| <= fs.quota)
                    && (!ok ==> err == "failed to write all plain bytes"))
    ensures ok ==> err == err0
  {
    ok, err := false, err0;
    if !sodiumReady {
      err := "sodium_init failed";
      return;
    }
    var cipher := fs.Read(inPath);
    if cipher.None? {
      err := "cannot open encrypted file";
      return;
    }
    var plain;
    ok, plain, err := DecryptBufferSecretbox(box, key, cipher.value, [], err);
    if !ok {
      return;
    }
    ok := false;
    var didOpen, written := fs.Write(outPath, plain);
    if !didOpen {
      err := "cannot open output file";
      return;
    }
    if written != |plain| {
      err := "failed to write all plain bytes";
      return;
    }
    ok := true;
  }
}
