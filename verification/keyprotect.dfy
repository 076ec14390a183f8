/** `keyprotect::encryptWithAesGcm` and `keyprotect::decryptWithAesGcm`
    (src/crypto/KeyProtect.cpp): wrapping a content key under the 32-byte
    master key with AES-256-GCM (NIST SP 800-38D) through OpenSSL's staged
    EVP interface. Each OpenSSL call that can fail is a step; `faults` names
    the steps that fail for reasons outside the model (allocation, engine
    errors). The out-parameters are passed in with their old contents and
    come back with their new ones. */
module KeyProtect {
  import opened Base
  import opened Primitives

  const MasterKeyBytes := 32
  const IvBytes := 12
  const TagBytes := 16

  const KeySizeError := "master_key must be 32 bytes"
  const TagMismatchError := "DecryptFinal failed - tag mismatch"

  /** The OpenSSL calls whose return value is checked. */
  datatype GcmStep = CtxNew | InitCipher | InitKeyIv | Update | GetTag | SetTag

  /** The first step of an encryption that fails, in the order the calls
      are made. */
  function EncryptFault(faults: set<GcmStep>): (r: Option<GcmStep>)
    ensures r.None? <==> CtxNew !in faults && InitCipher !in faults && InitKeyIv !in faults
                         && Update !in faults && GetTag !in faults
    ensures r.Some? ==> r.value in faults && r.value != SetTag
  {
    if CtxNew in faults then Some(CtxNew)
    else if InitCipher in faults then Some(InitCipher)
    else if InitKeyIv in faults then Some(InitKeyIv)
    else if Update in faults then Some(Update)
    else if GetTag in faults then Some(GetTag)
    else None
  }

  /** The first step of a decryption that fails, in the order the calls are
      made; setting a tag is refused by OpenSSL's GCM mode unless its length
      is between 1 and 16 bytes. */
  function DecryptFault(faults: set<GcmStep>, tag: Bytes): (r: Option<GcmStep>)
    ensures r.None? <==> CtxNew !in faults && InitCipher !in faults && InitKeyIv !in faults
                         && Update !in faults && SetTag !in faults && 1 <= |tag| <= TagBytes
    ensures r.Some? ==> r.value != GetTag && (r.value in faults || r.value == SetTag)
  {
    if CtxNew in faults then Some(CtxNew)
    else if InitCipher in faults then Some(InitCipher)
    else if InitKeyIv in faults then Some(InitKeyIv)
    else if Update in faults then Some(Update)
    else if SetTag in faults || !(1 <= |tag| <= TagBytes) then Some(SetTag)
    else None
  }

  function EncryptMessage(step: GcmStep): string {
    match step
    case CtxNew => "EVP_CIPHER_CTX_new failed"
    case InitCipher => "EncryptInit failed"
    case InitKeyIv => "EncryptInit key/iv failed"
    case Update => "EncryptUpdate failed"
    case GetTag => "Get tag failed"
    case SetTag => "Set TAG failed"
  }

  function DecryptMessage(step: GcmStep): string {
    match step
    case CtxNew => "EVP_CIPHER_CTX_new failed"
    case InitCipher => "DecryptInit failed"
    case InitKeyIv => "DecryptInit key/iv failed"
    case Update => "DecryptUpdate failed"
    case GetTag => "Get tag failed"
    case SetTag => "Set TAG failed"
  }

  /** The 12 bytes the cipher takes from `iv.data()` as its nonce (GCM's
      default nonce length). A shorter buffer is read as zero-padded. */
  function IvWindow(iv: Bytes): (w: Bytes)
    ensures |w| == IvBytes
    ensures |iv| >= IvBytes ==> w == iv[..IvBytes]
  {
    if |iv| >= IvBytes then iv[..IvBytes] else Resize(iv, IvBytes)
  }

  /** `randomBytes(n)`; the return value of `RAND_bytes` is not checked. */
  method RandomBytes(n: nat) returns (v: Bytes)
    ensures |v| == n
  {
    v := ArbitraryBytes(n);
  }

  /** `encryptWithAesGcm(master_key, plain, out_cipher, out_iv, out_tag, err)`.
      A wrong-size master key changes nothing but `err`. Past that check a
      fresh 12-byte nonce is stored at once; the call succeeds exactly when
      no step fails, and then the ciphertext is as long as the plaintext
      and the tag is 16 bytes. On a failure `err` names the first failing
      step and the buffers hold what was written up to it. */
  method EncryptWithAesGcm(g: Aes256Gcm, faults: set<GcmStep>, masterKey: Bytes, plain: Bytes,
                           cipher0: Bytes, iv0: Bytes, tag0: Bytes, err0: string)
    returns (ok: bool, cipher: Bytes, iv: Bytes, tag: Bytes, err: string)
    ensures |masterKey| != MasterKeyBytes ==>
              !ok && err == KeySizeError && cipher == cipher0 && iv == iv0 && tag == tag0
    ensures |masterKey| == MasterKeyBytes ==> |iv| == IvBytes
    ensures ok <==> |masterKey| == MasterKeyBytes && EncryptFault(faults).None?
    ensures ok ==> && err == err0
                   && cipher == g.encrypt(masterKey, iv, plain) && |cipher| == |plain|
                   && tag == g.tag(masterKey, iv, cipher) && |tag| == TagBytes
    ensures |masterKey| == MasterKeyBytes && EncryptFault(faults).Some? ==>
              && !ok && err == EncryptMessage(EncryptFault(faults).value)
              && (EncryptFault(faults).value in {CtxNew, InitCipher, InitKeyIv} ==>
                    cipher == cipher0 && tag == tag0)
              && (EncryptFault(faults).value == Update ==> |cipher| == |plain| && tag == tag0)
              && (EncryptFault(faults).value == GetTag ==>
                    cipher == g.encrypt(masterKey, iv, plain) && |tag| == TagBytes)
  {
    ok, cipher, iv, tag, err := false, cipher0, iv0, tag0, err0;
    if |masterKey| != MasterKeyBytes {
      err := KeySizeError;
      return;
    }
    iv := RandomBytes(IvBytes);
    if CtxNew in faults {
      err := "EVP_CIPHER_CTX_new failed";
      return;
    }
    if InitCipher in faults {
      err := "EncryptInit failed";
      return;
    }
    if InitKeyIv in faults {
      err := "EncryptInit key/iv failed";
      return;
    }
    cipher := Resize(cipher, |plain|);
    if Update in faults {
      err := "EncryptUpdate failed";
      return;
    }
    cipher := g.encrypt(masterKey, iv, plain);
    // EVP_EncryptFinal_ex writes nothing for GCM; its result is ignored
    tag := Resize(tag, TagBytes);
    if GetTag in faults {
      err := "Get tag failed";
      return;
    }
    tag := g.tag(masterKey, iv, cipher);
    ok := true;
  }

  /** `decryptWithAesGcm(master_key, cipher, iv, tag, out_plain, err)`. A
      wrong-size master key changes nothing but `err`. Neither `iv` nor
      `tag` is checked by the function itself. The output buffer is sized
      and filled with the decryption before the tag is looked at, and a tag
      mismatch leaves it filled: only the result says it is not to be
      trusted. The call succeeds exactly when no step fails and the tag
      verifies. */
  method DecryptWithAesGcm(g: Aes256Gcm, faults: set<GcmStep>, masterKey: Bytes, cipher: Bytes,
                           iv: Bytes, tag: Bytes, plain0: Bytes, err0: string)
    returns (ok: bool, plain: Bytes, err: string)
    ensures |masterKey| != MasterKeyBytes ==> !ok && err == KeySizeError && plain == plain0
    ensures ok <==> && |masterKey| == MasterKeyBytes
                    && DecryptFault(faults, tag).None?
                    && g.verify(masterKey, IvWindow(iv), cipher, tag)
    ensures ok ==> err == err0 && plain == g.decrypt(masterKey, IvWindow(iv), cipher) && |plain| == |cipher|
    ensures |masterKey| == MasterKeyBytes && DecryptFault(faults, tag).Some? ==>
              && err == DecryptMessage(DecryptFault(faults, tag).value)
              && (DecryptFault(faults, tag).value in {CtxNew, InitCipher, InitKeyIv} ==>
                    plain == plain0)
              && (DecryptFault(faults, tag).value == Update ==> |plain| == |cipher|)
    // once the update step has run, the buffer holds the decryption whatever the tag
    ensures |masterKey| == MasterKeyBytes && CtxNew !in faults && InitCipher !in faults
            && InitKeyIv !in faults && Update !in faults ==>
              plain == g.decrypt(masterKey, IvWindow(iv), cipher)
    ensures (|masterKey| == MasterKeyBytes && DecryptFault(faults, tag).None?
             && !g.verify(masterKey, IvWindow(iv), cipher, tag)) ==> err == TagMismatchError
  {
    ok, plain, err := false, plain0, err0;
    if |masterKey| != MasterKeyBytes {
      err := KeySizeError;
      return;
    }
    if CtxNew in faults {
      err := "EVP_CIPHER_CTX_new failed";
      return;
    }
    if InitCipher in faults {
      err := "DecryptInit failed";
      return;
    }
    if InitKeyIv in faults {
      err := "DecryptInit key/iv failed";
      return;
    }
    var nonce := IvWindow(iv);
    plain := Resize(plain, |cipher|);
    if Update in faults {
      err := "DecryptUpdate failed";
      return;
    }
    plain := g.decrypt(masterKey, nonce, cipher);
    if SetTag in faults || !(1 <= |tag| <= TagBytes) {
      err := "Set TAG failed";
      return;
    }
    if !g.verify(masterKey, nonce, cipher, tag) {
      err := TagMismatchError;
      return;
    }
    ok := true;
  }

  /** Wrapping then unwrapping with the same master key, when no OpenSSL
      step fails, gives back the wrapped key; a master key of the wrong size
      is refused by both. */
  method WrapThenUnwrap(g: Aes256Gcm, masterKey: Bytes, key: Bytes)
    returns (wrapped: bool, unwrapped: bool, recovered: Bytes)
    ensures wrapped <==> |masterKey| == MasterKeyBytes
    ensures unwrapped <==> |masterKey| == MasterKeyBytes
    ensures unwrapped ==> recovered == key
  {
    var cipher, iv, tag, err;
    wrapped, cipher, iv, tag, err := EncryptWithAesGcm(g, {}, masterKey, key, [], [], [], "");
    unwrapped, recovered, err := DecryptWithAesGcm(g, {}, masterKey, cipher, iv, tag, [], err);
    if |masterKey| == MasterKeyBytes {
      assert IvWindow(iv) == iv;
    }
  }
}
