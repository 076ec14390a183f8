/** The cryptographic primitives the core calls but does not implement, as
    records of functions. Each record type is constrained by the laws the
    core relies on (lengths and round trips), so a value of the type is any
    implementation that obeys them; nothing else about the primitives is
    assumed. The witness of each type shows that its laws can be met. */
module Primitives {
  import opened Base

  // ---------------------------------------------------------------------------
  // AES-256-GCM (NIST SP 800-38D) through OpenSSL's EVP interface

  /** `encrypt(key, iv, plain)` is what `EVP_EncryptUpdate` writes,
      `tag(key, iv, cipher)` what `EVP_CTRL_GCM_GET_TAG` gives after the
      final call, `decrypt(key, iv, cipher)` what `EVP_DecryptUpdate` writes
      (before any tag is looked at), and `verify(key, iv, cipher, tag)` the
      verdict of `EVP_DecryptFinal_ex` once the tag is set. */
  datatype GcmOps = GcmOps(
    encrypt: (Bytes, Bytes, Bytes) -> Bytes,
    tag: (Bytes, Bytes, Bytes) -> Bytes,
    decrypt: (Bytes, Bytes, Bytes) -> Bytes,
    verify: (Bytes, Bytes, Bytes, Bytes) -> bool)

  ghost predicate GcmLaws(g: GcmOps) {
    && (forall k, iv, p :: |g.encrypt(k, iv, p)| == |p|)
    && (forall k, iv, c :: |g.tag(k, iv, c)| == 16)
    && (forall k, iv, c :: |g.decrypt(k, iv, c)| == |c|)
    && (forall k, iv, p :: g.decrypt(k, iv, g.encrypt(k, iv, p)) == p)
    && (forall k, iv, c :: g.verify(k, iv, c, g.tag(k, iv, c)))
  }

  type Aes256Gcm = g: GcmOps | GcmLaws(g)
    witness GcmOps((k, iv, p) => p, (k, iv, c) => Zeros(16), (k, iv, c) => c, (k, iv, c, t) => true)

  // ---------------------------------------------------------------------------
  // libsodium secretbox (XSalsa20-Poly1305)

  const SecretBoxKeyBytes := 32
  const SecretBoxNonceBytes := 24
  const SecretBoxMacBytes := 16

  /** `seal(key, nonce, m)` is what `crypto_secretbox_easy` writes (the MAC
      followed by the ciphertext), `None` when it returns non-zero;
      `open(key, nonce, c)` is `crypto_secretbox_open_easy`, `None` when the
      MAC does not verify. */
  datatype SecretBoxOps = SecretBoxOps(
    seal: (Bytes, Bytes, Bytes) -> Option<Bytes>,
    open: (Bytes, Bytes, Bytes) -> Option<Bytes>)

  ghost predicate SecretBoxLaws(b: SecretBoxOps) {
    && (forall k, n, m :: b.seal(k, n, m).Some? ==>
          |b.seal(k, n, m).value| == |m| + SecretBoxMacBytes
          && b.open(k, n, b.seal(k, n, m).value) == Some(m))
    && (forall k, n, c :: b.open(k, n, c).Some? ==>
          |c| >= SecretBoxMacBytes && |b.open(k, n, c).value| == |c| - SecretBoxMacBytes)
  }

  type SecretBox = b: SecretBoxOps | SecretBoxLaws(b)
    witness SecretBoxOps(
      (k, n, m) => Some(Zeros(16) + m),
      (k, n, c) => if |c| >= 16 then Some(c[16..]) else None)

  // ---------------------------------------------------------------------------
  // libsodium password hashing (Argon2id, RFC 9106), string form

  /** `str(password, salt)` is the string `crypto_pwhash_str` writes when it
      draws `salt`, `None` when it returns non-zero (out of memory);
      `strVerify(stored, password)` is the return code of
      `crypto_pwhash_str_verify`. */
  datatype PwhashOps = PwhashOps(
    str: (Bytes, Bytes) -> Option<string>,
    strVerify: (string, Bytes) -> int)

  /** A hash string made from a password verifies against that password. */
  ghost predicate PwhashLaws(h: PwhashOps) {
    forall pw, salt :: h.str(pw, salt).Some? ==> h.strVerify(h.str(pw, salt).value, pw) == 0
  }

  type Pwhash = h: PwhashOps | PwhashLaws(h)
    witness PwhashOps((pw, salt) => None, (s, pw) => -1)

  /** `crypto_pwhash_SALTBYTES`. */
  const PwhashSaltBytes := 16

  // ---------------------------------------------------------------------------
  // PBKDF2-HMAC-SHA256 (section 5.2 of RFC 8018) through OpenSSL

  /** `PKCS5_PBKDF2_HMAC(password, salt, iterations, SHA-256, length)`. */
  type Pbkdf2 = f: (string, Bytes, int, nat) -> Bytes |
    forall pw, salt, iter, len :: |f(pw, salt, iter, len)| == len
    witness (pw: string, salt: Bytes, iter: int, len: nat) => Zeros(len)
}
