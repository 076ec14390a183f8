/** `auth::validatePasswordRules`, `auth::hashPassword` and
    `auth::verifyPassword` (src/auth/PasswordUtils.cpp). A password is the
    byte string of a `std::string`, so its length is a byte count. */
module PasswordUtils {
  import opened Base
  import opened Primitives

  // ---------------------------------------------------------------------------
  // Password rules

  /** The rules in the order they are checked. */
  datatype Rule = MinLength | NoSpaces | HasLower | HasUpper | HasDigit | HasSpecial

  function Rank(r: Rule): nat {
    match r
    case MinLength => 0
    case NoSpaces => 1
    case HasLower => 2
    case HasUpper => 3
    case HasDigit => 4
    case HasSpecial => 5
  }

  const MinPasswordLength := 10
  const SpaceByte := 32

  /** The characters of the bracket expression of the special-character
      regular expression. */
  const Specials: string := "!@#$%^&*()-_=+[]{}|;:'\",.<>/?"

  predicate IsLowerByte(b: Byte) { 'a' as int <= b <= 'z' as int }
  predicate IsUpperByte(b: Byte) { 'A' as int <= b <= 'Z' as int }
  predicate IsDigitByte(b: Byte) { '0' as int <= b <= '9' as int }
  predicate IsSpecialByte(b: Byte) { b < 128 && (b as char) in Specials }

  /** `regex_search` for a one-character class: some byte is in the class. */
  predicate SomeLower(p: Bytes) { exists i :: 0 <= i < |p| && IsLowerByte(p[i]) }
  predicate SomeUpper(p: Bytes) { exists i :: 0 <= i < |p| && IsUpperByte(p[i]) }
  predicate SomeDigit(p: Bytes) { exists i :: 0 <= i < |p| && IsDigitByte(p[i]) }
  predicate SomeSpecial(p: Bytes) { exists i :: 0 <= i < |p| && IsSpecialByte(p[i]) }

  /** What each rule demands of the password. */
  predicate Holds(r: Rule, p: Bytes) {
    match r
    case MinLength => |p| >= MinPasswordLength
    case NoSpaces => SpaceByte !in p
    case HasLower => SomeLower(p)
    case HasUpper => SomeUpper(p)
    case HasDigit => SomeDigit(p)
    case HasSpecial => SomeSpecial(p)
  }

  /** Every rule holds. */
  predicate Acceptable(p: Bytes) {
    && Holds(MinLength, p) && Holds(NoSpaces, p) && Holds(HasLower, p)
    && Holds(HasUpper, p) && Holds(HasDigit, p) && Holds(HasSpecial, p)
  }

  /** `r` fails while every rule checked before it holds. */
  predicate FirstFailing(r: Rule, p: Bytes) {
    !Holds(r, p) && forall q :: Rank(q) < Rank(r) ==> Holds(q, p)
  }

  function Message(r: Rule): string {
    match r
    case MinLength => "Пароль должен быть не меньше 10 символов"
    case NoSpaces => "Пароль не должен содержать пробелов"
    case HasLower => "Пароль должен содержать строчную букву"
    case HasUpper => "Пароль должен содержать заглавную букву"
    case HasDigit => "Пароль должен содержать цифру"
    case HasSpecial => "Пароль должен содержать специальный символ"
  }

  /** The return value of `validatePasswordRules` and its `errMsg`
      out-parameter after the call. */
  datatype Verdict = Verdict(ok: bool, errMsg: string)

  /** `validatePasswordRules(password, errMsg)`: accepts exactly the passwords
      every rule holds for, leaves `errMsg` alone when it accepts, and
      otherwise reports the message of the first rule that fails. */
  function ValidatePasswordRules(password: Bytes, errMsg: string): (r: Verdict)
    ensures r.ok <==> Acceptable(password)
    ensures r.ok ==> r.errMsg == errMsg
    ensures forall rule :: FirstFailing(rule, password) ==> r.errMsg == Message(rule)
    ensures |password| < MinPasswordLength ==> !r.ok && r.errMsg == Message(MinLength)
  {
    if |password| < 10 then
      assert !Holds(MinLength, password);
      Verdict(false, "Пароль должен быть не меньше 10 символов")
    else if SpaceByte in password then
      assert !Holds(NoSpaces, password);
      Verdict(false, "Пароль не должен содержать пробелов")
    else if !SomeLower(password) then
      assert !Holds(HasLower, password);
      Verdict(false, "Пароль должен содержать строчную букву")
    else if !SomeUpper(password) then
      assert !Holds(HasUpper, password);
      Verdict(false, "Пароль должен содержать заглавную букву")
    else if !SomeDigit(password) then
      assert !Holds(HasDigit, password);
      Verdict(false, "Пароль должен содержать цифру")
    else if !SomeSpecial(password) then
      assert !Holds(HasSpecial, password);
      Verdict(false, "Пароль должен содержать специальный символ")
    else
      Verdict(true, errMsg)
  }

  /** A rejected password always names a rule that fails and every rule
      before it holds: the message is that of exactly one rule. */
  lemma {:induction false} RejectionNamesFirstFailure(password: Bytes, errMsg: string)
    requires !ValidatePasswordRules(password, errMsg).ok
    ensures exists rule :: FirstFailing(rule, password)
                           && ValidatePasswordRules(password, errMsg).errMsg == Message(rule)
  {
    var rule :=
      if !Holds(MinLength, password) then MinLength
      else if !Holds(NoSpaces, password) then NoSpaces
      else if !Holds(HasLower, password) then HasLower
      else if !Holds(HasUpper, password) then HasUpper
      else if !Holds(HasDigit, password) then HasDigit
      else HasSpecial;
    assert FirstFailing(rule, password);
  }

  // ---------------------------------------------------------------------------
  // Hashing

  /** What `hashPassword` does: return the hash string, or throw. */
  datatype HashOutcome = Hashed(hash: string) | Threw(what: string)

  /** `verifyPassword(password, storedHash)`: success is a zero return code
      of `crypto_pwhash_str_verify`, any other code is a mismatch. */
  function VerifyPassword(ph: Pwhash, password: Bytes, storedHash: string): bool
  {
    ph.strVerify(storedHash, password) == 0
  }

  /** `hashPassword(password)`: `crypto_pwhash_str` draws a fresh salt; a
      failure is thrown, never returned as a hash. A hash it returns
      verifies against the password it was made from. */
  method HashPassword(ph: Pwhash, password: Bytes) returns (r: HashOutcome)
    ensures r.Threw? ==> r.what == "crypto_pwhash_str failed"
    ensures r.Hashed? ==> VerifyPassword(ph, password, r.hash)
    ensures r.Hashed? ==> exists salt :: |salt| == PwhashSaltBytes && ph.str(password, salt) == Some(r.hash)
    ensures r.Threw? ==> exists salt :: |salt| == PwhashSaltBytes && ph.str(password, salt) == None
  {
    var salt := ArbitraryBytes(PwhashSaltBytes);
    var out := ph.str(password, salt);
    if out.None? {
      return Threw("crypto_pwhash_str failed");
    }
    r := Hashed(out.value);
  }
}
