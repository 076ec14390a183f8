/** The text helpers the core leans on: the file-name parts of a path
    (`QFileInfo::fileName`, `QFileInfo::baseName`), character replacement
    (`QString::replace`), decimal printing (`QString::number`, `operator<<`)
    and decimal parsing (`std::atoi`). */
module Text {

  // ---------------------------------------------------------------------------
  // Paths

  /** The part of `path` after its last '/' (the whole of it when there is none). */
  function FileName(path: string): (r: string)
    ensures '/' !in r
    ensures |r| <= |path| && r == path[|path| - |r|..]
    ensures |r| < |path| ==> path[|path| - |r| - 1] == '/'
  {
    if path == [] then []
    else if path[|path| - 1] == '/' then []
    else FileName(path[..|path| - 1]) + [path[|path| - 1]]
  }

  /** Everything before the first '.' of `name`. */
  function UpToFirstDot(name: string): (r: string)
    ensures '.' !in r
    ensures |r| <= |name| && r == name[..|r|]
    ensures |r| < |name| ==> name[|r|] == '.'
  {
    if name == [] || name[0] == '.' then []
    else [name[0]] + UpToFirstDot(name[1..])
  }

  /** `QFileInfo(path).baseName()`: the file name up to its first '.'. */
  function BaseName(path: string): (r: string)
    ensures '/' !in r && '.' !in r
  {
    UpToFirstDot(FileName(path))
  }

  lemma {:induction false} FileNameOfPlainName(name: string)
    requires '/' !in name
    ensures FileName(name) == name
  {
    if name != [] {
      FileNameOfPlainName(name[..|name| - 1]);
    }
  }

  lemma {:induction false} UpToFirstDotOfStem(stem: string, ext: string)
    requires '.' !in stem
    ensures UpToFirstDot(stem + "." + ext) == stem
  {
    if stem != [] {
      assert (stem + "." + ext)[1..] == stem[1..] + "." + ext;
      UpToFirstDotOfStem(stem[1..], ext);
    }
  }

  /** A storage name `<stem>.<ext>` gives back its stem as base name: the key
      that ties a `.dat` file to its `.json` metadata. */
  lemma BaseNameOfStorageName(stem: string, ext: string)
    requires '/' !in stem && '.' !in stem && '/' !in ext
    ensures BaseName(stem + "." + ext) == stem
  {
    FileNameOfPlainName(stem + "." + ext);
    UpToFirstDotOfStem(stem, ext);
  }

  /** `QString::replace(QChar from, QChar to)`, every occurrence. */
  function ReplaceAll(s: string, from: char, to: char): (r: string)
    ensures |r| == |s|
    ensures forall i :: 0 <= i < |s| ==> r[i] == (if s[i] == from then to else s[i])
    ensures from != to ==> from !in r
  {
    seq(|s|, i requires 0 <= i < |s| => if s[i] == from then to else s[i])
  }

  /** Replacing a character that does not occur changes nothing. */
  lemma ReplaceAllAbsent(s: string, from: char, to: char)
    requires from !in s
    ensures ReplaceAll(s, from, to) == s
  {
  }

  // ---------------------------------------------------------------------------
  // Decimal numbers

  predicate IsDigit(c: char) { '0' as int <= c as int <= '9' as int }

  function DigitOf(d: nat): (c: char)
    requires d < 10
    ensures IsDigit(c) && c as int - '0' as int == d
  {
    ('0' as int + d) as char
  }

  /** The decimal digits of `n`, without leading zeros. */
  function NatToString(n: nat): (r: string)
    ensures |r| > 0
    ensures forall i :: 0 <= i < |r| ==> IsDigit(r[i])
  {
    if n < 10 then [DigitOf(n)] else NatToString(n / 10) + [DigitOf(n % 10)]
  }

  /** `QString::number(int)` and `std::ostream << int`: decimal, with a '-'
      in front of a negative number. */
  function IntToString(n: int): (r: string)
    ensures |r| > 0
    ensures n >= 0 ==> IsDigit(r[0])
    ensures n < 0 ==> r[0] == '-'
  {
    if n < 0 then "-" + NatToString(-n) else NatToString(n)
  }

  /** Value of a run of decimal digits. */
  function DigitsValue(s: string): (v: nat)
    requires forall i :: 0 <= i < |s| ==> IsDigit(s[i])
  {
    if s == [] then 0
    else
      assert IsDigit(s[|s| - 1]);
      DigitsValue(s[..|s| - 1]) * 10 + (s[|s| - 1] as int - '0' as int)
  }

  /** The longest prefix of `s` made of decimal digits. */
  function LeadingDigits(s: string): (r: string)
    ensures |r| <= |s| && r == s[..|r|]
    ensures forall i :: 0 <= i < |r| ==> IsDigit(r[i])
    ensures |r| < |s| ==> !IsDigit(s[|r|])
  {
    if s == [] || !IsDigit(s[0]) then [] else [s[0]] + LeadingDigits(s[1..])
  }

  /** The characters `isspace` accepts in the C locale. */
  predicate IsSpace(c: char) {
    c == ' ' || c == '\t' || c == '\n' || c == '\r' || c == '\U{B}' || c == '\U{C}'
  }

  function SkipSpaces(s: string): (r: string)
    ensures |r| <= |s| && r == s[|s| - |r|..]
    ensures r != [] ==> !IsSpace(r[0])
  {
    if s != [] && IsSpace(s[0]) then SkipSpaces(s[1..]) else s
  }

  /** `std::atoi`: leading white space, an optional sign, then as many
      decimal digits as follow; 0 when there are none. */
  function Atoi(s: string): int {
    var t := SkipSpaces(s);
    if t != [] && t[0] == '-' then -(DigitsValue(LeadingDigits(t[1..])) as int)
    else if t != [] && t[0] == '+' then DigitsValue(LeadingDigits(t[1..]))
    else DigitsValue(LeadingDigits(t))
  }

  lemma {:induction false} DigitsValueOfNatToString(n: nat)
    ensures DigitsValue(NatToString(n)) == n
  {
    if n >= 10 {
      var s := NatToString(n);
      DigitsValueOfNatToString(n / 10);
      assert s[..|s| - 1] == NatToString(n / 10);
    }
  }

  lemma {:induction false} LeadingDigitsOfDigits(s: string)
    requires forall i :: 0 <= i < |s| ==> IsDigit(s[i])
    ensures LeadingDigits(s) == s
  {
    if s != [] {
      LeadingDigitsOfDigits(s[1..]);
    }
  }

  /** The digits of a natural number read back as that number. */
  lemma ReadDigitsOfNat(n: nat)
    ensures DigitsValue(LeadingDigits(NatToString(n))) == n
  {
    LeadingDigitsOfDigits(NatToString(n));
    DigitsValueOfNatToString(n);
  }

  /** What `QString::number` prints, `std::atoi` reads back. */
  lemma AtoiOfIntToString(n: int)
    ensures Atoi(IntToString(n)) == n
  {
    var s := IntToString(n);
    assert !IsSpace(s[0]);
    assert SkipSpaces(s) == s;
    if n < 0 {
      assert s[1..] == NatToString(-n);
      ReadDigitsOfNat(-n);
    } else {
      assert s[0] != '-' && s[0] != '+';
      ReadDigitsOfNat(n);
    }
  }
}
