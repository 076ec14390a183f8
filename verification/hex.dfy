/** Base16 (RFC 4648 section 8) as the core uses it: `hexEncode`
    (src/tools/create_submission.cpp) and `toHex` (tools/pbkdf2_gen.cpp)
    write lower-case, zero-padded pairs; `hexToBytes`
    (src/config/ConfigManager.cpp) reads pairs of either case and gives back
    an empty vector for odd-length or malformed text. */
module Hex {
  import opened Base

  predicate IsLowerHexDigit(c: char) {
    ('0' as int <= c as int <= '9' as int) || ('a' as int <= c as int <= 'f' as int)
  }

  /** ASCII lower-casing of one character. */
  function LowerChar(c: char): char {
    if 'A' as int <= c as int <= 'Z' as int then (c as int + 32) as char else c
  }

  function Lower(s: string): (r: string)
    ensures |r| == |s| && forall i :: 0 <= i < |s| ==> r[i] == LowerChar(s[i])
  {
    seq(|s|, i requires 0 <= i < |s| => LowerChar(s[i]))
  }

  /** The lower-case digit for a value below 16. */
  function DigitChar(d: nat): (c: char)
    requires d < 16
    ensures IsLowerHexDigit(c)
  {
    if d < 10 then ('0' as int + d) as char else ('a' as int + d - 10) as char
  }

  /** Value of one hexadecimal digit of either case; `None` for any other
      character. A digit's value prints back as that digit, lower-cased. */
  function DigitValue(c: char): (r: Option<nat>)
    ensures r.Some? ==> r.value < 16 && DigitChar(r.value) == LowerChar(c)
    ensures r.None? ==> !IsLowerHexDigit(LowerChar(c))
  {
    if '0' as int <= c as int <= '9' as int then Some(c as int - '0' as int)
    else if 'a' as int <= c as int <= 'f' as int then Some(c as int - 'a' as int + 10)
    else if 'A' as int <= c as int <= 'F' as int then Some(c as int - 'A' as int + 10)
    else None
  }

  lemma DigitValueIgnoresCase(c: char)
    ensures DigitValue(LowerChar(c)) == DigitValue(c)
  {
  }

  /** The two characters `std::setw(2)` with `std::hex` and fill '0' print
      for one byte. */
  function ByteText(b: Byte): (t: string)
    ensures |t| == 2 && IsLowerHexDigit(t[0]) && IsLowerHexDigit(t[1])
  {
    [DigitChar(b / 16), DigitChar(b % 16)]
  }

  /** One two-character pair read in base 16, or `None` when either
      character is not a hexadecimal digit. */
  function PairValue(hi: char, lo: char): (r: Option<Byte>)
    ensures r.Some? <==> DigitValue(hi).Some? && DigitValue(lo).Some?
    ensures r.Some? ==> r.value == 16 * DigitValue(hi).value + DigitValue(lo).value
  {
    match (DigitValue(hi), DigitValue(lo))
    case (Some(h), Some(l)) => Some(16 * h + l)
    case _ => None
  }

  lemma PairValueOfByteText(b: Byte)
    ensures PairValue(ByteText(b)[0], ByteText(b)[1]) == Some(b)
  {
    assert DigitValue(DigitChar(b / 16)) == Some(b / 16);
    assert DigitValue(DigitChar(b % 16)) == Some(b % 16);
  }

  /** A valid pair prints back as itself, lower-cased. */
  lemma ByteTextOfPair(hi: char, lo: char)
    requires PairValue(hi, lo).Some?
    ensures ByteText(PairValue(hi, lo).value) == [LowerChar(hi), LowerChar(lo)]
  {
    var h, l := DigitValue(hi).value, DigitValue(lo).value;
    var b := PairValue(hi, lo).value;
    assert b / 16 == h && b % 16 == l;
  }

  // ---------------------------------------------------------------------------
  // Encoding

  /** Lower-case base16 of `v`, one zero-padded pair per byte. */
  function Encode(v: Bytes): (s: string)
    ensures |s| == 2 * |v|
    ensures forall j :: 0 <= j < |s| ==> IsLowerHexDigit(s[j])
  {
    if v == [] then "" else Encode(v[..|v| - 1]) + ByteText(v[|v| - 1])
  }

  /** Byte `i` is written at positions `2i` and `2i+1`. */
  lemma {:induction false} EncodeAt(v: Bytes, i: nat)
    requires i < |v|
    ensures Encode(v)[2 * i] == ByteText(v[i])[0]
    ensures Encode(v)[2 * i + 1] == ByteText(v[i])[1]
  {
    if i < |v| - 1 {
      EncodeAt(v[..|v| - 1], i);
    }
  }

  /** `hexEncode` / `toHex`: one `setw(2)` pair appended per byte. */
  method HexEncode(v: Bytes) returns (s: string)
    ensures s == Encode(v)
  {
    s := "";
    var i := 0;
    while i < |v|
      invariant i <= |v|
      invariant s == Encode(v[..i])
    {
      assert v[..i + 1][..i] == v[..i];
      s := s + ByteText(v[i]);
      i := i + 1;
    }
    assert v[..i] == v;
  }

  // ---------------------------------------------------------------------------
  // Decoding

  /** Pairs read from the left; `None` as soon as one pair is malformed. */
  function DecodePairs(s: string): (r: Option<Bytes>)
    requires |s| % 2 == 0
    ensures r.Some? ==> 2 * |r.value| == |s|
  {
    if s == [] then Some([])
    else
      match DecodePairs(s[..|s| - 2])
      case None => None
      case Some(init) =>
        match PairValue(s[|s| - 2], s[|s| - 1])
        case None => None
        case Some(b) => Some(init + [b])
  }

  /** What `hexToBytes` reads from `s`: `None` for odd length or any pair
      that is not two hexadecimal digits. */
  function Decode(s: string): (r: Option<Bytes>)
    ensures |s| % 2 != 0 ==> r == None
    ensures r.Some? ==> 2 * |r.value| == |s|
  {
    if |s| % 2 != 0 then None else DecodePairs(s)
  }

  /** Byte `k` of a successful decoding is the value of characters `2k`, `2k+1`. */
  lemma {:induction false} DecodeAt(s: string, k: nat)
    requires Decode(s).Some? && k < |s| / 2
    ensures PairValue(s[2 * k], s[2 * k + 1]) == Some(Decode(s).value[k])
  {
    var init := s[..|s| - 2];
    assert DecodePairs(init).Some?;
    if k < |s| / 2 - 1 {
      DecodeAt(init, k);
    }
  }

  /** A single malformed pair anywhere makes the whole decoding fail. */
  lemma {:induction false} DecodeRejectsBadPair(s: string, k: nat)
    requires |s| % 2 == 0 && k < |s| / 2
    requires PairValue(s[2 * k], s[2 * k + 1]).None?
    ensures Decode(s) == None
  {
    var init := s[..|s| - 2];
    if k < |s| / 2 - 1 {
      DecodeRejectsBadPair(init, k);
    }
  }

  /** Round trip: `hexToBytes(hexEncode(v)) == v`. */
  lemma {:induction false} DecodeEncode(v: Bytes)
    ensures Decode(Encode(v)) == Some(v)
  {
    if v != [] {
      var s := Encode(v);
      var init := v[..|v| - 1];
      assert s[..|s| - 2] == Encode(init);
      DecodeEncode(init);
      PairValueOfByteText(v[|v| - 1]);
      assert init + [v[|v| - 1]] == v;
    }
  }

  /** The other direction: text that decodes is the encoding of its bytes up
      to letter case, so the encoder's output is the canonical spelling. */
  lemma {:induction false} EncodeDecode(s: string)
    requires Decode(s).Some?
    ensures Encode(Decode(s).value) == Lower(s)
  {
    if s != [] {
      var init := s[..|s| - 2];
      var v := Decode(s).value;
      assert DecodePairs(init).Some?;
      EncodeDecode(init);
      assert v[..|v| - 1] == Decode(init).value;
      ByteTextOfPair(s[|s| - 2], s[|s| - 1]);
      assert Lower(s) == Lower(init) + [LowerChar(s[|s| - 2]), LowerChar(s[|s| - 1])];
    }
  }

  /** Upper- and lower-case digits are read alike. */
  lemma {:induction false} DecodeIgnoresCase(s: string)
    ensures Decode(Lower(s)) == Decode(s)
  {
    if |s| % 2 == 0 && s != [] {
      var init := s[..|s| - 2];
      assert Lower(s)[..|s| - 2] == Lower(init);
      DecodeIgnoresCase(init);
      DigitValueIgnoresCase(s[|s| - 2]);
      DigitValueIgnoresCase(s[|s| - 1]);
    }
  }

  /** `hexToBytes`: walks the text two characters at a time, pushing each
      byte, and clears what it has pushed when a pair does not parse. */
  method HexToBytes(s: string) returns (out: Bytes)
    ensures |s| % 2 != 0 ==> out == []
    ensures out == (match Decode(s) case Some(b) => b case None => [])
  {
    out := [];
    if |s| % 2 != 0 {
      return;
    }
    var i := 0;
    while i < |s|
      invariant i % 2 == 0 && i <= |s|
      invariant DecodePairs(s[..i]) == Some(out)
    {
      var byte := PairValue(s[i], s[i + 1]);
      if byte.None? {
        DecodeRejectsBadPair(s, i / 2);
        out := [];
        return;
      }
      assert s[..i + 2][..i] == s[..i];
      out := out + [byte.value];
      i := i + 2;
    }
    assert s[..i] == s;
  }
}
