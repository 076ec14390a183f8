/** The `pbkdf2_gen` tool (tools/pbkdf2_gen.cpp): derives a 32-byte
    PBKDF2-HMAC-SHA-256 hash of a password under a fresh 16-byte salt and
    prints salt, hash and iteration count, the first two in lower-case
    base16 (`toHex`, which is `Hex.HexEncode`). */
module Pbkdf2Gen {
  import opened Base
  import opened Text
  import opened Primitives
  import Hex

  const DefaultIterations := 100000
  const SaltBytes := 16
  const HashBytes := 32

  const UsageText := "Usage: pbkdf2_gen <password> [iterations]"
  const RandFailedText := "RAND_bytes failed"

  /** The iteration count `main` settles on: the default without a second
      argument, otherwise whatever `std::atoi` makes of it. */
  function Iterations(argv: seq<string>): int
    requires |argv| >= 2
  {
    if |argv| >= 3 then Atoi(argv[2]) else DefaultIterations
  }

  /** A count written in decimal is the count used, whatever its sign:
      there is no positivity check, so zero and negative counts are passed
      on to PBKDF2 as they are. */
  lemma IterationsOfDecimal(prog: string, password: string, n: int)
    ensures Iterations([prog, password, IntToString(n)]) == n
  {
    AtoiOfIntToString(n);
  }

  /** A second argument that does not start like a number gives the count
      0, not the default. */
  lemma IterationsOfNonNumber(prog: string, password: string, text: string)
    requires text == [] || (!IsSpace(text[0]) && !IsDigit(text[0]) && text[0] != '-' && text[0] != '+')
    ensures Iterations([prog, password, text]) == 0
  {
    assert SkipSpaces(text) == text;
    assert LeadingDigits(text) == [];
  }

  /** The three lines printed on success. */
  function Report(salt: Bytes, hash: Bytes, iterations: int): seq<string> {
    ["salt=" + Hex.Encode(salt), "hash=" + Hex.Encode(hash), "iterations=" + IntToString(iterations)]
  }

  /** The report can be read back: each line has its fixed prefix, the
      salt and hash are 32 and 64 base16 digits that decode to the bytes
      used, and the count reads back with `atoi`. */
  lemma ReportReadsBack(salt: Bytes, hash: Bytes, iterations: int)
    requires |salt| == SaltBytes && |hash| == HashBytes
    ensures var r := Report(salt, hash, iterations);
            && |r| == 3
            && r[0][..5] == "salt=" && |r[0]| == 5 + 2 * SaltBytes && Hex.Decode(r[0][5..]) == Some(salt)
            && r[1][..5] == "hash=" && |r[1]| == 5 + 2 * HashBytes && Hex.Decode(r[1][5..]) == Some(hash)
            && r[2][..11] == "iterations=" && Atoi(r[2][11..]) == iterations
  {
    var r := Report(salt, hash, iterations);
    assert r[0][5..] == Hex.Encode(salt);
    assert r[1][5..] == Hex.Encode(hash);
    assert r[2][11..] == IntToString(iterations);
    Hex.DecodeEncode(salt);
    Hex.DecodeEncode(hash);
    AtoiOfIntToString(iterations);
  }

  /** `main(argc, argv)`. `randOk` is whether `RAND_bytes` succeeds and
      `kdf` is `PKCS5_PBKDF2_HMAC` with SHA-256. Without a password the
      usage line goes to standard error and the exit status is 1; a failing
      random source also exits 1 before anything is derived; otherwise the
      report of a fresh 16-byte salt and the 32-byte hash under it goes to
      standard output and the exit status is 0. */
  method Generate(argv: seq<string>, randOk: bool, kdf: Pbkdf2)
    returns (exit: int, stdout: seq<string>, stderr: seq<string>)
    ensures |argv| < 2 ==> exit == 1 && stdout == [] && stderr == [UsageText]
    ensures |argv| >= 2 && !randOk ==> exit == 1 && stdout == [] && stderr == [RandFailedText]
    ensures |argv| >= 2 && randOk ==>
              && exit == 0 && stderr == []
              && exists salt :: && |salt| == SaltBytes
                                && stdout == Report(salt, kdf(argv[1], salt, Iterations(argv), HashBytes),
                                                    Iterations(argv))
  {
    stdout, stderr := [], [];
    if |argv| < 2 {
      return 1, stdout, [UsageText];
    }
    var password := argv[1];
    var iterations := DefaultIterations;
    if |argv| >= 3 {
      iterations := Atoi(argv[2]);
    }

    if !randOk {
      return 1, stdout, [RandFailedText];
    }
    var salt := ArbitraryBytes(SaltBytes);

    var hash := kdf(password, salt, iterations, HashBytes);

    var saltHex := Hex.HexEncode(salt);
    var hashHex := Hex.HexEncode(hash);
    stdout := ["salt=" + saltHex, "hash=" + hashHex, "iterations=" + IntToString(iterations)];
    assert stdout == Report(salt, hash, iterations);
    exit := 0;
  }
}
