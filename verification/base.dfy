/** Shared vocabulary: bytes, optional values, and the two ways a buffer gets
    contents nobody chose (a random source, a resize). */
module Base {

  /** An `unsigned char`. */
  type Byte = x: int | 0 <= x < 256

  type Bytes = seq<Byte>

  datatype Option<+T> = None | Some(value: T)

  /** `n` bytes about which nothing is known but their number: what the
      random sources (`randombytes_buf`, `RAND_bytes`) hand back. */
  method ArbitraryBytes(n: nat) returns (r: Bytes)
    ensures |r| == n
  {
    assert |seq(n, _ => 0)| == n;
    r :| |r| == n;
  }

  /** `n` zero bytes. */
  function Zeros(n: nat): (r: Bytes)
    ensures |r| == n && forall i :: 0 <= i < n ==> r[i] == 0
  {
    seq(n, _ => 0)
  }

  /** `std::vector<unsigned char>::resize(n)`: the first `min(|v|, n)` bytes
      survive, any new ones are value-initialised to zero. */
  function Resize(v: Bytes, n: nat): (r: Bytes)
    ensures |r| == n
    ensures forall i :: 0 <= i < n && i < |v| ==> r[i] == v[i]
    ensures forall i :: |v| <= i < n ==> r[i] == 0
  {
    if n <= |v| then v[..n] else v + Zeros(n - |v|)
  }
}
