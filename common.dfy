/** Shared vocabulary: optional values, status results, bytes and the
    byte-copying primitive every buffer operation of the storage manager
    is built from (memcpy into a caller's buffer). */
module Common {

  /** An octet, `uint8_t`. */
  newtype byte = x: int | 0 <= x < 256

  datatype Option<+T> = None | Some(value: T)

  /** A status with no payload: `Status::Ok()` or an error of kind `E`. */
  datatype Outcome<+E> = Ok | Fail(error: E)

  /** A status together with the value an out-parameter would carry. */
  datatype Result<+T, +E> = Success(value: T) | Failure(error: E)

  const UINT64_MODULUS: int := 0x1_0000_0000_0000_0000

  function Min(a: int, b: int): int { if a < b then a else b }

  function Max(a: int, b: int): int { if a < b then b else a }

  /** The sequence `s` with `src` written over positions [at, at + |src|). */
  function Splice<T>(s: seq<T>, at: nat, src: seq<T>): (r: seq<T>)
    requires at + |src| <= |s|
    ensures |r| == |s|
    ensures r[..at] == s[..at] && r[at..at + |src|] == src && r[at + |src|..] == s[at + |src|..]
  {
    s[..at] + src + s[at + |src|..]
  }

  /** Writing `a` at the front and then `b` right after it writes `a + b`. */
  lemma SpliceAppend<T>(s: seq<T>, a: seq<T>, b: seq<T>)
    requires |a| + |b| <= |s|
    ensures Splice(Splice(s, 0, a), |a|, b) == Splice(s, 0, a + b)
  {
  }

  /** memcpy(dst + at, src, |src|). */
  method Memcpy(dst: array<byte>, at: nat, src: seq<byte>)
    requires at + |src| <= dst.Length
    modifies dst
    ensures dst[..] == Splice(old(dst[..]), at, src)
  {
    var i := 0;
    while i < |src|
      invariant 0 <= i <= |src|
      invariant dst[..] == Splice(old(dst[..]), at, src[..i])
    {
      dst[at + i] := src[i];
      i := i + 1;
      assert src[..i] == src[..i - 1] + [src[i - 1]];
    }
    assert src[..i] == src;
  }

  /** `n` copies of `unit`, back to back. */
  function Repeat<T>(unit: seq<T>, n: nat): seq<T>
  {
    if n == 0 then [] else Repeat(unit, n - 1) + unit
  }

  lemma {:induction false} RepeatLength<T>(unit: seq<T>, n: nat)
    ensures |Repeat(unit, n)| == n * |unit|
  {
    if n > 0 {
      RepeatLength(unit, n - 1);
    }
  }

  /** The `n` low-order bytes of `x`, least significant first: the memory
      image of an unsigned integer on the little-endian hosts the storage
      manager is built for. */
  function LittleEndian(x: nat, n: nat): (r: seq<byte>)
    ensures |r| == n
  {
    if n == 0 then [] else [(x % 256) as byte] + LittleEndian(x / 256, n - 1)
  }

  function DecodeLittleEndian(s: seq<byte>): nat
  {
    if s == [] then 0 else s[0] as nat + 256 * DecodeLittleEndian(s[1..])
  }

  function Pow256(n: nat): (r: nat)
    ensures r > 0
  {
    if n == 0 then 1 else 256 * Pow256(n - 1)
  }

  /** Decoding the image of a value that fits in `n` bytes gives it back. */
  lemma {:induction false} LittleEndianRoundTrip(x: nat, n: nat)
    requires x < Pow256(n)
    ensures DecodeLittleEndian(LittleEndian(x, n)) == x
  {
    if n > 0 {
      var s := LittleEndian(x, n);
      var q, m := x / 256, x % 256;
      assert s[1..] == LittleEndian(q, n - 1);
      QuotientBound(x, Pow256(n - 1));
      LittleEndianRoundTrip(q, n - 1);
      assert s[0] as nat == m;
      assert DecodeLittleEndian(s) == m + 256 * q;
    }
  }

  lemma QuotientBound(x: nat, p: nat)
    requires x < 256 * p
    ensures x / 256 < p
  {
  }

  lemma Pow256Eight()
    ensures Pow256(8) == UINT64_MODULUS
  {
  }

  /** The 8-byte image of a `uint64_t` as memcpy copies it. */
  function U64Bytes(x: nat): (r: seq<byte>)
    ensures |r| == 8
  {
    LittleEndian(x, 8)
  }
}
