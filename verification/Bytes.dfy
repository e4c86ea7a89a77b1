/** Bytes and the little-endian integers every Song message is made of.
    Widths are in bytes; a value that does not fit its width is truncated, as a C++ integer cast does. */
module Bytes {

  datatype Option<+T> = None | Some(value: T)

  type byte = x: int | 0 <= x < 256

  type bytes = seq<byte>

  const U16_COUNT: int := 0x1_0000
  const U32_COUNT: int := 0x1_0000_0000

  /** 256 to the power w: how many values w bytes can hold. */
  function Pow256(w: nat): (r: nat)
    ensures r >= 1
  {
    if w == 0 then 1 else 256 * Pow256(w - 1)
  }

  /** The low w bytes of n, least significant first. */
  function Le(n: nat, w: nat): (r: bytes)
    ensures |r| == w
  {
    if w == 0 then [] else [n % 256] + Le(n / 256, w - 1)
  }

  /** The number that a little-endian byte string stands for. */
  function FromLe(b: bytes): nat {
    if b == [] then 0 else b[0] + 256 * FromLe(b[1..])
  }

  lemma {:induction false} FromLeBound(b: bytes)
    ensures FromLe(b) < Pow256(|b|)
  {
    if b != [] {
      FromLeBound(b[1..]);
    }
  }

  /** Reading back w little-endian bytes gives the number that was written, as long as it fits. */
  lemma {:induction false} LeRoundTrip(n: nat, w: nat)
    requires n < Pow256(w)
    ensures FromLe(Le(n, w)) == n
  {
    if w > 0 {
      LeRoundTrip(n / 256, w - 1);
      assert Le(n, w)[1..] == Le(n / 256, w - 1);
    }
  }

  /** Every byte string of length w is the encoding of exactly one number. */
  lemma {:induction false} FromLeRoundTrip(b: bytes)
    ensures Le(FromLe(b), |b|) == b
  {
    if b != [] {
      FromLeRoundTrip(b[1..]);
      assert FromLe(b) / 256 == FromLe(b[1..]);
    }
  }

  /** The integers that w bytes hold in two's complement. */
  predicate FitsSigned(n: int, w: nat) {
    0 <= 2 * n + Pow256(w) < 2 * Pow256(w)
  }

  /** Two's complement: the unsigned image of an integer of w bytes, and back. */
  function ToUnsigned(n: int, w: nat): (r: nat)
    requires FitsSigned(n, w)
    ensures r < Pow256(w)
  {
    if n < 0 then n + Pow256(w) else n
  }

  function ToSigned(u: nat, w: nat): int {
    if 2 * u >= Pow256(w) then u as int - Pow256(w) else u
  }

  lemma SignedRoundTrip(n: int, w: nat)
    requires FitsSigned(n, w)
    ensures ToSigned(ToUnsigned(n, w), w) == n
  {
  }

  /** A signed number read from w bytes always fits, and writing it again gives those bytes. */
  lemma SignedFromBytes(b: bytes)
    ensures FitsSigned(ToSigned(FromLe(b), |b|), |b|)
    ensures ToUnsigned(ToSigned(FromLe(b), |b|), |b|) == FromLe(b)
  {
    FromLeBound(b);
  }

  lemma Pow256Values()
    ensures Pow256(1) == 0x100 && Pow256(2) == U16_COUNT && Pow256(4) == U32_COUNT
    ensures Pow256(8) == 0x1_0000_0000_0000_0000
  {
    assert Pow256(2) == 256 * Pow256(1);
    assert Pow256(3) == 256 * Pow256(2);
    assert Pow256(4) == 256 * Pow256(3);
    assert Pow256(5) == 256 * Pow256(4);
    assert Pow256(6) == 256 * Pow256(5);
    assert Pow256(7) == 256 * Pow256(6);
  }
}
