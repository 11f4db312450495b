/** Big-endian integers, as `write_u64`/`read_u64` and `write_u32`/`read_u32` lay them out,
    and the casts between `i64` and `u64`. */
module Bytes {

  type byte = x: int | 0 <= x < 256
  type u32 = x: int | 0 <= x < 0x1_0000_0000
  type u64 = x: int | 0 <= x < 0x1_0000_0000_0000_0000
  type i64 = x: int | -0x8000_0000_0000_0000 <= x < 0x8000_0000_0000_0000

  const TWO_32: nat := 0x1_0000_0000
  const TWO_63: int := 0x8000_0000_0000_0000
  const TWO_64: nat := 0x1_0000_0000_0000_0000

  /** The low `n` bytes of `x`, most significant first. */
  function ToBE(n: nat, x: nat): (s: seq<byte>)
    ensures |s| == n
  {
    if n == 0 then [] else ToBE(n - 1, x / 256) + [x % 256]
  }

  function FromBE(s: seq<byte>): nat
  {
    if s == [] then 0 else 256 * FromBE(s[..|s| - 1]) + s[|s| - 1]
  }

  function Pow256(n: nat): (p: nat)
    ensures p > 0
  {
    if n == 0 then 1 else 256 * Pow256(n - 1)
  }

  lemma {:induction false} BERoundTrip(n: nat, x: nat)
    requires x < Pow256(n)
    ensures FromBE(ToBE(n, x)) == x
  {
    if n > 0 {
      BERoundTrip(n - 1, x / 256);
      assert ToBE(n, x)[..n - 1] == ToBE(n - 1, x / 256);
    }
  }

  /** The first byte weighs most. */
  lemma {:induction false} FirstByteWeighs(b: byte, s: seq<byte>)
    ensures FromBE([b] + s) == b * Pow256(|s|) + FromBE(s)
  {
    if s == [] {
      assert [b] + s == [b] && [b][..0] == [];
    } else {
      FirstByteWeighs(b, s[..|s| - 1]);
      assert ([b] + s)[..|s|] == [b] + s[..|s| - 1];
    }
  }

  lemma Pow256Of4And8()
    ensures Pow256(4) == TWO_32 && Pow256(8) == TWO_64
  {
    assert Pow256(2) == 0x1_0000;
    assert Pow256(4) == 0x1_0000_0000;
    assert Pow256(6) == 0x1_0000_0000_0000;
  }

  predicate IsI64(x: int) { -TWO_63 <= x < TWO_63 }

  /** Rust's `x as u64` for an `i64`. */
  function AsU64(x: int): (u: nat)
    requires IsI64(x)
    ensures u < TWO_64
    ensures x >= 0 ==> u == x
  {
    if x < 0 then x + TWO_64 else x
  }

  /** Rust's `x as i64` for a `u64`. */
  function AsI64(x: nat): (i: int)
    requires x < TWO_64
    ensures IsI64(i)
  {
    if x < TWO_63 then x else x - TWO_64
  }

  /** `u64` addition without overflow checks. */
  function WrapAdd(x: nat, y: nat): (z: nat)
    ensures z < TWO_64
  {
    (x + y) % TWO_64
  }

  lemma CastRoundTrip(x: int)
    requires IsI64(x)
    ensures AsI64(AsU64(x)) == x
  {}

  lemma WrapAddNext(x: nat, i: nat)
    ensures WrapAdd(WrapAdd(x, i), 1) == WrapAdd(x, i + 1)
  {}
}
