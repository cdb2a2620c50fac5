/**
 * Bytes and fixed-width unsigned integers, with the little- and big-endian
 * conversions that Rust's `to_le_bytes`, `from_le_bytes`, `to_be_bytes` and
 * `from_be_bytes` perform.
 */
module Bytes {

  newtype uint8 = x: int | 0 <= x < 0x100

  type u32 = x: nat | x < 0x1_0000_0000
  type u64 = x: nat | x < 0x1_0000_0000_0000_0000
  type u128 = x: nat | x < 0x1_0000_0000_0000_0000_0000_0000_0000_0000

  /** The bytes of a `&str` or `String`: its UTF-8 encoding. */
  type Text = seq<uint8>

  function Pow256(n: nat): (r: nat)
    ensures r > 0
  {
    if n == 0 then 1 else 256 * Pow256(n - 1)
  }

  lemma Pow256Widths()
    ensures Pow256(4) == 0x1_0000_0000
    ensures Pow256(8) == 0x1_0000_0000_0000_0000
    ensures Pow256(16) == 0x1_0000_0000_0000_0000_0000_0000_0000_0000
  {
  }

  function Zeros(n: nat): (r: seq<uint8>)
    ensures |r| == n && forall j :: 0 <= j < n ==> r[j] == 0
  {
    seq(n, _ => 0)
  }

  /** The n least significant bytes of x, least significant first. */
  function ToLe(x: nat, n: nat): (r: seq<uint8>)
    ensures |r| == n
  {
    if n == 0 then [] else [(x % 256) as uint8] + ToLe(x / 256, n - 1)
  }

  /** The number whose little-endian bytes are s. */
  function FromLe(s: seq<uint8>): (r: nat)
    ensures r < Pow256(|s|)
  {
    if s == [] then 0 else s[0] as nat + 256 * FromLe(s[1..])
  }

  /** The n least significant bytes of x, most significant first. */
  function ToBe(x: nat, n: nat): (r: seq<uint8>)
    ensures |r| == n
  {
    if n == 0 then [] else ToBe(x / 256, n - 1) + [(x % 256) as uint8]
  }

  /** The number whose big-endian bytes are s. */
  function FromBe(s: seq<uint8>): (r: nat)
    ensures r < Pow256(|s|)
  {
    if s == [] then 0 else 256 * FromBe(s[..|s| - 1]) + s[|s| - 1] as nat
  }

  lemma {:induction false} FromLeToLe(x: nat, n: nat)
    requires x < Pow256(n)
    ensures FromLe(ToLe(x, n)) == x
  {
    if n > 0 {
      FromLeToLe(x / 256, n - 1);
      assert ToLe(x, n)[1..] == ToLe(x / 256, n - 1);
    }
  }

  lemma {:induction false} ToLeFromLe(s: seq<uint8>)
    ensures ToLe(FromLe(s), |s|) == s
  {
    if s != [] {
      ToLeFromLe(s[1..]);
      assert FromLe(s) / 256 == FromLe(s[1..]);
      assert s == [s[0]] + s[1..];
    }
  }

  lemma {:induction false} FromBeToBe(x: nat, n: nat)
    requires x < Pow256(n)
    ensures FromBe(ToBe(x, n)) == x
  {
    if n > 0 {
      FromBeToBe(x / 256, n - 1);
      assert ToBe(x, n)[..n - 1] == ToBe(x / 256, n - 1);
    }
  }

  lemma {:induction false} ToBeFromBe(s: seq<uint8>)
    ensures ToBe(FromBe(s), |s|) == s
  {
    if s != [] {
      ToBeFromBe(s[..|s| - 1]);
      assert FromBe(s) / 256 == FromBe(s[..|s| - 1]);
      assert s == s[..|s| - 1] + [s[|s| - 1]];
    }
  }

  function Pow2(n: nat): (r: nat)
    ensures r > 0
  {
    if n == 0 then 1 else 2 * Pow2(n - 1)
  }

  /** Bitwise exclusive-or of the n low-order bits of a and b. */
  function XorBits(a: nat, b: nat, n: nat): (r: nat)
    ensures r < Pow2(n)
  {
    if n == 0 then 0
    else (if a % 2 == b % 2 then 0 else 1) + 2 * XorBits(a / 2, b / 2, n - 1)
  }

  /** Rust's `^` on `u8`. */
  function Xor(a: uint8, b: uint8): uint8
  {
    assert Pow2(8) == 256;
    XorBits(a as nat, b as nat, 8) as uint8
  }

  lemma {:induction false} XorBitsTwice(a: nat, b: nat, n: nat)
    requires a < Pow2(n)
    ensures XorBits(XorBits(a, b, n), b, n) == a
  {
    if n > 0 {
      XorBitsTwice(a / 2, b / 2, n - 1);
      assert XorBits(a, b, n) / 2 == XorBits(a / 2, b / 2, n - 1);
    }
  }

  lemma {:induction false} XorBitsInjective(a: nat, b: nat, c: nat, n: nat)
    requires b < Pow2(n) && c < Pow2(n) && XorBits(a, b, n) == XorBits(a, c, n)
    ensures b == c
  {
    if n > 0 {
      XorBitsInjective(a / 2, b / 2, c / 2, n - 1);
    }
  }

  /** Exclusive-or with the same byte twice is the identity. */
  lemma XorTwice(a: uint8, b: uint8)
    ensures Xor(Xor(a, b), b) == a
  {
    assert Pow2(8) == 256;
    XorBitsTwice(a as nat, b as nat, 8);
  }

  /** Distinct bytes exclusive-or'd into the same byte give distinct results. */
  lemma XorInjective(a: uint8, b: uint8, c: uint8)
    requires b != c
    ensures Xor(a, b) != Xor(a, c)
  {
    assert Pow2(8) == 256;
    if Xor(a, b) == Xor(a, c) {
      XorBitsInjective(a as nat, b as nat, c as nat, 8);
    }
  }
}
