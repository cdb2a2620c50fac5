/**
 * `hmac_sha256_128`: HMAC over SHA-256 as section 2 of RFC 2104 defines it,
 * truncated to its leftmost 128 bits as section 5 of RFC 2104 allows.
 */
module Hashing {
  import opened Bytes
  import opened Primitives

  /** The SHA-256 block size B of RFC 2104, in bytes. */
  const BLOCK_SIZE: nat := 64

  /** The inner and outer padding bytes of RFC 2104. */
  const IPAD: uint8 := 0x36
  const OPAD: uint8 := 0x5c

  /** The key after its first step: hashed when it is longer than one block, kept otherwise. */
  function ShortKey(sha256: Sha256, key: seq<uint8>): (k: seq<uint8>)
    ensures |k| <= BLOCK_SIZE
  {
    if |key| > BLOCK_SIZE then sha256(key) else key
  }

  /** The key K of RFC 2104: ShortKey followed by zeros up to one block. */
  function BlockKey(sha256: Sha256, key: seq<uint8>): (k: seq<uint8>)
    ensures |k| == BLOCK_SIZE
    ensures k[..|ShortKey(sha256, key)|] == ShortKey(sha256, key)
    ensures forall j :: |ShortKey(sha256, key)| <= j < BLOCK_SIZE ==> k[j] == 0
  {
    var short := ShortKey(sha256, key);
    short + Zeros(BLOCK_SIZE - |short|)
  }

  /** Each byte of k exclusive-or'd with pad. */
  function Mask(k: seq<uint8>, pad: uint8): (r: seq<uint8>)
    ensures |r| == |k| && forall j :: 0 <= j < |k| ==> r[j] == Xor(k[j], pad)
  {
    seq(|k|, j requires 0 <= j < |k| => Xor(k[j], pad))
  }

  /** H(K XOR opad, H(K XOR ipad, text)), the HMAC of section 2 of RFC 2104. */
  function Hmac(sha256: Sha256, key: seq<uint8>, text: seq<uint8>): Digest
  {
    var k := BlockKey(sha256, key);
    sha256(Mask(k, OPAD) + sha256(Mask(k, IPAD) + text))
  }

  /** A `Sha256` hasher: `update` appends to what it has absorbed, `finalize` digests it. */
  class Hasher {
    const sha256: Sha256
    var absorbed: seq<uint8>

    constructor (sha256: Sha256)
      ensures this.sha256 == sha256 && absorbed == []
    {
      this.sha256 := sha256;
      absorbed := [];
    }

    method Update(data: seq<uint8>)
      modifies this
      ensures absorbed == old(absorbed) + data
    {
      absorbed := absorbed + data;
    }

    method Finalize() returns (d: Digest)
      ensures d == sha256(absorbed)
    {
      d := sha256(absorbed);
    }
  }

  /** One hashing pass: a fresh hasher fed `first` then `second`, then finalised. */
  method HashPass(sha256: Sha256, first: seq<uint8>, second: seq<uint8>) returns (d: Digest)
    ensures d == sha256(first + second)
  {
    var hasher := new Hasher(sha256);
    hasher.Update(first);
    hasher.Update(second);
    assert hasher.absorbed == first + second;
    d := hasher.Finalize();
  }

  /** Lines 8-15 of `hmac_sha256_128`: the key is replaced by its digest if too long, then zero-extended. */
  method NormaliseKey(sha256: Sha256, key: seq<uint8>) returns (k: seq<uint8>)
    ensures k == BlockKey(sha256, key)
  {
    k := key;
    if |k| > BLOCK_SIZE {
      k := sha256(k);
    }
    if |k| < BLOCK_SIZE {
      k := k + Zeros(BLOCK_SIZE - |k|);
    }
  }

  /** `hmac_sha256_128(key, message)`: the key normalised in place, then two hashing passes. */
  method HmacSha256To128(sha256: Sha256, key: seq<uint8>, message: seq<uint8>) returns (r: seq<uint8>)
    ensures |r| == 16
    ensures r == Hmac(sha256, key, message)[..16]
  {
    var k := NormaliseKey(sha256, key);
    var ipad := Mask(k, IPAD);
    var opad := Mask(k, OPAD);

    var innerHash := HashPass(sha256, ipad, message);
    var outerHash := HashPass(sha256, opad, innerHash);
    r := outerHash[..16];
  }

  /** The two cases of key normalisation: zero-padding a short key, hashing then padding a long one. */
  lemma BlockKeyCases(sha256: Sha256, key: seq<uint8>)
    ensures |key| <= BLOCK_SIZE ==> BlockKey(sha256, key) == key + Zeros(BLOCK_SIZE - |key|)
    ensures |key| > BLOCK_SIZE ==> BlockKey(sha256, key) == sha256(key) + Zeros(32)
  {
  }

  /** Masking twice with one pad restores the key, so each masked key determines K. */
  lemma {:induction false} MaskTwice(k: seq<uint8>, pad: uint8)
    ensures Mask(Mask(k, pad), pad) == k
  {
    forall j | 0 <= j < |k|
      ensures Mask(Mask(k, pad), pad)[j] == k[j]
    {
      XorTwice(k[j], pad);
    }
  }

  /** A masked key determines the key it was masked from. */
  lemma MaskDeterminesKey(k1: seq<uint8>, k2: seq<uint8>, pad: uint8)
    requires Mask(k1, pad) == Mask(k2, pad)
    ensures k1 == k2
  {
    MaskTwice(k1, pad);
    MaskTwice(k2, pad);
  }

  /** The inner and outer passes never see the same masked key. */
  lemma InnerOuterKeysDiffer(sha256: Sha256, key: seq<uint8>)
    ensures Mask(BlockKey(sha256, key), IPAD) != Mask(BlockKey(sha256, key), OPAD)
  {
    var k := BlockKey(sha256, key);
    XorInjective(k[0], IPAD, OPAD);
    assert Mask(k, IPAD)[0] != Mask(k, OPAD)[0];
  }

  /** Appending a zero byte to a short key does not change the HMAC (both pad to the same K). */
  lemma ZeroExtendedKeySameHmac(sha256: Sha256, key: seq<uint8>, text: seq<uint8>)
    requires |key| < BLOCK_SIZE
    ensures Hmac(sha256, key + [0], text) == Hmac(sha256, key, text)
  {
    BlockKeyCases(sha256, key);
    BlockKeyCases(sha256, key + [0]);
    assert key + [0] + Zeros(BLOCK_SIZE - |key| - 1) == key + Zeros(BLOCK_SIZE - |key|);
  }

  /** A key longer than one block and its SHA-256 digest give the same HMAC. */
  lemma LongKeySameAsItsDigest(sha256: Sha256, key: seq<uint8>, text: seq<uint8>)
    requires |key| > BLOCK_SIZE
    ensures Hmac(sha256, key, text) == Hmac(sha256, sha256(key), text)
  {
  }
}
