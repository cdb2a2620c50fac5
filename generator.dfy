/**
 * `WasmIdGenerator`: the root secret, the bounded cache of per-namespace
 * AES-128 keys and the CRC-32 checksum, with `new`, `get_key`, `encode` and
 * `decode` working on a 16-byte buffer in place.
 */
module Generator {
  import opened Wrappers
  import opened Bytes
  import opened Primitives
  import Lru
  import Hashing
  import Base62
  import opened Codec

  /** `LruCache::new(NonZeroUsize::new(1024))`. */
  const CACHE_CAPACITY: nat := 1024

  /** `dst[at..at + |src|].copy_from_slice(src)`. */
  method CopyFromSlice(dst: array<uint8>, at: nat, src: seq<uint8>)
    requires at + |src| <= dst.Length
    modifies dst
    ensures dst[..] == old(dst[..at]) + src + old(dst[at + |src|..])
  {
    var j := 0;
    while j < |src|
      invariant 0 <= j <= |src|
      invariant forall m :: 0 <= m < at ==> dst[m] == old(dst[m])
      invariant forall m :: 0 <= m < j ==> dst[at + m] == src[m]
      invariant forall m :: at + j <= m < dst.Length ==> dst[m] == old(dst[m])
    {
      dst[at + j] := src[j];
      j := j + 1;
    }
    assert dst[..] == old(dst[..at]) + src + old(dst[at + |src|..]) by {
      forall m | 0 <= m < dst.Length
        ensures dst[..][m] == (old(dst[..at]) + src + old(dst[at + |src|..]))[m]
      {
        if m >= at && m < at + |src| {
          assert dst[at + (m - at)] == src[m - at];
        }
      }
    }
  }

  /** Lines 33-37 of `encode`: a zeroed 16-byte buffer filled with the id, the tag and their CRC-32. */
  method PackBuffer(crc: Crc32, i: u64, g: u32) returns (inputBytes: array<uint8>)
    ensures fresh(inputBytes) && inputBytes[..] == Pack(crc, i, g)
  {
    inputBytes := new uint8[16](_ => 0);
    CopyFromSlice(inputBytes, 0, ToLe(i, 8));
    ghost var afterId := inputBytes[..];
    assert afterId[..8] == ToLe(i, 8);
    CopyFromSlice(inputBytes, 8, ToLe(g, 4));
    ghost var head := inputBytes[..12];
    assert head == ToLe(i, 8) + ToLe(g, 4) by {
      assert head[..8] == afterId[..8];
    }
    var sum := crc(inputBytes[..12]);
    CopyFromSlice(inputBytes, 12, ToLe(sum, 4));
    assert inputBytes[..] == head + ToLe(sum, 4);
  }

  /** `cipher.encrypt_block_mut(block)`. */
  method EncryptBlockMut(aes: Aes128, key: Key128, block: array<uint8>)
    requires block.Length == 16
    modifies block
    ensures block[..] == aes.encrypt(key, old(block[..]))
  {
    var out := aes.encrypt(key, block[..]);
    CopyFromSlice(block, 0, out);
  }

  /** `cipher.decrypt_block_mut(block)`. */
  method DecryptBlockMut(aes: Aes128, key: Key128, block: array<uint8>)
    requires block.Length == 16
    modifies block
    ensures block[..] == aes.decrypt(key, old(block[..]))
  {
    var out := aes.decrypt(key, block[..]);
    CopyFromSlice(block, 0, out);
  }

  /**
   * The key cache after `get_key(t)` when t's key is k: a hit refreshes t's
   * recency, a miss puts (t, k), evicting the least recently used entry only
   * when the cache is full. Either way t ends up cached with key k.
   */
  function Fetched(c: Lru.Cache<Text, Key128>, t: Text, k: Key128): (r: Lru.Cache<Text, Key128>)
    requires Lru.Valid(c) && (t in c.entries ==> c.entries[t] == k)
    ensures Lru.Valid(r) && r.capacity == c.capacity
    ensures t in r.entries && r.entries[t] == k && r.order[0] == t
    ensures t in c.entries ==> r.entries == c.entries
    ensures forall u :: u in r.entries ==> u == t || u in c.entries
    ensures forall u :: u in c.entries && u != t ==>
      if u in r.entries then r.entries[u] == c.entries[u]
      else t !in c.entries && |c.entries| == c.capacity && u == Lru.Oldest(c)
  {
    if t in c.entries then Lru.Get(c, t).1 else Lru.Put(c, t, k)
  }

  class WasmIdGenerator {
    const secret: Text
    var ivCache: Lru.Cache<Text, Key128>
    const crc: Crc32
    const sha256: Sha256
    const aes: Aes128

    /** How many keys have been derived with the HMAC so far. */
    ghost var derivations: nat

    function Libs(): Crates
    {
      Crates(sha256, crc, aes)
    }

    /** The cache is bounded by 1024 and every cached key is the one derived from the secret. */
    ghost predicate Valid()
      reads this
    {
      && Lru.Valid(ivCache)
      && ivCache.capacity == CACHE_CAPACITY
      && forall u | u in ivCache.entries :: ivCache.entries[u] == DeriveKey(sha256, secret, u)
    }

    /** `WasmIdGenerator::new(key)`, given the crates' primitives. */
    constructor (key: Text, sha256: Sha256, crc: Crc32, aes: Aes128)
      ensures Valid()
      ensures secret == key && this.sha256 == sha256 && this.crc == crc && this.aes == aes
      ensures ivCache.entries == map[] && derivations == 0
    {
      secret := key;
      ivCache := Lru.New(CACHE_CAPACITY);
      this.crc := crc;
      this.sha256 := sha256;
      this.aes := aes;
      derivations := 0;
    }

    /** `get_key(t)`: fetch t's key from the cache, deriving and caching it on a miss. */
    method GetKey(t: Text) returns (k: Key128)
      requires Valid()
      modifies this
      ensures Valid()
      ensures k == DeriveKey(sha256, secret, t)
      ensures ivCache == Fetched(old(ivCache), t, k)
      ensures derivations == old(derivations) + (if t in old(ivCache.entries) then 0 else 1)
    {
      if t !in ivCache.entries {
        var key := Hashing.HmacSha256To128(sha256, secret, t);
        derivations := derivations + 1;
        var cipher: Key128 := key;
        Lru.GetAfterPut(ivCache, t, cipher);
        ivCache := Lru.Put(ivCache, t, cipher);
      }
      var got := Lru.Get(ivCache, t);
      ivCache := got.1;
      k := got.0.value;
    }

    /** `encode(t, i, g)`: pack, checksum and encrypt the block in place, then render the token. */
    method Encode(t: Text, i: u64, g: u32) returns (token: Text)
      requires Valid()
      modifies this
      ensures Valid()
      ensures token == EncodeToken(Libs(), secret, t, i, g)
      ensures ivCache == Fetched(old(ivCache), t, DeriveKey(sha256, secret, t))
      ensures derivations == old(derivations) + (if t in old(ivCache.entries) then 0 else 1)
    {
      var inputBytes := PackBuffer(crc, i, g);
      var cipher := GetKey(t);
      EncryptBlockMut(aes, cipher, inputBytes);
      Pow256Widths();
      token := t + [SEPARATOR] + Base62.Encode(FromBe(inputBytes[..]));
    }

    /** `decode(input)`: split, check the tail, base62-decode, decrypt in place, check the CRC, unpack. */
    method Decode(input: Text) returns (r: Result<Id, Error>)
      requires Valid()
      modifies this
      ensures Valid()
      ensures r == DecodeToken(Libs(), secret, input)
      ensures r == Failure(InvalidFormat) || r == Failure(DecodeFailed) ==>
        ivCache == old(ivCache) && derivations == old(derivations)
      ensures r != Failure(InvalidFormat) && r != Failure(DecodeFailed) ==>
        var t := RSplitOnce(input, SEPARATOR).value.0;
        && ivCache == Fetched(old(ivCache), t, DeriveKey(sha256, secret, t))
        && derivations == old(derivations) + (if t in old(ivCache.entries) then 0 else 1)
    {
      var split := RSplitOnce(input, SEPARATOR);
      if split.None? {
        return Failure(InvalidFormat);
      }
      var (t, encodedValue) := split.value;
      assert DecodeToken(Libs(), secret, input) == DecodeParts(Libs(), secret, t, encodedValue);
      if |encodedValue| > Base62.MAX_DIGITS {
        return Failure(InvalidFormat);
      }
      var decoded := Base62.Decode(encodedValue);
      if decoded.None? {
        return Failure(DecodeFailed);
      }
      r := DecryptAndUnpack(t, decoded.value);
    }

    /** The rest of `decode` once the tail has decoded to n: fetch the key, decrypt in place, check, unpack. */
    method DecryptAndUnpack(t: Text, n: u128) returns (r: Result<Id, Error>)
      requires Valid()
      modifies this
      ensures Valid()
      ensures r == Codec.OpenBlock(Libs(), secret, t, n)
      ensures ivCache == Fetched(old(ivCache), t, DeriveKey(sha256, secret, t))
      ensures derivations == old(derivations) + (if t in old(ivCache.entries) then 0 else 1)
    {
      var inputBytes := new uint8[16](_ => 0);
      CopyFromSlice(inputBytes, 0, ToBe(n, 16));
      assert inputBytes[..] == ToBe(n, 16);
      var cipher := GetKey(t);
      DecryptBlockMut(aes, cipher, inputBytes);
      r := CheckAndUnpack(crc, t, inputBytes);
    }
  }

  /** The end of `decode`: compare the CRC of the decrypted bytes 0-11 with bytes 12-15, then read the id and tag. */
  method CheckAndUnpack(crc: Crc32, t: Text, inputBytes: array<uint8>) returns (r: Result<Id, Error>)
    requires inputBytes.Length == 16
    ensures r == CheckBlock(crc, t, inputBytes[..])
  {
    ghost var plain: Block := inputBytes[..];
    assert inputBytes[..12] == plain[..12] && inputBytes[12..16] == plain[12..];
    var sum := crc(inputBytes[..12]);
    if sum != FromLe(inputBytes[12..16]) {
      return Failure(IntegrityFailed);
    }
    assert inputBytes[..8] == plain[..8] && inputBytes[8..12] == plain[8..12];
    Pow256Widths();
    var i: u64 := FromLe(inputBytes[..8]);
    var g: u32 := FromLe(inputBytes[8..12]);
    return Success(Id(t, i, g));
  }

  /** A token the generator issues decodes, on the same generator, to what was encoded. */
  method EncodeThenDecode(gen: WasmIdGenerator, t: Text, i: u64, g: u32) returns (r: Result<Id, Error>)
    requires gen.Valid() && AesInverse(gen.aes)
    modifies gen
    ensures gen.Valid()
    ensures r == Success(Id(t, i, g))
    ensures var k := DeriveKey(gen.sha256, gen.secret, t);
      gen.ivCache == Fetched(Fetched(old(gen.ivCache), t, k), t, k)
  {
    var token := gen.Encode(t, i, g);
    EncodeTokenShape(gen.Libs(), gen.secret, t, i, g);
    r := gen.Decode(token);
    DecodeEncode(gen.Libs(), gen.secret, t, i, g);
  }
}
