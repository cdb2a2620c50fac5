/**
 * What `WasmIdGenerator::encode` and `decode` compute, as functions of the
 * root secret and the crates: the 16-byte block layout, the token text and
 * the error taxonomy of decoding.
 */
module Codec {
  import opened Wrappers
  import opened Bytes
  import opened Primitives
  import Base62
  import Hashing

  /** The separator between namespace and encoded block: '_'. */
  const SEPARATOR: uint8 := Base62.UNDERSCORE

  datatype Error =
    | InvalidFormat    // no '_' in the token, or more than 22 bytes after the last one
    | DecodeFailed     // the tail is not the base62 rendering of a u128
    | IntegrityFailed  // the decrypted block's checksum does not match

  datatype Id = Id(t: Text, i: u64, g: u32)

  /** The AES-128 key of namespace t: HMAC-SHA-256 of t under the secret, cut to 16 bytes. */
  function DeriveKey(sha256: Sha256, secret: Text, t: Text): Key128
  {
    Hashing.Hmac(sha256, secret, t)[..16]
  }

  /** `str::rsplit_once(sep)`: the text before and after the last sep. */
  function RSplitOnce(s: Text, sep: uint8): (r: Option<(Text, Text)>)
    ensures r.None? <==> sep !in s
    ensures r.Some? ==> s == r.value.0 + [sep] + r.value.1 && sep !in r.value.1
  {
    if s == [] then None
    else if s[|s| - 1] == sep then Some((s[..|s| - 1], []))
    else
      match RSplitOnce(s[..|s| - 1], sep)
      case None => None
      case Some((before, after)) => Some((before, after + [s[|s| - 1]]))
  }

  /** The plaintext block: LE id in bytes 0-7, LE tag in 8-11, LE CRC-32 of bytes 0-11 in 12-15. */
  function Pack(crc32: Crc32, i: u64, g: u32): (b: Block)
  {
    var head := ToLe(i, 8) + ToLe(g, 4);
    head + ToLe(crc32(head), 4)
  }

  /** The checksum stored in bytes 12-15 is the CRC-32 of bytes 0-11. */
  predicate ChecksumMatches(crc32: Crc32, b: Block)
  {
    crc32(b[..12]) == FromLe(b[12..])
  }

  /** The id and tag read back from bytes 0-7 and 8-11. */
  function Unpack(b: Block): (u64, u32)
  {
    Pow256Widths();
    (FromLe(b[..8]), FromLe(b[8..12]))
  }

  /** The token `encode(t, i, g)` returns. */
  function EncodeToken(c: Crates, secret: Text, t: Text, i: u64, g: u32): Text
  {
    var cipher := c.aes.encrypt(DeriveKey(c.sha256, secret, t), Pack(c.crc32, i, g));
    Pow256Widths();
    t + [SEPARATOR] + Base62.Encode(FromBe(cipher))
  }

  /** What `decode(token)` returns. */
  function DecodeToken(c: Crates, secret: Text, token: Text): Result<Id, Error>
  {
    match RSplitOnce(token, SEPARATOR)
    case None => Failure(InvalidFormat)
    case Some((t, tail)) => DecodeParts(c, secret, t, tail)
  }

  /** What `decode` returns once the token is split into namespace t and tail. */
  function DecodeParts(c: Crates, secret: Text, t: Text, tail: Text): Result<Id, Error>
  {
    if |tail| > Base62.MAX_DIGITS then Failure(InvalidFormat)
    else
      match Base62.Decode(tail)
      case None => Failure(DecodeFailed)
      case Some(n) => OpenBlock(c, secret, t, n)
  }

  /** What `decode` returns once the tail has decoded to n: decrypt, check the CRC, unpack. */
  function OpenBlock(c: Crates, secret: Text, t: Text, n: u128): Result<Id, Error>
  {
    CheckBlock(c.crc32, t, c.aes.decrypt(DeriveKey(c.sha256, secret, t), ToBe(n, 16)))
  }

  /** The last step of `decode`: the integrity check on the decrypted block, then the unpacked id. */
  function CheckBlock(crc32: Crc32, t: Text, plain: Block): Result<Id, Error>
  {
    if !ChecksumMatches(crc32, plain) then Failure(IntegrityFailed)
    else Success(Id(t, Unpack(plain).0, Unpack(plain).1))
  }

  /** Splitting at the last separator recovers the parts when the tail has none. */
  lemma {:induction false} RSplitOnceJoin(before: Text, sep: uint8, after: Text)
    requires sep !in after
    ensures RSplitOnce(before + [sep] + after, sep) == Some((before, after))
  {
    var s := before + [sep] + after;
    if after != [] {
      var last := after[|after| - 1];
      RSplitOnceJoin(before, sep, after[..|after| - 1]);
      assert s[..|s| - 1] == before + [sep] + after[..|after| - 1];
      assert after == after[..|after| - 1] + [last];
    } else {
      assert s[..|s| - 1] == before;
    }
  }

  /** The layout of the plaintext block, byte range by byte range. */
  lemma PackLayout(crc32: Crc32, i: u64, g: u32)
    ensures Pack(crc32, i, g)[..8] == ToLe(i, 8)
    ensures Pack(crc32, i, g)[8..12] == ToLe(g, 4)
    ensures Pack(crc32, i, g)[12..] == ToLe(crc32(Pack(crc32, i, g)[..12]), 4)
  {
  }

  /** A packed block passes the checksum and unpacks to what was packed. */
  lemma UnpackPack(crc32: Crc32, i: u64, g: u32)
    ensures ChecksumMatches(crc32, Pack(crc32, i, g))
    ensures Unpack(Pack(crc32, i, g)) == (i, g)
  {
    PackLayout(crc32, i, g);
    Pow256Widths();
    FromLeToLe(i, 8);
    FromLeToLe(g, 4);
    FromLeToLe(crc32(Pack(crc32, i, g)[..12]), 4);
  }

  /** The token is the namespace, '_', and at most 22 base62 digits, none of them '_'. */
  lemma EncodeTokenShape(c: Crates, secret: Text, t: Text, i: u64, g: u32)
    ensures var token := EncodeToken(c, secret, t, i, g);
      && |t| + 2 <= |token| <= |t| + 1 + Base62.MAX_DIGITS
      && token[..|t|] == t
      && token[|t|] == SEPARATOR
      && SEPARATOR !in token[|t| + 1..]
      && RSplitOnce(token, SEPARATOR) == Some((t, token[|t| + 1..]))
  {
    var token := EncodeToken(c, secret, t, i, g);
    var tail := token[|t| + 1..];
    assert token == t + [SEPARATOR] + tail;
    RSplitOnceJoin(t, SEPARATOR, tail);
  }

  /** decode(encode(t, i, g)) == (t, i, g), whatever t contains. */
  lemma DecodeEncode(c: Crates, secret: Text, t: Text, i: u64, g: u32)
    requires AesInverse(c.aes)
    ensures DecodeToken(c, secret, EncodeToken(c, secret, t, i, g)) == Success(Id(t, i, g))
  {
    var key := DeriveKey(c.sha256, secret, t);
    var plain := Pack(c.crc32, i, g);
    var cipher := c.aes.encrypt(key, plain);
    Pow256Widths();
    var n: u128 := FromBe(cipher);
    EncodeTokenShape(c, secret, t, i, g);
    Base62.DecodeEncode(n);
    ToBeFromBe(cipher);
    assert c.aes.decrypt(key, ToBe(n, 16)) == plain;
    UnpackPack(c.crc32, i, g);
  }

  /** A token without '_' is a format error. */
  lemma DecodeWithoutSeparator(c: Crates, secret: Text, token: Text)
    requires SEPARATOR !in token
    ensures DecodeToken(c, secret, token) == Failure(InvalidFormat)
  {
  }

  /** The namespace is everything before the last '_'; a tail over 22 bytes is a format error. */
  lemma DecodeTailTooLong(c: Crates, secret: Text, t: Text, tail: Text)
    requires SEPARATOR !in tail && |tail| > Base62.MAX_DIGITS
    ensures DecodeToken(c, secret, t + [SEPARATOR] + tail) == Failure(InvalidFormat)
  {
    RSplitOnceJoin(t, SEPARATOR, tail);
  }

  /** A tail of at most 22 bytes that base62 rejects is a decoding error. */
  lemma DecodeTailNotBase62(c: Crates, secret: Text, t: Text, tail: Text)
    requires SEPARATOR !in tail && |tail| <= Base62.MAX_DIGITS && Base62.Decode(tail).None?
    ensures DecodeToken(c, secret, t + [SEPARATOR] + tail) == Failure(DecodeFailed)
  {
    RSplitOnceJoin(t, SEPARATOR, tail);
  }

  /**
   * For a well-formed tail, decoding fails with an integrity error exactly
   * when the decrypted block's checksum is wrong, and otherwise returns the
   * namespace with the id and tag stored in the decrypted block.
   */
  lemma DecodeWellFormed(c: Crates, secret: Text, t: Text, tail: Text, n: u128)
    requires SEPARATOR !in tail && |tail| <= Base62.MAX_DIGITS && Base62.Decode(tail) == Some(n)
    ensures var plain := c.aes.decrypt(DeriveKey(c.sha256, secret, t), ToBe(n, 16));
      DecodeToken(c, secret, t + [SEPARATOR] + tail)
      == if c.crc32(plain[..12]) != FromLe(plain[12..16]) then Failure(IntegrityFailed)
         else Success(Id(t, FromLe(plain[..8]), FromLe(plain[8..12])))
  {
    Pow256Widths();
    RSplitOnceJoin(t, SEPARATOR, tail);
    var plain := c.aes.decrypt(DeriveKey(c.sha256, secret, t), ToBe(n, 16));
    assert plain[12..16] == plain[12..];
  }
}
