# node-db-ids token codec, in Dafny

This project models the core of `node-db-ids`: a generator that turns a database id into an
opaque, namespaced token and back. `WasmIdGenerator` holds a root secret, a bounded LRU cache of
per-namespace AES-128 keys and a CRC-32 checksum.

- `encode(t, i, g)` packs a 64-bit id `i` and a 32-bit tag `g` into a 16-byte block: bytes 0-7
  hold the little-endian id, 8-11 the little-endian tag, and 12-15 the little-endian CRC-32 of
  bytes 0-11. It encrypts the block in place with namespace `t`'s key, reads it as a big-endian
  `u128` and returns `t`, then `_`, then the base62 digits.
- `decode` splits at the last `_`. It rejects a tail longer than 22 bytes, base62-decodes the
  tail, decrypts the block in place, re-checks the CRC and unpacks the id and tag.
- A namespace's key is the leftmost 128 bits of HMAC-SHA-256 (section 2 of RFC 2104, truncated as
  in section 5) of the namespace, keyed by the secret. `get_key` derives it, or fetches it from a
  cache of 1024 entries.

Layout, one module per file:

- `wrappers.dfy`: the `Option` and `Result` datatypes.
- `bytes.dfy`: bytes, `u32`/`u64`/`u128`, little- and big-endian conversions, XOR.
- `primitives.dfy`: the crates the core calls: SHA-256, CRC-32, AES-128.
- `base62.dfy`: the base62 text encoding.
- `hashing.dfy`: `hmac_sha256_128`.
- `lru.dfy`: the LRU cache.
- `codec.dfy`: what encode and decode compute, as functions, and the round-trip theorem.
- `generator.dfy`: the `WasmIdGenerator` object with its methods and its in-place 16-byte buffers.

The main theorem is `Codec.DecodeEncode`: `decode(encode(t, i, g)) == (t, i, g)`. It holds for
every namespace `t`, `_` included, because base62 digits never contain `_`. It holds for every
`u64` id and `u32` tag. It assumes only that AES decryption undoes encryption under the same key.
`Generator.EncodeThenDecode` states the same round trip for the object: it holds across the cache
updates of both calls.

## Modelling decisions

- The source's strings are modelled as their UTF-8 bytes (`Text = seq<uint8>`). This matches the
  source in three places: `len()` on `&str` counts bytes, `as_bytes()` feeds the HMAC, and
  splitting on `'_'` is splitting on byte 0x5F. The model does not require the bytes to be valid
  UTF-8.
- The SHA-256, CRC-32 and AES-128 crates are parameters.
  - Their types fix the widths: a 32-byte digest, a 32-bit checksum, a 16-byte block and key.
  - The predicate `AesInverse` states that decryption undoes encryption. Only the round-trip
    theorems require it.
- The cache stores the 16-byte key in place of the `Aes128` context built from it, because the
  context is determined by the key.
- `LruCache` is modelled as a value: its entries and its recency order. The generator reassigns
  this value in its `ivCache` field.
  - `put` and `get` make a key the most recently used.
  - `put` of a new key into a full cache first evicts the least recently used entry.
  - `contains` does not change the order.
- base62 is plain positional conversion over the standard alphabet `0-9A-Za-z`.
  - `decode` rejects empty input, bytes outside the alphabet and values above `u128::MAX`.
  - The alphabet order and the empty-input rejection are the crate's documented behaviour. They
    are not visible in the source.
  - The theorems use only these facts: a `u128` renders in 1 to 22 alphabet bytes, the alphabet
    excludes `_`, and decoding undoes encoding.
- The model follows the code on four points where a reader might expect otherwise:
  - An invalid base62 tail is its own error, `DecodeFailed` ("Failed to decode input."). It is not
    a format error.
  - The 22-character limit is checked on the tail's byte length, not on its number of characters.
  - A namespace may contain `_`; nothing rejects it. The last-separator split still recovers it, as
    `Codec.DecodeEncode` proves.
  - `new` accepts any secret, the empty one included; nothing demands a minimum length.
- Only the 64+32-bit block layout is modelled. The 96-bit variant is not in the source.

## Model

| member | source | states |
|---|---|---|
| `Bytes.Zeros` | src/hashing.rs:14 | `repeat(0).take(n)`: n bytes, every one of them zero |
| `Bytes.ToLe` | src/lib.rs:34-37 | `to_le_bytes`: the n bytes of x, least significant first |
| `Bytes.FromLe` | src/lib.rs:67-81 | `from_le_bytes`: the value of the bytes read least significant first, which is below 256^n for n bytes |
| `Bytes.ToBe` | src/lib.rs:60 | `to_be_bytes`: the n bytes of x, most significant first |
| `Bytes.FromBe` | src/lib.rs:46 | `from_be_bytes`: the value of the bytes read most significant first, which is below 256^n for n bytes |
| `Bytes.Xor` | src/hashing.rs:17-18 | `^` on bytes: the bitwise exclusive-or of the eight bits of its operands |
| `Bytes.FromLeToLe` | src/lib.rs:34-37 | reading back the `to_le_bytes` of a value that fits in n bytes gives the value |
| `Bytes.ToLeFromLe` | src/lib.rs:72-81 | any byte sequence is the `to_le_bytes` of its own LE value, so the LE reading is one-to-one |
| `Bytes.FromBeToBe` | src/lib.rs:46-60 | reading back the `to_be_bytes` of a value that fits in n bytes gives the value |
| `Bytes.ToBeFromBe` | src/lib.rs:58-60 | `to_be_bytes` of the `u128` read from 16 big-endian bytes gives those bytes back |
| `Bytes.XorInjective` | src/hashing.rs:17-18 | XOR with two different pad bytes never gives the same byte |
| `Base62.Encode` | src/lib.rs:46 | the rendering of any `u128` is 1 to 22 alphabet bytes and contains no `_` |
| `Base62.Decode` | src/lib.rs:58-59 | decoding succeeds exactly for non-empty, all-alphabet text whose value is below 2^128, and then returns that value |
| `Base62.DecodeEncode` | src/lib.rs:46 | decoding the rendering of n gives n |
| `Base62.DigitsLength` | src/lib.rs:54-57 | a number below 62^k renders in at most k digits, so 22 digits hold any `u128` |
| `Hashing.ShortKey` | src/hashing.rs:10-12 | a key longer than 64 bytes is replaced by its SHA-256 digest; the result has at most 64 bytes |
| `Hashing.BlockKey` | src/hashing.rs:10-15 | the normalised key is 64 bytes: the key (or its digest when longer than 64 bytes), then zeros |
| `Hashing.BlockKeyCases` | src/hashing.rs:10-15 | a key of at most 64 bytes is zero-padded; a longer key becomes its 32-byte digest plus 32 zeros |
| `Hashing.Mask` | src/hashing.rs:17-18 | the masked key has the key's length and byte j is the key's byte j XOR the pad |
| `Hashing.MaskTwice` | src/hashing.rs:17-18 | masking twice with the same pad restores the key |
| `Hashing.MaskDeterminesKey` | src/hashing.rs:17-18 | two keys with the same masked key under one pad are the same key |
| `Hashing.Hmac` | src/hashing.rs:17-29 | HMAC-SHA-256: the digest of the opad-masked block key followed by the digest of the ipad-masked block key followed by the message |
| `Hashing.InnerOuterKeysDiffer` | src/hashing.rs:17-18 | the ipad-masked and opad-masked keys always differ |
| `Hashing.Hasher.constructor` | src/hashing.rs:20 | `Sha256::new()`: a fresh hasher over the given SHA-256 that has absorbed nothing |
| `Hashing.Hasher.Update` | src/hashing.rs:21-22 | `update` appends its input to the bytes the hasher has absorbed |
| `Hashing.Hasher.Finalize` | src/hashing.rs:23 | `finalize` returns the digest of everything absorbed |
| `Hashing.NormaliseKey` | src/hashing.rs:8-15 | the in-place key reassignment and extension yields the 64-byte normalised key |
| `Hashing.HashPass` | src/hashing.rs:20-27 | a new hasher updated with two inputs and then finalised gives the SHA-256 of their concatenation |
| `Hashing.HmacSha256To128` | src/hashing.rs:7-30 | the result has 16 bytes and is the first half of SHA-256(opad-key + SHA-256(ipad-key + message)) |
| `Hashing.ZeroExtendedKeySameHmac` | src/hashing.rs:13-14 | a short key and the same key with a zero byte appended give the same HMAC |
| `Hashing.LongKeySameAsItsDigest` | src/hashing.rs:10-11 | a key longer than 64 bytes and its SHA-256 digest give the same HMAC |
| `Lru.New` | src/lib.rs:27 | a new cache is empty, valid and has the requested capacity |
| `Lru.Oldest` | src/lib.rs:90 | the least recently used key, the one `put` evicts from a full cache; it is a cached key |
| `Lru.Evict` | src/lib.rs:90 | dropping the least recently used entry removes exactly that key and shrinks the cache by one |
| `Lru.Put` | src/lib.rs:90 | after `put`, k maps to v and is most recent, the size stays within capacity, and another entry is dropped only if it was the oldest, k was new and the cache was full |
| `Lru.Get` | src/lib.rs:92 | `get` returns the cached value and makes it most recent, or returns nothing and changes nothing |
| `Lru.GetAfterPut` | src/lib.rs:90-92 | a `get` right after a `put` of the same key returns the value and changes nothing further |
| `Codec.DeriveKey` | src/lib.rs:88-89 | a namespace's AES-128 key is the first 16 bytes of the HMAC-SHA-256 of the namespace under the secret |
| `Codec.Pack` | src/lib.rs:33-37 | the plaintext block: the id's 8 LE bytes, the tag's 4 LE bytes, then the 4 LE bytes of the CRC-32 of those 12 bytes |
| `Codec.Unpack` | src/lib.rs:72-81 | the id is the LE value of bytes 0-7 and the tag the LE value of bytes 8-11 of the decrypted block |
| `Codec.EncodeToken` | src/lib.rs:32-48 | the token is t, `_`, then the base62 rendering of the big-endian value of the packed block encrypted under t's derived key |
| `Codec.DecodeToken` | src/lib.rs:50-53 | a token without `_` is a format error; otherwise the result is `DecodeParts` of the text before and after the last `_` |
| `Codec.DecodeParts` | src/lib.rs:54-60 | a tail of more than 22 bytes is a format error, a tail base62 rejects is the decoding error, and otherwise the result is `OpenBlock` of its value |
| `Codec.OpenBlock` | src/lib.rs:58-65 | the decoded value's 16 big-endian bytes are decrypted under t's derived key and checked by `CheckBlock` |
| `Codec.CheckBlock` | src/lib.rs:66-83 | a block whose bytes 12-15 are not the LE CRC-32 of bytes 0-11 is the integrity error; otherwise the result is t with the unpacked id and tag |
| `Codec.ChecksumMatches` | src/lib.rs:66-67 | the integrity check: the CRC-32 of bytes 0-11 equals the LE value of bytes 12-15 |
| `Codec.RSplitOnce` | src/lib.rs:51-53 | there is no split exactly when there is no `_`; otherwise the token is before + `_` + after, with no `_` in after |
| `Codec.RSplitOnceJoin` | src/lib.rs:51-53 | splitting before + `_` + after, where after has no `_`, gives back (before, after) |
| `Codec.PackLayout` | src/lib.rs:33-37 | block bytes 0-7 are LE(i), bytes 8-11 are LE(g), bytes 12-15 are LE(crc32(bytes 0-11)) |
| `Codec.UnpackPack` | src/lib.rs:66-81 | a packed block passes the CRC check and unpacks to the packed id and tag |
| `Codec.EncodeTokenShape` | src/lib.rs:41-47 | the token starts with t and `_`; the tail has 1 to 22 bytes and no `_`; splitting the token gives (t, tail) |
| `Codec.DecodeEncode` | src/lib.rs:32-83 | decoding an encoded token returns (t, i, g) for every t, u64 i and u32 g, given AES decryption inverts encryption |
| `Codec.DecodeWithoutSeparator` | src/lib.rs:51-53 | a token without `_` fails with a format error |
| `Codec.DecodeTailTooLong` | src/lib.rs:55-57 | a tail after the last `_` longer than 22 bytes fails with a format error |
| `Codec.DecodeTailNotBase62` | src/lib.rs:58-59 | a tail of at most 22 bytes that base62 rejects fails with the decoding error |
| `Codec.DecodeWellFormed` | src/lib.rs:61-83 | for a decodable tail, decode returns the integrity error when crc32(plain[0..12]) differs from LE(plain[12..16]) and success with (t, LE(plain[0..8]), LE(plain[8..12])) otherwise |
| `Generator.PackBuffer` | src/lib.rs:33-37 | the zeroed buffer filled by three `copy_from_slice` calls equals the packed block |
| `Generator.CopyFromSlice` | src/lib.rs:34 | `copy_from_slice` writes exactly the target range and leaves the rest of the buffer alone |
| `Generator.EncryptBlockMut` | src/lib.rs:41-42 | the buffer is replaced by its encryption |
| `Generator.DecryptBlockMut` | src/lib.rs:64-65 | the buffer is replaced by its decryption |
| `Generator.Fetched` | src/lib.rs:86-93 | after `get_key`, t is cached with its key and is most recent, the cache stays within capacity, and any other entry is unchanged or evicted as the oldest, only on a miss into a full cache |
| `Generator.WasmIdGenerator.Valid` | src/lib.rs:24-93 | the object invariant: the cache is a well-formed LRU cache of capacity 1024 and every cached key is the key derived from the secret for its namespace |
| `Generator.WasmIdGenerator.constructor` | src/lib.rs:24-30 | a new generator keeps the secret and starts with an empty cache of capacity 1024 |
| `Generator.WasmIdGenerator.GetKey` | src/lib.rs:86-93 | the returned key is the HMAC-derived key of t, the cache moves as `Fetched` says, and a hit does not derive |
| `Generator.WasmIdGenerator.Encode` | src/lib.rs:32-48 | the in-place buffer code returns `Codec.EncodeToken`, fetches t's key as `Fetched` says, and derives a key only on a cache miss |
| `Generator.WasmIdGenerator.Decode` | src/lib.rs:50-84 | the in-place buffer code returns `Codec.DecodeToken`; format and base62 errors leave the cache untouched and derive no key; otherwise the namespace's key is fetched and derived only on a cache miss |
| `Generator.WasmIdGenerator.DecryptAndUnpack` | src/lib.rs:58-83 | writing the decoded `u128` into a buffer, decrypting it in place and checking it returns `Codec.OpenBlock`, fetches t's key as `Fetched` says, and derives a key only on a cache miss |
| `Generator.CheckAndUnpack` | src/lib.rs:66-81 | the CRC comparison and reading of id and tag from the buffer returns `Codec.CheckBlock` of its contents |
| `Generator.EncodeThenDecode` | src/lib.rs:32-84 | on one generator, decoding the token that `encode` returns gives (t, i, g), and the cache ends as two fetches of t's key leave it |

## Left out

- AES-128, SHA-256 and CRC-32 internals come from the `aes`, `sha2` and `crc` crates. They are
  parameters, constrained only by their widths and by `AesInverse`.
- The "Failed to initialize cipher." errors of `encode` and `decode` cannot happen: the derived
  key always has 16 bytes. So the model's `Encode` returns a token, not a result.
- The "Failed to convert decrypted bytes" errors cannot happen either: `try_into` is applied to
  slices of fixed length.
- Cryptographic strength: HMAC resists forgery, and distinct namespaces get unrelated keys.
  These are cryptographic claims, so the model does not state them.
- CRC-32 detects tampering only with probability 1 - 2^-32. Probabilities are outside the model.
- `wasm_bindgen` and `JsValue`: the host marshalling and the error message strings are replaced by
  the `Error` datatype.
- `index.ts` is not part of this model. It is a thin host wrapper, and its tag check relies on
  JavaScript floating-point numbers.
- The model does not check that text is valid UTF-8.
