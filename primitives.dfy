/**
 * The three foreign primitives the core calls but does not implement: the
 * SHA-256 digest of the `sha2` crate, the CRC-32 (ISO-HDLC) checksum of the
 * `crc` crate and the AES-128 block cipher of the `aes` crate. They are
 * parameters of the model; what the proofs assume of them is stated by the
 * types (digest and block widths) and by the predicate AesInverse.
 */
module Primitives {
  import opened Bytes

  /** A SHA-256 digest is 32 bytes. */
  type Digest = s: seq<uint8> | |s| == 32 witness seq(32, _ => 0)

  /** One AES block, and an AES-128 key: both exactly 16 bytes. */
  type Block = s: seq<uint8> | |s| == 16 witness seq(16, _ => 0)
  type Key128 = Block

  /** `Sha256::digest`: any message to a 32-byte digest. */
  type Sha256 = seq<uint8> -> Digest

  /** `Crc::<u32>::new(&CRC_32_ISO_HDLC).checksum`: any bytes to a 32-bit value. */
  type Crc32 = seq<uint8> -> u32

  /** `encrypt_block_mut` / `decrypt_block_mut` of an `Aes128` built from a key. */
  datatype Aes128 = Aes128(encrypt: (Key128, Block) -> Block, decrypt: (Key128, Block) -> Block)

  /** Decrypting under a key undoes encrypting under the same key. */
  ghost predicate AesInverse(aes: Aes128)
  {
    forall k: Key128, b: Block :: aes.decrypt(k, aes.encrypt(k, b)) == b
  }

  /** The crates the generator is built against. */
  datatype Crates = Crates(sha256: Sha256, crc32: Crc32, aes: Aes128)
}
