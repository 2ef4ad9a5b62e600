/** Values shared by every component: hashes, block headers and blocks. */
module Primitives {

  datatype Option<+T> = None | Some(value: T)

  datatype Result<+T, +E> = Ok(value: T) | Err(error: E)

  const TWO_POW_32: int := 0x1_0000_0000
  const TWO_POW_64: int := 0x1_0000_0000_0000_0000
  const TWO_POW_256: int :=
    0x1_0000_0000_0000_0000_0000_0000_0000_0000_0000_0000_0000_0000_0000_0000_0000_0000

  type byte = x: int | 0 <= x < 256
  type u32 = x: int | 0 <= x < TWO_POW_32
  type u64 = x: int | 0 <= x < TWO_POW_64

  /** The 32 bytes of a hash, read as a little-endian number. */
  type Hash = x: int | 0 <= x < TWO_POW_256

  /** The all-zero hash: the parent of a genesis block. */
  const ZERO: Hash := 0

  /** `bits` is the compact target, `pubkey` the bytes of the VRF public key. */
  datatype BlockHeader = BlockHeader(
    version: u32,
    previousHeaderHash: Hash,
    time: u32,
    bits: u32,
    pubkey: seq<byte>,
    iterations: u32,
    randomness: int)

  /** A header together with the hash it is known by. */
  datatype IndexedHeader = IndexedHeader(hash: Hash, raw: BlockHeader)

  datatype Block = Block(header: BlockHeader, proof: seq<int>)

  /** A block together with the hash it is known by. */
  datatype IndexedBlock = IndexedBlock(hash: Hash, raw: Block) {
    function Parent(): Hash {
      raw.header.previousHeaderHash
    }
  }
}
