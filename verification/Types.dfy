/** Values shared by every part of the model.

    A convention of this project: a predicate whose body reads `var holds := A && B; holds` is meant
    as `A && B`. Bound to a name, the conjunction is proved as one fact rather than one by one,
    which keeps invariants with many parts cheap to verify. */
module Types {

  /** A 32-byte hash (a merkle root, a source block hash or a checkpoint digest), as the number
      its bytes spell in big-endian order. */
  type H256 = n: nat | n < 0x1_0000000000000000_0000000000000000_0000000000000000_0000000000000000

  /** The archiver reads an all-zero block hash as "unknown". */
  const ZERO_HASH: H256 := 0

  const U64_MAX: nat := 0xFFFF_FFFF_FFFF_FFFF

  /** `n + 1` on a u64. The release profile does not check for overflow, so it wraps. */
  function WrappingInc(n: nat): nat {
    if n == U64_MAX then 0 else n + 1
  }

  datatype Option<+T> = None | Some(value: T)

  /** What the store keeps under one height. */
  datatype StoredRoot = StoredRoot(root: H256, blockHash: H256)

  /** One root as it is delivered by a stream and handed to the store. */
  datatype Entry = Entry(height: nat, root: H256, hash: H256) {
    function Stored(): StoredRoot { StoredRoot(root, hash) }
  }

  /** The key space the store presents once keys and values are decoded. */
  type Db = map<nat, StoredRoot>
}
