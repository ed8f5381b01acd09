/** How the engine feeds byte strings to its hash function. */
module Hashing {
  import opened ByteStrings
  import opened MerkleSpec

  /** Two siblings side by side, the smaller first when sibling pairs are sorted. */
  function Concat(sortSiblingPairs: bool, l: Bytes, r: Bytes): Bytes {
    if sortSiblingPairs && !Less(l, r) then r + l else l + r
  }

  function NodeHash(hash: Bytes -> Bytes, sortSiblingPairs: bool): Combiner<Bytes> {
    (l, r) => hash(Concat(sortSiblingPairs, l, r))
  }

  function LeafHash(hash: Bytes -> Bytes, disableLeafHashing: bool): Bytes -> Bytes {
    block => if disableLeafHashing then block else hash(block)
  }
}
