/**
  Block identities and the hash function of the buffer cache (fs/buffer.c:68-69).
 */
module BufferIds {
  import opened BufferQueues

  type Block = seq<int>

  /** Device and block number of a buffer; device 0 means none. */
  datatype Id = Id(dev: int, block: int)

  /** Bitwise exclusive or. */
  function Xor(a: nat, b: nat): nat
    decreases a + b
  {
    if a == 0 && b == 0 then 0 else 2 * Xor(a / 2, b / 2) + (if a % 2 == b % 2 then 0 else 1)
  }

  function Unsigned(v: int): nat { v % 0x1_0000_0000 }

  /** _hashfn: (unsigned) (dev ^ block) % NR_HASH. */
  function HashFn(id: Id): int { Xor(Unsigned(id.dev), Unsigned(id.block)) % NR_HASH }

  /** All the cache needs of its hash function; _hashfn is one such. */
  ghost predicate IsHash(f: Id -> int) { forall id :: 0 <= f(id) < NR_HASH }

  lemma HashFnIsHash()
    ensures IsHash(HashFn)
  {
  }

  function Get(m: map<Id, Block>, id: Id): Block { if id in m then m[id] else [] }
}
