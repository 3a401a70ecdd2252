/**
 Raw memory as the slab allocators see it: the first word of a slab is a link
 while the slab is free, and arbitrary bits while somebody owns it.
 */
module LinkedMemory {

  /** What a link word holds: null, or the bits of some address. */
  datatype Ptr = Null | At(slab: int)

  /** The link words of the slabs carved so far, at addresses 0..|memory|. */
  type Memory = seq<Ptr>

  predicate InMemory(next: Memory, slab: int) {
    0 <= slab < |next|
  }

  function Load(next: Memory, slab: int): Ptr {
    if InMemory(next, slab) then next[slab] else Null
  }

  function Store(next: Memory, slab: int, bits: Ptr): Memory {
    if InMemory(next, slab) then next[slab := bits] else next
  }

  function PtrAt(list: seq<int>, k: nat): Ptr {
    if k < |list| then At(list[k]) else Null
  }

  /** `list` is the null-terminated chain of links that starts at `first`. */
  predicate IsChain(next: Memory, first: Ptr, list: seq<int>) {
    && first == PtrAt(list, 0)
    && (forall k :: 0 <= k < |list| ==> InMemory(next, list[k]))
    && (forall k {:trigger next[list[k]]} :: 0 <= k < |list| ==> next[list[k]] == PtrAt(list, k + 1))
  }

  predicate Distinct(list: seq<int>) {
    forall i, j :: 0 <= i < j < |list| ==> list[i] != list[j]
  }
}
