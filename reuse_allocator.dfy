/** `nb::ReuseAllocatorBase` (src/nb/reuse_allocator_base.cc): an allocator
    that carves user allocations out of memory obtained from a fallback
    allocator and keeps what is not in use on an address-ordered free list,
    merging neighbours as blocks come back.

    The fallback allocator and the subclass's block search
    (`FindFreeBlock`, `FindBestFreeBlock`) are not part of this model: what
    they answer is passed in, together with what the allocator relies on
    them for. */
module ReuseAllocator {
  import opened Wrappers
  import opened ReuseBlocks

  /** What the fallback allocator's `AllocateForAlignment` answers to each
      request `ExpandToFit` can make, in order: the request for the
      allocation increment, the request for exactly the needed size, and the
      request for the difference to the rightmost free block. `None` is a
      NULL reply; a reply is only read if its request is made. */
  datatype FallbackReplies = FallbackReplies(
    increment: Option<MemoryBlock>,
    exact: Option<MemoryBlock>,
    difference: Option<MemoryBlock>)

  /** A reply is memory the allocator does not know yet. */
  ghost predicate Fresh(g: Option<MemoryBlock>, live: map<nat, MemoryBlock>, fb: seq<MemoryBlock>)
  {
    g.Some? ==>
      g.value.address > 0 && g.value.size > 0 && Apart(g.value, fb) &&
      forall k :: k in live ==> Disjoint(g.value, live[k])
  }

  ghost predicate AllFresh(replies: FallbackReplies, live: map<nat, MemoryBlock>, fb: seq<MemoryBlock>)
  {
    Fresh(replies.increment, live, fb) && Fresh(replies.exact, live, fb) &&
    Fresh(replies.difference, live, fb)
  }

  /** A reply to a request for `size` bytes at `alignment` is at least that
      large and aligned. */
  predicate Fits(g: Option<MemoryBlock>, size: nat, alignment: nat)
    requires alignment > 0
  {
    g.Some? ==> g.value.size >= size && g.value.address % alignment == 0
  }

  /** The reply `ExpandToFit` adds to the free list: the increment-sized one
      if it asked for it and got it, else the exact one, else (when there is
      a free block to extend) the difference. */
  function ReplyUsed(replies: FallbackReplies, size: nat, increment: nat, noFreeBlocks: bool): Option<MemoryBlock>
  {
    if increment > size && replies.increment.Some? then replies.increment
    else if replies.exact.Some? then replies.exact
    else if noFreeBlocks then None
    else replies.difference
  }

  /** Every allocated block is keyed by a user address inside it, and no
      two of them overlap. */
  ghost predicate AllocatedValid(m: map<nat, MemoryBlock>)
  {
    (forall k :: k in m ==> 0 < m[k].address <= k < m[k].End()) &&
    (forall k1, k2 :: k1 in m && k2 in m && k1 != k2 ==> Disjoint(m[k1], m[k2]))
  }

  /** No allocated block overlaps a free one. */
  ghost predicate Separate(m: map<nat, MemoryBlock>, fb: seq<MemoryBlock>)
  {
    forall k :: k in m ==> Apart(m[k], fb)
  }

  /** How free memory changed: the addresses free afterwards are those
      free before or in `gained` (memory from the fallback), less those in
      `lost` (the block an allocation took). */
  ghost predicate FreeChange(before: seq<MemoryBlock>, after: seq<MemoryBlock>, gained: Option<MemoryBlock>, lost: Option<MemoryBlock>)
  {
    forall x :: Covers(after, x) <==>
      (Covers(before, x) || (gained.Some? && gained.value.Holds(x))) && !(lost.Some? && lost.value.Holds(x))
  }

  /** The size of what the fallback handed out, if anything. */
  function ReplySize(g: Option<MemoryBlock>): nat
  {
    if g.Some? then g.value.size else 0
  }

  function Min(a: int, b: int): int
  {
    if a < b then a else b
  }

  class ReuseAllocatorBase {
    /** `free_blocks_`, in address order. */
    var freeBlocks: seq<MemoryBlock>
    /** `allocated_blocks_`: user address to the block it was carved from. */
    var allocatedBlocks: map<nat, MemoryBlock>
    /** `fallback_allocations_`: every address the fallback handed out. */
    var fallbackAllocations: seq<nat>
    const allocationIncrement: nat
    var capacity: nat
    var totalAllocated: nat

    /** The free list is ordered and fully merged, allocated and free
        memory do not overlap, `total_allocated_` is the sum of the
        allocated blocks, and `capacity_` is what is free plus what is
        allocated. */
    ghost predicate Valid()
      reads this
    {
      FreeList(freeBlocks) && AllocatedValid(allocatedBlocks) && Separate(allocatedBlocks, freeBlocks) &&
      totalAllocated == AllocatedBytes(allocatedBlocks) &&
      capacity == FreeBytes(freeBlocks) + totalAllocated
    }

    /** The constructor: empty, then grown by `initialCapacity` bytes (at
        alignment 1) when that is positive. */
    constructor (initialCapacity: nat, allocationIncrement: nat, replies: FallbackReplies)
      requires AllFresh(replies, map[], []) && Fits(replies.increment, initialCapacity, 1) &&
               Fits(replies.exact, initialCapacity, 1)
      ensures Valid() && this.allocationIncrement == allocationIncrement
      ensures allocatedBlocks == map[] && totalAllocated == 0
      ensures initialCapacity == 0 ==> freeBlocks == [] && capacity == 0 && fallbackAllocations == []
      ensures initialCapacity > 0 ==>
                var g := ReplyUsed(replies, initialCapacity, allocationIncrement, true);
                freeBlocks == (if g.Some? then [g.value] else []) && capacity == ReplySize(g) &&
                fallbackAllocations == (if g.Some? then [g.value.address] else [])
    {
      this.allocationIncrement := allocationIncrement;
      freeBlocks := [];
      allocatedBlocks := map[];
      fallbackAllocations := [];
      capacity := 0;
      totalAllocated := 0;
      new;
      assert AllocatedBytes(map[]) == 0;
      if initialCapacity > 0 {
        var _ := ExpandToFit(initialCapacity, 1, replies);
      }
    }

    /** `RemoveFreeBlock`: erases block `i` from the free list. */
    method RemoveFreeBlock(i: nat)
      requires FreeList(freeBlocks) && i < |freeBlocks|
      modifies this`freeBlocks
      ensures freeBlocks == old(freeBlocks[..i] + freeBlocks[i + 1..])
      ensures FreeList(freeBlocks) && FreeBytes(freeBlocks) + old(freeBlocks[i]).size == old(FreeBytes(freeBlocks))
      ensures forall x :: Covers(freeBlocks, x) <==> old(Covers(freeBlocks, x)) && !old(freeBlocks[i]).Holds(x)
      ensures forall c: MemoryBlock :: Apart(c, old(freeBlocks)) ==> Apart(c, freeBlocks)
    {
      RemoveAt(freeBlocks, i);
      freeBlocks := freeBlocks[..i] + freeBlocks[i + 1..];
    }

    /** `AddFreeBlock`: merges `block` with the neighbour at its lower bound
        and the one before it when they touch, erases those, and inserts the
        merged block, whose position it returns. The list gains exactly
        `block`'s bytes and addresses. */
    method AddFreeBlock(block: MemoryBlock) returns (it: nat)
      requires FreeList(freeBlocks) && block.size > 0 && block.address > 0 && Apart(block, freeBlocks)
      modifies this`freeBlocks
      ensures FreeList(freeBlocks) && it < |freeBlocks| && Within(block, freeBlocks[it])
      ensures old(freeBlocks) == [] ==> freeBlocks == [block]
      ensures FreeBytes(freeBlocks) == old(FreeBytes(freeBlocks)) + block.size
      ensures forall x :: Covers(freeBlocks, x) <==> old(Covers(freeBlocks, x)) || block.Holds(x)
      ensures forall c: MemoryBlock :: c.size > 0 && Disjoint(c, block) && Apart(c, old(freeBlocks)) ==> Apart(c, freeBlocks)
    {
      if |freeBlocks| == 0 {
        InsertMerged(freeBlocks, block, 0, 0, 0, block);
        freeBlocks := [block];
        return 0;
      }
      var i := LowerBound(freeBlocks, block);
      Sides(freeBlocks, block, i);
      var merged, lo, hi := block, i, i;
      if i < |freeBlocks| {
        var right := Merge(merged, freeBlocks[i]);
        if right.0 {
          merged, hi := right.1, i + 1;
        }
      }
      if i > 0 {
        var left := Merge(merged, freeBlocks[i - 1]);
        if left.0 {
          merged, lo := left.1, i - 1;
        }
      }
      InsertMerged(freeBlocks, block, i, lo, hi, merged);
      freeBlocks := freeBlocks[..lo] + [merged] + freeBlocks[hi..];
      it := lo;
    }

    /** `AddAllocatedBlock`: records `block` under the user address. */
    method AddAllocatedBlock(address: nat, block: MemoryBlock)
      requires address !in allocatedBlocks
      modifies this`allocatedBlocks, this`totalAllocated
      ensures allocatedBlocks == old(allocatedBlocks)[address := block]
      ensures totalAllocated == old(totalAllocated) + block.size
    {
      allocatedBlocks := allocatedBlocks[address := block];
      totalAllocated := totalAllocated + block.size;
    }

    /** `ExpandToFit`: asks the fallback for the allocation increment (when
        that is larger than `size`), else for `size`; a block obtained is added
        to `capacity_` and the free list and its position returned. Failing
        both, it asks for the difference to the rightmost free block and
        returns that block if it now fits, or nothing. */
    method ExpandToFit(size: nat, alignment: nat, replies: FallbackReplies) returns (it: Option<nat>)
      requires Valid() && alignment > 0 && AllFresh(replies, allocatedBlocks, freeBlocks)
      requires Fits(replies.increment, size, alignment) && Fits(replies.exact, size, alignment)
      modifies this`freeBlocks, this`capacity, this`fallbackAllocations
      ensures Valid()
      ensures var g := ReplyUsed(replies, size, allocationIncrement, old(freeBlocks) == []);
              fallbackAllocations == old(fallbackAllocations) + (if g.Some? then [g.value.address] else []) &&
              capacity == old(capacity) + (if g.Some? then g.value.size else 0) &&
              (g.None? ==> it.None?) &&
              (old(freeBlocks) == [] ==> freeBlocks == (if g.Some? then [g.value] else [])) &&
              forall x :: Covers(freeBlocks, x) <==> old(Covers(freeBlocks, x)) || (g.Some? && g.value.Holds(x))
      ensures it.Some? ==> it.value < |freeBlocks| && CanFullfill(freeBlocks[it.value], size, alignment)
      ensures it.Some? && (size > 0 || replies.difference.None?) ==>
                AlignUp(freeBlocks[it.value].address, alignment) < freeBlocks[it.value].End()
    {
      var ptr: Option<MemoryBlock> := None;
      if allocationIncrement > size {
        ptr := replies.increment;
      }
      if ptr.None? {
        ptr := replies.exact;
      }
      if ptr.Some? {
        var i := Grow(ptr.value);
        FitsWithin(ptr.value, freeBlocks[i], size, alignment);
        AlignUpLeast(freeBlocks[i].address, alignment, ptr.value.address);
        return Some(i);
      }
      if |freeBlocks| == 0 {
        return None;
      }
      ptr := replies.difference;
      if ptr.None? {
        return None;
      }
      var _ := Grow(ptr.value);
      var last := |freeBlocks| - 1;
      it := if CanFullfill(freeBlocks[last], size, alignment) then Some(last) else None;
    }

    /** Takes a block the fallback handed out: remembers it, adds it to
        `capacity_` and to the free list. */
    method Grow(g: MemoryBlock) returns (it: nat)
      requires Valid() && Fresh(Some(g), allocatedBlocks, freeBlocks)
      modifies this`freeBlocks, this`capacity, this`fallbackAllocations
      ensures Valid() && it < |freeBlocks| && Within(g, freeBlocks[it])
      ensures old(freeBlocks) == [] ==> freeBlocks == [g]
      ensures fallbackAllocations == old(fallbackAllocations) + [g.address] && capacity == old(capacity) + g.size
      ensures forall x :: Covers(freeBlocks, x) <==> old(Covers(freeBlocks, x)) || g.Holds(x)
    {
      fallbackAllocations := fallbackAllocations + [g.address];
      capacity := capacity + g.size;
      it := AddFreeBlock(g);
    }


    /** The free-list half of `Allocate`: takes block `it` off the list,
        splits off what the request needs and puts a remainder of at least
        `kMinBlockSizeBytes` back. Free memory loses exactly the returned
        block. */
    method TakeFree(it: nat, size: nat, alignment: nat, fromFront: bool) returns (taken: MemoryBlock)
      requires FreeList(freeBlocks) && alignment > 0 && size > 0 && it < |freeBlocks|
      requires CanFullfill(freeBlocks[it], size, alignment)
      modifies this`freeBlocks
      ensures FreeList(freeBlocks) && Within(taken, old(freeBlocks[it])) && Apart(taken, freeBlocks)
      ensures taken == Split(old(freeBlocks[it]), size, alignment, fromFront).0
      ensures AlignUp(taken.address, alignment) + size <= taken.End()
      ensures FreeBytes(freeBlocks) + taken.size == old(FreeBytes(freeBlocks))
      ensures forall c: MemoryBlock :: c.size > 0 && Apart(c, old(freeBlocks)) ==> Apart(c, freeBlocks)
      ensures forall x :: Covers(freeBlocks, x) <==> old(Covers(freeBlocks, x)) && !taken.Holds(x)
    {
      var block := freeBlocks[it];
      ghost var before := freeBlocks;
      RemoveFreeBlock(it);
      ApartFromRest(before, it);
      var parts := Split(block, size, alignment, fromFront);
      if parts.1.size > 0 {
        WithinApart(parts.1, block, freeBlocks);
        ghost var removed := freeBlocks;
        WithinApart(parts.0, block, removed);
        assert parts.0.size > 0 && Disjoint(parts.0, parts.1);
        var _ := AddFreeBlock(parts.1);
        SplitCovers(block, parts.0, parts.1);
      } else {
        WithinApart(parts.0, block, freeBlocks);
      }
      taken := parts.0;
    }

    /** Carves an allocation of `size` bytes at `alignment` out of free
        block `it` and records it under its first aligned address. */
    method Carve(it: nat, size: nat, alignment: nat, fromFront: bool) returns (user: nat)
      requires Valid() && alignment > 0 && size > 0 && it < |freeBlocks|
      requires CanFullfill(freeBlocks[it], size, alignment)
      modifies this`freeBlocks, this`allocatedBlocks, this`totalAllocated
      ensures Valid() && user !in old(allocatedBlocks) && user in allocatedBlocks
      ensures allocatedBlocks == old(allocatedBlocks)[user := allocatedBlocks[user]]
      ensures totalAllocated == old(totalAllocated) + allocatedBlocks[user].size
      ensures allocatedBlocks[user] == Split(old(freeBlocks[it]), size, alignment, fromFront).0
      ensures var b := allocatedBlocks[user];
              Within(b, old(freeBlocks[it])) && user == AlignUp(b.address, alignment) && user + size <= b.End()
      ensures forall x :: Covers(freeBlocks, x) <==> old(Covers(freeBlocks, x)) && !allocatedBlocks[user].Holds(x)
    {
      ghost var before := freeBlocks;
      var taken := TakeFree(it, size, alignment, fromFront);
      var userAddress := AlignUp(taken.address, alignment);
      NewAllocation(allocatedBlocks, before, it, taken, userAddress);
      AllocatedBytesAdd(allocatedBlocks, userAddress, taken);
      AddAllocatedBlock(userAddress, taken);
      user := userAddress;
    }

    /** Takes free block `it` whole, for a request it cannot fulfil with
        the normalised size, and records it under its first aligned
        address. */
    method CarveWhole(it: nat, alignment: nat) returns (user: nat)
      requires Valid() && alignment > 0 && it < |freeBlocks|
      requires AlignUp(freeBlocks[it].address, alignment) < freeBlocks[it].End()
      modifies this`freeBlocks, this`allocatedBlocks, this`totalAllocated
      ensures Valid() && user !in old(allocatedBlocks)
      ensures allocatedBlocks == old(allocatedBlocks)[user := old(freeBlocks[it])]
      ensures totalAllocated == old(totalAllocated) + old(freeBlocks[it]).size
      ensures user == AlignUp(old(freeBlocks[it]).address, alignment)
      ensures forall x :: Covers(freeBlocks, x) <==> old(Covers(freeBlocks, x)) && !old(freeBlocks[it]).Holds(x)
    {
      var block := freeBlocks[it];
      ghost var before := freeBlocks;
      RemoveFreeBlock(it);
      ApartFromRest(before, it);
      var userAddress := AlignUp(block.address, alignment);
      NewAllocation(allocatedBlocks, before, it, block, userAddress);
      AllocatedBytesAdd(allocatedBlocks, userAddress, block);
      AddAllocatedBlock(userAddress, block);
      user := userAddress;
    }

    /** The block search shared by `Allocate` and `AllocateBestBlock`: the
        block the subclass found, untouched, or else the one `ExpandToFit`
        provides for `size`. */
    method Locate(found: Option<nat>, size: nat, alignment: nat, replies: FallbackReplies) returns (it: Option<nat>)
      requires Valid() && alignment > 0 && AllFresh(replies, allocatedBlocks, freeBlocks)
      requires found.Some? ==> found.value < |freeBlocks|
      requires Fits(replies.increment, size, alignment) && Fits(replies.exact, size, alignment)
      modifies this`freeBlocks, this`capacity, this`fallbackAllocations
      ensures Valid()
      ensures found.Some? ==> it == found && unchanged(this`freeBlocks, this`fallbackAllocations, this`capacity)
      ensures var g := if found.Some? then None else ReplyUsed(replies, size, allocationIncrement, old(freeBlocks) == []);
              fallbackAllocations == old(fallbackAllocations) + (if g.Some? then [g.value.address] else []) &&
              capacity == old(capacity) + ReplySize(g) && FreeChange(old(freeBlocks), freeBlocks, g, None)
      ensures it.Some? && found.None? ==> it.value < |freeBlocks| && CanFullfill(freeBlocks[it.value], size, alignment)
      ensures it.Some? && found.None? && (size > 0 || replies.difference.None?) ==>
                AlignUp(freeBlocks[it.value].address, alignment) < freeBlocks[it.value].End()
    {
      it := found;
      if it.None? {
        it := ExpandToFit(size, alignment, replies);
      }
    }

    /** `Allocate(size, alignment)`: normalises both to multiples of
        `kMinAlignment`, takes the free block the subclass's `FindFreeBlock`
        chose (`found`, which must fulfil the request) or else the one
        `ExpandToFit` provides, and carves the allocation out of it. The
        user address is aligned and has the normalised size behind it. */
    method Allocate(size: nat, alignment: nat, found: Option<nat>, fromFront: bool, replies: FallbackReplies)
      returns (user: Option<nat>, ghost source: MemoryBlock)
      requires Valid() && AllFresh(replies, allocatedBlocks, freeBlocks)
      requires found.Some? ==>
                 found.value < |freeBlocks| &&
                 CanFullfill(freeBlocks[found.value], NormalizeSize(size), NormalizeAlignment(alignment))
      requires Fits(replies.increment, NormalizeSize(size), NormalizeAlignment(alignment)) &&
               Fits(replies.exact, NormalizeSize(size), NormalizeAlignment(alignment))
      modifies this`freeBlocks, this`allocatedBlocks, this`totalAllocated, this`capacity, this`fallbackAllocations
      ensures Valid()
      ensures found.Some? ==> user.Some? && unchanged(this`fallbackAllocations, this`capacity)
      ensures user.Some? ==> user.value in allocatedBlocks
      ensures var g := if found.Some? then None else ReplyUsed(replies, NormalizeSize(size), allocationIncrement, old(freeBlocks) == []);
              fallbackAllocations == old(fallbackAllocations) + (if g.Some? then [g.value.address] else []) &&
              capacity == old(capacity) + ReplySize(g) &&
              FreeChange(old(freeBlocks), freeBlocks, g, if user.Some? then Some(allocatedBlocks[user.value]) else None)
      ensures user.None? ==> allocatedBlocks == old(allocatedBlocks)
      ensures user.Some? && found.Some? ==> Within(allocatedBlocks[user.value], old(freeBlocks[found.value]))
      ensures found.Some? ==> source == old(freeBlocks[found.value])
      ensures user.Some? ==>
                CanFullfill(source, NormalizeSize(size), NormalizeAlignment(alignment)) &&
                allocatedBlocks[user.value] == Split(source, NormalizeSize(size), NormalizeAlignment(alignment), fromFront).0
      ensures var g := if found.Some? then None else ReplyUsed(replies, NormalizeSize(size), allocationIncrement, old(freeBlocks) == []);
              user.Some? ==> forall x :: source.Holds(x) ==> Covers(old(freeBlocks), x) || (g.Some? && g.value.Holds(x))
      ensures user.Some? ==>
                user.value !in old(allocatedBlocks) && user.value in allocatedBlocks &&
                allocatedBlocks == old(allocatedBlocks)[user.value := allocatedBlocks[user.value]] &&
                totalAllocated == old(totalAllocated) + allocatedBlocks[user.value].size &&
                user.value % NormalizeAlignment(alignment) == 0 &&
                user.value == AlignUp(allocatedBlocks[user.value].address, NormalizeAlignment(alignment)) &&
                user.value + NormalizeSize(size) <= allocatedBlocks[user.value].End()
    {
      var s := NormalizeSize(size);
      var a := NormalizeAlignment(alignment);
      ghost var before := freeBlocks;
      var it := Locate(found, s, a, replies);
      if it.None? {
        return None, NullBlock;
      }
      ghost var mid := freeBlocks;
      source := freeBlocks[it.value];
      ghost var g := if found.Some? then None else ReplyUsed(replies, s, allocationIncrement, before == []);
      SourceCovered(before, mid, g, it.value);
      var u := Carve(it.value, s, a, fromFront);
      FreeChangeThen(before, mid, freeBlocks, g, allocatedBlocks[u]);
      user := Some(u);
    }

    /** `Allocate(size)`: `Allocate(size, 1)`. */
    method AllocateAnyAlignment(size: nat, found: Option<nat>, fromFront: bool, replies: FallbackReplies)
      returns (user: Option<nat>, ghost source: MemoryBlock)
      requires Valid() && AllFresh(replies, allocatedBlocks, freeBlocks)
      requires found.Some? ==>
                 found.value < |freeBlocks| && CanFullfill(freeBlocks[found.value], NormalizeSize(size), MinAlignment)
      requires Fits(replies.increment, NormalizeSize(size), MinAlignment) &&
               Fits(replies.exact, NormalizeSize(size), MinAlignment)
      modifies this`freeBlocks, this`allocatedBlocks, this`totalAllocated, this`capacity, this`fallbackAllocations
      ensures Valid()
      ensures found.Some? ==> user.Some? && unchanged(this`fallbackAllocations, this`capacity)
      ensures user.Some? ==> user.value in allocatedBlocks
      ensures var g := if found.Some? then None else ReplyUsed(replies, NormalizeSize(size), allocationIncrement, old(freeBlocks) == []);
              fallbackAllocations == old(fallbackAllocations) + (if g.Some? then [g.value.address] else []) &&
              capacity == old(capacity) + ReplySize(g) &&
              FreeChange(old(freeBlocks), freeBlocks, g, if user.Some? then Some(allocatedBlocks[user.value]) else None)
      ensures user.None? ==> allocatedBlocks == old(allocatedBlocks)
      ensures user.Some? && found.Some? ==> Within(allocatedBlocks[user.value], old(freeBlocks[found.value]))
      ensures found.Some? ==> source == old(freeBlocks[found.value])
      ensures user.Some? ==>
                CanFullfill(source, NormalizeSize(size), MinAlignment) &&
                allocatedBlocks[user.value] == Split(source, NormalizeSize(size), MinAlignment, fromFront).0
      ensures var g := if found.Some? then None else ReplyUsed(replies, NormalizeSize(size), allocationIncrement, old(freeBlocks) == []);
              user.Some? ==> forall x :: source.Holds(x) ==> Covers(old(freeBlocks), x) || (g.Some? && g.value.Holds(x))
      ensures user.Some? ==>
                user.value !in old(allocatedBlocks) && user.value in allocatedBlocks &&
                allocatedBlocks == old(allocatedBlocks)[user.value := allocatedBlocks[user.value]] &&
                totalAllocated == old(totalAllocated) + allocatedBlocks[user.value].size &&
                user.value % MinAlignment == 0 &&
                user.value + NormalizeSize(size) <= allocatedBlocks[user.value].End()
    {
      user, source := Allocate(size, 1, found, fromFront, replies);
    }

    /** The block choice of `AllocateBestBlock`: carve the normalised size
        out of free block `it` when it can fulfil it, else take it whole. */
    method CarveBest(it: nat, size: nat, alignment: nat, fromFront: bool) returns (user: nat)
      requires Valid() && alignment > 0 && size > 0 && it < |freeBlocks|
      requires AlignUp(freeBlocks[it].address, alignment) < freeBlocks[it].End()
      modifies this`freeBlocks, this`allocatedBlocks, this`totalAllocated
      ensures Valid() && user !in old(allocatedBlocks) && user in allocatedBlocks
      ensures allocatedBlocks == old(allocatedBlocks)[user := allocatedBlocks[user]]
      ensures totalAllocated == old(totalAllocated) + allocatedBlocks[user].size
      ensures if CanFullfill(old(freeBlocks[it]), size, alignment)
              then allocatedBlocks[user] == Split(old(freeBlocks[it]), size, alignment, fromFront).0
              else allocatedBlocks[user] == old(freeBlocks[it])
      ensures var b := allocatedBlocks[user];
              Within(b, old(freeBlocks[it])) && user == AlignUp(b.address, alignment) && user < b.End()
      ensures forall x :: Covers(freeBlocks, x) <==> old(Covers(freeBlocks, x)) && !allocatedBlocks[user].Holds(x)
    {
      if CanFullfill(freeBlocks[it], size, alignment) {
        user := Carve(it, size, alignment, fromFront);
      } else {
        user := CarveWhole(it, alignment);
      }
    }

    /** `AllocateBestBlock`: like `Allocate`, but the block comes from the
        subclass's `FindBestFreeBlock` (or from `ExpandToFit` for the
        unnormalised hint), a block that cannot fulfil the normalised size is
        taken whole, and the hint comes back lowered to the bytes available
        behind the user address when those are fewer.

        The block `FindBestFreeBlock` chooses must have its first aligned
        address strictly inside it, so that the user address lies in the
        block it is recorded with. For a zero hint, the request for the
        difference to the rightmost free block is `0 - size`, which wraps
        to almost 2^64 bytes; the fallback is taken to refuse it. */
    method AllocateBestBlock(alignment: nat, sizeHint: nat, found: Option<nat>, fromFront: bool, replies: FallbackReplies)
      returns (user: Option<nat>, hint: nat, ghost source: MemoryBlock)
      requires Valid() && AllFresh(replies, allocatedBlocks, freeBlocks)
      requires sizeHint == 0 ==> replies.difference.None?
      requires found.Some? ==>
                 found.value < |freeBlocks| &&
                 AlignUp(freeBlocks[found.value].address, NormalizeAlignment(alignment)) < freeBlocks[found.value].End()
      requires Fits(replies.increment, sizeHint, NormalizeAlignment(alignment)) &&
               Fits(replies.exact, sizeHint, NormalizeAlignment(alignment))
      modifies this`freeBlocks, this`allocatedBlocks, this`totalAllocated, this`capacity, this`fallbackAllocations
      ensures Valid()
      ensures found.Some? ==> user.Some? && unchanged(this`fallbackAllocations, this`capacity)
      ensures user.Some? ==> user.value in allocatedBlocks
      ensures var g := if found.Some? then None else ReplyUsed(replies, sizeHint, allocationIncrement, old(freeBlocks) == []);
              fallbackAllocations == old(fallbackAllocations) + (if g.Some? then [g.value.address] else []) &&
              capacity == old(capacity) + ReplySize(g) &&
              FreeChange(old(freeBlocks), freeBlocks, g, if user.Some? then Some(allocatedBlocks[user.value]) else None)
      ensures user.None? ==> allocatedBlocks == old(allocatedBlocks) && hint == sizeHint
      ensures user.Some? && found.Some? ==> Within(allocatedBlocks[user.value], old(freeBlocks[found.value]))
      ensures found.Some? ==> source == old(freeBlocks[found.value])
      ensures user.Some? ==>
                if CanFullfill(source, NormalizeSize(sizeHint), NormalizeAlignment(alignment))
                then allocatedBlocks[user.value] == Split(source, NormalizeSize(sizeHint), NormalizeAlignment(alignment), fromFront).0
                else allocatedBlocks[user.value] == source
      ensures var g := if found.Some? then None else ReplyUsed(replies, sizeHint, allocationIncrement, old(freeBlocks) == []);
              user.Some? ==> forall x :: source.Holds(x) ==> Covers(old(freeBlocks), x) || (g.Some? && g.value.Holds(x))
      ensures user.Some? ==>
                user.value !in old(allocatedBlocks) &&
                allocatedBlocks == old(allocatedBlocks)[user.value := allocatedBlocks[user.value]] &&
                totalAllocated == old(totalAllocated) + allocatedBlocks[user.value].size &&
                user.value == AlignUp(allocatedBlocks[user.value].address, NormalizeAlignment(alignment)) &&
                hint == Min(sizeHint, allocatedBlocks[user.value].End() - user.value) && (hint > 0 <==> sizeHint > 0)
    {
      var s := NormalizeSize(sizeHint);
      var a := NormalizeAlignment(alignment);
      ghost var before := freeBlocks;
      var it := Locate(found, sizeHint, a, replies);
      if it.None? {
        return None, sizeHint, NullBlock;
      }
      ghost var mid := freeBlocks;
      source := freeBlocks[it.value];
      ghost var g := if found.Some? then None else ReplyUsed(replies, sizeHint, allocationIncrement, before == []);
      SourceCovered(before, mid, g, it.value);
      var u := CarveBest(it.value, s, a, fromFront);
      FreeChangeThen(before, mid, freeBlocks, g, allocatedBlocks[u]);
      hint := LowerHint(sizeHint, allocatedBlocks[u], u);
      user := Some(u);
    }

    /** The hint update of `AllocateBestBlock`: lowered to the bytes the
        block holds behind the user address when those are fewer. */
    method LowerHint(sizeHint: nat, taken: MemoryBlock, user: nat) returns (hint: nat)
      requires taken.address <= user < taken.End()
      ensures hint == Min(sizeHint, taken.End() - user) && (hint > 0 <==> sizeHint > 0)
    {
      var offset := user - taken.address;
      hint := sizeHint;
      if taken.size - offset < hint {
        hint := taken.size - offset;
      }
    }

    /** `TryFree`: NULL is accepted and ignored; an address that is not an
        allocation is refused; an allocation's block goes back on the free
        list and leaves the allocated map and `total_allocated_`. */
    method TryFree(memory: nat) returns (ok: bool)
      requires Valid()
      modifies this`freeBlocks, this`allocatedBlocks, this`totalAllocated
      ensures Valid()
      ensures ok <==> memory == 0 || memory in old(allocatedBlocks)
      ensures memory !in old(allocatedBlocks) ==> unchanged(this)
      ensures memory in old(allocatedBlocks) ==>
                allocatedBlocks == old(allocatedBlocks) - {memory} &&
                totalAllocated + old(allocatedBlocks[memory]).size == old(totalAllocated) &&
                forall x :: Covers(freeBlocks, x) <==> old(Covers(freeBlocks, x)) || old(allocatedBlocks[memory]).Holds(x)
    {
      if memory == 0 {
        return true;
      }
      if memory !in allocatedBlocks {
        return false;
      }
      var block := allocatedBlocks[memory];
      ghost var m := allocatedBlocks;
      var _ := AddFreeBlock(block);
      AllocatedBytesRemove(allocatedBlocks, memory);
      totalAllocated := totalAllocated - block.size;
      allocatedBlocks := allocatedBlocks - {memory};
      ok := true;
    }

    /** `Free`: `TryFree` on memory that is NULL or an allocation. */
    method Free(memory: nat)
      requires Valid() && (memory == 0 || memory in allocatedBlocks)
      modifies this`freeBlocks, this`allocatedBlocks, this`totalAllocated
      ensures Valid()
      ensures memory == 0 ==> unchanged(this)
      ensures memory != 0 ==>
                allocatedBlocks == old(allocatedBlocks) - {memory} &&
                totalAllocated + old(allocatedBlocks[memory]).size == old(totalAllocated) &&
                FreeChange(old(freeBlocks), freeBlocks, Some(old(allocatedBlocks[memory])), None)
    {
      var _ := TryFree(memory);
    }
  }

  /** A block of the free list after growth lies in the old free memory
      or in the fallback's reply. */
  lemma SourceCovered(before: seq<MemoryBlock>, mid: seq<MemoryBlock>, g: Option<MemoryBlock>, i: nat)
    requires FreeChange(before, mid, g, None) && i < |mid|
    ensures forall x :: mid[i].Holds(x) ==> Covers(before, x) || (g.Some? && g.value.Holds(x))
  {
    forall x | mid[i].Holds(x)
      ensures Covers(before, x) || (g.Some? && g.value.Holds(x))
    {
      assert Covers(mid, x);
    }
  }

  /** Gaining `g` and then losing `b` is one change of the free memory. */
  lemma FreeChangeThen(before: seq<MemoryBlock>, mid: seq<MemoryBlock>, after: seq<MemoryBlock>, g: Option<MemoryBlock>, b: MemoryBlock)
    requires FreeChange(before, mid, g, None)
    requires forall x :: Covers(after, x) <==> Covers(mid, x) && !b.Holds(x)
    ensures FreeChange(before, after, g, Some(b))
  {
  }

  /** A block taken off a free list overlaps none of the rest. */
  lemma ApartFromRest(fb: seq<MemoryBlock>, i: nat)
    requires Sorted(fb) && i < |fb|
    ensures Apart(fb[i], fb[..i] + fb[i + 1..])
  {
    var r := fb[..i] + fb[i + 1..];
    forall j | 0 <= j < |r| ensures Disjoint(fb[i], r[j]) {
      if j < i {
        assert r[j] == fb[j];
      } else {
        assert r[j] == fb[j + 1];
      }
    }
  }

  /** Part of a block apart from a list is apart from it too. */
  lemma WithinApart(s: MemoryBlock, b: MemoryBlock, fb: seq<MemoryBlock>)
    requires Within(s, b) && Apart(b, fb)
    ensures Apart(s, fb)
  {
    forall j | 0 <= j < |fb| ensures Disjoint(s, fb[j]) {
      assert Disjoint(b, fb[j]);
    }
  }

  /** Recording part `a` of free block `fb[i]` at a user address inside it
      keeps the allocated map well formed; the address was not in use. */
  lemma NewAllocation(m: map<nat, MemoryBlock>, fb: seq<MemoryBlock>, i: nat, a: MemoryBlock, user: nat)
    requires AllocatedValid(m) && Separate(m, fb) && Proper(fb) && i < |fb|
    requires Within(a, fb[i]) && a.address <= user < a.End()
    ensures user !in m && AllocatedValid(m[user := a])
  {
    var block := fb[i];
    forall k | k in m ensures Disjoint(a, m[k]) {
      assert Disjoint(m[k], block);
    }
  }

  /** The two parts `Split` returns cover the block between them. */
  lemma SplitCovers(b: MemoryBlock, taken: MemoryBlock, free: MemoryBlock)
    requires Within(taken, b) && taken.size + free.size == b.size
    requires (taken.address == b.address && free.address == taken.End()) ||
             (free.address == b.address && taken.address == free.End())
    ensures forall x :: free.Holds(x) <==> b.Holds(x) && !taken.Holds(x)
  {
  }
}
