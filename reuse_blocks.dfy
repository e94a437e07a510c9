/** The value side of `nb::ReuseAllocatorBase` (src/nb/reuse_allocator_base.cc):
    memory blocks, the alignment arithmetic, `MemoryBlock::Merge`,
    `MemoryBlock::CanFullfill`, `MemoryBlock::Allocate` and the facts about
    address-ordered free lists that the allocator's methods rely on.
    Addresses and sizes are unbounded naturals; address 0 is NULL. */
module ReuseBlocks {
  import opened Arith

  /** No block smaller than this is left behind on the free list. */
  const MinBlockSizeBytes: nat := 16
  /** Sizes and alignments are rounded up to multiples of this. */
  const MinAlignment: nat := 16

  /** `size` bytes starting at `address`. The C++ struct is copied in and
      out of the containers by value, so it is a value here too. */
  datatype MemoryBlock = MemoryBlock(address: nat, size: nat)
  {
    function End(): nat { address + size }

    predicate Holds(x: nat) { address <= x < End() }
  }

  /** The free part `MemoryBlock::Allocate` reports when there is none. */
  const NullBlock := MemoryBlock(0, 0)

  predicate Disjoint(a: MemoryBlock, b: MemoryBlock)
  {
    a.End() <= b.address || b.End() <= a.address
  }

  /** `a` lies inside `b`. */
  predicate Within(a: MemoryBlock, b: MemoryBlock)
  {
    b.address <= a.address && a.End() <= b.End()
  }

  // ---------------------------------------------------------------------
  // Alignment arithmetic (nb/pointer_arithmetic.h is not part of this
  // model; AlignUp and AlignDown are the nearest multiples above and below)

  /** The least multiple of `alignment` at or above `x`. */
  function AlignUp(x: nat, alignment: nat): (r: nat)
    requires alignment > 0
    ensures r % alignment == 0 && x <= r < x + alignment
  {
    var q := x / alignment;
    if x % alignment == 0 then x
    else
      DivModUnique(alignment * (q + 1), alignment, q + 1, 0);
      alignment * (q + 1)
  }

  /** The greatest multiple of `alignment` at or below `x`. */
  function AlignDown(x: nat, alignment: nat): (r: nat)
    requires alignment > 0
    ensures r % alignment == 0 && r <= x < r + alignment
  {
    var q := x / alignment;
    DivModUnique(alignment * q, alignment, q, 0);
    alignment * q
  }

  /** No multiple of `alignment` lies between `x` and `AlignUp(x)`. */
  lemma AlignUpLeast(x: nat, alignment: nat, m: nat)
    requires alignment > 0 && m % alignment == 0 && x <= m
    ensures AlignUp(x, alignment) <= m
  {
    var q, k := x / alignment, m / alignment;
    if k <= q {
      MulMono(alignment, k, q);
    } else {
      MulMono(alignment, q + 1, k);
    }
  }

  /** No multiple of `alignment` lies between `AlignDown(x)` and `x`. */
  lemma AlignDownGreatest(x: nat, alignment: nat, m: nat)
    requires alignment > 0 && m % alignment == 0 && m <= x
    ensures m <= AlignDown(x, alignment)
  {
    var q, k := x / alignment, m / alignment;
    if k > q {
      MulMono(alignment, q + 1, k);
    } else {
      MulMono(alignment, k, q);
    }
  }

  function Max(a: nat, b: nat): nat
  {
    if a < b then b else a
  }

  /** The size `Allocate` works with: at least 16 and a multiple of 16. */
  function NormalizeSize(size: nat): (r: nat)
    ensures r % MinAlignment == 0 && MinAlignment <= r && size <= r
    ensures forall m :: m % MinAlignment == 0 && Max(size, MinAlignment) <= m ==> r <= m
  {
    var r := AlignUp(Max(size, MinAlignment), MinAlignment);
    assert forall m :: m % MinAlignment == 0 && Max(size, MinAlignment) <= m ==> r <= m by {
      forall m | m % MinAlignment == 0 && Max(size, MinAlignment) <= m {
        AlignUpLeast(Max(size, MinAlignment), MinAlignment, m);
      }
    }
    r
  }

  /** The alignment `Allocate` works with: a positive multiple of 16, and
      the least one that is at least the requested alignment. */
  function NormalizeAlignment(alignment: nat): (r: nat)
    ensures r % MinAlignment == 0 && MinAlignment <= r && alignment <= r
    ensures forall m :: m % MinAlignment == 0 && Max(alignment, 1) <= m ==> r <= m
  {
    var r := AlignUp(Max(alignment, 1), MinAlignment);
    assert forall m :: m % MinAlignment == 0 && Max(alignment, 1) <= m ==> r <= m by {
      forall m | m % MinAlignment == 0 && Max(alignment, 1) <= m {
        AlignUpLeast(Max(alignment, 1), MinAlignment, m);
      }
    }
    r
  }

  // ---------------------------------------------------------------------
  // MemoryBlock

  /** `MemoryBlock::Merge`: `b` absorbs `other` when the two touch, in
      either order; the flag says whether it did. */
  function Merge(b: MemoryBlock, other: MemoryBlock): (r: (bool, MemoryBlock))
    ensures r.0 <==> b.End() == other.address || other.End() == b.address
    ensures r.0 ==> r.1.size == b.size + other.size &&
                    r.1.address == (if b.address <= other.address then b.address else other.address)
    ensures !r.0 ==> r.1 == b
  {
    if b.End() == other.address then (true, b.(size := b.size + other.size))
    else if other.End() == b.address then (true, MemoryBlock(other.address, b.size + other.size))
    else (false, b)
  }

  /** `MemoryBlock::CanFullfill`: the request fits after the bytes skipped
      to reach the first aligned address. */
  predicate CanFullfill(b: MemoryBlock, requestSize: nat, alignment: nat)
    requires alignment > 0
  {
    b.size >= requestSize + (AlignUp(b.address, alignment) - b.address)
  }

  /** `p` is an aligned address in `b` with `requestSize` bytes after it. */
  predicate FitsAt(b: MemoryBlock, p: nat, requestSize: nat, alignment: nat)
    requires alignment > 0
  {
    b.address <= p && p % alignment == 0 && p + requestSize <= b.End()
  }

  /** A block can fulfil a request exactly when some aligned address in it
      has room for the request. */
  lemma CanFullfillIff(b: MemoryBlock, requestSize: nat, alignment: nat)
    requires alignment > 0
    ensures CanFullfill(b, requestSize, alignment) <==> exists p :: FitsAt(b, p, requestSize, alignment)
  {
    if CanFullfill(b, requestSize, alignment) {
      assert FitsAt(b, AlignUp(b.address, alignment), requestSize, alignment);
    }
    if exists p :: FitsAt(b, p, requestSize, alignment) {
      var p :| FitsAt(b, p, requestSize, alignment);
      AlignUpLeast(b.address, alignment, p);
    }
  }

  /** A block around an aligned run of at least `requestSize` bytes can
      fulfil the request. */
  lemma FitsWithin(g: MemoryBlock, w: MemoryBlock, requestSize: nat, alignment: nat)
    requires alignment > 0 && Within(g, w) && g.address % alignment == 0 && g.size >= requestSize
    ensures CanFullfill(w, requestSize, alignment)
  {
    assert FitsAt(w, g.address, requestSize, alignment);
    CanFullfillIff(w, requestSize, alignment);
  }

  /** `MemoryBlock::Allocate`: the allocated part (first) and the free part
      (second). From the front the allocated part reaches from the block's
      start to the end of the aligned request; from the back it starts at
      the last aligned address that leaves room for the request. When fewer
      than 16 bytes would be left over, the whole block is allocated. */
  function Split(b: MemoryBlock, requestSize: nat, alignment: nat, fromFront: bool): (r: (MemoryBlock, MemoryBlock))
    requires alignment > 0 && CanFullfill(b, requestSize, alignment)
    ensures Within(r.0, b) && AlignUp(r.0.address, alignment) + requestSize <= r.0.End()
    ensures r.1.size == 0 ==> r.0 == b && r.1 == NullBlock
    ensures r.1.size > 0 ==> MinBlockSizeBytes <= r.1.size && r.0.size + r.1.size == b.size
    ensures r.1.size > 0 && fromFront ==> r.0.address == b.address && r.1.address == r.0.End()
    ensures r.1.size > 0 && !fromFront ==> r.1.address == b.address && r.0.address == r.1.End()
  {
    if fromFront then
      var alignedAddress := AlignUp(b.address, alignment);
      var endOfAllocation := alignedAddress + requestSize;
      var allocatedSize := endOfAllocation - b.address;
      var remainingSize := b.size - allocatedSize;
      if remainingSize < MinBlockSizeBytes then (b, NullBlock)
      else (MemoryBlock(b.address, allocatedSize), MemoryBlock(endOfAllocation, remainingSize))
    else
      AlignDownGreatest(b.End() - requestSize, alignment, AlignUp(b.address, alignment));
      var alignedAddress := AlignDown(b.End() - requestSize, alignment);
      var allocatedSize := b.End() - alignedAddress;
      var remainingSize := b.size - allocatedSize;
      if remainingSize < MinBlockSizeBytes then (b, NullBlock)
      else (MemoryBlock(alignedAddress, allocatedSize), MemoryBlock(b.address, remainingSize))
  }

  // ---------------------------------------------------------------------
  // Free lists: the `std::set` of free blocks, as a sequence in address order

  /** Blocks in address order, none overlapping the next. */
  ghost predicate Sorted(fb: seq<MemoryBlock>)
  {
    forall i, j :: 0 <= i < j < |fb| ==> fb[i].End() <= fb[j].address
  }

  /** No two neighbours touch: every mergeable pair has been merged. */
  ghost predicate Coalesced(fb: seq<MemoryBlock>)
  {
    forall i :: 0 <= i < |fb| - 1 ==> fb[i].End() < fb[i + 1].address
  }

  /** Every block is non-empty and not at NULL. */
  ghost predicate Proper(fb: seq<MemoryBlock>)
  {
    forall i :: 0 <= i < |fb| ==> fb[i].address > 0 && fb[i].size > 0
  }

  ghost predicate FreeList(fb: seq<MemoryBlock>)
  {
    Sorted(fb) && Coalesced(fb) && Proper(fb)
  }

  /** `c` overlaps no block of `fb`. */
  ghost predicate Apart(c: MemoryBlock, fb: seq<MemoryBlock>)
  {
    forall i :: 0 <= i < |fb| ==> Disjoint(c, fb[i])
  }

  /** Some block of `fb` holds address `x`. */
  ghost predicate Covers(fb: seq<MemoryBlock>, x: nat)
  {
    exists i :: 0 <= i < |fb| && fb[i].Holds(x)
  }

  /** The free bytes of a list. */
  function FreeBytes(fb: seq<MemoryBlock>): nat
  {
    if fb == [] then 0 else fb[0].size + FreeBytes(fb[1..])
  }

  lemma {:induction false} FreeBytesConcat(s: seq<MemoryBlock>, t: seq<MemoryBlock>)
    ensures FreeBytes(s + t) == FreeBytes(s) + FreeBytes(t)
  {
    if s == [] {
      assert s + t == t;
    } else {
      assert (s + t)[1..] == s[1..] + t;
      FreeBytesConcat(s[1..], t);
    }
  }

  lemma CoversConcat(s: seq<MemoryBlock>, t: seq<MemoryBlock>, x: nat)
    ensures Covers(s + t, x) <==> Covers(s, x) || Covers(t, x)
  {
    if Covers(s + t, x) {
      var i :| 0 <= i < |s + t| && (s + t)[i].Holds(x);
      if i >= |s| {
        assert t[i - |s|] == (s + t)[i];
      }
    }
    if Covers(t, x) {
      var i :| 0 <= i < |t| && t[i].Holds(x);
      assert (s + t)[|s| + i] == t[i];
    }
    if Covers(s, x) {
      var i :| 0 <= i < |s| && s[i].Holds(x);
      assert (s + t)[i] == s[i];
    }
  }

  /** `std::set::lower_bound` by address: the first block that does not
      start below `b`. */
  function LowerBound(fb: seq<MemoryBlock>, b: MemoryBlock): (i: nat)
    ensures i <= |fb| && (i < |fb| ==> fb[i].address >= b.address)
    ensures forall j :: 0 <= j < i ==> fb[j].address < b.address
  {
    if fb == [] || fb[0].address >= b.address then 0 else 1 + LowerBound(fb[1..], b)
  }

  /** In a sorted list every block from the lower bound on starts at or
      after `b`. */
  lemma LowerBoundSorted(fb: seq<MemoryBlock>, b: MemoryBlock)
    requires Sorted(fb) && Proper(fb)
    ensures forall j :: LowerBound(fb, b) <= j < |fb| ==> fb[j].address >= b.address
  {
    var i := LowerBound(fb, b);
    forall j | i < j < |fb| ensures fb[j].address >= b.address {
      assert fb[i].End() <= fb[j].address;
    }
  }

  /** Erasing the blocks `b` absorbed and inserting the merged block keeps
      the list sorted, coalesced and proper, adds exactly `b`'s bytes and
      addresses, leaves the merged block holding `b`, and keeps apart every
      block that was apart from the list and from `b`. `i` is `b`'s lower
      bound; `lo` is `i - 1` when the left neighbour touched `b`, `hi` is
      `i + 1` when the right one did. */
  lemma InsertMerged(fb: seq<MemoryBlock>, b: MemoryBlock, i: nat, lo: nat, hi: nat, m: MemoryBlock)
    requires FreeList(fb) && b.size > 0 && b.address > 0 && Apart(b, fb) && i == LowerBound(fb, b)
    requires lo == i || (lo == i - 1 && 0 < i && fb[i - 1].End() == b.address)
    requires 0 < i && lo == i ==> fb[i - 1].End() != b.address
    requires hi == i || (hi == i + 1 && i < |fb| && b.End() == fb[i].address)
    requires i < |fb| && hi == i ==> b.End() != fb[i].address
    requires m.address == (if lo < i then fb[i - 1].address else b.address)
    requires m.End() == (if hi > i then fb[i].End() else b.End())
    ensures var r := fb[..lo] + [m] + fb[hi..];
            FreeList(r) && FreeBytes(r) == FreeBytes(fb) + b.size && Within(b, m) && r[lo] == m &&
            (forall x :: Covers(r, x) <==> Covers(fb, x) || b.Holds(x)) &&
            (forall c: MemoryBlock :: c.size > 0 && Disjoint(c, b) && Apart(c, fb) ==> Apart(c, r))
  {
    var r := fb[..lo] + [m] + fb[hi..];
    LowerBoundSorted(fb, b);
    assert MergeShape(fb, b, i, lo, hi, m);
    InsertMergedOrder(fb, b, i, lo, hi, m);
    InsertMergedBytes(fb, b, i, lo, hi, m);
    InsertMergedCovers(fb, b, i, lo, hi, m);
    InsertMergedApart(fb, b, i, lo, hi, m);
  }

  /** The blocks below the lower bound end at or before `b`; those from it
      on start at or after `b`'s end. */
  lemma Sides(fb: seq<MemoryBlock>, b: MemoryBlock, i: nat)
    requires FreeList(fb) && b.size > 0 && Apart(b, fb) && i == LowerBound(fb, b)
    ensures forall j :: 0 <= j < i ==> fb[j].End() <= b.address
    ensures forall j :: i <= j < |fb| ==> b.End() <= fb[j].address
  {
    LowerBoundSorted(fb, b);
    assert forall j :: 0 <= j < |fb| ==> Disjoint(b, fb[j]);
  }

  /** The shape of the splice `AddFreeBlock` performs; see `InsertMerged`. */
  ghost predicate MergeShape(fb: seq<MemoryBlock>, b: MemoryBlock, i: nat, lo: nat, hi: nat, m: MemoryBlock)
  {
    FreeList(fb) && b.size > 0 && b.address > 0 && Apart(b, fb) && i == LowerBound(fb, b) &&
    (lo == i || (lo == i - 1 && 0 < i && fb[i - 1].End() == b.address)) &&
    (0 < i && lo == i ==> fb[i - 1].End() != b.address) &&
    (hi == i || (hi == i + 1 && i < |fb| && b.End() == fb[i].address)) &&
    (i < |fb| && hi == i ==> b.End() != fb[i].address) &&
    m.address == (if lo < i then fb[i - 1].address else b.address) &&
    m.End() == (if hi > i then fb[i].End() else b.End())
  }

  lemma InsertMergedOrder(fb: seq<MemoryBlock>, b: MemoryBlock, i: nat, lo: nat, hi: nat, m: MemoryBlock)
    requires MergeShape(fb, b, i, lo, hi, m)
    ensures var r := fb[..lo] + [m] + fb[hi..]; FreeList(r) && r[lo] == m && Within(b, m)
  {
    var r := fb[..lo] + [m] + fb[hi..];
    Sides(fb, b, i);
    forall p, q | 0 <= p < q < |r| ensures r[p].End() <= r[q].address {
      SplicePair(fb, b, i, lo, hi, m, p, q);
    }
    forall p | 0 <= p < |r| - 1 ensures r[p].End() < r[p + 1].address {
      SpliceNext(fb, b, i, lo, hi, m, p);
    }
    forall p | 0 <= p < |r| ensures r[p].address > 0 && r[p].size > 0 {
      SpliceIndex(fb, lo, hi, m, p);
    }
    SpliceIndex(fb, lo, hi, m, lo);
  }

  /** Where each element of the spliced list comes from. */
  lemma SpliceIndex(fb: seq<MemoryBlock>, lo: nat, hi: nat, m: MemoryBlock, j: nat)
    requires lo <= hi <= |fb| && j < lo + 1 + |fb| - hi
    ensures j < lo ==> (fb[..lo] + [m] + fb[hi..])[j] == fb[j]
    ensures j == lo ==> (fb[..lo] + [m] + fb[hi..])[j] == m
    ensures j > lo ==> (fb[..lo] + [m] + fb[hi..])[j] == fb[j - lo - 1 + hi]
  {
  }

  lemma SplicePair(fb: seq<MemoryBlock>, b: MemoryBlock, i: nat, lo: nat, hi: nat, m: MemoryBlock, p: nat, q: nat)
    requires MergeShape(fb, b, i, lo, hi, m) && p < q < lo + 1 + |fb| - hi
    requires forall j :: 0 <= j < i ==> fb[j].End() <= b.address
    requires forall j :: i <= j < |fb| ==> b.End() <= fb[j].address
    ensures (fb[..lo] + [m] + fb[hi..])[p].End() <= (fb[..lo] + [m] + fb[hi..])[q].address
  {
    SpliceIndex(fb, lo, hi, m, p);
    SpliceIndex(fb, lo, hi, m, q);
  }

  lemma SpliceNext(fb: seq<MemoryBlock>, b: MemoryBlock, i: nat, lo: nat, hi: nat, m: MemoryBlock, p: nat)
    requires MergeShape(fb, b, i, lo, hi, m) && p + 1 < lo + 1 + |fb| - hi
    requires forall j :: 0 <= j < i ==> fb[j].End() <= b.address
    requires forall j :: i <= j < |fb| ==> b.End() <= fb[j].address
    ensures (fb[..lo] + [m] + fb[hi..])[p].End() < (fb[..lo] + [m] + fb[hi..])[p + 1].address
  {
    SpliceIndex(fb, lo, hi, m, p);
    SpliceIndex(fb, lo, hi, m, p + 1);
  }

  /** The bytes of the one or two blocks `b` absorbed. */
  lemma MergedSize(fb: seq<MemoryBlock>, b: MemoryBlock, i: nat, lo: nat, hi: nat, m: MemoryBlock)
    requires 0 < i ==> lo == i || lo == i - 1
    requires i == 0 ==> lo == i
    requires i < |fb| ==> hi == i || hi == i + 1
    requires i == |fb| ==> hi == i
    requires i <= |fb|
    requires m.address == (if lo < i then fb[i - 1].address else b.address)
    requires m.End() == (if hi > i then fb[i].End() else b.End())
    requires lo < i ==> fb[i - 1].End() == b.address
    requires hi > i ==> b.End() == fb[i].address
    ensures FreeBytes(fb[lo..hi]) + b.size == m.size
  {
    var mid := fb[lo..hi];
    if lo < i && hi > i {
      assert mid == [fb[i - 1], fb[i]] && mid[1..] == [fb[i]] && mid[1..][1..] == [];
      assert FreeBytes(mid[1..]) == fb[i].size;
    } else if lo < i {
      assert mid == [fb[i - 1]] && mid[1..] == [];
    } else if hi > i {
      assert mid == [fb[i]] && mid[1..] == [];
    } else {
      assert mid == [];
    }
  }

  lemma InsertMergedBytes(fb: seq<MemoryBlock>, b: MemoryBlock, i: nat, lo: nat, hi: nat, m: MemoryBlock)
    requires 0 < i ==> lo == i || lo == i - 1
    requires i == 0 ==> lo == i
    requires i < |fb| ==> hi == i || hi == i + 1
    requires i == |fb| ==> hi == i
    requires i <= |fb|
    requires m.address == (if lo < i then fb[i - 1].address else b.address)
    requires m.End() == (if hi > i then fb[i].End() else b.End())
    requires lo < i ==> fb[i - 1].End() == b.address
    requires hi > i ==> b.End() == fb[i].address
    ensures FreeBytes(fb[..lo] + [m] + fb[hi..]) == FreeBytes(fb) + b.size
  {
    MergedSize(fb, b, i, lo, hi, m);
    ThreeParts(fb, lo, hi);
    FreeBytesConcat(fb[..lo] + fb[lo..hi], fb[hi..]);
    FreeBytesConcat(fb[..lo], fb[lo..hi]);
    FreeBytesConcat(fb[..lo] + [m], fb[hi..]);
    FreeBytesConcat(fb[..lo], [m]);
    FreeBytesSingle(m);
  }

  lemma InsertMergedCovers(fb: seq<MemoryBlock>, b: MemoryBlock, i: nat, lo: nat, hi: nat, m: MemoryBlock)
    requires 0 < i ==> lo == i || lo == i - 1
    requires i == 0 ==> lo == i
    requires i < |fb| ==> hi == i || hi == i + 1
    requires i == |fb| ==> hi == i
    requires i <= |fb|
    requires m.address == (if lo < i then fb[i - 1].address else b.address)
    requires m.End() == (if hi > i then fb[i].End() else b.End())
    requires lo < i ==> fb[i - 1].End() == b.address
    requires hi > i ==> b.End() == fb[i].address
    ensures forall x :: Covers(fb[..lo] + [m] + fb[hi..], x) <==> Covers(fb, x) || b.Holds(x)
  {
    assert fb == fb[..lo] + fb[lo..hi] + fb[hi..];
    var mid := fb[lo..hi];
    forall x ensures Covers(fb[..lo] + [m] + fb[hi..], x) <==> Covers(fb, x) || b.Holds(x) {
      CoversConcat(fb[..lo] + [m], fb[hi..], x);
      CoversConcat(fb[..lo], [m], x);
      CoversConcat(fb[..lo] + mid, fb[hi..], x);
      CoversConcat(fb[..lo], mid, x);
      assert Covers([m], x) <==> m.Holds(x) by {
        if m.Holds(x) { assert [m][0] == m; }
      }
      assert m.Holds(x) <==> Covers(mid, x) || b.Holds(x) by {
        if lo < i && hi > i {
          assert mid == [fb[i - 1], fb[i]];
          if fb[i - 1].Holds(x) { assert mid[0].Holds(x); }
          if fb[i].Holds(x) { assert mid[1].Holds(x); }
        } else if lo < i {
          assert mid == [fb[i - 1]];
          if fb[i - 1].Holds(x) { assert mid[0].Holds(x); }
        } else if hi > i {
          assert mid == [fb[i]];
          if fb[i].Holds(x) { assert mid[0].Holds(x); }
        } else {
          assert mid == [];
        }
      }
    }
  }

  lemma InsertMergedApart(fb: seq<MemoryBlock>, b: MemoryBlock, i: nat, lo: nat, hi: nat, m: MemoryBlock)
    requires 0 < i ==> lo == i || lo == i - 1
    requires i == 0 ==> lo == i
    requires i < |fb| ==> hi == i || hi == i + 1
    requires i == |fb| ==> hi == i
    requires i <= |fb|
    requires m.address == (if lo < i then fb[i - 1].address else b.address)
    requires m.End() == (if hi > i then fb[i].End() else b.End())
    requires lo < i ==> fb[i - 1].End() == b.address
    requires hi > i ==> b.End() == fb[i].address
    ensures forall c: MemoryBlock :: c.size > 0 && Disjoint(c, b) && Apart(c, fb) ==> Apart(c, fb[..lo] + [m] + fb[hi..])
  {
    var r := fb[..lo] + [m] + fb[hi..];
    forall c: MemoryBlock | c.size > 0 && Disjoint(c, b) && Apart(c, fb) ensures Apart(c, r) {
      assert Disjoint(c, m) by {
        if lo < i { assert Disjoint(c, fb[i - 1]); }
        if hi > i { assert Disjoint(c, fb[i]); }
      }
      assert forall j :: 0 <= j < |r| && j != lo ==> r[j] == fb[if j < lo then j else j - lo - 1 + hi];
    }
  }

  /** Erasing block `i` keeps the list sorted, coalesced and proper, removes
      exactly its bytes and addresses, and keeps apart every block that
      was apart. */
  lemma RemoveAt(fb: seq<MemoryBlock>, i: nat)
    requires FreeList(fb) && i < |fb|
    ensures var r := fb[..i] + fb[i + 1..];
            FreeList(r) && FreeBytes(r) + fb[i].size == FreeBytes(fb) &&
            (forall x :: Covers(r, x) <==> Covers(fb, x) && !fb[i].Holds(x)) &&
            (forall c: MemoryBlock :: Apart(c, fb) ==> Apart(c, r))
  {
    RemoveAtOrder(fb, i);
    RemoveAtBytes(fb, i);
    RemoveAtCovers(fb, i);
    var r := fb[..i] + fb[i + 1..];
    assert forall j :: 0 <= j < |r| ==> r[j] == fb[if j < i then j else j + 1];
  }

  lemma RemoveAtOrder(fb: seq<MemoryBlock>, i: nat)
    requires FreeList(fb) && i < |fb|
    ensures FreeList(fb[..i] + fb[i + 1..])
  {
    var r := fb[..i] + fb[i + 1..];
    assert Shift: forall j :: 0 <= j < |r| ==> r[j] == fb[if j < i then j else j + 1];
    assert Sorted(r) by {
      forall p, q | 0 <= p < q < |r| ensures r[p].End() <= r[q].address {
        assert r[p] == fb[if p < i then p else p + 1] && r[q] == fb[if q < i then q else q + 1];
      }
    }
    assert Coalesced(r) by {
      forall p | 0 <= p < |r| - 1 ensures r[p].End() < r[p + 1].address {
        if p + 1 == i {
          assert r[p] == fb[i - 1] && r[p + 1] == fb[i + 1];
          assert fb[i - 1].End() <= fb[i].address < fb[i].End() <= fb[i + 1].address;
        } else {
          var p' := if p < i then p else p + 1;
          assert r[p] == fb[p'] && r[p + 1] == fb[p' + 1];
        }
      }
    }
  }

  lemma RemoveAtBytes(fb: seq<MemoryBlock>, i: nat)
    requires i < |fb|
    ensures FreeBytes(fb[..i] + fb[i + 1..]) + fb[i].size == FreeBytes(fb)
  {
    AroundIndex(fb, i);
    FreeBytesConcat(fb[..i] + [fb[i]], fb[i + 1..]);
    FreeBytesConcat(fb[..i], [fb[i]]);
    FreeBytesConcat(fb[..i], fb[i + 1..]);
    FreeBytesSingle(fb[i]);
  }

  lemma RemoveAtCovers(fb: seq<MemoryBlock>, i: nat)
    requires Sorted(fb) && i < |fb|
    ensures forall x :: Covers(fb[..i] + fb[i + 1..], x) <==> Covers(fb, x) && !fb[i].Holds(x)
  {
    forall x ensures Covers(fb[..i] + fb[i + 1..], x) <==> Covers(fb, x) && !fb[i].Holds(x) {
      RemoveAtCoversOne(fb, i, x);
    }
  }

  lemma RemoveAtCoversOne(fb: seq<MemoryBlock>, i: nat, x: nat)
    requires Sorted(fb) && i < |fb|
    ensures Covers(fb[..i] + fb[i + 1..], x) <==> Covers(fb, x) && !fb[i].Holds(x)
  {
    var r := fb[..i] + fb[i + 1..];
    WithoutIndex(fb, i, r);
    if Covers(r, x) {
      RemovedCovers(fb, i, r, x);
    }
    if Covers(fb, x) && !fb[i].Holds(x) {
      var k :| 0 <= k < |fb| && fb[k].Holds(x);
      assert r[if k < i then k else k - 1] == fb[k];
    }
  }

  /** An address the list without block `i` covers lies in another block,
      which in a sorted list is apart from block `i`. */
  lemma RemovedCovers(fb: seq<MemoryBlock>, i: nat, r: seq<MemoryBlock>, x: nat)
    requires Sorted(fb) && i < |fb| && |r| == |fb| - 1 && Covers(r, x)
    requires forall j :: 0 <= j < i ==> r[j] == fb[j]
    requires forall j :: i <= j < |r| ==> r[j] == fb[j + 1]
    ensures Covers(fb, x) && !fb[i].Holds(x)
  {
    var j :| 0 <= j < |r| && r[j].Holds(x);
    var k := if j < i then j else j + 1;
    assert fb[k].Holds(x);
    if k < i { assert fb[k].End() <= fb[i].address; } else { assert fb[i].End() <= fb[k].address; }
  }

  lemma ThreeParts<T>(s: seq<T>, lo: nat, hi: nat)
    requires lo <= hi <= |s|
    ensures s == s[..lo] + s[lo..hi] + s[hi..]
  {
  }

  lemma AroundIndex<T>(s: seq<T>, i: nat)
    requires i < |s|
    ensures s == s[..i] + [s[i]] + s[i + 1..]
  {
  }

  /** The list with element `i` erased, index by index. */
  lemma WithoutIndex<T>(s: seq<T>, i: nat, r: seq<T>)
    requires i < |s| && r == s[..i] + s[i + 1..]
    ensures |r| == |s| - 1
    ensures forall j :: 0 <= j < i ==> r[j] == s[j]
    ensures forall j :: i <= j < |r| ==> r[j] == s[j + 1]
  {
  }

  lemma FreeBytesSingle(m: MemoryBlock)
    ensures FreeBytes([m]) == m.size
  {
    assert [m][1..] == [];
  }

  // ---------------------------------------------------------------------
  // Allocated bytes: the sizes in the map of allocated blocks

  ghost function SumOver(m: map<nat, MemoryBlock>, keys: set<nat>): nat
    requires keys <= m.Keys
  {
    if keys == {} then 0
    else
      var k :| k in keys;
      m[k].size + SumOver(m, keys - {k})
  }

  /** The total the map's blocks hold. */
  ghost function AllocatedBytes(m: map<nat, MemoryBlock>): nat
  {
    SumOver(m, m.Keys)
  }

  /** The sum does not depend on which key is taken first. */
  lemma {:induction false} SumOverRemove(m: map<nat, MemoryBlock>, keys: set<nat>, k: nat)
    requires keys <= m.Keys && k in keys
    ensures SumOver(m, keys) == m[k].size + SumOver(m, keys - {k})
    decreases |keys|
  {
    var j :| j in keys && SumOver(m, keys) == m[j].size + SumOver(m, keys - {j});
    if j != k {
      SumOverRemove(m, keys - {j}, k);
      SumOverRemove(m, keys - {k}, j);
      assert keys - {j} - {k} == keys - {k} - {j};
    }
  }

  /** Two maps that agree on `keys` have the same sum over them. */
  lemma {:induction false} SumOverAgree(m1: map<nat, MemoryBlock>, m2: map<nat, MemoryBlock>, keys: set<nat>)
    requires keys <= m1.Keys && keys <= m2.Keys
    requires forall k :: k in keys ==> m1[k].size == m2[k].size
    ensures SumOver(m1, keys) == SumOver(m2, keys)
    decreases |keys|
  {
    if keys != {} {
      var k :| k in keys && SumOver(m1, keys) == m1[k].size + SumOver(m1, keys - {k});
      SumOverRemove(m2, keys, k);
      SumOverAgree(m1, m2, keys - {k});
    }
  }

  /** Adding a block under a new key adds its size. */
  lemma AllocatedBytesAdd(m: map<nat, MemoryBlock>, k: nat, b: MemoryBlock)
    requires k !in m
    ensures AllocatedBytes(m[k := b]) == AllocatedBytes(m) + b.size
  {
    var m' := m[k := b];
    assert m'.Keys - {k} == m.Keys;
    SumOverRemove(m', m'.Keys, k);
    SumOverAgree(m', m, m.Keys);
  }

  /** Removing a key takes away its block's size. */
  lemma AllocatedBytesRemove(m: map<nat, MemoryBlock>, k: nat)
    requires k in m
    ensures AllocatedBytes(m - {k}) + m[k].size == AllocatedBytes(m)
  {
    var m' := m - {k};
    assert m'.Keys == m.Keys - {k};
    SumOverRemove(m, m.Keys, k);
    SumOverAgree(m', m, m'.Keys);
  }
}
