/** `KPageHeap`: a buddy allocator over one bitmap per block size.  Address 0 is Null. */
module PageHeaps {
  import opened BlockSizes
  import opened HeapLevels

  const NULL: nat := 0

  class PageHeap {
    const sizes: seq<nat>
    const heapStart: nat
    const heapEnd: nat
    var bits: Bits

    /** The invariant of every reachable state; page 0 is not heap memory. */
    ghost predicate Valid()
      reads this
    {
      && Inv(bits, sizes) && 0 < heapStart
      && forall p: nat :: FreePage(bits, sizes, p) ==> heapStart <= p < heapEnd
    }

    /** The free pages are those of `before` and `[lo, hi)`. */
    ghost predicate FreedSince(before: Bits, lo: nat, hi: nat)
      requires Shaped(before, sizes) && Shaped(bits, sizes)
      reads this
    {
      forall p: nat :: FreePage(bits, sizes, p) <==> FreePage(before, sizes, p) || lo <= p < hi
    }

    ghost predicate NoneFree(lo: nat, hi: nat)
      requires Shaped(bits, sizes)
      reads this
    {
      forall p: nat :: lo <= p < hi ==> !FreePage(bits, sizes, p)
    }

    /** `Initialize`: every bitmap is empty. */
    constructor (blockSizes: seq<nat>, address: nat, numPages: nat)
      requires ValidSizes(blockSizes) && 0 < address
      ensures sizes == blockSizes && heapStart == address && heapEnd == address + numPages && Valid()
      ensures forall p: nat :: !FreePage(bits, sizes, p)
    {
      sizes, heapStart, heapEnd := blockSizes, address, address + numPages;
      bits := seq(|blockSizes|, _ => {});
      new;
      EmptyIsValid(bits, sizes);
    }

    /** `Block::PushBlock`: sets the bit; a group that has become full is cleared and handed on. */
    method PushBlock(i: nat, block: nat) returns (r: nat)
      requires Shaped(bits, sizes) && i < |sizes| && block % sizes[i] == 0
      modifies this`bits
      ensures Shaped(bits, sizes)
      ensures var n, nb := block / sizes[i], SetBit(old(bits), i, block / sizes[i]);
              if i + 1 < |sizes| && Full(nb[i], n / Fanout(sizes, i), Fanout(sizes, i)) then
                && r == n / Fanout(sizes, i) * sizes[i + 1]
                && bits == nb[i := nb[i] - Group(nb[i], n / Fanout(sizes, i), Fanout(sizes, i))]
              else
                r == NULL && bits == nb
    {
      hide Full, Group, Fanout;
      var offset := block / sizes[i];
      bits := SetBit(bits, i, offset);
      if i + 1 < |sizes| {
        FanoutFacts(sizes, i);
        var diff := Fanout(sizes, i);
        var g := offset / diff;
        var full := AllSet(bits[i], g, diff);
        if full {
          bits := bits[i := bits[i] - Group(bits[i], g, diff)];
          return g * sizes[i + 1];
        }
      }
      return NULL;
    }

    /** `ClearRange`'s test: all bits of group `g` of `d` are set. */
    static method AllSet(b: set<nat>, g: nat, d: nat) returns (all: bool)
      ensures all <==> Full(b, g, d)
    {
      var lo, hi := g * d, (g + 1) * d;
      var n := lo;
      while n < hi
        invariant lo <= n && (lo <= hi ==> n <= hi)
        invariant forall m: nat :: lo <= m < n ==> m in b
      {
        if n !in b {
          return false;
        }
        n := n + 1;
      }
      return true;
    }

    /** `FreeBlock`: pushes a block and, as long as groups become full, the merged block above it. */
    method FreeBlock(block: nat, index: nat)
      requires Valid() && index < |sizes| && block % sizes[index] == 0 && block > 0
      requires forall p: nat :: p / sizes[index] == block / sizes[index] ==>
                                  heapStart <= p < heapEnd && !FreePage(bits, sizes, p)
      modifies this`bits
      ensures Valid()
      ensures forall p: nat :: FreePage(bits, sizes, p)
                               <==> old(FreePage(bits, sizes, p)) || p / sizes[index] == block / sizes[index]
    {
      hide FreePage, Exclusive, Merged;
      var cur, i := block, index;
      assert !FreePage(bits, sizes, 0);
      while cur != NULL
        invariant Inv(bits, sizes) && Shaped(bits, sizes)
        invariant cur != NULL ==> i < |sizes| && cur % sizes[i] == 0
        invariant cur != NULL ==> forall p: nat :: p / sizes[i] == cur / sizes[i] ==> !FreePage(bits, sizes, p)
        invariant cur != NULL ==> !FreePage(bits, sizes, 0)
        invariant forall p: nat :: FreePage(bits, sizes, p) || (cur != NULL && p / sizes[i] == cur / sizes[i])
                                   <==> old(FreePage(bits, sizes, p)) || p / sizes[index] == block / sizes[index]
        decreases if cur == NULL then 0 else |sizes| - i
      {
        cur := PushOnce(i, cur);
        i := i + 1;
      }
    }

    /** One round of `FreeBlock`: what was pushed is either free now or waiting, merged, for the next level. */
    method PushOnce(i: nat, cur: nat) returns (r: nat)
      requires Inv(bits, sizes) && i < |sizes| && cur % sizes[i] == 0 && cur > 0 && !FreePage(bits, sizes, 0)
      requires forall p: nat :: p / sizes[i] == cur / sizes[i] ==> !FreePage(bits, sizes, p)
      modifies this`bits
      ensures Inv(bits, sizes) && Shaped(bits, sizes)
      ensures r != NULL ==>
                && i + 1 < |sizes| && r % sizes[i + 1] == 0 && !FreePage(bits, sizes, 0)
                && forall p: nat :: p / sizes[i + 1] == r / sizes[i + 1] ==> !FreePage(bits, sizes, p)
      ensures forall p: nat :: FreePage(bits, sizes, p) || (r != NULL && p / sizes[i + 1] == r / sizes[i + 1])
                               <==> old(FreePage(bits, sizes, p)) || p / sizes[i] == cur / sizes[i]
    {
      hide FreePage, Exclusive, Merged, Full;
      BlockRange(cur, sizes[i], 0);
      ghost var n, nb := cur / sizes[i], SetBit(bits, i, cur / sizes[i]);
      if i + 1 < |sizes| {
        FanoutFacts(sizes, i);
      }
      if i + 1 < |sizes| && Full(nb[i], n / Fanout(sizes, i), Fanout(sizes, i)) {
        PushWithMerge(bits, sizes, i, n);
        BlockStart(n / Fanout(sizes, i), sizes[i + 1], 0);
        MultipleIsAligned(n / Fanout(sizes, i), sizes[i + 1]);
        assert 0 / sizes[i + 1] == 0;
      } else {
        PushWithoutMerge(bits, sizes, i, n);
      }
      r := PushBlock(i, cur);
    }

    /** `FreeBlock` for the pages `[block, block + sizes[index])`. */
    method FreeBlockPages(block: nat, index: nat)
      requires Valid() && index < |sizes| && block % sizes[index] == 0
      requires heapStart <= block && block + sizes[index] <= heapEnd
      requires NoneFree(block, block + sizes[index])
      modifies this`bits
      ensures Valid() && FreedSince(old(bits), block, block + sizes[index])
    {
      forall p: nat
        ensures p / sizes[index] == block / sizes[index] <==> block <= p < block + sizes[index]
      {
        BlockRange(block, sizes[index], p);
      }
      FreeBlock(block, index);
    }

    /** `Free`: gives the pages `[addr, addr + numPages)` back, each of them once. */
    method Free(addr: nat, numPages: nat)
      requires Valid() && heapStart <= addr && addr + numPages <= heapEnd && NoneFree(addr, addr + numPages)
      modifies this`bits
      ensures Valid() && FreedSince(old(bits), addr, addr + numPages)
    {
      if numPages == 0 {
        return;
      }
      hide FreePage, Exclusive, Merged;
      var start, end := addr, addr + numPages;
      var bigIndex, bigStart, bigEnd := FindBigBlocks(start, end);
      AlignIsAligned(start, sizes[bigIndex]);
      AlignIsAligned(end, sizes[bigIndex]);
      FreeBigBlocks(start, end, bigIndex, bigStart, bigEnd);
      FreeBefore(start, bigStart, bigEnd, bigIndex, old(bits));
      FreeAfter(start, bigEnd, end, bigIndex, old(bits));
    }

    /** The largest block size of which a whole block lies in `[start, end)`. */
    method FindBigBlocks(start: nat, end: nat) returns (bigIndex: nat, bigStart: nat, bigEnd: nat)
      requires Shaped(bits, sizes) && start < end
      ensures bigIndex < |sizes| && bigStart < bigEnd
      ensures bigStart == AlignUp(start, sizes[bigIndex]) && bigEnd == AlignDown(end, sizes[bigIndex])
      ensures forall j :: bigIndex < j < |sizes| ==> AlignUp(start, sizes[j]) >= AlignDown(end, sizes[j])
    {
      bigIndex := |sizes| - 1;
      while true
        invariant bigIndex < |sizes|
        invariant forall j :: bigIndex < j < |sizes| ==> AlignUp(start, sizes[j]) >= AlignDown(end, sizes[j])
        decreases bigIndex
      {
        bigStart := AlignUp(start, sizes[bigIndex]);
        bigEnd := AlignDown(end, sizes[bigIndex]);
        if bigStart < bigEnd {
          return;
        }
        assert bigIndex > 0;
        bigIndex := bigIndex - 1;
      }
    }

    method FreeBigBlocks(start: nat, end: nat, bigIndex: nat, bigStart: nat, bigEnd: nat)
      requires Valid() && heapStart <= start && end <= heapEnd && NoneFree(start, end)
      requires bigIndex < |sizes| && start <= bigStart <= bigEnd <= end
      requires bigStart == AlignUp(start, sizes[bigIndex]) && bigEnd == AlignDown(end, sizes[bigIndex])
      modifies this`bits
      ensures Valid() && FreedSince(old(bits), bigStart, bigEnd)
    {
      var size := sizes[bigIndex];
      AlignIsAligned(start, size);
      AlignIsAligned(end, size);
      var block := bigStart;
      while block < bigEnd
        invariant bigStart <= block <= bigEnd && block % size == 0
        invariant Valid() && FreedSince(old(bits), bigStart, block)
      {
        AlignedGap(block, bigEnd, size);
        FreeBlockPages(block, bigIndex);
        AlignedStep(block, size);
        block := block + size;
      }
    }

    /** The space before the big blocks, from its upper end down, with ever smaller blocks. */
    method FreeBefore(start: nat, bigStart: nat, bigEnd: nat, bigIndex: nat, ghost before: Bits)
      requires Valid() && Shaped(before, sizes) && bigIndex < |sizes|
      requires heapStart <= start <= bigStart <= bigEnd <= heapEnd && bigStart - start < sizes[bigIndex]
      requires bigStart % sizes[bigIndex] == 0
      requires FreedSince(before, bigStart, bigEnd) && NoneFree(start, bigStart)
      modifies this`bits
      ensures Valid() && FreedSince(before, start, bigEnd)
    {
      var beforeEnd: nat, i: nat := bigStart, bigIndex;
      while i > 0
        invariant i <= bigIndex && start <= beforeEnd <= bigStart
        invariant beforeEnd - start < sizes[i] && beforeEnd % sizes[i] == 0
        invariant Valid() && FreedSince(before, beforeEnd, bigEnd) && NoneFree(start, beforeEnd)
      {
        AlignedBelow(sizes, i, beforeEnd);
        i := i - 1;
        var size := sizes[i];
        while start + size <= beforeEnd
          invariant start <= beforeEnd <= bigStart && beforeEnd % size == 0
          invariant Valid() && FreedSince(before, beforeEnd, bigEnd) && NoneFree(start, beforeEnd)
          decreases beforeEnd
        {
          AlignedStep(beforeEnd, size);
          beforeEnd := beforeEnd - size;
          FreeBlockPages(beforeEnd, i);
        }
      }
    }

    /** The space after the big blocks, from its lower end up, with ever smaller blocks. */
    method FreeAfter(start: nat, bigEnd: nat, end: nat, bigIndex: nat, ghost before: Bits)
      requires Valid() && Shaped(before, sizes) && bigIndex < |sizes|
      requires heapStart <= start <= bigEnd <= end <= heapEnd && end - bigEnd < sizes[bigIndex]
      requires bigEnd % sizes[bigIndex] == 0
      requires FreedSince(before, start, bigEnd) && NoneFree(bigEnd, end)
      modifies this`bits
      ensures Valid() && FreedSince(before, start, end)
    {
      var afterStart: nat, i: nat := bigEnd, bigIndex;
      while i > 0
        invariant i <= bigIndex && bigEnd <= afterStart <= end
        invariant end - afterStart < sizes[i] && afterStart % sizes[i] == 0
        invariant Valid() && FreedSince(before, start, afterStart) && NoneFree(afterStart, end)
      {
        AlignedBelow(sizes, i, afterStart);
        i := i - 1;
        var size := sizes[i];
        while afterStart + size <= end
          invariant bigEnd <= afterStart <= end && afterStart % size == 0
          invariant Valid() && FreedSince(before, start, afterStart) && NoneFree(afterStart, end)
          decreases end - afterStart
        {
          FreeBlockPages(afterStart, i);
          AlignedStep(afterStart, size);
          afterStart := afterStart + size;
        }
      }
    }

    /** `Block::PopBlock`: any free block, or the first one. */
    method PopBlock(i: nat, random: bool) returns (r: nat)
      requires Valid() && i < |sizes|
      modifies this`bits
      ensures Valid()
      ensures r == NULL <==> old(bits)[i] == {}
      ensures r == NULL ==> bits == old(bits)
      ensures r != NULL ==>
                && r % sizes[i] == 0 && r / sizes[i] in old(bits)[i]
                && forall p: nat :: FreePage(bits, sizes, p) <==> old(FreePage(bits, sizes, p)) && !(r <= p < r + sizes[i])
      ensures r != NULL && !random ==> forall n :: n in old(bits)[i] ==> r / sizes[i] <= n
    {
      if bits[i] == {} {
        return NULL;
      }
      ghost var least := Least(bits[i]);
      var n :| n in bits[i] && (!random ==> forall m :: m in bits[i] ==> n <= m);
      ClearKeepsInv(bits, sizes, i, {n});
      MultipleIsAligned(n, sizes[i]);
      BlockStart(n, sizes[i], 0);
      r := n * sizes[i];
      assert FreeAt(bits, sizes, i, r);
      assert FreePage(bits, sizes, r);
      forall p: nat
        ensures p / sizes[i] == n <==> r <= p < r + sizes[i]
      {
        BlockRange(r, sizes[i], p);
      }
      ClearKeepsMerged(bits, sizes, i, {n});
      bits := bits[i := bits[i] - {n}];
    }

    /** `AllocateBlock`: fails exactly when no aligned, wholly free run of the block size exists;
        otherwise takes such a run and nothing else. */
    method AllocateBlock(index: nat, random: bool) returns (addr: nat)
      requires Valid() && index < |sizes|
      modifies this`bits
      ensures Valid()
      ensures addr == NULL <==> !exists n: nat :: FreeRun(old(bits), sizes, sizes[index], n)
      ensures addr == NULL ==> bits == old(bits)
      ensures addr != NULL ==>
                && addr % sizes[index] == 0
                && (forall p: nat :: addr <= p < addr + sizes[index] ==> old(FreePage(bits, sizes, p)))
                && (forall p: nat :: FreePage(bits, sizes, p)
                                     <==> old(FreePage(bits, sizes, p)) && !(addr <= p < addr + sizes[index]))
    {
      var needed := sizes[index];
      for i := index to |sizes|
        invariant Valid() && bits == old(bits)
        invariant forall k :: index <= k < i ==> bits[k] == {}
      {
        addr := PopBlock(i, random);
        if addr != NULL {
          PoppedRun(old(bits), sizes, index, i, addr);
          if sizes[i] > needed {
            assert FreePage(old(bits), sizes, addr) && FreePage(old(bits), sizes, addr + sizes[i] - 1);
            Free(addr + needed, sizes[i] - needed);
          }
          return;
        }
      }
      addr := NULL;
      forall n: nat
        ensures !FreeRun(bits, sizes, sizes[index], n)
      {
        if FreeRun(bits, sizes, sizes[index], n) {
          var k := FreeRunIsCovered(bits, sizes, index, n);
        }
      }
    }

    /** `GetNumFreePages` is the number of free pages. */
    method GetNumFreePages() returns (count: nat)
      requires Valid()
      ensures count == |FreePages(bits, sizes)|
    {
      count := 0;
      for i := 0 to |sizes|
        invariant count == |FreePagesBelow(bits, sizes, i)|
      {
        CountOneLevel(bits, sizes, i);
        count := count + |bits[i]| * sizes[i];
      }
    }
  }

  lemma {:induction false} Least(b: set<nat>) returns (n: nat)
    requires b != {}
    ensures n in b && forall m :: m in b ==> n <= m
    decreases |b|
  {
    n :| n in b;
    var rest := b - {n};
    if rest == {} {
      assert b == {n};
    } else {
      var least := Least(rest);
      forall m | m in b
        ensures (if n <= least then n else least) <= m
      {
        assert m == n || m in rest;
      }
      n := if n <= least then n else least;
    }
  }

  /** A block popped from level `i` starts with a free run of every smaller size. */
  lemma {:induction false} PoppedRun(bits: Bits, sizes: seq<nat>, index: nat, i: nat, addr: nat)
    requires Shaped(bits, sizes) && index <= i < |sizes|
    requires addr % sizes[i] == 0 && addr / sizes[i] in bits[i]
    ensures addr % sizes[index] == 0 && sizes[index] <= sizes[i]
    ensures FreeRun(bits, sizes, sizes[index], addr / sizes[index])
    ensures forall p: nat :: addr <= p < addr + sizes[i] ==> FreePage(bits, sizes, p)
  {
    var d := SizesDivide(sizes, index, i);
    var n := addr / sizes[i];
    assert addr == n * sizes[i];
    assert n * (sizes[index] * d) == (n * d) * sizes[index];
    MultipleIsAligned(n * d, sizes[index]);
    MulMonotone(1, d, sizes[index]);
    forall p: nat | addr <= p < addr + sizes[i]
      ensures FreePage(bits, sizes, p)
    {
      BlockRange(addr, sizes[i], p);
      assert FreeAt(bits, sizes, i, p);
    }
    forall p: nat | p / sizes[index] == addr / sizes[index]
      ensures FreePage(bits, sizes, p)
    {
      BlockRange(addr, sizes[index], p);
    }
  }
}
