/** The scans of `KPageTableBase` that look at a range before it is updated: they decide whether
    every page qualifies, and they count the blocks that the update will have to allocate. */
module StateChecks {
  import opened Bytes
  import opened MemoryBlocks
  import opened BlockUpdates
  import opened BlockManagers

  /** How many ends of `[lo, hi)` fall inside a block. */
  function CutEnds(bs: seq<Block>, to: nat, lo: nat, hi: nat): nat {
    (if IsBoundary(bs, to, lo) then 0 else 1) + (if IsBoundary(bs, to, hi) then 0 else 1)
  }

  predicate AllPages(v: seq<PageView>, lo: nat, hi: nat, test: PageInfo -> bool)
    requires lo <= hi <= |v|
  {
    forall k :: lo <= k < hi ==> test(v[k].info)
  }

  /** The count of cut ends is enough for every update of the range, and never more than two. */
  lemma {:induction false} CutEndsSuffice(bs: seq<Block>, from: nat, to: nat, op: Op, address: nat, n: nat)
    requires Tiles(bs, from, to) && |View(bs)| == to - from
    requires from <= address && address + n <= to && 0 < n
    ensures BlocksNeeded(bs, from, to, op, address, n) <= CutEnds(bs, to, address, address + n) <= 2
    ensures op.UpdateLock? ==> BlocksNeeded(bs, from, to, op, address, n) == CutEnds(bs, to, address, address + n)
  {
  }

  /** One block update: with blocks for the cut ends of the range it goes through. */
  method UpdateOne(m: BlockManager, at: nat, n: nat, op: Op, numBlocks: nat)
    requires m.Valid() && |View(m.blocks)| == m.end - m.start && n > 0 && at + n <= m.end - m.start
    requires op.Update? && op.Ok() && op.Touches(View(m.blocks)[at].info)
    requires CutEnds(m.blocks, m.end, m.start + at, m.start + at + n) <= numBlocks <= 2
    modifies m`blocks
    ensures m.Valid() && View(m.blocks) == ApplyRange(op, old(View(m.blocks)), at, at + n)
    ensures |View(m.blocks)| == m.end - m.start
  {
    hide View, IsBoundary, Tiles, Coalesced, ApplyRange, RangeFits;
    CutEndsSuffice(m.blocks, m.start, m.end, op, m.start + at, n);
    var alloc := new UpdateAllocator(numBlocks);
    assert |m.blocks| > 0 by {
      SomeBlock(m.blocks, m.start, m.end);
    }
    m.Update(alloc, m.start + at, n, op.state, op.perm, op.attr, op.setMask, op.clearMask);
    assert Op.Update(op.state, op.perm, op.attr, op.setMask, op.clearMask) == op;
  }

  lemma {:induction false} SomeBlock(bs: seq<Block>, from: nat, to: nat)
    requires Tiles(bs, from, to) && from < to
    ensures |bs| > 0
  {
  }

  /** The pages of block `it` all look alike. */
  lemma {:induction false} BlockPages(bs: seq<Block>, from: nat, to: nat, it: nat, p: nat)
    requires Tiles(bs, from, to) && it < |bs| && bs[it].Holds(p) && |View(bs)| == to - from
    ensures from <= p < to && View(bs)[p - from].info == bs[it].info
  {
    TilesSplit(bs, from, to, it);
    ViewAt(bs, from, to, it, p - bs[it].addr);
  }

  /** One more block of the range has passed or failed. */
  lemma {:induction false} OneMoreBlock(bs: seq<Block>, from: nat, to: nat, it: nat, lo: nat, hi: nat,
                                        test: PageInfo -> bool)
    requires Tiles(bs, from, to) && it < |bs| && |View(bs)| == to - from
    requires from <= lo < hi <= to && lo < bs[it].End() && bs[it].addr < hi
    requires bs[it].addr <= lo || AllPages(View(bs), lo - from, bs[it].addr - from, test)
    ensures from <= bs[it].addr && bs[it].End() <= to
    ensures test(bs[it].info) ==> bs[it].End() <= hi ==> AllPages(View(bs), lo - from, bs[it].End() - from, test)
    ensures test(bs[it].info) ==> hi <= bs[it].End() ==> AllPages(View(bs), lo - from, hi - from, test)
    ensures !test(bs[it].info) ==> !AllPages(View(bs), lo - from, hi - from, test)
  {
    var b, v := bs[it], View(bs);
    TilesSplit(bs, from, to, it);
    forall p | lo <= p < hi && b.Holds(p)
      ensures v[p - from].info == b.info
    {
      BlockPages(bs, from, to, it, p);
    }
    var p := if b.addr <= lo then lo else b.addr;
    BlockPages(bs, from, to, it, p);
    forall k | lo - from <= k < hi - from && k < b.End() - from && test(b.info)
      ensures test(v[k].info)
    {
      if b.addr <= k + from {
        assert b.Holds(k + from);
        assert v[k + from - from].info == b.info;
      }
    }
  }

  /** `CheckMemoryStateContiguous`: every page passes the test; the count is the number of cut ends. */
  method CheckMemoryStateContiguous(m: BlockManager, addr: nat, size: nat, test: PageInfo -> bool)
    returns (ok: bool, blocksNeeded: nat)
    requires m.Valid() && |View(m.blocks)| == m.end - m.start
    requires 0 < size && m.start * PAGE_SIZE <= addr && addr + size <= m.end * PAGE_SIZE
    ensures m.start <= PageDown(addr) < PageUp(addr + size) <= m.end
    ensures ok <==> AllPages(View(m.blocks), PageDown(addr) - m.start, PageUp(addr + size) - m.start, test)
    ensures ok ==> blocksNeeded == CutEnds(m.blocks, m.end, PageDown(addr), PageUp(addr + size))
  {
    ghost var lo, hi, bs := PageDown(addr), PageUp(addr + size), m.blocks;
    var it := m.FindIterator(addr / PAGE_SIZE);
    BoundaryIsStart(bs, m.start, m.end, it, lo);
    var forStart := if addr / PAGE_SIZE != m.blocks[it].addr then 1 else 0;
    while true
      invariant it < |bs| && m.blocks == bs && bs[it].addr < hi && lo < bs[it].End()
      invariant bs[it].addr <= lo || AllPages(View(bs), lo - m.start, bs[it].addr - m.start, test)
      decreases |bs| - it
    {
      OneMoreBlock(bs, m.start, m.end, it, lo, hi, test);
      if !test(m.blocks[it].info) {
        return false, 0;
      }
      if addr + size - 1 <= m.blocks[it].End() * PAGE_SIZE - 1 {
        break;
      }
      EndIsBoundary(bs, m.start, m.end, it);
      it := it + 1;
    }
    EndCut(bs, m.start, m.end, it, hi);
    ok := true;
    blocksNeeded := forStart + (if PageUp(addr + size) != m.blocks[it].End() then 1 else 0);
  }

  lemma {:induction false} EndCut(bs: seq<Block>, from: nat, to: nat, it: nat, hi: nat)
    requires Tiles(bs, from, to) && it < |bs| && bs[it].addr < hi <= bs[it].End()
    ensures IsBoundary(bs, to, hi) <==> hi == bs[it].End()
  {
    EndIsBoundary(bs, from, to, it);
    if hi < bs[it].End() {
      InsideIsNoBoundary(bs, from, to, it, hi);
    }
  }

  /** Equality of attributes but for the ignored bits. */
  predicate SameExcept(a: Attr, b: Attr, ignore: Attr) {
    && (ignore.locked || a.locked == b.locked)
    && (ignore.ipcLocked || a.ipcLocked == b.ipcLocked)
    && (ignore.deviceShared || a.deviceShared == b.deviceShared)
    && (ignore.uncached || a.uncached == b.uncached)
  }

  /** What `CheckMemoryState` demands of a block, given the first one. */
  predicate Agrees(i: PageInfo, first: PageInfo, ignore: Attr, test: PageInfo -> bool) {
    i.state == first.state && i.perm == first.perm && SameExcept(i.attr, first.attr, ignore) && test(i)
  }

  function AndNot(a: Attr, b: Attr): Attr {
    Attr(a.locked && !b.locked, a.ipcLocked && !b.ipcLocked, a.deviceShared && !b.deviceShared, a.uncached && !b.uncached)
  }

  /** `CheckMemoryState`: besides, all pages have one state, one permission and, but for the ignored
      bits, one attribute, and these are returned. */
  method CheckMemoryState(m: BlockManager, addr: nat, size: nat, test: PageInfo -> bool, ignore: Attr)
    returns (ok: bool, state: nat, perm: Perm, attr: Attr, blocksNeeded: nat)
    requires m.Valid() && |View(m.blocks)| == m.end - m.start
    requires 0 < size && m.start * PAGE_SIZE <= addr && addr + size <= m.end * PAGE_SIZE
    ensures m.start <= PageDown(addr) < PageUp(addr + size) <= m.end
    ensures var v, lo, hi := View(m.blocks), PageDown(addr) - m.start, PageUp(addr + size) - m.start;
            && (ok <==> AllPages(v, lo, hi, i => Agrees(i, v[lo].info, ignore, test)))
            && (ok ==> state == v[lo].info.state && perm == v[lo].info.perm && attr == AndNot(v[lo].info.attr, ignore))
    ensures ok ==> blocksNeeded == CutEnds(m.blocks, m.end, PageDown(addr), PageUp(addr + size))
  {
    var it := m.FindIterator(addr / PAGE_SIZE);
    BlockPages(m.blocks, m.start, m.end, it, addr / PAGE_SIZE);
    var first := m.blocks[it].info;
    ok, blocksNeeded := CheckMemoryStateContiguous(m, addr, size, i => Agrees(i, first, ignore, test));
    state, perm, attr := first.state, first.perm, AndNot(first.attr, ignore);
  }

  /** `DefaultMemoryIgnoreAttr`. */
  const IGNORED_ATTR := ATTR_NONE.(ipcLocked := true, deviceShared := true)

  /** What `CheckMemoryState` finds of a range with that default. */
  predicate AllAgree(v: seq<PageView>, at: nat, n: nat, test: PageInfo -> bool)
    requires 0 < n && at + n <= |v|
  {
    forall k :: at <= k < at + n ==> Agrees(v[k].info, v[at].info, IGNORED_ATTR, test)
  }
}
