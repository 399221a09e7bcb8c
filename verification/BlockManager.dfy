/** `KMemoryBlockManager`: an address space kept as an ordered run of blocks that is split,
    changed and merged again in place. */
module BlockManagers {
  import opened MemoryBlocks
  import opened BlockUpdates
  import opened BlockWalks

  /** `KMemoryBlockManagerUpdateAllocator`: at most two blocks taken from the slab beforehand. */
  class UpdateAllocator {
    static const MAX_BLOCKS: nat := 2

    var index: nat           // blocks index..MAX_BLOCKS are held
    var toSlab: nat          // blocks handed on to the slab manager
    ghost var calls: nat     // calls of Allocate so far

    ghost predicate Valid()
      reads this
    {
      index <= MAX_BLOCKS
    }

    function Held(): nat
      reads this
      requires index <= MAX_BLOCKS
    {
      MAX_BLOCKS - index
    }

    constructor (numBlocks: nat)
      requires numBlocks <= MAX_BLOCKS
      ensures Valid() && Held() == numBlocks && toSlab == 0 && calls == 0
    {
      index := MAX_BLOCKS - numBlocks;
      toSlab := 0;
      calls := 0;
    }

    /** Aborts when no block is held. */
    method Allocate()
      requires Valid() && Held() > 0
      modifies this
      ensures Valid() && Held() == old(Held()) - 1 && toSlab == old(toSlab) && calls == old(calls) + 1
    {
      index := index + 1;
      calls := calls + 1;
    }

    method Free()
      requires Valid()
      modifies this
      ensures Valid() && calls == old(calls)
      ensures Held() + toSlab == old(Held() + toSlab) + 1
    {
      if index == 0 {
        toSlab := toSlab + 1;
      } else {
        index := index - 1;
      }
    }
  }

  class BlockManager {
    const start: nat
    const end: nat
    var blocks: seq<Block>

    /** The invariant between calls: tiled, consistent, and nothing left to merge. */
    ghost predicate Valid()
      reads this
    {
      WellFormed(blocks, start, end) && Coalesced(blocks)
    }

    /** `Initialize`: one free block.  `leftover` is what the slab memory held in the one
        counter that is not initialized. */
    constructor (st: nat, nd: nat, leftover: nat)
      requires st < nd
      ensures start == st && end == nd && Valid()
      ensures |View(blocks)| == nd - st
      ensures forall k :: 0 <= k < nd - st ==>
                View(blocks)[k].info == PageInfo(STATE_FREE, PERM_NONE, PERM_NONE, ATTR_NONE, 0, 0)
    {
      start, end := st, nd;
      var b := Block(st, nd - st, PageInfo(STATE_FREE, PERM_NONE, PERM_NONE, ATTR_NONE, 0, 0),
                     DISABLE_NONE, leftover, 0, 0);
      blocks := [b];
      TilesOne(b);
      ViewOne(b);
    }

    /** `FindIterator`: the index of the block that holds a page. */
    method FindIterator(page: nat) returns (i: nat)
      requires WellFormed(blocks, start, end) && start <= page < end
      ensures i < |blocks| && blocks[i].Holds(page)
    {
      i := 0;
      TilesOrder(blocks, start, end);
      while !blocks[i].Holds(page)
        invariant i < |blocks| && blocks[i].addr <= page
        decreases |blocks| - i
      {
        EndIsBoundary(blocks, start, end, i);
        i := i + 1;
      }
    }

    /** Block `prev` takes in the block after it. */
    method MergeNext(alloc: UpdateAllocator, prev: nat, ghost hi: nat)
      requires WellFormed(blocks, start, end) && alloc.Valid()
      requires prev + 1 < |blocks| && blocks[prev].CanMergeWith(blocks[prev + 1])
      requires SettledUpTo(blocks, prev) && SettledPast(blocks, prev, hi)
      modifies this`blocks, alloc
      ensures blocks == MergeBlocks(old(blocks), prev) && |blocks| == old(|blocks|) - 1
      ensures WellFormed(blocks, start, end) && View(blocks) == old(View(blocks))
      ensures SettledUpTo(blocks, prev) && SettledPast(blocks, prev, hi)
      ensures alloc.Valid() && alloc.calls == old(alloc.calls)
      ensures |blocks| + alloc.Held() + alloc.toSlab == old(|blocks| + alloc.Held() + alloc.toSlab)
    {
      hide View, WellFormed, SettledUpTo, SettledPast;
      MergeKeepsView(blocks, start, end, prev);
      MergeSettled(blocks, prev, hi);
      blocks := MergeBlocks(blocks, prev);
      alloc.Free();
    }

    /** Merges every pair of neighbours that meet inside `[address, address + n]`. */
    method CoalesceForUpdate(alloc: UpdateAllocator, address: nat, n: nat)
      requires WellFormed(blocks, start, end) && alloc.Valid()
      requires start <= address < end
      requires MergeableOnlyWithin(blocks, address, address + n)
      requires |blocks| > 0 && Preceded(blocks, start, address)
      modifies this`blocks, alloc
      ensures Valid() && alloc.Valid()
      ensures View(blocks) == old(View(blocks))
      ensures alloc.calls == old(alloc.calls)
      ensures |blocks| + alloc.Held() + alloc.toSlab == old(|blocks| + alloc.Held() + alloc.toSlab)
    {
      hide View, Tiles, AllEdgesOk, AllCountsOk, MergeBlocks;
      var it: nat := FindIterator(address);
      WalkBegins(blocks, start, end, it, address, address + n);
      if address != start {
        it := it - 1;
      }
      while true
        invariant WellFormed(blocks, start, end) && alloc.Valid()
        invariant it < |blocks|
        invariant View(blocks) == old(View(blocks))
        invariant alloc.calls == old(alloc.calls)
        invariant |blocks| + alloc.Held() + alloc.toSlab == old(|blocks| + alloc.Held() + alloc.toSlab)
        invariant SettledUpTo(blocks, it) && SettledPast(blocks, it, address + n)
        decreases |blocks| - it
      {
        var prev: nat := it;
        it := it + 1;
        if it == |blocks| {
          break;
        }
        if blocks[prev].CanMergeWith(blocks[it]) {
          MergeNext(alloc, prev, address + n);
          it := prev;
        }
        if address + n < blocks[it].End() {
          AllSettled(blocks, start, end, it, address + n);
          break;
        }
      }
    }

    /** `allocator->Allocate()`, `Split` and `insert`: block `i` becomes two. */
    method SplitBlock(alloc: UpdateAllocator, i: nat, at: nat)
      requires WellFormed(blocks, start, end) && alloc.Valid() && alloc.Held() > 0
      requires i < |blocks| && blocks[i].addr < at < blocks[i].End()
      modifies this`blocks, alloc
      ensures blocks == SplitBlocks(old(blocks), i, at)
      ensures WellFormed(blocks, start, end) && View(blocks) == old(View(blocks))
      ensures alloc.Valid() && alloc.Held() == old(alloc.Held()) - 1
      ensures alloc.toSlab == old(alloc.toSlab) && alloc.calls == old(alloc.calls) + 1
    {
      alloc.Allocate();
      SplitKeepsView(blocks, start, end, i, at);
      blocks := SplitBlocks(blocks, i, at);
    }

    /** The body of the loop for a block that has to change: split off what lies outside the range, then
        change what lies inside. */
    method ChangeBlock(alloc: UpdateAllocator, w: Walk, cur0: nat, it0: nat, remaining0: nat, ghost splits: int)
      returns (cur: nat, it: nat, remaining: nat)
      requires w.from == start && w.to == end
      requires w.At(blocks, cur0, it0, splits) && remaining0 > 0 && cur0 + remaining0 == w.stop
      requires w.op.Touches(blocks[it0].info)
      requires alloc.Valid() && alloc.Held() + splits >= w.StartSplits() + w.EndSplits()
      modifies this`blocks, alloc
      ensures cur + remaining == w.stop && remaining < remaining0
      ensures w.At(blocks, cur, it + 1, splits + alloc.calls - old(alloc.calls))
      ensures alloc.Valid() && alloc.toSlab == old(alloc.toSlab)
      ensures alloc.Held() + alloc.calls == old(alloc.Held() + alloc.calls)
    {
      hide Walk.At, Walk.Ok, WellFormed, View, PageView.Fits, Block.Fits, Block.Apply;
      cur, it, remaining := cur0, it0, remaining0;
      ghost var spent := splits;
      w.Facts(blocks, cur, it, splits);
      w.SplitDue(blocks, cur, it, splits);
      if blocks[it].addr != cur {
        w.SplitLeft(blocks, cur, it, splits);
        SplitBlock(alloc, it, cur);
        it := it + 1;
        cur := blocks[it].addr;
        spent := splits + 1;
        w.Facts(blocks, cur, it, spent);
        w.SplitDue(blocks, cur, it, spent);
      }
      if blocks[it].pages > remaining {
        w.SplitRight(blocks, cur, it, spent);
        SplitBlock(alloc, it, cur + remaining);
      } else {
        w.Change(blocks, cur, it, spent);
      }
      var b := blocks[it];
      blocks := ApplyBlocks(blocks, it, w.op, w.address, w.stop);
      cur := cur + b.pages;
      remaining := remaining - b.pages;
    }

    method WalkRange(alloc: UpdateAllocator, w: Walk, it0: nat, n: nat)
      requires w.from == start && w.to == end && w.stop == w.address + n
      requires w.At(blocks, w.address, it0, 0)
      requires alloc.Valid() && alloc.Held() >= w.StartSplits() + w.EndSplits()
      modifies this`blocks, alloc
      ensures w.At(blocks, w.stop, |blocks|, alloc.calls - old(alloc.calls))
      ensures alloc.Valid() && alloc.toSlab == old(alloc.toSlab)
      ensures alloc.Held() + alloc.calls == old(alloc.Held() + alloc.calls)
    {
      hide Walk.At, Walk.Ok, WellFormed, View;
      var cur: nat, remaining: nat, it: nat := w.address, n, it0;
      while remaining > 0
        invariant cur + remaining == w.stop
        invariant w.At(blocks, cur, it, alloc.calls - old(alloc.calls))
        invariant alloc.Valid() && alloc.toSlab == old(alloc.toSlab)
        invariant alloc.Held() + alloc.calls == old(alloc.Held() + alloc.calls)
      {
        w.Facts(blocks, cur, it, alloc.calls - old(alloc.calls));
        if !w.op.Touches(blocks[it].info) {
          w.Skip(blocks, cur, it, alloc.calls - old(alloc.calls));
          if cur + remaining < blocks[it].End() {
            cur := cur + remaining;
            remaining := 0;
          } else {
            remaining := cur + remaining - blocks[it].End();
            cur := blocks[it].End();
          }
        } else {
          cur, it, remaining := ChangeBlock(alloc, w, cur, it, remaining, alloc.calls - old(alloc.calls));
        }
        it := it + 1;
      }
      w.Stopped(blocks, it, alloc.calls - old(alloc.calls), |blocks|);
    }

    /** The loop that `Update`, `UpdateIfMatch` and `UpdateLock` share; they differ in which blocks they step over and in
        what they do to the others.  The step back that follows it finds a block exactly if `HasPredecessor`. */
    method ChangeRange(alloc: UpdateAllocator, address: nat, n: nat, op: Op)
      requires Valid() && alloc.Valid() && op.Ok()
      requires start <= address < end && address + n <= end
      requires |View(blocks)| == end - start
      requires RangeFits(op, View(blocks), address - start, address + n - start)
      requires alloc.Held() >= BlocksNeeded(blocks, start, end, op, address, n)
      modifies this`blocks, alloc
      ensures WellFormed(blocks, start, end) && alloc.Valid() && MergeableOnlyWithin(blocks, address, address + n)
      ensures View(blocks) == ApplyRange(op, old(View(blocks)), address - start, address + n - start)
      ensures alloc.calls == old(alloc.calls) + BlocksNeeded(old(blocks), start, end, op, address, n)
      ensures |blocks| + alloc.Held() + alloc.toSlab == old(|blocks| + alloc.Held() + alloc.toSlab)
      ensures |blocks| > 0 && old(|blocks|) > 0
      ensures Preceded(blocks, start, address) <==> HasPredecessor(old(blocks), start, op, address, n)
    {
      hide Walk.At, Walk.Ok, View, Coalesced, RangeFits;
      var w := Walk(blocks, start, end, op, address, address + n);
      var it: nat := FindIterator(address);
      if n > 0 {
        WalkStart(w, it);
        WalkRange(alloc, w, it, n);
        w.Done(blocks, |blocks|, alloc.calls - old(alloc.calls));
      } else {
        NothingToWalk(blocks, op, address - start, address);
      }
    }

    /** The loop followed by the merge. */
    method UpdateRange(alloc: UpdateAllocator, address: nat, n: nat, op: Op)
      requires Valid() && alloc.Valid() && op.Ok()
      requires start <= address < end && address + n <= end
      requires |View(blocks)| == end - start
      requires RangeFits(op, View(blocks), address - start, address + n - start)
      requires alloc.Held() >= BlocksNeeded(blocks, start, end, op, address, n)
      requires HasPredecessor(blocks, start, op, address, n)
      modifies this`blocks, alloc
      ensures Valid() && alloc.Valid()
      ensures View(blocks) == ApplyRange(op, old(View(blocks)), address - start, address + n - start)
      ensures alloc.calls == old(alloc.calls) + BlocksNeeded(old(blocks), start, end, op, address, n)
      ensures |blocks| + alloc.Held() + alloc.toSlab == old(|blocks| + alloc.Held() + alloc.toSlab)
    {
      hide View, Tiles, Coalesced, RangeFits, ApplyRange, HasPredecessor, Preceded, MergeableOnlyWithin;
      ChangeRange(alloc, address, n, op);
      CoalesceForUpdate(alloc, address, n);
    }

    /** Gives the pages of the range the properties `(state, perm, attr)`. */
    method Update(alloc: UpdateAllocator, address: nat, n: nat, state: nat, perm: Perm, attr: Attr,
                  setMask: Disable, clearMask: Disable)
      requires Valid() && alloc.Valid() && start <= address < end && address + n <= end
      requires !attr.ipcLocked && !attr.deviceShared && setMask.Uncounted() && clearMask.Uncounted()
      requires |View(blocks)| == end - start
      requires alloc.Held() >= BlocksNeeded(blocks, start, end, Op.Update(state, perm, attr, setMask, clearMask), address, n)
      requires HasPredecessor(blocks, start, Op.Update(state, perm, attr, setMask, clearMask), address, n)
      modifies this`blocks, alloc
      ensures Valid() && alloc.Valid()
      ensures var op, v := Op.Update(state, perm, attr, setMask, clearMask), old(View(blocks));
              && RangeFits(op, v, address - start, address + n - start)
              && View(blocks) == ApplyRange(op, v, address - start, address + n - start)
              && alloc.calls == old(alloc.calls) + BlocksNeeded(old(blocks), start, end, op, address, n)
      ensures |blocks| + alloc.Held() + alloc.toSlab == old(|blocks| + alloc.Held() + alloc.toSlab)
    {
      UpdateRange(alloc, address, n, Op.Update(state, perm, attr, setMask, clearMask));
    }

    /** Gives those pages of the range that have the test properties the new ones. */
    method UpdateIfMatch(alloc: UpdateAllocator, address: nat, n: nat, testState: nat, testPerm: Perm, testAttr: Attr,
                         state: nat, perm: Perm, attr: Attr)
      requires Valid() && alloc.Valid() && start <= address < end && address + n <= end
      requires !attr.ipcLocked && !attr.deviceShared
      requires |View(blocks)| == end - start
      requires alloc.Held() >= BlocksNeeded(blocks, start, end,
                                            Op.UpdateIfMatch(testState, testPerm, testAttr, state, perm, attr), address, n)
      requires HasPredecessor(blocks, start, Op.UpdateIfMatch(testState, testPerm, testAttr, state, perm, attr), address, n)
      modifies this`blocks, alloc
      ensures Valid() && alloc.Valid()
      ensures var op, v := Op.UpdateIfMatch(testState, testPerm, testAttr, state, perm, attr), old(View(blocks));
              && RangeFits(op, v, address - start, address + n - start)
              && View(blocks) == ApplyRange(op, v, address - start, address + n - start)
              && alloc.calls == old(alloc.calls) + BlocksNeeded(old(blocks), start, end, op, address, n)
      ensures |blocks| + alloc.Held() + alloc.toSlab == old(|blocks| + alloc.Held() + alloc.toSlab)
    {
      UpdateRange(alloc, address, n, Op.UpdateIfMatch(testState, testPerm, testAttr, state, perm, attr));
    }

    /** Runs a lock function on every block of the range. */
    method UpdateLock(alloc: UpdateAllocator, address: nat, n: nat, f: LockFunction, perm: Perm)
      requires Valid() && alloc.Valid() && start <= address < end && 0 < n && address + n <= end
      requires |View(blocks)| == end - start
      requires RangeFits(Op.UpdateLock(f, perm), View(blocks), address - start, address + n - start)
      requires alloc.Held() >= BlocksNeeded(blocks, start, end, Op.UpdateLock(f, perm), address, n)
      modifies this`blocks, alloc
      ensures Valid() && alloc.Valid()
      ensures View(blocks) == ApplyRange(Op.UpdateLock(f, perm), old(View(blocks)), address - start, address + n - start)
      ensures alloc.calls == old(alloc.calls) + BlocksNeeded(old(blocks), start, end, Op.UpdateLock(f, perm), address, n)
      ensures |blocks| + alloc.Held() + alloc.toSlab == old(|blocks| + alloc.Held() + alloc.toSlab)
    {
      UpdateRange(alloc, address, n, Op.UpdateLock(f, perm));
    }

    /** `CheckState`: the executable form of the invariant.  It never looks at the lock counts of the
        first block unless that is the only block. */
    method CheckState() returns (ok: bool)
      requires |blocks| > 0
      ensures ok <==> Checked(blocks)
    {
      var it := 1;
      while it < |blocks|
        invariant 1 <= it <= |blocks|
        invariant forall i :: 0 < i < it ==> PairOk(blocks, i)
      {
        if blocks[it - 1].CanMergeWith(blocks[it]) {
          assert !PairOk(blocks, it);
          return false;
        }
        if blocks[it - 1].End() != blocks[it].addr {
          assert !PairOk(blocks, it);
          return false;
        }
        if !blocks[it].info.CountsOk() {
          assert !PairOk(blocks, it);
          return false;
        }
        it := it + 1;
      }
      return blocks[it - 1].info.CountsOk();
    }
  }

  /** What `CheckState` tests at the boundary between blocks `i - 1` and `i`. */
  predicate PairOk(bs: seq<Block>, i: nat)
    requires 0 < i < |bs|
  {
    !bs[i - 1].CanMergeWith(bs[i]) && bs[i - 1].End() == bs[i].addr && bs[i].info.CountsOk()
  }

  predicate Checked(bs: seq<Block>)
    requires |bs| > 0
  {
    (forall i :: 0 < i < |bs| ==> PairOk(bs, i)) && bs[|bs| - 1].info.CountsOk()
  }

  predicate Contiguous(bs: seq<Block>) {
    forall i :: 0 < i < |bs| ==> bs[i - 1].End() == bs[i].addr
  }

  /** `CheckState` looks at the blocks' order, at neighbours that could be one block, and at the counts of every block
      but the first, which it sees only if it is the only one.  So it tells that the blocks are contiguous, coalesced and
      consistent exactly when the first block is the only one or has consistent counts itself. */
  lemma {:induction false} CheckStateExact(bs: seq<Block>)
    requires |bs| > 0
    ensures Checked(bs) <==>
            Contiguous(bs) && Coalesced(bs) && forall i :: 0 <= i < |bs| && (i > 0 || |bs| == 1) ==> bs[i].info.CountsOk()
    ensures Contiguous(bs) && Coalesced(bs) && AllCountsOk(bs)
            <==> Checked(bs) && (|bs| == 1 || bs[0].info.CountsOk())
  {
    if Checked(bs) {
      forall i | 0 < i < |bs|
        ensures bs[i - 1].End() == bs[i].addr && !bs[i - 1].CanMergeWith(bs[i]) && bs[i].info.CountsOk()
      {
        assert PairOk(bs, i);
      }
    }
    if AllCountsOk(bs) {
      forall i | 0 <= i < |bs|
        ensures bs[i].info.CountsOk()
      {
        assert bs[i] in bs;
      }
    }
  }

  /** A first block that is marked locked without a lock count passes `CheckState`. */
  lemma {:induction false} CheckStateMissesFirstBlock()
    ensures exists bs: seq<Block> :: |bs| > 0 && Tiles(bs, 0, 2) && Checked(bs) && !AllCountsOk(bs)
  {
    var free := PageInfo(STATE_FREE, PERM_NONE, PERM_NONE, ATTR_NONE, 0, 0);
    var a := Block(0, 1, free.(attr := ATTR_NONE.(ipcLocked := true)), DISABLE_NONE, 0, 0, 0);
    var b := Block(1, 1, free, DISABLE_NONE, 0, 0, 0);
    var bs := [a, b];
    TilesTwo(a, b);
    assert PairOk(bs, 1);
    assert a in bs;
    assert Checked(bs) && !AllCountsOk(bs);
  }

  /** The invariant of the manager passes `CheckState`. */
  lemma {:induction false} InvariantPassesCheckState(bs: seq<Block>, from: nat, to: nat)
    requires WellFormed(bs, from, to) && Coalesced(bs)
    ensures |bs| > 0 && Checked(bs)
  {
    TilesOrder(bs, from, to);
    forall i | 0 < i < |bs|
      ensures bs[i - 1].End() == bs[i].addr
    {
      TilesNext(bs, from, to, i - 1);
    }
    CheckStateExact(bs);
  }

  /** Without a predecessor the block that holds the range's first page is the first block, and there is none before it:
      the step back would leave the run of blocks. */
  lemma {:induction false} NothingBeforeRange(bs: seq<Block>, from: nat, to: nat, address: nat, it: nat)
    requires Tiles(bs, from, to) && from <= address < to && it < |bs| && bs[it].Holds(address)
    ensures Preceded(bs, from, address) <==> it > 0 || address == from
  {
    TilesOrder(bs, from, to);
    if it > 0 {
      TilesSorted(bs, from, to, 0, it);
    }
  }

  /** It can happen: a space of one free block, and an update of an inner page to what it already is. */
  lemma {:induction false} IdleUpdateHasNoPredecessor(leftover: nat)
    ensures var b := Block(0, 3, PageInfo(STATE_FREE, PERM_NONE, PERM_NONE, ATTR_NONE, 0, 0), DISABLE_NONE, leftover, 0, 0);
            var op := Op.Update(STATE_FREE, PERM_NONE, ATTR_NONE, DISABLE_NONE, DISABLE_NONE);
            && WellFormed([b], 0, 3) && Coalesced([b]) && op.Ok() && |View([b])| == 3
            && !HasPredecessor([b], 0, op, 1, 1)
  {
    var b := Block(0, 3, PageInfo(STATE_FREE, PERM_NONE, PERM_NONE, ATTR_NONE, 0, 0), DISABLE_NONE, leftover, 0, 0);
    TilesOne(b);
    ViewOne(b);
  }
}
