/** The walk over a range of pages that every update of the block manager makes. */
module BlockWalks {
  import opened MemoryBlocks
  import opened BlockUpdates

  /** The range starts with the space, or a block ends before it: `CoalesceForUpdate`, which steps one block back from the
      block that holds `address`, finds one. */
  predicate Preceded(bs: seq<Block>, from: nat, address: nat)
    requires |bs| > 0
  {
    address == from || bs[0].End() <= address
  }

  /** The same of the blocks that the loop will leave: the first page is changed, and so split off, or nothing is. */
  predicate HasPredecessor(bs: seq<Block>, from: nat, op: Op, address: nat, n: nat)
    requires from <= address && |View(bs)| > address - from && |bs| > 0
  {
    Preceded(bs, from, address) || (n > 0 && op.Touches(View(bs)[address - from].info))
  }

  /** One call: its request `op` for the pages `[address, stop)` of the blocks `initial`. */
  datatype Walk = Walk(initial: seq<Block>, from: nat, to: nat, op: Op, address: nat, stop: nat) {

    ghost predicate Ok() {
      && WellFormed(initial, from, to) && Coalesced(initial) && op.Ok()
      && |View(initial)| == to - from
      && from <= address < stop <= to
      && RangeFits(op, View(initial), address - from, stop - from) && |initial| > 0
    }

    ghost predicate WillBePreceded()
      requires Ok()
    {
      HasPredecessor(initial, from, op, address, stop - address)
    }

    ghost function Changed(cur: nat): seq<PageView>
      requires Ok() && address <= cur <= stop
    {
      ApplyUpTo(op, View(initial), address - from, stop - from, cur - from)
    }

    ghost function StartSplits(): nat
      requires Ok()
    {
      if !IsBoundary(initial, to, address) && op.Touches(View(initial)[address - from].info) then 1 else 0
    }

    ghost function EndSplits(): nat
      requires Ok()
    {
      if !IsBoundary(initial, to, stop) && op.Touches(View(initial)[stop - 1 - from].info) then 1 else 0
    }

    /** The walk has changed the view up to page `cur`, which block `it` holds, with `splits` splits. */
    ghost predicate At(bs: seq<Block>, cur: nat, it: nat, splits: int) {
      && Ok() && WellFormed(bs, from, to) && MergeableOnlyWithin(bs, address, stop)
      && address <= cur <= stop
      && View(bs) == Changed(cur)
      && |bs| == |initial| + splits
      && if cur == stop then
           && splits == StartSplits() + EndSplits()
           && |bs| > 0 && (Preceded(bs, from, address) <==> WillBePreceded())
         else
           && it < |bs| && bs[it].Holds(cur)
           && (IsBoundary(bs, to, stop) <==> IsBoundary(initial, to, stop))
           && (if bs[it].addr < cur then
                 cur == address && bs == initial && splits == 0
               else
                 splits == StartSplits() && (Preceded(bs, from, address) <==> WillBePreceded()))
    }

    lemma {:induction false} Facts(bs: seq<Block>, cur: nat, it: nat, splits: int)
      requires At(bs, cur, it, splits)
      ensures WellFormed(bs, from, to) && address <= cur <= stop
      ensures cur < stop ==> it < |bs| && bs[it].addr <= cur < bs[it].addr + bs[it].pages
      ensures cur < stop && bs[it].addr < cur ==> splits == 0
      ensures cur < stop && bs[it].addr == cur ==> splits == StartSplits()
      ensures |bs| == |initial| + splits
    {
    }

    /** At the end of the range the block index no longer matters. */
    lemma {:induction false} Stopped(bs: seq<Block>, it: nat, splits: int, it': nat)
      requires At(bs, stop, it, splits)
      ensures At(bs, stop, it', splits)
    {
    }

    lemma {:induction false} Done(bs: seq<Block>, it: nat, splits: int)
      requires At(bs, stop, it, splits)
      ensures WellFormed(bs, from, to) && MergeableOnlyWithin(bs, address, stop)
      ensures |bs| > 0 && |initial| > 0
      ensures Preceded(bs, from, address) <==> HasPredecessor(initial, from, op, address, stop - address)
      ensures View(bs) == ApplyRange(op, View(initial), address - from, stop - from)
      ensures splits == BlocksNeeded(initial, from, to, op, address, stop - address)
      ensures |bs| == |initial| + splits
    {
    }

    /** A split that is due was counted beforehand. */
    lemma {:induction false} SplitDue(bs: seq<Block>, cur: nat, it: nat, splits: int)
      requires At(bs, cur, it, splits) && cur < stop && op.Touches(bs[it].info)
      ensures bs[it].addr < cur ==> StartSplits() == 1
      ensures stop < bs[it].addr + bs[it].pages ==> EndSplits() == 1
    {
      InfoAtCursor(bs, cur, it, splits, cur);
      if bs[it].addr < cur {
        InsideIsNoBoundary(bs, from, to, it, cur);
      }
      if stop < bs[it].End() {
        InsideIsNoBoundary(bs, from, to, it, stop);
        InfoAtCursor(bs, cur, it, splits, stop - 1);
      }
    }

    /** The block at the cursor still has the properties its pages had at first. */
    lemma {:induction false} InfoAtCursor(bs: seq<Block>, cur: nat, it: nat, splits: int, page: nat)
      requires At(bs, cur, it, splits) && cur < stop
      requires cur <= page < stop && bs[it].Holds(page)
      ensures View(initial)[page - from].info == bs[it].info
    {
      TilesSplit(bs, from, to, it);
      ViewAt(bs, from, to, it, page - bs[it].addr);
    }

    lemma {:induction false} SkipView(bs: seq<Block>, cur: nat, it: nat, splits: int, next: nat)
      requires At(bs, cur, it, splits) && cur < stop && !op.Touches(bs[it].info)
      requires cur <= next <= stop && next <= bs[it].End()
      ensures View(bs) == Changed(next)
    {
      forall k | cur - from <= k < next - from
        ensures !op.Touches(View(initial)[k].info)
      {
        InfoAtCursor(bs, cur, it, splits, k + from);
      }
    }

    lemma {:induction false} Skip(bs: seq<Block>, cur: nat, it: nat, splits: int)
      requires At(bs, cur, it, splits) && cur < stop && !op.Touches(bs[it].info)
      ensures At(bs, if stop < bs[it].End() then stop else bs[it].End(), it + 1, splits)
    {
      hide View, RangeFits, AllEdgesOk, AllCountsOk, MergeableOnlyWithin;
      var b := bs[it];
      var next := if stop < b.End() then stop else b.End();
      InfoAtCursor(bs, cur, it, splits, cur);
      InfoAtCursor(bs, cur, it, splits, next - 1);
      EndIsBoundary(bs, from, to, it);
      BoundaryIsStart(bs, from, to, it, cur);
      SkipView(bs, cur, it, splits, next);
      if next == stop && stop < b.End() {
        InsideIsNoBoundary(bs, from, to, it, stop);
      }
    }

    lemma {:induction false} SplitLeft(bs: seq<Block>, cur: nat, it: nat, splits: int)
      requires At(bs, cur, it, splits) && cur < stop && op.Touches(bs[it].info) && bs[it].addr < cur
      ensures At(SplitBlocks(bs, it, cur), cur, it + 1, splits + 1)
    {
      hide View, RangeFits, PageView.Apply, Tiles;
      InfoAtCursor(bs, cur, it, splits, cur);
      InsideIsNoBoundary(bs, from, to, it, cur);
      SplitKeepsView(bs, from, to, it, cur);
      SplitBoundaries(bs, to, it, cur, stop);
      SplitMergeable(bs, it, cur, address, stop);
      if it > 0 {
        TilesSorted(bs, from, to, 0, it);
        assert SplitBlocks(bs, it, cur)[0] == bs[0];
      }
    }

    lemma {:induction false} Change(bs: seq<Block>, cur: nat, it: nat, splits: int)
      requires At(bs, cur, it, splits) && cur < stop && op.Touches(bs[it].info)
      requires bs[it].addr == cur && bs[it].addr + bs[it].pages <= stop
      ensures bs[it].Fits(op, bs[it].addr == address, bs[it].End() == stop)
      ensures At(ApplyBlocks(bs, it, op, address, stop), cur + bs[it].pages, it + 1, splits)
    {
      hide View, RangeFits, Block.Apply, Block.Fits, PageView.Apply, Tiles, AllEdgesOk, AllCountsOk, Coalesced;
      hide Op.Touches, Op.Ok, ApplyUpTo, HasPredecessor, Preceded, MergeableOnlyWithin, StartSplits;
      var b := bs[it];
      EndIsBoundary(bs, from, to, it);
      ApplyKeepsView(bs, from, to, it, op, View(initial), address, stop);
      var c := b.Apply(op, b.addr == address, b.End() == stop);
      var ns := ApplyBlocks(bs, it, op, address, stop);
      ApplyBoundaries(bs, it, c, to, stop);
      ApplyMergeable(bs, it, c, address, stop, from, to);
      FirstBlockKept(bs, it, c);
      EndIsBoundary(ns, from, to, it);
      if it > 0 {
        TilesSorted(bs, from, to, 0, it);
      }
    }

    lemma {:induction false} FirstBlockKept(bs: seq<Block>, it: nat, c: Block)
      requires it < |bs| && WellFormed(bs, from, to) && c.addr == bs[it].addr
      requires address <= bs[it].addr
      ensures Preceded(bs[..it] + [c] + bs[it + 1..], from, address) <==> Preceded(bs, from, address)
    {
    }

    lemma {:induction false} SplitRight(bs: seq<Block>, cur: nat, it: nat, splits: int)
      requires At(bs, cur, it, splits) && cur < stop && op.Touches(bs[it].info)
      requires bs[it].addr == cur && stop < bs[it].addr + bs[it].pages
      ensures var ns := SplitBlocks(bs, it, stop);
              && ns[it].addr == cur && ns[it].pages == stop - cur
              && ns[it].Fits(op, ns[it].addr == address, ns[it].End() == stop)
              && At(ApplyBlocks(ns, it, op, address, stop), stop, it + 1, splits + 1)
    {
      hide View, RangeFits, Block.Apply, Block.Fits, PageView.Apply;
      var ns := SplitBlocks(bs, it, stop);
      SplitDue(bs, cur, it, splits);
      SplitKeepsView(bs, from, to, it, stop);
      SplitMergeable(bs, it, stop, address, stop);
      var b := ns[it];
      assert b == bs[it].SplitLeft(stop);
      ApplyKeepsView(ns, from, to, it, op, View(initial), address, stop);
      var c := b.Apply(op, b.addr == address, b.End() == stop);
      ApplyMergeable(ns, it, c, address, stop, from, to);
      assert it > 0 ==> ns[0] == bs[0];
      FirstBlockKept(ns, it, c);
    }
  }

  lemma {:induction false} WalkStart(w: Walk, it: nat)
    requires WellFormed(w.initial, w.from, w.to) && Coalesced(w.initial) && w.op.Ok()
    requires |View(w.initial)| == w.to - w.from && w.from <= w.address < w.stop <= w.to
    requires RangeFits(w.op, View(w.initial), w.address - w.from, w.stop - w.from)
    requires it < |w.initial| && w.initial[it].Holds(w.address)
    ensures w.At(w.initial, w.address, it, 0)
    ensures BlocksNeeded(w.initial, w.from, w.to, w.op, w.address, w.stop - w.address) == w.StartSplits() + w.EndSplits()
  {
    hide PageView.Apply, PageView.Fits, View;
    var bs := w.initial;
    BoundaryIsStart(bs, w.from, w.to, it, w.address);
    if it > 0 {
      TilesSorted(bs, w.from, w.to, 0, it);
    } else {
      TilesSplit(bs, w.from, w.to, 0);
    }
  }

  lemma {:induction false} NothingToWalk(bs: seq<Block>, op: Op, lo: nat, address: nat)
    requires lo <= |View(bs)| && Coalesced(bs)
    ensures RangeFits(op, View(bs), lo, lo) && ApplyRange(op, View(bs), lo, lo) == View(bs)
    ensures MergeableOnlyWithin(bs, address, address)
  {
  }
}
