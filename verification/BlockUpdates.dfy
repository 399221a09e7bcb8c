/** The steps that `KMemoryBlockManager` takes on its ordered run of blocks, and what each
    of them means page by page. */
module BlockUpdates {
  import opened MemoryBlocks

  /** `q` is where a block starts, or the end of the space. */
  predicate IsBoundary(bs: seq<Block>, to: nat, q: nat) {
    q == to || exists j :: 0 <= j < |bs| && bs[j].addr == q
  }

  /** Neighbours that could be merged meet inside `[lo, hi]` only. */
  predicate MergeableOnlyWithin(bs: seq<Block>, lo: nat, hi: nat) {
    forall j :: 0 < j < |bs| && (bs[j].addr < lo || hi < bs[j].addr) ==> !bs[j - 1].CanMergeWith(bs[j])
  }

  /** Tiled blocks with consistent edges and lock counts; neighbours may still be mergeable. */
  predicate WellFormed(bs: seq<Block>, from: nat, to: nat) {
    from < to && Tiles(bs, from, to) && AllEdgesOk(bs, from) && AllCountsOk(bs)
  }

  /** The number of new blocks that `op` needs for its range: one per end of the range that
      falls inside a block it changes. */
  function BlocksNeeded(bs: seq<Block>, from: nat, to: nat, op: Op, address: nat, n: nat): (c: nat)
    requires Tiles(bs, from, to)
    requires from <= address && address + n <= to && |View(bs)| == to - from
    ensures c <= 2
  {
    if n == 0 then 0
    else
      var v := View(bs);
      (if !IsBoundary(bs, to, address) && op.Touches(v[address - from].info) then 1 else 0) +
      (if !IsBoundary(bs, to, address + n) && op.Touches(v[address + n - 1 - from].info) then 1 else 0)
  }

  /** The view while the loop has reached page `cur` of the range `[lo, hi)`. */
  function ApplyUpTo(op: Op, v: seq<PageView>, lo: nat, hi: nat, cur: nat): (w: seq<PageView>)
    requires lo <= cur <= hi <= |v|
    requires RangeFits(op, v, lo, hi)
    ensures |w| == |v|
  {
    seq(|v|, k requires 0 <= k < |v| => if lo <= k < cur then v[k].Apply(op, k == lo, k == hi - 1) else v[k])
  }

  // ---- Boundaries ----------------------------------------------------------------

  lemma {:induction false} InsideIsNoBoundary(bs: seq<Block>, from: nat, to: nat, i: nat, q: nat)
    requires Tiles(bs, from, to) && i < |bs| && bs[i].addr < q < bs[i].End()
    ensures !IsBoundary(bs, to, q)
  {
    TilesSplit(bs, from, to, i);
    forall j | 0 <= j < |bs|
      ensures bs[j].addr != q
    {
      if j < i {
        TilesSorted(bs, from, to, j, i);
      } else if i < j {
        TilesSorted(bs, from, to, i, j);
      }
    }
  }

  lemma {:induction false} EndIsBoundary(bs: seq<Block>, from: nat, to: nat, i: nat)
    requires Tiles(bs, from, to) && i < |bs|
    ensures IsBoundary(bs, to, bs[i].End())
    ensures bs[i].End() <= to
    ensures bs[i].End() < to <==> i + 1 < |bs|
    ensures i + 1 < |bs| ==> bs[i + 1].addr == bs[i].End() && bs[i + 1].pages > 0
  {
    TilesSplit(bs, from, to, i);
    TilesOrder(bs[i + 1..], bs[i].End(), to);
    if i + 1 < |bs| {
      TilesNext(bs, from, to, i);
      TilesSplit(bs, from, to, i + 1);
    }
  }

  lemma {:induction false} BoundaryIsStart(bs: seq<Block>, from: nat, to: nat, i: nat, q: nat)
    requires Tiles(bs, from, to) && i < |bs| && bs[i].Holds(q)
    ensures IsBoundary(bs, to, q) <==> bs[i].addr == q
  {
    if bs[i].addr < q {
      InsideIsNoBoundary(bs, from, to, i, q);
    }
  }

  // ---- Splitting one block ---------------------------------------------------------

  function SplitBlocks(bs: seq<Block>, i: nat, at: nat): seq<Block>
    requires i < |bs| && bs[i].addr < at < bs[i].End()
  {
    bs[..i] + [bs[i].SplitLeft(at), bs[i].SplitRight(at)] + bs[i + 1..]
  }

  lemma {:induction false} SplitKeepsView(bs: seq<Block>, from: nat, to: nat, i: nat, at: nat)
    requires WellFormed(bs, from, to)
    requires i < |bs| && bs[i].addr < at < bs[i].End()
    ensures WellFormed(SplitBlocks(bs, i, at), from, to)
    ensures View(SplitBlocks(bs, i, at)) == View(bs)
  {
    var l, r := bs[i].SplitLeft(at), bs[i].SplitRight(at);
    TilesSplit(bs, from, to, i);
    assert bs[i] in bs;
    SplitPages(bs[i], at, from);
    TilesTwo(l, r);
    ViewTwo(l, r);
    ReplaceTiles(bs, from, to, i, [l, r]);
    ViewAround(bs, from, to, i);
    SplitMembers(bs, i, at);
  }

  lemma {:induction false} SplitMembers(bs: seq<Block>, i: nat, at: nat)
    requires i < |bs| && bs[i].addr < at < bs[i].End()
    ensures forall b :: b in SplitBlocks(bs, i, at) ==> b in bs || b == bs[i].SplitLeft(at) || b == bs[i].SplitRight(at)
  {
    var ns := SplitBlocks(bs, i, at);
    forall b | b in ns
      ensures b in bs || b == bs[i].SplitLeft(at) || b == bs[i].SplitRight(at)
    {
      var j :| 0 <= j < |ns| && ns[j] == b;
      if j > i + 1 {
        assert ns[j] == bs[j - 1];
      }
    }
  }

  lemma {:induction false} SplitBoundaries(bs: seq<Block>, to: nat, i: nat, at: nat, q: nat)
    requires i < |bs| && bs[i].addr < at < bs[i].End()
    ensures IsBoundary(SplitBlocks(bs, i, at), to, q) <==> IsBoundary(bs, to, q) || q == at
  {
    var ns := SplitBlocks(bs, i, at);
    forall j | 0 <= j < |bs|
      ensures ns[if j <= i then j else j + 1].addr == bs[j].addr
    {
    }
    assert ns[i + 1].addr == at;
    forall j | 0 <= j < |ns| && j != i + 1
      ensures ns[j].addr == bs[if j <= i then j else j - 1].addr
    {
    }
  }

  lemma {:induction false} SplitMergeable(bs: seq<Block>, i: nat, at: nat, lo: nat, hi: nat)
    requires i < |bs| && bs[i].addr < at < bs[i].End() && lo <= at <= hi
    requires MergeableOnlyWithin(bs, lo, hi)
    ensures MergeableOnlyWithin(SplitBlocks(bs, i, at), lo, hi)
  {
    var ns := SplitBlocks(bs, i, at);
    forall j | 0 < j < |ns| && (ns[j].addr < lo || hi < ns[j].addr)
      ensures !ns[j - 1].CanMergeWith(ns[j])
    {
      if j <= i {
        assert ns[j - 1] == bs[j - 1];
        assert !bs[j - 1].CanMergeWith(bs[j]);
      } else if j > i + 1 {
        assert ns[j] == bs[j - 1];
        assert !bs[j - 2].CanMergeWith(bs[j - 1]);
      }
    }
  }

  // ---- Changing one block ----------------------------------------------------------

  /** All pages of a block fit, so the block fits. */
  lemma {:induction false} PagesFitBlock(b: Block, op: Op, address: nat, stop: nat)
    requires b.pages > 0 && address <= b.addr && b.End() <= stop
    requires forall k :: 0 <= k < b.pages ==> Pages(b)[k].Fits(op, b.addr + k == address, b.addr + k == stop - 1)
    ensures b.Fits(op, b.addr == address, b.End() == stop)
  {
    assert Pages(b)[0].Fits(op, b.addr + 0 == address, b.addr + 0 == stop - 1);
    var k := b.pages - 1;
    assert Pages(b)[k].Fits(op, b.addr + k == address, b.addr + k == stop - 1);
  }

  /** `c` is `b` after the page operation `op` on the single page that has both its edges. */
  predicate ChangedBy(b: Block, c: Block, op: Op, left: bool, right: bool, from: nat)
    requires b.Fits(op, left, right)
  {
    && c.addr == b.addr && c.pages == b.pages && c.EdgesOk(from)
    && EdgeView(c) == PageView(EdgeView(b).NewInfo(op), EdgeView(b).NewLeft(op, left), EdgeView(b).NewRight(op, right))
  }

  lemma {:induction false} UpdatedEdges(b: Block, op: Op, left: bool, right: bool, from: nat)
    requires b.EdgesOk(from) && op.Ok() && !op.UpdateLock?
    ensures ChangedBy(b, b.Apply(op, left, right), op, left, right, from)
  {
  }

  lemma {:induction false} IpcEdges(b: Block, op: Op, left: bool, right: bool, from: nat)
    requires b.EdgesOk(from) && op.UpdateLock? && (op.f.LockForIpc? || op.f.UnlockForIpc?) && b.Fits(op, left, right)
    ensures ChangedBy(b, b.Apply(op, left, right), op, left, right, from)
  {
  }

  lemma {:induction false} ShareEdges(b: Block, op: Op, left: bool, right: bool, from: nat)
    requires b.EdgesOk(from) && op.UpdateLock? && b.Fits(op, left, right)
    requires op.f.ShareToDevice? || op.f.ShareState? || op.f.ShareStateRight?
    ensures ChangedBy(b, b.Apply(op, left, right), op, left, right, from)
  {
  }

  lemma {:induction false} UnshareEdges(b: Block, op: Op, left: bool, right: bool, from: nat)
    requires b.EdgesOk(from) && op.UpdateLock? && b.Fits(op, left, right)
    requires op.f.UnshareToDevice? || op.f.UnshareToDeviceRight?
    ensures ChangedBy(b, b.Apply(op, left, right), op, left, right, from)
  {
  }

  lemma {:induction false} UnshareStateEdges(b: Block, op: Op, left: bool, right: bool, from: nat)
    requires b.EdgesOk(from) && op.UpdateLock? && b.Fits(op, left, right)
    requires op.f.UnshareState? || op.f.UnshareStateRight?
    ensures ChangedBy(b, b.Apply(op, left, right), op, left, right, from)
  {
  }

  lemma {:induction false} ApplyEdges(b: Block, op: Op, left: bool, right: bool, from: nat)
    requires b.EdgesOk(from) && op.Ok() && b.Fits(op, left, right)
    ensures ChangedBy(b, b.Apply(op, left, right), op, left, right, from)
  {
    if !op.UpdateLock? {
      UpdatedEdges(b, op, left, right, from);
    } else if op.f.LockForIpc? || op.f.UnlockForIpc? {
      IpcEdges(b, op, left, right, from);
    } else if op.f.ShareToDevice? || op.f.ShareState? || op.f.ShareStateRight? {
      ShareEdges(b, op, left, right, from);
    } else if op.f.UnshareToDevice? || op.f.UnshareToDeviceRight? {
      UnshareEdges(b, op, left, right, from);
    } else {
      UnshareStateEdges(b, op, left, right, from);
    }
  }

  /** No change leaves a lock bit without a count. */
  lemma {:induction false} ApplyCounts(v: PageView, op: Op)
    requires v.info.CountsOk() && op.Ok() && v.Fits(op, false, false)
    ensures v.NewInfo(op).CountsOk()
  {
  }

  lemma {:induction false} InnerEdges(v: PageView, op: Op)
    requires op.Ok() && v.Fits(op, false, false)
    ensures v.left == NO_LEFT ==> v.NewLeft(op, false) == NO_LEFT
    ensures v.NewRight(op, false) == v.right
  {
  }

  lemma {:induction false} PageOfChanged(b: Block, c: Block, op: Op, left: bool, right: bool, from: nat, k: nat)
    requires k < b.pages && op.Ok() && op.Touches(b.info) && b.Fits(op, left, right)
    requires ChangedBy(b, c, op, left, right, from)
    requires PageOf(b, k).Fits(op, left && k == 0, right && k == b.pages - 1)
    ensures PageOf(c, k) == PageOf(b, k).Apply(op, left && k == 0, right && k == b.pages - 1)
  {
    InnerEdges(PageOf(b, k), op);
  }

  /** A block changed as a whole is a block whose pages were each changed. */
  lemma {:induction false} ApplyPages(b: Block, op: Op, address: nat, stop: nat, from: nat)
    requires b.EdgesOk(from) && b.info.CountsOk() && op.Ok() && op.Touches(b.info)
    requires address <= b.addr && b.End() <= stop
    requires forall k :: 0 <= k < b.pages ==> Pages(b)[k].Fits(op, b.addr + k == address, b.addr + k == stop - 1)
    ensures b.Fits(op, b.addr == address, b.End() == stop)
    ensures var c := b.Apply(op, b.addr == address, b.End() == stop);
            && c.addr == b.addr && c.pages == b.pages && c.EdgesOk(from) && c.info.CountsOk()
            && forall k :: 0 <= k < b.pages ==>
                 Pages(c)[k] == Pages(b)[k].Apply(op, b.addr + k == address, b.addr + k == stop - 1)
  {
    hide Block.Apply, Block.Fits, PageView.Fits, Op.Ok;
    PagesFitBlock(b, op, address, stop);
    ApplyEdges(b, op, b.addr == address, b.End() == stop, from);
    ApplyCounts(EdgeView(b), op);
    var c := b.Apply(op, b.addr == address, b.End() == stop);
    forall k | 0 <= k < b.pages
      ensures Pages(c)[k] == Pages(b)[k].Apply(op, b.addr + k == address, b.addr + k == stop - 1)
    {
      InnerEdges(PageOf(b, k), op);
      PageOfChanged(b, c, op, b.addr == address, b.End() == stop, from, k);
    }
  }

  function ApplyBlocks(bs: seq<Block>, i: nat, op: Op, address: nat, stop: nat): seq<Block>
    requires i < |bs| && bs[i].Fits(op, bs[i].addr == address, bs[i].End() == stop)
  {
    bs[..i] + [bs[i].Apply(op, bs[i].addr == address, bs[i].End() == stop)] + bs[i + 1..]
  }

  /** The pages of block `i` are still the ones the range started with. */
  lemma {:induction false} UntouchedPages(bs: seq<Block>, from: nat, to: nat, i: nat, op: Op, v: seq<PageView>,
                                          address: nat, stop: nat, cur: nat)
    requires Tiles(bs, from, to) && i < |bs|
    requires from <= address <= cur <= stop <= to && cur <= bs[i].addr
    requires |v| == to - from && RangeFits(op, v, address - from, stop - from)
    requires View(bs) == ApplyUpTo(op, v, address - from, stop - from, cur - from)
    ensures from <= bs[i].addr && bs[i].End() <= to
    ensures forall k :: 0 <= k < bs[i].pages ==> Pages(bs[i])[k] == v[bs[i].addr - from + k]
  {
    TilesSplit(bs, from, to, i);
    ViewAround(bs, from, to, i);
    forall k | 0 <= k < bs[i].pages
      ensures Pages(bs[i])[k] == v[bs[i].addr - from + k]
    {
      assert View(bs)[bs[i].addr - from + k] == Pages(bs[i])[k];
    }
  }

  /** Changing block `i` moves the view on by that block. */
  lemma {:induction false} ApplyKeepsView(bs: seq<Block>, from: nat, to: nat, i: nat, op: Op, v: seq<PageView>,
                                          address: nat, stop: nat)
    requires WellFormed(bs, from, to) && op.Ok()
    requires i < |bs| && op.Touches(bs[i].info)
    requires from <= address <= bs[i].addr && bs[i].End() <= stop <= to
    requires |v| == to - from && RangeFits(op, v, address - from, stop - from)
    requires View(bs) == ApplyUpTo(op, v, address - from, stop - from, bs[i].addr - from)
    ensures bs[i].Fits(op, bs[i].addr == address, bs[i].End() == stop)
    ensures var ns := ApplyBlocks(bs, i, op, address, stop);
            && WellFormed(ns, from, to)
            && View(ns) == ApplyUpTo(op, v, address - from, stop - from, bs[i].End() - from)
            && ns[i].addr == bs[i].addr && ns[i].pages == bs[i].pages
  {
    hide Block.Apply, Block.Fits, PageView.Apply, PageView.Fits, Tiles, View, Op.Ok;
    var b := bs[i];
    UntouchedPages(bs, from, to, i, op, v, address, stop, b.addr);
    assert b in bs;
    ApplySegment(b, op, v, address, stop, from);
    var c := b.Apply(op, b.addr == address, b.End() == stop);
    TilesOne(c);
    ViewOne(c);
    ReplaceTiles(bs, from, to, i, [c]);
    ReplacedIn(bs, i, c);
    ViewLength(bs, from, to);
    ReplacedView(bs, from, to, i, c, ApplyUpTo(op, v, address - from, stop - from, b.End() - from));
  }

  lemma {:induction false} ApplySegment(b: Block, op: Op, v: seq<PageView>, address: nat, stop: nat, from: nat)
    requires b.EdgesOk(from) && b.info.CountsOk() && op.Ok() && op.Touches(b.info)
    requires from <= address <= b.addr && b.End() <= stop && stop - from <= |v|
    requires RangeFits(op, v, address - from, stop - from)
    requires forall k :: 0 <= k < b.pages ==> Pages(b)[k] == v[b.addr - from + k]
    ensures b.Fits(op, b.addr == address, b.End() == stop)
    ensures var c := b.Apply(op, b.addr == address, b.End() == stop);
            && c.addr == b.addr && c.pages == b.pages && c.EdgesOk(from) && c.info.CountsOk()
            && forall k :: 0 <= k < b.pages ==>
                 ApplyUpTo(op, v, address - from, stop - from, b.End() - from)[b.addr - from + k] == Pages(c)[k]
  {
    var off := b.addr - from;
    forall k | 0 <= k < b.pages
      ensures Pages(b)[k].Fits(op, b.addr + k == address, b.addr + k == stop - 1)
    {
      assert Pages(b)[k] == v[off + k];
      assert v[off + k].Fits(op, off + k == address - from, off + k == stop - from - 1);
    }
    ApplyPages(b, op, address, stop, from);
    var c := b.Apply(op, b.addr == address, b.End() == stop);
    forall k | 0 <= k < b.pages
      ensures ApplyUpTo(op, v, address - from, stop - from, b.End() - from)[off + k] == Pages(c)[k]
    {
      assert Pages(b)[k] == v[off + k];
    }
  }

  lemma {:induction false} ReplacedView(bs: seq<Block>, from: nat, to: nat, i: nat, c: Block, w: seq<PageView>)
    requires Tiles(bs, from, to) && i < |bs| && c.pages == bs[i].pages
    requires from <= bs[i].addr && bs[i].End() <= to && |w| == |View(bs)| == to - from
    requires forall k :: 0 <= k < |w| && !(bs[i].addr - from <= k < bs[i].End() - from) ==> w[k] == View(bs)[k]
    requires forall m :: 0 <= m < c.pages ==> w[bs[i].addr - from + m] == Pages(c)[m]
    ensures View(bs[..i]) + Pages(c) + View(bs[i + 1..]) == w
  {
    ViewAround(bs, from, to, i);
    var off := bs[i].addr - from;
    var u := View(bs[..i]) + Pages(c) + View(bs[i + 1..]);
    forall k | 0 <= k < |w|
      ensures u[k] == w[k]
    {
      if off <= k < off + c.pages {
        var m := k - off;
        assert u[k] == Pages(c)[m] == w[off + m];
      } else {
        assert u[k] == View(bs)[k];
      }
    }
  }

  lemma {:induction false} ReplacedIn(bs: seq<Block>, i: nat, c: Block)
    requires i < |bs|
    ensures forall b :: b in bs[..i] + [c] + bs[i + 1..] ==> b in bs || b == c
  {
  }

  lemma {:induction false} ApplyBoundaries(bs: seq<Block>, i: nat, c: Block, to: nat, q: nat)
    requires i < |bs| && c.addr == bs[i].addr
    ensures IsBoundary(bs[..i] + [c] + bs[i + 1..], to, q) <==> IsBoundary(bs, to, q)
  {
    var ns := bs[..i] + [c] + bs[i + 1..];
    assert |ns| == |bs| && forall j :: 0 <= j < |bs| ==> ns[j].addr == bs[j].addr;
  }

  lemma {:induction false} ApplyMergeable(bs: seq<Block>, i: nat, c: Block, lo: nat, hi: nat, from: nat, to: nat)
    requires Tiles(bs, from, to) && i < |bs| && c.addr == bs[i].addr
    requires lo <= bs[i].addr && bs[i].End() <= hi
    requires MergeableOnlyWithin(bs, lo, hi)
    ensures MergeableOnlyWithin(bs[..i] + [c] + bs[i + 1..], lo, hi)
  {
    var ns := bs[..i] + [c] + bs[i + 1..];
    EndIsBoundary(bs, from, to, i);
    TilesSplit(bs, from, to, i);
    forall j | 0 < j < |ns| && (ns[j].addr < lo || hi < ns[j].addr)
      ensures !ns[j - 1].CanMergeWith(ns[j])
    {
      assert j != i && j != i + 1;
      assert ns[j] == bs[j] && ns[j - 1] == bs[j - 1];
    }
  }

  // ---- Merging two neighbours --------------------------------------------------------

  function MergeBlocks(bs: seq<Block>, i: nat): seq<Block>
    requires i + 1 < |bs|
  {
    bs[..i] + [bs[i].Add(bs[i + 1])] + bs[i + 2..]
  }

  lemma {:induction false} MergeTiles(bs: seq<Block>, from: nat, to: nat, i: nat, m: Block)
    requires Tiles(bs, from, to)
    requires i + 1 < |bs| && m.addr == bs[i].addr && m.End() == bs[i + 1].End() && m.pages > 0
    ensures Tiles(bs[..i] + [m] + bs[i + 2..], from, to)
  {
    TilesSplit(bs, from, to, i);
    TilesSplit(bs, from, to, i + 1);
    TilesOne(m);
    TilesConcat(bs[..i], [m], from, bs[i].addr, m.End());
    TilesConcat(bs[..i] + [m], bs[i + 2..], from, m.End(), to);
  }

  lemma {:induction false} MergeView(bs: seq<Block>, from: nat, to: nat, i: nat, m: Block)
    requires Tiles(bs, from, to)
    requires i + 1 < |bs| && Pages(m) == Pages(bs[i]) + Pages(bs[i + 1])
    ensures View(bs[..i] + [m] + bs[i + 2..]) == View(bs)
  {
    var l, a, b, r := bs[..i], bs[i], bs[i + 1], bs[i + 2..];
    calc {
      View(l + [m] + r);
      { ViewConcat(l + [m], r); ViewConcat(l, [m]); ViewOne(m); }
      View(l) + (Pages(a) + Pages(b)) + View(r);
      { ViewTwo(a, b); ViewConcat(l, [a, b]); ViewConcat(l + [a, b], r); }
      View(l + [a, b] + r);
      { assert l + [a, b] + r == bs; }
      View(bs);
    }
  }

  lemma {:induction false} MergeKeepsView(bs: seq<Block>, from: nat, to: nat, i: nat)
    requires WellFormed(bs, from, to)
    requires i + 1 < |bs| && bs[i].CanMergeWith(bs[i + 1])
    ensures WellFormed(MergeBlocks(bs, i), from, to)
    ensures View(MergeBlocks(bs, i)) == View(bs)
    ensures MergeBlocks(bs, i)[i].disable.Left() == bs[i].disable.Left()
    ensures MergeBlocks(bs, i)[i].disable.Right() == bs[i + 1].disable.Right()
  {
    var a, b := bs[i], bs[i + 1];
    var m := a.Add(b);
    TilesNext(bs, from, to, i);
    TilesSplit(bs, from, to, i);
    assert a in bs && b in bs;
    MergePages(a, b, from);
    MergeTiles(bs, from, to, i, m);
    MergeView(bs, from, to, i, m);
    var ns := MergeBlocks(bs, i);
    forall c | c in ns
      ensures c in bs || c == m
    {
      var j :| 0 <= j < |ns| && ns[j] == c;
      if j > i {
        assert ns[j] == bs[j + 1];
      }
    }
  }

  /** No mergeable pair ends at block `i` or before it. */
  predicate SettledUpTo(bs: seq<Block>, i: nat) {
    forall j :: 0 < j <= i && j < |bs| ==> !bs[j - 1].CanMergeWith(bs[j])
  }

  /** No mergeable pair past block `i` meets beyond `hi`. */
  predicate SettledPast(bs: seq<Block>, i: nat, hi: nat) {
    forall j :: i < j < |bs| && hi < bs[j].addr ==> !bs[j - 1].CanMergeWith(bs[j])
  }

  lemma {:induction false} StartSettled(bs: seq<Block>, from: nat, to: nat, i: nat, lo: nat, hi: nat)
    requires Tiles(bs, from, to) && MergeableOnlyWithin(bs, lo, hi)
    requires i < |bs| && (i == 0 || bs[i].addr < lo)
    ensures SettledUpTo(bs, i) && SettledPast(bs, i, hi)
  {
    forall j | 0 < j < i
      ensures bs[j].addr < lo
    {
      TilesSorted(bs, from, to, j, i);
    }
  }

  /** The merge walk begins one block before the range, or at the start of the space. */
  lemma {:induction false} WalkBegins(bs: seq<Block>, from: nat, to: nat, it: nat, address: nat, hi: nat)
    requires Tiles(bs, from, to) && it < |bs| && bs[it].Holds(address) && from <= address <= hi
    requires MergeableOnlyWithin(bs, address, hi) && (address == from || bs[0].End() <= address)
    ensures address != from ==> it > 0
    ensures var first := if address == from then it else it - 1; SettledUpTo(bs, first) && SettledPast(bs, first, hi)
  {
    hide MergeableOnlyWithin, SettledUpTo, SettledPast;
    if address != from {
      TilesSorted(bs, from, to, it - 1, it);
      StartSettled(bs, from, to, it - 1, address, hi);
    } else {
      if it > 0 {
        TilesSorted(bs, from, to, 0, it);
      }
      StartSettled(bs, from, to, it, address, hi);
    }
  }

  lemma {:induction false} MergeSettled(bs: seq<Block>, i: nat, hi: nat)
    requires i + 1 < |bs| && bs[i].CanMergeWith(bs[i + 1])
    requires SettledUpTo(bs, i) && SettledPast(bs, i, hi)
    ensures SettledUpTo(MergeBlocks(bs, i), i) && SettledPast(MergeBlocks(bs, i), i, hi)
  {
    var ns := MergeBlocks(bs, i);
    forall j | 0 < j <= i
      ensures !ns[j - 1].CanMergeWith(ns[j])
    {
      assert ns[j - 1] == bs[j - 1];
      assert !bs[j - 1].CanMergeWith(bs[j]);
    }
    forall j | i < j < |ns| && hi < ns[j].addr
      ensures !ns[j - 1].CanMergeWith(ns[j])
    {
      assert ns[j] == bs[j + 1];
      assert !bs[j].CanMergeWith(bs[j + 1]);
    }
  }

  lemma {:induction false} AllSettled(bs: seq<Block>, from: nat, to: nat, i: nat, hi: nat)
    requires Tiles(bs, from, to) && i < |bs|
    requires SettledPast(bs, i, hi) && SettledUpTo(bs, i) && hi < bs[i].End()
    ensures Coalesced(bs)
  {
    forall j | 0 < j < |bs|
      ensures !bs[j - 1].CanMergeWith(bs[j])
    {
      if i < j {
        TilesSorted(bs, from, to, i, j);
      }
    }
  }
}
