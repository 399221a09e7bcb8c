/** A coalesced run of blocks is determined by its pages: it is the canonical form of its view. */
module CanonicalBlocks {
  import opened MemoryBlocks
  import opened BlockUpdates

  lemma {:induction false} BlockFromPages(b: Block, c: Block)
    requires b.addr == c.addr && b.pages == c.pages > 0 && Pages(b) == Pages(c)
    ensures b == c
  {
    var k := b.pages - 1;
    assert PageOf(b, 0) == Pages(b)[0] == Pages(c)[0] == PageOf(c, 0);
    assert PageOf(b, k) == Pages(b)[k] == Pages(c)[k] == PageOf(c, k);
  }

  /** The first block of a coalesced run cannot be shorter than the first block of another run with
      the same view: its right neighbour would have been merged with it. */
  lemma {:induction false} FirstNotShorter(bs: seq<Block>, cs: seq<Block>, from: nat, to: nat)
    requires Tiles(bs, from, to) && Tiles(cs, from, to) && bs != [] && cs != []
    requires Coalesced(bs) && View(bs) == View(cs)
    ensures bs[0].pages >= cs[0].pages
  {
    if bs[0].pages < cs[0].pages {
      var p := bs[0].pages;
      EndIsBoundary(bs, from, to, 0);
      EndIsBoundary(cs, from, to, 0);
      ViewAt(bs, from, to, 0, p - 1);
      ViewAt(bs, from, to, 1, 0);
      ViewAt(cs, from, to, 0, p - 1);
      ViewAt(cs, from, to, 0, p);
      assert false;
    }
  }

  /** Two coalesced runs with the same pages are the same run. */
  lemma {:induction false} CanonicalForm(bs: seq<Block>, cs: seq<Block>, from: nat, to: nat)
    requires Tiles(bs, from, to) && Tiles(cs, from, to)
    requires Coalesced(bs) && Coalesced(cs) && View(bs) == View(cs)
    ensures bs == cs
  {
    TilesOrder(bs, from, to);
    TilesOrder(cs, from, to);
    if bs != [] {
      FirstNotShorter(bs, cs, from, to);
      FirstNotShorter(cs, bs, from, to);
      var p := bs[0].pages;
      assert Pages(bs[0]) == View(bs)[..p] && Pages(cs[0]) == View(cs)[..p];
      BlockFromPages(bs[0], cs[0]);
      assert View(bs[1..]) == View(bs)[p..] && View(cs[1..]) == View(cs)[p..];
      assert Coalesced(bs[1..]) && Coalesced(cs[1..]) by {
        forall i | 0 < i < |bs| - 1
          ensures !bs[1..][i - 1].CanMergeWith(bs[1..][i])
        {
          assert !bs[i].CanMergeWith(bs[i + 1]);
        }
        forall i | 0 < i < |cs| - 1
          ensures !cs[1..][i - 1].CanMergeWith(cs[1..][i])
        {
          assert !cs[i].CanMergeWith(cs[i + 1]);
        }
      }
      CanonicalForm(bs[1..], cs[1..], bs[0].End(), to);
    }
  }

  /** Where the blocks of a coalesced run meet can be read off its pages. */
  lemma {:induction false} BoundaryFromView(bs: seq<Block>, from: nat, to: nat, q: nat)
    requires Tiles(bs, from, to) && Coalesced(bs) && from < q < to && |View(bs)| == to - from
    ensures var l, r := View(bs)[q - 1 - from], View(bs)[q - from];
            IsBoundary(bs, to, q) <==> l.info != r.info || l.right.flags.deviceRight || r.left.flags.AnyLeft()
  {
    var i := BlockHolding(bs, from, to, q);
    ViewAt(bs, from, to, i, q - bs[i].addr);
    BoundaryIsStart(bs, from, to, i, q);
    if bs[i].addr == q {
      if i == 0 {
        assert false;
      }
      TilesSorted(bs, from, to, i - 1, i);
      TilesNext(bs, from, to, i - 1);
      ViewAt(bs, from, to, i - 1, bs[i - 1].pages - 1);
      assert !bs[i - 1].CanMergeWith(bs[i]);
    } else {
      ViewAt(bs, from, to, i, q - 1 - bs[i].addr);
    }
  }

  lemma {:induction false} BlockHolding(bs: seq<Block>, from: nat, to: nat, q: nat) returns (i: nat)
    requires Tiles(bs, from, to) && from <= q < to
    ensures i < |bs| && bs[i].Holds(q)
  {
    TilesOrder(bs, from, to);
    if q < bs[0].End() {
      i := 0;
    } else {
      i := BlockHolding(bs[1..], bs[0].End(), to, q);
      i := i + 1;
    }
  }
}
