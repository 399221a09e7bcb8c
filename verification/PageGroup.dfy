/** `KPageGroup`: physical pages as a list of contiguous blocks. */
module PageGroups {

  datatype BlockInfo = BlockInfo(addr: nat, pages: nat) {
    function End(): nat {
      addr + pages
    }
  }

  /** `n` consecutive pages. */
  function Run(addr: nat, n: nat): (r: seq<nat>)
    ensures |r| == n
    ensures forall k :: 0 <= k < n ==> r[k] == addr + k
  {
    seq(n, k requires 0 <= k => addr + k)
  }

  /** The pages of a group, in order. */
  function Flatten(bs: seq<BlockInfo>): seq<nat> {
    if bs == [] then [] else Run(bs[0].addr, bs[0].pages) + Flatten(bs[1..])
  }

  lemma {:induction false} FlattenConcat(a: seq<BlockInfo>, b: seq<BlockInfo>)
    ensures Flatten(a + b) == Flatten(a) + Flatten(b)
  {
    if a == [] {
      assert a + b == b;
    } else {
      calc {
        Flatten(a + b);
        { assert (a + b)[1..] == a[1..] + b; }
        Run(a[0].addr, a[0].pages) + Flatten(a[1..] + b);
        { FlattenConcat(a[1..], b); }
        Run(a[0].addr, a[0].pages) + (Flatten(a[1..]) + Flatten(b));
        Flatten(a) + Flatten(b);
      }
    }
  }

  lemma {:induction false} FlattenOne(b: BlockInfo)
    ensures Flatten([b]) == Run(b.addr, b.pages)
  {
    assert Flatten([b]) == Run(b.addr, b.pages) + Flatten([]);
  }

  lemma {:induction false} RunConcat(addr: nat, m: nat, n: nat)
    ensures Run(addr, m) + Run(addr + m, n) == Run(addr, m + n)
  {
  }

  lemma {:induction false} RunGrows(addr: nat, n: nat)
    ensures Run(addr, n + 1) == Run(addr, n) + [addr + n]
  {
  }

  /** Every block has pages, and no block goes on where the one before it stopped. */
  predicate MaximalRuns(bs: seq<BlockInfo>) {
    && (forall i :: 0 <= i < |bs| ==> bs[i].pages > 0)
    && (forall i :: 0 < i < |bs| ==> bs[i - 1].End() != bs[i].addr)
  }

  lemma {:induction false} FlattenHead(bs: seq<BlockInfo>)
    requires bs != [] && MaximalRuns(bs)
    ensures |Flatten(bs)| >= bs[0].pages
    ensures forall k :: 0 <= k < bs[0].pages ==> Flatten(bs)[k] == bs[0].addr + k
    ensures |bs| > 1 ==> |Flatten(bs)| > bs[0].pages && Flatten(bs)[bs[0].pages] != bs[0].addr + bs[0].pages
    ensures Flatten(bs)[bs[0].pages..] == Flatten(bs[1..]) && MaximalRuns(bs[1..])
  {
    if |bs| > 1 {
      assert bs[1..][0] == bs[1];
      assert Flatten(bs[1..])[0] == bs[1].addr;
    }
    forall i | 0 < i < |bs[1..]|
      ensures bs[1..][i - 1].End() != bs[1..][i].addr
    {
      assert bs[i].End() != bs[i + 1].addr;
    }
  }

  /** A group of maximal runs is determined by its page sequence. */
  lemma {:induction false} MaximalRunsCanonical(a: seq<BlockInfo>, b: seq<BlockInfo>)
    requires MaximalRuns(a) && MaximalRuns(b) && Flatten(a) == Flatten(b)
    ensures a == b
  {
    if a == [] {
      if b != [] {
        FlattenHead(b);
      }
    } else if b == [] {
      FlattenHead(a);
    } else {
      FlattenHead(a);
      FlattenHead(b);
      assert a[0].addr == Flatten(a)[0] == b[0].addr;
      assert a[0].pages == b[0].pages;
      MaximalRunsCanonical(a[1..], b[1..]);
    }
  }

  /** A group after `AddBlock`: the last block grows when the new one goes on where it stops. */
  function Added(bs: seq<BlockInfo>, addr: nat, n: nat): seq<BlockInfo> {
    if n == 0 then bs
    else if Continues(bs, addr) then
      bs[|bs| - 1 := BlockInfo(bs[|bs| - 1].addr, bs[|bs| - 1].pages + n)]
    else bs + [BlockInfo(addr, n)]
  }

  predicate Continues(bs: seq<BlockInfo>, addr: nat) {
    bs != [] && addr != 0 && addr == bs[|bs| - 1].End()
  }

  lemma {:induction false} FlattenAdded(bs: seq<BlockInfo>, addr: nat, n: nat)
    ensures Flatten(Added(bs, addr, n)) == Flatten(bs) + Run(addr, n)
    ensures addr > 0 && MaximalRuns(bs) ==> MaximalRuns(Added(bs, addr, n))
  {
    if n > 0 && Continues(bs, addr) {
      FlattenGrown(bs, n);
    } else {
      FlattenConcat(bs, [BlockInfo(addr, n)]);
      FlattenOne(BlockInfo(addr, n));
    }
  }

  lemma {:induction false} FlattenGrown(bs: seq<BlockInfo>, n: nat)
    requires bs != []
    ensures var last := bs[|bs| - 1];
            Flatten(bs[|bs| - 1 := BlockInfo(last.addr, last.pages + n)]) == Flatten(bs) + Run(last.End(), n)
  {
    hide Flatten, Run;
    var init, last := bs[..|bs| - 1], bs[|bs| - 1];
    var grown := BlockInfo(last.addr, last.pages + n);
    assert bs == init + [last] && bs[|bs| - 1 := grown] == init + [grown];
    FlattenConcat(init, [last]);
    FlattenConcat(init, [grown]);
    FlattenOne(last);
    FlattenOne(grown);
    RunConcat(last.addr, last.pages, n);
    assert Flatten(init) + (Run(last.addr, last.pages) + Run(last.End(), n))
        == Flatten(init) + Run(last.addr, last.pages) + Run(last.End(), n);
  }

  class PageGroup {
    var blocks: seq<BlockInfo>
    var slots: nat              // block infos the manager can still hand out

    constructor (available: nat)
      ensures blocks == [] && slots == available
    {
      blocks, slots := [], available;
    }

    /** `AddBlock`: fails exactly when a new block info is needed and none is left. */
    method AddBlock(addr: nat, n: nat) returns (ok: bool)
      modifies this
      ensures ok <==> n == 0 || old(Continues(blocks, addr)) || old(slots) > 0
      ensures ok ==> blocks == Added(old(blocks), addr, n)
      ensures !ok ==> blocks == old(blocks)
      ensures slots + |blocks| == old(slots + |blocks|)
    {
      if n == 0 {
        return true;
      }
      if |blocks| > 0 {
        var last := blocks[|blocks| - 1];
        if addr != 0 && addr == last.End() {
          blocks := blocks[|blocks| - 1 := BlockInfo(last.addr, last.pages + n)];
          return true;
        }
      }
      if slots == 0 {
        return false;
      }
      slots := slots - 1;
      blocks := blocks + [BlockInfo(addr, n)];
      return true;
    }

    /** `Finalize`: all block infos go back. */
    method Finalize()
      modifies this
      ensures blocks == [] && slots == old(slots + |blocks|)
    {
      slots := slots + |blocks|;
      blocks := [];
    }

    method GetNumPages() returns (n: nat)
      ensures n == |Flatten(blocks)|
    {
      n := 0;
      for i := 0 to |blocks|
        invariant n == |Flatten(blocks[..i])|
      {
        FlattenConcat(blocks[..i], [blocks[i]]);
        FlattenOne(blocks[i]);
        assert blocks[..i + 1] == blocks[..i] + [blocks[i]];
        n := n + blocks[i].pages;
      }
      assert blocks[..|blocks|] == blocks;
    }
  }

  /** `IsEquivalentTo` compares the groups block by block, which on maximal runs compares their page sequences. */
  method IsEquivalentTo(a: PageGroup, b: PageGroup) returns (eq: bool)
    ensures eq <==> a.blocks == b.blocks
    ensures eq ==> Flatten(a.blocks) == Flatten(b.blocks)
    ensures MaximalRuns(a.blocks) && MaximalRuns(b.blocks) ==> (eq <==> Flatten(a.blocks) == Flatten(b.blocks))
  {
    if MaximalRuns(a.blocks) && MaximalRuns(b.blocks) && Flatten(a.blocks) == Flatten(b.blocks) {
      MaximalRunsCanonical(a.blocks, b.blocks);
    }
    var i := 0;
    while i < |a.blocks| && i < |b.blocks|
      invariant i <= |a.blocks| && i <= |b.blocks|
      invariant a.blocks[..i] == b.blocks[..i]
    {
      if a.blocks[i] != b.blocks[i] {
        return false;
      }
      i := i + 1;
    }
    eq := i == |a.blocks| && i == |b.blocks|;
    assert eq ==> a.blocks[..i] == a.blocks && b.blocks[..i] == b.blocks;
  }

  // ---- Taking pages from a group in order --------------------------------------------------------

  /** The place in the page group: what is left of block `idx`. */
  datatype Supply = Supply(idx: nat, addr: nat, pages: nat)

  /** `used` pages of the group have been taken. */
  predicate SupplyAt(group: seq<BlockInfo>, g: Supply, used: nat) {
    && g.idx < |group| && used <= |Flatten(group)|
    && Flatten(group)[used..] == Run(g.addr, g.pages) + Flatten(group[g.idx + 1..])
  }

  lemma {:induction false} SupplyStart(group: seq<BlockInfo>)
    requires group != []
    ensures SupplyAt(group, Supply(0, group[0].addr, group[0].pages), 0)
  {
  }

  lemma {:induction false} SupplyNext(group: seq<BlockInfo>, g: Supply, used: nat)
    requires SupplyAt(group, g, used) && g.pages == 0 && used < |Flatten(group)|
    ensures g.idx + 1 < |group|
    ensures SupplyAt(group, Supply(g.idx + 1, group[g.idx + 1].addr, group[g.idx + 1].pages), used)
  {
    assert Run(g.addr, 0) == [];
    var rest := group[g.idx + 1..];
    assert Flatten(group)[used..] == Flatten(rest);
    assert rest != [];
    assert rest[1..] == group[g.idx + 2..];
  }

  lemma {:induction false} SupplyTake(group: seq<BlockInfo>, g: Supply, used: nat, n: nat)
    requires SupplyAt(group, g, used) && n <= g.pages
    ensures used + n <= |Flatten(group)| && Flatten(group)[used..used + n] == Run(g.addr, n)
    ensures SupplyAt(group, Supply(g.idx, g.addr + n, g.pages - n), used + n)
  {
    var all, rest := Flatten(group), Flatten(group[g.idx + 1..]);
    RunConcat(g.addr, n, g.pages - n);
    assert all[used..] == Run(g.addr, n) + (Run(g.addr + n, g.pages - n) + rest);
    assert all[used..used + n] == all[used..][..n];
    assert all[used + n..] == all[used..][n..];
  }
}
