/** `RemapPageGroup`: the guard that puts a page group back behind a range of memory blocks.  Each operation maps the whole
    rest of a memory block from the current block of the group on; what lies past the end of the group's block is put right
    by the operations that follow. */
module Remappings {
  import opened Basics
  import opened MemoryBlocks
  import opened BlockUpdates
  import opened BlockManagers
  import opened PageGroups
  import opened PageTables

  /** Two tables that differ only behind the pages `[lo, hi)`. */
  ghost predicate SameBut(t: Table, u: Table, lo: nat, hi: nat) {
    forall v :: !(lo <= v < hi) ==> (v in t <==> v in u) && (v in t ==> t[v] == u[v])
  }

  /** One operation: the next `cur` pages are right, and only the rest of the memory block may still be wrong. */
  lemma {:induction false} RemapStep(t: Table, now: Table, lo: nat, at: nat, stop: nat, phys: nat, cur: nat, all: seq<nat>)
    requires lo <= at && at + cur <= stop && at + cur - lo <= |all| && all[at - lo..at + cur - lo] == Run(phys, cur)
    requires SameBut(now, Mapped(t, lo, all[..at - lo]), at, stop)
    ensures SameBut(Mapped(now, at, Run(phys, stop - at)), Mapped(t, lo, all[..at + cur - lo]), at + cur, stop)
  {
    var was, next := Mapped(t, lo, all[..at - lo]), Mapped(t, lo, all[..at + cur - lo]);
    var then' := Mapped(now, at, Run(phys, stop - at));
    forall v: nat | !(at + cur <= v < stop)
      ensures (v in then' <==> v in next) && (v in then' ==> then'[v] == next[v])
    {
      if at <= v < at + cur {
        assert InRange(v, at, stop - at) && InRange(v, lo, at + cur - lo);
        assert all[v - lo] == all[at - lo..at + cur - lo][v - at] == phys + (v - at);
      } else {
        assert InRange(v, lo, at + cur - lo) <==> InRange(v, lo, at - lo);
      }
    }
  }

  lemma {:induction false} SameButNothing(t: Table, u: Table, at: nat)
    requires SameBut(t, u, at, at)
    ensures t == u
  {
  }

  /** The inner loop: the pages `[at, stop)` of one memory block. */
  method RemapBlock(pt: PageTable, group: seq<BlockInfo>, start: Supply, lo: nat, from: nat, stop: nat, ghost t: Table)
    returns (g: Supply)
    requires (forall b :: b in group ==> b.pages > 0) && lo <= from < stop && stop - lo <= |Flatten(group)|
    requires SupplyAt(group, start, from - lo) && pt.table == Mapped(t, lo, Flatten(group)[..from - lo])
    modifies pt`table
    ensures SupplyAt(group, g, stop - lo) && pt.table == Mapped(t, lo, Flatten(group)[..stop - lo])
  {
    hide Flatten, SupplyAt, Mapped, SameBut;
    var at := from;
    g := start;
    ghost var all := Flatten(group);
    SameButItself(pt.table, from, stop);
    while at < stop
      invariant from <= at <= stop && SupplyAt(group, g, at - lo)
      invariant SameBut(pt.table, Mapped(t, lo, all[..at - lo]), at, stop)
      decreases stop - at
    {
      if g.pages == 0 {
        SupplyNext(group, g, at - lo);
        assert group[g.idx + 1] in group;
        g := Supply(g.idx + 1, group[g.idx + 1].addr, group[g.idx + 1].pages);
      }
      var cur := Min(g.pages, stop - at);
      SupplyTake(group, g, at - lo, cur);
      RemapStep(t, pt.table, lo, at, stop, g.addr, cur, all);
      pt.Remap(at, stop - at, g.addr);
      at, g := at + cur, Supply(g.idx, g.addr + cur, g.pages - cur);
    }
    SameButNothing(pt.table, Mapped(t, lo, all[..stop - lo]), stop);
  }

  lemma {:induction false} SameButItself(t: Table, lo: nat, hi: nat)
    ensures SameBut(t, t, lo, hi)
  {
  }

  /** The group is used up exactly at the end: the closing check of `RemapPageGroup` holds. */
  lemma {:induction false} UsedUp(group: seq<BlockInfo>, g: Supply)
    requires (forall b :: b in group ==> b.pages > 0) && SupplyAt(group, g, |Flatten(group)|)
    ensures g.idx + 1 == |group| && g.pages == 0
  {
    var rest := group[g.idx + 1..];
    assert Run(g.addr, g.pages) + Flatten(rest) == [];
  }

  /** `RemapPageGroup`: afterwards exactly the pages of the group are behind the range, in order, however the memory blocks
      and the blocks of the group divide it. */
  method RemapPageGroup(m: BlockManager, pt: PageTable, group: seq<BlockInfo>, lo: nat, hi: nat)
    requires m.Valid() && m.start <= lo < hi <= m.end
    requires group != [] && (forall b :: b in group ==> b.pages > 0) && |Flatten(group)| == hi - lo
    modifies pt`table
    ensures pt.table == Mapped(old(pt.table), lo, Flatten(group))
  {
    hide View, Tiles, Coalesced, AllEdgesOk, AllCountsOk, Flatten, SupplyAt, Mapped, IsBoundary;
    ghost var all, t := Flatten(group), pt.table;
    var g := Supply(0, group[0].addr, group[0].pages);
    SupplyStart(group);
    assert Mapped(t, lo, all[..0]) == t by {
      MappedNothing(t, lo);
      assert all[..0] == [];
    }
    var it := m.FindIterator(lo);
    var at := lo;
    while true
      invariant it < |m.blocks| && lo <= at < hi && m.blocks[it].Holds(at)
      invariant SupplyAt(group, g, at - lo) && pt.table == Mapped(t, lo, all[..at - lo])
      decreases |m.blocks| - it
    {
      var stop := Min(m.blocks[it].End(), hi);
      g := RemapBlock(pt, group, g, lo, at, stop, t);
      if hi <= m.blocks[it].End() {
        break;
      }
      EndIsBoundary(m.blocks, m.start, m.end, it);
      at, it := stop, it + 1;
    }
    assert all[..hi - lo] == all;
    UsedUp(group, g);
  }
}
