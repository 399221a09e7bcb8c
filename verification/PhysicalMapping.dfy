/** `MapPhysicalMemory`: backs the free pages of a range with freshly granted ones and leaves the others alone. */
module PhysicalMappings {
  import opened Basics
  import opened MemoryBlocks
  import opened BlockUpdates
  import opened BlockWalks
  import opened BlockManagers
  import opened PageGroups
  import opened PageTables
  import opened FreeRanges

  /** The closing block update. */
  const MAP_FREE := Op.UpdateIfMatch(STATE_FREE, PERM_NONE, ATTR_NONE, STATE_NORMAL, PERM_USER_READ_WRITE, ATTR_NONE)

  /** Free pages carry no permission and no attribute. */
  predicate FreeIsBare(v: seq<PageView>) {
    forall k :: 0 <= k < |v| && IsFree(v[k]) ==> v[k].info.HasProperties(STATE_FREE, PERM_NONE, ATTR_NONE)
  }

  /** Blocks that the scan counts: the ends of the range that cut a free block. */
  function CutsOfFree(bs: seq<Block>, from: nat, to: nat, lo: nat, hi: nat): nat
    requires from <= lo < hi <= to && |View(bs)| == to - from
  {
    (if !IsBoundary(bs, to, lo) && IsFree(View(bs)[lo - from]) then 1 else 0) +
    (if !IsBoundary(bs, to, hi) && IsFree(View(bs)[hi - 1 - from]) then 1 else 0)
  }

  /** That count is exactly what the closing update needs. */
  lemma {:induction false} CutsOfFreeExact(bs: seq<Block>, from: nat, to: nat, lo: nat, hi: nat)
    requires Tiles(bs, from, to) && from <= lo < hi <= to && |View(bs)| == to - from && FreeIsBare(View(bs))
    ensures BlocksNeeded(bs, from, to, MAP_FREE, lo, hi - lo) == CutsOfFree(bs, from, to, lo, hi) <= 2
  {
    var v := View(bs);
    assert IsFree(v[lo - from]) <==> MAP_FREE.Touches(v[lo - from].info);
    assert IsFree(v[hi - 1 - from]) <==> MAP_FREE.Touches(v[hi - 1 - from].info);
  }

  /** The scan over the blocks of `[lo, hi)`: how many pages are mapped, and how many free blocks the ends cut. */
  method Scan(m: BlockManager, lo: nat, hi: nat) returns (mapped: nat, numBlocks: nat)
    requires m.Valid() && |View(m.blocks)| == m.end - m.start && m.start <= lo < hi <= m.end
    ensures mapped + |FreeIn(View(m.blocks), m.start, lo, hi)| == hi - lo
    ensures numBlocks == CutsOfFree(m.blocks, m.start, m.end, lo, hi)
  {
    hide View, IsBoundary, Tiles, Coalesced, FreeIn;
    ghost var bs, v := m.blocks, View(m.blocks);
    var it := m.FindIterator(lo);
    var cur := lo;
    mapped, numBlocks := 0, 0;
    NoneFree(v, m.start, lo);
    while true
      invariant it < |bs| && m.blocks == bs && lo <= cur < hi && bs[it].Holds(cur) && (cur == lo || cur == bs[it].addr)
      invariant mapped + |FreeIn(v, m.start, lo, cur)| == cur - lo
      invariant numBlocks == if cur == lo then 0 else StartCut(bs, m.start, m.end, lo)
      decreases |bs| - it
    {
      ScanBlock(bs, m.start, m.end, it, lo, cur, hi);
      ScanCuts(bs, m.start, m.end, it, lo, cur, hi);
      var free := m.blocks[it].info.state == STATE_FREE;
      if free && m.blocks[it].addr < lo {
        numBlocks := numBlocks + 1;
      }
      if free && hi < m.blocks[it].End() {
        numBlocks := numBlocks + 1;
      }
      if hi <= m.blocks[it].End() {
        if !free {
          mapped := mapped + (hi - cur);
        }
        break;
      }
      if !free {
        mapped := mapped + (m.blocks[it].End() - cur);
      }
      cur := m.blocks[it].End();
      it := it + 1;
    }
  }

  function StartCut(bs: seq<Block>, from: nat, to: nat, lo: nat): nat
    requires from <= lo < to && |View(bs)| == to - from
  {
    if !IsBoundary(bs, to, lo) && IsFree(View(bs)[lo - from]) then 1 else 0
  }

  /** The free pages that one block of the walk adds. */
  lemma {:induction false} ScanBlock(bs: seq<Block>, from: nat, to: nat, it: nat, lo: nat, cur: nat, hi: nat)
    requires Tiles(bs, from, to) && |View(bs)| == to - from && from <= lo <= cur < hi <= to
    requires it < |bs| && bs[it].Holds(cur)
    ensures var b, v := bs[it], View(bs);
            var stop := if hi <= b.End() then hi else b.End();
            && stop <= to
            && FreeIn(v, from, lo, stop)
               == (if b.info.state == STATE_FREE then FreeIn(v, from, lo, cur) + Run(cur, stop - cur)
                   else FreeIn(v, from, lo, cur))
            && (b.End() < hi ==> it + 1 < |bs| && bs[it + 1].addr == b.End() && bs[it + 1].Holds(b.End()))
  {
    hide View, IsBoundary, Tiles, FreeIn;
    var stop := if hi <= bs[it].End() then hi else bs[it].End();
    EndIsBoundary(bs, from, to, it);
    FreeInBlock(bs, from, to, it, cur, stop);
    FreeInConcat(View(bs), from, lo, cur, stop);
  }

  lemma {:induction false} ScanCuts(bs: seq<Block>, from: nat, to: nat, it: nat, lo: nat, cur: nat, hi: nat)
    requires Tiles(bs, from, to) && |View(bs)| == to - from && from <= lo <= cur < hi <= to
    requires it < |bs| && bs[it].Holds(cur) && (cur == lo || cur == bs[it].addr)
    ensures var b, v := bs[it], View(bs);
            var free := b.info.state == STATE_FREE;
            && (cur == lo ==> StartCut(bs, from, to, lo) == if free && b.addr < lo then 1 else 0)
            && (hi <= b.End() ==> ((!IsBoundary(bs, to, hi) && IsFree(v[hi - 1 - from])) <==> (free && hi < b.End())))
  {
    hide View, IsBoundary, Tiles;
    var b := bs[it];
    BoundaryIsStart(bs, from, to, it, cur);
    ViewAt(bs, from, to, it, cur - b.addr);
    EndIsBoundary(bs, from, to, it);
    if hi <= b.End() {
      ViewAt(bs, from, to, it, hi - 1 - b.addr);
      if hi < b.End() {
        InsideIsNoBoundary(bs, from, to, it, hi);
      }
    }
  }

  lemma {:induction false} NoneFree(v: seq<PageView>, from: nat, lo: nat)
    requires from <= lo <= from + |v|
    ensures FreeIn(v, from, lo, lo) == []
  {
  }

  // ---- The physical side ----------------------------------------------------------------------

  /** Maps `n` pages from `va` on with the next pages of the group; `done` of them were mapped when it stops. */
  method MapRun(pt: PageTable, group: seq<BlockInfo>, g0: Supply, va: nat, n: nat, ghost used: nat)
    returns (ok: bool, g: Supply, done: nat)
    requires SupplyAt(group, g0, used) && used + n <= |Flatten(group)| && forall b :: b in group ==> b.pages > 0
    modifies pt
    ensures done <= n && (ok ==> done == n)
    ensures SupplyAt(group, g, used + done)
    ensures used + done <= |Flatten(group)|
    ensures pt.table == Placed(old(pt.table), Run(va, done), Flatten(group)[used..used + done])
    ensures pt.budget + done >= old(pt.budget) || !ok
    ensures !ok ==> old(pt.budget) < n
  {
    hide SupplyAt, Flatten, Placed, Mapped;
    ghost var t, all := pt.table, Flatten(group);
    g, done := g0, 0;
    PlaceNothing(t, va, all, used);
    while done < n
      invariant done <= n && SupplyAt(group, g, used + done)
      invariant pt.table == Placed(t, Run(va, done), all[used..used + done])
      invariant pt.budget + done >= old(pt.budget)
      decreases n - done, if g.pages == 0 then 1 else 0
    {
      if g.pages == 0 {
        SupplyNext(group, g, used + done);
        g := Supply(g.idx + 1, group[g.idx + 1].addr, group[g.idx + 1].pages);
        assert group[g.idx] in group;
      }
      var cur := Min(g.pages, n - done);
      SupplyTake(group, g, used + done, cur);
      ok := pt.Map(va + done, cur, g.addr);
      if !ok {
        return;
      }
      PlaceMore(t, va, all, used, done, g.addr, cur);
      g := Supply(g.idx, g.addr + cur, g.pages - cur);
      done := done + cur;
    }
    ok := true;
  }

  lemma {:induction false} PlaceNothing(t: Table, va: nat, all: seq<nat>, used: nat)
    requires used <= |all|
    ensures Placed(t, Run(va, 0), all[used..used]) == t
  {
  }

  lemma {:induction false} PlaceMore(t: Table, va: nat, all: seq<nat>, used: nat, done: nat, addr: nat, cur: nat)
    requires used + done + cur <= |all| && all[used + done..used + done + cur] == Run(addr, cur)
    ensures Mapped(Placed(t, Run(va, done), all[used..used + done]), va + done, Run(addr, cur))
            == Placed(t, Run(va, done + cur), all[used..used + done + cur])
  {
    hide Placed, Mapped;
    MappedIsPlaced(Placed(t, Run(va, done), all[used..used + done]), va + done, addr, cur);
    PlacedConcat(t, Run(va, done), all[used..used + done], Run(va + done, cur), Run(addr, cur));
    RunConcat(va, done, cur);
    assert all[used..used + done] + all[used + done..used + done + cur] == all[used..used + done + cur];
  }

  /** One block of the range has been backed, or a part of it. */
  lemma {:induction false} PlaceBlock(bs: seq<Block>, from: nat, to: nat, it: nat, lo: nat, cur: nat, hi: nat, n: nat,
                                      t: Table, all: seq<nat>)
    requires Tiles(bs, from, to) && |View(bs)| == to - from && from <= lo <= cur < hi <= to
    requires it < |bs| && bs[it].Holds(cur) && bs[it].info.state == STATE_FREE && cur + n <= bs[it].End() && cur + n <= hi
    requires |FreeIn(View(bs), from, lo, hi)| == |all|
    ensures |FreeIn(View(bs), from, lo, cur + n)| == |FreeIn(View(bs), from, lo, cur)| + n <= |all|
    ensures var free, used := FreeIn(View(bs), from, lo, cur), |FreeIn(View(bs), from, lo, cur)|;
            Placed(Placed(t, free, all[..used]), Run(cur, n), all[used..used + n])
            == Placed(t, FreeIn(View(bs), from, lo, cur + n), all[..used + n])
  {
    hide View, Tiles, FreeIn, Placed;
    var v := View(bs);
    var free := FreeIn(v, from, lo, cur);
    var used := |free|;
    FreeInBlock(bs, from, to, it, cur, cur + n);
    FreeInConcat(v, from, lo, cur, cur + n);
    FreeInConcat(v, from, lo, cur + n, hi);
    PlacedConcat(t, free, all[..used], Run(cur, n), all[used..used + n]);
    assert all[..used] + all[used..used + n] == all[..used + n];
  }

  /** The state of the walk at page `cur`: the free pages before it are backed with the first pages of the group. */
  ghost predicate BackedUpTo(v: seq<PageView>, from: nat, lo: nat, cur: nat, t: Table, group: seq<BlockInfo>, table: Table)
    requires from <= lo <= cur <= from + |v|
  {
    var free := FreeIn(v, from, lo, cur);
    |free| <= |Flatten(group)| && table == Placed(t, free, Flatten(group)[..|free|])
  }

  /** One memory block of the walk, from page `from` on. */
  method MapBlock(m: BlockManager, pt: PageTable, group: seq<BlockInfo>, start: Supply, it: nat, lo: nat, from: nat, hi: nat,
                  ghost t: Table)
    returns (ok: bool, g: Supply, cur: nat)
    requires m.Valid() && |View(m.blocks)| == m.end - m.start && m.start <= lo <= from < hi <= m.end
    requires it < |m.blocks| && m.blocks[it].Holds(from) && forall b :: b in group ==> b.pages > 0
    requires |Flatten(group)| == |FreeIn(View(m.blocks), m.start, lo, hi)|
    requires BackedUpTo(View(m.blocks), m.start, lo, from, t, group, pt.table)
    requires SupplyAt(group, start, |FreeIn(View(m.blocks), m.start, lo, from)|)
    modifies pt
    ensures from <= cur <= hi && (ok ==> cur == Min(m.blocks[it].End(), hi))
    ensures BackedUpTo(View(m.blocks), m.start, lo, cur, t, group, pt.table)
    ensures ok ==> SupplyAt(group, g, |FreeIn(View(m.blocks), m.start, lo, cur)|)
    ensures ok ==> pt.budget + |FreeIn(View(m.blocks), m.start, lo, cur)|
                   >= old(pt.budget) + |FreeIn(View(m.blocks), m.start, lo, from)|
    ensures !ok ==> old(pt.budget) + |FreeIn(View(m.blocks), m.start, lo, from)| < |Flatten(group)|
  {
    hide View, Tiles, FreeIn, Placed, Flatten, SupplyAt, IsBoundary, Coalesced, AllEdgesOk, AllCountsOk;
    ghost var bs, v, all := m.blocks, View(m.blocks), Flatten(group);
    ghost var used := |FreeIn(v, m.start, lo, from)|;
    ScanBlock(bs, m.start, m.end, it, lo, from, hi);
    var n := Min(m.blocks[it].End() - from, hi - from);
    ok, g, cur := true, start, from + n;
    if m.blocks[it].info.state == STATE_FREE {
      PlaceBlock(bs, m.start, m.end, it, lo, from, hi, n, t, all);
      var done;
      ok, g, done := MapRun(pt, group, start, from, n, used);
      PlaceBlock(bs, m.start, m.end, it, lo, from, hi, done, t, all);
      cur := from + done;
    }
  }

  /** Backs the free pages of `[lo, hi)` with the pages of the group, in order.  It stops at page `cur`. */
  method MapFree(m: BlockManager, pt: PageTable, group: seq<BlockInfo>, lo: nat, hi: nat) returns (ok: bool, cur: nat)
    requires m.Valid() && |View(m.blocks)| == m.end - m.start && m.start <= lo < hi <= m.end
    requires group != [] && forall b :: b in group ==> b.pages > 0
    requires |Flatten(group)| == |FreeIn(View(m.blocks), m.start, lo, hi)|
    modifies pt
    ensures lo <= cur <= hi && (ok ==> cur == hi)
    ensures |FreeIn(View(m.blocks), m.start, lo, cur)| <= |Flatten(group)|
    ensures pt.table == Placed(old(pt.table), FreeIn(View(m.blocks), m.start, lo, cur),
                               Flatten(group)[..|FreeIn(View(m.blocks), m.start, lo, cur)|])
    ensures old(pt.budget) >= |Flatten(group)| ==> ok
  {
    hide View, Tiles, FreeIn, Placed, Flatten, SupplyAt, IsBoundary, Coalesced;
    ghost var bs, v, all, t := m.blocks, View(m.blocks), Flatten(group), pt.table;
    var g := Supply(0, group[0].addr, group[0].pages);
    SupplyStart(group);
    NoneFree(v, m.start, lo);
    PlaceNone(t, all);
    var it := m.FindIterator(lo);
    cur := lo;
    while true
      invariant it < |bs| && m.blocks == bs && lo <= cur < hi && bs[it].Holds(cur)
      invariant BackedUpTo(v, m.start, lo, cur, t, group, pt.table)
      invariant SupplyAt(group, g, |FreeIn(v, m.start, lo, cur)|)
      invariant pt.budget + |FreeIn(v, m.start, lo, cur)| >= old(pt.budget)
      decreases |bs| - it
    {
      var stop := m.blocks[it].End();
      ScanBlock(bs, m.start, m.end, it, lo, cur, hi);
      ok, g, cur := MapBlock(m, pt, group, g, it, lo, cur, hi, t);
      if !ok || hi <= stop {
        return;
      }
      it := it + 1;
    }
  }

  lemma {:induction false} PlaceNone(t: Table, all: seq<nat>)
    ensures Placed(t, [], all[..0]) == t
  {
  }

  /** The table without the pages `s`. */
  function Dropped(t: Table, s: seq<nat>): Table {
    map p | p in t && p !in s :: t[p]
  }

  lemma {:induction false} DropMore(t: Table, s: seq<nat>, va: nat, n: nat)
    ensures Cut(Dropped(t, s), va, n) == Dropped(t, s + Run(va, n))
  {
    assert forall p: nat :: p in Run(va, n) <==> InRange(p, va, n) by {
      forall p: nat | InRange(p, va, n)
        ensures p in Run(va, n)
      {
        assert Run(va, n)[p - va] == p;
      }
    }
  }

  lemma {:induction false} DropPlaced(t: Table, at: seq<nat>, phys: seq<nat>)
    requires |at| == |phys| && NoDuplicates(at) && forall p :: p in at ==> p !in t
    ensures Dropped(Placed(t, at, phys), at) == t
  {
    PlacedAt(t, at, phys);
  }

  lemma {:induction false} DropNothing(t: Table)
    ensures Dropped(t, []) == t
  {
  }

  /** The cleanup guard: unmaps what was mapped below `cur`, which is what the blocks still call free. */
  method UnmapGuard(m: BlockManager, pt: PageTable, lo: nat, cur: nat, ghost t: Table, ghost phys: seq<nat>)
    requires m.Valid() && |View(m.blocks)| == m.end - m.start && m.start <= lo <= cur <= m.end && lo < m.end
    requires |phys| == |FreeIn(View(m.blocks), m.start, lo, cur)|
    requires pt.table == Placed(t, FreeIn(View(m.blocks), m.start, lo, cur), phys)
    requires forall p :: p in FreeIn(View(m.blocks), m.start, lo, cur) ==> p !in t
    modifies pt
    ensures pt.table == t
  {
    hide View, Tiles, FreeIn, Placed, IsBoundary, Coalesced, Dropped, Cut;
    ghost var bs, v, placed := m.blocks, View(m.blocks), pt.table;
    NoneFree(v, m.start, lo);
    FreeInNoDup(v, m.start, lo, cur);
    DropPlaced(t, FreeIn(v, m.start, lo, cur), phys);
    DropNothing(placed);
    if cur > lo {
      var at := lo;
      var it := m.FindIterator(lo);
      while true
        invariant it < |bs| && m.blocks == bs && lo <= at < cur && bs[it].Holds(at)
        invariant pt.table == Dropped(placed, FreeIn(v, m.start, lo, at))
        decreases |bs| - it
      {
        var b := m.blocks[it];
        ScanBlock(bs, m.start, m.end, it, lo, at, cur);
        if b.info.state == STATE_FREE {
          var n := Min(b.End() - at, cur - at);
          DropMore(placed, FreeIn(v, m.start, lo, at), at, n);
          pt.Unmap(at, n);
        }
        if cur <= b.End() {
          break;
        }
        at := b.End();
        it := it + 1;
      }
    } else {
      assert cur == lo;
    }
  }

  // ---- The whole operation --------------------------------------------------------------------

  datatype Outcome = AlreadyMapped | LimitReached | OutOfMemory | Retry | NoBlocks | OutOfPageTables | Backed

  /** What the process has mapped, and what is reserved of its limit, in pages. */
  class Usage {
    var mapped: nat
    var reserved: nat
    var limit: nat
  }

  /** One attempt of `MapPhysicalMemory`.  `seen` is the number of mapped pages that the first scan saw; the space may have
      changed since then.  `group` is the page group that was allocated meanwhile, if `granted`; `slab` is the number of
      memory blocks to be had. */
  method Attempt(m: BlockManager, pt: PageTable, usage: Usage, lo: nat, hi: nat, seen: nat,
                 granted: bool, group: seq<BlockInfo>, slab: nat)
    returns (res: Outcome)
    requires m.Valid() && |View(m.blocks)| == m.end - m.start && m.start <= lo < hi <= m.end && seen <= hi - lo
    requires granted ==> |Flatten(group)| == hi - lo - seen && forall b :: b in group ==> b.pages > 0
    requires FreeIsBare(View(m.blocks))
    requires forall p :: p in FreeIn(View(m.blocks), m.start, lo, hi) ==> p !in pt.table
    requires |m.blocks| > 0 && HasPredecessor(m.blocks, m.start, MAP_FREE, lo, hi - lo)
    modifies m`blocks, pt, usage
    ensures m.Valid() && usage.limit == old(usage.limit)
    ensures var v, free := old(View(m.blocks)), old(FreeIn(View(m.blocks), m.start, lo, hi));
            if res == Backed then
              && |Flatten(group)| == |free| == hi - lo - seen && usage.reserved <= usage.limit
              && pt.table == Placed(old(pt.table), free, Flatten(group))
              && RangeFits(MAP_FREE, v, lo - m.start, hi - m.start)
              && View(m.blocks) == ApplyRange(MAP_FREE, v, lo - m.start, hi - m.start)
              && usage.mapped == old(usage.mapped) + |free| && usage.reserved == old(usage.reserved) + |free|
            else
              && m.blocks == old(m.blocks) && pt.table == old(pt.table)
              && usage.mapped == old(usage.mapped) && usage.reserved == old(usage.reserved)
    ensures var missing := hi - lo - seen;
            if missing == 0 then res == AlreadyMapped
            else if old(usage.reserved) + missing > usage.limit then res == LimitReached
            else if !granted then res == OutOfMemory
            else if old(|FreeIn(View(m.blocks), m.start, lo, hi)|) != missing then res == Retry
            else if slab < old(CutsOfFree(m.blocks, m.start, m.end, lo, hi)) then res == NoBlocks
            else res == Backed || (res == OutOfPageTables && old(pt.budget) < missing)
  {
    hide View, Tiles, FreeIn, Placed, Flatten, IsBoundary, Coalesced, ApplyRange, FreeIsBare;
    var size := hi - lo;
    if size == seen {
      return AlreadyMapped;
    }
    if usage.reserved + (size - seen) > usage.limit {
      return LimitReached;
    }
    if !granted {
      return OutOfMemory;
    }
    ghost var v, t := View(m.blocks), pt.table;
    var checked, numBlocks := Scan(m, lo, hi);
    if checked != seen {
      return Retry;
    }
    CutsOfFreeExact(m.blocks, m.start, m.end, lo, hi);
    if slab < numBlocks {
      return NoBlocks;
    }
    FlattenNothing();
    var alloc := new UpdateAllocator(numBlocks);
    var ok, cur := MapFree(m, pt, group, lo, hi);
    if !ok {
      FreePrefix(v, m.start, lo, cur, hi);
      UnmapGuard(m, pt, lo, cur, t, Flatten(group)[..|FreeIn(v, m.start, lo, cur)|]);
      return OutOfPageTables;
    }
    assert Flatten(group)[..|Flatten(group)|] == Flatten(group);
    usage.reserved := usage.reserved + (size - seen);
    usage.mapped := usage.mapped + (size - seen);
    m.UpdateIfMatch(alloc, lo, size, STATE_FREE, PERM_NONE, ATTR_NONE, STATE_NORMAL, PERM_USER_READ_WRITE, ATTR_NONE);
    return Backed;
  }

  // ---- Trying again -----------------------------------------------------------------------------

  /** What another thread may change while the locks are open. */
  datatype World = World(blocks: seq<Block>, table: Table, mapped: nat, reserved: nat, limit: nat) {

    ghost predicate Ok(start: nat, end: nat, lo: nat, hi: nat) {
      && start <= lo < hi <= end && WellFormed(blocks, start, end) && Coalesced(blocks)
      && |View(blocks)| == end - start && FreeIsBare(View(blocks))
      && (forall p :: p in FreeIn(View(blocks), start, lo, hi) ==> p !in table)
      && |blocks| > 0 && HasPredecessor(blocks, start, MAP_FREE, lo, hi - lo)
    }

    /** The free pages of the range. */
    function Free(start: nat, lo: nat, hi: nat): seq<nat>
      requires start <= lo <= hi <= start + |View(blocks)|
    {
      FreeIn(View(blocks), start, lo, hi)
    }
  }

  function Now(m: BlockManager, pt: PageTable, usage: Usage): World
    reads m, pt, usage
  {
    World(m.blocks, pt.table, usage.mapped, usage.reserved, usage.limit)
  }

  /** One turn of the loop: the world at the first check, and the world and what can be had of it when the pages are to be
      mapped. */
  datatype Turn = Turn(before: World, after: World, budget: nat, slab: nat, granted: bool, group: seq<BlockInfo>) {

    ghost predicate Ok(start: nat, end: nat, lo: nat, hi: nat) {
      && before.Ok(start, end, lo, hi) && after.Ok(start, end, lo, hi)
      && (granted ==> |Flatten(group)| == |before.Free(start, lo, hi)| && forall b :: b in group ==> b.pages > 0)
    }

    /** The pages were there to be had, but the number of free pages had changed meanwhile. */
    ghost predicate Retried(start: nat, end: nat, lo: nat, hi: nat)
      requires Ok(start, end, lo, hi)
    {
      var missing := |before.Free(start, lo, hi)|;
      && 0 < missing && after.reserved + missing <= after.limit && granted
      && |after.Free(start, lo, hi)| != missing
    }

    /** How the call ends in this turn, and the world it leaves. */
    ghost predicate Ends(start: nat, end: nat, lo: nat, hi: nat, res: Outcome, w: World)
      requires Ok(start, end, lo, hi)
    {
      var missing, free := |before.Free(start, lo, hi)|, after.Free(start, lo, hi);
      if missing == 0 then res == AlreadyMapped && w == before
      else if after.reserved + missing > after.limit then res == LimitReached && w == after
      else if !granted then res == OutOfMemory && w == after
      else
        && |free| == missing
        && if slab < CutsOfFree(after.blocks, start, end, lo, hi) then res == NoBlocks && w == after
           else
             || (res == OutOfPageTables && budget < missing && w == after)
             || (res == Backed && IsBacked(start, lo, hi, w))
    }

    ghost predicate IsBacked(start: nat, lo: nat, hi: nat, w: World)
      requires start <= lo <= hi <= start + |View(after.blocks)|
    {
      var v, free := View(after.blocks), after.Free(start, lo, hi);
      && |Flatten(group)| == |free| && w.table == Placed(after.table, free, Flatten(group))
      && RangeFits(MAP_FREE, v, lo - start, hi - start) && View(w.blocks) == ApplyRange(MAP_FREE, v, lo - start, hi - start)
      && w.mapped == after.mapped + |free| && w.reserved == after.reserved + |free| <= w.limit == after.limit
    }
  }

  /** Other threads have their way. */
  method Become(m: BlockManager, pt: PageTable, usage: Usage, w: World, budget: nat)
    modifies m`blocks, pt, usage
    ensures Now(m, pt, usage) == w && pt.budget == budget
  {
    m.blocks, pt.table, pt.budget := w.blocks, w.table, budget;
    usage.mapped, usage.reserved, usage.limit := w.mapped, w.reserved, w.limit;
  }

  /** One turn. */
  method TakeTurn(m: BlockManager, pt: PageTable, usage: Usage, lo: nat, hi: nat, t: Turn) returns (res: Outcome)
    requires t.Ok(m.start, m.end, lo, hi)
    modifies m`blocks, pt, usage
    ensures m.Valid()
    ensures res == Retry <==> t.Retried(m.start, m.end, lo, hi)
    ensures res == Retry ==> Now(m, pt, usage) == t.after
    ensures res != Retry ==> t.Ends(m.start, m.end, lo, hi, res, Now(m, pt, usage))
  {
    hide View, Tiles, FreeIn, Placed, Flatten, IsBoundary, Coalesced, ApplyRange, FreeIsBare, RangeFits, AllEdgesOk;
    hide AllCountsOk;
    hide HasPredecessor, CutsOfFree;
    Become(m, pt, usage, t.before, t.budget);
    var seen, _ := Scan(m, lo, hi);
    if seen == hi - lo {
      return AlreadyMapped;
    }
    Become(m, pt, usage, t.after, t.budget);
    res := Attempt(m, pt, usage, lo, hi, seen, t.granted, t.group, t.slab);
  }

  /** `MapPhysicalMemory`, with whatever other threads do given as a sequence of turns: it ends in the first turn in which
      the number of free pages did not change between the two checks or something could not be had, with the outcome of
      that turn, and it is still trying only if every turn was disturbed. */
  method MapPhysicalMemory(m: BlockManager, pt: PageTable, usage: Usage, lo: nat, hi: nat, turns: seq<Turn>)
    returns (res: Outcome, used: nat)
    requires m.Valid() && forall j :: 0 <= j < |turns| ==> turns[j].Ok(m.start, m.end, lo, hi)
    modifies m`blocks, pt, usage
    ensures m.Valid() && used <= |turns|
    ensures forall j :: 0 <= j < used ==> turns[j].Retried(m.start, m.end, lo, hi)
    ensures if used == |turns| then res == Retry
            else !turns[used].Retried(m.start, m.end, lo, hi) && turns[used].Ends(m.start, m.end, lo, hi, res, Now(m, pt, usage))
  {
    hide View, Tiles, Coalesced, AllEdgesOk, AllCountsOk;
    used, res := 0, Retry;
    while used < |turns|
      invariant used <= |turns| && m.Valid() && res == Retry
      invariant forall j :: 0 <= j < used ==> turns[j].Retried(m.start, m.end, lo, hi)
    {
      res := TakeTurn(m, pt, usage, lo, hi, turns[used]);
      if res != Retry {
        return;
      }
      used := used + 1;
    }
  }

  lemma {:induction false} FlattenNothing()
    ensures Flatten([]) == []
  {
  }

  lemma {:induction false} FreePrefix(v: seq<PageView>, from: nat, lo: nat, cur: nat, hi: nat)
    requires from <= lo <= cur <= hi <= from + |v|
    ensures forall p :: p in FreeIn(v, from, lo, cur) ==> p in FreeIn(v, from, lo, hi)
  {
    FreeInConcat(v, from, lo, cur, hi);
  }

  /** What a successful call means, page by page: a page of the range that was free is Normal and read-write and has its own
      page of the group behind it; every other page, and what is behind it, is as it was. */
  lemma {:induction false} BackedPages(v: seq<PageView>, from: nat, lo: nat, hi: nat, t: Table, phys: seq<nat>, p: nat)
    requires from <= lo < hi <= from + |v| && FreeIsBare(v) && |phys| == |FreeIn(v, from, lo, hi)| && NoDuplicates(phys)
    requires forall q :: q in FreeIn(v, from, lo, hi) ==> q !in t
    requires from <= p < from + |v|
    ensures RangeFits(MAP_FREE, v, lo - from, hi - from)
    ensures var w, placed := ApplyRange(MAP_FREE, v, lo - from, hi - from), Placed(t, FreeIn(v, from, lo, hi), phys);
            if lo <= p < hi && IsFree(v[p - from]) then
              && w[p - from].info.HasProperties(STATE_NORMAL, PERM_USER_READ_WRITE, ATTR_NONE)
              && p in placed && placed[p] in phys
              && (forall q :: q in FreeIn(v, from, lo, hi) && q != p ==> q in placed && placed[q] != placed[p])
            else
              && w[p - from] == v[p - from] && (p in placed <==> p in t) && (p in t ==> placed[p] == t[p])
  {
    hide FreeIn, Placed;
    var free := FreeIn(v, from, lo, hi);
    FreeInNoDup(v, from, lo, hi);
    InFreeIn(v, from, lo, hi);
    PlacedAt(t, free, phys);
    var k := p - from;
    if lo <= p < hi && IsFree(v[k]) {
      assert p in free;
      var i :| 0 <= i < |free| && free[i] == p;
      forall q | q in free && q != p
        ensures q in Placed(t, free, phys) && Placed(t, free, phys)[q] != Placed(t, free, phys)[p]
      {
        var j :| 0 <= j < |free| && free[j] == q;
        assert phys[i] != phys[j];
      }
    }
  }

  /** Every page of the group is used. */
  lemma {:induction false} GroupUsedUp(t: Table, at: seq<nat>, phys: seq<nat>, x: nat)
    requires |at| == |phys| && NoDuplicates(at) && x in phys
    ensures exists p :: p in at && p in Placed(t, at, phys) && Placed(t, at, phys)[p] == x
  {
    hide Placed;
    PlacedAt(t, at, phys);
    var i :| 0 <= i < |phys| && phys[i] == x;
    assert at[i] in at;
  }
}
