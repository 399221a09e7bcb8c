/** `MapMemory` and `UnmapMemory`: a range is shown a second time at another address while the original is locked. */
module AliasMemory {
  import opened Bytes
  import opened MemoryBlocks
  import opened BlockUpdates
  import opened BlockManagers
  import opened CanonicalBlocks
  import opened UpdateMeanings
  import opened StateChecks
  import opened PageGroups
  import opened Traversals
  import opened PageRanges
  import opened PageTables
  import opened Remappings

  const STATE_STACK: nat := 0x005C3C0B
  const PERM_LOCKED := PERM_NONE.(kernelRead := true, notMapped := true)
  const ATTR_LOCKED := ATTR_NONE.(locked := true)

  // The four block updates.
  function LockSource(state: nat): Op {
    Op.Update(state, PERM_LOCKED, ATTR_LOCKED, DISABLE_LOCKED, DISABLE_NONE)
  }

  function ShowAlias(): Op {
    ShowPages(STATE_STACK, PERM_USER_READ_WRITE)
  }

  function UnlockSource(state: nat): Op {
    Op.Update(state, PERM_USER_READ_WRITE, ATTR_NONE, DISABLE_NONE, DISABLE_LOCKED)
  }

  function HideAlias(): Op {
    HidePages()
  }

  /** What `MapMemory` checks of the source: one state, read-write, no attribute at all. */
  predicate IsSource(i: PageInfo, state: nat) {
    i.state == state && i.perm == PERM_USER_READ_WRITE && i.attr == ATTR_NONE
  }

  predicate Inside(k: nat, at: nat, n: nat) {
    at <= k < at + n
  }

  /** The view with the alias at page `dst` of page `src`. */
  function Aliased(v: seq<PageView>, state: nat, dst: nat, src: nat, n: nat): (w: seq<PageView>)
    requires src + n <= |v| && dst + n <= |v|
    ensures |w| == |v|
  {
    ApplyRange(ShowAlias(), ApplyRange(LockSource(state), v, src, src + n), dst, dst + n)
  }

  /** The view with the alias taken away again. */
  function Unaliased(v: seq<PageView>, state: nat, dst: nat, src: nat, n: nat): (w: seq<PageView>)
    requires src + n <= |v| && dst + n <= |v|
    ensures |w| == |v|
  {
    ApplyRange(HideAlias(), ApplyRange(UnlockSource(state), v, src, src + n), dst, dst + n)
  }

  /** A source page is as it was exactly if it did not carry the Locked flag at its left edge. */
  predicate SourceClean(p: PageView) {
    !p.left.flags.locked
  }

  lemma {:induction false} SourceRestored(p: PageView, state: nat, first: bool, last: bool)
    requires IsSource(p.info, state)
    ensures p.Apply(LockSource(state), first, last).Apply(UnlockSource(state), first, last) == p <==> SourceClean(p)
  {
  }

  predicate Restorable(v: seq<PageView>, dst: nat, src: nat, n: nat)
    requires src + n <= |v| && dst + n <= |v|
  {
    && (forall k :: src <= k < src + n ==> SourceClean(v[k]))
    && (forall k :: dst <= k < dst + n ==> FreeClean(v[k]))
  }

  lemma {:induction false} RestoredAt(v: seq<PageView>, state: nat, dst: nat, src: nat, n: nat, k: nat)
    requires src + n <= |v| && dst + n <= |v| && (src + n <= dst || dst + n <= src) && k < |v|
    requires Inside(k, src, n) ==> IsSource(v[k].info, state)
    requires Inside(k, dst, n) ==> v[k].info.state == STATE_FREE
    ensures Unaliased(Aliased(v, state, dst, src, n), state, dst, src, n)[k] == v[k]
            <==> (Inside(k, src, n) ==> SourceClean(v[k])) && (Inside(k, dst, n) ==> FreeClean(v[k]))
  {
    hide SourceClean, FreeClean, LockSource, UnlockSource, ShowPages, HidePages;
    if Inside(k, src, n) {
      SourceRestored(v[k], state, k == src, k == src + n - 1);
    } else if Inside(k, dst, n) {
      FreeRestored(v[k], STATE_STACK, PERM_USER_READ_WRITE, k == dst, k == dst + n - 1);
    }
  }

  /** Mapping and unmapping restores every page of the space if and only if the source carried no Locked flag and the
      destination was bare: free pages without permission, attribute or Normal flag. */
  lemma {:induction false} MapThenUnmapRestoresView(v: seq<PageView>, state: nat, dst: nat, src: nat, n: nat)
    requires src + n <= |v| && dst + n <= |v| && (src + n <= dst || dst + n <= src)
    requires forall k :: src <= k < src + n ==> IsSource(v[k].info, state)
    requires forall k :: dst <= k < dst + n ==> v[k].info.state == STATE_FREE
    ensures Unaliased(Aliased(v, state, dst, src, n), state, dst, src, n) == v <==> Restorable(v, dst, src, n)
  {
    hide Aliased, Unaliased, SourceClean, FreeClean;
    var w := Unaliased(Aliased(v, state, dst, src, n), state, dst, src, n);
    forall k | 0 <= k < |v|
      ensures w[k] == v[k] <==> (Inside(k, src, n) ==> SourceClean(v[k])) && (Inside(k, dst, n) ==> FreeClean(v[k]))
    {
      RestoredAt(v, state, dst, src, n, k);
    }
    if Restorable(v, dst, src, n) {
      forall k | 0 <= k < |v|
        ensures w[k] == v[k]
      {
      }
    }
  }

  // ---- The block counts survive the first of the two updates ----------------------------------

  /** `FlagCanAlias`. */
  predicate CanAlias(state: nat) {
    state / 0x8000 % 2 == 1
  }

  predicate AllState(v: seq<PageView>, at: nat, n: nat, state: nat)
    requires at + n <= |v|
  {
    forall k :: at <= k < at + n ==> v[k].info.state == state
  }

  predicate SameOutside(v: seq<PageView>, w: seq<PageView>, at: nat, n: nat) {
    |v| == |w| && forall k :: 0 <= k < |v| && !Inside(k, at, n) ==> v[k] == w[k]
  }

  /** An end of the second range that was a boundary still is one after the first range changed: where the two ranges
      touch, the pages have different states. */
  lemma {:induction false} BoundaryKept(bs: seq<Block>, cs: seq<Block>, from: nat, to: nat, a: nat, b: nat, n: nat,
                                        sa: nat, sb: nat, p: nat)
    requires Tiles(bs, from, to) && Coalesced(bs) && |View(bs)| == to - from
    requires Tiles(cs, from, to) && Coalesced(cs) && |View(cs)| == to - from
    requires a + n <= to - from && b + n <= to - from && (a + n <= b || b + n <= a) && n > 0 && sa != sb
    requires SameOutside(View(bs), View(cs), a, n)
    requires AllState(View(cs), a, n, sa) && AllState(View(cs), b, n, sb)
    requires p == from + b || p == from + b + n
    requires IsBoundary(bs, to, p)
    ensures IsBoundary(cs, to, p)
  {
    if from < p < to {
      BoundaryFromView(bs, from, to, p);
      BoundaryFromView(cs, from, to, p);
      var k := p - from;
      assert Inside(k - 1, a, n) ==> View(cs)[k - 1].info.state == sa;
      assert Inside(k, a, n) ==> View(cs)[k].info.state == sa;
      assert Inside(k - 1, b, n) ==> View(cs)[k - 1].info.state == sb;
      assert Inside(k, b, n) ==> View(cs)[k].info.state == sb;
    } else if p == from {
      SpaceStartIsBoundary(cs, from, to);
    }
  }

  lemma {:induction false} SpaceStartIsBoundary(cs: seq<Block>, from: nat, to: nat)
    requires Tiles(cs, from, to)
    ensures IsBoundary(cs, to, from)
  {
    if cs != [] {
      assert cs[0] in cs;
    }
  }

  lemma {:induction false} CountKept(bs: seq<Block>, cs: seq<Block>, from: nat, to: nat, a: nat, b: nat, n: nat,
                                     sa: nat, sb: nat)
    requires Tiles(bs, from, to) && Coalesced(bs) && |View(bs)| == to - from
    requires Tiles(cs, from, to) && Coalesced(cs) && |View(cs)| == to - from
    requires a + n <= to - from && b + n <= to - from && (a + n <= b || b + n <= a) && n > 0 && sa != sb
    requires SameOutside(View(bs), View(cs), a, n)
    requires AllState(View(cs), a, n, sa) && AllState(View(cs), b, n, sb)
    ensures CutEnds(cs, to, from + b, from + b + n) <= CutEnds(bs, to, from + b, from + b + n)
  {
    hide SameOutside, AllState, Coalesced, Tiles;
    if IsBoundary(bs, to, from + b) {
      BoundaryKept(bs, cs, from, to, a, b, n, sa, sb, from + b);
    }
    if IsBoundary(bs, to, from + b + n) {
      BoundaryKept(bs, cs, from, to, a, b, n, sa, sb, from + b + n);
    }
  }

  /** The source's update and the alias's update, with the blocks counted for both beforehand. */
  method UpdateBoth(m: BlockManager, src: nat, dst: nat, n: nat, op1: Op, op2: Op, srcBlocks: nat, dstBlocks: nat,
                    ghost dstState: nat)
    requires m.Valid() && |View(m.blocks)| == m.end - m.start && n > 0
    requires src + n <= m.end - m.start && dst + n <= m.end - m.start && (src + n <= dst || dst + n <= src)
    requires op1.Update? && op1.Ok() && op2.Update? && op2.Ok()
    requires forall k :: src <= k < src + n ==> op1.Touches(View(m.blocks)[k].info)
    requires forall k :: dst <= k < dst + n ==> op2.Touches(View(m.blocks)[k].info)
    requires AllState(View(m.blocks), dst, n, dstState) && op1.state != dstState
    requires CutEnds(m.blocks, m.end, m.start + src, m.start + src + n) <= srcBlocks <= 2
    requires CutEnds(m.blocks, m.end, m.start + dst, m.start + dst + n) <= dstBlocks <= 2
    modifies m`blocks
    ensures m.Valid()
    ensures View(m.blocks) == ApplyRange(op2, ApplyRange(op1, old(View(m.blocks)), src, src + n), dst, dst + n)
  {
    hide View, IsBoundary, Tiles, Coalesced, CutEnds;
    ghost var bs, v := m.blocks, View(m.blocks);
    UpdateOne(m, src, n, op1, srcBlocks);
    FirstOfTwo(v, src, dst, n, op1, dstState);
    CountKept(bs, m.blocks, m.start, m.end, src, dst, n, op1.state, dstState);
    UpdateOne(m, dst, n, op2, dstBlocks);
  }

  lemma {:induction false} FirstOfTwo(v: seq<PageView>, src: nat, dst: nat, n: nat, op: Op, dstState: nat)
    requires src + n <= |v| && dst + n <= |v| && (src + n <= dst || dst + n <= src) && op.Update?
    requires forall k :: src <= k < src + n ==> op.Touches(v[k].info)
    requires AllState(v, dst, n, dstState)
    ensures var w := ApplyRange(op, v, src, src + n);
            && SameOutside(v, w, src, n) && AllState(w, src, n, op.state) && AllState(w, dst, n, dstState)
            && forall k :: dst <= k < dst + n ==> w[k] == v[k]
  {
    var w := ApplyRange(op, v, src, src + n);
    forall k | 0 <= k < |v|
      ensures !Inside(k, src, n) ==> w[k] == v[k]
      ensures Inside(k, src, n) ==> w[k].info.state == op.state
    {
    }
  }

  // ---- The two operations ---------------------------------------------------------------------

  method CheckRange(m: BlockManager, at: nat, n: nat, test: PageInfo -> bool) returns (ok: bool, state: nat, numBlocks: nat)
    requires m.Valid() && |View(m.blocks)| == m.end - m.start && n > 0 && at + n <= m.end - m.start
    ensures ok <==> AllAgree(View(m.blocks), at, n, test)
    ensures ok ==> state == View(m.blocks)[at].info.state
    ensures ok ==> numBlocks == CutEnds(m.blocks, m.end, m.start + at, m.start + at + n) <= 2
  {
    hide View, IsBoundary, Agrees;
    var perm, attr;
    assert PageDown((m.start + at) * PAGE_SIZE) == m.start + at;
    assert PageUp((m.start + at) * PAGE_SIZE + n * PAGE_SIZE) == m.start + at + n;
    ok, state, perm, attr, numBlocks := CheckMemoryState(m, (m.start + at) * PAGE_SIZE, n * PAGE_SIZE, test, IGNORED_ATTR);
  }

  function SourceTest(): PageInfo -> bool {
    (i: PageInfo) => CanAlias(i.state) && i.perm == PERM_USER_READ_WRITE && i.attr == ATTR_NONE
  }

  function FreeTest(): PageInfo -> bool {
    (i: PageInfo) => i.state == STATE_FREE
  }

  function LockedTest(): PageInfo -> bool {
    (i: PageInfo) => CanAlias(i.state) && i.perm == PERM_LOCKED && i.attr == ATTR_LOCKED
  }

  function StackTest(): PageInfo -> bool {
    (i: PageInfo) => i.state == STATE_STACK && i.attr == ATTR_NONE
  }

  /** No table maps the null page. */
  predicate NoNullPage(t: Table) {
    forall v :: v in t ==> t[v] > 0
  }

  lemma {:induction false} WalkNoNull(t: Table, va: nat, w: Traversal)
    requires Walks(t, va, w) && NoNullPage(t)
    ensures w.Ok() && NoNull(w.Pages())
  {
  }

  /** The pages behind a range are mapped, and each of their runs starts in the heap. */
  predicate HeapRange(t: Table, va: nat, n: nat, heap: Heap) {
    MappedRange(t, va, n) && HeapBlocks(Runs(Behind(t, va, n)), heap)
  }

  /** What `MapMemory` demands: a source that may be aliased, with heap pages behind it, and a free destination. */
  predicate Mappable(v: seq<PageView>, t: Table, from: nat, heap: Heap, dst: nat, src: nat, n: nat)
    requires 0 < n && src + n <= |v| && dst + n <= |v|
  {
    AllAgree(v, src, n, SourceTest()) && AllAgree(v, dst, n, FreeTest()) && HeapRange(t, from + src, n, heap)
  }

  /** `MapMemory`: shows the source pages at the destination and locks the source. */
  method MapMemory(m: BlockManager, pt: PageTable, pg: PageGroup, walk: Traversal, heap: Heap, dst: nat, src: nat, n: nat)
    returns (ok: bool, state: nat)
    requires m.Valid() && |View(m.blocks)| == m.end - m.start && n > 0
    requires src + n <= m.end - m.start && dst + n <= m.end - m.start
    requires Walks(pt.table, m.start + src, walk) && NoNullPage(pt.table) && pg.blocks == []
    requires Unmapped(pt.table, m.start + dst, n)
    modifies m`blocks, pt, pg
    ensures m.Valid()
    ensures ok ==> Mappable(old(View(m.blocks)), old(pt.table), m.start, heap, dst, src, n)
    ensures (Mappable(old(View(m.blocks)), old(pt.table), m.start, heap, dst, src, n)
             && old(pg.slots) >= n && old(pt.budget) >= n + 1) ==> ok
    ensures ok ==> && (src + n <= dst || dst + n <= src) && CanAlias(state)
                   && (forall k :: src <= k < src + n ==> IsSource(old(View(m.blocks))[k].info, state))
                   && AllState(old(View(m.blocks)), dst, n, STATE_FREE)
                   && View(m.blocks) == Aliased(old(View(m.blocks)), state, dst, src, n)
                   && pt.table == Mapped(old(pt.table), m.start + dst, Behind(old(pt.table), m.start + src, n))
                   && pt.budget + n + 1 >= old(pt.budget)
    ensures !ok ==> m.blocks == old(m.blocks) && pt.table == old(pt.table)
  {
    hide View, IsBoundary, ApplyRange, Tiles, Coalesced, Mapped, Runs, Flatten, Walks, NoNullPage, AllAgree, HeapBlocks;
    ghost var v := View(m.blocks);
    WalkNoNull(pt.table, m.start + src, walk);
    WalkSees(pt.table, m.start + src, walk, n);
    var srcBlocks, dstBlocks, dstState;
    ok, state, srcBlocks := CheckRange(m, src, n, SourceTest());
    if !ok {
      return;
    }
    ok, dstState, dstBlocks := CheckRange(m, dst, n, FreeTest());
    if !ok {
      return;
    }
    SourceChecked(v, src, n);
    FreeChecked(v, dst, n);
    assert src + n <= dst || dst + n <= src by {
      Disjoint(v, src, dst, n, state, STATE_FREE);
    }
    var res := MakePageGroup(pg, walk, n, heap);
    if res != Success {
      return false, state;
    }
    ok := pt.ChangePermissions(m.start + src, n);
    if !ok {
      return;
    }
    assert Flatten(pg.blocks) == walk.Pages()[..n] by {
      RunsForm(walk.Pages()[..n]);
    }
    RunsShort(walk.Pages()[..n]);
    ok := MapPageGroup(pt, m.start + dst, pg.blocks);
    if !ok {
      return;
    }
    UpdateBoth(m, src, dst, n, LockSource(state), ShowAlias(), srcBlocks, dstBlocks, STATE_FREE);
  }

  lemma {:induction false} SourceChecked(v: seq<PageView>, at: nat, n: nat)
    requires 0 < n && at + n <= |v| && AllAgree(v, at, n, SourceTest())
    ensures CanAlias(v[at].info.state) && AllState(v, at, n, v[at].info.state)
    ensures forall k :: at <= k < at + n ==> IsSource(v[k].info, v[at].info.state)
    ensures forall k :: at <= k < at + n ==> LockSource(v[at].info.state).Touches(v[k].info)
  {
    assert Agrees(v[at].info, v[at].info, IGNORED_ATTR, SourceTest());
  }

  lemma {:induction false} FreeChecked(v: seq<PageView>, at: nat, n: nat)
    requires 0 < n && at + n <= |v| && AllAgree(v, at, n, FreeTest())
    ensures AllState(v, at, n, STATE_FREE)
    ensures forall k :: at <= k < at + n ==> ShowAlias().Touches(v[k].info)
  {
  }

  lemma {:induction false} Disjoint(v: seq<PageView>, a: nat, b: nat, n: nat, sa: nat, sb: nat)
    requires 0 < n && a + n <= |v| && b + n <= |v| && AllState(v, a, n, sa) && AllState(v, b, n, sb) && sa != sb
    ensures a + n <= b || b + n <= a
  {
    var k := if a < b then b else a;
    assert Inside(k, a, n) ==> v[k].info.state == sa;
    assert Inside(k, b, n) ==> v[k].info.state == sb;
  }

  /** `Interrupted`: the alias was unmapped but the source could not be reprotected, and the remap guard runs. */
  datatype UnmapOutcome = Restored(state: nat) | Refused | Interrupted

  /** What `UnmapMemory` demands: a locked source, an aliased stack range, and the same heap pages behind both. */
  predicate Removable(v: seq<PageView>, t: Table, from: nat, heap: Heap, dst: nat, src: nat, n: nat)
    requires 0 < n && src + n <= |v| && dst + n <= |v|
  {
    && AllAgree(v, src, n, LockedTest()) && AllAgree(v, dst, n, StackTest())
    && HeapRange(t, from + dst, n, heap) && MappedRange(t, from + src, n)
    && Behind(t, from + dst, n) == Behind(t, from + src, n)
  }

  /** The page table's part of `UnmapMemory`: the alias is unmapped, and mapped again if the source's permissions cannot be
      changed. */
  method TakeAway(m: BlockManager, pt: PageTable, group: seq<BlockInfo>, dst: nat, src: nat, n: nat)
    returns (unmapped: bool, unlocked: bool)
    requires m.Valid() && n > 0 && dst + n <= m.end - m.start
    requires MappedRange(pt.table, m.start + dst, n) && Flatten(group) == Behind(pt.table, m.start + dst, n)
    requires group != [] && forall b :: b in group ==> b.pages > 0
    modifies pt
    ensures unmapped <==> old(pt.budget) >= 1
    ensures unlocked <==> old(pt.budget) >= 2
    ensures pt.table == if unlocked then Cut(old(pt.table), m.start + dst, n) else old(pt.table)
  {
    hide Flatten, Mapped, Cut, Tiles, Coalesced, AllEdgesOk, AllCountsOk;
    CutThenMapped(pt.table, m.start + dst, n);
    unmapped := pt.TryUnmap(m.start + dst, n);
    unlocked := false;
    if unmapped {
      unlocked := pt.ChangePermissions(m.start + src, n);
      if !unlocked {
        RemapPageGroup(m, pt, group, m.start + dst, m.start + dst + n);
      }
    }
  }

  /** `UnmapMemory`: takes the alias away and unlocks the source. */
  method UnmapMemory(m: BlockManager, pt: PageTable, pg: PageGroup, dstWalk: Traversal, srcWalk: Traversal, heap: Heap,
                     dst: nat, src: nat, n: nat)
    returns (res: UnmapOutcome)
    requires m.Valid() && |View(m.blocks)| == m.end - m.start && n > 0
    requires src + n <= m.end - m.start && dst + n <= m.end - m.start
    requires Walks(pt.table, m.start + dst, dstWalk) && Walks(pt.table, m.start + src, srcWalk)
    requires NoNullPage(pt.table) && pg.blocks == []
    modifies m`blocks, pt, pg
    ensures m.Valid()
    ensures !res.Refused? ==> Removable(old(View(m.blocks)), old(pt.table), m.start, heap, dst, src, n)
    ensures (Removable(old(View(m.blocks)), old(pt.table), m.start, heap, dst, src, n)
             && old(pt.budget) >= 2 && old(pg.slots) >= n) ==> res.Restored?
    ensures res.Restored? ==>
              && CanAlias(res.state) && res.state == old(View(m.blocks))[src].info.state
              && View(m.blocks) == Unaliased(old(View(m.blocks)), res.state, dst, src, n)
              && pt.table == Cut(old(pt.table), m.start + dst, n)
    ensures !res.Restored? ==> m.blocks == old(m.blocks) && pt.table == old(pt.table)
  {
    hide View, IsBoundary, ApplyRange, Tiles, Coalesced, Cut, Runs, Flatten, AllAgree, HeapBlocks, Walks, NoNullPage;
    ghost var v := View(m.blocks);
    WalkNoNull(pt.table, m.start + dst, dstWalk);
    WalkNoNull(pt.table, m.start + src, srcWalk);
    WalkSees(pt.table, m.start + dst, dstWalk, n);
    WalkSees(pt.table, m.start + src, srcWalk, n);
    var ok, state, srcBlocks := CheckRange(m, src, n, LockedTest());
    if !ok {
      return Refused;
    }
    var dstOk, dstState, dstBlocks := CheckRange(m, dst, n, StackTest());
    if !dstOk {
      return Refused;
    }
    LockedChecked(v, src, n);
    StackChecked(v, dst, n);
    assert src + n <= dst || dst + n <= src by {
      Disjoint(v, src, dst, n, state, STATE_STACK);
    }
    var made := MakePageGroup(pg, dstWalk, n, heap);
    if made != Success {
      return Refused;
    }
    GroupOfRange(dstWalk, srcWalk, heap, n);
    var valid := IsValidPageGroup(pg.blocks, srcWalk, n, heap);
    if !valid {
      return Refused;
    }
    GroupPages(Behind(pt.table, m.start + dst, n));
    var unmapped, unlocked := TakeAway(m, pt, pg.blocks, dst, src, n);
    if !unmapped {
      return Refused;
    }
    if !unlocked {
      return Interrupted;
    }
    UpdateBoth(m, src, dst, n, UnlockSource(state), HideAlias(), srcBlocks, dstBlocks, STATE_STACK);
    return Restored(state);
  }

  /** What was unmapped and is mapped again is as it was. */
  lemma {:induction false} CutThenMapped(t: Table, va: nat, n: nat)
    requires MappedRange(t, va, n)
    ensures Mapped(Cut(t, va, n), va, Behind(t, va, n)) == t
  {
    var pages := Behind(t, va, n);
    var u := Mapped(Cut(t, va, n), va, pages);
    forall v: nat
      ensures (v in u <==> v in t) && (v in t ==> u[v] == t[v])
    {
      if va <= v < va + n {
        assert InRange(v, va, n) && pages[v - va] == t[v];
      }
    }
  }

  lemma {:induction false} GroupPages(pages: seq<nat>)
    requires NoNull(pages) && pages != []
    ensures Flatten(Runs(pages)) == pages && Runs(pages) != [] && forall b :: b in Runs(pages) ==> b.pages > 0
  {
    RunsForm(pages);
  }

  /** The group made from one range is valid for another exactly if the ranges have the same pages. */
  lemma {:induction false} GroupOfRange(a: Traversal, b: Traversal, heap: Heap, n: nat)
    requires a.Ok() && NoNull(a.Pages()) && b.Ok() && NoNull(b.Pages()) && 0 < n <= |a.Pages()|
    requires HeapBlocks(Runs(a.Pages()[..n]), heap)
    ensures forall x :: x in Runs(a.Pages()[..n]) ==> x.pages > 0
    ensures BeginsWithRange(Runs(a.Pages()[..n]), b, n, heap)
            <==> n <= |b.Pages()| && a.Pages()[..n] == b.Pages()[..n]
  {
    var q := a.Pages()[..n];
    assert NoNull(q);
    RunsForm(q);
    if n <= |b.Pages()| {
      ValidIffSamePages(Runs(q), b, n, heap);
    }
  }

  lemma {:induction false} LockedChecked(v: seq<PageView>, at: nat, n: nat)
    requires 0 < n && at + n <= |v| && AllAgree(v, at, n, LockedTest())
    ensures CanAlias(v[at].info.state) && AllState(v, at, n, v[at].info.state)
    ensures forall k :: at <= k < at + n ==> UnlockSource(v[at].info.state).Touches(v[k].info)
  {
    assert Agrees(v[at].info, v[at].info, IGNORED_ATTR, LockedTest());
  }

  lemma {:induction false} StackChecked(v: seq<PageView>, at: nat, n: nat)
    requires 0 < n && at + n <= |v| && AllAgree(v, at, n, StackTest())
    ensures AllState(v, at, n, STATE_STACK) && !CanAlias(STATE_STACK)
    ensures forall k :: at <= k < at + n ==> HideAlias().Touches(v[k].info)
  {
  }

  /** No page of the range carries a lock or share bit. */
  predicate NoLockBits(v: seq<PageView>, at: nat, n: nat)
    requires at + n <= |v|
  {
    forall k :: at <= k < at + n ==> !v[k].info.attr.ipcLocked && !v[k].info.attr.deviceShared
  }

  /** What `MapMemory` made is what `UnmapMemory` asks for. */
  lemma {:induction false} AliasedAgrees(v: seq<PageView>, state: nat, dst: nat, src: nat, n: nat)
    requires 0 < n && src + n <= |v| && dst + n <= |v| && (src + n <= dst || dst + n <= src) && CanAlias(state)
    requires forall k :: src <= k < src + n ==> IsSource(v[k].info, state)
    requires AllState(v, dst, n, STATE_FREE) && NoLockBits(v, dst, n)
    ensures AllAgree(Aliased(v, state, dst, src, n), src, n, LockedTest())
    ensures AllAgree(Aliased(v, state, dst, src, n), dst, n, StackTest())
  {
    var w := Aliased(v, state, dst, src, n);
    forall k | src <= k < src + n
      ensures w[k].info.state == state && w[k].info.perm == PERM_LOCKED && w[k].info.attr == ATTR_LOCKED
    {
      assert IsSource(v[k].info, state);
    }
    forall k | dst <= k < dst + n
      ensures w[k].info.state == STATE_STACK && w[k].info.perm == PERM_USER_READ_WRITE && w[k].info.attr == ATTR_NONE
    {
      assert v[k].info.state == STATE_FREE;
    }
  }

  /** Behind the alias are the pages of the source, and behind the source nothing changed. */
  lemma {:induction false} AliasPages(t: Table, from: nat, dst: nat, src: nat, n: nat)
    requires MappedRange(t, from + src, n) && (src + n <= dst || dst + n <= src)
    ensures var a := Mapped(t, from + dst, Behind(t, from + src, n));
            && MappedRange(a, from + dst, n) && MappedRange(a, from + src, n)
            && Behind(a, from + dst, n) == Behind(t, from + src, n) == Behind(a, from + src, n)
  {
    hide Mapped;
    var pages := Behind(t, from + src, n);
    var a := Mapped(t, from + dst, pages);
    forall v: nat
      ensures InRange(v, from + dst, n) ==> v in a && a[v] == pages[v - (from + dst)]
      ensures !InRange(v, from + dst, n) && v in t ==> v in a && a[v] == t[v]
    {
      MappedAt(t, from + dst, pages, v);
    }
    assert MappedRange(a, from + dst, n) by {
      forall v | from + dst <= v < from + dst + n
        ensures v in a
      {
        assert InRange(v, from + dst, n);
      }
    }
    assert MappedRange(a, from + src, n) by {
      forall v | from + src <= v < from + src + n
        ensures v in a
      {
        assert !InRange(v, from + dst, n);
      }
    }
    forall k | 0 <= k < n
      ensures a[from + dst + k] == pages[k] && a[from + src + k] == pages[k]
    {
      assert InRange(from + dst + k, from + dst, n) && !InRange(from + src + k, from + dst, n);
    }
  }

  lemma {:induction false} MappedAt(t: Table, va: nat, phys: seq<nat>, v: nat)
    ensures InRange(v, va, |phys|) ==> v in Mapped(t, va, phys) && Mapped(t, va, phys)[v] == phys[v - va]
    ensures !InRange(v, va, |phys|) && v in t ==> v in Mapped(t, va, phys) && Mapped(t, va, phys)[v] == t[v]
  {
  }

  lemma {:induction false} AliasNoNull(t: Table, va: nat, pages: seq<nat>)
    requires NoNullPage(t) && forall k :: 0 <= k < |pages| ==> pages[k] > 0
    ensures NoNullPage(Mapped(t, va, pages))
  {
  }

  /** `MapMemory` followed by `UnmapMemory` with the same arguments: whenever the source may be aliased and the destination
      is free, both go through, the page table is restored, and so is every page of the space exactly if it was
      `Restorable`.  The second call walks the table that the first one left, over whatever translation blocks it has now. */
  method MapThenUnmap(m: BlockManager, pt: PageTable, walk: Traversal, aliasWalk: Traversal, againWalk: Traversal,
                      heap: Heap,
                      dst: nat, src: nat, n: nat)
    returns (mapped: bool, res: UnmapOutcome)
    requires m.Valid() && |View(m.blocks)| == m.end - m.start && n > 0
    requires src + n <= m.end - m.start && dst + n <= m.end - m.start
    requires NoNullPage(pt.table) && Walks(pt.table, m.start + src, walk)
    requires MappedRange(pt.table, m.start + src, n) ==>
               var after := Mapped(pt.table, m.start + dst, Behind(pt.table, m.start + src, n));
               Walks(after, m.start + dst, aliasWalk) && Walks(after, m.start + src, againWalk)
    requires Unmapped(pt.table, m.start + dst, n) && NoLockBits(View(m.blocks), dst, n) && pt.budget >= n + 3
    modifies m`blocks, pt
    ensures m.Valid() && pt.table == old(pt.table)
    ensures mapped <==> Mappable(old(View(m.blocks)), old(pt.table), m.start, heap, dst, src, n)
    ensures mapped ==> res.Restored?
    ensures mapped ==> (View(m.blocks) == old(View(m.blocks)) <==> Restorable(old(View(m.blocks)), dst, src, n))
    ensures !mapped ==> m.blocks == old(m.blocks)
  {
    hide View, Tiles, Coalesced, Walks, Mapped, Cut, Aliased, Unaliased, AllAgree, AllState, NoLockBits, Restorable;
    hide HeapBlocks;
    hide NoNullPage, Runs;
    ghost var v, t := View(m.blocks), pt.table;
    var first := new PageGroup(n);
    var second := new PageGroup(n);
    var state;
    mapped, state := MapMemory(m, pt, first, walk, heap, dst, src, n);
    res := Refused;
    if !mapped {
      return;
    }
    ghost var pages := Behind(t, m.start + src, n);
    BehindNoNull(t, m.start + src, n);
    AliasNoNull(t, m.start + dst, pages);
    AliasPages(t, m.start, dst, src, n);
    AliasedAgrees(v, state, dst, src, n);
    SourceState(v, state, dst, src, n);
    res := UnmapMemory(m, pt, second, aliasWalk, againWalk, heap, dst, src, n);
    UnmapMapped(t, m.start + dst, pages);
    FreeState(v, dst, n);
    MapThenUnmapRestoresView(v, state, dst, src, n);
  }

  lemma {:induction false} BehindNoNull(t: Table, va: nat, n: nat)
    requires NoNullPage(t) && MappedRange(t, va, n)
    ensures forall k :: 0 <= k < n ==> Behind(t, va, n)[k] > 0
  {
  }

  lemma {:induction false} FreeState(v: seq<PageView>, dst: nat, n: nat)
    requires dst + n <= |v| && AllState(v, dst, n, STATE_FREE)
    ensures forall k :: dst <= k < dst + n ==> v[k].info.state == STATE_FREE
  {
  }

  lemma {:induction false} SourceState(v: seq<PageView>, state: nat, dst: nat, src: nat, n: nat)
    requires 0 < n && src + n <= |v| && dst + n <= |v| && (src + n <= dst || dst + n <= src)
    requires forall k :: src <= k < src + n ==> IsSource(v[k].info, state)
    ensures Aliased(v, state, dst, src, n)[src].info.state == state
  {
    assert IsSource(v[src].info, state);
  }
}
