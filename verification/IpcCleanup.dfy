/** `CleanupForIpcClient`: the permissions of the pages that only this request had locked are given back, runs of alike
    blocks in one operation each, and the pages are unlocked. */
module IpcCleanups {
  import opened MemoryBlocks
  import opened BlockUpdates
  import opened BlockManagers
  import opened Bytes
  import opened IpcBuffers
  import opened IpcProtections

  predicate PermEq(i: PageInfo) {
    i.perm == i.origPerm
  }

  /** This request's lock is the last one on the page, and it had changed the permission. */
  predicate NeedsSet(i: PageInfo) {
    !PermEq(i) && i.ipcLocks == 1
  }

  /** What two blocks must have in common to be dealt with in one operation. */
  predicate Alike(i: PageInfo, j: PageInfo) {
    PermEq(i) == PermEq(j) && NeedsSet(i) == NeedsSet(j) && i.origPerm == j.origPerm
  }

  /** A page of the request: it is locked, with the permission that the request's own lock asked for. */
  predicate Own(i: PageInfo, write: bool) {
    i.ipcLocks > 0 && Masked(i.perm) == SourcePerm(write) && LockOk(i)
  }

  predicate OwnLock(v: seq<PageView>, lo: nat, hi: nat, write: bool)
    requires lo <= hi <= |v|
  {
    forall k :: lo <= k < hi ==> Own(v[k].info, write)
  }

  /** Alike pages of one request have the same permission. */
  lemma {:induction false} AlikeSamePerm(i: PageInfo, j: PageInfo, write: bool)
    requires Own(i, write) && Own(j, write) && Alike(i, j)
    ensures i.perm == j.perm
  {
  }

  predicate Group(v: seq<PageView>, lo: nat, hi: nat, i: PageInfo)
    requires lo <= hi <= |v|
  {
    forall k :: lo <= k < hi ==> Alike(v[k].info, i)
  }

  /** Entry `p` of a page that the cleanup has dealt with. */
  predicate Freed(i: PageInfo, p: Perm) {
    if NeedsSet(i) then p == i.origPerm else Shows(i, p)
  }

  predicate AllFreed(v: seq<PageView>, t: seq<Perm>, lo: nat, hi: nat)
    requires |t| == |v| && lo <= hi <= |v|
  {
    forall k :: lo <= k < hi ==> Freed(v[k].info, t[k])
  }

  /** The pages `[lo, hi)` have been dealt with, and the others are right. */
  predicate FreedBetween(v: seq<PageView>, t: seq<Perm>, lo: nat, hi: nat) {
    |t| == |v| && lo <= hi <= |v| && Shown(v, t, 0, lo) && AllFreed(v, t, lo, hi) && Shown(v, t, hi, |v|)
  }

  lemma {:induction false} FreeNothing(v: seq<PageView>, t: seq<Perm>, at: nat)
    requires at <= |v|
    ensures Coherent(v, t) <==> FreedBetween(v, t, at, at)
    ensures Coherent(v, t) ==> |t| == |v|
  {
    if FreedBetween(v, t, at, at) {
      forall k | 0 <= k < |v|
        ensures Shows(v[k].info, t[k])
      {
      }
    }
  }

  /** The permission that a group gets: its original one back, or the one it has. */
  function FreedPerm(i: PageInfo): Perm {
    if NeedsSet(i) then i.origPerm else i.perm
  }

  /** One operation for a group of alike pages. */
  lemma {:induction false} FreeGroup(v: seq<PageView>, t: seq<Perm>, lo: nat, at: nat, next: nat, i: PageInfo,
                                     write: bool, change: bool)
    requires FreedBetween(v, t, lo, at) && at <= next <= |v| && Group(v, at, next, i)
    requires OwnLock(v, at, next, write) && Own(i, write)
    requires NeedsSet(i) ==> change
    ensures FreedBetween(v, if change then SetPages(t, at, next, FreedPerm(i)) else t, lo, next)
  {
    hide Masked, LockOk, SourcePerm;
    var u := if change then SetPages(t, at, next, FreedPerm(i)) else t;
    forall k | at <= k < next
      ensures Freed(v[k].info, u[k])
    {
      assert Alike(v[k].info, i) && Own(v[k].info, write);
      AlikeSamePerm(v[k].info, i, write);
    }
  }

  /** Undoing it: the group has the permission again that its blocks say. */
  lemma {:induction false} LockGroup(v: seq<PageView>, t: seq<Perm>, at: nat, next: nat, hi: nat, i: PageInfo,
                                     write: bool, undo: bool)
    requires FreedBetween(v, t, at, hi) && at <= next <= hi && Group(v, at, next, i)
    requires OwnLock(v, at, next, write) && Own(i, write)
    requires NeedsSet(i) ==> undo
    ensures FreedBetween(v, if undo then SetPages(t, at, next, i.perm) else t, next, hi)
  {
    hide Masked, LockOk, SourcePerm;
    var u := if undo then SetPages(t, at, next, i.perm) else t;
    forall k | 0 <= k < next
      ensures Shows(v[k].info, u[k])
    {
      if at <= k {
        assert Alike(v[k].info, i) && Own(v[k].info, write) && Freed(v[k].info, t[k]);
        AlikeSamePerm(v[k].info, i, write);
      } else {
        assert Shows(v[k].info, t[k]);
      }
    }
  }

  lemma {:induction false} GroupOne(bs: seq<Block>, from: nat, to: nat, it: nat)
    requires Tiles(bs, from, to) && it < |bs| && |View(bs)| == to - from
    ensures from <= bs[it].addr < bs[it].End() <= to && Group(View(bs), bs[it].addr - from, bs[it].End() - from, bs[it].info)
  {
    hide View;
    TilesSplit(bs, from, to, it);
    SameInfo(bs, from, to, it, bs[it].addr, bs[it].End());
  }

  lemma {:induction false} GroupMore(v: seq<PageView>, lo: nat, mid: nat, hi: nat, i: PageInfo, j: PageInfo)
    requires lo <= mid <= hi <= |v| && Group(v, lo, mid, i) && Group(v, mid, hi, j) && Alike(i, j)
    ensures Group(v, lo, hi, j)
  {
    forall k | lo <= k < hi
      ensures Alike(v[k].info, j)
    {
      assert k < mid ==> Alike(v[k].info, i);
    }
  }

  /** A block that starts before a boundary ends there at the latest. */
  lemma {:induction false} EndsByBoundary(bs: seq<Block>, from: nat, to: nat, it: nat, hi: nat)
    requires Tiles(bs, from, to) && it < |bs| && bs[it].addr < hi && IsBoundary(bs, to, hi)
    ensures bs[it].End() <= hi
  {
    if hi < bs[it].End() {
      InsideIsNoBoundary(bs, from, to, it, hi);
    }
  }

  /** The pages `[lo, hi)` of a request that is to be cleaned up. */
  ghost predicate Locked(m: BlockManager, lo: nat, hi: nat, write: bool)
    reads m
  {
    && m.Valid() && |View(m.blocks)| == m.end - m.start && m.start <= lo < hi <= m.end
    && IsBoundary(m.blocks, m.end, lo) && IsBoundary(m.blocks, m.end, hi)
    && OwnLock(View(m.blocks), lo - m.start, hi - m.start, write)
  }

  /** Block `it` of the range: where it lies, and that its pages are the request's own. */
  lemma {:induction false} BlockOfRange(m: BlockManager, lo: nat, hi: nat, write: bool, it: nat)
    requires Locked(m, lo, hi, write) && it < |m.blocks| && lo <= m.blocks[it].addr < hi
    ensures m.blocks[it].addr < m.blocks[it].End() <= hi && Own(m.blocks[it].info, write)
    ensures Group(View(m.blocks), m.blocks[it].addr - m.start, m.blocks[it].End() - m.start, m.blocks[it].info)
    ensures m.blocks[it].End() < hi ==> it + 1 < |m.blocks| && m.blocks[it + 1].addr == m.blocks[it].End()
  {
    hide View, Own, Tiles, Group;
    GroupOne(m.blocks, m.start, m.end, it);
    EndsByBoundary(m.blocks, m.start, m.end, it, hi);
    EndIsBoundary(m.blocks, m.start, m.end, it);
    SameInfo(m.blocks, m.start, m.end, it, m.blocks[it].addr, m.blocks[it].End());
    assert Own(View(m.blocks)[m.blocks[it].addr - m.start].info, write);
  }

  lemma {:induction false} FirstOfRange(m: BlockManager, lo: nat, hi: nat, write: bool, it: nat)
    requires Locked(m, lo, hi, write) && it < |m.blocks| && m.blocks[it].Holds(lo)
    ensures m.blocks[it].addr == lo
  {
    BoundaryIsStart(m.blocks, m.start, m.end, it, lo);
  }

  /** A part of a range that ends where a block starts. */
  lemma {:induction false} PartOfRange(m: BlockManager, lo: nat, at: nat, hi: nat, write: bool)
    requires Locked(m, lo, hi, write) && lo < at <= hi && IsBoundary(m.blocks, m.end, at)
    ensures Locked(m, lo, at, write)
  {
  }

  lemma {:induction false} OwnPart(v: seq<PageView>, lo: nat, a: nat, b: nat, hi: nat, write: bool)
    requires lo <= a <= b <= hi <= |v| && OwnLock(v, lo, hi, write)
    ensures OwnLock(v, a, b, write)
  {
  }

  /** The locks that end or begin after a block, counted as the source does: locks of the block that the next block does not
      share. */
  function LockCount(bs: seq<Block>, it: nat): int
    requires it < |bs|
  {
    bs[it].info.ipcLocks + if it + 1 < |bs| then bs[it + 1].ipcStarts - bs[it + 1].info.ipcLocks else 0
  }

  predicate StartsHere(b: Block) {
    b.ipcStarts == 1 && !b.disable.locked
  }

  /** The first loop of `CleanupForIpcClient`; if a change fails, the pages before `at` have been dealt with. */
  method FreePages(m: BlockManager, hw: Protections, lo: nat, hi: nat, ghost write: bool) returns (ok: bool, at: nat)
    requires Locked(m, lo, hi, write) && Coherent(View(m.blocks), hw.perms)
    modifies hw
    ensures lo <= at < hi && IsBoundary(m.blocks, m.end, at)
    ensures FreedBetween(View(m.blocks), hw.perms, lo - m.start, if ok then hi - m.start else at - m.start)
    ensures !ok ==> old(hw.budget) < |m.blocks|
  {
    hide View, Tiles, Coalesced, AllEdgesOk, AllCountsOk, Coherent, FreedBetween, OwnLock, Own, Group, IsBoundary;
    hide Alike, PermEq;
    ghost var v, from := View(m.blocks), m.start;
    var it := m.FindIterator(lo);
    FirstOfRange(m, lo, hi, write, it);
    BlockOfRange(m, lo, hi, write, it);
    FreeNothing(v, hw.perms, lo - from);
    var cur, end, first := m.blocks[it].info, m.blocks[it].End(), StartsHere(m.blocks[it]);
    at := lo;
    while end < hi
      invariant it < |m.blocks| && cur == m.blocks[it].info && end == m.blocks[it].End()
      invariant lo <= at <= m.blocks[it].addr < end <= hi && IsBoundary(m.blocks, m.end, at)
      invariant Own(cur, write) && Group(v, at - from, end - from, cur)
      invariant |hw.perms| == |v| && FreedBetween(v, hw.perms, lo - from, at - from)
      invariant hw.budget + it >= old(hw.budget)
    {
      BlockOfRange(m, lo, hi, write, it);
      BlockOfRange(m, lo, hi, write, it + 1);
      var next := m.blocks[it + 1];
      if Alike(cur, next.info) {
        GroupMore(v, at - from, end - from, next.End() - from, cur, next.info);
      } else {
        ok := FreeOne(m, hw, lo, at, end, hi, cur, (NeedsSet(cur) || first) && !PermEq(cur), write);
        if !ok {
          return;
        }
        EndIsBoundary(m.blocks, from, m.end, it);
        at, first := next.addr, false;
      }
      cur, end, it := next.info, next.End(), it + 1;
    }
    var change := (first || NeedsSet(cur) || LockCount(m.blocks, it) == 1) && !PermEq(cur);
    ok := FreeOne(m, hw, lo, at, end, hi, cur, change, write);
  }

  /** One operation of that loop. */
  method FreeOne(m: BlockManager, hw: Protections, ghost lo: nat, at: nat, end: nat, ghost hi: nat, cur: PageInfo,
                 change: bool, ghost write: bool)
    returns (ok: bool)
    requires Locked(m, lo, hi, write) && lo <= at < end <= hi && Own(cur, write)
    requires Group(View(m.blocks), at - m.start, end - m.start, cur) && (NeedsSet(cur) ==> change)
    requires FreedBetween(View(m.blocks), hw.perms, lo - m.start, at - m.start)
    modifies hw
    ensures |hw.perms| == |View(m.blocks)| && hw.budget + 1 >= old(hw.budget)
    ensures FreedBetween(View(m.blocks), hw.perms, lo - m.start, if ok then end - m.start else at - m.start)
    ensures !ok ==> old(hw.budget) == 0
  {
    hide View, Tiles, Coalesced, AllEdgesOk, AllCountsOk, OwnLock, Own, Group, IsBoundary, NeedsSet;
    ghost var v := View(m.blocks);
    OwnPart(v, lo - m.start, at - m.start, end - m.start, hi - m.start, write);
    FreeGroup(v, hw.perms, lo - m.start, at - m.start, end - m.start, cur, write, change);
    ok := true;
    if change {
      ok := hw.Change(at - m.start, end - m.start, FreedPerm(cur));
    }
  }

  /** The guard of `CleanupForIpcClient`: what was given back before `stop` is taken away again. */
  method LockPages(m: BlockManager, hw: Protections, lo: nat, stop: nat, ghost write: bool)
    requires Locked(m, lo, stop, write) && FreedBetween(View(m.blocks), hw.perms, lo - m.start, stop - m.start)
    modifies hw`perms
    ensures Coherent(View(m.blocks), hw.perms)
  {
    hide View, Tiles, Coalesced, AllEdgesOk, AllCountsOk, Coherent, FreedBetween, OwnLock, Own, Group, IsBoundary;
    hide Alike, PermEq;
    ghost var v, from := View(m.blocks), m.start;
    var it := m.FindIterator(lo);
    FirstOfRange(m, lo, stop, write, it);
    BlockOfRange(m, lo, stop, write, it);
    var at, cur, end, first := lo, m.blocks[it].info, m.blocks[it].End(), StartsHere(m.blocks[it]);
    while end < stop
      invariant it < |m.blocks| && cur == m.blocks[it].info && end == m.blocks[it].End()
      invariant lo <= at <= m.blocks[it].addr < end <= stop
      invariant Own(cur, write) && Group(v, at - from, end - from, cur)
      invariant FreedBetween(v, hw.perms, at - from, stop - from)
    {
      BlockOfRange(m, lo, stop, write, it);
      BlockOfRange(m, lo, stop, write, it + 1);
      var next := m.blocks[it + 1];
      if Alike(cur, next.info) {
        GroupMore(v, at - from, end - from, next.End() - from, cur, next.info);
      } else {
        LockOne(m, hw, lo, at, end, stop, cur, (NeedsSet(cur) || first) && !PermEq(cur), write);
        at, first := next.addr, false;
      }
      cur, end, it := next.info, next.End(), it + 1;
    }
    LockOne(m, hw, lo, at, end, stop, cur, (first || NeedsSet(cur)) && !PermEq(cur), write);
    FreeNothing(v, hw.perms, stop - from);
  }

  method LockOne(m: BlockManager, hw: Protections, ghost lo: nat, at: nat, end: nat, ghost stop: nat, cur: PageInfo,
                 undo: bool, ghost write: bool)
    requires Locked(m, lo, stop, write) && lo <= at < end <= stop && Own(cur, write)
    requires Group(View(m.blocks), at - m.start, end - m.start, cur) && (NeedsSet(cur) ==> undo)
    requires FreedBetween(View(m.blocks), hw.perms, at - m.start, stop - m.start)
    modifies hw`perms
    ensures FreedBetween(View(m.blocks), hw.perms, end - m.start, stop - m.start)
  {
    hide View, Tiles, Coalesced, AllEdgesOk, AllCountsOk, OwnLock, Own, Group, IsBoundary, NeedsSet;
    ghost var v := View(m.blocks);
    OwnPart(v, lo - m.start, at - m.start, end - m.start, stop - m.start, write);
    LockGroup(v, hw.perms, at - m.start, end - m.start, stop - m.start, cur, write, undo);
    if undo {
      hw.Undo(at - m.start, end - m.start, cur.perm);
    }
  }

  const UNLOCK_OP := Op.UpdateLock(UnlockForIpc, PERM_NONE)

  /** Unlocking makes the blocks agree with the table again. */
  lemma {:induction false} UnlockCoherent(v: seq<PageView>, t: seq<Perm>, lo: nat, hi: nat)
    requires FreedBetween(v, t, lo, hi) && LocksOk(v) && RangeFits(UNLOCK_OP, v, lo, hi)
    ensures Coherent(ApplyRange(UNLOCK_OP, v, lo, hi), t) && LocksOk(ApplyRange(UNLOCK_OP, v, lo, hi))
  {
    hide Masked;
    var w := ApplyRange(UNLOCK_OP, v, lo, hi);
    forall k | 0 <= k < |v|
      ensures Shows(w[k].info, t[k]) && LockOk(w[k].info)
    {
      assert LockOk(v[k].info);
      if lo <= k < hi {
        assert v[k].Fits(UNLOCK_OP, k == lo, k == hi - 1) && Freed(v[k].info, t[k]);
      } else {
        assert Shows(v[k].info, t[k]);
      }
    }
  }

  /** Cleans up the whole pages `[lo, hi)` of a request: success or not, the permissions in the table are what the blocks
      say.  Failing changes no block. */
  method CleanupPages(m: BlockManager, hw: Protections, lo: nat, hi: nat, ghost write: bool) returns (ok: bool)
    requires Locked(m, lo, hi, write) && Coherent(View(m.blocks), hw.perms) && LocksOk(View(m.blocks))
    requires RangeFits(UNLOCK_OP, View(m.blocks), lo - m.start, hi - m.start)
    modifies m`blocks, hw
    ensures m.Valid() && Coherent(View(m.blocks), hw.perms) && LocksOk(View(m.blocks))
    ensures ok ==> View(m.blocks) == ApplyRange(UNLOCK_OP, old(View(m.blocks)), lo - m.start, hi - m.start)
    ensures !ok ==> m.blocks == old(m.blocks) && old(hw.budget) < |m.blocks|
  {
    hide View, Tiles, Coalesced, AllEdgesOk, AllCountsOk, Coherent, FreedBetween, OwnLock, IsBoundary, RangeFits;
    hide ApplyRange, LocksOk;
    var at;
    ok, at := FreePages(m, hw, lo, hi, write);
    if !ok {
      if lo < at {
        PartOfRange(m, lo, at, hi, write);
        LockPages(m, hw, lo, at, write);
      } else {
        FreeNothing(View(m.blocks), hw.perms, lo - m.start);
      }
      return;
    }
    UnlockCoherent(View(m.blocks), hw.perms, lo - m.start, hi - m.start);
    NoBlockNeeded(m, lo, hi, write);
    var alloc := new UpdateAllocator(0);
    m.UpdateLock(alloc, lo, hi - lo, UnlockForIpc, PERM_NONE);
  }

  datatype ClientCleanup = Done | InvalidCurrentMemory | InvalidCombination | NoTableMemory

  /** `CleanupForIpcClient`; `ipcState` says whether the memory state is one of the three for IPC.  A buffer without whole
      pages needs nothing. */
  method CleanupForIpcClient(m: BlockManager, hw: Protections, b: Buffer, ipcState: bool, ghost write: bool)
    returns (res: ClientCleanup)
    requires m.Valid() && |View(m.blocks)| == m.end - m.start && b.size > 0
    requires Coherent(View(m.blocks), hw.perms) && LocksOk(View(m.blocks))
    requires InSpace(b, m.start, m.end) && b.NumWhole() > 0 && ipcState ==>
               && Locked(m, b.MapStart(), b.MapEnd(), write)
               && RangeFits(UNLOCK_OP, View(m.blocks), b.MapStart() - m.start, b.MapEnd() - m.start)
    modifies m`blocks, hw
    ensures m.Valid() && Coherent(View(m.blocks), hw.perms) && LocksOk(View(m.blocks))
    ensures if !InSpace(b, m.start, m.end) then res == ClientCleanup.InvalidCurrentMemory
            else if b.NumWhole() == 0 then res == Done && m.blocks == old(m.blocks)
            else if !ipcState then res == InvalidCombination
            else
              || (res == Done
                  && View(m.blocks)
                     == ApplyRange(UNLOCK_OP, old(View(m.blocks)), b.MapStart() - m.start, b.MapEnd() - m.start))
              || (res == NoTableMemory && old(hw.budget) < |m.blocks|)
    ensures res != Done ==> m.blocks == old(m.blocks)
  {
    hide View, Tiles, Coalesced, AllEdgesOk, AllCountsOk, Coherent, LocksOk, RangeFits, ApplyRange, OwnLock, IsBoundary;
    hide PageDown, PageUp;
    if !InSpace(b, m.start, m.end) {
      return ClientCleanup.InvalidCurrentMemory;
    }
    if b.NumWhole() == 0 {
      return Done;
    }
    if !ipcState {
      return InvalidCombination;
    }
    var ok := CleanupPages(m, hw, b.MapStart(), b.MapEnd(), write);
    return if ok then Done else NoTableMemory;
  }

  lemma {:induction false} NoBlockNeeded(m: BlockManager, lo: nat, hi: nat, write: bool)
    requires Locked(m, lo, hi, write)
    ensures BlocksNeeded(m.blocks, m.start, m.end, UNLOCK_OP, lo, hi - lo) == 0
  {
  }

  // ---- A request's pages stay its own ----------------------------------------------------------------

  /** The lock of `SetupForIpc` makes the pages the request's own. */
  lemma {:induction false} LockMakesOwn(v: seq<PageView>, lo: nat, hi: nat, write: bool, stateOk: PageInfo -> bool)
    requires lo <= hi <= |v| && RangeFits(LockOp(write), v, lo, hi) && LocksOk(v)
    requires forall k :: lo <= k < hi ==> Passes(v[k].info, write, stateOk)
    ensures OwnLock(ApplyRange(LockOp(write), v, lo, hi), lo, hi, write)
  {
    var w := ApplyRange(LockOp(write), v, lo, hi);
    forall k | lo <= k < hi
      ensures Own(w[k].info, write)
    {
      assert LockOk(v[k].info) && v[k].Fits(LockOp(write), k == lo, k == hi - 1);
      if v[k].info.ipcLocks > 0 {
        LockedPasses(v[k].info, write, stateOk);
      }
    }
  }

  /** Another request's lock leaves them so. */
  lemma {:induction false} OtherLockKeepsOwn(v: seq<PageView>, lo: nat, hi: nat, write: bool, a: nat, b: nat, write': bool,
                                             stateOk: PageInfo -> bool)
    requires lo <= hi <= |v| && a <= b <= |v| && OwnLock(v, lo, hi, write)
    requires RangeFits(LockOp(write'), v, a, b) && forall k :: a <= k < b ==> Passes(v[k].info, write', stateOk)
    ensures OwnLock(ApplyRange(LockOp(write'), v, a, b), lo, hi, write)
  {
    var w := ApplyRange(LockOp(write'), v, a, b);
    forall k | lo <= k < hi
      ensures Own(w[k].info, write)
    {
      assert Own(v[k].info, write);
      if a <= k < b {
        assert v[k].Fits(LockOp(write'), k == a, k == b - 1);
        LockedPasses(v[k].info, write', stateOk);
      }
    }
  }

  /** So does another request's unlock: a page of both is locked at least twice. */
  lemma {:induction false} OtherUnlockKeepsOwn(v: seq<PageView>, lo: nat, hi: nat, write: bool, a: nat, b: nat)
    requires lo <= hi <= |v| && a <= b <= |v| && OwnLock(v, lo, hi, write) && RangeFits(UNLOCK_OP, v, a, b)
    requires forall k :: lo <= k < hi && a <= k < b ==> v[k].info.ipcLocks >= 2
    ensures OwnLock(ApplyRange(UNLOCK_OP, v, a, b), lo, hi, write)
  {
    var w := ApplyRange(UNLOCK_OP, v, a, b);
    forall k | lo <= k < hi
      ensures Own(w[k].info, write)
    {
      assert Own(v[k].info, write);
      assert a <= k < b ==> v[k].Fits(UNLOCK_OP, k == a, k == b - 1);
    }
  }
}
