/** The permissions in a client's page table while its buffers are shared: setting up a request takes the whole pages of
    the buffer away from the client, cleaning up gives them back, and both undo what they did if they fail half-way.
    The memory blocks say what the permissions should be. */
module IpcProtections {
  import opened Basics
  import opened Bytes
  import opened IpcBuffers
  import opened MemoryBlocks
  import opened BlockUpdates
  import opened BlockManagers
  import opened StateChecks

  const PERM_KERNEL_ONLY := Perm(false, false, false, true, true, false, true) // KernelReadWrite | NotMapped
  const PERM_USER_READ := Perm(true, false, false, true, false, false, false)

  /** What a client keeps of a page that the server may write, or may only read. */
  function SourcePerm(write: bool): Perm {
    if write then PERM_KERNEL_ONLY else PERM_USER_READ
  }

  /** The bits under `IpcLockChangeMask`: all but those that permit execution. */
  function Masked(p: Perm): Perm {
    p.(userExecute := false, kernelExecute := false)
  }

  /** The permissions `t` with `p` for the pages `[lo, hi)`. */
  function SetPages(t: seq<Perm>, lo: nat, hi: nat, p: Perm): (r: seq<Perm>)
    requires lo <= hi <= |t|
    ensures |r| == |t| && forall k :: 0 <= k < |t| ==> r[k] == if lo <= k < hi then p else t[k]
  {
    seq(|t|, k requires 0 <= k < |t| => if lo <= k < hi then p else t[k])
  }

  /** The permissions of a page table's entries, page by page.  Changing them may split a large entry, which takes memory
      that there may be too little of; an undo has that memory already. */
  class Protections {
    var perms: seq<Perm>
    var budget: nat

    method Change(lo: nat, hi: nat, p: Perm) returns (ok: bool)
      requires lo <= hi <= |perms|
      modifies this
      ensures ok <==> old(budget) > 0
      ensures perms == if ok then SetPages(old(perms), lo, hi, p) else old(perms)
      ensures budget + 1 >= old(budget)
    {
      ok := budget > 0;
      if ok {
        perms, budget := SetPages(perms, lo, hi, p), budget - 1;
      }
    }

    method Undo(lo: nat, hi: nat, p: Perm)
      requires lo <= hi <= |perms|
      modifies this`perms
      ensures perms == SetPages(old(perms), lo, hi, p)
    {
      perms := SetPages(perms, lo, hi, p);
    }
  }

  // ---- What the blocks say of the permissions ------------------------------------------------------

  /** Entry `p` is right for a page with properties `i`: what the block says, but that the bits for execution may be lost
      while a lock has changed the permission. */
  predicate Shows(i: PageInfo, p: Perm) {
    if i.ipcLocks == 0 || i.perm == i.origPerm then p == i.perm else Masked(p) == Masked(i.perm)
  }

  predicate Shown(v: seq<PageView>, t: seq<Perm>, lo: nat, hi: nat)
    requires |t| == |v| && lo <= hi <= |v|
  {
    forall k :: lo <= k < hi ==> Shows(v[k].info, t[k])
  }

  /** The whole table is right. */
  predicate Coherent(v: seq<PageView>, t: seq<Perm>) {
    |t| == |v| && Shown(v, t, 0, |v|)
  }

  /** Two right tables for the same blocks are the same where nothing is locked, and elsewhere up to execution. */
  lemma {:induction false} CoherentSame(v: seq<PageView>, t: seq<Perm>, u: seq<Perm>, k: nat)
    requires Coherent(v, t) && Coherent(v, u) && k < |v|
    ensures Masked(t[k]) == Masked(u[k]) && (v[k].info.ipcLocks == 0 ==> t[k] == u[k])
  {
    assert Shows(v[k].info, t[k]) && Shows(v[k].info, u[k]);
  }

  /** A locked page has the permission of a locked page.  One that only the kernel reaches is locked once, because no
      further request can be made of it. */
  predicate LockOk(i: PageInfo) {
    i.ipcLocks > 0 ==>
      && (Masked(i.perm) == PERM_USER_READ || (Masked(i.perm) == PERM_KERNEL_ONLY && i.ipcLocks == 1))
      && i.perm == i.origPerm.IpcLockChange(i.perm)
  }

  predicate LocksOk(v: seq<PageView>) {
    forall k :: 0 <= k < |v| ==> LockOk(v[k].info)
  }

  // ---- Taking the pages away -------------------------------------------------------------------------

  /** What `SetupForIpcClient` asks of a page: a suitable state, and the permission that the server will have. */
  predicate Passes(i: PageInfo, write: bool, stateOk: PageInfo -> bool) {
    && stateOk(i)
    && i.perm.userRead && i.perm.kernelRead && (write ==> i.perm.userWrite && i.perm.kernelWrite)
  }

  /** The permission of a locked page that passes is the one it would be changed to. */
  lemma {:induction false} LockedPasses(i: PageInfo, write: bool, stateOk: PageInfo -> bool)
    requires LockOk(i) && Passes(i, write, stateOk) && i.ipcLocks > 0
    ensures !write && Masked(i.perm) == SourcePerm(write)
  {
  }

  /** Entry `p` of a page that the setup has dealt with. */
  predicate Taken(i: PageInfo, p: Perm, src: Perm) {
    if Masked(i.perm) != src then p == src else Shows(i, p)
  }

  /** The setup has dealt with the pages `[lo, at)`, and the others are right. */
  predicate TakenUpTo(v: seq<PageView>, t: seq<Perm>, lo: nat, at: nat, src: Perm) {
    && |t| == |v| && lo <= at <= |v| && Shown(v, t, 0, lo) && Shown(v, t, at, |v|)
    && forall k :: lo <= k < at ==> Taken(v[k].info, t[k], src)
  }

  lemma {:induction false} TakeNothing(v: seq<PageView>, t: seq<Perm>, lo: nat, src: Perm)
    requires Coherent(v, t) && lo <= |v|
    ensures |t| == |v| && TakenUpTo(v, t, lo, lo, src) && NoneStuck(v, lo, lo, src)
  {
  }

  lemma {:induction false} TakeMore(v: seq<PageView>, t: seq<Perm>, lo: nat, at: nat, next: nat, src: Perm, i: PageInfo)
    requires TakenUpTo(v, t, lo, at, src) && at <= next <= |v| && forall k :: at <= k < next ==> v[k].info == i
    ensures TakenUpTo(v, if Masked(i.perm) != src then SetPages(t, at, next, src) else t, lo, next, src)
  {
  }

  /** A page that the roll back leaves as it is although the setup changed it. */
  predicate Stuck(i: PageInfo, src: Perm) {
    Masked(i.perm) != src && i.ipcLocks > 0 && Masked(i.origPerm) == src
  }

  predicate GivenBack(i: PageInfo, p: Perm, src: Perm) {
    if Stuck(i, src) then p == src else Shows(i, p)
  }

  /** The roll back has dealt with the pages `[lo, at)` out of `[lo, hi)`. */
  predicate GivenBackUpTo(v: seq<PageView>, t: seq<Perm>, lo: nat, at: nat, hi: nat, src: Perm) {
    && |t| == |v| && lo <= at <= hi <= |v| && Shown(v, t, 0, lo) && Shown(v, t, hi, |v|)
    && (forall k :: lo <= k < at ==> GivenBack(v[k].info, t[k], src))
    && (forall k :: at <= k < hi ==> Taken(v[k].info, t[k], src))
  }

  /** Whether the roll back changes the pages of block `b`, of which it has to do with `[lo, hi)`. */
  predicate NeedsUndo(b: Block, lo: nat, hi: nat, src: Perm) {
    && Masked(if b.info.ipcLocks == 0 then b.info.perm else b.info.origPerm) != src
    && (hi <= b.End() || b.addr <= lo || Masked(b.info.perm) != src)
  }

  lemma {:induction false} GiveMore(v: seq<PageView>, t: seq<Perm>, lo: nat, at: nat, next: nat, hi: nat, src: Perm,
                                    i: PageInfo,
                                    undo: bool)
    requires GivenBackUpTo(v, t, lo, at, hi, src) && at <= next <= hi && forall k :: at <= k < next ==> v[k].info == i
    requires undo ==> Masked(if i.ipcLocks == 0 then i.perm else i.origPerm) != src
    requires Masked(i.perm) != src && !Stuck(i, src) ==> undo
    ensures GivenBackUpTo(v, if undo then SetPages(t, at, next, i.perm) else t, lo, next, hi, src)
  {
  }

  /** The table is right after the roll back if and only if no page is stuck. */
  lemma {:induction false} CoherentIffNoneStuck(v: seq<PageView>, t: seq<Perm>, lo: nat, hi: nat, write: bool)
    requires GivenBackUpTo(v, t, lo, hi, hi, SourcePerm(write))
    ensures Coherent(v, t) <==> forall k :: lo <= k < hi ==> !Stuck(v[k].info, SourcePerm(write))
  {
    if k :| lo <= k < hi && Stuck(v[k].info, SourcePerm(write)) {
      assert GivenBack(v[k].info, t[k], SourcePerm(write));
      assert !Shows(v[k].info, t[k]);
    } else {
      forall k | 0 <= k < |v|
        ensures Shows(v[k].info, t[k])
      {
        assert lo <= k < hi ==> GivenBack(v[k].info, t[k], SourcePerm(write));
      }
    }
  }

  /** `CleanupForIpcClientOnServerSetupFailure`. */
  method RollBack(m: BlockManager, hw: Protections, lo: nat, hi: nat, write: bool)
    requires m.Valid() && |View(m.blocks)| == m.end - m.start && m.start <= lo < hi <= m.end
    requires TakenUpTo(View(m.blocks), hw.perms, lo - m.start, hi - m.start, SourcePerm(write))
    modifies hw`perms
    ensures GivenBackUpTo(View(m.blocks), hw.perms, lo - m.start, hi - m.start, hi - m.start, SourcePerm(write))
    ensures Coherent(View(m.blocks), hw.perms) <==>
            forall k :: lo - m.start <= k < hi - m.start ==> !Stuck(View(m.blocks)[k].info, SourcePerm(write))
  {
    hide View, Tiles, Coalesced, AllEdgesOk, AllCountsOk, TakenUpTo, Stuck, GivenBackUpTo, NeedsUndo, Masked;
    hide SourcePerm, IsBoundary;
    ghost var v, from := View(m.blocks), m.start;
    var src := SourcePerm(write);
    var it := m.FindIterator(lo);
    var at := lo;
    BeginGiving(v, hw.perms, lo - from, hi - from, src);
    while true
      invariant it < |m.blocks| && lo <= at < hi && m.blocks[it].Holds(at)
      invariant |hw.perms| == |v| && GivenBackUpTo(v, hw.perms, lo - from, at - from, hi - from, src)
      decreases |m.blocks| - it
    {
      var b := m.blocks[it];
      var next := if hi <= b.End() then hi else b.End();
      SameInfo(m.blocks, from, m.end, it, at, next);
      ghost var t := hw.perms;
      var undo := NeedsUndo(b, lo, hi, src);
      if undo {
        hw.Undo(at - m.start, next - m.start, b.info.perm);
      }
      NotStuck(b, lo, hi, src);
      GiveMore(v, t, lo - from, at - from, next - from, hi - from, src, b.info, undo);
      if hi <= b.End() {
        break;
      }
      EndIsBoundary(m.blocks, from, m.end, it);
      at, it := next, it + 1;
    }
    CoherentIffNoneStuck(v, hw.perms, lo - from, hi - from, write);
  }

  lemma {:induction false} BeginGiving(v: seq<PageView>, t: seq<Perm>, lo: nat, hi: nat, src: Perm)
    requires TakenUpTo(v, t, lo, hi, src)
    ensures |t| == |v| && GivenBackUpTo(v, t, lo, lo, hi, src)
  {
  }

  lemma {:induction false} NotStuck(b: Block, lo: nat, hi: nat, src: Perm)
    ensures Masked(b.info.perm) != src && !Stuck(b.info, src) ==> NeedsUndo(b, lo, hi, src)
    ensures NeedsUndo(b, lo, hi, src) ==> Masked(if b.info.ipcLocks == 0 then b.info.perm else b.info.origPerm) != src
  {
  }

  /** The pages of a block are alike. */
  lemma {:induction false} SameInfo(bs: seq<Block>, from: nat, to: nat, it: nat, lo: nat, hi: nat)
    requires Tiles(bs, from, to) && it < |bs| && |View(bs)| == to - from && bs[it].addr <= lo <= hi <= bs[it].End()
    ensures from <= lo && hi <= to && forall k :: lo - from <= k < hi - from ==> View(bs)[k].info == bs[it].info
  {
    hide View;
    TilesSplit(bs, from, to, it);
    forall k | lo - from <= k < hi - from
      ensures View(bs)[k].info == bs[it].info
    {
      BlockPages(bs, from, to, it, k + from);
    }
  }

  predicate NoneStuck(v: seq<PageView>, lo: nat, hi: nat, src: Perm)
    requires lo <= hi <= |v|
  {
    forall k :: lo <= k < hi ==> !Stuck(v[k].info, src)
  }

  /** No page that passes is stuck. */
  lemma {:induction false} PassingIsNotStuck(v: seq<PageView>, lo: nat, at: nat, next: nat, i: PageInfo, write: bool,
                                             stateOk: PageInfo -> bool)
    requires lo <= at < next <= |v| && LocksOk(v) && NoneStuck(v, lo, at, SourcePerm(write))
    requires Passes(i, write, stateOk) && forall k :: at <= k < next ==> v[k].info == i
    ensures NoneStuck(v, lo, next, SourcePerm(write))
  {
    assert LockOk(v[at].info);
    if i.ipcLocks > 0 {
      LockedPasses(i, write, stateOk);
    }
  }

  /** The guard of `SetupForIpcClient`. */
  method GiveUp(m: BlockManager, hw: Protections, lo: nat, at: nat, write: bool)
    requires m.Valid() && |View(m.blocks)| == m.end - m.start && m.start <= lo <= at <= m.end
    requires TakenUpTo(View(m.blocks), hw.perms, lo - m.start, at - m.start, SourcePerm(write))
    requires NoneStuck(View(m.blocks), lo - m.start, at - m.start, SourcePerm(write))
    modifies hw`perms
    ensures Coherent(View(m.blocks), hw.perms)
  {
    hide View, Tiles, Coalesced;
    if lo < at {
      RollBack(m, hw, lo, at, write);
    }
  }

  /** Blocks that `SetupForIpcClient` counts for one block of its walk: the pages to be locked are `[lo, hi)`. */
  function CountedFor(b: Block, lo: nat, hi: nat): nat {
    if lo < hi && lo < b.End() && b.addr < hi then
      (if b.addr < lo then 1 else 0) + (if hi < b.End() then 1 else 0)
    else 0
  }

  /** The count so far: the start of the pages to be locked has been passed, the end has not. */
  ghost predicate Counted(bs: seq<Block>, to: nat, lo: nat, hi: nat, at: nat, count: nat) {
    count == (if lo < hi && lo < at && !IsBoundary(bs, to, lo) then 1 else 0)
             + (if lo < hi && hi < at && !IsBoundary(bs, to, hi) then 1 else 0)
  }

  lemma {:induction false} CountStep(bs: seq<Block>, from: nat, to: nat, it: nat, lo: nat, hi: nat, count: nat)
    requires Tiles(bs, from, to) && it < |bs|
    requires Counted(bs, to, lo, hi, bs[it].addr, count)
    ensures Counted(bs, to, lo, hi, bs[it].End(), count + CountedFor(bs[it], lo, hi))
  {
    var b := bs[it];
    EndIsBoundary(bs, from, to, it);
    if b.Holds(lo) {
      BoundaryIsStart(bs, from, to, it, lo);
    }
    if b.Holds(hi) {
      BoundaryIsStart(bs, from, to, it, hi);
    }
  }

  lemma {:induction false} EndCounted(bs: seq<Block>, from: nat, to: nat, it: nat, lo: nat, hi: nat, count: nat)
    requires Tiles(bs, from, to) && it < |bs| && Counted(bs, to, lo, hi, bs[it].End(), count) && hi <= bs[it].End()
    ensures count == if lo < hi then CutEnds(bs, to, lo, hi) else 0
  {
    EndIsBoundary(bs, from, to, it);
  }

  lemma {:induction false} BeginCounted(bs: seq<Block>, to: nat, lo: nat, hi: nat, at: nat)
    requires at <= lo
    ensures Counted(bs, to, lo, hi, at, 0)
  {
  }

  datatype ClientResult = Ready(blocksNeeded: nat) | InvalidCurrentMemory | OutOfPageTables

  /** Every page that the buffer touches passes. */
  ghost predicate AllPass(v: seq<PageView>, from: nat, b: Buffer, write: bool, stateOk: PageInfo -> bool) {
    && b.size > 0 && from <= b.AlignedStart() <= b.AlignedEnd() <= from + |v|
    && AllPages(v, b.AlignedStart() - from, b.AlignedEnd() - from, i => Passes(i, write, stateOk))
  }

  /** Takes the pages of `[lo, hi)` that lie in block `it`. */
  method TakeBlock(m: BlockManager, hw: Protections, it: nat, lo: nat, hi: nat, at: nat, write: bool,
                   ghost stateOk: PageInfo -> bool)
    returns (ok: bool, next: nat)
    requires m.Valid() && |View(m.blocks)| == m.end - m.start && it < |m.blocks| && m.start <= lo <= at < hi <= m.end
    requires m.blocks[it].Holds(at) && Passes(m.blocks[it].info, write, stateOk) && LocksOk(View(m.blocks))
    requires TakenUpTo(View(m.blocks), hw.perms, lo - m.start, at - m.start, SourcePerm(write))
    requires NoneStuck(View(m.blocks), lo - m.start, at - m.start, SourcePerm(write))
    modifies hw
    ensures next == Min(m.blocks[it].End(), hi) && lo < next
    ensures |hw.perms| == |View(m.blocks)| && hw.budget + 1 >= old(hw.budget)
    ensures !ok ==> hw.perms == old(hw.perms) && old(hw.budget) == 0
    ensures ok ==> TakenUpTo(View(m.blocks), hw.perms, lo - m.start, next - m.start, SourcePerm(write))
    ensures ok ==> NoneStuck(View(m.blocks), lo - m.start, next - m.start, SourcePerm(write))
  {
    hide View, Tiles, Coalesced, AllEdgesOk, AllCountsOk, Masked, SourcePerm, LocksOk, NoneStuck, Passes;
    ghost var v := View(m.blocks);
    var info, src := m.blocks[it].info, SourcePerm(write);
    next := Min(m.blocks[it].End(), hi);
    SameInfo(m.blocks, m.start, m.end, it, at, next);
    PassingIsNotStuck(v, lo - m.start, at - m.start, next - m.start, info, write, stateOk);
    TakeMore(v, hw.perms, lo - m.start, at - m.start, next - m.start, src, info);
    ok := true;
    if Masked(info.perm) != src {
      ok := hw.Change(at - m.start, next - m.start, src);
    }
  }

  /** `SetupForIpcClient`: takes the buffer's whole pages away from the client and counts the blocks that locking them
      will need; if a page does not pass or a change fails, every page has its permission back. */
  method SetupForIpcClient(m: BlockManager, hw: Protections, b: Buffer, write: bool, stateOk: PageInfo -> bool)
    returns (res: ClientResult)
    requires m.Valid() && |View(m.blocks)| == m.end - m.start && b.size > 0
    requires Coherent(View(m.blocks), hw.perms) && LocksOk(View(m.blocks))
    modifies hw
    ensures !res.Ready? ==> Coherent(View(m.blocks), hw.perms)
    ensures res.Ready? ==>
              && InSpace(b, m.start, m.end) && m.start <= b.MapStart() && AllPass(View(m.blocks), m.start, b, write, stateOk)
              && TakenUpTo(View(m.blocks), hw.perms, b.MapStart() - m.start, b.MapStart() + b.NumWhole() - m.start, SourcePerm(write))
              && res.blocksNeeded == if b.NumWhole() > 0 then CutEnds(m.blocks, m.end, b.MapStart(), b.MapEnd()) else 0
    ensures res.InvalidCurrentMemory? ==> !InSpace(b, m.start, m.end) || !AllPass(View(m.blocks), m.start, b, write, stateOk)
    ensures res.OutOfPageTables? ==> old(hw.budget) < |m.blocks|
  {
    hide View, Tiles, Coalesced, AllEdgesOk, AllCountsOk, TakenUpTo, Coherent, Masked, SourcePerm, IsBoundary;
    hide Counted, AllPages, LocksOk, NoneStuck, CountedFor, Passes, CutEnds, PageDown, PageUp;
    if !InSpace(b, m.start, m.end) {
      return InvalidCurrentMemory;
    }
    SpaceExtents(b, m.start, m.end);
    ghost var v, from, bs := View(m.blocks), m.start, m.blocks;
    var lo, hi := b.MapStart(), b.MapEnd();
    var src, at: nat, count: nat := SourcePerm(write), lo, 0;
    ghost var test := i => Passes(i, write, stateOk);
    var it := m.FindIterator(b.AlignedStart());
    TakeNothing(v, hw.perms, lo - from, src);
    BeginCounted(bs, m.end, lo, hi, bs[it].addr);
    while true
      invariant it < |bs| && m.blocks == bs && bs[it].addr < b.AlignedEnd() && b.AlignedStart() < bs[it].End()
      invariant bs[it].addr < bs[it].End()
      invariant bs[it].addr <= b.AlignedStart() || AllPages(v, b.AlignedStart() - from, bs[it].addr - from, test)
      invariant at == if lo < hi && lo < bs[it].addr then Min(bs[it].addr, hi) else lo
      invariant |hw.perms| == |v| && TakenUpTo(v, hw.perms, lo - from, at - from, src)
      invariant NoneStuck(v, lo - from, at - from, src)
      invariant Counted(bs, m.end, lo, hi, bs[it].addr, count)
      invariant hw.budget + it >= old(hw.budget)
      decreases |bs| - it
    {
      var block := m.blocks[it];
      OneMoreBlock(bs, from, m.end, it, b.AlignedStart(), b.AlignedEnd(), test);
      if !Passes(block.info, write, stateOk) {
        GiveUp(m, hw, lo, at, write);
        return InvalidCurrentMemory;
      }
      CountStep(bs, from, m.end, it, lo, hi, count);
      count := count + CountedFor(block, lo, hi);
      if lo < hi && lo < block.End() && block.addr < hi {
        var ok, next := TakeBlock(m, hw, it, lo, hi, at, write, stateOk);
        if !ok {
          GiveUp(m, hw, lo, at, write);
          return OutOfPageTables;
        }
        at := next;
      }
      if b.AlignedEnd() <= block.End() {
        break;
      }
      EndIsBoundary(bs, from, m.end, it);
      it := it + 1;
    }
    EndCounted(bs, from, m.end, it, lo, hi, count);
    return Ready(count);
  }

  /** A table from which pages were taken is right if and only if there was nothing to take. */
  lemma {:induction false} TakenIsCoherentIff(v: seq<PageView>, t: seq<Perm>, lo: nat, hi: nat, write: bool)
    requires TakenUpTo(v, t, lo, hi, SourcePerm(write))
    ensures Coherent(v, t) <==> forall k :: lo <= k < hi ==> Masked(v[k].info.perm) == SourcePerm(write)
  {
    if k :| lo <= k < hi && Masked(v[k].info.perm) != SourcePerm(write) {
      assert Taken(v[k].info, t[k], SourcePerm(write));
      assert !Shows(v[k].info, t[k]);
    } else {
      forall k | 0 <= k < |v|
        ensures Shows(v[k].info, t[k])
      {
        assert lo <= k < hi ==> Taken(v[k].info, t[k], SourcePerm(write));
      }
    }
  }

  /** The lock that `SetupForIpc` puts on the whole pages. */
  function LockOp(write: bool): Op {
    UpdateLock(LockForIpc, SourcePerm(write))
  }

  /** One page: locking it makes its entry right again. */
  lemma {:induction false} LockedPageShows(i: PageInfo, p: Perm, write: bool, stateOk: PageInfo -> bool)
    requires LockOk(i) && Passes(i, write, stateOk) && Taken(i, p, SourcePerm(write))
    ensures Shows(i.IpcLocked(SourcePerm(write)), p) && LockOk(i.IpcLocked(SourcePerm(write)))
  {
    if i.ipcLocks > 0 {
      LockedPasses(i, write, stateOk);
    }
  }

  /** With the lock the blocks agree with the table again. */
  lemma {:induction false} LockCoherent(v: seq<PageView>, t: seq<Perm>, lo: nat, hi: nat, write: bool,
                                        stateOk: PageInfo -> bool)
    requires lo <= hi <= |v| && RangeFits(LockOp(write), v, lo, hi) && LocksOk(v)
    requires TakenUpTo(v, t, lo, hi, SourcePerm(write)) && AllPages(v, lo, hi, i => Passes(i, write, stateOk))
    ensures Coherent(ApplyRange(LockOp(write), v, lo, hi), t) && LocksOk(ApplyRange(LockOp(write), v, lo, hi))
  {
    hide Shows, LockOk, Passes, Masked;
    var w := ApplyRange(LockOp(write), v, lo, hi);
    forall k | 0 <= k < |v|
      ensures Shows(w[k].info, t[k]) && LockOk(w[k].info)
    {
      assert LockOk(v[k].info);
      if lo <= k < hi {
        assert v[k].Fits(LockOp(write), k == lo, k == hi - 1);
        LockedPageShows(v[k].info, t[k], write, stateOk);
      }
    }
  }
}
