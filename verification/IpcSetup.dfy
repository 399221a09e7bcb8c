/** `SetupForIpc`: the client's pages are taken away, the server gets its view, and the client's pages are locked. */
module IpcSetups {
  import opened Bytes
  import opened MemoryBlocks
  import opened BlockUpdates
  import opened BlockManagers
  import opened StateChecks
  import opened IpcBuffers
  import opened PageTables
  import opened IpcMappings
  import opened IpcProtections

  datatype SetupResult =
    | Shared(outAddr: nat)
    | ClientRefused       // a page does not qualify, or its permission cannot be changed
    | NoBlocks            // the slab has too few blocks for the lock
    | ServerFailed(why: Outcome)

  /** The server's permission. */
  function TestPerm(write: bool): Perm {
    if write then PERM_USER_READ_WRITE else PERM_USER_READ
  }

  /** One side of the request: the blocks of a client and the permissions in its table agree, and a lock of the buffer's
      whole pages wraps no counter. */
  ghost predicate ClientOk(m: BlockManager, hw: Protections, b: Buffer, write: bool)
    reads m, hw
  {
    && m.Valid() && |View(m.blocks)| == m.end - m.start && b.size > 0
    && Coherent(View(m.blocks), hw.perms) && LocksOk(View(m.blocks)) && NoWrap(View(m.blocks), m.start, b, write)
  }

  /** Locking the whole pages of a buffer in the space wraps no counter. */
  predicate NoWrap(v: seq<PageView>, start: nat, b: Buffer, write: bool) {
    InSpace(b, start, start + |v|) && start <= b.MapStart() && b.MapStart() + b.NumWhole() <= start + |v| ==>
      RangeFits(LockOp(write), v, b.MapStart() - start, b.MapStart() + b.NumWhole() - start)
  }

  /** Every whole page already has the permission it would be changed to. */
  ghost predicate NothingToTake(v: seq<PageView>, from: nat, b: Buffer, write: bool)
    requires from <= b.MapStart() && b.MapStart() + b.NumWhole() <= from + |v|
  {
    forall k :: b.MapStart() - from <= k < b.MapStart() + b.NumWhole() - from ==> Masked(v[k].info.perm) == SourcePerm(write)
  }

  /** The lock at the end. */
  method LockWholePages(m: BlockManager, ghost t: seq<Perm>, b: Buffer, write: bool, ghost stateOk: PageInfo -> bool,
                        numBlocks: nat)
    requires m.Valid() && |View(m.blocks)| == m.end - m.start && InSpace(b, m.start, m.end) && m.start <= b.MapStart()
    requires LocksOk(View(m.blocks)) && AllPass(View(m.blocks), m.start, b, write, stateOk)
    requires b.MapStart() + b.NumWhole() <= m.end
    requires RangeFits(LockOp(write), View(m.blocks), b.MapStart() - m.start, b.MapStart() + b.NumWhole() - m.start)
    requires TakenUpTo(View(m.blocks), t, b.MapStart() - m.start, b.MapStart() + b.NumWhole() - m.start, SourcePerm(write))
    requires numBlocks == if b.NumWhole() > 0 then CutEnds(m.blocks, m.end, b.MapStart(), b.MapEnd()) else 0
    modifies m`blocks
    ensures m.Valid() && Coherent(View(m.blocks), t) && LocksOk(View(m.blocks))
    ensures View(m.blocks)
            == ApplyRange(LockOp(write), old(View(m.blocks)), b.MapStart() - m.start, b.MapStart() + b.NumWhole() - m.start)
  {
    hide View, Tiles, Coalesced, AllEdgesOk, AllCountsOk, RangeFits, ApplyRange, TakenUpTo, Coherent, LocksOk;
    hide IsBoundary, PageDown, PageUp;
    ghost var v, lo, hi := View(m.blocks), b.MapStart() - m.start, b.MapStart() + b.NumWhole() - m.start;
    WholePass(v, m.start, m.end, b, write, stateOk);
    LockCoherent(v, t, lo, hi, write, stateOk);
    if b.NumWhole() > 0 {
      CutEndsSuffice(m.blocks, m.start, m.end, LockOp(write), b.MapStart(), b.NumWhole());
      var alloc := new UpdateAllocator(numBlocks);
      m.UpdateLock(alloc, b.MapStart(), b.NumWhole(), LockForIpc, SourcePerm(write));
    } else {
      NothingApplied(LockOp(write), v, lo);
    }
  }

  lemma {:induction false} NothingApplied(op: Op, v: seq<PageView>, at: nat)
    requires at <= |v| && RangeFits(op, v, at, at)
    ensures ApplyRange(op, v, at, at) == v
  {
  }

  lemma {:induction false} WholePass(v: seq<PageView>, start: nat, end: nat, b: Buffer, write: bool,
                                     stateOk: PageInfo -> bool)
    requires AllPass(v, start, b, write, stateOk) && InSpace(b, start, end) && |v| == end - start
    ensures start <= b.MapStart() && b.MapStart() + b.NumWhole() <= end
    ensures AllPages(v, b.MapStart() - start, b.MapStart() + b.NumWhole() - start, i => Passes(i, write, stateOk))
  {
    SpaceExtents(b, start, end);
  }

  /** The guard of `SetupForIpc`. */
  method GiveBack(m: BlockManager, hw: Protections, b: Buffer, write: bool, ghost stateOk: PageInfo -> bool)
    requires m.Valid() && |View(m.blocks)| == m.end - m.start && InSpace(b, m.start, m.end) && m.start <= b.MapStart()
    requires LocksOk(View(m.blocks)) && AllPass(View(m.blocks), m.start, b, write, stateOk)
    requires TakenUpTo(View(m.blocks), hw.perms, b.MapStart() - m.start, b.MapStart() + b.NumWhole() - m.start, SourcePerm(write))
    modifies hw`perms
    ensures Coherent(View(m.blocks), hw.perms)
  {
    hide View, Tiles, Coalesced, AllEdgesOk, AllCountsOk, TakenUpTo, Coherent, LocksOk, PageDown, PageUp;
    ghost var v := View(m.blocks);
    WholePass(v, m.start, m.end, b, write, stateOk);
    AllPassing(v, b.MapStart() - m.start, b.MapStart() + b.NumWhole() - m.start, write, stateOk);
    GiveUp(m, hw, b.MapStart(), b.MapStart() + b.NumWhole(), write);
  }

  lemma {:induction false} AllPassing(v: seq<PageView>, lo: nat, hi: nat, write: bool, stateOk: PageInfo -> bool)
    requires lo <= hi <= |v| && LocksOk(v) && AllPages(v, lo, hi, i => Passes(i, write, stateOk))
    ensures NoneStuck(v, lo, hi, SourcePerm(write))
  {
    forall k | lo <= k < hi
      ensures !Stuck(v[k].info, SourcePerm(write))
    {
      assert LockOk(v[k].info) && Passes(v[k].info, write, stateOk);
      if v[k].info.ipcLocks > 0 {
        LockedPasses(v[k].info, write, stateOk);
      }
    }
  }

  /** `SetupForIpc`.  On success the server has its view and the client's whole pages are locked, with the permissions in
      its table as the blocks say.  On failure both spaces are as before, and so are the permissions, but for one case:
      the guard that gives the pages back is set up only after the blocks for the lock were allocated. */
  method SetupForIpc(client: BlockManager, hw: Protections, slab: nat, server: BlockManager, pt: PageTable,
                     mem: PhysicalMemory,
                     r: Request, g: Grant, write: bool, stateOk: PageInfo -> bool, state: nat, send: bool, fill: Byte)
    returns (res: SetupResult)
    requires client != server && ClientOk(client, hw, r.b, write)
    requires r.Ok() && r.Held(mem.pages) && r.Fresh() && server.Valid() && state != STATE_FREE
    requires g.found ==> FreeArea(server, pt.table, r.dst, r.b.NumPages())
    modifies client`blocks, hw, server`blocks, pt, mem
    ensures client.Valid() && server.Valid()
    ensures res.Shared? ==>
              && Coherent(View(client.blocks), hw.perms) && LocksOk(View(client.blocks))
              && AllPass(old(View(client.blocks)), client.start, r.b, write, stateOk)
              && pt.table == Mapped(old(pt.table), r.dst, r.Server()) && mem.pages == r.Filled(old(mem.pages), send, fill)
    ensures res.Shared? ==>
              var v, lo, hi := old(View(client.blocks)), r.b.MapStart() - client.start, r.b.MapStart() + r.b.NumWhole() - client.start;
              && 0 <= lo <= hi <= |v| && RangeFits(LockOp(write), v, lo, hi)
              && View(client.blocks) == ApplyRange(LockOp(write), v, lo, hi)
    ensures !res.Shared? ==>
              && client.blocks == old(client.blocks) && server.blocks == old(server.blocks) && pt.table == old(pt.table)
    ensures !res.Shared? && !res.NoBlocks? ==> Coherent(View(client.blocks), hw.perms)
    ensures res.NoBlocks? ==>
              && r.b.NumWhole() > 0 && slab < CutEnds(client.blocks, client.end, r.b.MapStart(), r.b.MapEnd())
              && client.start <= r.b.MapStart() && r.b.MapStart() + r.b.NumWhole() <= client.end
              && (Coherent(View(client.blocks), hw.perms) <==> NothingToTake(View(client.blocks), client.start, r.b, write))
    ensures OnlyEdgesWritten(mem, r)
    ensures res.ClientRefused? ==>
              || !InSpace(r.b, client.start, client.end) || !AllPass(View(client.blocks), client.start, r.b, write, stateOk)
              || old(hw.budget) < |client.blocks|
    ensures res.Shared? || res.ServerFailed? ==>
              r.b.NumWhole() == 0 || CutEnds(old(client.blocks), client.end, r.b.MapStart(), r.b.MapEnd()) <= slab
    ensures res.ServerFailed? ==> !g.Enough(r) || old(pt.budget) < |r.walk.entries| + 2
  {
    hide View, Tiles, Coalesced, AllEdgesOk, AllCountsOk, TakenUpTo, Coherent, LocksOk, PageDown, PageUp, RangeFits;
    hide ApplyRange;
    hide Mapped, CutEnds, AllPass, r.Client, r.Server, r.Filled, r.Held, r.Fresh, FreeArea, Masked, SourcePerm;
    var ready := SetupForIpcClient(client, hw, r.b, write, stateOk);
    if !ready.Ready? {
      return ClientRefused;
    }
    SpaceExtents(r.b, client.start, client.end);
    if slab < ready.blocksNeeded {
      TakenIsCoherentIff(View(client.blocks), hw.perms, r.b.MapStart() - client.start,
                         r.b.MapStart() + r.b.NumWhole() - client.start, write);
      return NoBlocks;
    }
    var out := SetupForIpcServer(pt, server, mem, r, g, state, TestPerm(write), send, fill);
    if !out.Success? {
      GiveBack(client, hw, r.b, write, stateOk);
      return ServerFailed(out);
    }
    LockWholePages(client, hw.perms, r.b, write, stateOk, ready.blocksNeeded);
    return Shared(out.outAddr);
  }

  const ONE_BLOCK :=
    [Block(0, 3, PageInfo(STATE_NORMAL, PERM_USER_READ_WRITE, PERM_NONE, ATTR_NONE, 0, 0), DISABLE_NONE, 0, 0, 0)]

  const MIDDLE := Buffer(PAGE_SIZE, PAGE_SIZE)

  lemma {:induction false} OneBlockClient()
    ensures |View(ONE_BLOCK)| == 3 && (forall k :: 0 <= k < 3 ==> View(ONE_BLOCK)[k].info == ONE_BLOCK[0].info)
    ensures View(ONE_BLOCK)[1].left.ipcStarts == 0
    ensures CutEnds(ONE_BLOCK, 3, 1, 2) == 2
  {
    var b := ONE_BLOCK[0];
    TilesOne(b);
    ViewOne(b);
    assert Pages(b)[0].info == b.info && Pages(b)[1] == PageOf(b, 1) && Pages(b)[2].info == b.info;
    InsideIsNoBoundary(ONE_BLOCK, 0, 3, 0, 1);
    InsideIsNoBoundary(ONE_BLOCK, 0, 3, 0, 2);
  }

  /** It does happen: a client of one block of three pages offers the middle page, and the slab is empty.  The request
      fails, and the page stays out of the client's reach although no block records a lock. */
  method NoBlocksLeavesPageTaken(client: BlockManager, hw: Protections, server: BlockManager, pt: PageTable,
                                 mem: PhysicalMemory,
                                 r: Request, g: Grant, state: nat, send: bool, fill: Byte)
    returns (res: SetupResult)
    requires client != server && client.Valid() && client.start == 0 && client.end == 3 && client.blocks == ONE_BLOCK
    requires hw.perms == [PERM_USER_READ_WRITE, PERM_USER_READ_WRITE, PERM_USER_READ_WRITE] && hw.budget > 0
    requires r.b == MIDDLE && r.Ok() && r.Held(mem.pages) && r.Fresh() && server.Valid() && state != STATE_FREE
    requires g.found ==> FreeArea(server, pt.table, r.dst, r.b.NumPages())
    modifies client`blocks, hw, server`blocks, pt, mem
    ensures res.NoBlocks? && client.blocks == ONE_BLOCK && !Coherent(View(client.blocks), hw.perms)
  {
    hide View, Tiles, Coalesced, AllEdgesOk, AllCountsOk, CutEnds, r.Held, r.Fresh, FreeArea, r.Ok;
    OneBlockClient();
    assert InSpace(MIDDLE, 0, 3) && MIDDLE.MapStart() == 1 && MIDDLE.MapEnd() == 2;
    assert MIDDLE.AlignedStart() == 1 && MIDDLE.AlignedEnd() == 2 && MIDDLE.NumWhole() == 1;
    ghost var v := View(client.blocks);
    assert Shows(v[0].info, hw.perms[0]) && Shows(v[1].info, hw.perms[1]) && Shows(v[2].info, hw.perms[2]);
    assert RangeFits(LockOp(true), v, 1, 2) && LocksOk(v);
    res := SetupForIpc(client, hw, 0, server, pt, mem, r, g, true, _ => true, state, send, fill);
    assert v[1].info == ONE_BLOCK[0].info;
  }
}
