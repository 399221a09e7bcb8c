/** The requests that a client has outstanding: what holds of its blocks and of the permissions in its table between any
    two operations, however requests overlap and in whatever order they are answered. */
module IpcRequests {
  import opened Bytes
  import opened MemoryBlocks
  import opened BlockUpdates
  import opened BlockManagers
  import opened StateChecks
  import opened IpcBuffers
  import opened PageTables
  import opened IpcMappings
  import opened IpcProtections
  import opened IpcCleanups
  import opened IpcSetups
  import IpcLockRuns

  type Range = IpcLockRuns.Range

  /** A request's pages are its own. */
  predicate OwnAt(v: seq<PageView>, from: nat, r: Range, write: bool) {
    from <= r.lo < r.hi <= from + |v| && OwnLock(v, r.lo - from, r.hi - from, write)
  }

  predicate AllOwn(v: seq<PageView>, from: nat, locks: seq<Range>, writes: seq<bool>) {
    |writes| == |locks| && forall i :: 0 <= i < |locks| ==> OwnAt(v, from, locks[i], writes[i])
  }

  /** The lock counters tell the outstanding requests, every request owns its pages, and the table is right. */
  ghost predicate InOrder(v: seq<PageView>, t: seq<Perm>, from: nat, locks: seq<Range>, writes: seq<bool>) {
    && IpcLockRuns.AllWithin(locks, from, from + |v|) && IpcLockRuns.Tracks(v, from, locks)
    && AllOwn(v, from, locks, writes) && Coherent(v, t) && LocksOk(v)
  }

  ghost predicate ClientInv(m: BlockManager, hw: Protections, locks: seq<Range>, writes: seq<bool>)
    reads m, hw
  {
    m.Valid() && |View(m.blocks)| == m.end - m.start && InOrder(View(m.blocks), hw.perms, m.start, locks, writes)
  }

  /** With no request outstanding, every page has exactly the permission that its block says. */
  lemma {:induction false} AllReturned(v: seq<PageView>, t: seq<Perm>, from: nat, k: nat)
    requires InOrder(v, t, from, [], []) && k < |v|
    ensures v[k].info.ipcLocks == 0 && t[k] == v[k].info.perm
  {
    assert IpcLockRuns.PageTracks(v[k], from + k, from, []);
    assert Shows(v[k].info, t[k]);
  }

  lemma {:induction false} LockKeepsAllOwn(v: seq<PageView>, from: nat, locks: seq<Range>, writes: seq<bool>,
                                           r: Range, write: bool,
                                           stateOk: PageInfo -> bool)
    requires AllOwn(v, from, locks, writes) && LocksOk(v) && from <= r.lo < r.hi <= from + |v|
    requires RangeFits(LockOp(write), v, r.lo - from, r.hi - from)
    requires forall k :: r.lo - from <= k < r.hi - from ==> Passes(v[k].info, write, stateOk)
    ensures AllOwn(ApplyRange(LockOp(write), v, r.lo - from, r.hi - from), from, locks + [r], writes + [write])
  {
    hide OwnLock, LocksOk, ApplyRange, RangeFits, Passes;
    var w := ApplyRange(LockOp(write), v, r.lo - from, r.hi - from);
    LockMakesOwn(v, r.lo - from, r.hi - from, write, stateOk);
    forall i | 0 <= i < |locks|
      ensures OwnAt(w, from, locks[i], writes[i])
    {
      assert OwnAt(v, from, locks[i], writes[i]);
      OtherLockKeepsOwn(v, locks[i].lo - from, locks[i].hi - from, writes[i], r.lo - from, r.hi - from, write, stateOk);
    }
  }

  /** A page of two requests is locked twice. */
  lemma {:induction false} SharedTwice(v: seq<PageView>, from: nat, locks: seq<Range>, i: nat, j: nat, k: nat)
    requires IpcLockRuns.Tracks(v, from, locks) && i < j < |locks| && k < |v|
    requires locks[i].Covers(from + k) && locks[j].Covers(from + k)
    ensures v[k].info.ipcLocks >= 2
  {
    assert IpcLockRuns.PageTracks(v[k], from + k, from, locks);
    IpcLockRuns.CountWithout(locks, j, from + k);
    assert IpcLockRuns.Without(locks, j)[i] == locks[i];
    IpcLockRuns.CountWithout(IpcLockRuns.Without(locks, j), i, from + k);
  }

  function WithoutFlag(writes: seq<bool>, i: nat): seq<bool>
    requires i < |writes|
  {
    writes[..i] + writes[i + 1..]
  }

  lemma {:induction false} UnlockKeepsOwn(v: seq<PageView>, from: nat, locks: seq<Range>, writes: seq<bool>, i: nat, j: nat)
    requires AllOwn(v, from, locks, writes) && IpcLockRuns.Tracks(v, from, locks) && i < |locks| && j < |locks| && i != j
    requires from <= locks[i].lo < locks[i].hi <= from + |v|
    requires RangeFits(UNLOCK_OP, v, locks[i].lo - from, locks[i].hi - from)
    ensures OwnAt(ApplyRange(UNLOCK_OP, v, locks[i].lo - from, locks[i].hi - from), from, locks[j], writes[j])
  {
    hide OwnLock, ApplyRange, RangeFits, IpcLockRuns.Tracks;
    var r, q := locks[i], locks[j];
    assert OwnAt(v, from, q, writes[j]);
    forall k | q.lo - from <= k < q.hi - from && r.lo - from <= k < r.hi - from
      ensures v[k].info.ipcLocks >= 2
    {
      SharedTwice(v, from, locks, if i < j then i else j, if i < j then j else i, k);
    }
    OtherUnlockKeepsOwn(v, q.lo - from, q.hi - from, writes[j], r.lo - from, r.hi - from);
  }

  lemma {:induction false} UnlockKeepsAllOwn(v: seq<PageView>, from: nat, locks: seq<Range>, writes: seq<bool>, i: nat)
    requires AllOwn(v, from, locks, writes) && IpcLockRuns.Tracks(v, from, locks) && i < |locks|
    requires from <= locks[i].lo < locks[i].hi <= from + |v|
    requires RangeFits(UNLOCK_OP, v, locks[i].lo - from, locks[i].hi - from)
    ensures AllOwn(ApplyRange(UNLOCK_OP, v, locks[i].lo - from, locks[i].hi - from), from,
                   IpcLockRuns.Without(locks, i), WithoutFlag(writes, i))
  {
    hide OwnAt, ApplyRange, RangeFits, IpcLockRuns.Tracks;
    var rest, flags := IpcLockRuns.Without(locks, i), WithoutFlag(writes, i);
    forall j | 0 <= j < |rest|
      ensures OwnAt(ApplyRange(UNLOCK_OP, v, locks[i].lo - from, locks[i].hi - from), from, rest[j], flags[j])
    {
      UnlockKeepsOwn(v, from, locks, writes, i, if j < i then j else j + 1);
    }
  }

  /** The whole pages of buffer `b`, and no others, are locked once more. */
  ghost predicate Locks(v: seq<PageView>, start: nat, b: Buffer, write: bool, w: seq<PageView>) {
    && start <= b.MapStart() && b.MapStart() + b.NumWhole() <= start + |v|
    && RangeFits(LockOp(write), v, b.MapStart() - start, b.MapStart() + b.NumWhole() - start)
    && w == ApplyRange(LockOp(write), v, b.MapStart() - start, b.MapStart() + b.NumWhole() - start)
  }

  /** Everything that a request needs is there: its pages pass, and there are blocks and table memory on both sides. */
  ghost predicate Grantable(bs: seq<Block>, start: nat, end: nat, r: Request, g: Grant, write: bool,
                            stateOk: PageInfo -> bool,
                            slab: nat, clientBudget: nat, serverBudget: nat)
  {
    && r.b.size > 0 && InSpace(r.b, start, end) && AllPass(View(bs), start, r.b, write, stateOk)
    && (r.b.NumWhole() == 0 || CutEnds(bs, end, r.b.MapStart(), r.b.MapEnd()) <= slab)
    && g.Enough(r) && |bs| <= clientBudget && |r.walk.entries| + 2 <= serverBudget
  }

  /** `SetupForIpc` keeps the client in order, and a granted request joins those outstanding.  The one exception is a slab
      without blocks. */
  method Share(client: BlockManager, hw: Protections, slab: nat, server: BlockManager, pt: PageTable, mem: PhysicalMemory,
               r: Request, g: Grant, write: bool, stateOk: PageInfo -> bool, state: nat, send: bool, fill: Byte,
               ghost locks: seq<Range>, ghost writes: seq<bool>)
    returns (res: SetupResult, ghost locks': seq<Range>, ghost writes': seq<bool>)
    requires ClientInv(client, hw, locks, writes) && ClientOk(client, hw, r.b, write)
    requires client != server && r.Ok() && r.Held(mem.pages) && r.Fresh() && server.Valid() && state != STATE_FREE
    requires g.found ==> FreeArea(server, pt.table, r.dst, r.b.NumPages())
    modifies client`blocks, hw, server`blocks, pt, mem
    ensures server.Valid()
    ensures !res.NoBlocks? ==> ClientInv(client, hw, locks', writes')
    ensures !res.Shared? ==> client.blocks == old(client.blocks)
    ensures res.Shared? ==> Locks(old(View(client.blocks)), client.start, r.b, write, View(client.blocks))
    ensures res.NoBlocks? ==> r.b.NumWhole() > 0 && slab < CutEnds(client.blocks, client.end, r.b.MapStart(), r.b.MapEnd())
    ensures Grantable(old(client.blocks), client.start, client.end, r, g, write, stateOk, slab, old(hw.budget), old(pt.budget))
            ==> res.Shared?
    ensures if res.Shared? && r.b.NumWhole() > 0
            then locks' == locks + [IpcLockRuns.Range(r.b.MapStart(), r.b.MapEnd())] && writes' == writes + [write]
            else locks' == locks && writes' == writes
  {
    hide View, Tiles, Coalesced, ApplyRange, RangeFits, IpcLockRuns.Tracks, IpcLockRuns.AllWithin, AllOwn, Coherent;
    hide LocksOk, AllPass;
    hide PageDown, PageUp, r.Held, r.Fresh, r.Ok, r.Server, r.Filled, Mapped, FreeArea;
    ghost var v := View(client.blocks);
    res := SetupForIpc(client, hw, slab, server, pt, mem, r, g, write, stateOk, state, send, fill);
    locks', writes' := locks, writes;
    if res.Shared? {
      if r.b.NumWhole() > 0 {
        locks', writes' := locks + [IpcLockRuns.Range(r.b.MapStart(), r.b.MapEnd())], writes + [write];
        Granted(v, client.start, client.end, r.b, locks, writes, write, stateOk);
      } else {
        NothingApplied(LockOp(write), v, r.b.MapStart() - client.start);
      }
    }
  }

  lemma {:induction false} Granted(v: seq<PageView>, start: nat, end: nat, b: Buffer, locks: seq<Range>,
                                   writes: seq<bool>, write: bool,
                                   stateOk: PageInfo -> bool)
    requires |v| == end - start && IpcLockRuns.AllWithin(locks, start, end) && IpcLockRuns.Tracks(v, start, locks)
    requires AllOwn(v, start, locks, writes) && LocksOk(v) && AllPass(v, start, b, write, stateOk) && b.NumWhole() > 0
    requires start <= b.MapStart() && b.MapStart() + b.NumWhole() <= end
    requires RangeFits(LockOp(write), v, b.MapStart() - start, b.MapStart() + b.NumWhole() - start)
    ensures var r, w := IpcLockRuns.Range(b.MapStart(), b.MapEnd()),
                        ApplyRange(LockOp(write), v, b.MapStart() - start, b.MapStart() + b.NumWhole() - start);
            && IpcLockRuns.AllWithin(locks + [r], start, end) && IpcLockRuns.Tracks(w, start, locks + [r])
            && AllOwn(w, start, locks + [r], writes + [write])
  {
    hide ApplyRange, RangeFits, IpcLockRuns.Tracks, AllOwn, LocksOk;
    var r := IpcLockRuns.Range(b.MapStart(), b.MapEnd());
    assert b.MapEnd() == b.MapStart() + b.NumWhole();
    Extents(b);
    IpcLockRuns.LockTracks(v, start, locks, r, SourcePerm(write));
    LockKeepsAllOwn(v, start, locks, writes, r, write, stateOk);
  }

  /** `CleanupForIpcClient` of any outstanding request: what it needs always holds, and it keeps the client in order. */
  method Release(m: BlockManager, hw: Protections, ghost locks: seq<Range>, ghost writes: seq<bool>, ghost i: nat,
                 b: Buffer)
    returns (ok: bool)
    requires ClientInv(m, hw, locks, writes) && i < |locks| && b.size > 0 && InSpace(b, m.start, m.end) && b.NumWhole() > 0
    requires locks[i] == IpcLockRuns.Range(b.MapStart(), b.MapEnd())
    modifies m`blocks, hw
    ensures if ok then ClientInv(m, hw, IpcLockRuns.Without(locks, i), WithoutFlag(writes, i))
            else ClientInv(m, hw, locks, writes)
    ensures ok ==> Unlocks(old(View(m.blocks)), m.start, locks[i], View(m.blocks))
    ensures !ok ==> m.blocks == old(m.blocks) && old(hw.budget) < |m.blocks|
  {
    hide View, Tiles, Coalesced, ApplyRange, RangeFits, IpcLockRuns.Tracks, AllOwn, Coherent, LocksOk, IsBoundary, OwnLock;
    hide PageDown, PageUp;
    ghost var v := View(m.blocks);
    Releasable(m, locks, writes, i);
    var res := CleanupForIpcClient(m, hw, b, true, writes[i]);
    ok := res == Done;
    if ok {
      IpcLockRuns.UnlockTracks(v, m.start, locks, i, PERM_NONE);
      UnlockKeepsAllOwn(v, m.start, locks, writes, i);
      IpcLockRuns.WithoutWithin(locks, i, m.start, m.end);
    }
  }

  /** The pages of a lock, and no others, are locked once less. */
  ghost predicate Unlocks(v: seq<PageView>, start: nat, r: Range, w: seq<PageView>) {
    && start <= r.lo <= r.hi <= start + |v| && RangeFits(UNLOCK_OP, v, r.lo - start, r.hi - start)
    && w == ApplyRange(UNLOCK_OP, v, r.lo - start, r.hi - start)
  }

  lemma {:induction false} Releasable(m: BlockManager, locks: seq<Range>, writes: seq<bool>, i: nat)
    requires m.Valid() && |View(m.blocks)| == m.end - m.start && i < |locks|
    requires AllOwn(View(m.blocks), m.start, locks, writes)
    requires IpcLockRuns.AllWithin(locks, m.start, m.end) && IpcLockRuns.Tracks(View(m.blocks), m.start, locks)
    ensures |writes| == |locks| && Locked(m, locks[i].lo, locks[i].hi, writes[i])
    ensures RangeFits(UNLOCK_OP, View(m.blocks), locks[i].lo - m.start, locks[i].hi - m.start)
  {
    hide View, Tiles, RangeFits, IpcLockRuns.Tracks, OwnLock;
    IpcLockRuns.LockEndsAreBoundaries(m.blocks, m.start, m.end, locks, i);
    IpcLockRuns.UnlockNeedsNoBlock(m.blocks, m.start, m.end, locks, i);
    assert OwnAt(View(m.blocks), m.start, locks[i], writes[i]);
  }
}
