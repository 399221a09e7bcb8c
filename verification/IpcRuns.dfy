/** Whole runs of a client: any sequence of requests to any servers, of their ends in any order, and of other updates of the
    client's memory in between. */
module IpcRuns {
  import opened Bytes
  import opened MemoryBlocks
  import opened BlockUpdates
  import opened BlockManagers
  import opened StateChecks
  import opened IpcBuffers
  import opened PageTables
  import opened IpcMappings
  import opened IpcProtections
  import opened IpcCleanups
  import opened IpcSetups
  import opened IpcRequests
  import IpcLockRuns

  // ---- Other updates ----------------------------------------------------------------------------------

  /** An update that is not part of a request: the block manager can run it, and it changes the properties of no page that
      a request has locked. */
  predicate OtherOk(bs: seq<Block>, from: nat, to: nat, op: Op, lo: nat, hi: nat) {
    && !(op.UpdateLock? && (op.f.LockForIpc? || op.f.UnlockForIpc?))
    && IpcLockRuns.CanRun(bs, from, to, op, lo, hi)
    && (!op.UpdateLock? ==>
          forall k :: lo - from <= k < hi - from && op.Touches(View(bs)[k].info) ==> View(bs)[k].info.ipcLocks == 0)
  }

  /** The permissions after the page table operation that goes with an update. */
  function Followed(op: Op, v: seq<PageView>, t: seq<Perm>, lo: nat, hi: nat): (u: seq<Perm>)
    requires |t| == |v| && lo <= hi <= |v|
    ensures |u| == |t|
  {
    seq(|t|, k requires 0 <= k < |t| =>
      if lo <= k < hi && !op.UpdateLock? && op.Touches(v[k].info) then op.perm else t[k])
  }

  /** One page: what was right stays right, and a locked page keeps what makes it a request's own. */
  lemma {:induction false} OtherPage(p: PageView, t: Perm, op: Op, first: bool, last: bool)
    requires p.Fits(op, first, last) && Shows(p.info, t) && LockOk(p.info)
    requires !(op.UpdateLock? && (op.f.LockForIpc? || op.f.UnlockForIpc?))
    requires !op.UpdateLock? && op.Touches(p.info) ==> p.info.ipcLocks == 0
    ensures var q := p.Apply(op, first, last).info;
            && Shows(q, if !op.UpdateLock? && op.Touches(p.info) then op.perm else t) && LockOk(q)
            && forall write :: Own(p.info, write) ==> Own(q, write)
  {
    hide Masked;
  }

  lemma {:induction false} OtherInOrder(bs: seq<Block>, t: seq<Perm>, from: nat, to: nat, locks: seq<Range>,
                                        writes: seq<bool>, op: Op,
                                        lo: nat, hi: nat)
    requires OtherOk(bs, from, to, op, lo, hi) && InOrder(View(bs), t, from, locks, writes)
    ensures RangeFits(op, View(bs), lo - from, hi - from)
    ensures InOrder(ApplyRange(op, View(bs), lo - from, hi - from), Followed(op, View(bs), t, lo - from, hi - from), from,
                    locks, writes)
  {
    hide View, IpcLockRuns.Tracks, Shows, LockOk, Own, PageView.Apply, PageView.Fits;
    var v := View(bs);
    var w, u := ApplyRange(op, v, lo - from, hi - from), Followed(op, v, t, lo - from, hi - from);
    IpcLockRuns.OtherTracks(v, from, locks, op, lo - from, hi - from);
    forall k | 0 <= k < |v|
      ensures Shows(w[k].info, u[k]) && LockOk(w[k].info)
      ensures forall write :: Own(v[k].info, write) ==> Own(w[k].info, write)
    {
      assert Shows(v[k].info, t[k]) && LockOk(v[k].info);
      if lo - from <= k < hi - from {
        assert v[k].Fits(op, k == lo - from, k == hi - from - 1);
        OtherPage(v[k], t[k], op, k == lo - from, k == hi - from - 1);
      }
    }
    forall i | 0 <= i < |locks|
      ensures OwnAt(w, from, locks[i], writes[i])
    {
      assert OwnAt(v, from, locks[i], writes[i]);
    }
  }

  /** An update with its page table operation keeps the client in order. */
  method ChangeOther(m: BlockManager, hw: Protections, op: Op, lo: nat, hi: nat, ghost locks: seq<Range>,
                     ghost writes: seq<bool>)
    requires ClientInv(m, hw, locks, writes) && OtherOk(m.blocks, m.start, m.end, op, lo, hi)
    modifies m`blocks, hw`perms
    ensures ClientInv(m, hw, locks, writes)
    ensures View(m.blocks) == ApplyRange(op, old(View(m.blocks)), lo - m.start, hi - m.start)
    ensures |old(hw.perms)| == |old(View(m.blocks))|
    ensures hw.perms == Followed(op, old(View(m.blocks)), old(hw.perms), lo - m.start, hi - m.start)
  {
    hide View, Tiles, Coalesced, ApplyRange, RangeFits, Followed, InOrder;
    OtherInOrder(m.blocks, hw.perms, m.start, m.end, locks, writes, op, lo, hi);
    InOrderParts(View(m.blocks), hw.perms, m.start, locks, writes);
    hw.perms := Followed(op, View(m.blocks), hw.perms, lo - m.start, hi - m.start);
    IpcLockRuns.RunUpdate(m, op, lo, hi);
  }

  lemma {:induction false} InOrderParts(v: seq<PageView>, t: seq<Perm>, from: nat, locks: seq<Range>, writes: seq<bool>)
    requires InOrder(v, t, from, locks, writes)
    ensures |t| == |v| && |writes| == |locks| && Coherent(v, t) && LocksOk(v)
  {
  }

  // ---- Runs -------------------------------------------------------------------------------------------

  /** A server's side at the time of a request. */
  datatype Side = Side(blocks: seq<Block>, table: Table, budget: nat, pages: map<nat, Contents>)

  datatype Action =
    // a request `r`, granted `g`, to a server whose side is `side`
    | Ask(r: Request, side: Side, g: Grant, slab: nat, budget: nat, write: bool, stateOk: PageInfo -> bool, state: nat,
          send: bool, fill: Byte)
    // the end of outstanding request `i`, whose buffer was `b`
    | Answer(i: nat, b: Buffer, budget: nat)
    // any other update
    | Other(op: Op, lo: nat, hi: nat)
  {
    /** What is demanded of a request and its server, whose space is `[start, end)`. */
    ghost predicate Ok(start: nat, end: nat) {
      Ask? ==>
        && r.Ok() && r.Held(side.pages) && r.Fresh() && state != STATE_FREE
        && WellFormed(side.blocks, start, end) && Coalesced(side.blocks)
        && (g.found ==> FreeAreaIn(side.blocks, start, end, side.table, r.dst, r.b.NumPages()))
    }
  }

  /** A point of a run: the client's blocks, the permissions in its table, and the outstanding requests. */
  datatype Point = Point(blocks: seq<Block>, perms: seq<Perm>, locks: seq<Range>, writes: seq<bool>) {

    ghost predicate Ok(start: nat, end: nat) {
      && WellFormed(blocks, start, end) && Coalesced(blocks) && |View(blocks)| == end - start
      && InOrder(View(blocks), perms, start, locks, writes)
    }

    ghost predicate SameAs(p: Point) {
      blocks == p.blocks && locks == p.locks && writes == p.writes
    }

    /** A request with whole pages has joined those outstanding; one without leaves all as it was. */
    ghost predicate Joined(p: Point, b: Buffer, write: bool, start: nat) {
      && Locks(View(p.blocks), start, b, write, View(blocks))
      && if b.NumWhole() > 0
         then locks == p.locks + [IpcLockRuns.Range(b.MapStart(), b.MapEnd())] && writes == p.writes + [write]
         else locks == p.locks && writes == p.writes
    }

    ghost predicate Left(p: Point, i: nat, start: nat)
      requires i < |p.locks| == |p.writes|
    {
      && Unlocks(View(p.blocks), start, p.locks[i], View(blocks))
      && locks == IpcLockRuns.Without(p.locks, i) && writes == WithoutFlag(p.writes, i)
    }
  }

  /** Whether an answer is one for outstanding request `i`. */
  predicate Answers(locks: seq<Range>, start: nat, end: nat, i: nat, b: Buffer) {
    && i < |locks| && b.size > 0 && InSpace(b, start, end) && b.NumWhole() > 0
    && locks[i] == IpcLockRuns.Range(b.MapStart(), b.MapEnd())
  }

  /** What a step of a run does.  A request joins, and surely if everything it needs is there; an answer ends its request,
      and surely with table memory; an update that may be made is made; anything else changes nothing. */
  ghost predicate Moved(p: Point, a: Action, q: Point, start: nat, end: nat)
    requires p.Ok(start, end)
  {
    match a
    case Ask(r, side, g, slab, budget, write, stateOk, _, _, _) =>
      || q.Joined(p, r.b, write, start)
      || (q.SameAs(p) && !(NoWrap(View(p.blocks), start, r.b, write)
                           && Grantable(p.blocks, start, end, r, g, write, stateOk, slab, budget, side.budget)))
    case Answer(i, b, budget) =>
      if Answers(p.locks, start, end, i, b) then
        || (|p.writes| == |p.locks| && q.Left(p, i, start))
        || (q.SameAs(p) && budget < |p.blocks|)
      else q == p
    case Other(op, lo, hi) =>
      if OtherOk(p.blocks, start, end, op, lo, hi) then
        && q.locks == p.locks && q.writes == p.writes && |p.perms| == |View(p.blocks)|
        && View(q.blocks) == ApplyRange(op, View(p.blocks), lo - start, hi - start)
        && q.perms == Followed(op, View(p.blocks), p.perms, lo - start, hi - start)
      else q == p
  }

  /** One request. */
  method DoAsk(client: BlockManager, hw: Protections, server: BlockManager, pt: PageTable, mem: PhysicalMemory, a: Action,
               locks: seq<Range>, writes: seq<bool>)
    returns (clean: bool, locks': seq<Range>, writes': seq<bool>)
    requires ClientInv(client, hw, locks, writes) && client != server && a.Ask? && a.Ok(server.start, server.end)
    modifies client`blocks, hw, server`blocks, pt, mem
    ensures clean ==> ClientInv(client, hw, locks', writes')
    ensures clean ==> Moved(Point(old(client.blocks), old(hw.perms), locks, writes), a,
                            Point(client.blocks, hw.perms, locks', writes'), client.start, client.end)
    ensures !clean ==> client.blocks == old(client.blocks) && locks' == locks && writes' == writes
    ensures !clean ==>
              a.r.b.NumWhole() > 0 && a.slab < CutEnds(client.blocks, client.end, a.r.b.MapStart(), a.r.b.MapEnd())
  {
    hide View, Tiles, Coalesced, AllEdgesOk, AllCountsOk, InOrder, ApplyRange, RangeFits, PageDown, PageUp, CutEnds;
    hide AllPass;
    hide FreeAreaIn, a.r.Held, a.r.Fresh, a.r.Client, Locks, Grantable, Coherent, LocksOk;
    InOrderParts(View(client.blocks), hw.perms, client.start, locks, writes);
    clean, locks', writes' := true, locks, writes;
    if NoWrap(View(client.blocks), client.start, a.r.b, a.write) {
      server.blocks, pt.table, pt.budget, mem.pages := a.side.blocks, a.side.table, a.side.budget, a.side.pages;
      hw.budget := a.budget;
      var res, _, _ := Share(client, hw, a.slab, server, pt, mem, a.r, a.g, a.write, a.stateOk, a.state, a.send, a.fill,
                             locks, writes);
      if res.NoBlocks? {
        clean := false;
      } else if res.Shared? && a.r.b.NumWhole() > 0 {
        locks', writes' := locks + [IpcLockRuns.Range(a.r.b.MapStart(), a.r.b.MapEnd())], writes + [a.write];
      }
    }
  }

  /** One step of a run; it is not clean if a request met a slab without blocks. */
  method DoStep(client: BlockManager, hw: Protections, server: BlockManager, pt: PageTable, mem: PhysicalMemory, a: Action,
                locks: seq<Range>, writes: seq<bool>)
    returns (clean: bool, locks': seq<Range>, writes': seq<bool>)
    requires ClientInv(client, hw, locks, writes) && client != server && a.Ok(server.start, server.end)
    modifies client`blocks, hw, server`blocks, pt, mem
    ensures clean ==> ClientInv(client, hw, locks', writes')
    ensures clean ==> Moved(Point(old(client.blocks), old(hw.perms), locks, writes), a,
                            Point(client.blocks, hw.perms, locks', writes'), client.start, client.end)
    ensures !clean ==> client.blocks == old(client.blocks) && locks' == locks && writes' == writes
    ensures !clean ==> a.Ask? && a.r.b.NumWhole() > 0
                       && a.slab < CutEnds(client.blocks, client.end, a.r.b.MapStart(), a.r.b.MapEnd())
  {
    hide View, Tiles, Coalesced, AllEdgesOk, AllCountsOk, InOrder, ApplyRange, RangeFits, PageDown, PageUp, CutEnds, a.Ok;
    hide Unlocks, Followed, OtherOk, IpcLockRuns.Without, WithoutFlag, Locks, Grantable;
    InOrderParts(View(client.blocks), hw.perms, client.start, locks, writes);
    clean, locks', writes' := true, locks, writes;
    match a {
      case Ask(_, _, _, _, _, _, _, _, _, _) =>
        clean, locks', writes' := DoAsk(client, hw, server, pt, mem, a, locks, writes);
      case Answer(i, b, budget) =>
        if Answers(locks, client.start, client.end, i, b) {
          hw.budget := budget;
          var ok := Release(client, hw, locks, writes, i, b);
          if ok {
            locks', writes' := IpcLockRuns.Without(locks, i), WithoutFlag(writes, i);
          }
        }
      case Other(op, lo, hi) =>
        if OtherOk(client.blocks, client.start, client.end, op, lo, hi) {
          ChangeOther(client, hw, op, lo, hi, locks, writes);
        }
    }
  }

  /** Any run from a client without outstanding requests.  At every point the lock counters tell exactly the outstanding
      requests, each of which owns its pages, and the permissions in the table are what the blocks say.  A run ends early
      only if a request met a slab without blocks. */
  method Execute(client: BlockManager, hw: Protections, server: BlockManager, pt: PageTable, mem: PhysicalMemory,
                 acts: seq<Action>)
    returns (clean: bool, ghost ps: seq<Point>)
    requires ClientInv(client, hw, [], []) && client != server
    requires forall j :: 0 <= j < |acts| ==> acts[j].Ok(server.start, server.end)
    modifies client`blocks, hw, server`blocks, pt, mem
    ensures 0 < |ps| <= |acts| + 1 && ps[0] == Point(old(client.blocks), old(hw.perms), [], [])
    ensures forall j :: 0 <= j < |ps| ==> ps[j].Ok(client.start, client.end)
    ensures forall j :: 0 < j < |ps| ==> Moved(ps[j - 1], acts[j - 1], ps[j], client.start, client.end)
    ensures client.blocks == ps[|ps| - 1].blocks
    ensures if clean then |ps| == |acts| + 1 && hw.perms == ps[|ps| - 1].perms
            else
              && |ps| <= |acts| && acts[|ps| - 1].Ask?
              && var b := acts[|ps| - 1].r.b;
                 b.NumWhole() > 0 && acts[|ps| - 1].slab < CutEnds(client.blocks, client.end, b.MapStart(), b.MapEnd())
  {
    hide View, Tiles, Coalesced, AllEdgesOk, AllCountsOk, InOrder, CutEnds, Moved, PageDown, PageUp;
    var locks: seq<Range>, writes: seq<bool> := [], [];
    ps := [Point(client.blocks, hw.perms, [], [])];
    clean := true;
    for j := 0 to |acts|
      invariant clean && |ps| == j + 1 && ps[0] == Point(old(client.blocks), old(hw.perms), [], [])
      invariant ps[j] == Point(client.blocks, hw.perms, locks, writes) && ClientInv(client, hw, locks, writes)
      invariant forall i :: 0 <= i < |ps| ==> ps[i].Ok(client.start, client.end)
      invariant forall i :: 0 < i < |ps| ==> Moved(ps[i - 1], acts[i - 1], ps[i], client.start, client.end)
    {
      clean, locks, writes := DoStep(client, hw, server, pt, mem, acts[j], locks, writes);
      if !clean {
        return;
      }
      ps := ps + [Point(client.blocks, hw.perms, locks, writes)];
    }
  }

  /** At every point of every run at which no request is outstanding, no page is locked and every permission is what its
      block says. */
  lemma {:induction false} AllGivenBack(p: Point, start: nat, end: nat, k: nat)
    requires p.Ok(start, end) && p.locks == [] && k < end - start
    ensures |p.perms| == |View(p.blocks)| == end - start
    ensures View(p.blocks)[k].info.ipcLocks == 0 && p.perms[k] == View(p.blocks)[k].info.perm
  {
    InOrderParts(View(p.blocks), p.perms, start, p.locks, p.writes);
    assert p.writes == [];
    AllReturned(View(p.blocks), p.perms, start, k);
  }
}
