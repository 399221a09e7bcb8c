/** The end of a request on the server's side (`CleanupForIpcServer`): the view is unmapped, the blocks are free again, and
    what was reserved for the edge pages is released. */
module IpcServers {
  import opened Bytes
  import opened MemoryBlocks
  import opened BlockManagers
  import opened CanonicalBlocks
  import opened StateChecks
  import opened UpdateMeanings
  import opened IpcBuffers
  import opened PageTables
  import opened IpcMappings

  datatype CleanupResult = Cleaned(released: nat) | InvalidCurrentMemory | NoBlocks | NoTableMemory

  /** What the server's pages must still be: in the state of the request, readable, without any attribute. */
  function ServedTest(state: nat): PageInfo -> bool {
    (i: PageInfo) => i.state == state && i.perm.userRead && i.perm.kernelRead && i.attr == ATTR_NONE
  }

  /** The pages of the view pass the check. */
  ghost predicate StillServed(v: seq<PageView>, from: nat, b: Buffer, state: nat) {
    && b.size > 0 && from <= b.AlignedStart() && b.AlignedStart() + b.NumPages() <= from + |v|
    && b.NumPages() > 0 && AllAgree(v, b.AlignedStart() - from, b.NumPages(), ServedTest(state))
  }

  /** `CleanupForIpcServer` of the view `b`. */
  method CleanupForIpcServer(m: BlockManager, pt: PageTable, b: Buffer, state: nat, slab: nat) returns (res: CleanupResult)
    requires m.Valid() && |View(m.blocks)| == m.end - m.start && b.size > 0 && state != STATE_FREE
    modifies m`blocks, pt
    ensures m.Valid()
    ensures var at, n := b.AlignedStart(), b.NumPages();
            if !InSpace(b, m.start, m.end) || !StillServed(old(View(m.blocks)), m.start, b, state)
            then res == InvalidCurrentMemory
            else if slab < old(CutEnds(m.blocks, m.end, at, at + n)) then res == NoBlocks
            else if old(pt.budget) == 0 then res == NoTableMemory
            else
              && res == Cleaned(n - b.NumWhole()) && pt.table == Cut(old(pt.table), at, n)
              && View(m.blocks) == ApplyRange(HidePages(), old(View(m.blocks)), at - m.start, at + n - m.start)
    ensures !res.Cleaned? ==> m.blocks == old(m.blocks) && pt.table == old(pt.table)
  {
    hide View, Tiles, Coalesced, AllEdgesOk, AllCountsOk, CutEnds, ApplyRange, Cut, PageDown, PageUp, Agrees;
    if !InSpace(b, m.start, m.end) {
      return InvalidCurrentMemory;
    }
    SpaceExtents(b, m.start, m.end);
    var at, n := b.AlignedStart(), b.NumPages();
    var ok, _, _, _, numBlocks := CheckMemoryState(m, b.addr, b.size, ServedTest(state), IGNORED_ATTR);
    if !ok {
      return InvalidCurrentMemory;
    }
    if slab < numBlocks {
      return NoBlocks;
    }
    ok := pt.TryUnmap(at, n);
    if !ok {
      return NoTableMemory;
    }
    ServedIsTouched(View(m.blocks), at - m.start, n, state);
    CutEndsSuffice(m.blocks, m.start, m.end, HidePages(), at, n);
    UpdateOne(m, at - m.start, n, HidePages(), numBlocks);
    return Cleaned(n - b.NumWhole());
  }

  lemma {:induction false} ServedIsTouched(v: seq<PageView>, at: nat, n: nat, state: nat)
    requires 0 < n && at + n <= |v| && AllAgree(v, at, n, ServedTest(state)) && state != STATE_FREE
    ensures HidePages().Touches(v[at].info)
  {
    assert Agrees(v[at].info, v[at].info, IGNORED_ATTR, ServedTest(state));
  }

  /** Free pages that no lock or device holds. */
  predicate Unheld(p: PageView) {
    !p.info.attr.ipcLocked && !p.info.attr.deviceShared
  }

  /** Pages that were just put to use pass the check if and only if nothing holds them. */
  lemma {:induction false} ShownIsServed(v: seq<PageView>, at: nat, n: nat, state: nat, perm: Perm)
    requires 0 < n && at + n <= |v| && state != STATE_FREE && perm.userRead && perm.kernelRead
    requires forall k :: at <= k < at + n ==> v[k].info.state == STATE_FREE
    ensures AllAgree(ApplyRange(ShowPages(state, perm), v, at, at + n), at, n, ServedTest(state))
            <==> forall k :: at <= k < at + n ==> Unheld(v[k])
  {
    var w := ApplyRange(ShowPages(state, perm), v, at, at + n);
    forall k | at <= k < at + n
      ensures ServedTest(state)(w[k].info) <==> Unheld(v[k])
      ensures w[k].info.state == state && w[k].info.perm == perm && SameExcept(w[k].info.attr, w[at].info.attr, IGNORED_ATTR)
    {
    }
  }

  /** The server's view of a buffer begins at page `dst` with the buffer's own offset. */
  lemma {:induction false} ServerBuffer(b: Buffer, dst: nat)
    requires b.size > 0
    ensures var s := Buffer(dst * PAGE_SIZE + b.Offset(), b.size);
            && s.AlignedStart() == dst && s.NumPages() == b.NumPages() && s.NumWhole() == b.NumWhole()
  {
    var s := Buffer(dst * PAGE_SIZE + b.Offset(), b.size);
    assert s.AlignedStart() == dst && s.Offset() == b.Offset();
    SameOffset(b, s);
  }

  lemma {:induction false} ServerInSpace(b: Buffer, dst: nat, start: nat, end: nat)
    requires b.size > 0 && start <= dst && dst + b.NumPages() <= end
    ensures InSpace(Buffer(dst * PAGE_SIZE + b.Offset(), b.size), start, end)
  {
    var s := Buffer(dst * PAGE_SIZE + b.Offset(), b.size);
    ServerBuffer(b, dst);
    Extents(s);
    assert s.addr + s.size <= s.AlignedEnd() * PAGE_SIZE;
  }

  /** The area for the view before the request: nothing holds its pages, or nothing is left behind on them. */
  predicate AreaUnheld(v: seq<PageView>, at: nat, n: nat)
    requires at + n <= |v|
  {
    forall k :: at <= k < at + n ==> Unheld(v[k])
  }

  predicate AreaClean(v: seq<PageView>, at: nat, n: nat)
    requires at + n <= |v|
  {
    forall k :: at <= k < at + n ==> FreeClean(v[k])
  }

  /** Setup and then cleanup: it goes through exactly if nothing held the pages, given blocks and table memory; then the
      table is as before, what is released is what was reserved, and the blocks are as before if and only if the area
      was clean. */
  method ServeAndCleanup(pt: PageTable, m: BlockManager, mem: PhysicalMemory, r: Request, g: Grant, state: nat, perm: Perm,
                         send: bool, fill: Byte, slab: nat, budget: nat)
    returns (out: Outcome, res: CleanupResult)
    requires r.Ok() && r.Held(mem.pages) && r.Fresh() && m.Valid() && state != STATE_FREE && perm.userRead
    requires perm.kernelRead
    requires |View(m.blocks)| == m.end - m.start && slab >= 2 && budget > 0
    requires g.found ==> FreeArea(m, pt.table, r.dst, r.b.NumPages())
    modifies pt, m`blocks, mem
    ensures m.Valid()
    ensures out.Success? ==>
              var v, at, n := old(View(m.blocks)), r.dst - m.start, r.b.NumPages();
              && 0 <= at && at + n <= |v|
              && (res.Cleaned? <==> AreaUnheld(v, at, n))
              && (res.Cleaned? ==> res.released == out.reserved && pt.table == old(pt.table))
              && (res.Cleaned? ==> (m.blocks == old(m.blocks) <==> AreaClean(v, at, n)))
    ensures !out.Success? ==> pt.table == old(pt.table) && m.blocks == old(m.blocks)
  {
    hide View, Tiles, Coalesced, AllEdgesOk, AllCountsOk, CutEnds, ApplyRange, Cut, Mapped, PageDown, PageUp;
    hide AllAgree, Unmapped;
    hide r.Client, r.Server, r.Filled, r.Held, r.Fresh, Unheld, FreeClean;
    ghost var v, bs, t := View(m.blocks), m.blocks, pt.table;
    out := SetupForIpcServer(pt, m, mem, r, g, state, perm, send, fill);
    res := InvalidCurrentMemory;
    if out.Success? {
      ghost var w := View(m.blocks);
      pt.budget := budget;
      ServerBuffer(r.b, r.dst);
      ServerInSpace(r.b, r.dst, m.start, m.end);
      Extents(r.b);
      ShownIsServed(v, r.dst - m.start, r.b.NumPages(), state, perm);
      CutEndsSuffice(m.blocks, m.start, m.end, HidePages(), r.dst, r.b.NumPages());
      res := CleanupForIpcServer(m, pt, Buffer(out.outAddr, r.b.size), state, slab);
      if res.Cleaned? {
        UnmapMapped(t, r.dst, r.Server());
        Restored(v, w, state, perm, r.dst - m.start, r.dst + r.b.NumPages() - m.start);
        if View(m.blocks) == v {
          CanonicalForm(bs, m.blocks, m.start, m.end);
        }
      }
    }
  }

  lemma {:induction false} Restored(v: seq<PageView>, w: seq<PageView>, state: nat, perm: Perm, lo: nat, hi: nat)
    requires lo <= hi <= |v| == |w| && state != STATE_FREE && forall k :: lo <= k < hi ==> v[k].info.state == STATE_FREE
    requires w == ApplyRange(ShowPages(state, perm), v, lo, hi)
    ensures ApplyRange(HidePages(), w, lo, hi) == v <==> AreaClean(v, lo, hi - lo)
  {
    hide FreeClean, ShowPages, HidePages;
    HideRestores(v, w, state, perm, lo, hi);
    var after := ApplyRange(HidePages(), w, lo, hi);
    if AreaClean(v, lo, hi - lo) {
      forall k | 0 <= k < |v|
        ensures after[k] == v[k]
      {
        if lo <= k < hi {
          assert after[k] == after[lo..hi][k - lo] == v[lo..hi][k - lo] == v[k];
        }
      }
    }
  }
}
