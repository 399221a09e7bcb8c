/** `SetupForIpcServer`: the server sees the whole pages of a client's buffer directly and gets
    fresh copies of the edge pages.  Page tables are maps from virtual to physical pages. */
module IpcMappings {
  import opened Bytes
  import opened IpcBuffers
  import opened MemoryBlocks
  import opened BlockManagers
  import opened StateChecks
  import opened UpdateMeanings
  import opened PageGroups
  import opened PageTables
  import opened Traversals

  type Contents = seq<Byte>

  class PhysicalMemory {
    var pages: map<nat, Contents>

    ghost predicate Holds(p: nat)
      reads this
    {
      p in pages && |pages[p]| == PAGE_SIZE
    }
  }

  /** The physical page behind page `k` of the server's view. */
  function ServerPage(b: Buffer, client: seq<nat>, startPage: nat, endPage: nat, k: nat): nat
    requires b.size > 0 && k < b.NumPages() <= |client|
  {
    if k == 0 && b.HasStartPage() then startPage
    else if k == b.NumPages() - 1 && b.HasEndPage() then endPage
    else client[k]
  }

  function ServerPages(b: Buffer, client: seq<nat>, startPage: nat, endPage: nat): (r: seq<nat>)
    requires b.size > 0 && b.NumPages() <= |client|
    ensures |r| == b.NumPages()
    ensures forall k :: 0 <= k < b.NumPages() ==> r[k] == ServerPage(b, client, startPage, endPage, k)
  {
    seq(b.NumPages(), k requires 0 <= k < b.NumPages() => ServerPage(b, client, startPage, endPage, k))
  }

  /** Byte `j` of an edge page that shows page `k` of the buffer: a byte of the buffer when sending, the
      fill value everywhere else. */
  function EdgeByte(b: Buffer, page: Contents, k: nat, send: bool, fill: Byte, j: nat): Byte
    requires |page| == PAGE_SIZE && j < PAGE_SIZE
  {
    var a := (b.AlignedStart() + k) * PAGE_SIZE + j;
    if send && b.addr <= a < b.addr + b.size then page[j] else fill
  }

  function EdgePage(b: Buffer, page: Contents, k: nat, send: bool, fill: Byte): (r: Contents)
    requires |page| == PAGE_SIZE
    ensures |r| == PAGE_SIZE
    ensures forall j :: 0 <= j < PAGE_SIZE ==> r[j] == EdgeByte(b, page, k, send, fill, j)
  {
    seq(PAGE_SIZE, j requires 0 <= j < PAGE_SIZE => EdgeByte(b, page, k, send, fill, j))
  }

  function Fill(fill: Byte, n: nat): (r: seq<Byte>)
    ensures |r| == n && forall j :: 0 <= j < n ==> r[j] == fill
  {
    seq(n, _ => fill)
  }

  /** The contents that the code assembles for the start page. */
  function StartContents(b: Buffer, page: Contents, send: bool, fill: Byte): Contents
    requires |page| == PAGE_SIZE && b.size > 0 && b.HasStartPage()
  {
    if !send then Fill(fill, PAGE_SIZE)
    else
      var offset, srcEnd, mapStart := b.Offset(), b.addr + b.size, b.MapStart() * PAGE_SIZE;
      Extents(b);
      var copy := if srcEnd < mapStart then b.size else mapStart - b.addr;
      var clear := if srcEnd < mapStart then mapStart - srcEnd else 0;
      Fill(fill, offset) + page[offset..offset + copy] + Fill(fill, clear)
  }

  lemma {:induction false} StartContentsAreEdge(b: Buffer, page: Contents, send: bool, fill: Byte)
    requires |page| == PAGE_SIZE && b.size > 0 && b.HasStartPage()
    ensures StartContents(b, page, send, fill) == EdgePage(b, page, 0, send, fill)
  {
    Extents(b);
  }

  /** The contents that the code assembles for the end page. */
  function EndContents(b: Buffer, page: Contents, send: bool, fill: Byte): Contents
    requires |page| == PAGE_SIZE && b.size > 0
  {
    if !send then Fill(fill, PAGE_SIZE)
    else
      var copy := b.addr + b.size - b.MapEnd() * PAGE_SIZE;
      page[..copy] + Fill(fill, PAGE_SIZE - copy)
  }

  lemma {:induction false} EndContentsAreEdge(b: Buffer, page: Contents, send: bool, fill: Byte)
    requires |page| == PAGE_SIZE && b.size > 0 && b.HasEndPage()
    ensures b.NumPages() - 1 == b.MapEnd() - b.AlignedStart()
    ensures EndContents(b, page, send, fill) == EdgePage(b, page, b.NumPages() - 1, send, fill)
  {
    Extents(b);
  }

  // ---- The walk over the client's translation blocks -----------------------------------------

  /** One request: the client's buffer, its translation blocks, the fresh edge pages, and where the server maps it. */
  datatype Request = Request(b: Buffer, walk: Traversal, startPage: nat, endPage: nat, dst: nat) {

    predicate Ok() {
      && b.size > 0
      && walk.Ok()
      && b.NumPages() <= |Client()|
    }

    /** The client's physical pages, from the first page of the buffer on. */
    function Client(): seq<nat>
      requires walk.Ok()
    {
      walk.Pages()
    }

    function Server(): (s: seq<nat>)
      requires Ok()
      ensures |s| == b.NumPages()
    {
      ServerPages(b, Client(), startPage, endPage)
    }

    /** Between the edge pages the server sees the client's pages. */
    lemma {:induction false} WholePagesShared(pos: nat, n: nat)
      requires Ok()
      requires b.MapStart() <= b.AlignedStart() + pos && b.AlignedStart() + pos + n <= b.MapEnd()
      ensures pos + n <= b.NumPages()
      ensures Server()[pos..pos + n] == Client()[pos..pos + n]
    {
      hide Flatten, Walked;
      Extents(b);
    }

    /** Whole pages of a run are mapped as they are. */
    lemma {:induction false} MapPart(t: Table, pos: nat, addr: nat, pages: nat, idx: nat, n: nat)
      requires Ok() && walk.RunAt(pos, addr, pages, idx) && n <= pages
      requires b.MapStart() <= b.AlignedStart() + pos && b.AlignedStart() + pos + n <= b.MapEnd()
      ensures pos + n <= b.NumPages()
      ensures Mapped(Mapped(t, dst, Server()[..pos]), dst + pos, Run(addr, n)) == Mapped(t, dst, Server()[..pos + n])
    {
      hide Flatten, Walked, Mapped;
      walk.RestOfRun(pos, addr, pages, idx, n);
      WholePagesShared(pos, n);
      assert Server()[..pos + n] == Server()[..pos] + Server()[pos..pos + n];
      MappedConcat(t, dst, Server()[..pos], Run(addr, n));
    }

    /** An edge page is mapped after the pages before it. */
    lemma {:induction false} MapOne(t: Table, pos: nat, p: nat)
      requires Ok() && pos < b.NumPages() && Server()[pos] == p
      ensures Mapped(Mapped(t, dst, Server()[..pos]), dst + pos, Run(p, 1)) == Mapped(t, dst, Server()[..pos + 1])
    {
      hide Flatten, Walked, Mapped;
      assert Run(p, 1) == [p];
      assert Server()[..pos + 1] == Server()[..pos] + [p];
      MappedConcat(t, dst, Server()[..pos], [p]);
    }

    /** A part of the mapping is undone by unmapping that part. */
    lemma {:induction false} Undo(t: Table, n: nat)
      requires Ok() && n <= b.NumPages() && Unmapped(t, dst, b.NumPages())
      ensures Cut(Mapped(t, dst, Server()[..n]), dst, n) == t
    {
      hide Flatten, Walked, Mapped, Cut;
      UnmapMapped(t, dst, Server()[..n]);
    }

    /** The client's pages exist. */
    predicate Held(pages: map<nat, Contents>)
      requires Ok()
    {
      forall p :: p in Client()[..b.NumPages()] ==> p in pages && |pages[p]| == PAGE_SIZE
    }

    lemma {:induction false} HeldAt(pages: map<nat, Contents>, k: nat)
      requires Ok() && Held(pages) && k < b.NumPages()
      ensures Client()[k] in pages && |pages[Client()[k]]| == PAGE_SIZE
    {
      hide Flatten, Walked;
      assert Client()[k] in Client()[..b.NumPages()];
    }

    /** The edge pages are newly allocated. */
    predicate Fresh()
      requires Ok()
    {
      && (b.HasStartPage() ==> startPage !in Client()[..b.NumPages()])
      && (b.HasEndPage() ==> endPage !in Client()[..b.NumPages()])
      && (b.HasStartPage() && b.HasEndPage() ==> startPage != endPage)
    }

    lemma {:induction false} FreshAt(k: nat)
      requires Ok() && Fresh() && k < b.NumPages()
      ensures b.HasStartPage() ==> Client()[k] != startPage
      ensures b.HasEndPage() ==> Client()[k] != endPage
    {
      hide Client;
      assert Client()[k] in Client()[..b.NumPages()];
    }

    /** What the memory holds after the edge pages were filled. */
    function Filled(pages: map<nat, Contents>, send: bool, fill: Byte): map<nat, Contents>
      requires Ok() && Held(pages)
    {
      HeldAt(pages, 0);
      HeldAt(pages, b.NumPages() - 1);
      Extents(b);
      var client, last := Client(), b.NumPages() - 1;
      var started :=
        if b.HasStartPage() then pages[startPage := EdgePage(b, pages[client[0]], 0, send, fill)] else pages;
      if b.HasEndPage() then started[endPage := EdgePage(b, pages[client[last]], last, send, fill)] else started
    }
  }

  /** Where the walk stands: the run that is not mapped yet. */
  datatype Cursor = Cursor(pos: nat, addr: nat, pages: nat, idx: nat)

  /** Fills and maps the start page, and moves on past the client's page it stands for. */
  method MapStartPage(pt: PageTable, mem: PhysicalMemory, r: Request, send: bool, fill: Byte) returns (ok: bool, c: Cursor)
    requires r.Ok() && mem.Holds(r.Client()[0])
    modifies pt, mem
    ensures c.pos <= r.b.NumPages() && pt.table == Mapped(old(pt.table), r.dst, r.Server()[..c.pos])
    ensures mem.pages == if r.b.HasStartPage()
                         then old(mem.pages)[r.startPage := EdgePage(r.b, old(mem.pages)[r.Client()[0]], 0, send, fill)]
                         else old(mem.pages)
    ensures ok ==> r.walk.RunAt(c.pos, c.addr, c.pages, c.idx)
    ensures ok ==> c.pos == r.b.MapStart() - r.b.AlignedStart() && (c.pages > 0 || c.pos == r.b.NumPages())
    ensures old(pt.budget) > 0 ==> ok && pt.budget + 1 >= old(pt.budget)
  {
    hide Flatten, Walked, EdgePage, Mapped, PageDown, PageUp;
    Extents(r.b);
    assert r.walk.entries != [] by {
      r.walk.Ends();
    }
    r.walk.FirstRun();
    var first := r.walk.entries[0];
    c := Cursor(0, first.phys, first.blockPages - first.phys % first.blockPages, 1);
    assert r.Client()[0] == c.addr by {
      assert r.Client()[0..c.pages][0] == c.addr;
    }
    assert Mapped(pt.table, r.dst, r.Server()[..0]) == pt.table by {
      MappedNothing(pt.table, r.dst);
      assert r.Server()[..0] == [];
    }
    if r.b.HasStartPage() {
      StartContentsAreEdge(r.b, mem.pages[c.addr], send, fill);
      mem.pages := mem.pages[r.startPage := StartContents(r.b, mem.pages[c.addr], send, fill)];
      ok := pt.Map(r.dst, 1, r.startPage);
      if !ok {
        return;
      }
      r.MapOne(old(pt.table), 0, r.startPage);
      r.walk.RestOfRun(c.pos, c.addr, c.pages, c.idx, 1);
      c := Cursor(1, c.addr + 1, c.pages - 1, 1);
      if c.pages == 0 && r.b.NumPages() > 1 {
        r.walk.NextRun(c.pos, c.addr, c.pages, c.idx);
        var next := r.walk.entries[c.idx];
        c := Cursor(1, next.phys, next.blockPages, c.idx + 1);
      }
    }
    ok := true;
  }

  /** Maps every run of the client's whole pages but the last, one `Map` for each physically contiguous run. */
  method MapRuns(pt: PageTable, r: Request, start: Cursor, ghost t: Table) returns (ok: bool, c: Cursor)
    requires r.Ok() && start.pos == r.b.MapStart() - r.b.AlignedStart() <= r.b.NumPages()
    requires r.walk.RunAt(start.pos, start.addr, start.pages, start.idx) && (start.pages > 0 || start.pos == r.b.NumPages())
    requires pt.table == Mapped(t, r.dst, r.Server()[..start.pos])
    modifies pt
    ensures c.pos <= r.b.NumPages() && pt.table == Mapped(t, r.dst, r.Server()[..c.pos])
    ensures ok ==> r.walk.RunAt(c.pos, c.addr, c.pages, c.idx) && (c.pages > 0 || c.pos == r.b.NumPages())
    ensures ok ==> start.pos <= c.pos && r.b.MapEnd() <= r.b.AlignedStart() + c.pos + c.pages
    ensures ok ==> c.pos == start.pos || r.b.AlignedStart() + c.pos < r.b.MapEnd()
    ensures if ok then pt.budget + |r.walk.entries| > old(pt.budget) else old(pt.budget) < |r.walk.entries|
  {
    hide Flatten, Walked, Mapped;
    Extents(r.b);
    c := start;
    while r.b.AlignedStart() + (c.pos + c.pages) < r.b.MapEnd()
      invariant r.walk.RunAt(c.pos, c.addr, c.pages, c.idx)
      invariant start.pos <= c.pos && (c.pages > 0 || c.pos == r.b.NumPages())
      invariant c.pos <= r.b.NumPages() && (c.pos == start.pos || r.b.AlignedStart() + c.pos < r.b.MapEnd())
      invariant pt.table == Mapped(t, r.dst, r.Server()[..c.pos])
      invariant pt.budget + c.idx > old(pt.budget)
      decreases r.b.MapEnd() - (c.pos + c.pages)
    {
      r.walk.NextRun(c.pos, c.addr, c.pages, c.idx);
      var next := r.walk.entries[c.idx];
      if next.phys != c.addr + c.pages {
        ok := pt.Map(r.dst + c.pos, c.pages, c.addr);
        if !ok {
          return;
        }
        r.MapPart(t, c.pos, c.addr, c.pages, c.idx, c.pages);
        c := Cursor(c.pos + c.pages, next.phys, next.blockPages, c.idx + 1);
      } else {
        c := Cursor(c.pos, c.addr, c.pages + next.blockPages, c.idx + 1);
      }
    }
    ok := true;
  }

  /** Maps what is left of the client's whole pages.  Afterwards the cursor stands on the client's last page
      if that is only partly covered. */
  method MapLastRun(pt: PageTable, r: Request, start: Cursor, ghost t: Table) returns (ok: bool, c: Cursor)
    requires r.Ok() && r.walk.RunAt(start.pos, start.addr, start.pages, start.idx)
    requires start.pages > 0 || start.pos == r.b.NumPages()
    requires r.b.MapStart() <= r.b.AlignedStart() + start.pos <= r.b.AlignedEnd()
    requires r.b.MapEnd() <= r.b.AlignedStart() + start.pos + start.pages
    requires pt.table == Mapped(t, r.dst, r.Server()[..start.pos])
    modifies pt
    ensures c.pos <= r.b.NumPages() && pt.table == Mapped(t, r.dst, r.Server()[..c.pos])
    ensures ok ==> r.b.AlignedStart() + c.pos
                   == if r.b.AlignedStart() + start.pos < r.b.MapEnd() then r.b.MapEnd() else r.b.AlignedStart() + start.pos
    ensures ok && c.pos < r.b.NumPages() ==> c.addr == r.Client()[c.pos]
    ensures old(pt.budget) > 0 ==> ok && pt.budget + 1 >= old(pt.budget)
  {
    hide Flatten, Walked, Mapped;
    Extents(r.b);
    c := start;
    if r.b.AlignedStart() + c.pos < r.b.MapEnd() {
      var last := r.b.MapEnd() - (r.b.AlignedStart() + c.pos);
      ok := pt.Map(r.dst + c.pos, last, c.addr);
      if !ok {
        return;
      }
      r.MapPart(t, c.pos, c.addr, c.pages, c.idx, last);
      r.walk.RestOfRun(c.pos, c.addr, c.pages, c.idx, last);
      c := Cursor(c.pos + last, c.addr + last, c.pages - last, c.idx);
      if r.b.AlignedStart() + c.pos + c.pages < r.b.AlignedEnd() && c.pages == 0 {
        r.walk.NextRun(c.pos, c.addr, c.pages, c.idx);
        c := Cursor(c.pos, r.walk.entries[c.idx].phys, r.walk.entries[c.idx].blockPages, c.idx + 1);
      }
    }
    if c.pos < r.b.NumPages() {
      assert r.Client()[c.pos] == r.Client()[c.pos..c.pos + c.pages][0];
    }
    ok := true;
  }

  /** Fills and maps the end page from the client's last page. */
  method MapEndPage(pt: PageTable, mem: PhysicalMemory, r: Request, c: Cursor, send: bool, fill: Byte, ghost t: Table)
    returns (ok: bool)
    requires r.Ok() && c.pos <= r.b.NumPages() && (c.pos < r.b.NumPages() ==> c.addr == r.Client()[c.pos])
    requires r.b.HasEndPage() ==> c.pos == r.b.NumPages() - 1 && mem.Holds(c.addr)
    requires pt.table == Mapped(t, r.dst, r.Server()[..c.pos])
    modifies pt, mem
    ensures pt.table == Mapped(t, r.dst, r.Server()[..if ok && r.b.HasEndPage() then c.pos + 1 else c.pos])
    ensures mem.pages == if r.b.HasEndPage()
                         then old(mem.pages)[r.endPage := EdgePage(r.b, old(mem.pages)[c.addr], c.pos, send, fill)]
                         else old(mem.pages)
    ensures old(pt.budget) > 0 ==> ok
  {
    hide Flatten, Walked, EdgePage, Mapped;
    Extents(r.b);
    if r.b.HasEndPage() {
      EndContentsAreEdge(r.b, mem.pages[c.addr], send, fill);
      mem.pages := mem.pages[r.endPage := EndContents(r.b, mem.pages[c.addr], send, fill)];
      ok := pt.Map(r.dst + c.pos, 1, r.endPage);
      if ok {
        r.MapOne(t, c.pos, r.endPage);
      }
    } else {
      ok := true;
    }
  }

  datatype Outcome =
    Success(outAddr: nat, reserved: nat) | OutOfAddressSpace | OutOfResource | LimitReached | OutOfMemory | OutOfPageTables

  /** What the environment grants: the size of the alias region, whether it has a free area (at page `r.dst`), how many
      memory blocks the slab has left, and how many pages the resource limit has left; an edge page of 0 is a failed
      allocation. */
  datatype Grant = Grant(regionSize: nat, found: bool, slab: nat, limit: nat) {

    /** Whether everything but the page table's own memory is there. */
    predicate Enough(r: Request)
      requires r.b.size > 0
    {
      && r.b.size < regionSize && found && slab >= 2
      && r.b.NumPages() - r.b.NumWhole() <= limit
      && (r.b.HasStartPage() ==> r.startPage != 0)
      && (r.b.HasEndPage() ==> r.endPage != 0)
    }
  }

  /** The area for the server's view lies in the space and is free, in the blocks and in the table. */
  ghost predicate FreeArea(m: BlockManager, table: Table, dst: nat, n: nat)
    reads m
  {
    FreeAreaIn(m.blocks, m.start, m.end, table, dst, n)
  }

  predicate FreeAreaIn(bs: seq<Block>, start: nat, end: nat, table: Table, dst: nat, n: nat) {
    && start <= dst && dst + n <= end && |View(bs)| == end - start
    && (forall k :: dst - start <= k < dst + n - start ==> View(bs)[k].info.state == STATE_FREE)
    && Unmapped(table, dst, n)
  }

  /** Nothing in memory changed but the fresh edge pages. */
  twostate predicate OnlyEdgesWritten(mem: PhysicalMemory, r: Request)
    reads mem
  {
    forall p :: p in old(mem.pages) && (r.b.HasStartPage() ==> p != r.startPage) && (r.b.HasEndPage() ==> p != r.endPage)
                ==> p in mem.pages && mem.pages[p] == old(mem.pages[p])
  }

  /** Maps the start page, the whole pages and the end page; `pos` pages were mapped when it stops. */
  method MapPages(pt: PageTable, mem: PhysicalMemory, r: Request, send: bool, fill: Byte) returns (ok: bool, pos: nat)
    requires r.Ok() && r.Held(mem.pages) && r.Fresh()
    modifies pt, mem
    ensures pos <= r.b.NumPages() && pt.table == Mapped(old(pt.table), r.dst, r.Server()[..pos])
    ensures ok ==> pos == r.b.NumPages() && mem.pages == r.Filled(old(mem.pages), send, fill)
    ensures OnlyEdgesWritten(mem, r)
    ensures old(pt.budget) >= |r.walk.entries| + 2 ==> ok
  {
    hide r.Client, r.Server, EdgePage, Mapped;
    Extents(r.b);
    r.HeldAt(mem.pages, 0);
    r.HeldAt(mem.pages, r.b.NumPages() - 1);
    r.FreshAt(r.b.NumPages() - 1);
    ghost var t := pt.table;
    var c;
    ok, c := MapStartPage(pt, mem, r, send, fill);
    if !ok {
      return false, c.pos;
    }
    ok, c := MapRuns(pt, r, c, t);
    if !ok {
      return false, c.pos;
    }
    ok, c := MapLastRun(pt, r, c, t);
    if !ok {
      return false, c.pos;
    }
    ok := MapEndPage(pt, mem, r, c, send, fill, t);
    return ok, if ok && r.b.HasEndPage() then c.pos + 1 else c.pos;
  }

  /** `SetupForIpcServer`: maps the request and records it in the server's blocks, or leaves both as they were. */
  method SetupForIpcServer(pt: PageTable, m: BlockManager, mem: PhysicalMemory, r: Request, g: Grant, state: nat,
                           perm: Perm,
                           send: bool, fill: Byte)
    returns (res: Outcome)
    requires r.Ok() && r.Held(mem.pages) && r.Fresh() && m.Valid() && state != STATE_FREE
    requires g.found ==> FreeArea(m, pt.table, r.dst, r.b.NumPages())
    modifies pt, m`blocks, mem
    ensures m.Valid()
    ensures res.Success? ==>
              && g.Enough(r)
              && pt.table == Mapped(old(pt.table), r.dst, r.Server())
              && mem.pages == r.Filled(old(mem.pages), send, fill)
              && res.outAddr == r.dst * PAGE_SIZE + r.b.Offset()
              && res.reserved == r.b.NumPages() - r.b.NumWhole()
    ensures res.Success? ==>
              var v, at := old(View(m.blocks)), r.dst - m.start;
              && 0 <= at && at + r.b.NumPages() <= |v| && RangeFits(ShowPages(state, perm), v, at, at + r.b.NumPages())
              && View(m.blocks) == ApplyRange(ShowPages(state, perm), v, at, at + r.b.NumPages())
    ensures !res.Success? ==> pt.table == old(pt.table) && m.blocks == old(m.blocks)
    ensures OnlyEdgesWritten(mem, r)
    ensures g.Enough(r) && old(pt.budget) >= |r.walk.entries| + 2 ==> res.Success?
    ensures (res.OutOfPageTables? || res.Success?) <==> g.Enough(r)
  {
    hide r.Client, r.Server, r.Filled, Mapped, Cut, View, ApplyRange, Tiles, Coalesced, CutEnds;
    Extents(r.b);
    if r.b.size >= g.regionSize || !g.found {
      return OutOfAddressSpace;
    }
    if g.slab < 2 {
      return OutOfResource;
    }
    var unmapped := r.b.NumPages() - r.b.NumWhole();
    if g.limit < unmapped {
      return LimitReached;
    }
    if (r.b.HasStartPage() && r.startPage == 0) || (r.b.HasEndPage() && r.endPage == 0) {
      return OutOfMemory;
    }
    ghost var t := pt.table;
    var ok, pos := MapPages(pt, mem, r, send, fill);
    if !ok {
      r.Undo(t, pos);
      pt.Unmap(r.dst, pos);
      return OutOfPageTables;
    }
    assert r.Server()[..r.b.NumPages()] == r.Server();
    CutEndsSuffice(m.blocks, m.start, m.end, ShowPages(state, perm), r.dst, r.b.NumPages());
    UpdateOne(m, r.dst - m.start, r.b.NumPages(), ShowPages(state, perm), 2);
    return Success(r.dst * PAGE_SIZE + r.b.Offset(), unmapped);
  }
}
