/** What the two sides of a mapped IPC buffer see, byte by byte, and how the reply brings the edge
    pages back (`ProcessSendMessageReceiveMapping`). */
module IpcViews {
  import opened Bytes
  import opened MemoryBlocks
  import opened BlockUpdates
  import opened BlockManagers
  import opened StateChecks
  import opened IpcBuffers
  import opened IpcMappings
  import opened PageGroups
  import opened PageTables
  import PageRanges
  import opened Traversals

  /** If the walk is over the client's table, the server's table shows the client's page behind every whole page. */
  lemma {:induction false} WholePagesMapped(r: Request, client: Table, server: Table, i: nat)
    requires r.Ok() && PageRanges.Walks(client, r.b.AlignedStart(), r.walk)
    requires r.b.MapStart() <= r.b.AlignedStart() + i < r.b.MapEnd()
    ensures var after := Mapped(server, r.dst, r.Server());
            && r.dst + i in after && r.b.AlignedStart() + i in client
            && after[r.dst + i] == client[r.b.AlignedStart() + i]
  {
    hide Flatten, Walked;
    Extents(r.b);
    var p := r.walk.Pages()[i];
    assert InRange(r.dst + i, r.dst, |r.Server()|);
  }

  /** Byte `k` of the view that maps the pages `ps` one after the other. */
  function ByteAt(pages: map<nat, Contents>, ps: seq<nat>, k: nat): Byte
    requires k < |ps| * PAGE_SIZE && ps[k / PAGE_SIZE] in pages && |pages[ps[k / PAGE_SIZE]]| == PAGE_SIZE
  {
    pages[ps[k / PAGE_SIZE]][k % PAGE_SIZE]
  }

  /** Byte `k`, counted from the start of the first page, lies in the buffer. */
  predicate InBuffer(b: Buffer, k: nat) {
    b.Offset() <= k < b.Offset() + b.size
  }

  predicate IsStart(b: Buffer, i: nat) {
    i == 0 && b.HasStartPage()
  }

  predicate IsEnd(b: Buffer, i: nat)
    requires b.size > 0
  {
    i == b.NumPages() - 1 && b.HasEndPage()
  }

  /** A byte outside the buffer is on an edge page, and no page is both edges. */
  lemma {:induction false} OutsideIsEdge(b: Buffer, k: nat)
    requires b.size > 0 && k < b.NumPages() * PAGE_SIZE
    ensures k / PAGE_SIZE < b.NumPages()
    ensures IsStart(b, k / PAGE_SIZE) || IsEnd(b, k / PAGE_SIZE) || InBuffer(b, k)
    ensures !(IsStart(b, k / PAGE_SIZE) && IsEnd(b, k / PAGE_SIZE))
    ensures InBuffer(b, k) <==> b.addr <= (b.AlignedStart() + k / PAGE_SIZE) * PAGE_SIZE + k % PAGE_SIZE < b.addr + b.size
  {
    Extents(b);
  }

  /** The pages that the server sees exist, and an edge page is none of the client's. */
  lemma {:induction false} ServerHeld(r: Request, pages: map<nat, Contents>, send: bool, fill: Byte, i: nat)
    requires r.Ok() && r.Held(pages) && r.Fresh() && i < r.b.NumPages()
    ensures r.Client()[i] in pages && |pages[r.Client()[i]]| == PAGE_SIZE
    ensures var f := r.Filled(pages, send, fill);
            && r.Server()[i] in f && |f[r.Server()[i]]| == PAGE_SIZE
            && f[r.Server()[i]] == if IsStart(r.b, i) || IsEnd(r.b, i)
                                   then EdgePage(r.b, pages[r.Client()[i]], i, send, fill)
                                   else pages[r.Client()[i]]
  {
    hide r.Client, EdgePage;
    Extents(r.b);
    r.HeldAt(pages, 0);
    r.HeldAt(pages, r.b.NumPages() - 1);
    r.HeldAt(pages, i);
    assert r.Client()[i] in r.Client()[..r.b.NumPages()];
  }

  /** The server's view right after setup: inside the buffer it shows the client's bytes, on every shared page and,
      when sending, on the edge pages too; outside the buffer it shows nothing but the fill value. */
  lemma {:induction false} ServerView(r: Request, pages: map<nat, Contents>, send: bool, fill: Byte, k: nat)
    requires r.Ok() && r.Held(pages) && r.Fresh() && k < r.b.NumPages() * PAGE_SIZE
    ensures var i, f := k / PAGE_SIZE, r.Filled(pages, send, fill);
            && i < r.b.NumPages()
            && r.Client()[i] in pages && |pages[r.Client()[i]]| == PAGE_SIZE
            && r.Server()[i] in f && |f[r.Server()[i]]| == PAGE_SIZE
            && ByteAt(f, r.Server(), k)
               == if InBuffer(r.b, k) && (send || !(IsStart(r.b, i) || IsEnd(r.b, i)))
                  then ByteAt(pages, r.Client(), k) else fill
  {
    hide r.Client, r.Filled;
    OutsideIsEdge(r.b, k);
    ServerHeld(r, pages, send, fill, k / PAGE_SIZE);
  }

  /** `page` with `bytes` written at `at`. */
  function Splice(page: Contents, at: nat, bytes: seq<Byte>): Contents
    requires |page| == PAGE_SIZE && at + |bytes| <= PAGE_SIZE
  {
    page[..at] + bytes + page[at + |bytes|..]
  }

  /** Page `i` of the client's view with the bytes of the buffer taken from the server's page. */
  function BroughtBack(b: Buffer, i: nat, page: Contents, server: Contents): (r: Contents)
    requires |page| == PAGE_SIZE && |server| == PAGE_SIZE
    ensures |r| == PAGE_SIZE
    ensures forall j :: 0 <= j < PAGE_SIZE ==> r[j] == if InBuffer(b, i * PAGE_SIZE + j) then server[j] else page[j]
  {
    seq(PAGE_SIZE, j requires 0 <= j < PAGE_SIZE => if InBuffer(b, i * PAGE_SIZE + j) then server[j] else page[j])
  }

  /** How many bytes of the start page belong to the buffer. */
  function StartBytes(b: Buffer): nat
    requires b.size > 0 && b.HasStartPage()
  {
    Extents(b);
    if b.size < b.MapStart() * PAGE_SIZE - b.addr then b.size else b.MapStart() * PAGE_SIZE - b.addr
  }

  lemma {:induction false} StartBroughtBack(b: Buffer, page: Contents, server: Contents)
    requires b.size > 0 && b.HasStartPage() && |page| == PAGE_SIZE && |server| == PAGE_SIZE
    ensures b.Offset() + StartBytes(b) <= PAGE_SIZE
    ensures Splice(page, b.Offset(), server[b.Offset()..b.Offset() + StartBytes(b)]) == BroughtBack(b, 0, page, server)
  {
    Extents(b);
  }

  lemma {:induction false} EndBroughtBack(b: Buffer, page: Contents, server: Contents)
    requires b.size > 0 && b.HasEndPage() && |page| == PAGE_SIZE && |server| == PAGE_SIZE
    ensures 0 <= b.addr + b.size - b.MapEnd() * PAGE_SIZE <= PAGE_SIZE
    ensures Splice(page, 0, server[..b.addr + b.size - b.MapEnd() * PAGE_SIZE])
            == BroughtBack(b, b.NumPages() - 1, page, server)
  {
    Extents(b);
  }

  /** The client's edge pages are each mapped once in its buffer. */
  predicate EdgesOnce(r: Request)
    requires r.Ok()
  {
    && (r.b.HasStartPage() ==> r.Client()[0] !in r.Client()[1..r.b.NumPages()])
    && (r.b.HasEndPage() ==> r.Client()[r.b.NumPages() - 1] !in r.Client()[..r.b.NumPages() - 1])
  }

  /** Memory in which both sides of the mapping exist. */
  predicate BothHeld(r: Request, pages: map<nat, Contents>)
    requires r.Ok()
  {
    r.Held(pages) && forall p :: p in r.Server() ==> p in pages && |pages[p]| == PAGE_SIZE
  }

  lemma {:induction false} BothHeldAt(r: Request, pages: map<nat, Contents>, i: nat)
    requires r.Ok() && BothHeld(r, pages) && i < r.b.NumPages()
    ensures r.Client()[i] in pages && |pages[r.Client()[i]]| == PAGE_SIZE
    ensures r.Server()[i] in pages && |pages[r.Server()[i]]| == PAGE_SIZE
  {
    hide r.Client;
    r.HeldAt(pages, i);
    assert r.Server()[i] in r.Server();
  }

  /** The memory with page `i` of the server's view brought back. */
  function PageReplied(r: Request, pages: map<nat, Contents>, i: nat): (m: map<nat, Contents>)
    requires r.Ok() && BothHeld(r, pages) && i < r.b.NumPages()
    ensures BothHeld(r, m)
  {
    BothHeldAt(r, pages, i);
    pages[r.Client()[i] := BroughtBack(r.b, i, pages[r.Client()[i]], pages[r.Server()[i]])]
  }

  function StartReplied(r: Request, pages: map<nat, Contents>): (m: map<nat, Contents>)
    requires r.Ok() && BothHeld(r, pages)
    ensures BothHeld(r, m)
  {
    Extents(r.b);
    if r.b.HasStartPage() then PageReplied(r, pages, 0) else pages
  }

  /** The memory after the edges were brought back. */
  function Replied(r: Request, pages: map<nat, Contents>): (m: map<nat, Contents>)
    requires r.Ok() && BothHeld(r, pages)
    ensures BothHeld(r, m)
  {
    Extents(r.b);
    if r.b.HasEndPage() then PageReplied(r, StartReplied(r, pages), r.b.NumPages() - 1) else StartReplied(r, pages)
  }

  /** The server still has its view. */
  predicate ViewMapped(table: Table, r: Request)
    requires r.Ok()
  {
    forall i :: 0 <= i < r.b.NumPages() ==> r.dst + i in table && table[r.dst + i] == r.Server()[i]
  }

  lemma {:induction false} ViewMappedAt(table: Table, r: Request, i: nat)
    requires r.Ok() && ViewMapped(table, r) && i < r.b.NumPages()
    ensures r.dst + i in table && table[r.dst + i] == r.Server()[i]
  {
    var p := r.Server()[i];
  }

  /** Where the edges of the server's view lie. */
  lemma {:induction false} ServerEdges(b: Buffer, dst: nat, serverAddress: nat)
    requires b.size > 0 && serverAddress == dst * PAGE_SIZE + b.Offset()
    ensures PageDown(serverAddress) == dst && serverAddress % PAGE_SIZE == b.Offset()
    ensures b.HasEndPage() ==> PageDown(serverAddress + b.size) == dst + b.NumPages() - 1
  {
    Extents(b);
    var server := Buffer(serverAddress, b.size);
    SameOffset(b, server);
    Extents(server);
  }

  datatype ReplyResult = Done | InvalidCombination | InvalidCurrentMemory

  lemma {:induction false} StartFits(b: Buffer)
    requires b.size > 0 && b.HasStartPage()
    ensures 0 < StartBytes(b) && b.addr % PAGE_SIZE + StartBytes(b) <= PAGE_SIZE
  {
    Extents(b);
  }

  lemma {:induction false} EndFits(b: Buffer)
    requires b.size > 0 && b.HasEndPage()
    ensures b.MapEnd() * PAGE_SIZE % PAGE_SIZE == 0 && 0 < b.addr + b.size - b.MapEnd() * PAGE_SIZE <= PAGE_SIZE
  {
    Extents(b);
  }

  /** The client's memory may be written at `n` bytes from `addr` on, which lie in one page. */
  predicate EdgeOk(v: seq<PageView>, start: nat, addr: nat, n: nat, test: PageInfo -> bool) {
    && InSpace(Buffer(addr, n), start, start + |v|) && start <= PageDown(addr) < start + |v|
    && test(v[PageDown(addr) - start].info)
  }

  /** The checks of one copy. */
  method CheckEdge(m: BlockManager, addr: nat, n: nat, test: PageInfo -> bool) returns (ok: bool)
    requires m.Valid() && |View(m.blocks)| == m.end - m.start && 0 < n && addr % PAGE_SIZE + n <= PAGE_SIZE
    ensures ok <==> EdgeOk(View(m.blocks), m.start, addr, n, test)
  {
    hide View, Tiles, Coalesced, AllEdgesOk, AllCountsOk, IsBoundary;
    if !InSpace(Buffer(addr, n), m.start, m.end) {
      return false;
    }
    assert PageUp(addr + n) == PageDown(addr) + 1;
    var blocks;
    ok, blocks := CheckMemoryStateContiguous(m, addr, n, test);
  }

  /** The copies of the two edges may be made. */
  ghost predicate StartOk(v: seq<PageView>, start: nat, b: Buffer, test: PageInfo -> bool)
    requires b.size > 0
  {
    b.HasStartPage() ==> EdgeOk(v, start, b.addr, StartBytes(b), test)
  }

  ghost predicate EndOk(v: seq<PageView>, start: nat, b: Buffer, test: PageInfo -> bool)
    requires b.size > 0
  {
    b.HasEndPage() ==> EdgeOk(v, start, b.MapEnd() * PAGE_SIZE, b.addr + b.size - b.MapEnd() * PAGE_SIZE, test)
  }

  /** `ProcessSendMessageReceiveMapping`: copies the edges of the server's view back to the client, whose blocks are those
      of `client`.  `ipcState` says whether the memory state is one of the three for IPC, and `test` is what that state asks
      of a page. */
  method ProcessSendMessageReceiveMapping(client: BlockManager, mem: PhysicalMemory, r: Request, table: Table,
                                          serverAddress: nat,
                                          ipcState: bool, test: PageInfo -> bool)
    returns (res: ReplyResult)
    requires client.Valid() && |View(client.blocks)| == client.end - client.start
    requires r.b.size > 0 ==>
               && r.Ok() && BothHeld(r, mem.pages)
               && ViewMapped(table, r) && serverAddress == r.dst * PAGE_SIZE + r.b.Offset()
    modifies mem
    ensures res == if r.b.size == 0 then Done
                   else if !ipcState then InvalidCombination
                   else if !StartOk(View(client.blocks), client.start, r.b, test) then InvalidCurrentMemory
                   else if !EndOk(View(client.blocks), client.start, r.b, test) then InvalidCurrentMemory
                   else Done
    ensures r.b.size > 0 ==>
              mem.pages == if res.Done? then Replied(r, old(mem.pages))
                           else if ipcState && StartOk(View(client.blocks), client.start, r.b, test)
                           then StartReplied(r, old(mem.pages))
                           else old(mem.pages)
    ensures r.b.size == 0 ==> mem.pages == old(mem.pages)
  {
    hide r.Client, BroughtBack, Splice, r.Server, BothHeld, PageDown, PageUp, ViewMapped, View, Tiles, Coalesced;
    hide AllEdgesOk, AllCountsOk, EdgeOk;
    if r.b.size == 0 {
      return Done;
    }
    if !ipcState {
      return InvalidCombination;
    }
    var last := r.b.NumPages() - 1;
    Extents(r.b);
    ServerEdges(r.b, r.dst, serverAddress);
    if r.b.HasStartPage() {
      var n := StartBytes(r.b);
      StartFits(r.b);
      var ok := CheckEdge(client, r.b.addr, n, test);
      if !ok {
        return InvalidCurrentMemory;
      }
      ViewMappedAt(table, r, 0);
      var dst, src := r.Client()[0], table[PageDown(serverAddress)];
      var at := serverAddress % PAGE_SIZE;
      BothHeldAt(r, mem.pages, 0);
      StartBroughtBack(r.b, mem.pages[dst], mem.pages[src]);
      mem.pages := mem.pages[dst := Splice(mem.pages[dst], at, mem.pages[src][at..at + n])];
    }
    assert mem.pages == StartReplied(r, old(mem.pages));
    if r.b.HasEndPage() {
      var n := r.b.addr + r.b.size - r.b.MapEnd() * PAGE_SIZE;
      EndFits(r.b);
      var ok := CheckEdge(client, r.b.MapEnd() * PAGE_SIZE, n, test);
      if !ok {
        return InvalidCurrentMemory;
      }
      ViewMappedAt(table, r, last);
      var dst, src := r.Client()[last], table[PageDown(serverAddress + r.b.size)];
      BothHeldAt(r, mem.pages, last);
      EndBroughtBack(r.b, mem.pages[dst], mem.pages[src]);
      mem.pages := mem.pages[dst := Splice(mem.pages[dst], 0, mem.pages[src][..n])];
    }
    return Done;
  }

  /** Byte `k` of the client's pages is right after the reply: in the buffer it reads as the server's view did, and outside
      it reads as before. */
  ghost predicate Delivered(r: Request, pages: map<nat, Contents>, k: nat)
    requires r.Ok() && BothHeld(r, pages)
  {
    var i, after := k / PAGE_SIZE, Replied(r, pages);
    i < r.b.NumPages() ==>
      && r.Client()[i] in pages && |pages[r.Client()[i]]| == PAGE_SIZE
      && r.Server()[i] in pages && |pages[r.Server()[i]]| == PAGE_SIZE
      && r.Client()[i] in after && |after[r.Client()[i]]| == PAGE_SIZE
      && ByteAt(after, r.Client(), k)
         == if InBuffer(r.b, k) then ByteAt(pages, r.Server(), k) else ByteAt(pages, r.Client(), k)
  }

  /** With each edge page mapped once, the two copies do not meet. */
  lemma {:induction false} EdgeFacts(r: Request, i: nat)
    requires r.Ok() && r.Fresh() && EdgesOnce(r) && i < r.b.NumPages()
    ensures r.b.HasStartPage() && i > 0 ==> r.Client()[i] != r.Client()[0]
    ensures r.b.HasEndPage() && i < r.b.NumPages() - 1 ==> r.Client()[i] != r.Client()[r.b.NumPages() - 1]
    ensures r.b.HasStartPage() ==> r.Client()[i] != r.startPage
    ensures r.b.HasEndPage() ==> r.Client()[i] != r.endPage
  {
    hide r.Client;
    var client, n := r.Client(), r.b.NumPages();
    r.FreshAt(i);
    if i > 0 {
      assert client[i] == client[1..n][i - 1];
    }
    if i < n - 1 {
      assert client[i] == client[..n - 1][i];
    }
  }

  /** Page `i` of the client's buffer after the reply. */
  lemma {:induction false} RepliedPage(r: Request, pages: map<nat, Contents>, i: nat)
    requires r.Ok() && BothHeld(r, pages) && r.Fresh() && EdgesOnce(r) && i < r.b.NumPages()
    ensures r.Client()[i] in pages && |pages[r.Client()[i]]| == PAGE_SIZE
    ensures r.Server()[i] in pages && |pages[r.Server()[i]]| == PAGE_SIZE
    ensures r.Client()[i] in Replied(r, pages)
    ensures Replied(r, pages)[r.Client()[i]]
            == if IsStart(r.b, i) || IsEnd(r.b, i) then BroughtBack(r.b, i, pages[r.Client()[i]], pages[r.Server()[i]])
               else pages[r.Client()[i]]
    ensures !IsStart(r.b, i) && !IsEnd(r.b, i) ==> r.Server()[i] == r.Client()[i]
  {
    hide r.Client, BroughtBack, BothHeld;
    Extents(r.b);
    var last := r.b.NumPages() - 1;
    EdgeFacts(r, i);
    EdgeFacts(r, 0);
    EdgeFacts(r, last);
    BothHeldAt(r, pages, i);
    BothHeldAt(r, pages, last);
  }

  /** After the reply the client's buffer reads as the server's view did, and no other byte of the client's pages
      changed. */
  lemma {:induction false} ReplyDelivers(r: Request, pages: map<nat, Contents>, k: nat)
    requires r.Ok() && BothHeld(r, pages) && r.Fresh() && EdgesOnce(r)
    ensures Delivered(r, pages, k)
  {
    hide r.Client, r.Server, Replied;
    if k / PAGE_SIZE < r.b.NumPages() {
      OutsideIsEdge(r.b, k);
      RepliedPage(r, pages, k / PAGE_SIZE);
      assert k == k / PAGE_SIZE * PAGE_SIZE + k % PAGE_SIZE;
    }
  }

  // ---- A client that shows an edge page twice --------------------------------------------------

  /** A memory in which the start page, the end page and all others are told apart. */
  function Marked(r: Request): map<nat, Contents>
    requires r.Ok()
  {
    MarkedMemory(r, r.Client()[..r.b.NumPages()] + r.Server())
  }

  function MarkedMemory(r: Request, ps: seq<nat>): (m: map<nat, Contents>)
    ensures m.Keys == set p | p in ps
    ensures forall p :: p in m ==> |m[p]| == PAGE_SIZE
  {
    map p | p in ps ::
      Fill(if r.b.HasStartPage() && p == r.startPage then 1 else if r.b.HasEndPage() && p == r.endPage then 2 else 0, PAGE_SIZE)
  }

  lemma {:induction false} MarkedHeld(r: Request)
    requires r.Ok()
    ensures BothHeld(r, Marked(r))
  {
    hide r.Client, r.Server, MarkedMemory;
    var ps := r.Client()[..r.b.NumPages()] + r.Server();
    assert forall p :: p in ps <==> p in Marked(r);
  }

  lemma {:induction false} MarkedPage(r: Request, i: nat)
    requires r.Ok() && r.Fresh() && i < r.b.NumPages()
    ensures r.Client()[i] in Marked(r) && Marked(r)[r.Client()[i]] == Fill(0, PAGE_SIZE)
    ensures r.Server()[i] in Marked(r)
    ensures Marked(r)[r.Server()[i]] == Fill(if IsStart(r.b, i) then 1 else if IsEnd(r.b, i) then 2 else 0, PAGE_SIZE)
  {
    hide r.Client;
    Extents(r.b);
    r.FreshAt(i);
    MarkedHeld(r);
    BothHeldAt(r, Marked(r), i);
  }

  /** What the reply makes of byte `j` of page `i` in that memory, if the page is an edge page of the client. */
  lemma {:induction false} MarkedReply(r: Request, i: nat, j: nat)
    requires r.Ok() && r.Fresh() && i < r.b.NumPages() && j < PAGE_SIZE && BothHeld(r, Marked(r))
    ensures var m, last := Replied(r, Marked(r)), r.b.NumPages() - 1;
            && r.Client()[i] in m && |m[r.Client()[i]]| == PAGE_SIZE
            && m[r.Client()[i]][j]
               == if r.b.HasEndPage() && r.Client()[i] == r.Client()[last] && InBuffer(r.b, last * PAGE_SIZE + j) then 2
                  else if r.b.HasStartPage() && r.Client()[i] == r.Client()[0] && InBuffer(r.b, j) then 1
                  else 0
  {
    hide r.Client, Marked, BothHeld;
    Extents(r.b);
    var last := r.b.NumPages() - 1;
    MarkedPage(r, 0);
    MarkedPage(r, i);
    MarkedPage(r, last);
    r.FreshAt(0);
    BothHeldAt(r, Marked(r), i);
    BothHeldAt(r, Replied(r, Marked(r)), i);
  }

  /** A byte that is wrong after the reply if page `i`, an edge page, is also page `j`. */
  lemma {:induction false} EdgeTwice(r: Request, i: nat, j: nat) returns (k: nat)
    requires r.Ok() && r.Fresh() && i < r.b.NumPages() && j < r.b.NumPages() && i != j && r.Client()[i] == r.Client()[j]
    requires BothHeld(r, Marked(r))
    requires IsStart(r.b, i) || (IsEnd(r.b, i) && !IsStart(r.b, j))
    ensures !Delivered(r, Marked(r), k)
  {
    hide r.Client, r.Server, Marked, Replied, BothHeld;
    Extents(r.b);
    // The first byte of the edge that belongs to the buffer.
    var at := if IsStart(r.b, i) then r.b.Offset() else 0;
    MarkedPage(r, i);
    MarkedPage(r, j);
    MarkedReply(r, i, at);
    k := if IsEnd(r.b, j) && InBuffer(r.b, j * PAGE_SIZE + at) then i * PAGE_SIZE + at else j * PAGE_SIZE + at;
    OutsideIsEdge(r.b, k);
  }

  /** The reply is right for whatever memory holds, if and only if each edge page of the client is mapped once in its
      buffer. */
  lemma {:induction false} DeliversIffEdgesOnce(r: Request)
    requires r.Ok() && r.Fresh()
    ensures (forall pages: map<nat, Contents>, k: nat :: BothHeld(r, pages) ==> Delivered(r, pages, k)) <==> EdgesOnce(r)
  {
    if EdgesOnce(r) {
      forall pages: map<nat, Contents>, k: nat | BothHeld(r, pages)
        ensures Delivered(r, pages, k)
      {
        ReplyDelivers(r, pages, k);
      }
    } else {
      MarkedHeld(r);
      var k := SomethingWrong(r);
      assert !Delivered(r, Marked(r), k);
    }
  }

  lemma {:induction false} SomethingWrong(r: Request) returns (k: nat)
    requires r.Ok() && r.Fresh() && !EdgesOnce(r) && BothHeld(r, Marked(r))
    ensures !Delivered(r, Marked(r), k)
  {
    hide r.Client, r.Server, Marked, Replied, BothHeld, Delivered;
    Extents(r.b);
    var client, n := r.Client(), r.b.NumPages();
    if r.b.HasStartPage() && client[0] in client[1..n] {
      var j :| 0 <= j < n - 1 && client[1..n][j] == client[0];
      k := EdgeTwice(r, 0, j + 1);
    } else {
      var j :| 0 <= j < n - 1 && client[..n - 1][j] == client[n - 1];
      k := EdgeTwice(r, n - 1, j);
    }
  }

  /** No page outside the client's edges changes in a reply. */
  lemma {:induction false} ReplyTouchesEdgesOnly(r: Request, pages: map<nat, Contents>, p: nat)
    requires r.Ok() && BothHeld(r, pages) && p in pages
    requires r.b.NumPages() > 0 && p != r.Client()[0] && p != r.Client()[r.b.NumPages() - 1]
    ensures p in Replied(r, pages) && Replied(r, pages)[p] == pages[p]
  {
    hide r.Client, r.Server, BroughtBack;
  }
}
