/** The extents of an IPC buffer: the pages it touches, the whole pages inside it, and the edge
    pages that are only partly covered. */
module IpcBuffers {
  import opened Bytes

  /** A buffer of `size` bytes at byte address `addr`. */
  datatype Buffer = Buffer(addr: nat, size: nat) {

    function AlignedStart(): nat { PageDown(addr) }
    function AlignedEnd(): nat { PageUp(addr + size) }
    function MapStart(): nat { PageUp(addr) }
    function MapEnd(): nat { PageDown(addr + size) }

    function Offset(): nat { addr % PAGE_SIZE }

    function NumPages(): nat
      requires size > 0
    {
      AlignedEnd() - AlignedStart()
    }

    /** Pages shared between client and server. */
    function NumWhole(): nat {
      if MapStart() < MapEnd() then MapEnd() - MapStart() else 0
    }

    predicate HasStartPage() {
      AlignedStart() < MapStart()
    }

    predicate HasEndPage() {
      MapEnd() < AlignedEnd() && (AlignedStart() < MapEnd() || AlignedStart() == MapStart())
    }
  }

  /** Every touched page is exactly one of: the start page, a whole page, the end page. */
  lemma {:induction false} Extents(b: Buffer)
    requires b.size > 0
    ensures b.AlignedStart() <= b.MapStart() <= b.AlignedStart() + 1 && b.MapEnd() <= b.AlignedEnd() <= b.MapEnd() + 1
    ensures b.AlignedStart() < b.AlignedEnd() && b.AlignedStart() <= b.MapEnd()
    ensures b.NumPages() == (if b.HasStartPage() then 1 else 0) + b.NumWhole() + (if b.HasEndPage() then 1 else 0)
    ensures b.HasStartPage() <==> b.Offset() > 0
    ensures b.addr == b.AlignedStart() * PAGE_SIZE + b.Offset()
  {
  }

  /** What setup reserves and cleanup releases is one page per edge page that was allocated, for the
      client's buffer and for the server's view of it, which has the same offset in its page. */
  lemma {:induction false} ReservedIsReleased(client: Buffer, server: Buffer)
    requires client.size > 0 && server.size == client.size && server.Offset() == client.Offset()
    ensures client.NumPages() - client.NumWhole() == server.NumPages() - server.NumWhole()
    ensures client.NumPages() - client.NumWhole()
            == (if client.HasStartPage() then 1 else 0) + (if client.HasEndPage() then 1 else 0)
  {
    Extents(client);
    Extents(server);
    SameOffset(client, server);
  }

  lemma {:induction false} SameOffset(a: Buffer, b: Buffer)
    requires a.size > 0 && a.size == b.size && a.Offset() == b.Offset()
    ensures a.NumPages() == b.NumPages() && a.NumWhole() == b.NumWhole()
    ensures a.HasStartPage() == b.HasStartPage() && a.HasEndPage() == b.HasEndPage()
    ensures a.MapEnd() - a.AlignedStart() == b.MapEnd() - b.AlignedStart()
  {
    Extents(a);
    Extents(b);
    Shifted(a.Offset(), a.size, a.AlignedStart());
    Shifted(b.Offset(), b.size, b.AlignedStart());
  }

  /** The extents of a buffer relative to its first page depend on its offset only. */
  lemma {:induction false} Shifted(offset: nat, size: nat, page: nat)
    ensures var b := Buffer(page * PAGE_SIZE + offset, size);
            && PageUp(b.addr) == page + PageUp(offset)
            && PageDown(b.addr + size) == page + PageDown(offset + size)
            && PageUp(b.addr + size) == page + PageUp(offset + size)
  {
  }

  /** The pages `[start, end)` contain the buffer. */
  predicate InSpace(b: Buffer, start: nat, end: nat) {
    start * PAGE_SIZE <= b.addr && b.addr + b.size <= end * PAGE_SIZE
  }

  lemma {:induction false} SpaceExtents(b: Buffer, start: nat, end: nat)
    requires b.size > 0 && InSpace(b, start, end)
    ensures start <= b.AlignedStart() <= b.MapStart() <= b.MapStart() + b.NumWhole() <= b.AlignedEnd() <= end
    ensures b.AlignedStart() < b.AlignedEnd()
  {
    Extents(b);
  }
}
