/** Page groups of virtual ranges: `MakePageGroup` collects the physical pages behind a range as a group, and
    `IsValidPageGroup` asks whether a group is the one behind a range. */
module PageRanges {
  import opened PageGroups
  import opened PageTables
  import opened Traversals

  // ---- Walks over a table ------------------------------------------------------------------------

  /** The walk that a traversal of table `t` from virtual page `va` on makes: it meets what the table holds there, and it
      ends where the table ends. */
  predicate Walks(t: Table, va: nat, w: Traversal) {
    && w.Ok()
    && (forall k :: 0 <= k < |w.Pages()| ==> va + k in t && t[va + k] == w.Pages()[k])
    && va + |w.Pages()| !in t
  }

  predicate MappedRange(t: Table, va: nat, n: nat) {
    forall v :: va <= v < va + n ==> v in t
  }

  /** The physical pages behind `n` virtual pages. */
  function Behind(t: Table, va: nat, n: nat): (r: seq<nat>)
    requires MappedRange(t, va, n)
    ensures |r| == n && forall k :: 0 <= k < n ==> r[k] == t[va + k]
  {
    seq(n, k requires 0 <= k < n => t[va + k])
  }

  /** A walk has the first `n` pages exactly if they are mapped, and they are the pages behind them. */
  lemma {:induction false} WalkSees(t: Table, va: nat, w: Traversal, n: nat)
    requires Walks(t, va, w)
    ensures n <= |w.Pages()| <==> MappedRange(t, va, n)
    ensures MappedRange(t, va, n) ==> w.Pages()[..n] == Behind(t, va, n)
  {
    hide w.Pages;
    if n <= |w.Pages()| {
      forall v | va <= v < va + n
        ensures v in t
      {
        var p := w.Pages()[v - va];
        assert va + (v - va) in t;
      }
    }
  }

  // ---- The maximal-run form ----------------------------------------------------------------------

  /** The group that adding the pages one by one gives. */
  function Runs(pages: seq<nat>): seq<BlockInfo> {
    if pages == [] then [] else Added(Runs(pages[..|pages| - 1]), pages[|pages| - 1], 1)
  }

  predicate NoNull(pages: seq<nat>) {
    forall k :: 0 <= k < |pages| ==> pages[k] > 0
  }

  /** `Runs` is the maximal-run form: the one group of maximal runs with these pages. */
  lemma {:induction false} RunsForm(pages: seq<nat>)
    requires NoNull(pages)
    ensures MaximalRuns(Runs(pages)) && Flatten(Runs(pages)) == pages
  {
    if pages != [] {
      var init, last := pages[..|pages| - 1], pages[|pages| - 1];
      RunsForm(init);
      FlattenAdded(Runs(init), last, 1);
      assert Run(last, 1) == [last];
      assert pages == init + [last];
    }
  }

  lemma {:induction false} RunsShort(pages: seq<nat>)
    ensures |Runs(pages)| <= |pages|
  {
    if pages != [] {
      RunsShort(pages[..|pages| - 1]);
    }
  }

  /** Adding a whole run is adding its pages. */
  lemma {:induction false} RunsAdd(pages: seq<nat>, addr: nat, n: nat)
    requires addr > 0 && NoNull(pages)
    ensures Runs(pages + Run(addr, n)) == Added(Runs(pages), addr, n)
  {
    RunsForm(pages);
    FlattenAdded(Runs(pages), addr, n);
    assert NoNull(pages + Run(addr, n));
    RunsForm(pages + Run(addr, n));
    MaximalRunsCanonical(Runs(pages + Run(addr, n)), Added(Runs(pages), addr, n));
  }

  /** Flushing `n` pages of the current run extends the group by them. */
  lemma {:induction false} Flush(walk: Traversal, pos: nat, addr: nat, size: nat, idx: nat, n: nat)
    requires walk.Ok() && NoNull(walk.Pages()) && walk.RunAt(pos, addr, size, idx) && n <= size && size > 0
    ensures pos + n <= |walk.Pages()| && addr in walk.Pages() && addr > 0
    ensures NoNull(walk.Pages()[..pos])
    ensures walk.Pages()[..pos + n] == walk.Pages()[..pos] + Run(addr, n)
    ensures Runs(walk.Pages()[..pos + n]) == Added(Runs(walk.Pages()[..pos]), addr, n)
  {
    hide Runs, Added, Flatten, Walked;
    var pages := walk.Pages();
    walk.RestOfRun(pos, addr, size, idx, n);
    assert pages[pos] == pages[pos..pos + size][0] == addr;
    assert pages[..pos + n] == pages[..pos] + pages[pos..pos + n];
    RunsAdd(pages[..pos], addr, n);
  }

  datatype Result = Success | InvalidCurrentMemory | OutOfResource

  /** The physical pages that belong to the heap. */
  datatype Heap = Heap(start: nat, end: nat) {
    predicate Has(p: nat) {
      start <= p < end
    }
  }

  predicate HeapBlocks(bs: seq<BlockInfo>, heap: Heap) {
    forall b :: b in bs ==> heap.Has(b.addr)
  }

  lemma {:induction false} HeapAdded(bs: seq<BlockInfo>, heap: Heap, addr: nat, n: nat)
    requires HeapBlocks(bs, heap) && heap.Has(addr)
    ensures HeapBlocks(Added(bs, addr, n), heap)
  {
    if Continues(bs, addr) {
      assert bs[|bs| - 1] in bs;
      assert forall b :: b in Added(bs, addr, n) ==> b in bs || b.addr == bs[|bs| - 1].addr;
    }
  }

  /** Adds `n` pages of the current run to the group. */
  method AddRun(pg: PageGroup, walk: Traversal, heap: Heap, pos: nat, addr: nat, size: nat, ghost idx: nat, n: nat)
    returns (res: Result)
    requires walk.Ok() && NoNull(walk.Pages()) && walk.RunAt(pos, addr, size, idx) && n <= size && size > 0
    requires pg.blocks == Runs(walk.Pages()[..pos]) && HeapBlocks(pg.blocks, heap)
    modifies pg
    ensures res == Success ==> pos + n <= |walk.Pages()| && pg.blocks == Runs(walk.Pages()[..pos + n])
    ensures HeapBlocks(pg.blocks, heap)
    ensures res == InvalidCurrentMemory ==> !heap.Has(addr)
    ensures res == OutOfResource ==> pg.slots == 0 && n > 0 && |pg.blocks| <= pos
    ensures pg.slots + |pg.blocks| == old(pg.slots + |pg.blocks|)
  {
    hide walk.Pages, walk.RunAt, Runs, Added, HeapBlocks;
    Flush(walk, pos, addr, size, idx, n);
    if !heap.Has(addr) {
      return InvalidCurrentMemory;
    }
    HeapAdded(pg.blocks, heap, addr, n);
    RunsShort(walk.Pages()[..pos]);
    var ok := pg.AddBlock(addr, n);
    return if ok then Success else OutOfResource;
  }

  /** `MakePageGroup` for the first `n` pages of a walk. */
  method MakePageGroup(pg: PageGroup, walk: Traversal, n: nat, heap: Heap) returns (res: Result)
    requires walk.Ok() && NoNull(walk.Pages())
    modifies pg
    ensures res == Success ==> n <= |walk.Pages()| && pg.blocks == Runs(walk.Pages()[..n]) && HeapBlocks(pg.blocks, heap)
    ensures res == InvalidCurrentMemory && 0 < n ==>
              old(pg.blocks) != [] || |walk.Pages()| < n || !HeapBlocks(Runs(walk.Pages()[..n]), heap)
    ensures res == OutOfResource ==> old(pg.slots) < n
    ensures pg.slots + |pg.blocks| == old(pg.slots + |pg.blocks|)
  {
    hide walk.Pages, walk.RunAt, HeapBlocks, Runs, StartsRun, NoNull;
    if pg.blocks != [] {
      return InvalidCurrentMemory;
    }
    walk.Ends();
    if walk.entries == [] {
      return InvalidCurrentMemory;
    }
    walk.FirstRun();
    NoPagesNoRuns(heap);
    StartsAtFirst(walk.Pages());
    var first := walk.entries[0];
    var addr: nat, size: nat := first.phys, first.blockPages - first.phys % first.blockPages;
    var pos: nat, idx: nat := 0, 1;
    while pos + size < n
      invariant walk.RunAt(pos, addr, size, idx) && size > 0
      invariant (pos == 0 || pos < n) && pos <= |walk.Pages()| && pg.blocks == Runs(walk.Pages()[..pos]) && HeapBlocks(pg.blocks, heap)
      invariant pg.slots + |pg.blocks| == old(pg.slots + |pg.blocks|)
      invariant StartsRun(walk.Pages(), pos)
      decreases n - (pos + size)
    {
      RunEnds(walk, pos, addr, size, idx);
      if idx == |walk.entries| {
        return InvalidCurrentMemory;
      }
      walk.NextRun(pos, addr, size, idx);
      var next := walk.entries[idx];
      if next.phys != addr + size {
        res := AddRun(pg, walk, heap, pos, addr, size, idx, size);
        if res != Success {
          NotHeapBlock(walk, n, heap, pos, addr, size, idx);
          return;
        }
        RunStops(walk, pos, addr, size, idx);
        addr, size, pos := next.phys, next.blockPages, pos + size;
      } else {
        size := size + next.blockPages;
      }
      idx := idx + 1;
    }
    RunEnds(walk, pos, addr, size, idx);
    res := AddRun(pg, walk, heap, pos, addr, size, idx, n - pos);
    NotHeapBlock(walk, n, heap, pos, addr, size, idx);
  }

  /** Page `pos` does not continue the page before it. */
  predicate StartsRun(pages: seq<nat>, pos: nat) {
    0 < pos < |pages| ==> pages[pos] != pages[pos - 1] + 1
  }

  lemma {:induction false} StartsAtFirst(pages: seq<nat>)
    ensures StartsRun(pages, 0)
  {
  }

  lemma {:induction false} RunStops(walk: Traversal, pos: nat, addr: nat, size: nat, idx: nat)
    requires walk.Ok() && walk.RunAt(pos, addr, size, idx) && size > 0 && idx < |walk.entries|
    requires walk.entries[idx].phys != addr + size
    ensures StartsRun(walk.Pages(), pos + size)
  {
    BreakAt(walk, pos, addr, size, idx, pos + size + 1);
  }

  /** A run that does not start in the heap is a block of the group that does not. */
  lemma {:induction false} NotHeapBlock(walk: Traversal, n: nat, heap: Heap, pos: nat, addr: nat, size: nat, idx: nat)
    requires walk.Ok() && NoNull(walk.Pages()) && walk.RunAt(pos, addr, size, idx) && size > 0
    requires StartsRun(walk.Pages(), pos)
    ensures pos < n <= |walk.Pages()| && !heap.Has(addr) ==> !HeapBlocks(Runs(walk.Pages()[..n]), heap)
  {
    hide Runs, Flatten, Walked;
    var pages := walk.Pages();
    if pos < n <= |pages| {
      var q := pages[..n];
      assert NoNull(q);
      assert pages[pos] == pages[pos..pos + size][0] == addr;
      RunsBreak(q, pos);
      assert Runs(q)[|Runs(q[..pos])|] in Runs(q);
    }
  }

  lemma {:induction false} NoPagesNoRuns(heap: Heap)
    ensures Runs([]) == [] && HeapBlocks([], heap)
  {
  }

  // ---- Comparing a group with a range ---------------------------------------------------------

  lemma {:induction false} LastEnd(pages: seq<nat>)
    requires pages != []
    ensures Runs(pages) != [] && Runs(pages)[|Runs(pages)| - 1].End() == pages[|pages| - 1] + 1
  {
  }

  /** A group goes on after a break in the pages without changing the blocks before it. */
  lemma {:induction false} RunsBreak(pages: seq<nat>, i: nat)
    requires NoNull(pages) && i < |pages| && (i > 0 ==> pages[i] != pages[i - 1] + 1)
    ensures |Runs(pages[..i])| < |Runs(pages)|
    ensures Runs(pages)[..|Runs(pages[..i])|] == Runs(pages[..i])
    ensures Runs(pages)[|Runs(pages[..i])|].addr == pages[i]
  {
    var init, last := pages[..|pages| - 1], pages[|pages| - 1];
    if i == |pages| - 1 {
      if i > 0 {
        LastEnd(init);
      }
    } else {
      RunsBreak(init, i);
      assert init[..i] == pages[..i];
    }
  }

  /** A run between two breaks is one block of the group. */
  lemma {:induction false} RunIsBlock(pages: seq<nat>, i: nat, addr: nat, size: nat)
    requires NoNull(pages) && size > 0 && i + size <= |pages| && pages[i..i + size] == Run(addr, size)
    requires i > 0 ==> pages[i] != pages[i - 1] + 1
    requires i + size < |pages| ==> pages[i + size] != addr + size
    ensures var j := |Runs(pages[..i])|;
            && j < |Runs(pages)| && Runs(pages)[..j] == Runs(pages[..i]) && Runs(pages)[j] == BlockInfo(addr, size)
            && Runs(pages[..i + size]) == Runs(pages)[..j + 1]
            && (i + size == |pages| ==> |Runs(pages)| == j + 1)
  {
    hide Runs, NoNull;
    var k := i + size;
    RunAppends(pages, i, addr, size);
    RunsBreak(pages, i);
    if k < |pages| {
      RunsBreak(pages, k);
    } else {
      assert pages[..k] == pages;
    }
  }

  /** A run that does not continue the pages before it is a new block. */
  lemma {:induction false} RunAppends(pages: seq<nat>, i: nat, addr: nat, size: nat)
    requires NoNull(pages) && size > 0 && i + size <= |pages| && pages[i..i + size] == Run(addr, size)
    requires i > 0 ==> pages[i] != pages[i - 1] + 1
    ensures Runs(pages[..i + size]) == Runs(pages[..i]) + [BlockInfo(addr, size)]
    ensures pages[i + size - 1] == addr + size - 1
  {
    hide Runs;
    var k := i + size;
    assert addr == pages[i..k][0] == pages[i];
    assert pages[k - 1] == pages[i..k][size - 1];
    assert pages[..k] == pages[..i] + Run(addr, size);
    RunsAdd(pages[..i], addr, size);
    if i > 0 {
      LastEnd(pages[..i]);
    } else {
      assert pages[..0] == [];
      NoPagesNoRuns(Heap(0, 0));
    }
  }

  /** Where the comparison stands in the group: what is left of block `it`. */
  datatype GroupCursor = GroupCursor(it: nat, addr: nat, pages: nat)

  /** The first `j` blocks of `runs` have been compared: all but the last are the group's, and the last is the beginning
      of one. */
  predicate Matched(blocks: seq<BlockInfo>, runs: seq<BlockInfo>, j: nat, g: GroupCursor) {
    && g.it < |blocks|
    && if j == 0 then g == GroupCursor(0, blocks[0].addr, blocks[0].pages)
       else
         && g.it == j - 1 && j <= |runs| && blocks[..j - 1] == runs[..j - 1]
         && blocks[j - 1].addr == runs[j - 1].addr && runs[j - 1].pages <= blocks[j - 1].pages
         && g.addr == runs[j - 1].End() && g.pages == blocks[j - 1].pages - runs[j - 1].pages
  }

  /** Compares the next run with the group; the last run has to end its block. */
  method CompareRun(blocks: seq<BlockInfo>, g: GroupCursor, addr: nat, n: nat, last: bool,
                    ghost runs: seq<BlockInfo>, ghost j: nat)
    returns (ok: bool, next: GroupCursor)
    requires Matched(blocks, runs, j, g) && forall b :: b in blocks ==> b.pages > 0
    requires j < |runs| && runs[j] == BlockInfo(addr, n) && (j > 0 ==> runs[j - 1].End() != addr)
    ensures ok ==> Matched(blocks, runs, j + 1, next)
    ensures ok && last ==> runs[..j + 1] <= blocks
    ensures !ok ==> !(runs <= blocks)
  {
    next := g;
    if next.pages == 0 {
      assert j > 0 by {
        assert blocks[0] in blocks;
      }
      if next.it + 1 == |blocks| {
        return false, next;
      }
      next := GroupCursor(next.it + 1, blocks[next.it + 1].addr, blocks[next.it + 1].pages);
      assert blocks[..j] == blocks[..j - 1] + [blocks[j - 1]];
    } else {
      assert j > 0 ==> blocks[j - 1] != runs[j - 1];
    }
    if next.addr != addr || next.pages < n || (last && next.pages != n) {
      if j < |blocks| && runs <= blocks {
        assert runs[j] == blocks[j];
      }
      return false, next;
    }
    next := GroupCursor(next.it, addr + n, next.pages - n);
    ok := true;
    assert last ==> runs[..j + 1] == blocks[..j + 1];
  }

  /** The group begins with the maximal runs of the first `n` pages, all of them in the heap. */
  predicate BeginsWithRange(blocks: seq<BlockInfo>, walk: Traversal, n: nat, heap: Heap)
    requires walk.Ok()
  {
    0 < n <= |walk.Pages()| && Runs(walk.Pages()[..n]) <= blocks && HeapBlocks(Runs(walk.Pages()[..n]), heap)
  }

  /** The first `n` pages of the walk, or all if there are fewer. */
  function Span(walk: Traversal, n: nat): (q: seq<nat>)
    requires walk.Ok()
    ensures |q| <= |walk.Pages()| && q == walk.Pages()[..|q|] && |q| == if n <= |walk.Pages()| then n else |walk.Pages()|
  {
    if n <= |walk.Pages()| then walk.Pages()[..n] else walk.Pages()
  }

  /** The comparison after `pos` pages: a run starts there, and the group has matched the runs before it. */
  ghost predicate Comparing(blocks: seq<BlockInfo>, q: seq<nat>, heap: Heap, pos: nat, g: GroupCursor)
  {
    && pos < |q| && (pos > 0 ==> q[pos] != q[pos - 1] + 1)
    && var j := |Runs(q[..pos])|;
       && j <= |Runs(q)| && Runs(q)[..j] == Runs(q[..pos])
       && Matched(blocks, Runs(q), j, g)
       && HeapBlocks(Runs(q)[..j], heap)
  }

  lemma {:induction false} ComparingStarts(blocks: seq<BlockInfo>, q: seq<nat>, heap: Heap)
    requires blocks != [] && q != []
    ensures Comparing(blocks, q, heap, 0, GroupCursor(0, blocks[0].addr, blocks[0].pages))
  {
    assert q[..0] == [];
  }

  /** The next run of the pages is the next block of their maximal-run form. */
  lemma {:induction false} NextBlock(blocks: seq<BlockInfo>, q: seq<nat>, heap: Heap, pos: nat, g: GroupCursor,
                                     addr: nat, size: nat)
    requires NoNull(q) && Comparing(blocks, q, heap, pos, g)
    requires size > 0 && pos + size <= |q| && q[pos..pos + size] == Run(addr, size)
    requires pos + size < |q| ==> q[pos + size] != addr + size
    ensures var j := |Runs(q[..pos])|;
            && j < |Runs(q)| && Runs(q)[j] == BlockInfo(addr, size) && (j > 0 ==> Runs(q)[j - 1].End() != addr)
            && Runs(q[..pos + size]) == Runs(q)[..j + 1]
            && (pos + size == |q| ==> |Runs(q)| == j + 1)
            && (heap.Has(addr) ==> HeapBlocks(Runs(q)[..j + 1], heap))
            && (!heap.Has(addr) ==> !HeapBlocks(Runs(q), heap))
  {
    hide Runs;
    RunIsBlock(q, pos, addr, size);
    var j := |Runs(q[..pos])|;
    assert Runs(q)[j] in Runs(q);
    assert Runs(q)[..j + 1] == Runs(q)[..j] + [Runs(q)[j]];
    if pos > 0 {
      LastEnd(q[..pos]);
      assert addr == q[pos..pos + size][0] == q[pos];
      assert Runs(q)[..j][j - 1] == Runs(q[..pos])[j - 1];
    } else {
      NoPagesNoRuns(heap);
      assert q[..0] == [];
    }
  }

  /** Compares the run that starts at `pos`, the last one if it ends the pages. */
  method CompareNext(blocks: seq<BlockInfo>, ghost q: seq<nat>, heap: Heap, ghost pos: nat, g: GroupCursor,
                     addr: nat, size: nat, last: bool)
    returns (ok: bool, next: GroupCursor)
    requires NoNull(q) && Comparing(blocks, q, heap, pos, g) && forall b :: b in blocks ==> b.pages > 0
    requires size > 0 && pos + size <= |q| && q[pos..pos + size] == Run(addr, size)
    requires pos + size < |q| ==> q[pos + size] != addr + size
    requires last <==> pos + size == |q|
    ensures ok && !last ==> Comparing(blocks, q, heap, pos + size, next)
    ensures ok && last ==> Runs(q) <= blocks && HeapBlocks(Runs(q), heap)
    ensures !ok ==> !(Runs(q) <= blocks) || !HeapBlocks(Runs(q), heap)
  {
    hide Runs, Matched, HeapBlocks;
    NextBlock(blocks, q, heap, pos, g, addr, size);
    if !heap.Has(addr) {
      return false, g;
    }
    ok, next := CompareRun(blocks, g, addr, size, last, Runs(q), |Runs(q[..pos])|);
    assert q[pos + size - 1] == q[pos..pos + size][size - 1];
    assert Runs(q)[..|Runs(q)|] == Runs(q);
  }

  /** `IsValidPageGroup`: whether the group begins with the maximal runs of the range. */
  method IsValidPageGroup(blocks: seq<BlockInfo>, walk: Traversal, n: nat, heap: Heap) returns (valid: bool)
    requires walk.Ok() && NoNull(walk.Pages()) && forall b :: b in blocks ==> b.pages > 0
    ensures valid <==> BeginsWithRange(blocks, walk, n, heap)
  {
    hide walk.Pages, walk.RunAt, Runs, HeapBlocks, Comparing;
    if blocks == [] {
      if 0 < n <= |walk.Pages()| {
        EmptyMatchesNothing(walk, n);
      }
      return false;
    }
    walk.Ends();
    if walk.entries == [] {
      return false;
    }
    walk.FirstRun();
    var first := walk.entries[0];
    var addr: nat, size: nat := first.phys, first.blockPages - first.phys % first.blockPages;
    var pos: nat, idx: nat := 0, 1;
    var g := GroupCursor(0, blocks[0].addr, blocks[0].pages);
    ghost var q := Span(walk, n);
    if n > 0 {
      ComparingStarts(blocks, q, heap);
    }
    while pos + size < n
      invariant walk.RunAt(pos, addr, size, idx) && size > 0
      invariant if n > 0 then Comparing(blocks, q, heap, pos, g) && pos < n
                else g == GroupCursor(0, blocks[0].addr, blocks[0].pages)
      decreases n - (pos + size)
    {
      if idx == |walk.entries| {
        RunEnds(walk, pos, addr, size, idx);
        return false;
      }
      RunEnds(walk, pos, addr, size, idx);
      walk.NextRun(pos, addr, size, idx);
      var next := walk.entries[idx];
      if next.phys != addr + size {
        BreakAt(walk, pos, addr, size, idx, n);
        var ok;
        ok, g := CompareNext(blocks, q, heap, pos, g, addr, size, false);
        if !ok {
          return false;
        }
        addr, size, pos := next.phys, next.blockPages, pos + size;
      } else {
        size := size + next.blockPages;
      }
      idx := idx + 1;
    }
    RunEnds(walk, pos, addr, size, idx);
    if n == 0 {
      // The last run is cut down to no page at all, which no block is.
      assert blocks[0] in blocks;
      valid := heap.Has(addr) && g.addr == addr && g.pages == 0;
    } else {
      walk.RestOfRun(pos, addr, size, idx, n - pos);
      valid, g := CompareNext(blocks, q, heap, pos, g, addr, n - pos, true);
    }
  }

  lemma {:induction false} RunEnds(walk: Traversal, pos: nat, addr: nat, size: nat, idx: nat)
    requires walk.Ok() && walk.RunAt(pos, addr, size, idx)
    ensures idx <= |walk.entries| && pos + size <= |walk.Pages()|
    ensures idx == |walk.entries| ==> pos + size == |walk.Pages()|
  {
    walk.Ends();
  }

  lemma {:induction false} EmptyMatchesNothing(walk: Traversal, n: nat)
    requires walk.Ok() && 0 < n <= |walk.Pages()|
    ensures Runs(walk.Pages()[..n]) != []
  {
    LastEnd(walk.Pages()[..n]);
  }

  /** The page after the current run, where the next entry starts. */
  lemma {:induction false} BreakAt(walk: Traversal, pos: nat, addr: nat, size: nat, idx: nat, n: nat)
    requires walk.Ok() && walk.RunAt(pos, addr, size, idx) && idx < |walk.entries| && pos + size < n
    ensures pos + size < |Span(walk, n)|
    ensures Span(walk, n)[pos..pos + size] == Run(addr, size)
    ensures Span(walk, n)[pos + size] == walk.entries[idx].phys
    ensures size > 0 ==> Span(walk, n)[pos + size - 1] == addr + size - 1
  {
    hide Flatten, Walked;
    walk.NextRun(pos, addr, size, idx);
    var e := walk.entries[idx];
    var pages := walk.Pages();
    assert pages[pos + size] == pages[pos + size..pos + size + e.blockPages][0];
    assert Span(walk, n)[pos..pos + size] == pages[pos..pos + size];
    if size > 0 {
      assert pages[pos + size - 1] == pages[pos..pos + size][size - 1];
    }
  }

  /** On maximal runs of `n` pages the comparison is equality of page sequences. */
  lemma {:induction false} ValidIffSamePages(blocks: seq<BlockInfo>, walk: Traversal, n: nat, heap: Heap)
    requires walk.Ok() && NoNull(walk.Pages()) && MaximalRuns(blocks) && HeapBlocks(blocks, heap)
    requires |Flatten(blocks)| == n && 0 < n <= |walk.Pages()|
    ensures BeginsWithRange(blocks, walk, n, heap) <==> Flatten(blocks) == walk.Pages()[..n]
  {
    hide Walked;
    var q := walk.Pages()[..n];
    assert NoNull(q);
    RunsForm(q);
    if Flatten(blocks) == q {
      MaximalRunsCanonical(blocks, Runs(q));
    } else if Runs(q) <= blocks {
      var rest := blocks[|Runs(q)|..];
      assert blocks == Runs(q) + rest;
      FlattenConcat(Runs(q), rest);
    }
  }

  /** Without the equal page counts it is not: blocks after the range are not looked at. */
  lemma {:induction false} TrailingBlocksUnchecked()
    ensures var blocks, walk := [BlockInfo(1, 1), BlockInfo(5, 1)], Traversal([Entry(1, 1)]);
            && walk.Ok() && MaximalRuns(blocks) && BeginsWithRange(blocks, walk, 1, Heap(0, 10))
            && Flatten(blocks) != walk.Pages()[..1]
  {
    var blocks, walk := [BlockInfo(1, 1), BlockInfo(5, 1)], Traversal([Entry(1, 1)]);
    assert Walked(walk.entries) == [BlockInfo(1, 1)];
    FlattenOne(BlockInfo(1, 1));
    FlattenOne(BlockInfo(5, 1));
    FlattenConcat([BlockInfo(1, 1)], [BlockInfo(5, 1)]);
    assert blocks == [BlockInfo(1, 1)] + [BlockInfo(5, 1)];
    assert walk.Pages() == [1] && walk.Pages()[..1] == [1];
    assert Runs([1]) == Added(Runs([]), 1, 1) == [BlockInfo(1, 1)];
  }
}
