/** Runs of a page heap: in whatever order blocks are taken and ranges are given back, no page is lost or doubled. */
module HeapRuns {
  import opened HeapLevels
  import opened PageHeaps

  /** What callers ask of the heap. */
  datatype Request =
    | Take(index: nat, random: bool)  // AllocateBlock
    | Give(addr: nat, pages: nat)     // Free

  /** What `AllocateBlock` says page by page, as sets. */
  lemma {:induction false} TakeAsSets(before: Bits, after: Bits, sizes: seq<nat>, addr: nat, size: nat)
    requires Shaped(before, sizes) && Shaped(after, sizes)
    requires forall p: nat :: addr <= p < addr + size ==> FreePage(before, sizes, p)
    requires forall p: nat :: FreePage(after, sizes, p) <==> FreePage(before, sizes, p) && !(addr <= p < addr + size)
    ensures BlockSet(addr, size) <= FreePages(before, sizes)
    ensures FreePages(after, sizes) == FreePages(before, sizes) - BlockSet(addr, size)
  {
    hide FreePage, FreePages;
    forall p: nat
      ensures p in FreePages(before, sizes) <==> FreePage(before, sizes, p)
      ensures p in FreePages(after, sizes) <==> FreePage(after, sizes, p)
    {
      InFreePages(before, sizes, p);
      InFreePages(after, sizes, p);
    }
  }

  /** What `Free` says page by page, as sets. */
  lemma {:induction false} GiveAsSets(before: Bits, after: Bits, sizes: seq<nat>, addr: nat, pages: nat)
    requires Shaped(before, sizes) && Shaped(after, sizes)
    requires forall p: nat :: FreePage(after, sizes, p) <==> FreePage(before, sizes, p) || addr <= p < addr + pages
    ensures FreePages(after, sizes) == FreePages(before, sizes) + BlockSet(addr, pages)
  {
    hide FreePage, FreePages;
    forall p: nat
      ensures p in FreePages(before, sizes) <==> FreePage(before, sizes, p)
      ensures p in FreePages(after, sizes) <==> FreePage(after, sizes, p)
    {
      InFreePages(before, sizes, p);
      InFreePages(after, sizes, p);
    }
  }

  /** `free` and `held` are apart, together they are `all`, and they lie in `[lo, hi)`. */
  ghost predicate Split(free: set<nat>, held: set<nat>, all: set<nat>, lo: nat, hi: nat) {
    free !! held && free + held == all && forall p :: p in all ==> lo <= p < hi
  }

  /** A block moves from the free to the held pages. */
  lemma {:induction false} SplitTake(free: set<nat>, held: set<nat>, all: set<nat>, lo: nat, hi: nat, block: set<nat>)
    requires Split(free, held, all, lo, hi) && block <= free
    ensures Split(free - block, held + block, all, lo, hi) && block !! held
  {
    assert (free - block) + (held + block) == free + held;
  }

  lemma {:induction false} SplitGive(free: set<nat>, held: set<nat>, all: set<nat>, lo: nat, hi: nat, block: set<nat>)
    requires Split(free, held, all, lo, hi) && block <= held
    ensures Split(free + block, held - block, all, lo, hi)
  {
    assert (free + block) + (held - block) == free + held;
  }

  /** The heap's free pages and the held pages, accounted for. */
  ghost predicate Conserved(h: PageHeap, held: set<nat>, all: set<nat>)
    reads h
  {
    h.Valid() && Split(FreePages(h.bits, h.sizes), held, all, h.heapStart, h.heapEnd)
  }

  /** One `AllocateBlock`: the block, if there is one, was held by nobody. */
  method TakeStep(h: PageHeap, index: nat, random: bool, held: set<nat>, ghost all: set<nat>)
    returns (addr: nat, now: set<nat>)
    requires Conserved(h, held, all) && index < |h.sizes|
    modifies h`bits
    ensures Conserved(h, now, all)
    ensures addr == NULL ==> now == held && h.bits == old(h.bits)
    ensures addr == NULL <==> !exists n: nat :: FreeRun(old(h.bits), h.sizes, h.sizes[index], n)
    ensures addr != NULL ==> now == held + BlockSet(addr, h.sizes[index]) && BlockSet(addr, h.sizes[index]) !! held
    ensures addr != NULL ==> addr % h.sizes[index] == 0
                             && BlockSet(addr, h.sizes[index]) <= old(FreePages(h.bits, h.sizes))
  {
    hide FreePage, FreePages, Exclusive, Merged, FreeRun, Split;
    ghost var before := h.bits;
    addr := h.AllocateBlock(index, random);
    if addr == NULL {
      return addr, held;
    }
    TakeAsSets(before, h.bits, h.sizes, addr, h.sizes[index]);
    SplitTake(FreePages(before, h.sizes), held, all, h.heapStart, h.heapEnd, BlockSet(addr, h.sizes[index]));
    now := held + BlockSet(addr, h.sizes[index]);
  }

  /** Held pages meet what `Free` asks for. */
  lemma {:induction false} HeldIsNotFree(h: PageHeap, addr: nat, pages: nat, held: set<nat>, all: set<nat>)
    requires Conserved(h, held, all) && BlockSet(addr, pages) <= held && pages > 0
    ensures h.heapStart <= addr && addr + pages <= h.heapEnd && h.NoneFree(addr, addr + pages)
  {
    hide FreePage, FreePages, Exclusive, Merged;
    assert addr in BlockSet(addr, pages) && addr + pages - 1 in BlockSet(addr, pages);
    forall p: nat | addr <= p < addr + pages
      ensures !FreePage(h.bits, h.sizes, p)
    {
      assert p in BlockSet(addr, pages);
      InFreePages(h.bits, h.sizes, p);
    }
  }

  /** One `Free` of pages that are held. */
  method GiveStep(h: PageHeap, addr: nat, pages: nat, held: set<nat>, ghost all: set<nat>) returns (now: set<nat>)
    requires Conserved(h, held, all) && BlockSet(addr, pages) <= held && pages > 0
    modifies h`bits
    ensures Conserved(h, now, all) && now == held - BlockSet(addr, pages)
  {
    hide FreePage, FreePages, Exclusive, Merged, Split, BlockSet;
    ghost var before := h.bits;
    HeldIsNotFree(h, addr, pages, held, all);
    h.Free(addr, pages);
    GiveAsSets(before, h.bits, h.sizes, addr, pages);
    SplitGive(FreePages(before, h.sizes), held, all, h.heapStart, h.heapEnd, BlockSet(addr, pages));
    now := held - BlockSet(addr, pages);
  }

  /** The pages that callers hold after some requests and their answers.  A range that is not held is not given back. */
  function Held(sizes: seq<nat>, requests: seq<Request>, got: seq<nat>): set<nat>
    requires |requests| == |got|
  {
    if requests == [] then {}
    else
      var last := |requests| - 1;
      var before := Held(sizes, requests[..last], got[..last]);
      match requests[last]
      case Take(index, _) =>
        if index < |sizes| && got[last] != NULL then before + BlockSet(got[last], sizes[index]) else before
      case Give(addr, pages) =>
        if pages > 0 && BlockSet(addr, pages) <= before then before - BlockSet(addr, pages) else before
  }

  /** An answer to an allocation, given the free pages: Null if and only if they contain no aligned block of the size, or
      else an aligned block of them. */
  ghost predicate RightAnswer(free: set<nat>, size: nat, addr: nat)
    requires size > 0
  {
    && (addr == NULL <==> !exists n: nat :: BlockSet(n * size, size) <= free)
    && (addr != NULL ==> addr % size == 0 && BlockSet(addr, size) <= free)
  }

  /** Request `i` was answered right, the free pages being those of `all` that are not held. */
  ghost predicate Answered(sizes: seq<nat>, all: set<nat>, requests: seq<Request>, got: seq<nat>, i: nat)
    requires |requests| == |got| && i < |got| && forall k :: 0 <= k < |sizes| ==> sizes[k] > 0
  {
    match requests[i]
    case Take(index, _) => index < |sizes| ==> RightAnswer(all - Held(sizes, requests[..i], got[..i]), sizes[index], got[i])
    case Give(_, _) => got[i] == NULL
  }

  ghost predicate AllAnswered(sizes: seq<nat>, all: set<nat>, requests: seq<Request>, got: seq<nat>)
    requires |requests| == |got| && forall k :: 0 <= k < |sizes| ==> sizes[k] > 0
  {
    forall i :: 0 <= i < |got| ==> Answered(sizes, all, requests, got, i)
  }

  lemma {:induction false} RunAsSet(bits: Bits, sizes: seq<nat>, size: nat, n: nat)
    requires Shaped(bits, sizes) && size > 0
    ensures FreeRun(bits, sizes, size, n) <==> BlockSet(n * size, size) <= FreePages(bits, sizes)
  {
    hide FreePage, FreePages;
    forall p: nat
      ensures p / size == n <==> n * size <= p < n * size + size
      ensures p in FreePages(bits, sizes) <==> FreePage(bits, sizes, p)
    {
      InGroup(p, n, size);
      assert (n + 1) * size == n * size + size;
      InFreePages(bits, sizes, p);
    }
    assert FreeRun(bits, sizes, size, n) ==> BlockSet(n * size, size) <= FreePages(bits, sizes);
    if BlockSet(n * size, size) <= FreePages(bits, sizes) {
      forall p: nat | p / size == n
        ensures FreePage(bits, sizes, p)
      {
        assert p in BlockSet(n * size, size);
      }
    }
  }

  /** Any sequence of requests, from any state of the heap.  Every allocation is answered as a plain set of pages would
      answer it; the free and the held pages stay apart and their union never changes; and `GetNumFreePages` counts what is
      not held. */
  method Execute(h: PageHeap, requests: seq<Request>) returns (got: seq<nat>, count: nat)
    requires h.Valid()
    modifies h`bits
    ensures |got| == |requests| && h.Valid()
    ensures AllAnswered(h.sizes, old(FreePages(h.bits, h.sizes)), requests, got)
    ensures Conserved(h, Held(h.sizes, requests, got), old(FreePages(h.bits, h.sizes)))
    ensures count + |Held(h.sizes, requests, got)| == |old(FreePages(h.bits, h.sizes))|
  {
    hide FreePage, FreePages, Exclusive, Merged, Answered, Held;
    ghost var all := FreePages(h.bits, h.sizes);
    FreeInHeap(h);
    HeldAtFirst(h.sizes);
    var held := {};
    got := [];
    for i := 0 to |requests|
      invariant |got| == i && held == Held(h.sizes, requests[..i], got) && Conserved(h, held, all)
      invariant AllAnswered(h.sizes, all, requests[..i], got)
    {
      ghost var before := got;
      var addr;
      addr, held := Serve(h, requests[i], held, all);
      got := got + [addr];
      AnswersGrow(h.sizes, all, requests, before, i, addr, held);
    }
    assert requests[..|requests|] == requests;
    count := h.GetNumFreePages();
    assert |FreePages(h.bits, h.sizes) + held| == |FreePages(h.bits, h.sizes)| + |held|;
  }

  /** What one request does, in terms of the free pages `all - held`. */
  ghost predicate Served(sizes: seq<nat>, all: set<nat>, r: Request, held: set<nat>, addr: nat, now: set<nat>)
    requires forall k :: 0 <= k < |sizes| ==> sizes[k] > 0
  {
    match r
    case Take(index, _) =>
      && (index < |sizes| ==> RightAnswer(all - held, sizes[index], addr))
      && now == if index < |sizes| && addr != NULL then held + BlockSet(addr, sizes[index]) else held
    case Give(from, pages) =>
      && addr == NULL
      && now == if pages > 0 && BlockSet(from, pages) <= held then held - BlockSet(from, pages) else held
  }

  method Serve(h: PageHeap, r: Request, held: set<nat>, ghost all: set<nat>) returns (addr: nat, now: set<nat>)
    requires Conserved(h, held, all)
    modifies h`bits
    ensures Conserved(h, now, all) && Served(h.sizes, all, r, held, addr, now)
  {
    hide FreePage, FreePages, Exclusive, Merged, RightAnswer, BlockSet, Split;
    match r
    case Take(index, random) =>
      if index < |h.sizes| {
        ghost var before := h.bits;
        FreeIsRest(h, held, all);
        addr, now := TakeStep(h, index, random, held, all);
        AnswerIsRight(before, h.sizes, index, addr);
      } else {
        addr, now := NULL, held;
      }
    case Give(from, pages) =>
      addr, now := NULL, held;
      if pages > 0 && BlockSet(from, pages) <= held {
        now := GiveStep(h, from, pages, held, all);
      }
  }

  lemma {:induction false} FreeIsRest(h: PageHeap, held: set<nat>, all: set<nat>)
    requires Conserved(h, held, all)
    ensures FreePages(h.bits, h.sizes) == all - held
  {
    hide FreePages, FreePage, Exclusive, Merged;
  }

  lemma {:induction false} AnswerIsRight(bits: Bits, sizes: seq<nat>, index: nat, addr: nat)
    requires Shaped(bits, sizes) && index < |sizes|
    requires addr == NULL <==> !exists n: nat :: FreeRun(bits, sizes, sizes[index], n)
    requires addr != NULL ==> addr % sizes[index] == 0 && BlockSet(addr, sizes[index]) <= FreePages(bits, sizes)
    ensures RightAnswer(FreePages(bits, sizes), sizes[index], addr)
  {
    hide FreePages, FreeRun, BlockSet;
    forall n: nat
      ensures FreeRun(bits, sizes, sizes[index], n) <==> BlockSet(n * sizes[index], sizes[index]) <= FreePages(bits, sizes)
    {
      RunAsSet(bits, sizes, sizes[index], n);
    }
  }

  lemma {:induction false} HeldAtFirst(sizes: seq<nat>)
    ensures Held(sizes, [], []) == {}
  {
  }

  lemma {:induction false} AnswersGrow(sizes: seq<nat>, all: set<nat>, requests: seq<Request>, got: seq<nat>, i: nat,
                                       addr: nat, now: set<nat>)
    requires i < |requests| && |got| == i && forall k :: 0 <= k < |sizes| ==> sizes[k] > 0
    requires AllAnswered(sizes, all, requests[..i], got)
    requires Served(sizes, all, requests[i], Held(sizes, requests[..i], got), addr, now)
    ensures AllAnswered(sizes, all, requests[..i + 1], got + [addr])
    ensures now == Held(sizes, requests[..i + 1], got + [addr])
  {
    hide BlockSet, RightAnswer;
    var rs, gs := requests[..i + 1], got + [addr];
    assert rs[..i] == requests[..i] && gs[..i] == got;
    forall k | 0 <= k <= i
      ensures Answered(sizes, all, rs, gs, k)
    {
      if k < i {
        assert Answered(sizes, all, requests[..i], got, k);
        assert rs[..k] == requests[..i][..k] && gs[..k] == got[..k];
      }
    }
  }

  lemma {:induction false} FreeInHeap(h: PageHeap)
    requires h.Valid()
    ensures Conserved(h, {}, FreePages(h.bits, h.sizes))
  {
    hide FreePage, FreePages, Exclusive, Merged;
    forall p | p in FreePages(h.bits, h.sizes)
      ensures h.heapStart <= p < h.heapEnd
    {
      InFreePages(h.bits, h.sizes, p);
    }
  }
}
