/** `KMemoryManager::AllocatePageGroupImpl`: a greedy allocation of page groups over the heaps of
    one pool, with roll back. */
module MemoryManagers {
  import opened Basics
  import opened BlockSizes
  import opened HeapLevels
  import opened PageHeaps
  import opened PageGroups

  /** The free pages of all heaps of a pool, given their bitmaps. */
  ghost function PoolPages(pool: seq<Bits>, sizes: seq<nat>): set<nat>
    requires forall i :: 0 <= i < |pool| ==> Shaped(pool[i], sizes)
  {
    if pool == [] then {} else FreePages(pool[0], sizes) + PoolPages(pool[1..], sizes)
  }

  lemma {:induction false} InPoolPages(pool: seq<Bits>, sizes: seq<nat>, p: nat)
    requires forall i :: 0 <= i < |pool| ==> Shaped(pool[i], sizes)
    ensures p in PoolPages(pool, sizes) <==> exists i :: 0 <= i < |pool| && FreePage(pool[i], sizes, p)
  {
    if pool != [] {
      InFreePages(pool[0], sizes, p);
      InPoolPages(pool[1..], sizes, p);
      assert forall i :: 0 <= i < |pool| - 1 ==> pool[1..][i] == pool[i + 1];
      if exists i :: 0 <= i < |pool| && FreePage(pool[i], sizes, p) {
        var i :| 0 <= i < |pool| && FreePage(pool[i], sizes, p);
        if i > 0 {
          assert FreePage(pool[1..][i - 1], sizes, p);
        }
      }
    }
  }

  ghost function Elements(s: seq<nat>): set<nat> {
    set p | p in s
  }

  lemma {:induction false} CountElements(s: seq<nat>)
    requires NoDuplicates(s)
    ensures |Elements(s)| == |s|
  {
    if s == [] {
      assert Elements(s) == {};
    } else {
      CountElements(s[1..]);
      assert Elements(s) == Elements(s[1..]) + {s[0]};
      assert s[0] !in s[1..];
    }
  }

  // ---- Pools ------------------------------------------------------------------------------

  /** The heaps of one pool: distinct objects over disjoint memory, all with the same block sizes. */
  ghost predicate PoolOk(ms: seq<PageHeap>, sizes: seq<nat>)
    reads ms
  {
    && ValidSizes(sizes)
    && (forall i :: 0 <= i < |ms| ==> ms[i].Valid() && ms[i].sizes == sizes)
    && (forall i, j :: 0 <= i < j < |ms| ==>
          ms[i] != ms[j] && (ms[i].heapEnd <= ms[j].heapStart || ms[j].heapEnd <= ms[i].heapStart))
  }

  ghost function Bitmaps(ms: seq<PageHeap>): (r: seq<Bits>)
    reads ms
    ensures |r| == |ms|
    ensures forall i :: 0 <= i < |ms| ==> r[i] == ms[i].bits
  {
    seq(|ms|, i requires 0 <= i < |ms| reads ms => ms[i].bits)
  }

  /** The free pages of `bits` are those of `init`, but for the pages in `taken`. */
  ghost predicate TakenFrom(bits: Bits, sizes: seq<nat>, init: Bits, taken: seq<nat>)
    requires Shaped(bits, sizes) && Shaped(init, sizes)
  {
    forall p: nat :: FreePage(bits, sizes, p) <==> FreePage(init, sizes, p) && p !in taken
  }

  ghost predicate Taken(ms: seq<PageHeap>, sizes: seq<nat>, init: seq<Bits>, taken: seq<nat>)
    requires PoolOk(ms, sizes) && |init| == |ms|
    requires forall i :: 0 <= i < |init| ==> Shaped(init[i], sizes)
    reads ms
  {
    forall i :: 0 <= i < |ms| ==> TakenFrom(ms[i].bits, sizes, init[i], taken)
  }

  /** The state of an allocation: `blocks` holds distinct pages, all of them taken from the pool, and
      together with the pages still wanted they are the pages asked for. */
  ghost predicate Progress(ms: seq<PageHeap>, sizes: seq<nat>, init: seq<Bits>, blocks: seq<BlockInfo>,
                           wanted: nat, remaining: nat)
    reads ms
  {
    && PoolOk(ms, sizes) && |init| == |ms|
    && (forall i :: 0 <= i < |init| ==> Shaped(init[i], sizes))
    && Taken(ms, sizes, init, Flatten(blocks))
    && NoDuplicates(Flatten(blocks))
    && Elements(Flatten(blocks)) <= PoolPages(init, sizes)
    && |Flatten(blocks)| + remaining == wanted
  }

  /** Block `b` lies inside one heap. */
  ghost predicate InOneHeap(ms: seq<PageHeap>, b: BlockInfo) {
    exists i :: 0 <= i < |ms| && ms[i].heapStart <= b.addr && b.End() <= ms[i].heapEnd
  }

  /** No heap ends where another one starts. */
  ghost predicate Apart(ms: seq<PageHeap>) {
    forall i, j :: 0 <= i < |ms| && 0 <= j < |ms| ==> ms[i].heapEnd != ms[j].heapStart
  }

  /** Every block of the group starts inside a heap, and lies inside it when the heaps are apart. */
  ghost predicate Rooted(ms: seq<PageHeap>, blocks: seq<BlockInfo>) {
    && (forall b :: b in blocks ==> exists i :: 0 <= i < |ms| && ms[i].heapStart <= b.addr < ms[i].heapEnd)
    && (Apart(ms) ==> forall b :: b in blocks ==> InOneHeap(ms, b))
  }

  lemma {:induction false} AddedRooted(ms: seq<PageHeap>, sizes: seq<nat>, blocks: seq<BlockInfo>, k: nat, addr: nat,
                                       n: nat)
    requires PoolOk(ms, sizes) && Rooted(ms, blocks) && k < |ms|
    requires ms[k].heapStart <= addr && addr + n <= ms[k].heapEnd && 0 < n
    requires forall b :: b in blocks ==> b.pages > 0
    ensures Rooted(ms, Added(blocks, addr, n)) && forall b :: b in Added(blocks, addr, n) ==> b.pages > 0
  {
    var nb := Added(blocks, addr, n);
    if Continues(blocks, addr) {
      var last := blocks[|blocks| - 1];
      assert last in blocks;
      var grown := BlockInfo(last.addr, last.pages + n);
      if Apart(ms) {
        var i :| 0 <= i < |ms| && ms[i].heapStart <= last.addr && last.End() <= ms[i].heapEnd;
        assert i == k;
        assert InOneHeap(ms, grown);
      }
      forall b | b in nb
        ensures b in blocks || b == grown
      {
      }
    } else {
      assert InOneHeap(ms, BlockInfo(addr, n));
      forall b | b in nb
        ensures b in blocks || b == BlockInfo(addr, n)
      {
      }
    }
  }

  /** The block `[addr, addr + n)` has gone from heap `k` into the group. */
  lemma {:induction false} TookBlock(ms: seq<PageHeap>, sizes: seq<nat>, init: seq<Bits>, before: Bits,
                                     blocks: seq<BlockInfo>, wanted: nat, remaining: nat, k: nat, addr: nat, n: nat)
    requires PoolOk(ms, sizes) && |init| == |ms| && k < |ms| && n <= remaining
    requires forall i :: 0 <= i < |init| ==> Shaped(init[i], sizes)
    requires Shaped(before, sizes)
    requires TakenFrom(before, sizes, init[k], Flatten(blocks))
    requires forall i :: 0 <= i < |ms| && i != k ==> TakenFrom(ms[i].bits, sizes, init[i], Flatten(blocks))
    requires forall p: nat :: addr <= p < addr + n ==> FreePage(before, sizes, p)
    requires ms[k].heapStart <= addr && addr + n <= ms[k].heapEnd
    requires forall p: nat :: FreePage(ms[k].bits, sizes, p) <==> FreePage(before, sizes, p) && !(addr <= p < addr + n)
    requires NoDuplicates(Flatten(blocks)) && Elements(Flatten(blocks)) <= PoolPages(init, sizes)
    requires |Flatten(blocks)| + remaining == wanted
    ensures Progress(ms, sizes, init, Added(blocks, addr, n), wanted, remaining - n)
  {
    hide FreePage, Flatten, Added, Exclusive, Merged, Run, NoDuplicates, PoolPages, Elements;
    FlattenAdded(blocks, addr, n);
    AppendRun(Flatten(blocks), addr, n);
    TookTaken(ms, sizes, init, before, Flatten(blocks), k, addr, n, Flatten(Added(blocks, addr, n)));
    TookElements(init, sizes, k, Flatten(blocks), addr, n, Flatten(Added(blocks, addr, n)));
  }

  lemma {:induction false} TookTaken(ms: seq<PageHeap>, sizes: seq<nat>, init: seq<Bits>, before: Bits,
                                     taken: seq<nat>, k: nat, addr: nat, n: nat, after: seq<nat>)
    requires PoolOk(ms, sizes) && |init| == |ms| && k < |ms|
    requires forall i :: 0 <= i < |init| ==> Shaped(init[i], sizes)
    requires Shaped(before, sizes)
    requires TakenFrom(before, sizes, init[k], taken)
    requires forall i :: 0 <= i < |ms| && i != k ==> TakenFrom(ms[i].bits, sizes, init[i], taken)
    requires ms[k].heapStart <= addr && addr + n <= ms[k].heapEnd
    requires forall p: nat :: FreePage(ms[k].bits, sizes, p) <==> FreePage(before, sizes, p) && !(addr <= p < addr + n)
    requires forall p: nat :: p in after <==> p in taken || addr <= p < addr + n
    ensures Taken(ms, sizes, init, after)
  {
    forall i | 0 <= i < |ms|
      ensures TakenFrom(ms[i].bits, sizes, init[i], after)
    {
      if i != k {
        assert TakenFrom(ms[i].bits, sizes, init[i], taken);
        forall p: nat | addr <= p < addr + n
          ensures !FreePage(ms[i].bits, sizes, p)
        {
          OutsideHeap(ms, sizes, i, k, p);
        }
      }
    }
  }

  /** A page of heap `k` is not free in another heap. */
  lemma {:induction false} OutsideHeap(ms: seq<PageHeap>, sizes: seq<nat>, i: nat, k: nat, p: nat)
    requires PoolOk(ms, sizes) && i < |ms| && k < |ms| && i != k
    requires ms[k].heapStart <= p < ms[k].heapEnd
    ensures !FreePage(ms[i].bits, sizes, p)
  {
  }

  lemma {:induction false} TookElements(init: seq<Bits>, sizes: seq<nat>, k: nat, taken: seq<nat>, addr: nat, n: nat,
                                        after: seq<nat>)
    requires k < |init| && forall i :: 0 <= i < |init| ==> Shaped(init[i], sizes)
    requires forall p: nat :: addr <= p < addr + n ==> FreePage(init[k], sizes, p)
    requires forall p: nat :: p in after <==> p in taken || addr <= p < addr + n
    requires Elements(taken) <= PoolPages(init, sizes)
    ensures Elements(after) <= PoolPages(init, sizes)
  {
    hide FreePage, PoolPages;
    forall p | p in after
      ensures p in PoolPages(init, sizes)
    {
      InPoolPages(init, sizes, p);
      if p in taken {
        assert p in Elements(taken);
      } else {
        assert FreePage(init[k], sizes, p);
      }
    }
  }

  lemma {:induction false} AppendRun(s: seq<nat>, addr: nat, n: nat)
    ensures forall p: nat :: p in s + Run(addr, n) <==> p in s || addr <= p < addr + n
    ensures NoDuplicates(s) && (forall p: nat :: addr <= p < addr + n ==> p !in s) ==> NoDuplicates(s + Run(addr, n))
  {
    var t := s + Run(addr, n);
    forall p: nat
      ensures p in t <==> p in s || addr <= p < addr + n
    {
      if addr <= p < addr + n {
        assert t[|s| + (p - addr)] == p;
      }
      if p in s {
        var i :| 0 <= i < |s| && s[i] == p;
        assert t[i] == p;
      }
    }
    if NoDuplicates(s) && forall p: nat :: addr <= p < addr + n ==> p !in s {
      forall i, j | 0 <= i < j < |t|
        ensures t[i] != t[j]
      {
        if i < |s| <= j {
          assert t[i] == s[i] && s[i] in s;
        }
      }
    }
  }

  ghost predicate Empty(m: PageHeap)
    requires Shaped(m.bits, m.sizes)
    reads m
  {
    forall p: nat :: !FreePage(m.bits, m.sizes, p)
  }

  /** Everything that holds between two blocks of an allocation. */
  ghost predicate Allocating(ms: seq<PageHeap>, sizes: seq<nat>, init: seq<Bits>, blocks: seq<BlockInfo>,
                             wanted: nat, remaining: nat)
    reads ms
  {
    && Progress(ms, sizes, init, blocks, wanted, remaining)
    && Rooted(ms, blocks) && MaximalRuns(blocks) && forall b :: b in blocks ==> b.pages > 0
  }

  /** The pages that were added come from one heap. */
  ghost predicate AddedFrom(m: PageHeap, before: seq<nat>, after: seq<nat>) {
    before <= after && forall i :: |before| <= i < |after| ==> m.heapStart <= after[i] < m.heapEnd
  }

  /** From index `from` on, pages of earlier heaps come before pages of later ones. */
  ghost predicate HeapOrdered(ms: seq<PageHeap>, pages: seq<nat>, from: nat) {
    forall i, j, a, b :: from <= i < j < |pages| && 0 <= a < |ms| && 0 <= b < |ms|
                         && ms[a].heapStart <= pages[i] < ms[a].heapEnd && ms[b].heapStart <= pages[j] < ms[b].heapEnd
                         ==> a <= b
  }

  /** From index `from` on, all pages come from the first `k` heaps. */
  ghost predicate FromFirst(ms: seq<PageHeap>, pages: seq<nat>, from: nat, k: nat) {
    forall i, a :: from <= i < |pages| && 0 <= a < |ms| && ms[a].heapStart <= pages[i] < ms[a].heapEnd ==> a < k
  }

  lemma {:induction false} OrderedOneMore(ms: seq<PageHeap>, sizes: seq<nat>, k: nat, before: seq<nat>,
                                          after: seq<nat>, from: nat)
    requires PoolOk(ms, sizes) && k < |ms| && AddedFrom(ms[k], before, after) && from <= |before|
    requires HeapOrdered(ms, before, from) && FromFirst(ms, before, from, k)
    ensures HeapOrdered(ms, after, from) && FromFirst(ms, after, from, k + 1)
  {
    forall i, a | from <= i < |after| && 0 <= a < |ms| && ms[a].heapStart <= after[i] < ms[a].heapEnd
      ensures if i < |before| then a < k else a == k
    {
      if i < |before| {
        assert after[i] == before[i];
      }
    }
    forall i, j, a, b | from <= i < j < |after| && 0 <= a < |ms| && 0 <= b < |ms|
                        && ms[a].heapStart <= after[i] < ms[a].heapEnd && ms[b].heapStart <= after[j] < ms[b].heapEnd
      ensures a <= b
    {
      if j < |before| {
        assert after[i] == before[i] && after[j] == before[j];
      }
    }
  }

  /** One block of one size from one heap into the group; a block that cannot be added goes back. */
  method TakeBlock(ms: seq<PageHeap>, sizes: seq<nat>, k: nat, index: nat, group: PageGroup, random: bool,
                   ghost init: seq<Bits>, ghost wanted: nat, ghost remaining: nat)
    returns (found: bool, added: bool)
    requires Allocating(ms, sizes, init, group.blocks, wanted, remaining) && k < |ms| && index < |sizes|
    requires sizes[index] <= remaining
    modifies ms[k], group
    ensures Allocating(ms, sizes, init, group.blocks, wanted, if found && added then remaining - sizes[index] else remaining)
    ensures !found && index == 0 ==> Empty(ms[k])
    ensures found && !added ==> group.slots == 0
    ensures group.slots + |group.blocks| == old(group.slots + |group.blocks|)
    ensures AddedFrom(ms[k], old(Flatten(group.blocks)), Flatten(group.blocks))
  {
    hide Flatten, PoolPages, Rooted, Elements, NoDuplicates, Added, MaximalRuns;
    ghost var before, blocks := ms[k].bits, group.blocks;
    var block := ms[k].AllocateBlock(index, random);
    if block == NULL {
      if index == 0 {
        NoRunNoPage(ms[k].bits, sizes);
      }
      return false, true;
    }
    found := true;
    BlockInHeap(before, sizes, ms[k].heapStart, ms[k].heapEnd, block, sizes[index]);
    added := group.AddBlock(block, sizes[index]);
    if added {
      TookBlock(ms, sizes, init, before, blocks, wanted, remaining, k, block, sizes[index]);
      AddedRooted(ms, sizes, blocks, k, block, sizes[index]);
      FlattenAdded(blocks, block, sizes[index]);
    } else {
      ms[k].Free(block, sizes[index]);
      UndoBlock(ms, sizes, init, before, group.blocks, k);
    }
  }

  lemma {:induction false} BlockInHeap(bits: Bits, sizes: seq<nat>, lo: nat, hi: nat, addr: nat, n: nat)
    requires Shaped(bits, sizes) && n > 0
    requires forall p: nat :: FreePage(bits, sizes, p) ==> lo <= p < hi
    requires forall p: nat :: addr <= p < addr + n ==> FreePage(bits, sizes, p)
    ensures lo <= addr && addr + n <= hi
  {
    assert FreePage(bits, sizes, addr) && FreePage(bits, sizes, addr + n - 1);
  }

  /** The innermost loop: blocks of one size from one heap, until enough or none is left. */
  method TakeFromHeap(ms: seq<PageHeap>, sizes: seq<nat>, k: nat, index: nat, group: PageGroup, wantedNow: nat,
                      random: bool,
                      ghost init: seq<Bits>, ghost wanted: nat)
    returns (remaining: nat, added: bool)
    requires Allocating(ms, sizes, init, group.blocks, wanted, wantedNow) && k < |ms| && index < |sizes|
    modifies ms[k], group
    ensures Allocating(ms, sizes, init, group.blocks, wanted, remaining) && remaining <= wantedNow
    ensures added ==> remaining < sizes[index] || (index == 0 ==> Empty(ms[k]))
    ensures !added ==> group.slots == 0 && remaining > 0
    ensures group.slots + |group.blocks| == old(group.slots + |group.blocks|)
    ensures AddedFrom(ms[k], old(Flatten(group.blocks)), Flatten(group.blocks))
  {
    hide Taken, Rooted, PoolPages, Flatten, MaximalRuns;
    remaining, added := wantedNow, true;
    while remaining >= sizes[index]
      invariant AddedFrom(ms[k], old(Flatten(group.blocks)), Flatten(group.blocks))
      invariant Allocating(ms, sizes, init, group.blocks, wanted, remaining) && remaining <= wantedNow && added
      invariant group.slots + |group.blocks| == old(group.slots + |group.blocks|)
      decreases remaining
    {
      var found;
      found, added := TakeBlock(ms, sizes, k, index, group, random, init, wanted, remaining);
      if !found || !added {
        added := !found;
        return;
      }
      remaining := remaining - sizes[index];
    }
  }

  lemma {:induction false} NoRunNoPage(bits: Bits, sizes: seq<nat>)
    requires Shaped(bits, sizes) && !exists n: nat :: FreeRun(bits, sizes, sizes[0], n)
    ensures forall p: nat :: !FreePage(bits, sizes, p)
  {
    forall p: nat
      ensures !FreePage(bits, sizes, p)
    {
      if FreePage(bits, sizes, p) {
        assert FreeRun(bits, sizes, sizes[0], p);
      }
    }
  }

  /** A block that went out and came back has changed nothing. */
  lemma {:induction false} UndoBlock(ms: seq<PageHeap>, sizes: seq<nat>, init: seq<Bits>, before: Bits,
                                     blocks: seq<BlockInfo>, k: nat)
    requires PoolOk(ms, sizes) && |init| == |ms| && k < |ms| && Shaped(before, sizes)
    requires forall i :: 0 <= i < |init| ==> Shaped(init[i], sizes)
    requires TakenFrom(before, sizes, init[k], Flatten(blocks))
    requires forall i :: 0 <= i < |ms| && i != k ==> TakenFrom(ms[i].bits, sizes, init[i], Flatten(blocks))
    requires forall p: nat :: FreePage(ms[k].bits, sizes, p) <==> FreePage(before, sizes, p)
    ensures Taken(ms, sizes, init, Flatten(blocks))
  {
  }

  // ---- Rolling back ---------------------------------------------------------------------

  /** Page `p` of block `b` is given back: it lies in the heap in which the block starts. */
  ghost predicate GivenBack(ms: seq<PageHeap>, b: BlockInfo, p: nat) {
    exists k :: 0 <= k < |ms| && ms[k].heapStart <= b.addr < ms[k].heapEnd && b.addr <= p < b.End() && p < ms[k].heapEnd
  }

  ghost predicate GivenBackBy(ms: seq<PageHeap>, bs: seq<BlockInfo>, p: nat) {
    exists i :: 0 <= i < |bs| && GivenBack(ms, bs[i], p)
  }

  /** The free pages are those of `init`, but for pages of the group that were not given back. */
  ghost predicate RolledBack(ms: seq<PageHeap>, bits: Bits, sizes: seq<nat>, init: Bits, bs: seq<BlockInfo>, upTo: nat)
    requires Shaped(bits, sizes) && Shaped(init, sizes) && upTo <= |bs|
  {
    forall p: nat :: FreePage(bits, sizes, p) <==>
                     FreePage(init, sizes, p) && (p !in Flatten(bs) || GivenBackBy(ms, bs[..upTo], p))
  }

  lemma {:induction false} InFlatten(bs: seq<BlockInfo>, i: nat, p: nat)
    requires i < |bs| && bs[i].addr <= p < bs[i].End()
    ensures p in Flatten(bs)
  {
    if i == 0 {
      assert Flatten(bs)[p - bs[0].addr] == p;
    } else {
      InFlatten(bs[1..], i - 1, p);
    }
  }

  /** Distinct pages lie in one block only. */
  lemma {:induction false} BlocksDisjoint(bs: seq<BlockInfo>, i: nat, j: nat, p: nat)
    requires NoDuplicates(Flatten(bs)) && i < j < |bs| && bs[i].addr <= p < bs[i].End()
    ensures !(bs[j].addr <= p < bs[j].End())
  {
    var head, tail := Run(bs[0].addr, bs[0].pages), Flatten(bs[1..]);
    assert NoDuplicates(tail) by {
      forall a, b | 0 <= a < b < |tail|
        ensures tail[a] != tail[b]
      {
        assert Flatten(bs)[|head| + a] != Flatten(bs)[|head| + b];
      }
    }
    if i > 0 {
      BlocksDisjoint(bs[1..], i - 1, j - 1, p);
    } else {
      assert (head + tail)[p - bs[0].addr] == p;
      forall b | 0 <= b < |tail|
        ensures tail[b] != p
      {
        assert Flatten(bs)[p - bs[0].addr] != Flatten(bs)[|head| + b];
      }
      if bs[j].addr <= p < bs[j].End() {
        InFlatten(bs[1..], j - 1, p);
      }
    }
  }

  lemma {:induction false} MemberBlock(bs: seq<BlockInfo>, p: nat) returns (i: nat)
    requires p in Flatten(bs)
    ensures i < |bs| && bs[i].addr <= p < bs[i].End()
  {
    var k :| 0 <= k < |Flatten(bs)| && Flatten(bs)[k] == p;
    if k < bs[0].pages {
      i := 0;
    } else {
      assert Flatten(bs[1..])[k - bs[0].pages] == p;
      i := MemberBlock(bs[1..], p);
      i := i + 1;
    }
  }

  /** Block `b` runs past the end of the heap in which it starts. */
  ghost predicate Spans(ms: seq<PageHeap>, b: BlockInfo) {
    exists k :: 0 <= k < |ms| && ms[k].heapStart <= b.addr < ms[k].heapEnd < b.End()
  }

  lemma {:induction false} WithoutSpansComplete(ms: seq<PageHeap>, bs: seq<BlockInfo>, p: nat)
    requires forall b :: b in bs ==> exists k :: 0 <= k < |ms| && ms[k].heapStart <= b.addr < ms[k].heapEnd
    requires p in Flatten(bs) && forall b :: b in bs ==> !Spans(ms, b)
    ensures GivenBackBy(ms, bs, p)
  {
    var i := MemberBlock(bs, p);
    assert bs[i] in bs;
    var k :| 0 <= k < |ms| && ms[k].heapStart <= bs[i].addr < ms[k].heapEnd;
    assert bs[i].End() <= ms[k].heapEnd;
    assert GivenBack(ms, bs[i], p);
  }

  /** The first page of a block beyond its heap is lost. */
  lemma {:induction false} SpanLosesPage(ms: seq<PageHeap>, sizes: seq<nat>, bs: seq<BlockInfo>, i: nat) returns (p: nat)
    requires PoolOk(ms, sizes) && NoDuplicates(Flatten(bs)) && i < |bs| && Spans(ms, bs[i])
    ensures p in Flatten(bs) && !GivenBackBy(ms, bs, p)
  {
    hide Flatten, NoDuplicates;
    var k :| 0 <= k < |ms| && ms[k].heapStart <= bs[i].addr < ms[k].heapEnd < bs[i].End();
    p := ms[k].heapEnd;
    InFlatten(bs, i, p);
    forall j | 0 <= j < |bs|
      ensures !GivenBack(ms, bs[j], p)
    {
      if j < i {
        BlocksDisjoint'(bs, j, i, p);
      } else if i < j {
        BlocksDisjoint(bs, i, j, p);
      }
    }
  }

  lemma {:induction false} BlocksDisjoint'(bs: seq<BlockInfo>, i: nat, j: nat, p: nat)
    requires NoDuplicates(Flatten(bs)) && i < j < |bs| && bs[j].addr <= p < bs[j].End()
    ensures !(bs[i].addr <= p < bs[i].End())
  {
    if bs[i].addr <= p < bs[i].End() {
      BlocksDisjoint(bs, i, j, p);
    }
  }

  /** The roll back gives every page of the group back exactly when no block of the group spans two heaps. */
  lemma {:induction false} RollBackIsComplete(ms: seq<PageHeap>, sizes: seq<nat>, bs: seq<BlockInfo>)
    requires PoolOk(ms, sizes) && NoDuplicates(Flatten(bs))
    requires forall b :: b in bs ==> exists k :: 0 <= k < |ms| && ms[k].heapStart <= b.addr < ms[k].heapEnd
    ensures (forall p: nat :: p in Flatten(bs) ==> GivenBackBy(ms, bs, p)) <==> forall b :: b in bs ==> !Spans(ms, b)
  {
    hide Flatten, NoDuplicates, GivenBackBy, Spans, PoolOk;
    if forall b :: b in bs ==> !Spans(ms, b) {
      forall p: nat | p in Flatten(bs)
        ensures GivenBackBy(ms, bs, p)
      {
        WithoutSpansComplete(ms, bs, p);
      }
    }
    if b :| b in bs && Spans(ms, b) {
      var i :| 0 <= i < |bs| && bs[i] == b;
      var p := SpanLosesPage(ms, sizes, bs, i);
    }
  }

  /** `GetManager`: the heap that a page belongs to. */
  method GetManager(ms: seq<PageHeap>, addr: nat) returns (k: nat)
    requires exists i :: 0 <= i < |ms| && ms[i].heapStart <= addr < ms[i].heapEnd
    ensures k < |ms| && ms[k].heapStart <= addr < ms[k].heapEnd
  {
    k := 0;
    while !(ms[k].heapStart <= addr < ms[k].heapEnd)
      invariant k < |ms| && exists i :: k <= i < |ms| && ms[i].heapStart <= addr < ms[i].heapEnd
      decreases |ms| - k
    {
      k := k + 1;
    }
  }

  ghost predicate InitOk(ms: seq<PageHeap>, sizes: seq<nat>, init: seq<Bits>) {
    && |init| == |ms| && (forall i :: 0 <= i < |init| ==> Shaped(init[i], sizes))
    && forall i, p: nat :: 0 <= i < |ms| && FreePage(init[i], sizes, p) ==> ms[i].heapStart <= p < ms[i].heapEnd
  }

  /** A page of the group inside heap `k` was free there at first. */
  lemma {:induction false} GroupPageWasFree(ms: seq<PageHeap>, sizes: seq<nat>, init: seq<Bits>, bs: seq<BlockInfo>,
                                            k: nat, p: nat)
    requires PoolOk(ms, sizes) && InitOk(ms, sizes, init)
    requires Elements(Flatten(bs)) <= PoolPages(init, sizes) && p in Flatten(bs)
    requires k < |ms| && ms[k].heapStart <= p < ms[k].heapEnd
    ensures FreePage(init[k], sizes, p)
  {
    assert p in Elements(Flatten(bs));
    InPoolPages(init, sizes, p);
    var i :| 0 <= i < |init| && FreePage(init[i], sizes, p);
    assert i == k;
  }

  lemma {:induction false} GivenBackOneMore(ms: seq<PageHeap>, sizes: seq<nat>, bs: seq<BlockInfo>, i: nat, k: nat, p: nat)
    requires PoolOk(ms, sizes) && i < |bs| && k < |ms| && ms[k].heapStart <= bs[i].addr < ms[k].heapEnd
    ensures GivenBackBy(ms, bs[..i + 1], p) <==>
            GivenBackBy(ms, bs[..i], p) || (bs[i].addr <= p < bs[i].End() && p < ms[k].heapEnd)
  {
    if GivenBackBy(ms, bs[..i], p) {
      var j :| 0 <= j < i && GivenBack(ms, bs[..i][j], p);
      assert GivenBack(ms, bs[..i + 1][j], p);
    }
    if GivenBackBy(ms, bs[..i + 1], p) {
      var j :| 0 <= j < i + 1 && GivenBack(ms, bs[..i + 1][j], p);
      if j < i {
        assert GivenBack(ms, bs[..i][j], p);
      } else {
        var q :| 0 <= q < |ms| && ms[q].heapStart <= bs[i].addr < ms[q].heapEnd && bs[i].addr <= p < bs[i].End() && p < ms[q].heapEnd;
        assert q == k;
      }
    }
    if bs[i].addr <= p < bs[i].End() && p < ms[k].heapEnd {
      assert GivenBack(ms, bs[..i + 1][i], p);
    }
  }

  lemma {:induction false} NotGivenBackYet(ms: seq<PageHeap>, bs: seq<BlockInfo>, i: nat, p: nat)
    requires NoDuplicates(Flatten(bs)) && i < |bs| && bs[i].addr <= p < bs[i].End()
    ensures !GivenBackBy(ms, bs[..i], p) && p in Flatten(bs)
  {
    InFlatten(bs, i, p);
    if GivenBackBy(ms, bs[..i], p) {
      var j :| 0 <= j < i && GivenBack(ms, bs[..i][j], p);
      BlocksDisjoint(bs, j, i, p);
    }
  }

  /** One round of the roll back: the part of block `i` inside its heap `k` is free again. */
  lemma {:induction false} RolledBackOneMore(ms: seq<PageHeap>, sizes: seq<nat>, init: seq<Bits>, bs: seq<BlockInfo>,
                                             i: nat, k: nat, j: nat, before: Bits, n: nat)
    requires PoolOk(ms, sizes) && InitOk(ms, sizes, init) && Shaped(before, sizes)
    requires Elements(Flatten(bs)) <= PoolPages(init, sizes)
    requires i < |bs| && k < |ms| && j < |ms| && ms[k].heapStart <= bs[i].addr < ms[k].heapEnd
    requires n == (if bs[i].pages < ms[k].heapEnd - bs[i].addr then bs[i].pages else ms[k].heapEnd - bs[i].addr)
    requires RolledBack(ms, before, sizes, init[j], bs, i)
    requires forall p: nat :: FreePage(ms[j].bits, sizes, p) <==>
                              FreePage(before, sizes, p) || (j == k && bs[i].addr <= p < bs[i].addr + n)
    ensures RolledBack(ms, ms[j].bits, sizes, init[j], bs, i + 1)
  {
    hide Flatten, PoolPages, GivenBack, GivenBackBy;
    forall p: nat
      ensures FreePage(ms[j].bits, sizes, p) <==>
              FreePage(init[j], sizes, p) && (p !in Flatten(bs) || GivenBackBy(ms, bs[..i + 1], p))
    {
      GivenBackOneMore(ms, sizes, bs, i, k, p);
      if bs[i].addr <= p < bs[i].addr + n {
        InFlatten(bs, i, p);
        GroupPageWasFree(ms, sizes, init, bs, k, p);
        assert FreePage(init[j], sizes, p) ==> ms[j].heapStart <= p < ms[j].heapEnd;
      }
    }
  }

  /** The guard of `AllocatePageGroupImpl`: frees the part of each block that lies in its first heap. */
  method FreeGroup(ms: seq<PageHeap>, sizes: seq<nat>, group: PageGroup, ghost init: seq<Bits>)
    requires PoolOk(ms, sizes) && InitOk(ms, sizes, init) && Taken(ms, sizes, init, Flatten(group.blocks))
    requires NoDuplicates(Flatten(group.blocks)) && Elements(Flatten(group.blocks)) <= PoolPages(init, sizes)
    requires Rooted(ms, group.blocks)
    modifies ms, group
    ensures PoolOk(ms, sizes) && group.blocks == [] && group.slots == old(group.slots + |group.blocks|)
    ensures forall j :: 0 <= j < |ms| ==>
              RolledBack(ms, ms[j].bits, sizes, init[j], old(group.blocks), |old(group.blocks)|)
  {
    hide Flatten, PoolPages, NoDuplicates, Elements, GivenBackBy;
    var bs := group.blocks;
    NothingGivenBack(ms, sizes, init, bs);
    var i := 0;
    while i < |group.blocks|
      invariant 0 <= i <= |bs| && group.blocks == bs && group.slots == old(group.slots)
      invariant PoolOk(ms, sizes)
      invariant forall j :: 0 <= j < |ms| ==> RolledBack(ms, ms[j].bits, sizes, init[j], bs, i)
    {
      FreeGroupBlock(ms, sizes, bs, i, init);
      i := i + 1;
    }
    group.Finalize();
  }

  lemma {:induction false} NothingGivenBack(ms: seq<PageHeap>, sizes: seq<nat>, init: seq<Bits>, bs: seq<BlockInfo>)
    requires PoolOk(ms, sizes) && InitOk(ms, sizes, init) && Taken(ms, sizes, init, Flatten(bs))
    ensures forall j :: 0 <= j < |ms| ==> RolledBack(ms, ms[j].bits, sizes, init[j], bs, 0)
  {
    forall j | 0 <= j < |ms|
      ensures RolledBack(ms, ms[j].bits, sizes, init[j], bs, 0)
    {
      assert TakenFrom(ms[j].bits, sizes, init[j], Flatten(bs));
    }
  }

  method FreeGroupBlock(ms: seq<PageHeap>, sizes: seq<nat>, bs: seq<BlockInfo>, i: nat, ghost init: seq<Bits>)
    requires PoolOk(ms, sizes) && InitOk(ms, sizes, init)
    requires NoDuplicates(Flatten(bs)) && Elements(Flatten(bs)) <= PoolPages(init, sizes) && Rooted(ms, bs)
    requires i < |bs| && forall j :: 0 <= j < |ms| ==> RolledBack(ms, ms[j].bits, sizes, init[j], bs, i)
    modifies ms
    ensures PoolOk(ms, sizes)
    ensures forall j :: 0 <= j < |ms| ==> RolledBack(ms, ms[j].bits, sizes, init[j], bs, i + 1)
  {
    hide Flatten, PoolPages, NoDuplicates, Elements, GivenBackBy;
    assert bs[i] in bs;
    var k := GetManager(ms, bs[i].addr);
    var rest := ms[k].heapEnd - bs[i].addr;
    var n := if bs[i].pages < rest then bs[i].pages else rest;
    ghost var before := Bitmaps(ms);
    forall p: nat | bs[i].addr <= p < bs[i].addr + n
      ensures !FreePage(ms[k].bits, sizes, p)
    {
      NotGivenBackYet(ms, bs, i, p);
      assert RolledBack(ms, ms[k].bits, sizes, init[k], bs, i);
    }
    ms[k].Free(bs[i].addr, n);
    forall j | 0 <= j < |ms|
      ensures RolledBack(ms, ms[j].bits, sizes, init[j], bs, i + 1)
    {
      RolledBackOneMore(ms, sizes, init, bs, i, k, j, before[j], n);
    }
  }

  // ---- The allocation --------------------------------------------------------------------

  /** `GetBlockIndex`: the largest block size that is not larger than the request, if there is one. */
  method GetBlockIndex(sizes: seq<nat>, numPages: nat) returns (index: int)
    requires ValidSizes(sizes)
    ensures -1 <= index < |sizes| && (index == -1 <==> numPages == 0)
    ensures 0 <= index ==> sizes[index] <= numPages
    ensures forall j :: index < j < |sizes| ==> numPages < sizes[j]
  {
    index := |sizes| - 1;
    while index >= 0
      invariant -1 <= index < |sizes|
      invariant forall j :: index < j < |sizes| ==> numPages < sizes[j]
    {
      if numPages >= sizes[index] {
        return;
      }
      index := index - 1;
    }
  }

  /** The two inner loops: one block size, all heaps of the pool. */
  method TakeFromPool(ms: seq<PageHeap>, sizes: seq<nat>, index: nat, group: PageGroup, wantedNow: nat, random: bool,
                      ghost init: seq<Bits>, ghost wanted: nat)
    returns (remaining: nat, added: bool)
    requires Allocating(ms, sizes, init, group.blocks, wanted, wantedNow) && index < |sizes|
    modifies ms, group
    ensures Allocating(ms, sizes, init, group.blocks, wanted, remaining) && remaining <= wantedNow
    ensures added && index == 0 ==> remaining == 0 || forall j :: 0 <= j < |ms| ==> Empty(ms[j])
    ensures !added ==> group.slots == 0 && remaining > 0
    ensures group.slots + |group.blocks| == old(group.slots + |group.blocks|)
    ensures HeapOrdered(ms, Flatten(group.blocks), old(|Flatten(group.blocks)|))
  {
    hide Taken, Rooted, PoolPages, Flatten, MaximalRuns, HeapOrdered, FromFirst;
    remaining, added := wantedNow, true;
    var k := 0;
    ghost var from := |Flatten(group.blocks)|;
    OrderedAtFirst(ms, Flatten(group.blocks));
    while k < |ms|
      invariant from <= |Flatten(group.blocks)|
      invariant HeapOrdered(ms, Flatten(group.blocks), from) && FromFirst(ms, Flatten(group.blocks), from, k)
      invariant 0 <= k <= |ms| && added
      invariant Allocating(ms, sizes, init, group.blocks, wanted, remaining) && remaining <= wantedNow
      invariant index == 0 ==> remaining == 0 || forall j :: 0 <= j < k ==> Empty(ms[j])
      invariant group.slots + |group.blocks| == old(group.slots + |group.blocks|)
    {
      ghost var before := Flatten(group.blocks);
      remaining, added := TakeFromHeap(ms, sizes, k, index, group, remaining, random, init, wanted);
      OrderedOneMore(ms, sizes, k, before, Flatten(group.blocks), from);
      if !added {
        return;
      }
      k := k + 1;
    }
  }

  lemma {:induction false} OrderedAtFirst(ms: seq<PageHeap>, pages: seq<nat>)
    ensures HeapOrdered(ms, pages, |pages|) && FromFirst(ms, pages, |pages|, 0)
  {
  }

  ghost predicate Restored(ms: seq<PageHeap>, sizes: seq<nat>, init: seq<Bits>)
    requires PoolOk(ms, sizes) && InitOk(ms, sizes, init)
    reads ms
  {
    forall j :: 0 <= j < |ms| ==> TakenFrom(ms[j].bits, sizes, init[j], [])
  }

  /** After a roll back the pool is as it was exactly when no block of the group spanned two heaps. */
  lemma {:induction false} RestoredIffNoSpan(ms: seq<PageHeap>, sizes: seq<nat>, init: seq<Bits>, bs: seq<BlockInfo>)
    requires PoolOk(ms, sizes) && InitOk(ms, sizes, init) && NoDuplicates(Flatten(bs)) && Rooted(ms, bs)
    requires Elements(Flatten(bs)) <= PoolPages(init, sizes)
    requires forall j :: 0 <= j < |ms| ==> RolledBack(ms, ms[j].bits, sizes, init[j], bs, |bs|)
    ensures Restored(ms, sizes, init) <==> forall b :: b in bs ==> !Spans(ms, b)
  {
    hide Flatten, NoDuplicates, GivenBackBy, Spans, PoolPages, Elements;
    assert bs[..|bs|] == bs;
    RollBackIsComplete(ms, sizes, bs);
    if forall b :: b in bs ==> !Spans(ms, b) {
      forall j | 0 <= j < |ms|
        ensures TakenFrom(ms[j].bits, sizes, init[j], [])
      {
        assert RolledBack(ms, ms[j].bits, sizes, init[j], bs, |bs|);
      }
    } else {
      var p: nat :| p in Flatten(bs) && !GivenBackBy(ms, bs, p);
      var j := LostPageHeap(init, sizes, Flatten(bs), p);
      assert RolledBack(ms, ms[j].bits, sizes, init[j], bs, |bs|);
      assert !TakenFrom(ms[j].bits, sizes, init[j], []);
    }
  }

  lemma {:induction false} LostPageHeap(init: seq<Bits>, sizes: seq<nat>, taken: seq<nat>, p: nat) returns (j: nat)
    requires forall i :: 0 <= i < |init| ==> Shaped(init[i], sizes)
    requires Elements(taken) <= PoolPages(init, sizes) && p in taken
    ensures j < |init| && FreePage(init[j], sizes, p)
  {
    assert p in Elements(taken);
    InPoolPages(init, sizes, p);
    j :| 0 <= j < |init| && FreePage(init[j], sizes, p);
  }

  /** Heaps that are apart cannot be spanned. */
  lemma {:induction false} ApartNoSpan(ms: seq<PageHeap>, sizes: seq<nat>, bs: seq<BlockInfo>)
    requires PoolOk(ms, sizes) && Apart(ms) && Rooted(ms, bs) && forall b :: b in bs ==> b.pages > 0
    ensures forall b :: b in bs ==> !Spans(ms, b)
  {
    forall b | b in bs
      ensures !Spans(ms, b)
    {
      var i :| 0 <= i < |ms| && ms[i].heapStart <= b.addr && b.End() <= ms[i].heapEnd;
    }
  }

  /** When every heap is empty, the group holds the whole pool. */
  lemma {:induction false} PoolExhausted(ms: seq<PageHeap>, sizes: seq<nat>, init: seq<Bits>, bs: seq<BlockInfo>,
                                         wanted: nat, remaining: nat)
    requires Progress(ms, sizes, init, bs, wanted, remaining)
    requires forall j :: 0 <= j < |ms| ==> Empty(ms[j])
    ensures |PoolPages(init, sizes)| == wanted - remaining && Elements(Flatten(bs)) == PoolPages(init, sizes)
  {
    forall p | p in PoolPages(init, sizes)
      ensures p in Elements(Flatten(bs))
    {
      InPoolPages(init, sizes, p);
      var j :| 0 <= j < |init| && FreePage(init[j], sizes, p);
      assert TakenFrom(ms[j].bits, sizes, init[j], Flatten(bs));
    }
    assert Elements(Flatten(bs)) == PoolPages(init, sizes);
    CountElements(Flatten(bs));
  }

  /** What an allocation leaves behind. */
  ghost predicate Outcome(ms: seq<PageHeap>, sizes: seq<nat>, init: seq<Bits>, ok: bool, wanted: nat,
                          blocks: seq<BlockInfo>, tried: seq<BlockInfo>)
    reads ms
  {
    && PoolOk(ms, sizes) && InitOk(ms, sizes, init)
    && if ok then
         // exactly the wanted number of distinct pages has left the pool
         && Taken(ms, sizes, init, Flatten(blocks))
         && NoDuplicates(Flatten(blocks)) && Elements(Flatten(blocks)) <= PoolPages(init, sizes)
         && |Flatten(blocks)| == wanted
       else
         // the pool is as it was, unless a block of the group spanned two heaps
         && blocks == [] && MaximalRuns(tried) && NoDuplicates(Flatten(tried))
         && (Restored(ms, sizes, init) <==> forall b :: b in tried ==> !Spans(ms, b))
         && (Apart(ms) ==> Restored(ms, sizes, init))
  }

  /** The request is too small for every block size but the first. */
  predicate SmallestOnly(sizes: seq<nat>, numPages: nat) {
    |sizes| == 1 || (|sizes| > 1 && numPages < sizes[1])
  }

  lemma {:induction false} SmallestIndex(sizes: seq<nat>, numPages: nat, index: nat)
    requires ValidSizes(sizes) && index < |sizes| && sizes[index] <= numPages && SmallestOnly(sizes, numPages)
    ensures index == 0
  {
    if index > 1 {
      SmallestIndex(sizes, numPages, index - 1);
    }
  }

  /** `AllocatePageGroupImpl`.  `tried` is the group at the time of a failure. */
  method AllocatePageGroup(ms: seq<PageHeap>, sizes: seq<nat>, group: PageGroup, numPages: nat, random: bool)
    returns (ok: bool, outOfInfos: bool, ghost tried: seq<BlockInfo>)
    requires PoolOk(ms, sizes) && group.blocks == []
    modifies ms, group
    ensures Outcome(ms, sizes, old(Bitmaps(ms)), ok, numPages, group.blocks, tried)
    ensures !outOfInfos ==> (ok <==> 0 < numPages <= |PoolPages(old(Bitmaps(ms)), sizes)|)
    ensures outOfInfos ==> !ok && |tried| == old(group.slots) < numPages
    ensures !ok ==> |Flatten(tried)| < numPages || numPages == 0
    ensures !ok && !outOfInfos && numPages > 0 ==> Elements(Flatten(tried)) == PoolPages(old(Bitmaps(ms)), sizes)
    ensures !ok && SmallestOnly(sizes, numPages) ==> HeapOrdered(ms, Flatten(tried), 0)
    ensures group.slots + |group.blocks| == old(group.slots + |group.blocks|)
  {
    hide PoolPages, Elements, NoDuplicates, GivenBackBy, Exclusive, Merged;
    ghost var init := Bitmaps(ms);
    AllocationStarts(ms, sizes, init, numPages);
    tried := [];
    var index := GetBlockIndex(sizes, numPages);
    if index < 0 {
      NothingTried(ms, sizes, init);
      return false, false, tried;
    }
    if SmallestOnly(sizes, numPages) {
      SmallestIndex(sizes, numPages, index);
    }
    var remaining := numPages;
    while index >= 0 && remaining > 0
      invariant -1 <= index < |sizes|
      invariant Allocating(ms, sizes, init, group.blocks, numPages, remaining)
      invariant index == -1 ==> remaining == 0 || forall j :: 0 <= j < |ms| ==> Empty(ms[j])
      invariant SmallestOnly(sizes, numPages) ==>
                  index <= 0 && (if index == 0 then Flatten(group.blocks) == [] else HeapOrdered(ms, Flatten(group.blocks), 0))
      invariant group.slots + |group.blocks| == old(group.slots + |group.blocks|)
      decreases index
    {
      var added;
      remaining, added := TakeFromPool(ms, sizes, index, group, remaining, random, init, numPages);
      if !added {
        tried := group.blocks;
        FewerBlocksThanPages(tried);
        GiveUp(ms, sizes, group, init, numPages, remaining);
        return false, true, tried;
      }
      index := index - 1;
    }
    if remaining == 0 {
      EnoughPages(group.blocks, init, sizes);
      return true, false, tried;
    }
    PoolExhausted(ms, sizes, init, group.blocks, numPages, remaining);
    tried := group.blocks;
    GiveUp(ms, sizes, group, init, numPages, remaining);
    return false, false, tried;
  }

  lemma {:induction false} FewerBlocksThanPages(bs: seq<BlockInfo>)
    requires forall b :: b in bs ==> b.pages > 0
    ensures |bs| <= |Flatten(bs)|
  {
    if bs != [] {
      assert bs[0] in bs;
      FewerBlocksThanPages(bs[1..]);
    }
  }

  lemma {:induction false} EnoughPages(bs: seq<BlockInfo>, init: seq<Bits>, sizes: seq<nat>)
    requires forall i :: 0 <= i < |init| ==> Shaped(init[i], sizes)
    requires NoDuplicates(Flatten(bs)) && Elements(Flatten(bs)) <= PoolPages(init, sizes)
    ensures |Flatten(bs)| <= |PoolPages(init, sizes)|
  {
    CountElements(Flatten(bs));
    SubsetSize(Elements(Flatten(bs)), PoolPages(init, sizes));
  }

  lemma {:induction false} AllocationStarts(ms: seq<PageHeap>, sizes: seq<nat>, init: seq<Bits>, wanted: nat)
    requires PoolOk(ms, sizes) && init == Bitmaps(ms)
    ensures InitOk(ms, sizes, init) && Allocating(ms, sizes, init, [], wanted, wanted)
  {
  }

  lemma {:induction false} NothingTried(ms: seq<PageHeap>, sizes: seq<nat>, init: seq<Bits>)
    requires PoolOk(ms, sizes) && init == Bitmaps(ms) && InitOk(ms, sizes, init)
    ensures Restored(ms, sizes, init)
  {
  }

  method GiveUp(ms: seq<PageHeap>, sizes: seq<nat>, group: PageGroup, ghost init: seq<Bits>, ghost wanted: nat,
                ghost remaining: nat)
    requires Allocating(ms, sizes, init, group.blocks, wanted, remaining) && InitOk(ms, sizes, init)
    modifies ms, group
    ensures Outcome(ms, sizes, init, false, wanted, group.blocks, old(group.blocks))
    ensures group.slots + |group.blocks| == old(group.slots + |group.blocks|)
  {
    hide Flatten, PoolPages, Elements, NoDuplicates, GivenBackBy, Exclusive, Merged, Spans;
    ghost var bs := group.blocks;
    FreeGroup(ms, sizes, group, init);
    RestoredIffNoSpan(ms, sizes, init, bs);
    if Apart(ms) {
      ApartNoSpan(ms, sizes, bs);
    }
  }

  // ---- An allocation that loses a page ---------------------------------------------------------

  /** A heap of the program's block sizes over `[start, end)` with one free page. */
  method HeapWithOneFree(start: nat, end: nat, page: nat) returns (h: PageHeap)
    requires 0 < start <= page < end
    ensures fresh(h) && h.Valid() && h.sizes == MEMORY_BLOCK_PAGES && h.heapStart == start && h.heapEnd == end
    ensures forall p: nat :: FreePage(h.bits, h.sizes, p) <==> p == page
  {
    hide FreePage, ValidSizes;
    MemoryBlockPagesAreValid();
    h := new PageHeap(MEMORY_BLOCK_PAGES, start, end - start);
    h.Free(page, 1);
  }

  /** Any two heaps that touch, with the page on each side of the edge free and no other, and three pages asked for: the
      allocation fails for want of pages, and the pool is not as it was, because the group had joined both pages into one
      block. */
  method TouchingHeapsLosePage(start: nat, edge: nat, end: nat)
    returns (a: PageHeap, b: PageHeap, ok: bool, ghost init: seq<Bits>)
    requires 0 < start < edge < end
    ensures a.heapStart == start && a.heapEnd == edge == b.heapStart && b.heapEnd == end
    ensures PoolOk([a, b], MEMORY_BLOCK_PAGES) && InitOk([a, b], MEMORY_BLOCK_PAGES, init)
    ensures PoolPages(init, MEMORY_BLOCK_PAGES) == {edge - 1, edge}
    ensures !ok && !Restored([a, b], MEMORY_BLOCK_PAGES, init)
  {
    hide FreePage, ValidSizes, PoolPages, Restored, PoolOk, InitOk;
    a := HeapWithOneFree(start, edge, edge - 1);
    b := HeapWithOneFree(edge, end, edge);
    MemoryBlockPagesAreValid();
    ok, init := AskForThree(a, b, MEMORY_BLOCK_PAGES, edge);
  }

  /** The allocation of that run. */
  method AskForThree(a: PageHeap, b: PageHeap, sizes: seq<nat>, edge: nat) returns (ok: bool, ghost init: seq<Bits>)
    requires a != b && a.Valid() && b.Valid() && a.sizes == b.sizes == sizes && ValidSizes(sizes) && SmallestOnly(sizes, 3)
    requires a.heapStart < edge == a.heapEnd == b.heapStart < b.heapEnd
    requires forall p: nat :: FreePage(a.bits, sizes, p) <==> p == edge - 1
    requires forall p: nat :: FreePage(b.bits, sizes, p) <==> p == edge
    modifies a, b
    ensures PoolOk([a, b], sizes) && InitOk([a, b], sizes, init) && PoolPages(init, sizes) == {edge - 1, edge}
    ensures !ok && !Restored([a, b], sizes, init)
  {
    hide FreePage, Exclusive, Merged, PoolPages, Elements, Flatten, NoDuplicates, MaximalRuns, HeapOrdered, Spans, Restored;
    hide ValidSizes;
    var ms := [a, b];
    TouchingPool(a, b);
    var group := new PageGroup(3);
    init := Bitmaps(ms);
    TwoPagesFree(init, sizes, edge);
    var outOfInfos;
    ghost var tried;
    ok, outOfInfos, tried := AllocatePageGroup(ms, sizes, group, 3, false);
    JoinedGroup(a, b, edge, tried);
    assert tried[0] in tried;
  }

  lemma {:induction false} TouchingPool(a: PageHeap, b: PageHeap)
    requires a != b && a.Valid() && b.Valid() && a.sizes == b.sizes && ValidSizes(a.sizes) && a.heapEnd == b.heapStart
    ensures PoolOk([a, b], a.sizes)
  {
    hide FreePage, Exclusive, Merged, ValidSizes;
  }

  lemma {:induction false} TwoPagesFree(init: seq<Bits>, sizes: seq<nat>, edge: nat)
    requires 0 < edge && |init| == 2 && Shaped(init[0], sizes) && Shaped(init[1], sizes)
    requires forall p: nat :: FreePage(init[0], sizes, p) <==> p == edge - 1
    requires forall p: nat :: FreePage(init[1], sizes, p) <==> p == edge
    ensures PoolPages(init, sizes) == {edge - 1, edge} && |PoolPages(init, sizes)| == 2
  {
    hide FreePage, PoolPages, ValidSizes;
    var pool := PoolPages(init, sizes);
    forall p: nat
      ensures p in pool <==> p == edge - 1 || p == edge
    {
      InPoolPages(init, sizes, p);
      if p == edge - 1 {
        assert FreePage(init[0], sizes, p);
      }
      if p == edge {
        assert FreePage(init[1], sizes, p);
      }
    }
    assert pool == {edge - 1, edge};
  }

  lemma {:induction false} JoinedGroup(a: PageHeap, b: PageHeap, edge: nat, tried: seq<BlockInfo>)
    requires a.heapStart < edge == a.heapEnd == b.heapStart < b.heapEnd
    requires MaximalRuns(tried) && NoDuplicates(Flatten(tried)) && Elements(Flatten(tried)) == {edge - 1, edge}
    requires HeapOrdered([a, b], Flatten(tried), 0)
    ensures tried == [BlockInfo(edge - 1, 2)] && Spans([a, b], tried[0])
  {
    var pages := Flatten(tried);
    CountElements(pages);
    assert |pages| == 2;
    assert pages[0] in Elements(pages) && pages[1] in Elements(pages);
    assert [a, b][0] == a && [a, b][1] == b;
    assert pages == [edge - 1, edge];
    FlattenOne(BlockInfo(edge - 1, 2));
    assert Run(edge - 1, 2) == [edge - 1, edge];
    MaximalRunsCanonical(tried, [BlockInfo(edge - 1, 2)]);
  }
}
