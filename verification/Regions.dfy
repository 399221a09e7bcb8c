/** Placing the alias, heap, stack and kernel-map regions of a process around its code (`InitializeForProcess`). */
module Regions {

  const REGION_ALIGNMENT: nat := 0x200000

  datatype Region = Region(start: nat, end: nat) {
    function Shift(n: nat): Region {
      Region(start + n, end + n)
    }

    /** The abort check, on first and last addresses. */
    predicate Apart(r: Region) {
      end - 1 < r.start || r.end - 1 < start
    }

    predicate Within(lo: nat, hi: nat) {
      lo <= start && end <= hi
    }
  }

  /** How large the regions are; a 39-bit space has a stack and a kernel-map region of its own. */
  datatype Sizes = Sizes(alias: nat, heap: nat, stack: nat, kernelMap: nat) {
    function Needed(): nat {
      alias + heap + stack + kernelMap
    }
  }

  /** The four random draws. */
  datatype Draws = Draws(alias: nat, heap: nat, stack: nat, kernelMap: nat) {
    predicate Below(remaining: nat) {
      alias <= remaining && heap <= remaining && stack <= remaining && kernelMap <= remaining
    }

    /** The draws as addresses; without address space randomisation nothing is drawn. */
    function Scaled(aslr: bool): Draws {
      if aslr then
        Draws(alias * REGION_ALIGNMENT, heap * REGION_ALIGNMENT, stack * REGION_ALIGNMENT, kernelMap * REGION_ALIGNMENT)
      else Draws(0, 0, 0, 0)
    }
  }

  /** What `GenerateRandomRange` allows, scaled, stays within the remaining space. */
  lemma {:induction false} ScaledDraws(r: Draws, aslr: bool, remaining: nat)
    requires aslr ==> r.Below(remaining / REGION_ALIGNMENT)
    ensures r.Scaled(aslr).Below(remaining)
  {
  }

  /** The order behind the comparisons: by draw, and on equal draws kernel map, stack, alias, heap. */
  datatype Key = Key(draw: nat, rank: nat) {
    predicate Before(k: Key) {
      draw < k.draw || (draw == k.draw && rank < k.rank)
    }
  }

  function KeyOf(d: Draws, which: nat): Key
    requires which < 4
  {
    if which == 0 then Key(d.kernelMap, 0)
    else if which == 1 then Key(d.stack, 1)
    else if which == 2 then Key(d.alias, 2)
    else Key(d.heap, 3)
  }

  function SizeOf(s: Sizes, which: nat): nat
    requires which < 4
  {
    if which == 0 then s.kernelMap else if which == 1 then s.stack else if which == 2 then s.alias else s.heap
  }

  /** The sizes of the regions that come before region `which`. */
  function SpaceBefore(s: Sizes, d: Draws, which: nat): nat
    requires which < 4
  {
    (if KeyOf(d, 0).Before(KeyOf(d, which)) then SizeOf(s, 0) else 0) +
    (if KeyOf(d, 1).Before(KeyOf(d, which)) then SizeOf(s, 1) else 0) +
    (if KeyOf(d, 2).Before(KeyOf(d, which)) then SizeOf(s, 2) else 0) +
    (if KeyOf(d, 3).Before(KeyOf(d, which)) then SizeOf(s, 3) else 0)
  }

  /** Where region `which` belongs: its draw, behind every region that comes before it. */
  function Place(s: Sizes, d: Draws, allocStart: nat, which: nat): Region
    requires which < 4
  {
    var start := allocStart + KeyOf(d, which).draw + SpaceBefore(s, d, which);
    Region(start, start + SizeOf(s, which))
  }

  /** The kernel map pushes back exactly the regions that do not come before it. */
  lemma {:induction false} KernelMapShifts(s: Sizes, d: Draws, at: nat, which: nat)
    requires 0 < which < 4
    ensures Place(s, d, at, which)
            == if KeyOf(d, which).draw < d.kernelMap then Place(s.(kernelMap := 0), d, at, which)
               else Place(s.(kernelMap := 0), d, at, which).Shift(s.kernelMap)
  {
  }

  lemma {:induction false} KernelMapPlace(s: Sizes, d: Draws, at: nat)
    ensures Place(s, d, at, 0)
            == Region(at + d.kernelMap, at + d.kernelMap + s.kernelMap)
               .Shift(if d.alias < d.kernelMap then s.alias else 0)
               .Shift(if d.heap < d.kernelMap then s.heap else 0)
               .Shift(if d.stack < d.kernelMap then s.stack else 0)
  {
  }

  lemma {:induction false} PlaceWithin(s: Sizes, d: Draws, allocStart: nat, remaining: nat, i: nat)
    requires i < 4 && d.Below(remaining)
    ensures Place(s, d, allocStart, i).Within(allocStart, allocStart + remaining + s.Needed())
  {
  }

  /** Places in one total order do not overlap and stay inside the gap. */
  lemma {:induction false} PlacesApart(s: Sizes, d: Draws, allocStart: nat, remaining: nat, i: nat, j: nat)
    requires i < 4 && j < 4 && i != j && d.Below(remaining)
    ensures Place(s, d, allocStart, i).Within(allocStart, allocStart + remaining + s.Needed())
    ensures if KeyOf(d, i).Before(KeyOf(d, j)) then Place(s, d, allocStart, i).end <= Place(s, d, allocStart, j).start
            else Place(s, d, allocStart, j).end <= Place(s, d, allocStart, i).start
  {
    PlaceWithin(s, d, allocStart, remaining, i);
  }

  /** What is known when the regions are placed: the space `[start, end)`, the code region, and the part of it that the
      process's code takes, widened to the region alignment.  Only a 39-bit space has stack and kernel-map regions of
      its own; in the others both are the code region, and the code takes all of it. */
  datatype Layout = Layout(start: nat, end: nat, code: Region, taken: Region, sizes: Sizes, wide: bool) {

    predicate Ok() {
      && start <= code.start <= taken.start <= taken.end <= end
      && (if wide then sizes.stack > 0 && sizes.kernelMap > 0
          else sizes.stack == 0 && sizes.kernelMap == 0 && taken == code)
      && code.start < code.end
    }

    /** The gap below the code if that is at least as large, or else the gap above it. */
    function Gap(): Region
      requires Ok()
    {
      if taken.start - code.start >= end - taken.end then Region(code.start, taken.start) else Region(taken.end, end)
    }

    function Remaining(): int
      requires Ok()
    {
      Gap().end - Gap().start - sizes.Needed()
    }
  }

  class Placement {
    var alias: Region
    var heap: Region
    var stack: Region
    var kernelMap: Region

    /** The regions placed so far are where they belong if the others had no size. */
    ghost predicate PlacedFor(s: Sizes, d: Draws, at: nat)
      reads this
    {
      && alias == Place(s, d, at, 2) && heap == Place(s, d, at, 3)
      && (s.stack > 0 ==> stack == Place(s, d, at, 1)) && (s.kernelMap > 0 ==> kernelMap == Place(s, d, at, 0))
    }

    method PlaceAliasAndHeap(s: Sizes, d: Draws, at: nat)
      modifies `alias, `heap
      ensures PlacedFor(s.(stack := 0, kernelMap := 0), d, at)
    {
      alias := Region(at + d.alias, at + d.alias + s.alias);
      heap := Region(at + d.heap, at + d.heap + s.heap);
      if d.alias <= d.heap {
        heap := heap.Shift(s.alias);
      } else {
        alias := alias.Shift(s.heap);
      }
    }

    method PlaceStack(s: Sizes, d: Draws, at: nat)
      requires PlacedFor(s.(stack := 0, kernelMap := 0), d, at) && s.stack > 0
      modifies `alias, `heap, `stack
      ensures PlacedFor(s.(kernelMap := 0), d, at)
    {
      stack := Region(at + d.stack, at + d.stack + s.stack);
      if d.alias < d.stack {
        stack := stack.Shift(s.alias);
      } else {
        alias := alias.Shift(s.stack);
      }
      if d.heap < d.stack {
        stack := stack.Shift(s.heap);
      } else {
        heap := heap.Shift(s.stack);
      }
    }

    method PlaceKernelMap(s: Sizes, d: Draws, at: nat)
      requires PlacedFor(s.(kernelMap := 0), d, at) && s.kernelMap > 0
      modifies `alias, `heap, `stack, `kernelMap
      ensures PlacedFor(s, d, at)
      ensures s.stack == 0 ==> stack == old(stack)
    {
      hide Place;
      KernelMapPlace(s, d, at);
      KernelMapShifts(s, d, at, 1);
      KernelMapShifts(s, d, at, 2);
      KernelMapShifts(s, d, at, 3);
      kernelMap := Region(at + d.kernelMap, at + d.kernelMap + s.kernelMap);
      if d.alias < d.kernelMap {
        kernelMap := kernelMap.Shift(s.alias);
      } else {
        alias := alias.Shift(s.kernelMap);
      }
      if d.heap < d.kernelMap {
        kernelMap := kernelMap.Shift(s.heap);
      } else {
        heap := heap.Shift(s.kernelMap);
      }
      if s.stack > 0 {
        if d.stack < d.kernelMap {
          kernelMap := kernelMap.Shift(s.stack);
        } else {
          stack := stack.Shift(s.kernelMap);
        }
      }
    }

    /** Places the regions from draws in units of the region alignment; fails exactly if the chosen gap is too small, and
        never comes to an abort. */
    method InitializeForProcess(l: Layout, aslr: bool, r: Draws) returns (ok: bool)
      requires l.Ok() && (aslr && l.Remaining() >= 0 ==> r.Below(l.Remaining() / REGION_ALIGNMENT))
      modifies this
      ensures ok <==> l.Remaining() >= 0
      ensures ok ==> PlacedFor(l.sizes, r.Scaled(aslr), l.Gap().start)
      ensures ok && !l.wide ==> stack == l.code && kernelMap == l.code
      ensures ok ==> ChecksPass(l, alias, heap, stack, kernelMap)
    {
      hide Place, ChecksPass;
      if !l.wide {
        stack, kernelMap := l.code, l.code;
      }
      var at, size;
      if l.taken.start - l.code.start >= l.end - l.taken.end {
        at, size := l.code.start, l.taken.start - l.code.start;
      } else {
        at, size := l.taken.end, l.end - l.taken.end;
      }
      if size < l.sizes.Needed() {
        return false;
      }
      var d := r.Scaled(aslr);
      ScaledDraws(r, aslr, size - l.sizes.Needed());
      PlaceAliasAndHeap(l.sizes, d, at);
      if l.sizes.stack > 0 {
        PlaceStack(l.sizes, d, at);
      }
      if l.sizes.kernelMap > 0 {
        PlaceKernelMap(l.sizes, d, at);
      }
      ok := true;
      ChecksNeverFire(l, d);
    }
  }

  /** For all draws: every placed region lies in the gap, hence in the space and clear of the code; any two placed regions
      are disjoint, the stack and kernel-map regions of a 39-bit space included. */
  lemma {:induction false} RegionsApart(l: Layout, d: Draws, i: nat, j: nat)
    requires l.Ok() && l.Remaining() >= 0 && d.Below(l.Remaining())
    requires i < 4 && j < 4 && i != j
    ensures var r, q := Place(l.sizes, d, l.Gap().start, i), Place(l.sizes, d, l.Gap().start, j);
            && r.Within(l.Gap().start, l.Gap().end) && r.Within(l.start, l.end)
            && (r.end <= l.taken.start || l.taken.end <= r.start)
            && (r.end <= q.start || q.end <= r.start)
  {
    PlacesApart(l.sizes, d, l.Gap().start, l.Remaining(), i, j);
  }

  /** The abort checks at the end of `InitializeForProcess`. */
  predicate ChecksPass(l: Layout, alias: Region, heap: Region, stack: Region, kernelMap: Region) {
    && alias.Within(l.start, l.end) && heap.Within(l.start, l.end)
    && stack.Within(l.start, l.end) && kernelMap.Within(l.start, l.end)
    && alias.Apart(heap) && alias.Apart(stack) && alias.Apart(kernelMap) && heap.Apart(stack) && heap.Apart(kernelMap)
  }

  /** They never fire. */
  lemma {:induction false} ChecksNeverFire(l: Layout, d: Draws)
    requires l.Ok() && l.Remaining() >= 0 && d.Below(l.Remaining())
    ensures var s, at := l.sizes, l.Gap().start;
            ChecksPass(l, Place(s, d, at, 2), Place(s, d, at, 3),
                       if l.wide then Place(s, d, at, 1) else l.code, if l.wide then Place(s, d, at, 0) else l.code)
  {
    RegionsApart(l, d, 2, 3);
    RegionsApart(l, d, 3, 2);
    RegionsApart(l, d, 0, 1);
    RegionsApart(l, d, 1, 0);
    RegionsApart(l, d, 2, 1);
    RegionsApart(l, d, 2, 0);
    RegionsApart(l, d, 3, 1);
    RegionsApart(l, d, 3, 0);
  }
}
