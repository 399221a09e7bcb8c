/** The free pages of a range, in order, and placing physical pages behind them. */
module FreeRanges {
  import opened Basics
  import opened MemoryBlocks
  import opened PageGroups
  import opened PageTables

  predicate IsFree(p: PageView) {
    p.info.state == STATE_FREE
  }

  /** The free pages of `[lo, hi)` in a space that starts at page `from`. */
  function FreeIn(v: seq<PageView>, from: nat, lo: nat, hi: nat): (r: seq<nat>)
    requires from <= lo && hi <= from + |v|
    ensures |r| <= if lo <= hi then hi - lo else 0
    decreases hi
  {
    if lo >= hi then []
    else FreeIn(v, from, lo, hi - 1) + (if IsFree(v[hi - 1 - from]) then [hi - 1] else [])
  }

  lemma {:induction false} InFreeIn(v: seq<PageView>, from: nat, lo: nat, hi: nat)
    requires from <= lo && hi <= from + |v|
    ensures forall p :: p in FreeIn(v, from, lo, hi) <==> lo <= p < hi && IsFree(v[p - from])
    decreases hi
  {
    if lo < hi {
      InFreeIn(v, from, lo, hi - 1);
    }
  }

  lemma {:induction false} FreeInConcat(v: seq<PageView>, from: nat, lo: nat, mid: nat, hi: nat)
    requires from <= lo <= mid <= hi <= from + |v|
    ensures FreeIn(v, from, lo, hi) == FreeIn(v, from, lo, mid) + FreeIn(v, from, mid, hi)
    decreases hi
  {
    if mid < hi {
      FreeInConcat(v, from, lo, mid, hi - 1);
    }
  }

  lemma {:induction false} FreeInStep(v: seq<PageView>, from: nat, lo: nat, hi: nat)
    requires from <= lo <= hi <= from + |v|
    ensures FreeIn(v, from, lo, hi)
            == if lo == hi then []
               else if IsFree(v[hi - 1 - from]) then FreeIn(v, from, lo, hi - 1) + [hi - 1]
               else FreeIn(v, from, lo, hi - 1)
  {
  }

  /** Free pages in a row are a run, mapped pages are none. */
  lemma {:induction false} FreeInAlike(v: seq<PageView>, from: nat, lo: nat, hi: nat, free: bool)
    requires from <= lo <= hi <= from + |v| && forall k :: lo - from <= k < hi - from ==> IsFree(v[k]) == free
    ensures FreeIn(v, from, lo, hi) == if free then Run(lo, hi - lo) else []
    decreases hi
  {
    hide IsFree, FreeIn, Run;
    FreeInStep(v, from, lo, hi);
    if lo < hi {
      FreeInAlike(v, from, lo, hi - 1, free);
      assert IsFree(v[hi - 1 - from]) == free;
      RunGrows(lo, hi - 1 - lo);
    }
  }

  lemma {:induction false} FreeInBlock(bs: seq<Block>, from: nat, to: nat, it: nat, lo: nat, hi: nat)
    requires Tiles(bs, from, to) && |View(bs)| == to - from && it < |bs| && bs[it].addr <= lo <= hi <= bs[it].End()
    ensures from <= lo && hi <= to
    ensures FreeIn(View(bs), from, lo, hi) == if bs[it].info.state == STATE_FREE then Run(lo, hi - lo) else []
  {
    TilesSplit(bs, from, to, it);
    forall k | lo - from <= k < hi - from
      ensures View(bs)[k].info == bs[it].info
    {
      ViewAt(bs, from, to, it, k + from - bs[it].addr);
    }
    FreeInAlike(View(bs), from, lo, hi, bs[it].info.state == STATE_FREE);
  }

  // ---- Placing pages --------------------------------------------------------------------------

  /** The table with `phys[i]` behind virtual page `at[i]`, for each `i`. */
  function Placed(t: Table, at: seq<nat>, phys: seq<nat>): Table
    requires |at| == |phys|
  {
    if at == [] then t else Placed(t, at[..|at| - 1], phys[..|phys| - 1])[at[|at| - 1] := phys[|phys| - 1]]
  }

  lemma {:induction false} PlacedConcat(t: Table, a: seq<nat>, p: seq<nat>, b: seq<nat>, q: seq<nat>)
    requires |a| == |p| && |b| == |q|
    ensures Placed(Placed(t, a, p), b, q) == Placed(t, a + b, p + q)
  {
    if b == [] {
      assert a + b == a && p + q == p;
    } else {
      var b', q' := b[..|b| - 1], q[..|q| - 1];
      PlacedConcat(t, a, p, b', q');
      assert (a + b)[..|a + b| - 1] == a + b' && (p + q)[..|p + q| - 1] == p + q';
    }
  }

  lemma {:induction false} PlacedOneMore(t: Table, at: seq<nat>, phys: seq<nat>, a: nat, p: nat)
    requires |at| == |phys|
    ensures Placed(t, at + [a], phys + [p]) == Placed(t, at, phys)[a := p]
  {
    assert (at + [a])[..|at + [a]| - 1] == at && (phys + [p])[..|phys + [p]| - 1] == phys;
  }

  /** Mapping a run is placing its pages. */
  lemma {:induction false} MappedIsPlaced(t: Table, va: nat, phys: nat, n: nat)
    ensures Mapped(t, va, Run(phys, n)) == Placed(t, Run(va, n), Run(phys, n))
  {
    if n == 0 {
      MappedNothing(t, va);
    } else {
      MappedIsPlaced(t, va, phys, n - 1);
      MappedOneMore(t, va, phys, n - 1);
    }
  }

  lemma {:induction false} MappedOneMore(t: Table, va: nat, phys: nat, n: nat)
    requires Mapped(t, va, Run(phys, n)) == Placed(t, Run(va, n), Run(phys, n))
    ensures Mapped(t, va, Run(phys, n + 1)) == Placed(t, Run(va, n + 1), Run(phys, n + 1))
  {
    hide Mapped, Placed, Run;
    RunGrows(va, n);
    RunGrows(phys, n);
    MappedConcat(t, va, Run(phys, n), [phys + n]);
    MappedOne(Mapped(t, va, Run(phys, n)), va + n, phys + n);
    PlacedOneMore(t, Run(va, n), Run(phys, n), va + n, phys + n);
  }

  lemma {:induction false} MappedOne(t: Table, va: nat, p: nat)
    ensures Mapped(t, va, [p]) == t[va := p]
  {
    assert InRange(va, va, 1);
  }

  /** What the table holds then: the placed pages where they were placed, the old ones elsewhere. */
  lemma {:induction false} PlacedAt(t: Table, at: seq<nat>, phys: seq<nat>)
    requires |at| == |phys| && NoDuplicates(at)
    ensures forall i :: 0 <= i < |at| ==> at[i] in Placed(t, at, phys) && Placed(t, at, phys)[at[i]] == phys[i]
    ensures forall p :: p in Placed(t, at, phys) <==> p in t || p in at
    ensures forall p :: p in t && p !in at ==> Placed(t, at, phys)[p] == t[p]
  {
    if at != [] {
      var at', phys' := at[..|at| - 1], phys[..|phys| - 1];
      PlacedAt(t, at', phys');
      assert at == at' + [at[|at| - 1]];
      forall i | 0 <= i < |at|
        ensures at[i] in Placed(t, at, phys) && Placed(t, at, phys)[at[i]] == phys[i]
      {
        if i < |at| - 1 {
          assert at'[i] == at[i] && phys'[i] == phys[i];
        }
      }
    }
  }

  lemma {:induction false} FreeInNoDup(v: seq<PageView>, from: nat, lo: nat, hi: nat)
    requires from <= lo && hi <= from + |v|
    ensures NoDuplicates(FreeIn(v, from, lo, hi))
    decreases hi
  {
    if lo < hi {
      FreeInNoDup(v, from, lo, hi - 1);
      InFreeIn(v, from, lo, hi - 1);
      var r := FreeIn(v, from, lo, hi - 1);
      assert forall i :: 0 <= i < |r| ==> r[i] in r;
    }
  }
}
