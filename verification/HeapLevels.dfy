/** The free blocks of a page heap, level by level.  Bit `n` of level `i` stands for the free
    block of `sizes[i]` pages that starts at page `n * sizes[i]`. */
module HeapLevels {
  import opened BlockSizes

  type Bits = seq<set<nat>>

  /** Page `p` lies in a free block of level `i`. */
  predicate FreeAt(bits: Bits, sizes: seq<nat>, i: nat, p: nat)
    requires |bits| == |sizes| && i < |sizes| && sizes[i] > 0
  {
    p / sizes[i] in bits[i]
  }

  ghost predicate Shaped(bits: Bits, sizes: seq<nat>) {
    ValidSizes(sizes) && |bits| == |sizes|
  }

  ghost predicate FreePage(bits: Bits, sizes: seq<nat>, p: nat)
    requires Shaped(bits, sizes)
  {
    exists i :: 0 <= i < |sizes| && FreeAt(bits, sizes, i, p)
  }

  /** No page is free at two levels. */
  ghost predicate Exclusive(bits: Bits, sizes: seq<nat>)
    requires Shaped(bits, sizes)
  {
    forall p: nat, i, j :: 0 <= i < j < |sizes| && FreeAt(bits, sizes, i, p) ==> !FreeAt(bits, sizes, j, p)
  }

  /** The number of blocks of level `i` in one block of level `i + 1`. */
  function Fanout(sizes: seq<nat>, i: nat): nat
    requires i + 1 < |sizes| && sizes[i] > 0
  {
    sizes[i + 1] / sizes[i]
  }

  /** All `d` siblings of group `g` are free. */
  ghost predicate Full(b: set<nat>, g: nat, d: nat) {
    forall n: nat :: g * d <= n < (g + 1) * d ==> n in b
  }

  /** Sibling groups that are all free have been merged. */
  ghost predicate Merged(bits: Bits, sizes: seq<nat>)
    requires Shaped(bits, sizes)
  {
    forall i, g: nat :: 0 <= i < |sizes| - 1 ==> !Full(bits[i], g, Fanout(sizes, i))
  }

  ghost predicate Inv(bits: Bits, sizes: seq<nat>) {
    Shaped(bits, sizes) && Exclusive(bits, sizes) && Merged(bits, sizes)
  }

  /** Block `n` of `s` pages consists of free pages only. */
  ghost predicate FreeRun(bits: Bits, sizes: seq<nat>, s: nat, n: nat)
    requires Shaped(bits, sizes) && s > 0
  {
    forall p: nat :: p / s == n ==> FreePage(bits, sizes, p)
  }

  lemma {:induction false} FanoutFacts(sizes: seq<nat>, i: nat)
    requires ValidSizes(sizes) && i + 1 < |sizes|
    ensures var d := Fanout(sizes, i); d > 0 && sizes[i + 1] == sizes[i] * d
  {
    assert sizes[i + 1] % sizes[i] == 0;
    var d := Fanout(sizes, i);
    assert sizes[i + 1] == sizes[i] * d;
  }

  /** The group of a block is the block of the next level that contains it. */
  lemma {:induction false} GroupOf(sizes: seq<nat>, i: nat, p: nat)
    requires ValidSizes(sizes) && i + 1 < |sizes|
    ensures Fanout(sizes, i) > 0
    ensures p / sizes[i + 1] == (p / sizes[i]) / Fanout(sizes, i)
  {
    FanoutFacts(sizes, i);
    DivideTwice(p, sizes[i], Fanout(sizes, i));
  }

  lemma {:induction false} InGroup(n: nat, g: nat, d: nat)
    requires d > 0
    ensures g * d <= n < (g + 1) * d <==> n / d == g
  {
    if n / d == g {
      assert n == g * d + n % d;
      assert (g + 1) * d == g * d + d;
    }
    if g * d <= n < (g + 1) * d {
      DivideUnique(n, d, g);
    }
  }

  // ---- The failure of an allocation is exact ----------------------------------------

  /** A wholly free aligned run lies inside one free block at its own level or above: if all its
      parts were free at the level below only, they would have been merged. */
  lemma {:induction false} FreeRunIsCovered(bits: Bits, sizes: seq<nat>, j: nat, b: nat) returns (k: nat)
    requires Inv(bits, sizes) && j < |sizes| && FreeRun(bits, sizes, sizes[j], b)
    ensures j <= k < |sizes| && FreeAt(bits, sizes, k, b * sizes[j])
    decreases j
  {
    var start := b * sizes[j];
    BlockStart(b, sizes[j], 0);
    assert FreePage(bits, sizes, start);
    if !exists k :: j <= k < |sizes| && FreeAt(bits, sizes, k, start) {
      if j > 0 {
        assert !Full(bits[j - 1], b, Fanout(sizes, j - 1));
        var n: nat :| b * Fanout(sizes, j - 1) <= n < (b + 1) * Fanout(sizes, j - 1) && n !in bits[j - 1];
        PartOfRun(bits, sizes, j, b, n);
      }
      assert false;
    }
    k :| j <= k < |sizes| && FreeAt(bits, sizes, k, start);
  }

  lemma {:induction false} PartOfRun(bits: Bits, sizes: seq<nat>, j: nat, b: nat, n: nat)
    requires Inv(bits, sizes) && 0 < j < |sizes| && FreeRun(bits, sizes, sizes[j], b)
    requires b * Fanout(sizes, j - 1) <= n < (b + 1) * Fanout(sizes, j - 1)
    requires !exists k :: j <= k < |sizes| && FreeAt(bits, sizes, k, b * sizes[j])
    ensures n in bits[j - 1]
    decreases j, 0
  {
    var s, d := sizes[j - 1], Fanout(sizes, j - 1);
    FanoutFacts(sizes, j - 1);
    InGroup(n, b, d);
    forall p: nat | p / s == n
      ensures FreePage(bits, sizes, p)
    {
      GroupOf(sizes, j - 1, p);
    }
    var k := FreeRunIsCovered(bits, sizes, j - 1, n);
    BlockStart(n, s, 0);
    BlockStart(b, sizes[j], 0);
    GroupOf(sizes, j - 1, n * s);
    if k >= j {
      SameLargerBlock(sizes, j, k, n * s, b * sizes[j]);
      assert FreeAt(bits, sizes, k, b * sizes[j]);
    }
  }

  // ---- Putting one block in, taking one block out --------------------------------------

  function SetBit(bits: Bits, i: nat, n: nat): Bits
    requires i < |bits|
  {
    bits[i := bits[i] + {n}]
  }

  /** The free siblings of group `g`. */
  function Group(b: set<nat>, g: nat, d: nat): set<nat>
    requires d > 0
  {
    set n | n in b && n / d == g
  }

  /** Setting a bit frees the pages of its block. */
  lemma {:induction false} SetBitFrees(bits: Bits, sizes: seq<nat>, i: nat, n: nat, p: nat)
    requires Shaped(bits, sizes) && i < |sizes|
    ensures FreePage(SetBit(bits, i, n), sizes, p) <==> FreePage(bits, sizes, p) || p / sizes[i] == n
  {
    var nb := SetBit(bits, i, n);
    forall k | 0 <= k < |sizes|
      ensures FreeAt(nb, sizes, k, p) <==> FreeAt(bits, sizes, k, p) || (k == i && p / sizes[i] == n)
    {
    }
    assert p / sizes[i] == n ==> FreeAt(nb, sizes, i, p);
  }

  lemma {:induction false} SetBitExclusive(bits: Bits, sizes: seq<nat>, i: nat, n: nat)
    requires Shaped(bits, sizes) && Exclusive(bits, sizes) && i < |sizes|
    requires forall p: nat :: p / sizes[i] == n ==> !FreePage(bits, sizes, p)
    ensures Exclusive(SetBit(bits, i, n), sizes)
  {
    var nb := SetBit(bits, i, n);
    forall p: nat, a, b | 0 <= a < b < |sizes| && FreeAt(nb, sizes, a, p)
      ensures !FreeAt(nb, sizes, b, p)
    {
      if a == i && p / sizes[i] == n {
        assert !FreePage(bits, sizes, p);
        assert !FreeAt(bits, sizes, b, p);
      } else if b == i && p / sizes[i] == n {
        assert !FreePage(bits, sizes, p);
        assert FreeAt(bits, sizes, a, p);
      } else {
        assert FreeAt(bits, sizes, a, p);
        assert !FreeAt(bits, sizes, b, p);
      }
    }
  }

  /** Clearing bits of one level takes exactly their pages out, and cannot fill a group. */
  lemma {:induction false} ClearKeepsInv(bits: Bits, sizes: seq<nat>, i: nat, gone: set<nat>)
    requires Shaped(bits, sizes) && Exclusive(bits, sizes) && i < |sizes| && gone <= bits[i]
    ensures var nb := bits[i := bits[i] - gone];
            && Exclusive(nb, sizes)
            && forall p: nat :: FreePage(nb, sizes, p) <==> FreePage(bits, sizes, p) && p / sizes[i] !in gone
  {
    var nb := bits[i := bits[i] - gone];
    forall p: nat, k | 0 <= k < |sizes|
      ensures FreeAt(nb, sizes, k, p) <==> FreeAt(bits, sizes, k, p) && !(k == i && p / sizes[i] in gone)
    {
    }
    forall p: nat
      ensures FreePage(nb, sizes, p) <==> FreePage(bits, sizes, p) && p / sizes[i] !in gone
    {
      if FreePage(nb, sizes, p) {
        var k :| 0 <= k < |sizes| && FreeAt(nb, sizes, k, p);
        assert FreeAt(bits, sizes, k, p);
        if p / sizes[i] in gone {
          assert FreeAt(bits, sizes, i, p);
        }
      }
      if FreePage(bits, sizes, p) && p / sizes[i] !in gone {
        var k :| 0 <= k < |sizes| && FreeAt(bits, sizes, k, p);
        assert FreeAt(nb, sizes, k, p);
      }
    }
  }

  /** Only the group of a new bit can have become full. */
  lemma {:induction false} OnlyOwnGroupFills(b: set<nat>, n: nat, g: nat, d: nat)
    requires d > 0 && !Full(b, g, d) && g != n / d
    ensures !Full(b + {n}, g, d)
  {
    InGroup(n, g, d);
    var m: nat :| g * d <= m < (g + 1) * d && m !in b;
    assert m !in b + {n};
  }

  lemma {:induction false} ClearNeverFills(b: set<nat>, gone: set<nat>, g: nat, d: nat)
    requires !Full(b, g, d)
    ensures !Full(b - gone, g, d)
  {
    var m: nat :| g * d <= m < (g + 1) * d && m !in b;
    assert m !in b - gone;
  }

  lemma {:induction false} ClearKeepsMerged(bits: Bits, sizes: seq<nat>, i: nat, gone: set<nat>)
    requires Shaped(bits, sizes) && Merged(bits, sizes) && i < |sizes|
    ensures Merged(bits[i := bits[i] - gone], sizes)
  {
    var nb := bits[i := bits[i] - gone];
    forall k, g: nat | 0 <= k < |sizes| - 1
      ensures !Full(nb[k], g, Fanout(sizes, k))
    {
      assert !Full(bits[k], g, Fanout(sizes, k));
      ClearNeverFills(bits[k], gone, g, Fanout(sizes, k));
    }
  }

  lemma {:induction false} EmptyIsValid(bits: Bits, sizes: seq<nat>)
    requires Shaped(bits, sizes) && forall i :: 0 <= i < |bits| ==> bits[i] == {}
    ensures Inv(bits, sizes) && forall p: nat :: !FreePage(bits, sizes, p)
  {
    forall i, g: nat | 0 <= i < |sizes| - 1
      ensures !Full(bits[i], g, Fanout(sizes, i))
    {
      FanoutFacts(sizes, i);
      var n := g * Fanout(sizes, i);
      assert n < (g + 1) * Fanout(sizes, i);
      assert n !in bits[i];
    }
  }

  /** The outcome of pushing block `n` at level `i` when its group does not fill. */
  lemma {:induction false} PushWithoutMerge(bits: Bits, sizes: seq<nat>, i: nat, n: nat)
    requires Inv(bits, sizes) && i < |sizes|
    requires forall p: nat :: p / sizes[i] == n ==> !FreePage(bits, sizes, p)
    requires i + 1 < |sizes| ==> Fanout(sizes, i) > 0 && !Full(SetBit(bits, i, n)[i], n / Fanout(sizes, i), Fanout(sizes, i))
    ensures Inv(SetBit(bits, i, n), sizes)
    ensures forall p: nat :: FreePage(SetBit(bits, i, n), sizes, p) <==> FreePage(bits, sizes, p) || p / sizes[i] == n
  {
    var nb := SetBit(bits, i, n);
    SetBitExclusive(bits, sizes, i, n);
    forall k, g: nat | 0 <= k < |sizes| - 1
      ensures !Full(nb[k], g, Fanout(sizes, k))
    {
      assert !Full(bits[k], g, Fanout(sizes, k));
      FanoutFacts(sizes, k);
      if k == i && g != n / Fanout(sizes, i) {
        OnlyOwnGroupFills(bits[i], n, g, Fanout(sizes, i));
      }
    }
    forall p: nat
      ensures FreePage(nb, sizes, p) <==> FreePage(bits, sizes, p) || p / sizes[i] == n
    {
      SetBitFrees(bits, sizes, i, n, p);
    }
  }

  /** The outcome when it does: the group is gone from level `i`, and its pages are those of one
      block of the next level. */
  lemma {:induction false} PushWithMerge(bits: Bits, sizes: seq<nat>, i: nat, n: nat)
    requires Inv(bits, sizes) && i + 1 < |sizes| && Fanout(sizes, i) > 0
    requires forall p: nat :: p / sizes[i] == n ==> !FreePage(bits, sizes, p)
    requires Full(SetBit(bits, i, n)[i], n / Fanout(sizes, i), Fanout(sizes, i))
    ensures var nb, g := SetBit(bits, i, n), n / Fanout(sizes, i);
            var cb := nb[i := nb[i] - Group(nb[i], g, Fanout(sizes, i))];
            && Inv(cb, sizes)
            && forall p: nat :: FreePage(cb, sizes, p) <==>
                                (FreePage(bits, sizes, p) || p / sizes[i] == n) && p / sizes[i + 1] != g
    ensures forall p: nat :: p / sizes[i + 1] == n / Fanout(sizes, i) ==> FreePage(bits, sizes, p) || p / sizes[i] == n
  {
    hide Full, Exclusive, Merged, FreePage, Fanout;
    var nb, d := SetBit(bits, i, n), Fanout(sizes, i);
    var g := n / d;
    var gone := Group(nb[i], g, d);
    var cb := nb[i := nb[i] - gone];
    SetBitExclusive(bits, sizes, i, n);
    ClearKeepsInv(nb, sizes, i, gone);
    forall p: nat
      ensures p / sizes[i] in gone <==> p / sizes[i + 1] == g
      ensures FreePage(nb, sizes, p) <==> FreePage(bits, sizes, p) || p / sizes[i] == n
      ensures p / sizes[i + 1] == g ==> FreePage(nb, sizes, p)
    {
      MergedGroupPages(bits, sizes, i, n, p);
    }
    MergeLeavesNoFull(bits, sizes, i, n);
  }

  /** The pages of a full group are the pages of one block of the next level. */
  lemma {:induction false} MergedGroupPages(bits: Bits, sizes: seq<nat>, i: nat, n: nat, p: nat)
    requires Shaped(bits, sizes) && i + 1 < |sizes| && Fanout(sizes, i) > 0
    requires Full(SetBit(bits, i, n)[i], n / Fanout(sizes, i), Fanout(sizes, i))
    ensures var nb, g := SetBit(bits, i, n), n / Fanout(sizes, i);
            && (p / sizes[i] in Group(nb[i], g, Fanout(sizes, i)) <==> p / sizes[i + 1] == g)
            && (FreePage(nb, sizes, p) <==> FreePage(bits, sizes, p) || p / sizes[i] == n)
            && (p / sizes[i + 1] == g ==> FreePage(nb, sizes, p))
  {
    hide Fanout;
    var nb, d := SetBit(bits, i, n), Fanout(sizes, i);
    var g := n / d;
    GroupOf(sizes, i, p);
    InGroup(p / sizes[i], g, d);
    SetBitFrees(bits, sizes, i, n, p);
    if p / sizes[i + 1] == g {
      assert FreeAt(nb, sizes, i, p);
    }
  }

  lemma {:induction false} MergeLeavesNoFull(bits: Bits, sizes: seq<nat>, i: nat, n: nat)
    requires Shaped(bits, sizes) && Merged(bits, sizes) && i + 1 < |sizes| && Fanout(sizes, i) > 0
    ensures var nb := SetBit(bits, i, n);
            Merged(nb[i := nb[i] - Group(nb[i], n / Fanout(sizes, i), Fanout(sizes, i))], sizes)
  {
    var nb, d := SetBit(bits, i, n), Fanout(sizes, i);
    var g := n / d;
    var gone := Group(nb[i], g, d);
    var cb := nb[i := nb[i] - gone];
    forall k, h: nat | 0 <= k < |sizes| - 1
      ensures !Full(cb[k], h, Fanout(sizes, k))
    {
      FanoutFacts(sizes, k);
      assert !Full(bits[k], h, Fanout(sizes, k));
      if k == i {
        if h == g {
          InGroup(n, g, d);
          assert n !in cb[i];
        } else {
          OnlyOwnGroupFills(bits[i], n, h, d);
          ClearNeverFills(nb[i], gone, h, d);
        }
      }
    }
  }

  // ---- Counting free pages ---------------------------------------------------------------

  /** `m` pages from `lo` on. */
  function BlockSet(lo: nat, m: nat): (r: set<nat>)
    ensures forall p: nat :: p in r <==> lo <= p < lo + m
    ensures |r| == m
  {
    if m == 0 then {} else BlockSet(lo, m - 1) + {lo + m - 1}
  }

  /** The pages of the blocks `b` of `s` pages each. */
  ghost function LevelPages(b: set<nat>, s: nat): set<nat>
    decreases |b|
  {
    if b == {} then {}
    else
      var n :| n in b;
      LevelPages(b - {n}, s) + BlockSet(n * s, s)
  }

  lemma {:induction false} InLevelPages(b: set<nat>, s: nat, p: nat)
    requires s > 0
    ensures p in LevelPages(b, s) <==> p / s in b
    decreases |b|
  {
    if b != {} {
      var n :| n in b && LevelPages(b, s) == LevelPages(b - {n}, s) + BlockSet(n * s, s);
      InLevelPages(b - {n}, s, p);
      InBlockSet(n, s, p);
    }
  }

  lemma {:induction false} InBlockSet(n: nat, s: nat, p: nat)
    requires s > 0
    ensures p in BlockSet(n * s, s) <==> p / s == n
  {
    MultipleIsAligned(n, s);
    BlockStart(n, s, 0);
    BlockRange(n * s, s, p);
  }

  lemma {:induction false} CountLevelPages(b: set<nat>, s: nat)
    requires s > 0
    ensures |LevelPages(b, s)| == |b| * s
    decreases |b|
  {
    if b != {} {
      var n :| n in b && LevelPages(b, s) == LevelPages(b - {n}, s) + BlockSet(n * s, s);
      CountLevelPages(b - {n}, s);
      CountOneMore(b, s, n);
    }
  }

  lemma {:induction false} CountOneMore(b: set<nat>, s: nat, n: nat)
    requires s > 0 && n in b && LevelPages(b, s) == LevelPages(b - {n}, s) + BlockSet(n * s, s)
    requires |LevelPages(b - {n}, s)| == |b - {n}| * s
    ensures |LevelPages(b, s)| == |b| * s
  {
    hide BlockSet, LevelPages;
    var rest := b - {n};
    OtherBlocks(rest, s, n);
    OneMoreTimes(|rest|, s);
    assert |b| == |rest| + 1;
  }

  lemma {:induction false} OtherBlocks(b: set<nat>, s: nat, n: nat)
    requires s > 0 && n !in b
    ensures LevelPages(b, s) !! BlockSet(n * s, s)
  {
    hide BlockSet, LevelPages;
    forall p | p in LevelPages(b, s)
      ensures p !in BlockSet(n * s, s)
    {
      InLevelPages(b, s, p);
      InBlockSet(n, s, p);
    }
  }

  lemma {:induction false} OneMoreTimes(a: nat, s: nat)
    ensures (a + 1) * s == a * s + s
  {
  }

  /** The free pages of levels `0..i`. */
  ghost function FreePagesBelow(bits: Bits, sizes: seq<nat>, i: nat): set<nat>
    requires Shaped(bits, sizes) && i <= |sizes|
  {
    if i == 0 then {} else FreePagesBelow(bits, sizes, i - 1) + LevelPages(bits[i - 1], sizes[i - 1])
  }

  ghost function FreePages(bits: Bits, sizes: seq<nat>): set<nat>
    requires Shaped(bits, sizes)
  {
    FreePagesBelow(bits, sizes, |sizes|)
  }

  lemma {:induction false} InFreePagesBelow(bits: Bits, sizes: seq<nat>, i: nat, p: nat)
    requires Shaped(bits, sizes) && i <= |sizes|
    ensures p in FreePagesBelow(bits, sizes, i) <==> exists k :: 0 <= k < i && FreeAt(bits, sizes, k, p)
  {
    if i > 0 {
      InFreePagesBelow(bits, sizes, i - 1, p);
      InLevelPages(bits[i - 1], sizes[i - 1], p);
      assert FreeAt(bits, sizes, i - 1, p) <==> p / sizes[i - 1] in bits[i - 1];
    }
  }

  lemma {:induction false} InFreePages(bits: Bits, sizes: seq<nat>, p: nat)
    requires Shaped(bits, sizes)
    ensures p in FreePages(bits, sizes) <==> FreePage(bits, sizes, p)
  {
    InFreePagesBelow(bits, sizes, |sizes|, p);
  }

  /** One more level adds its own pages and none that were counted before. */
  lemma {:induction false} CountOneLevel(bits: Bits, sizes: seq<nat>, i: nat)
    requires Shaped(bits, sizes) && Exclusive(bits, sizes) && i < |sizes|
    ensures |FreePagesBelow(bits, sizes, i + 1)| == |FreePagesBelow(bits, sizes, i)| + |bits[i]| * sizes[i]
  {
    CountLevelPages(bits[i], sizes[i]);
    forall p: nat
      ensures !(p in FreePagesBelow(bits, sizes, i) && p in LevelPages(bits[i], sizes[i]))
    {
      InFreePagesBelow(bits, sizes, i, p);
      InLevelPages(bits[i], sizes[i], p);
      assert FreeAt(bits, sizes, i, p) <==> p / sizes[i] in bits[i];
    }
    assert FreePagesBelow(bits, sizes, i) !! LevelPages(bits[i], sizes[i]);
  }
}
