/** Sizes of heap blocks, smallest first: each a multiple of the one before.  Addresses and
    sizes are counted in pages. */
module BlockSizes {

  /** `MemoryBlockPageShifts` as page counts. */
  const MEMORY_BLOCK_PAGES: seq<nat> := [1, 16, 512, 1024, 8192, 131072, 262144]

  ghost predicate ValidSizes(sizes: seq<nat>) {
    && |sizes| > 0 && sizes[0] == 1
    && (forall i :: 0 <= i < |sizes| ==> sizes[i] > 0)
    && (forall i :: 0 < i < |sizes| ==> sizes[i - 1] < sizes[i] && sizes[i] % sizes[i - 1] == 0)
  }

  lemma {:induction false} MemoryBlockPagesAreValid()
    ensures ValidSizes(MEMORY_BLOCK_PAGES)
  {
  }

  lemma {:induction false} DivideUnique(p: nat, s: nat, q: nat)
    requires s > 0 && q * s <= p < (q + 1) * s
    ensures p / s == q
  {
    var r := p / s;
    assert p == r * s + p % s;
    if r < q {
      MulMonotone(r + 1, q, s);
    } else if r > q {
      MulMonotone(q + 1, r, s);
    }
  }

  lemma {:induction false} MulMonotone(a: nat, b: nat, s: nat)
    requires a <= b
    ensures a * s <= b * s
  {
    assert b * s == a * s + (b - a) * s;
  }

  lemma {:induction false} TwoDigits(g: nat, b: nat, a: nat, s: nat, d: nat)
    requires a < s && b < d
    ensures (g * d + b) * s + a == g * (s * d) + (b * s + a)
    ensures b * s + a < s * d
    ensures (g + 1) * (s * d) == g * (s * d) + s * d
  {
    assert (g * d + b) * s == (g * d) * s + b * s;
    assert (g * d) * s == g * (s * d);
    MulMonotone(b + 1, d, s);
    assert (b + 1) * s == b * s + s;
  }

  lemma {:induction false} DivMod(p: nat, s: nat)
    requires s > 0
    ensures p == p / s * s + p % s && p % s < s
  {
  }

  /** Dividing twice is dividing by the product. */
  lemma {:induction false} DivideTwice(p: nat, s: nat, d: nat)
    requires s > 0 && d > 0
    ensures s * d > 0 && (p / s) / d == p / (s * d)
  {
    var q, a := p / s, p % s;
    var g, b := q / d, q % d;
    DivMod(p, s);
    DivMod(q, d);
    MulMonotone(1, s, d);
    TwoDigits(g, b, a, s, d);
    DivideUnique(p, s * d, g);
  }

  /** Size `i` divides every larger size. */
  lemma {:induction false} SizesDivide(sizes: seq<nat>, i: nat, j: nat) returns (d: nat)
    requires ValidSizes(sizes) && i <= j < |sizes|
    ensures d > 0 && sizes[j] == sizes[i] * d
    decreases j
  {
    if i == j {
      d := 1;
    } else {
      var e := SizesDivide(sizes, i, j - 1);
      var f := sizes[j] / sizes[j - 1];
      assert sizes[j] == sizes[j - 1] * f;
      d := e * f;
      assert sizes[i] * (e * f) == (sizes[i] * e) * f;
      MulMonotone(1, e, f);
    }
  }

  /** Pages that share a block of size `j` share the block of every larger size. */
  lemma {:induction false} SameLargerBlock(sizes: seq<nat>, j: nat, k: nat, p: nat, q: nat)
    requires ValidSizes(sizes) && j <= k < |sizes|
    requires p / sizes[j] == q / sizes[j]
    ensures p / sizes[k] == q / sizes[k]
  {
    var d := SizesDivide(sizes, j, k);
    DivideTwice(p, sizes[j], d);
    DivideTwice(q, sizes[j], d);
  }

  /** A block starts at a page of its own. */
  lemma {:induction false} BlockStart(n: nat, s: nat, k: nat)
    requires s > 0 && k < s
    ensures (n * s + k) / s == n
  {
    assert (n + 1) * s == n * s + s;
    DivideUnique(n * s + k, s, n);
  }

  function AlignDown(x: nat, s: nat): (r: nat)
    requires s > 0
    ensures r <= x < r + s && r == x / s * s
  {
    assert x == x / s * s + x % s;
    x / s * s
  }

  function AlignUp(x: nat, s: nat): (r: nat)
    requires s > 0
    ensures x <= r < x + s && r == (x + s - 1) / s * s
  {
    AlignDown(x + s - 1, s)
  }

  /** The pages of an aligned block. */
  lemma {:induction false} BlockRange(a: nat, s: nat, p: nat)
    requires s > 0 && a % s == 0
    ensures p / s == a / s <==> a <= p < a + s
  {
    var n := a / s;
    assert a == n * s;
    assert (n + 1) * s == n * s + s;
    if a <= p < a + s {
      DivideUnique(p, s, n);
    }
    if p / s == n {
      assert p == n * s + p % s;
    }
  }

  lemma {:induction false} AlignedStep(a: nat, s: nat)
    requires s > 0 && a % s == 0
    ensures (a + s) % s == 0
    ensures a >= s ==> (a - s) % s == 0
  {
    var n := a / s;
    assert a == n * s;
    assert (n + 1) * s == a + s;
    MultipleIsAligned(n + 1, s);
    if a >= s {
      assert (n - 1) * s == a - s;
      MultipleIsAligned(n - 1, s);
    }
  }

  lemma {:induction false} MultipleIsAligned(n: nat, s: nat)
    requires s > 0
    ensures (n * s) % s == 0
  {
    BlockStart(n, s, 0);
    assert n * s == (n * s) / s * s + (n * s) % s;
  }

  lemma {:induction false} AlignIsAligned(x: nat, s: nat)
    requires s > 0
    ensures AlignDown(x, s) % s == 0 && AlignUp(x, s) % s == 0
  {
    MultipleIsAligned(x / s, s);
    MultipleIsAligned((x + s - 1) / s, s);
  }

  /** What is aligned to a size is aligned to the one below. */
  lemma {:induction false} AlignedBelow(sizes: seq<nat>, i: nat, a: nat)
    requires ValidSizes(sizes) && 0 < i < |sizes| && a % sizes[i] == 0
    ensures a % sizes[i - 1] == 0
  {
    var d := SizesDivide(sizes, i - 1, i);
    var n := a / sizes[i];
    assert a == n * sizes[i];
    assert n * (sizes[i - 1] * d) == (n * d) * sizes[i - 1];
    MultipleIsAligned(n * d, sizes[i - 1]);
  }

  /** Two aligned addresses are at least a block apart. */
  lemma {:induction false} AlignedGap(a: nat, b: nat, s: nat)
    requires s > 0 && a % s == 0 && b % s == 0 && a < b
    ensures a + s <= b
  {
    var m, n := a / s, b / s;
    assert a == m * s && b == n * s;
    if n <= m {
      MulMonotone(n, m, s);
    } else {
      MulMonotone(m + 1, n, s);
      assert (m + 1) * s == a + s;
    }
  }
}
