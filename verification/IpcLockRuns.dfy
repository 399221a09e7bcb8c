/** IPC locks over whole runs: `SetupForIpc` locks a range of the client's pages, any other
    update may follow, and `CleanupForIpcClient` unlocks the range with an allocator that
    holds no block at all. */
module IpcLockRuns {
  import opened MemoryBlocks
  import opened BlockUpdates
  import opened BlockWalks
  import opened CanonicalBlocks
  import opened BlockManagers

  /** The pages `[lo, hi)` of one outstanding lock. */
  datatype Range = Range(lo: nat, hi: nat) {
    predicate Covers(p: nat) {
      lo <= p < hi
    }
  }

  function Covering(rs: seq<Range>, p: nat): nat {
    if rs == [] then 0 else (if rs[0].Covers(p) then 1 else 0) + Covering(rs[1..], p)
  }

  function Starting(rs: seq<Range>, p: nat): nat {
    if rs == [] then 0 else (if rs[0].lo == p then 1 else 0) + Starting(rs[1..], p)
  }

  function Ending(rs: seq<Range>, p: nat): nat {
    if rs == [] then 0 else (if rs[0].hi == p then 1 else 0) + Ending(rs[1..], p)
  }

  predicate AllWithin(rs: seq<Range>, from: nat, to: nat) {
    forall r :: r in rs ==> from <= r.lo < r.hi <= to
  }

  /** The counters of page `p` tell the outstanding locks: how many cover it and how many start at it.
      The start counter of the first page of the space may have begun with any value. */
  ghost predicate PageTracks(v: PageView, p: nat, from: nat, rs: seq<Range>) {
    && v.info.ipcLocks == Covering(rs, p)
    && v.left.ipcStarts >= Starting(rs, p)
    && (p != from ==> v.left.ipcStarts == Starting(rs, p))
  }

  ghost predicate Tracks(v: seq<PageView>, from: nat, rs: seq<Range>) {
    forall k :: 0 <= k < |v| ==> PageTracks(v[k], from + k, from, rs)
  }

  // ---- Counting -------------------------------------------------------------------

  lemma {:induction false} CountConcat(a: seq<Range>, b: seq<Range>, p: nat)
    ensures Covering(a + b, p) == Covering(a, p) + Covering(b, p)
    ensures Starting(a + b, p) == Starting(a, p) + Starting(b, p)
    ensures Ending(a + b, p) == Ending(a, p) + Ending(b, p)
  {
    if a == [] {
      assert a + b == b;
    } else {
      CountConcat(a[1..], b, p);
      assert (a + b)[1..] == a[1..] + b;
    }
  }

  function Without(rs: seq<Range>, i: nat): seq<Range>
    requires i < |rs|
  {
    rs[..i] + rs[i + 1..]
  }

  lemma {:induction false} CountWithout(rs: seq<Range>, i: nat, p: nat)
    requires i < |rs|
    ensures Covering(rs, p) == Covering(Without(rs, i), p) + (if rs[i].Covers(p) then 1 else 0)
    ensures Starting(rs, p) == Starting(Without(rs, i), p) + (if rs[i].lo == p then 1 else 0)
    ensures Ending(rs, p) == Ending(Without(rs, i), p) + (if rs[i].hi == p then 1 else 0)
  {
    CountConcat(rs[..i], rs[i + 1..], p);
    CountConcat([rs[i]], rs[i + 1..], p);
    CountConcat(rs[..i], [rs[i]] + rs[i + 1..], p);
    assert rs == rs[..i] + ([rs[i]] + rs[i + 1..]);
  }

  /** From one page to the next, locks that end leave and locks that start join. */
  lemma {:induction false} CoveringStep(rs: seq<Range>, from: nat, to: nat, p: nat)
    requires AllWithin(rs, from, to) && p > 0
    ensures Covering(rs, p) + Ending(rs, p) == Covering(rs, p - 1) + Starting(rs, p)
  {
    if rs != [] {
      assert rs[0] in rs;
      CoveringStep(rs[1..], from, to, p);
    }
  }

  // ---- Boundaries -------------------------------------------------------------------

  /** A page with a lock start recorded is the first page of its block. */
  lemma {:induction false} StartIsBoundary(bs: seq<Block>, from: nat, to: nat, p: nat)
    requires Tiles(bs, from, to) && from <= p < to && |View(bs)| == to - from
    requires View(bs)[p - from].left.ipcStarts > 0
    ensures IsBoundary(bs, to, p)
  {
    var i := BlockHolding(bs, from, to, p);
    ViewAt(bs, from, to, i, p - bs[i].addr);
    BoundaryIsStart(bs, from, to, i, p);
  }

  lemma {:induction false} DifferentIsBoundary(bs: seq<Block>, from: nat, to: nat, p: nat)
    requires Tiles(bs, from, to) && from < p < to && |View(bs)| == to - from
    requires View(bs)[p - 1 - from].info != View(bs)[p - from].info
    ensures IsBoundary(bs, to, p)
  {
    var i := BlockHolding(bs, from, to, p);
    ViewAt(bs, from, to, i, p - bs[i].addr);
    BoundaryIsStart(bs, from, to, i, p);
    if bs[i].addr < p {
      ViewAt(bs, from, to, i, p - 1 - bs[i].addr);
    }
  }

  /** Both ends of every outstanding lock are block boundaries. */
  lemma {:induction false} LockEndsAreBoundaries(bs: seq<Block>, from: nat, to: nat, rs: seq<Range>, i: nat)
    requires Tiles(bs, from, to) && from < to && |View(bs)| == to - from
    requires AllWithin(rs, from, to) && Tracks(View(bs), from, rs) && i < |rs|
    ensures IsBoundary(bs, to, rs[i].lo) && IsBoundary(bs, to, rs[i].hi)
  {
    var r := rs[i];
    assert r in rs;
    CountWithout(rs, i, r.lo);
    CountWithout(rs, i, r.hi);
    assert PageTracks(View(bs)[r.lo - from], from + (r.lo - from), from, rs);
    StartIsBoundary(bs, from, to, r.lo);
    if r.hi < to {
      var k := r.hi - from;
      assert PageTracks(View(bs)[k], from + k, from, rs);
      assert PageTracks(View(bs)[k - 1], from + (k - 1), from, rs);
      CoveringStep(rs, from, to, r.hi);
      if Starting(rs, r.hi) > 0 {
        StartIsBoundary(bs, from, to, r.hi);
      } else {
        DifferentIsBoundary(bs, from, to, r.hi);
      }
    }
  }

  /** So the unlock needs no new block, and none of its counters runs out. */
  lemma {:induction false} UnlockNeedsNoBlock(bs: seq<Block>, from: nat, to: nat, rs: seq<Range>, i: nat)
    requires Tiles(bs, from, to) && from < to && |View(bs)| == to - from
    requires AllWithin(rs, from, to) && Tracks(View(bs), from, rs) && i < |rs|
    ensures var op := UpdateLock(UnlockForIpc, PERM_NONE);
            && from <= rs[i].lo < rs[i].hi <= to
            && RangeFits(op, View(bs), rs[i].lo - from, rs[i].hi - from)
            && BlocksNeeded(bs, from, to, op, rs[i].lo, rs[i].hi - rs[i].lo) == 0
  {
    var r := rs[i];
    assert r in rs;
    LockEndsAreBoundaries(bs, from, to, rs, i);
    forall k | r.lo - from <= k < r.hi - from
      ensures View(bs)[k].info.ipcLocks > 0
      ensures k == r.lo - from ==> View(bs)[k].left.ipcStarts > 0
    {
      assert PageTracks(View(bs)[k], from + k, from, rs);
      CountWithout(rs, i, from + k);
    }
  }

  // ---- What each kind of update does to the counters -------------------------------------

  lemma {:induction false} LockTracks(v: seq<PageView>, from: nat, rs: seq<Range>, r: Range, perm: Perm)
    requires Tracks(v, from, rs) && from <= r.lo < r.hi <= from + |v|
    requires RangeFits(UpdateLock(LockForIpc, perm), v, r.lo - from, r.hi - from)
    ensures Tracks(ApplyRange(UpdateLock(LockForIpc, perm), v, r.lo - from, r.hi - from), from, rs + [r])
  {
    var w := ApplyRange(UpdateLock(LockForIpc, perm), v, r.lo - from, r.hi - from);
    forall k | 0 <= k < |w|
      ensures PageTracks(w[k], from + k, from, rs + [r])
    {
      assert PageTracks(v[k], from + k, from, rs);
      CountConcat(rs, [r], from + k);
    }
  }

  lemma {:induction false} UnlockTracks(v: seq<PageView>, from: nat, rs: seq<Range>, i: nat, perm: Perm)
    requires Tracks(v, from, rs) && i < |rs| && from <= rs[i].lo < rs[i].hi <= from + |v|
    requires RangeFits(UpdateLock(UnlockForIpc, perm), v, rs[i].lo - from, rs[i].hi - from)
    ensures Tracks(ApplyRange(UpdateLock(UnlockForIpc, perm), v, rs[i].lo - from, rs[i].hi - from), from, Without(rs, i))
  {
    var w := ApplyRange(UpdateLock(UnlockForIpc, perm), v, rs[i].lo - from, rs[i].hi - from);
    forall k | 0 <= k < |w|
      ensures PageTracks(w[k], from + k, from, Without(rs, i))
    {
      assert PageTracks(v[k], from + k, from, rs);
      CountWithout(rs, i, from + k);
    }
  }

  /** Every other update leaves the locks alone. */
  lemma {:induction false} OtherTracks(v: seq<PageView>, from: nat, rs: seq<Range>, op: Op, lo: nat, hi: nat)
    requires Tracks(v, from, rs) && lo <= hi <= |v| && RangeFits(op, v, lo, hi)
    requires !(op.UpdateLock? && (op.f.LockForIpc? || op.f.UnlockForIpc?))
    ensures Tracks(ApplyRange(op, v, lo, hi), from, rs)
  {
    var w := ApplyRange(op, v, lo, hi);
    forall k | 0 <= k < |w|
      ensures PageTracks(w[k], from + k, from, rs)
    {
      assert PageTracks(v[k], from + k, from, rs);
    }
  }

  // ---- Runs -------------------------------------------------------------------------

  datatype State = State(blocks: seq<Block>, locks: seq<Range>)

  datatype Action =
    | Lock(r: Range, perm: Perm)         // SetupForIpc
    | Unlock(i: nat, perm: Perm)         // CleanupForIpcClient
    | Other(op: Op, lo: nat, hi: nat)    // any other update of the block manager

  ghost predicate Good(s: State, from: nat, to: nat) {
    && WellFormed(s.blocks, from, to) && Coalesced(s.blocks)
    && |View(s.blocks)| == to - from && AllWithin(s.locks, from, to)
  }

  ghost predicate Init(s: State, from: nat, to: nat) {
    Good(s, from, to) && s.locks == [] && Tracks(View(s.blocks), from, [])
  }

  /** The step `op` on `[lo, hi)` between two states, as the block manager's methods promise it. */
  ghost predicate Updated(s: State, t: State, from: nat, op: Op, lo: nat, hi: nat) {
    && from <= lo < hi <= from + |View(s.blocks)|
    && RangeFits(op, View(s.blocks), lo - from, hi - from)
    && View(t.blocks) == ApplyRange(op, View(s.blocks), lo - from, hi - from)
  }

  ghost predicate Next(s: State, a: Action, t: State, from: nat, to: nat) {
    && Good(t, from, to)
    && match a
       case Lock(r, perm) => Updated(s, t, from, UpdateLock(LockForIpc, perm), r.lo, r.hi) && t.locks == s.locks + [r]
       case Unlock(i, perm) =>
         && i < |s.locks| && t.locks == Without(s.locks, i)
         && Updated(s, t, from, UpdateLock(UnlockForIpc, perm), s.locks[i].lo, s.locks[i].hi)
       case Other(op, lo, hi) =>
         && !(op.UpdateLock? && (op.f.LockForIpc? || op.f.UnlockForIpc?))
         && t.locks == s.locks && Updated(s, t, from, op, lo, hi)
  }

  ghost predicate IsRun(ss: seq<State>, acts: seq<Action>, from: nat, to: nat) {
    && |ss| == |acts| + 1 && Init(ss[0], from, to)
    && forall j :: 0 <= j < |acts| ==> Next(ss[j], acts[j], ss[j + 1], from, to)
  }

  /** At every point of every run the page counters tell the outstanding locks. */
  lemma {:induction false} RunTracks(ss: seq<State>, acts: seq<Action>, from: nat, to: nat, j: nat)
    requires IsRun(ss, acts, from, to) && j < |ss|
    ensures Good(ss[j], from, to) && Tracks(View(ss[j].blocks), from, ss[j].locks)
  {
    hide Good, Next, Tracks;
    if j > 0 {
      RunTracks(ss, acts, from, to, j - 1);
      assert Next(ss[j - 1], acts[j - 1], ss[j], from, to);
      NextTracks(ss[j - 1], acts[j - 1], ss[j], from, to);
    } else {
      InitTracks(ss[0], from, to);
    }
  }

  lemma {:induction false} InitTracks(s: State, from: nat, to: nat)
    requires Init(s, from, to)
    ensures Good(s, from, to) && Tracks(View(s.blocks), from, s.locks)
  {
  }

  /** Every step keeps the page counters in line with the outstanding locks. */
  lemma {:induction false} NextTracks(s: State, a: Action, t: State, from: nat, to: nat)
    requires Next(s, a, t, from, to) && Tracks(View(s.blocks), from, s.locks)
    ensures Good(t, from, to) && Tracks(View(t.blocks), from, t.locks)
  {
    hide Good, View, ApplyRange, RangeFits, Tracks, Without;
    var v := View(s.blocks);
    match a {
      case Lock(r, perm) => LockTracks(v, from, s.locks, r, perm);
      case Unlock(i, perm) => UnlockTracks(v, from, s.locks, i, perm);
      case Other(op, lo, hi) => OtherTracks(v, from, s.locks, op, lo - from, hi - from);
    }
  }

  /** At every point of every run, each outstanding lock starts and ends at a block boundary, and
      releasing it needs no new block and wraps no counter. */
  lemma {:induction false} ReleaseIsFreeInEveryRun(ss: seq<State>, acts: seq<Action>, from: nat, to: nat, j: nat, i: nat)
    requires IsRun(ss, acts, from, to) && j < |ss| && i < |ss[j].locks|
    ensures var r, bs, op := ss[j].locks[i], ss[j].blocks, UpdateLock(UnlockForIpc, PERM_NONE);
            && IsBoundary(bs, to, r.lo) && IsBoundary(bs, to, r.hi)
            && Tiles(bs, from, to) && |View(bs)| == to - from && from <= r.lo < r.hi <= to
            && RangeFits(op, View(bs), r.lo - from, r.hi - from)
            && BlocksNeeded(bs, from, to, op, r.lo, r.hi - r.lo) == 0
  {
    RunTracks(ss, acts, from, to, j);
    LockEndsAreBoundaries(ss[j].blocks, from, to, ss[j].locks, i);
    UnlockNeedsNoBlock(ss[j].blocks, from, to, ss[j].locks, i);
  }

  // ---- The block manager makes such steps ---------------------------------------------------------

  /** An update that the block manager can run: in the space, wrapping no counter, with a block before the range. */
  predicate CanRun(bs: seq<Block>, from: nat, to: nat, op: Op, lo: nat, hi: nat) {
    && from <= lo < hi <= to && op.Ok() && |View(bs)| == to - from && |bs| > 0
    && RangeFits(op, View(bs), lo - from, hi - from) && HasPredecessor(bs, from, op, lo, hi - lo)
  }

  /** Any update but an unlock, with the two blocks that are always enough. */
  method RunUpdate(m: BlockManager, op: Op, lo: nat, hi: nat)
    requires m.Valid() && CanRun(m.blocks, m.start, m.end, op, lo, hi)
    modifies m`blocks
    ensures m.Valid() && |View(m.blocks)| == m.end - m.start
    ensures View(m.blocks) == ApplyRange(op, old(View(m.blocks)), lo - m.start, hi - m.start)
  {
    hide View, RangeFits, HasPredecessor, Tiles, Coalesced, BlocksNeeded, Op.Ok;
    var alloc := new UpdateAllocator(2);
    m.UpdateRange(alloc, lo, hi - lo, op);
  }

  /** The lock at the end of `SetupForIpc`. */
  method SetupForIpc(m: BlockManager, r: Range, perm: Perm, ghost locks: seq<Range>)
    requires Good(State(m.blocks, locks), m.start, m.end)
    requires CanRun(m.blocks, m.start, m.end, UpdateLock(LockForIpc, perm), r.lo, r.hi)
    modifies m`blocks
    ensures Next(State(old(m.blocks), locks), Lock(r, perm), State(m.blocks, locks + [r]), m.start, m.end)
  {
    hide View, ApplyRange, RangeFits, HasPredecessor, Tiles, Coalesced;
    RunUpdate(m, UpdateLock(LockForIpc, perm), r.lo, r.hi);
  }

  /** Any other update. */
  method OtherUpdate(m: BlockManager, op: Op, lo: nat, hi: nat, ghost locks: seq<Range>)
    requires Good(State(m.blocks, locks), m.start, m.end) && CanRun(m.blocks, m.start, m.end, op, lo, hi)
    requires !(op.UpdateLock? && (op.f.LockForIpc? || op.f.UnlockForIpc?))
    modifies m`blocks
    ensures Next(State(old(m.blocks), locks), Other(op, lo, hi), State(m.blocks, locks), m.start, m.end)
  {
    hide View, ApplyRange, RangeFits, HasPredecessor, Tiles, Coalesced;
    RunUpdate(m, op, lo, hi);
  }

  /** The unlock at the end of `CleanupForIpcClient`: its allocator holds no block. */
  method CleanupForIpcClient(m: BlockManager, lo: nat, hi: nat, perm: Perm, ghost locks: seq<Range>, ghost i: nat)
    requires Good(State(m.blocks, locks), m.start, m.end) && Tracks(View(m.blocks), m.start, locks)
    requires i < |locks| && locks[i] == Range(lo, hi)
    modifies m`blocks
    ensures Next(State(old(m.blocks), locks), Unlock(i, perm), State(m.blocks, Without(locks, i)), m.start, m.end)
  {
    hide View, ApplyRange, RangeFits, Tracks, Tiles, Coalesced, BlocksNeeded;
    UnlockNeedsNoBlock(m.blocks, m.start, m.end, locks, i);
    AnyPermFits(View(m.blocks), lo - m.start, hi - m.start, PERM_NONE, perm);
    NeedsAnyPerm(m.blocks, m.start, m.end, lo, hi - lo, PERM_NONE, perm);
    var alloc := new UpdateAllocator(0);
    m.UpdateLock(alloc, lo, hi - lo, UnlockForIpc, perm);
    WithoutWithin(locks, i, m.start, m.end);
  }

  /** The permission argument of an unlock does not matter. */
  lemma {:induction false} AnyPermFits(v: seq<PageView>, lo: nat, hi: nat, perm: Perm, perm': Perm)
    requires lo <= hi <= |v| && RangeFits(UpdateLock(UnlockForIpc, perm), v, lo, hi)
    ensures RangeFits(UpdateLock(UnlockForIpc, perm'), v, lo, hi)
  {
  }

  lemma {:induction false} NeedsAnyPerm(bs: seq<Block>, from: nat, to: nat, address: nat, n: nat, perm: Perm, perm': Perm)
    requires Tiles(bs, from, to) && from <= address && address + n <= to && |View(bs)| == to - from
    ensures BlocksNeeded(bs, from, to, UpdateLock(UnlockForIpc, perm), address, n)
            == BlocksNeeded(bs, from, to, UpdateLock(UnlockForIpc, perm'), address, n)
  {
  }

  lemma {:induction false} WithoutWithin(rs: seq<Range>, i: nat, from: nat, to: nat)
    requires i < |rs| && AllWithin(rs, from, to)
    ensures AllWithin(Without(rs, i), from, to)
  {
  }

  /** What is asked of the manager: what it can run, and always the unlock of an outstanding lock. */
  predicate Runnable(s: State, a: Action, from: nat, to: nat) {
    match a
    case Lock(r, perm) => CanRun(s.blocks, from, to, UpdateLock(LockForIpc, perm), r.lo, r.hi)
    case Unlock(i, _) => i < |s.locks|
    case Other(op, lo, hi) =>
      !(op.UpdateLock? && (op.f.LockForIpc? || op.f.UnlockForIpc?)) && CanRun(s.blocks, from, to, op, lo, hi)
  }

  ghost predicate Stepped(s: State, a: Action, t: State, from: nat, to: nat) {
    if Runnable(s, a, from, to) then Next(s, a, t, from, to) else t == s
  }

  ghost predicate Tracked(s: State, from: nat, to: nat) {
    Good(s, from, to) && Tracks(View(s.blocks), from, s.locks)
  }

  method ExecuteOne(m: BlockManager, a: Action, locks: seq<Range>) returns (now: seq<Range>)
    requires Tracked(State(m.blocks, locks), m.start, m.end)
    modifies m`blocks
    ensures Stepped(State(old(m.blocks), locks), a, State(m.blocks, now), m.start, m.end)
    ensures Tracked(State(m.blocks, now), m.start, m.end)
  {
    hide Good, Tracks, CanRun, Next, View, IsBoundary, Without, HasPredecessor;
    ghost var before := State(m.blocks, locks);
    now := locks;
    if Runnable(State(m.blocks, locks), a, m.start, m.end) {
      match a {
        case Lock(r, perm) =>
          SetupForIpc(m, r, perm, locks);
          now := locks + [r];
        case Unlock(i, perm) =>
          CleanupForIpcClient(m, locks[i].lo, locks[i].hi, perm, locks, i);
          now := Without(locks, i);
        case Other(op, lo, hi) =>
          OtherUpdate(m, op, lo, hi, locks);
      }
      NextTracks(before, a, State(m.blocks, now), m.start, m.end);
    }
  }

  /** Any sequence of locks, unlocks and other updates on a block manager: at every point the manager's pages tell exactly
      the outstanding locks, whose ends are block boundaries, and every unlock of one of them goes through with an allocator
      of no block. */
  method Execute(m: BlockManager, acts: seq<Action>) returns (locks: seq<Range>, ghost ss: seq<State>)
    requires Init(State(m.blocks, []), m.start, m.end)
    modifies m`blocks
    ensures |ss| == |acts| + 1 && ss[0] == State(old(m.blocks), []) && ss[|acts|] == State(m.blocks, locks)
    ensures forall j :: 0 <= j < |acts| ==> Stepped(ss[j], acts[j], ss[j + 1], m.start, m.end)
    ensures forall j :: 0 <= j < |ss| ==> Tracked(ss[j], m.start, m.end)
    ensures forall j, i :: 0 <= j < |ss| && 0 <= i < |ss[j].locks| ==>
              IsBoundary(ss[j].blocks, m.end, ss[j].locks[i].lo) && IsBoundary(ss[j].blocks, m.end, ss[j].locks[i].hi)
  {
    hide Tracked, Stepped, View, IsBoundary, Init;
    locks := [];
    InitTracked(State(m.blocks, []), m.start, m.end);
    ss := [State(m.blocks, [])];
    for j := 0 to |acts|
      invariant |ss| == j + 1 && ss[0] == State(old(m.blocks), []) && ss[j] == State(m.blocks, locks)
      invariant forall k :: 0 <= k < j ==> Stepped(ss[k], acts[k], ss[k + 1], m.start, m.end)
      invariant forall k :: 0 <= k < |ss| ==> Tracked(ss[k], m.start, m.end)
    {
      locks := ExecuteOne(m, acts[j], locks);
      ss := ss + [State(m.blocks, locks)];
    }
    forall j, i | 0 <= j < |ss| && 0 <= i < |ss[j].locks|
      ensures IsBoundary(ss[j].blocks, m.end, ss[j].locks[i].lo) && IsBoundary(ss[j].blocks, m.end, ss[j].locks[i].hi)
    {
      EndsOf(ss[j], m.start, m.end, i);
    }
  }

  lemma {:induction false} InitTracked(s: State, from: nat, to: nat)
    requires Init(s, from, to)
    ensures Tracked(s, from, to)
  {
    InitTracks(s, from, to);
  }

  lemma {:induction false} EndsOf(s: State, from: nat, to: nat, i: nat)
    requires Tracked(s, from, to) && i < |s.locks|
    ensures IsBoundary(s.blocks, to, s.locks[i].lo) && IsBoundary(s.blocks, to, s.locks[i].hi)
  {
    hide View, Tracks;
    LockEndsAreBoundaries(s.blocks, from, to, s.locks, i);
  }

  // ---- Lock, then unlock ---------------------------------------------------------------

  /** An unlocked page keeps no trace of a lock. */
  predicate NoTrace(v: PageView) {
    v.info.ipcLocks == 0 ==> v.info.origPerm == PERM_NONE && !v.info.attr.ipcLocked
  }

  predicate FlagMatchesCount(e: LeftEdge) {
    e.flags.ipcLeft <==> e.ipcStarts > 0
  }

  /** Unlocking a range right after locking it gives back every page exactly when, at the start of the
      range, the start flag agrees with its counter. */
  lemma {:induction false} LockThenUnlock(v: seq<PageView>, lo: nat, hi: nat, perm: Perm, perm': Perm)
    requires lo < hi <= |v| && RangeFits(UpdateLock(LockForIpc, perm), v, lo, hi)
    requires forall k :: lo <= k < hi ==> NoTrace(v[k])
    requires forall k :: lo <= k < hi && v[k].info.ipcLocks > 0 ==> v[k].info.attr.ipcLocked
    ensures var w := ApplyRange(UpdateLock(LockForIpc, perm), v, lo, hi);
            && RangeFits(UpdateLock(UnlockForIpc, perm'), w, lo, hi)
            && (ApplyRange(UpdateLock(UnlockForIpc, perm'), w, lo, hi) == v <==> FlagMatchesCount(v[lo].left))
  {
    var w := ApplyRange(UpdateLock(LockForIpc, perm), v, lo, hi);
    var u := ApplyRange(UpdateLock(UnlockForIpc, perm'), w, lo, hi);
    forall k | 0 <= k < |v| && k != lo
      ensures u[k] == v[k]
    {
      assert lo <= k < hi ==> NoTrace(v[k]);
    }
    assert NoTrace(v[lo]);
    assert u[lo] == v[lo] <==> FlagMatchesCount(v[lo].left);
    if FlagMatchesCount(v[lo].left) {
      assert u == v;
    } else {
      assert u[lo] != v[lo];
    }
  }

  /** So away from the start of the space the very same run of blocks comes back. */
  lemma {:induction false} LockThenUnlockRestoresBlocks(bs: seq<Block>, cs: seq<Block>, from: nat, to: nat,
                                                        lo: nat, hi: nat, perm: Perm, perm': Perm)
    requires WellFormed(bs, from, to) && Coalesced(bs) && |View(bs)| == to - from
    requires Tiles(cs, from, to) && Coalesced(cs)
    requires from < lo < hi <= to && RangeFits(UpdateLock(LockForIpc, perm), View(bs), lo - from, hi - from)
    requires forall k :: lo - from <= k < hi - from ==> NoTrace(View(bs)[k])
    requires forall k :: lo - from <= k < hi - from && View(bs)[k].info.ipcLocks > 0 ==> View(bs)[k].info.attr.ipcLocked
    requires var w := ApplyRange(UpdateLock(LockForIpc, perm), View(bs), lo - from, hi - from);
             && RangeFits(UpdateLock(UnlockForIpc, perm'), w, lo - from, hi - from)
             && View(cs) == ApplyRange(UpdateLock(UnlockForIpc, perm'), w, lo - from, hi - from)
    ensures cs == bs
  {
    var i := BlockHolding(bs, from, to, lo);
    ViewAt(bs, from, to, i, lo - bs[i].addr);
    TilesSplit(bs, from, to, i);
    assert bs[i] in bs;
    LockThenUnlock(View(bs), lo - from, hi - from, perm, perm');
    CanonicalForm(bs, cs, from, to);
  }
}
