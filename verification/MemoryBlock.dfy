/** The blocks of a process address space (`KMemoryBlock`) and the page-by-page
    meaning of a run of blocks.

    Addresses and sizes are counted in pages.  A block carries properties that hold
    for each of its pages and annotations that belong to its two edges: the flags that
    forbid a merge on the left (Normal, DeviceLeft, IpcLeft, Locked) with two counters,
    and the flag that forbids a merge on the right (DeviceRight) with one counter. */
module MemoryBlocks {
  import opened Basics

  const U16_MAX: nat := 0xFFFF

  /** `KMemoryAttribute`, one field per bit. */
  datatype Attr = Attr(locked: bool, ipcLocked: bool, deviceShared: bool, uncached: bool) {

    /** Equality but for the two bits that lock and share counts own. */
    predicate SameUserBits(a: Attr) {
      locked == a.locked && uncached == a.uncached
    }
  }

  const ATTR_NONE := Attr(false, false, false, false)

  /** `KMemoryPermission`, one field per bit. */
  datatype Perm = Perm(userRead: bool, userWrite: bool, userExecute: bool,
                       kernelRead: bool, kernelWrite: bool, kernelExecute: bool, notMapped: bool) {

    /** The bits of `p` under `IpcLockChangeMask`, the bits of this permission elsewhere. */
    function IpcLockChange(p: Perm): Perm {
      p.(userExecute := userExecute, kernelExecute := kernelExecute)
    }
  }

  const PERM_NONE := Perm(false, false, false, false, false, false, false)
  const PERM_USER_READ_WRITE := Perm(true, true, false, true, true, false, false)

  // KMemoryState
  const STATE_FREE: nat := 0x00000000
  const STATE_NORMAL: nat := 0x037EBD05

  /** `KMemoryBlockDisableMergeAttribute`, one field per bit; the first four are the left flags. */
  datatype Disable = Disable(normal: bool, deviceLeft: bool, ipcLeft: bool, locked: bool, deviceRight: bool) {

    predicate AnyLeft() {
      normal || deviceLeft || ipcLeft || locked
    }

    function Left(): Disable {
      this.(deviceRight := false)
    }

    function Right(): Disable {
      Disable(false, false, false, false, deviceRight)
    }

    function Or(d: Disable): Disable {
      Disable(normal || d.normal, deviceLeft || d.deviceLeft, ipcLeft || d.ipcLeft, locked || d.locked,
              deviceRight || d.deviceRight)
    }

    function AndNot(d: Disable): Disable {
      Disable(normal && !d.normal, deviceLeft && !d.deviceLeft, ipcLeft && !d.ipcLeft, locked && !d.locked,
              deviceRight && !d.deviceRight)
    }

    /** Only flags that no counter backs: Normal and Locked. */
    predicate Uncounted() {
      !deviceLeft && !ipcLeft && !deviceRight
    }
  }

  const DISABLE_NONE := Disable(false, false, false, false, false)
  const DISABLE_NORMAL := DISABLE_NONE.(normal := true)
  const DISABLE_LOCKED := DISABLE_NONE.(locked := true)

  /** The properties that every page of a block shares. */
  datatype PageInfo = PageInfo(state: nat, perm: Perm, origPerm: Perm, attr: Attr, ipcLocks: nat, deviceUses: nat) {

    /** `HasProperties`: the lock and share bits of the attribute are ignored. */
    predicate HasProperties(s: nat, p: Perm, a: Attr) {
      state == s && perm == p && attr.SameUserBits(a)
    }

    /** The part of `CheckState` that looks at one block: a lock bit needs a count. */
    predicate CountsOk() {
      && (attr.ipcLocked ==> ipcLocks > 0)
      && (attr.deviceShared ==> deviceUses > 0)
    }

    function WithProperties(s: nat, p: Perm, a: Attr): PageInfo {
      this.(state := s, perm := p, attr := a.(ipcLocked := attr.ipcLocked, deviceShared := attr.deviceShared))
    }

    function IpcLocked(newPerm: Perm): PageInfo {
      var counted := this.(ipcLocks := ipcLocks + 1, attr := attr.(ipcLocked := true));
      if ipcLocks == 0 then
        counted.(origPerm := perm, perm := perm.IpcLockChange(newPerm))
      else counted
    }

    function IpcUnlocked(): PageInfo
      requires ipcLocks > 0
    {
      if ipcLocks == 1 then
        this.(ipcLocks := 0, perm := origPerm, origPerm := PERM_NONE, attr := attr.(ipcLocked := false))
      else this.(ipcLocks := ipcLocks - 1)
    }

    function DeviceShared(): PageInfo {
      this.(deviceUses := deviceUses + 1, attr := attr.(deviceShared := true))
    }

    function DeviceUnshared(): PageInfo
      requires deviceUses > 0
    {
      this.(deviceUses := deviceUses - 1,
            attr := if deviceUses == 1 then attr.(deviceShared := false) else attr)
    }
  }

  /** The block member functions that `UpdateLock` is called with. */
  datatype LockFunction =
    | LockForIpc
    | UnlockForIpc
    | ShareToDevice
    | ShareState             // UpdateDeviceDisableMergeStateForShare
    | ShareStateRight        // UpdateDeviceDisableMergeStateForShareRight
    | UnshareToDevice
    | UnshareToDeviceRight
    | UnshareState           // UpdateDeviceDisableMergeStateForUnshare
    | UnshareStateRight      // UpdateDeviceDisableMergeStateForUnshareRight

  /** What one call of the block manager asks for. */
  datatype Op =
    | Update(state: nat, perm: Perm, attr: Attr, setMask: Disable, clearMask: Disable)
    | UpdateIfMatch(testState: nat, testPerm: Perm, testAttr: Attr, state: nat, perm: Perm, attr: Attr)
    | UpdateLock(f: LockFunction, newPerm: Perm)
  {
    /** The caller's side: no lock bit in the attribute, and only uncounted flags in the masks. */
    predicate Ok() {
      match this
      case Update(_, _, a, s, c) =>
        !a.ipcLocked && !a.deviceShared && s.Uncounted() && c.Uncounted()
      case UpdateIfMatch(_, _, _, _, _, a) => !a.ipcLocked && !a.deviceShared
      case UpdateLock(_, _) => true
    }

    /** Whether the loop changes a block with these properties or steps over it. */
    predicate Touches(i: PageInfo) {
      match this
      case Update(s, p, a, _, _) => !i.HasProperties(s, p, a)
      case UpdateIfMatch(ts, tp, ta, s, p, a) => i.HasProperties(ts, tp, ta) && !i.HasProperties(s, p, a)
      case UpdateLock(_, _) => true
    }
  }

  datatype Block = Block(addr: nat, pages: nat, info: PageInfo,
                         disable: Disable, ipcStarts: nat, deviceStarts: nat, deviceEnds: nat) {

    function End(): nat {
      addr + pages
    }

    predicate Holds(page: nat) {
      addr <= page < End()
    }

    predicate CanMergeWith(rhs: Block) {
      && info == rhs.info
      && !disable.deviceRight
      && !rhs.disable.AnyLeft()
    }

    function Add(added: Block): Block {
      this.(pages := pages + added.pages, disable := disable.Or(added.disable), deviceEnds := added.deviceEnds)
    }

    /** `Split` at `at`: the new block, which is the left part. */
    function SplitLeft(at: nat): Block
      requires addr < at < End()
    {
      this.(pages := at - addr, disable := disable.Left(), deviceEnds := 0)
    }

    /** `Split` at `at`: what remains of this block, the right part. */
    function SplitRight(at: nat): Block
      requires addr < at < End()
    {
      this.(addr := at, pages := End() - at, disable := disable.Right(), ipcStarts := 0, deviceStarts := 0)
    }

    function Updated(s: nat, p: Perm, a: Attr, setDisable: bool, setMask: Disable, clearMask: Disable): Block {
      var flags := if setDisable then disable.Or(setMask) else disable;
      this.(info := info.WithProperties(s, p, a), disable := flags.AndNot(clearMask))
    }

    function ShareLeft(left: bool): Block {
      if left then this.(disable := disable.(deviceLeft := true), deviceStarts := deviceStarts + 1) else this
    }

    function ShareRight(right: bool): Block {
      if right then this.(disable := disable.(deviceRight := true), deviceEnds := deviceEnds + 1) else this
    }

    function UnshareLeft(left: bool): Block {
      if left && deviceStarts == 0 then this
      else
        var count := Min(if left then deviceStarts - 1 else deviceStarts, info.deviceUses);
        this.(deviceStarts := count,
              disable := if count == 0 then disable.(deviceLeft := false) else disable)
    }

    function UnshareRight(right: bool): Block
      requires right ==> deviceEnds > 0
    {
      if right then
        this.(deviceEnds := deviceEnds - 1,
              disable := if deviceEnds == 1 then disable.(deviceRight := false) else disable)
      else this
    }

    function LockedForIpc(newPerm: Perm, left: bool): Block {
      var b := this.(info := info.IpcLocked(newPerm));
      if left then b.(disable := disable.(ipcLeft := true), ipcStarts := ipcStarts + 1) else b
    }

    function UnlockedForIpc(left: bool): Block
      requires info.ipcLocks > 0
      requires left ==> ipcStarts > 0
    {
      var b := this.(info := info.IpcUnlocked());
      if left then
        b.(ipcStarts := ipcStarts - 1, disable := if ipcStarts == 1 then disable.(ipcLeft := false) else disable)
      else b
    }

    /** No counter of the block wraps around when `op` runs on it. */
    predicate Fits(op: Op, left: bool, right: bool) {
      op.UpdateLock? ==>
        match op.f
        case LockForIpc => info.ipcLocks < U16_MAX && (left ==> ipcStarts < U16_MAX)
        case UnlockForIpc => info.ipcLocks > 0 && (left ==> ipcStarts > 0)
        case ShareToDevice =>
          info.deviceUses < U16_MAX && (left ==> deviceStarts < U16_MAX) && (right ==> deviceEnds < U16_MAX)
        case ShareState => (left ==> deviceStarts < U16_MAX) && (right ==> deviceEnds < U16_MAX)
        case ShareStateRight => right ==> deviceEnds < U16_MAX
        case UnshareToDevice => info.deviceUses > 0 && (right ==> deviceEnds > 0)
        case UnshareToDeviceRight => info.deviceUses > 0 && (right ==> deviceEnds > 0)
        case UnshareState => right ==> deviceEnds > 0
        case UnshareStateRight => right ==> deviceEnds > 0
    }

    /** The change one call makes to a block that lies wholly inside its range. */
    function Apply(op: Op, left: bool, right: bool): Block
      requires Fits(op, left, right)
    {
      match op
      case Update(s, p, a, setMask, clearMask) => Updated(s, p, a, left, setMask, clearMask)
      case UpdateIfMatch(_, _, _, s, p, a) => Updated(s, p, a, false, DISABLE_NONE, DISABLE_NONE)
      case UpdateLock(LockForIpc, perm) => LockedForIpc(perm, left)
      case UpdateLock(UnlockForIpc, _) => UnlockedForIpc(left)
      case UpdateLock(ShareToDevice, _) => this.(info := info.DeviceShared()).ShareLeft(left).ShareRight(right)
      case UpdateLock(ShareState, _) => ShareLeft(left).ShareRight(right)
      case UpdateLock(ShareStateRight, _) => ShareRight(right)
      case UpdateLock(UnshareToDevice, _) =>
        this.(info := info.DeviceUnshared()).UnshareLeft(left).UnshareRight(right)
      case UpdateLock(UnshareToDeviceRight, _) => this.(info := info.DeviceUnshared()).UnshareRight(right)
      case UpdateLock(UnshareState, _) => UnshareLeft(left).UnshareRight(right)
      case UpdateLock(UnshareStateRight, _) => UnshareRight(right)
    }

    /** A flag that a counter backs is set exactly while the counter is positive.  The
        block at the start of the space is exempt for its IPC counter, because
        `Initialize` leaves that counter as it was in the slab. */
    predicate EdgesOk(spaceStart: nat) {
      && pages > 0
      && (addr != spaceStart ==> (disable.ipcLeft <==> ipcStarts > 0))
      && (disable.deviceLeft <==> deviceStarts > 0)
      && (disable.deviceRight <==> deviceEnds > 0)
    }
  }

  // ---- The page-by-page meaning ------------------------------------------------

  datatype LeftEdge = LeftEdge(flags: Disable, ipcStarts: nat, deviceStarts: nat)
  datatype RightEdge = RightEdge(flags: Disable, deviceEnds: nat)

  const NO_LEFT := LeftEdge(DISABLE_NONE, 0, 0)
  const NO_RIGHT := RightEdge(DISABLE_NONE, 0)

  /** One page: its properties, and what is recorded at its left and right edges. */
  datatype PageView = PageView(info: PageInfo, left: LeftEdge, right: RightEdge) {

    /** No counter wraps around at this page; `first` and `last` say where in the range it lies. */
    predicate Fits(op: Op, first: bool, last: bool) {
      op.UpdateLock? ==>
        match op.f
        case LockForIpc => info.ipcLocks < U16_MAX && (first ==> left.ipcStarts < U16_MAX)
        case UnlockForIpc => info.ipcLocks > 0 && (first ==> left.ipcStarts > 0)
        case ShareToDevice =>
          info.deviceUses < U16_MAX && (first ==> left.deviceStarts < U16_MAX) && (last ==> right.deviceEnds < U16_MAX)
        case ShareState => (first ==> left.deviceStarts < U16_MAX) && (last ==> right.deviceEnds < U16_MAX)
        case ShareStateRight => last ==> right.deviceEnds < U16_MAX
        case UnshareToDevice => info.deviceUses > 0 && (last ==> right.deviceEnds > 0)
        case UnshareToDeviceRight => info.deviceUses > 0 && (last ==> right.deviceEnds > 0)
        case UnshareState => last ==> right.deviceEnds > 0
        case UnshareStateRight => last ==> right.deviceEnds > 0
    }

    function NewInfo(op: Op): PageInfo
      requires Fits(op, false, false)
    {
      match op
      case Update(s, p, a, _, _) => info.WithProperties(s, p, a)
      case UpdateIfMatch(_, _, _, s, p, a) => info.WithProperties(s, p, a)
      case UpdateLock(LockForIpc, perm) => info.IpcLocked(perm)
      case UpdateLock(UnlockForIpc, _) => info.IpcUnlocked()
      case UpdateLock(ShareToDevice, _) => info.DeviceShared()
      case UpdateLock(UnshareToDevice, _) => info.DeviceUnshared()
      case UpdateLock(UnshareToDeviceRight, _) => info.DeviceUnshared()
      case _ => info
    }

    function NewLeft(op: Op, first: bool): LeftEdge
      requires Fits(op, first, false)
    {
      match op
      case Update(_, _, _, setMask, clearMask) =>
        left.(flags := (if first then left.flags.Or(setMask) else left.flags).AndNot(clearMask))
      case UpdateLock(LockForIpc, _) =>
        if first then left.(flags := left.flags.(ipcLeft := true), ipcStarts := left.ipcStarts + 1) else left
      case UpdateLock(UnlockForIpc, _) =>
        if !first then left
        else left.(ipcStarts := left.ipcStarts - 1,
                   flags := if left.ipcStarts == 1 then left.flags.(ipcLeft := false) else left.flags)
      case UpdateLock(ShareToDevice, _) => ShareLeftEdge(first)
      case UpdateLock(ShareState, _) => ShareLeftEdge(first)
      case UpdateLock(UnshareToDevice, _) => UnshareLeftEdge(first, NewInfo(op).deviceUses)
      case UpdateLock(UnshareState, _) => UnshareLeftEdge(first, info.deviceUses)
      case _ => left
    }

    function ShareLeftEdge(first: bool): LeftEdge {
      if first then left.(flags := left.flags.(deviceLeft := true), deviceStarts := left.deviceStarts + 1) else left
    }

    function UnshareLeftEdge(first: bool, uses: nat): LeftEdge {
      if first && left.deviceStarts == 0 then left
      else
        var count := Min(if first then left.deviceStarts - 1 else left.deviceStarts, uses);
        left.(deviceStarts := count,
              flags := if count == 0 then left.flags.(deviceLeft := false) else left.flags)
    }

    function NewRight(op: Op, last: bool): RightEdge
      requires Fits(op, false, last)
    {
      if !last || !op.UpdateLock? then right
      else
        match op.f
        case LockForIpc => right
        case UnlockForIpc => right
        case ShareToDevice => SharedRight()
        case ShareState => SharedRight()
        case ShareStateRight => SharedRight()
        case UnshareToDevice => UnsharedRight()
        case UnshareToDeviceRight => UnsharedRight()
        case UnshareState => UnsharedRight()
        case UnshareStateRight => UnsharedRight()
    }

    function SharedRight(): RightEdge {
      right.(flags := right.flags.(deviceRight := true), deviceEnds := right.deviceEnds + 1)
    }

    function UnsharedRight(): RightEdge
      requires right.deviceEnds > 0
    {
      right.(deviceEnds := right.deviceEnds - 1,
             flags := if right.deviceEnds == 1 then right.flags.(deviceRight := false) else right.flags)
    }

    /** What `op` makes of this page. */
    function Apply(op: Op, first: bool, last: bool): PageView
      requires Fits(op, first, last)
    {
      if op.Touches(info) then PageView(NewInfo(op), NewLeft(op, first), NewRight(op, last)) else this
    }
  }

  /** A block seen as a single page that has both of its edges. */
  function EdgeView(b: Block): PageView {
    PageView(b.info,
             LeftEdge(b.disable.Left(), b.ipcStarts, b.deviceStarts),
             RightEdge(b.disable.Right(), b.deviceEnds))
  }

  /** Page `k` of a block: the edge annotations sit on its first and last page. */
  function PageOf(b: Block, k: nat): PageView {
    PageView(b.info,
             if k == 0 then EdgeView(b).left else NO_LEFT,
             if k == b.pages - 1 then EdgeView(b).right else NO_RIGHT)
  }

  function Pages(b: Block): (v: seq<PageView>)
    ensures |v| == b.pages
    ensures forall k :: 0 <= k < b.pages ==> v[k] == PageOf(b, k)
  {
    seq(b.pages, k requires 0 <= k => PageOf(b, k))
  }

  /** The pages of a run of blocks, in order. */
  function View(bs: seq<Block>): seq<PageView> {
    if bs == [] then [] else Pages(bs[0]) + View(bs[1..])
  }

  /** What `op` on the pages `[lo, hi)` makes of a whole view. */
  function ApplyRange(op: Op, v: seq<PageView>, lo: nat, hi: nat): (w: seq<PageView>)
    requires lo <= hi <= |v|
    requires RangeFits(op, v, lo, hi)
    ensures |w| == |v|
  {
    seq(|v|, k requires 0 <= k < |v| => if lo <= k < hi then v[k].Apply(op, k == lo, k == hi - 1) else v[k])
  }

  predicate RangeFits(op: Op, v: seq<PageView>, lo: nat, hi: nat)
    requires lo <= hi <= |v|
  {
    forall k :: lo <= k < hi ==> v[k].Fits(op, k == lo, k == hi - 1)
  }

  /** The blocks cover `[from, to)` in order, without gap or overlap. */
  predicate Tiles(bs: seq<Block>, from: nat, to: nat) {
    if bs == [] then from == to
    else bs[0].addr == from && bs[0].pages > 0 && Tiles(bs[1..], bs[0].End(), to)
  }

  predicate AllEdgesOk(bs: seq<Block>, spaceStart: nat) {
    forall b :: b in bs ==> b.EdgesOk(spaceStart)
  }

  predicate AllCountsOk(bs: seq<Block>) {
    forall b :: b in bs ==> b.info.CountsOk()
  }

  /** No two neighbours could be merged. */
  predicate Coalesced(bs: seq<Block>) {
    forall i :: 0 < i < |bs| ==> !bs[i - 1].CanMergeWith(bs[i])
  }

  // ---- Tiling -------------------------------------------------------------------

  lemma {:induction false} TilesConcat(a: seq<Block>, b: seq<Block>, from: nat, mid: nat, to: nat)
    requires Tiles(a, from, mid) && Tiles(b, mid, to)
    ensures Tiles(a + b, from, to)
  {
    if a == [] {
      assert a + b == b;
    } else {
      TilesConcat(a[1..], b, a[0].End(), mid, to);
      assert (a + b)[1..] == a[1..] + b;
    }
  }

  lemma {:induction false} TilesSplit(bs: seq<Block>, from: nat, to: nat, i: nat)
    requires Tiles(bs, from, to) && i < |bs|
    ensures Tiles(bs[..i], from, bs[i].addr)
    ensures Tiles(bs[i..], bs[i].addr, to)
    ensures bs[i].pages > 0 && from <= bs[i].addr && bs[i].End() <= to
    ensures Tiles(bs[i + 1..], bs[i].End(), to)
  {
    if i == 0 {
      assert bs[..0] == [] && bs[0..] == bs;
      TilesOrder(bs[1..], bs[0].End(), to);
    } else {
      TilesSplit(bs[1..], bs[0].End(), to, i - 1);
      assert bs[1..][..i - 1] == bs[..i][1..];
      assert bs[1..][i - 1..] == bs[i..];
      assert bs[1..][i..] == bs[i + 1..];
    }
  }

  lemma {:induction false} TilesOrder(bs: seq<Block>, from: nat, to: nat)
    requires Tiles(bs, from, to)
    ensures from <= to
    ensures bs == [] <==> from == to
  {
    if bs != [] {
      TilesOrder(bs[1..], bs[0].End(), to);
    }
  }

  /** Neighbours touch. */
  lemma {:induction false} TilesNext(bs: seq<Block>, from: nat, to: nat, i: nat)
    requires Tiles(bs, from, to) && i + 1 < |bs|
    ensures bs[i].End() == bs[i + 1].addr
  {
    TilesSplit(bs, from, to, i);
    assert bs[i + 1..][0] == bs[i + 1];
  }

  /** Blocks further right start further right. */
  lemma {:induction false} TilesSorted(bs: seq<Block>, from: nat, to: nat, i: nat, j: nat)
    requires Tiles(bs, from, to) && i < j < |bs|
    ensures bs[i].End() <= bs[j].addr
    ensures bs[i].pages > 0
  {
    TilesSplit(bs, from, to, i);
    TilesSplit(bs[i + 1..], bs[i].End(), to, j - i - 1);
    assert bs[i + 1..][j - i - 1] == bs[j];
  }

  // ---- The view under concatenation, split and merge -----------------------------

  lemma {:induction false} ViewConcat(a: seq<Block>, b: seq<Block>)
    ensures View(a + b) == View(a) + View(b)
  {
    if a == [] {
      assert a + b == b;
    } else {
      calc {
        View(a + b);
        { assert (a + b)[1..] == a[1..] + b; }
        Pages(a[0]) + View(a[1..] + b);
        { ViewConcat(a[1..], b); }
        Pages(a[0]) + (View(a[1..]) + View(b));
        View(a) + View(b);
      }
    }
  }

  lemma {:induction false} ViewLength(bs: seq<Block>, from: nat, to: nat)
    requires Tiles(bs, from, to)
    ensures |View(bs)| == to - from
  {
    TilesOrder(bs, from, to);
    if bs != [] {
      ViewLength(bs[1..], bs[0].End(), to);
      TilesOrder(bs[1..], bs[0].End(), to);
    }
  }

  /** The view around block `i`. */
  lemma {:induction false} ViewAround(bs: seq<Block>, from: nat, to: nat, i: nat)
    requires Tiles(bs, from, to) && i < |bs|
    ensures View(bs) == View(bs[..i]) + Pages(bs[i]) + View(bs[i + 1..])
    ensures |View(bs[..i])| == bs[i].addr - from
  {
    TilesSplit(bs, from, to, i);
    ViewLength(bs[..i], from, bs[i].addr);
    ViewConcat(bs[..i], bs[i..]);
    assert bs[..i] + bs[i..] == bs;
    assert bs[i..][1..] == bs[i + 1..];
  }

  /** Page `k` of block `i`, seen in the whole view. */
  lemma {:induction false} ViewAt(bs: seq<Block>, from: nat, to: nat, i: nat, k: nat)
    requires Tiles(bs, from, to) && i < |bs| && k < bs[i].pages
    ensures from <= bs[i].addr && bs[i].addr - from + k < |View(bs)|
    ensures View(bs)[bs[i].addr - from + k] == Pages(bs[i])[k]
  {
    ViewAround(bs, from, to, i);
    TilesSplit(bs, from, to, i);
  }

  /** Replacing block `i` by blocks that tile the same pages keeps the tiling. */
  lemma {:induction false} ReplaceTiles(bs: seq<Block>, from: nat, to: nat, i: nat, mid: seq<Block>)
    requires Tiles(bs, from, to) && i < |bs|
    requires Tiles(mid, bs[i].addr, bs[i].End())
    ensures Tiles(bs[..i] + mid + bs[i + 1..], from, to)
    ensures View(bs[..i] + mid + bs[i + 1..]) == View(bs[..i]) + View(mid) + View(bs[i + 1..])
  {
    TilesSplit(bs, from, to, i);
    TilesConcat(bs[..i], mid, from, bs[i].addr, bs[i].End());
    TilesConcat(bs[..i] + mid, bs[i + 1..], from, bs[i].End(), to);
    ViewConcat(bs[..i], mid);
    ViewConcat(bs[..i] + mid, bs[i + 1..]);
  }

  lemma {:induction false} ViewOne(b: Block)
    ensures View([b]) == Pages(b)
  {
    assert View([b]) == Pages(b) + View([]);
  }

  lemma {:induction false} ViewTwo(a: Block, b: Block)
    ensures View([a, b]) == Pages(a) + Pages(b)
  {
    ViewOne(b);
    assert [a, b][1..] == [b];
  }

  lemma {:induction false} TilesTwo(a: Block, b: Block)
    requires a.pages > 0 && b.pages > 0 && a.End() == b.addr
    ensures Tiles([a, b], a.addr, b.End())
  {
    assert [a, b][1..] == [b];
    assert [b][1..] == [];
  }

  lemma {:induction false} TilesOne(b: Block)
    requires b.pages > 0
    ensures Tiles([b], b.addr, b.End())
  {
    assert [b][1..] == [];
  }

  /** A split changes no page and no edge. */
  lemma {:induction false} SplitPages(b: Block, at: nat, spaceStart: nat)
    requires b.addr < at < b.End()
    requires b.EdgesOk(spaceStart) && spaceStart <= b.addr
    ensures Pages(b.SplitLeft(at)) + Pages(b.SplitRight(at)) == Pages(b)
    ensures b.SplitLeft(at).EdgesOk(spaceStart) && b.SplitRight(at).EdgesOk(spaceStart)
  {
    var l, r := b.SplitLeft(at), b.SplitRight(at);
    var p := Pages(l) + Pages(r);
    forall k | 0 <= k < b.pages
      ensures p[k] == Pages(b)[k]
    {
      if k < l.pages {
        assert p[k] == Pages(l)[k];
      } else {
        assert p[k] == Pages(r)[k - l.pages];
      }
    }
  }

  /** A merge changes no page and no edge. */
  lemma {:induction false} MergePages(a: Block, b: Block, spaceStart: nat)
    requires a.CanMergeWith(b) && a.End() == b.addr
    requires a.EdgesOk(spaceStart) && b.EdgesOk(spaceStart) && spaceStart <= a.addr
    ensures Pages(a.Add(b)) == Pages(a) + Pages(b)
    ensures a.Add(b).EdgesOk(spaceStart)
    ensures a.Add(b).disable.Left() == a.disable.Left()
    ensures a.Add(b).disable.Right() == b.disable.Right()
  {
    var m := a.Add(b);
    var p := Pages(a) + Pages(b);
    forall k | 0 <= k < m.pages
      ensures p[k] == Pages(m)[k]
    {
      if k < a.pages {
        assert p[k] == Pages(a)[k];
      } else {
        assert p[k] == Pages(b)[k - a.pages];
      }
    }
  }
}
