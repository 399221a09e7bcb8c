/** What the three updates of the block manager mean for a single page, and what follows. */
module UpdateMeanings {
  import opened MemoryBlocks

  /** The part of a page that no property update may touch. */
  predicate SameHistory(p: PageView, q: PageView) {
    && p.info.ipcLocks == q.info.ipcLocks && p.info.deviceUses == q.info.deviceUses && p.info.origPerm == q.info.origPerm
    && p.info.attr.ipcLocked == q.info.attr.ipcLocked && p.info.attr.deviceShared == q.info.attr.deviceShared
    && p.left.ipcStarts == q.left.ipcStarts && p.left.deviceStarts == q.left.deviceStarts && p.right == q.right
    && p.left.flags.ipcLeft == q.left.flags.ipcLeft && p.left.flags.deviceLeft == q.left.flags.deviceLeft
  }

  /** `Update`: every page of the range has the properties asked for, keeps its lock and share history, and no other page
      changes. */
  lemma {:induction false} UpdateMeans(v: seq<PageView>, lo: nat, hi: nat, op: Op, k: nat)
    requires lo <= hi <= |v| && k < |v| && op.Update? && op.Ok()
    ensures var w := ApplyRange(op, v, lo, hi);
            if lo <= k < hi then w[k].info.HasProperties(op.state, op.perm, op.attr) && SameHistory(w[k], v[k])
            else w[k] == v[k]
  {
  }

  /** `UpdateIfMatch`: exactly the pages of the range with the test properties change, to the new ones. */
  lemma {:induction false} UpdateIfMatchMeans(v: seq<PageView>, lo: nat, hi: nat, op: Op, k: nat)
    requires lo <= hi <= |v| && k < |v| && op.UpdateIfMatch? && op.Ok()
    ensures var w := ApplyRange(op, v, lo, hi);
            if lo <= k < hi && v[k].info.HasProperties(op.testState, op.testPerm, op.testAttr)
            then w[k].info.HasProperties(op.state, op.perm, op.attr) && SameHistory(w[k], v[k]) && w[k].left == v[k].left
            else w[k] == v[k]
  {
  }

  /** Asking twice is asking once. */
  lemma {:induction false} UpdateIdempotent(v: seq<PageView>, lo: nat, hi: nat, op: Op)
    requires lo <= hi <= |v| && !op.UpdateLock? && op.Ok()
    ensures ApplyRange(op, ApplyRange(op, v, lo, hi), lo, hi) == ApplyRange(op, v, lo, hi)
  {
    var w := ApplyRange(op, v, lo, hi);
    forall k | lo <= k < hi
      ensures !op.Touches(w[k].info)
    {
      if op.Update? {
        UpdateMeans(v, lo, hi, op, k);
      } else {
        UpdateIfMatchMeans(v, lo, hi, op, k);
      }
    }
  }

  // ---- Using free pages for a while -----------------------------------------------------------------

  /** Free pages come into use. */
  function ShowPages(state: nat, perm: Perm): (op: Op)
    ensures op.Update? && op.Ok()
  {
    Op.Update(state, perm, ATTR_NONE, DISABLE_NORMAL, DISABLE_NONE)
  }

  /** And are free again. */
  function HidePages(): (op: Op)
    ensures op.Update? && op.Ok()
  {
    Op.Update(STATE_FREE, PERM_NONE, ATTR_NONE, DISABLE_NONE, DISABLE_NORMAL)
  }

  /** A free page is as it was exactly if it carried neither permission, attribute nor Normal flag. */
  predicate FreeClean(p: PageView) {
    p.info.perm == PERM_NONE && !p.info.attr.locked && !p.info.attr.uncached && !p.left.flags.normal
  }

  lemma {:induction false} FreeRestored(p: PageView, state: nat, perm: Perm, first: bool, last: bool)
    requires p.info.state == STATE_FREE && state != STATE_FREE
    ensures p.Apply(ShowPages(state, perm), first, last).Apply(HidePages(), first, last) == p <==> FreeClean(p)
  {
  }

  /** Pages that came into use, whatever happened to other pages meanwhile, are free again as before if and only if they
      were clean; hiding them changes no other page. */
  lemma {:induction false} HideRestores(v: seq<PageView>, w: seq<PageView>, state: nat, perm: Perm, lo: nat, hi: nat)
    requires lo <= hi <= |v| == |w| && state != STATE_FREE && forall k :: lo <= k < hi ==> v[k].info.state == STATE_FREE
    requires w[lo..hi] == ApplyRange(ShowPages(state, perm), v, lo, hi)[lo..hi]
    ensures ApplyRange(HidePages(), w, lo, hi)[lo..hi] == v[lo..hi] <==> forall k :: lo <= k < hi ==> FreeClean(v[k])
    ensures forall k :: 0 <= k < |w| && !(lo <= k < hi) ==> ApplyRange(HidePages(), w, lo, hi)[k] == w[k]
  {
    hide FreeClean, ShowPages, HidePages;
    var shown, after := ApplyRange(ShowPages(state, perm), v, lo, hi), ApplyRange(HidePages(), w, lo, hi);
    forall k | lo <= k < hi
      ensures after[k] == v[k] <==> FreeClean(v[k])
    {
      assert w[k] == w[lo..hi][k - lo] == shown[lo..hi][k - lo] == shown[k];
      FreeRestored(v[k], state, perm, k == lo, k == hi - 1);
    }
    assert forall k :: lo <= k < hi ==> after[lo..hi][k - lo] == after[k] && v[lo..hi][k - lo] == v[k];
  }
}
