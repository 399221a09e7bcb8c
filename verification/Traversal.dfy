/** Walking a range of a page table: the translation blocks it meets, and the physical pages behind them. */
module Traversals {
  import opened PageGroups
  import opened Basics

  /** One entry of a page table traversal: where it starts physically and how large its translation
      block is, in pages. */
  datatype Entry = Entry(phys: nat, blockPages: nat)

  /** The pages that a traversal runs over: the first entry may start inside its block. */
  function Walked(entries: seq<Entry>): seq<BlockInfo>
    requires forall e :: e in entries ==> e.blockPages > 0
  {
    seq(|entries|, i requires 0 <= i < |entries| =>
      if i == 0 then BlockInfo(entries[0].phys, entries[0].blockPages - entries[0].phys % entries[0].blockPages)
      else BlockInfo(entries[i].phys, entries[i].blockPages))
  }

  datatype Traversal = Traversal(entries: seq<Entry>) {

    predicate Ok() {
      forall e :: e in entries ==> e.blockPages > 0
    }

    /** The physical pages, in order. */
    function Pages(): seq<nat>
      requires Ok()
    {
      Flatten(Walked(entries))
    }

    /** The current run: `pages` contiguous physical pages from `addr` on, which are the pages walked over
        from page `pos` on; `idx` entries have been consumed. */
    predicate RunAt(pos: nat, addr: nat, pages: nat, idx: nat)
      requires Ok()
    {
      && 0 < idx <= |entries|
      && pos + pages == |Flatten(Walked(entries)[..idx])| <= |Pages()|
      && Pages()[pos..pos + pages] == Run(addr, pages)
    }

    /** The walk fails to begin, or to continue, exactly at the end of its pages. */
    lemma {:induction false} Ends()
      requires Ok()
      ensures entries == [] <==> Pages() == []
      ensures entries != [] ==> |Flatten(Walked(entries)[..|entries|])| == |Pages()|
    {
      assert Walked(entries)[..|entries|] == Walked(entries);
      if entries != [] {
        FirstRun();
      }
    }

    lemma {:induction false} FirstRun()
      requires Ok() && entries != []
      ensures entries[0].blockPages > 0
      ensures RunAt(0, entries[0].phys, entries[0].blockPages - entries[0].phys % entries[0].blockPages, 1)
    {
      var w := Walked(entries);
      assert entries[0] in entries;
      FlattenConcat(w[..1], w[1..]);
      assert w[..1] + w[1..] == w && w[..1] == [w[0]];
      FlattenOne(w[0]);
    }

    /** An entry's pages follow those of the entries before it. */
    lemma {:induction false} EntryPages(idx: nat)
      requires Ok() && 0 < idx < |entries|
      ensures entries[idx].blockPages > 0
      ensures var before, n := |Flatten(Walked(entries)[..idx])|, entries[idx].blockPages;
              && |Flatten(Walked(entries)[..idx + 1])| == before + n <= |Pages()|
              && Pages()[before..before + n] == Run(entries[idx].phys, n)
    {
      var w := Walked(entries);
      assert entries[idx] in entries;
      FlattenConcat(w[..idx], [w[idx]]);
      FlattenOne(w[idx]);
      assert w[..idx + 1] == w[..idx] + [w[idx]];
      FlattenConcat(w[..idx + 1], w[idx + 1..]);
      assert w[..idx + 1] + w[idx + 1..] == w;
    }

    /** The next entry continues the pages walked over. */
    lemma {:induction false} NextRun(pos: nat, addr: nat, pages: nat, idx: nat)
      requires Ok() && RunAt(pos, addr, pages, idx) && (idx < |entries| || pos + pages < |Pages()|)
      ensures idx < |entries| && entries[idx].blockPages > 0
      ensures RunAt(pos + pages, entries[idx].phys, entries[idx].blockPages, idx + 1)
      ensures entries[idx].phys == addr + pages ==> RunAt(pos, addr, pages + entries[idx].blockPages, idx + 1)
    {
      var w := Walked(entries);
      assert w[..|w|] == w;
      EntryPages(idx);
      var n := entries[idx].blockPages;
      var tot := pos + pages;
      if entries[idx].phys == addr + pages {
        RunConcat(addr, pages, n);
        assert Pages()[pos..tot + n] == Pages()[pos..tot] + Pages()[tot..tot + n];
      }
    }

    /** Part of a run leaves a run. */
    lemma {:induction false} RestOfRun(pos: nat, addr: nat, pages: nat, idx: nat, n: nat)
      requires Ok() && RunAt(pos, addr, pages, idx) && n <= pages
      ensures RunAt(pos + n, addr + n, pages - n, idx)
      ensures Pages()[pos..pos + n] == Run(addr, n)
    {
      RunConcat(addr, n, pages - n);
      hide Flatten, Walked;
      SliceOfSlice(Pages(), pos, pos + pages, 0, n);
      SliceOfSlice(Pages(), pos, pos + pages, n, pages);
      assert Run(addr, pages)[0..n] == Run(addr, n) && Run(addr, pages)[n..pages] == Run(addr + n, pages - n);
    }
  }
}
