/** Page tables as maps from virtual to physical pages; `Operate` is a change of the map that can run out of memory. */
module PageTables {
  import opened PageGroups

  type Table = map<nat, nat>

  predicate InRange(v: nat, va: nat, n: nat) {
    va <= v < va + n
  }

  /** `phys` mapped from virtual page `va` on. */
  function Mapped(t: Table, va: nat, phys: seq<nat>): Table {
    t + map v: nat | va <= v < va + |phys| && InRange(v, va, |phys|) :: phys[v - va]
  }

  /** The pages `[va, va + n)` unmapped. */
  function Cut(t: Table, va: nat, n: nat): Table {
    map v | v in t && !InRange(v, va, n) :: t[v]
  }

  lemma {:induction false} MappedConcat(t: Table, va: nat, a: seq<nat>, b: seq<nat>)
    ensures Mapped(Mapped(t, va, a), va + |a|, b) == Mapped(t, va, a + b)
  {
  }

  predicate Unmapped(t: Table, va: nat, n: nat) {
    forall v :: va <= v < va + n ==> v !in t
  }

  lemma {:induction false} UnmapMapped(t: Table, va: nat, phys: seq<nat>)
    requires Unmapped(t, va, |phys|)
    ensures Cut(Mapped(t, va, phys), va, |phys|) == t
  {
  }

  /** A page table whose `Operate` can run out of memory: `budget` more mappings will succeed. */
  class PageTable {
    var table: Table
    var budget: nat

    /** `Operate` with `OperationType_Map`. */
    method Map(va: nat, n: nat, phys: nat) returns (ok: bool)
      modifies this
      ensures ok ==> table == Mapped(old(table), va, Run(phys, n))
      ensures !ok ==> table == old(table)
      ensures ok <==> old(budget) > 0
      ensures budget == if ok then old(budget) - 1 else 0
    {
      if budget == 0 {
        return false;
      }
      budget := budget - 1;
      table := Mapped(table, va, Run(phys, n));
      return true;
    }

    /** `Operate` with `OperationType_ChangePermissions`: the mapping stays, but splitting large
        translation blocks takes memory. */
    method ChangePermissions(va: nat, n: nat) returns (ok: bool)
      modifies this`budget
      ensures ok <==> old(budget) > 0
      ensures budget == if ok then old(budget) - 1 else 0
    {
      ok := budget > 0;
      if ok {
        budget := budget - 1;
      }
    }

    /** `Operate` with `OperationType_Unmap` without a page list to reuse: it may have to split translation blocks. */
    method TryUnmap(va: nat, n: nat) returns (ok: bool)
      modifies this
      ensures table == if ok then Cut(old(table), va, n) else old(table)
      ensures ok <==> old(budget) > 0
      ensures budget == if ok then old(budget) - 1 else 0
    {
      ok := budget > 0;
      if ok {
        budget := budget - 1;
        table := Cut(table, va, n);
      }
    }

    /** `Operate` with `OperationType_Map` and reused page list: cannot fail. */
    method Remap(va: nat, n: nat, phys: nat)
      modifies this`table
      ensures table == Mapped(old(table), va, Run(phys, n))
    {
      table := Mapped(table, va, Run(phys, n));
    }

    /** `Operate` with `OperationType_Unmap` and reused page list: cannot fail. */
    method Unmap(va: nat, n: nat)
      modifies this`table
      ensures table == Cut(old(table), va, n)
    {
      table := Cut(table, va, n);
    }
  }

  /** `MapPageGroupImpl`: maps the blocks of a group one after the other; on failure what was mapped is unmapped. */
  method MapPageGroup(pt: PageTable, va: nat, blocks: seq<BlockInfo>) returns (ok: bool)
    requires Unmapped(pt.table, va, |Flatten(blocks)|)
    modifies pt
    ensures pt.table == if ok then Mapped(old(pt.table), va, Flatten(blocks)) else old(pt.table)
    ensures if ok then pt.budget + |blocks| == old(pt.budget) else old(pt.budget) < |blocks|
  {
    hide Mapped, Cut;
    ghost var t := pt.table;
    var cur: nat := 0;
    assert Mapped(t, va, []) == t by {
      MappedNothing(t, va);
    }
    for i := 0 to |blocks|
      invariant cur == |Flatten(blocks[..i])| <= |Flatten(blocks)|
      invariant pt.table == Mapped(t, va, Flatten(blocks[..i])) && pt.budget + i == old(pt.budget)
    {
      var done, b := Flatten(blocks[..i]), blocks[i];
      ok := pt.Map(va + cur, b.pages, b.addr);
      if !ok {
        UnmapMapped(t, va, done);
        pt.Unmap(va, cur);
        return;
      }
      FlattenConcat(blocks[..i], [b]);
      FlattenOne(b);
      assert blocks[..i + 1] == blocks[..i] + [b];
      FlattenConcat(blocks[..i + 1], blocks[i + 1..]);
      assert blocks[..i + 1] + blocks[i + 1..] == blocks;
      MappedConcat(t, va, done, Run(b.addr, b.pages));
      cur := cur + b.pages;
    }
    assert blocks[..|blocks|] == blocks;
    ok := true;
  }

  lemma {:induction false} MappedNothing(t: Table, va: nat)
    ensures Mapped(t, va, []) == t
  {
  }
}
