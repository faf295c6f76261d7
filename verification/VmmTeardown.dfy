/** Releasing a whole translation tree gives back exactly its table pages. */
module VmmTeardown {
  import opened PhysicalPages
  import opened PageTableFormat
  import opened PageTree
  import opened VmmSpec

  /** `pmm_free_page` on the set of free page indices. */
  function FreePage(r: Ram, free: set<nat>, paddr: nat): set<nat> {
    if paddr < r.base || paddr % 4096 != 0 || (paddr - r.base) / 4096 >= r.total then free
    else free + {(paddr - r.base) / 4096}
  }

  /** `free_table_level`: the children first, then the table itself. */
  function FreeLevel(r: Ram, mem: Memory, free: set<nat>, table: nat, level: nat): set<nat>
    requires level <= 3
    decreases 3 - level, 513
  {
    if table == 0 then free
    else FreePage(r, if level < 3 then FreeEntries(r, mem, free, table, level, 0) else free, table)
  }

  function FreeEntries(r: Ram, mem: Memory, free: set<nat>, table: nat, level: nat, i: nat): set<nat>
    requires level < 3 && i <= 512
    decreases 3 - level, 512 - i
  {
    if i == 512 then free
    else
      var e := Entry(mem, table, i);
      var free1 := if e.valid && e.table then FreeLevel(r, mem, free, e.addr, level + 1) else free;
      FreeEntries(r, mem, free1, table, level, i + 1)
  }

  lemma FreeLevelStep(r: Ram, mem: Memory, free: set<nat>, table: nat, level: nat)
    requires level <= 3
    ensures FreeLevel(r, mem, free, table, level)
         == if table == 0 then free
            else FreePage(r, if level < 3 then FreeEntries(r, mem, free, table, level, 0) else free, table)
  {
  }

  lemma FreeEntriesStep(r: Ram, mem: Memory, free: set<nat>, table: nat, level: nat, i: nat)
    requires level < 3 && i < 512
    ensures FreeEntries(r, mem, free, table, level, i)
         == var e := Entry(mem, table, i);
            FreeEntries(r, mem, if e.valid && e.table then FreeLevel(r, mem, free, e.addr, level + 1) else free,
                        table, level, i + 1)
  {
  }

  lemma FreeEntriesEnd(r: Ram, mem: Memory, free: set<nat>, table: nat, level: nat)
    requires level < 3
    ensures FreeEntries(r, mem, free, table, level, 512) == free
  {
  }

  /** The place above `q` at level `level`. */
  function Above(q: Pos, level: nat): Pos
    decreases q.level
  {
    if q.level <= level then q else Above(Parent(q), level)
  }

  predicate IsBelow(q: Pos, p: Pos) {
    q.level >= p.level && Above(q, p.level) == p
  }

  predicate IsBelowChild(q: Pos, p: Pos, i: nat) {
    exists k: nat :: k < i && IsBelow(q, Child(p, k))
  }

  /** The tables at or below `p`. */
  ghost function Below(t: Tree, p: Pos): set<nat> {
    set q | q in t && IsBelow(q, p) :: t[q]
  }

  /** The tables at or below the first `i` children of `p`. */
  ghost function BelowChildren(t: Tree, p: Pos, i: nat): set<nat> {
    set q | q in t && IsBelowChild(q, p, i) :: t[q]
  }

  lemma {:induction false} AboveStep(t: Tree, q: Pos, level: nat)
    requires Places(t) && q in t && level < q.level
    ensures Above(q, level + 1) in t && Above(q, level + 1).level == level + 1
    ensures Above(q, level) == Parent(Above(q, level + 1))
    decreases q.level
  {
    if q.level > level + 1 {
      AboveStep(t, Parent(q), level);
    }
  }

  /** One more child adds exactly the tables at or below it, and none if there is no such child. */
  lemma NextChild(t: Tree, p: Pos, i: nat)
    requires Places(t)
    ensures BelowChildren(t, p, i + 1) == BelowChildren(t, p, i) + Below(t, Child(p, i))
    ensures Child(p, i) !in t ==> Below(t, Child(p, i)) == {}
  {
    hide IsBelow, Places;
    assert forall q :: IsBelowChild(q, p, i + 1) <==> IsBelowChild(q, p, i) || IsBelow(q, Child(p, i));
    forall q | q in t && IsBelow(q, Child(p, i))
      ensures Child(p, i) in t
    {
      BelowInTree(t, q, p, i);
    }
  }

  lemma BelowInTree(t: Tree, q: Pos, p: Pos, i: nat)
    requires Places(t) && q in t && IsBelow(q, Child(p, i))
    ensures Child(p, i) in t
  {
    AboveStep(t, q, p.level);
  }

  lemma BelowSplit(t: Tree, q: Pos, p: Pos)
    requires Places(t) && q in t && p.level < 3
    ensures IsBelow(q, p) <==> q == p || IsBelowChild(q, p, 512)
  {
    if q.level > p.level {
      AboveStep(t, q, p.level);
      var c := Above(q, p.level + 1);
      if IsBelow(q, p) {
        assert IsBelow(q, Child(p, c.prefix % 512));
      }
    }
  }

  lemma AllChildren(t: Tree, p: Pos)
    requires Places(t) && p in t && p.level < 3
    ensures Below(t, p) == BelowChildren(t, p, 512) + {t[p]}
  {
    hide IsBelow, IsBelowChild;
    forall q | q in t
      ensures IsBelow(q, p) <==> q == p || IsBelowChild(q, p, 512)
    {
      BelowSplit(t, q, p);
    }
  }

  lemma LeafBelow(t: Tree, p: Pos)
    requires Places(t) && p in t && p.level == 3
    ensures Below(t, p) == {t[p]}
  {
    assert forall q :: q in t && IsBelow(q, p) ==> q == p;
    assert IsBelow(p, p);
  }

  lemma NoChildren(t: Tree, p: Pos)
    ensures BelowChildren(t, p, 0) == {}
  {
  }

  lemma FreeMarked(r: Ram, free: set<nat>, page: nat)
    requires r.base % 4096 == 0 && page < r.total
    ensures FreePage(r, free, Addr(r.base, page)) == free + {page}
  {
  }

  /** Freeing a table frees exactly the tables at or below it. */
  lemma {:induction false} FreeLevelOk(r: Ram, s: State, free: set<nat>, t: Tree, pgd: nat, p: Pos)
    requires Live(r, s, t, pgd) && p in t
    ensures FreeLevel(r, s.mem, free, Addr(r.base, t[p]), p.level) == free + Below(t, p)
    decreases 3 - p.level, 513
  {
    hide Below, BelowChildren, FreePage;
    if p.level < 3 {
      AllChildren(t, p);
      NoChildren(t, p);
      FreeEntriesOk(r, s, free, t, pgd, p, 0);
      FreeMarked(r, free + BelowChildren(t, p, 512), t[p]);
    } else {
      LeafBelow(t, p);
      FreeMarked(r, free, t[p]);
    }
  }

  lemma {:induction false} FreeEntriesOk(r: Ram, s: State, free: set<nat>, t: Tree, pgd: nat, p: Pos, i: nat)
    requires Live(r, s, t, pgd) && p in t && p.level < 3 && i <= 512
    requires BelowChildren(t, p, i) <= free
    ensures FreeEntries(r, s.mem, free, Addr(r.base, t[p]), p.level, i) == free + BelowChildren(t, p, 512)
    decreases 3 - p.level, 512 - i
  {
    hide Below, BelowChildren;
    if i < 512 {
      assert EntryOk(Entry(s.mem, Addr(r.base, t[p]), i), t, r.base, Child(p, i));
      NextChild(t, p, i);
      MoreChildren(t, p, i + 1, 512);
      if Child(p, i) in t {
        FreeLevelOk(r, s, free, t, pgd, Child(p, i));
        FreeEntriesOk(r, s, free + Below(t, Child(p, i)), t, pgd, p, i + 1);
      } else {
        FreeEntriesOk(r, s, free, t, pgd, p, i + 1);
      }
    }
  }

  lemma MoreChildren(t: Tree, p: Pos, i: nat, j: nat)
    requires i <= j
    ensures BelowChildren(t, p, i) <= BelowChildren(t, p, j)
  {
    hide IsBelow;
    assert forall q :: IsBelowChild(q, p, i) ==> IsBelowChild(q, p, j);
  }

  /** Teardown returns exactly the tree's pages to the allocator. */
  lemma FreeTableOk(r: Ram, s: State, t: Tree, pgd: nat)
    requires Live(r, s, t, pgd)
    ensures FreeLevel(r, s.mem, s.free, pgd, 0) == s.free + Pages(t)
  {
    FreeLevelOk(r, s, s.free, t, pgd, ROOT);
    RootBelow(t);
  }

  lemma RootBelow(t: Tree)
    requires Places(t)
    ensures Below(t, ROOT) == Pages(t)
  {
    forall q | q in t
      ensures IsBelow(q, ROOT)
    {
      AboveRoot(t, q);
    }
  }

  lemma {:induction false} AboveRoot(t: Tree, q: Pos)
    requires Places(t) && q in t
    ensures Above(q, 0) == ROOT
    decreases q.level
  {
    if q.level > 0 {
      AboveRoot(t, Parent(q));
    }
  }
}
