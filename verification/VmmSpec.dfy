/** What each page-table operation does to memory and to the free pages, and what that means. */
module VmmSpec {
  import opened Basics
  import opened PhysicalPages
  import opened PageTableFormat
  import opened PageTree

  /** The allocator's range, fixed at boot, and the pages that circulate between the free set and the processes. */
  datatype Ram = Ram(base: nat, total: nat, pool: set<nat>)

  /** Table memory and the set of free page indices. */
  datatype State = State(mem: Memory, free: set<nat>)

  /** Descriptors can hold every managed address, and address 0 is never handed out. */
  ghost predicate RamOk(r: Ram, free: set<nat>) {
    && r.base % 4096 == 0
    && r.base + r.total * 4096 <= ADDRESS_LIMIT
    && (forall p :: p in free ==> p < r.total)
    && (r.base == 0 ==> 0 !in free)
  }

  /** `t` is the live tree below `pgd`: the right shape, distinct pages, all marked used. */
  ghost predicate Live(r: Ram, s: State, t: Tree, pgd: nat) {
    && RamOk(r, s.free)
    && Shape(s.mem, r.base, t, pgd)
    && Marked(t, r.total, s.free)
  }

  /** A tree grew by tables taken from the free pages, none of it is a block, and nothing else moved. */
  ghost predicate Grown(r: Ram, s: State, t: Tree, s': State, t': Tree) {
    && (forall q :: q in t ==> q in t' && t'[q] == t[q])
    && Pages(t) <= Pages(t') <= Pages(t) + s.free
    && s'.free == s.free - Pages(t')
    && Kept(s.mem, s'.mem, r.base, Pages(t'))
    && NoNewBlocks(r.base, s.mem, t, s'.mem, t')
  }

  ghost predicate NoNewBlocks(base: nat, mem: Memory, t: Tree, mem': Memory, t': Tree) {
    NoBlocks(mem, base, t) ==> NoBlocks(mem', base, t')
  }

  lemma GrownTrans(r: Ram, s0: State, t0: Tree, s1: State, t1: Tree, s2: State, t2: Tree)
    requires Grown(r, s0, t0, s1, t1) && Grown(r, s1, t1, s2, t2)
    ensures Grown(r, s0, t0, s2, t2)
  {
  }

  // ----- Allocation and descent

  function NewTable(r: Ram, s: State): (nat, State) {
    match FirstRun(s.free, r.total, 1, 0)
    case None => (0, s)
    case Some(page) =>
      if Addr(r.base, page) == 0 then (0, s.(free := s.free - {page}))
      else (Addr(r.base, page), State(s.mem[Addr(r.base, page) := ZeroTable()], s.free - {page}))
  }

  function NextTable(r: Ram, s: State, table: nat, i: nat): (nat, State)
    requires i < 512
  {
    var e := Entry(s.mem, table, i);
    if e.valid then (if e.table then e.addr else 0, s)
    else
      var (child, s1) := NewTable(r, s);
      if child == 0 then (0, s1)
      else (child, s1.(mem := Store(s1.mem, table, i, TableDesc(child))))
  }

  /** The three descending steps of a mapping; 0 when one of them fails. */
  function Descend(r: Ram, s: State, table: nat, va: nat, level: nat): (nat, State)
    requires level <= 3
    decreases 3 - level
  {
    if level == 3 then (table, s)
    else
      var (child, s1) := NextTable(r, s, table, Index(va, level));
      if child == 0 then (0, s1) else Descend(r, s1, child, va, level + 1)
  }

  function MapPage(r: Ram, s: State, pgd: nat, va: nat, pa: nat, flags: Flags): (bool, State) {
    if pgd == 0 || va % 4096 != 0 || pa % 4096 != 0 then (false, s)
    else
      var (level3, s1) := Descend(r, s, pgd, va, 0);
      if level3 == 0 || Entry(s1.mem, level3, Index(va, 3)).valid then (false, s1)
      else (true, s1.(mem := Store(s1.mem, level3, Index(va, 3), PageDescriptor(pa, flags))))
  }

  function UnmapPage(mem: Memory, pgd: nat, va: nat): (bool, Memory) {
    if pgd == 0 || va % 4096 != 0 then (false, mem)
    else
      match Walk(mem, pgd, Vpn(va), 0)
      case None => (false, mem)
      case Some(level3) =>
        if level3 == 0 || !Entry(mem, level3, Index(va, 3)).valid then (false, mem)
        else (true, Store(mem, level3, Index(va, 3), ZERO))
  }

  /** A fresh table comes from the free pages; there is none only when no page is free. */
  lemma NewTableOk(r: Ram, s: State) returns (page: nat)
    requires RamOk(r, s.free)
    ensures var (child, s') := NewTable(r, s);
            if child == 0 then s' == s && s.free == {}
            else page in s.free && child == Addr(r.base, page)
                 && s' == State(s.mem[child := ZeroTable()], s.free - {page})
  {
    FirstRunIsLowest(s.free, r.total, 1, 0);
    match FirstRun(s.free, r.total, 1, 0)
    case None =>
      page := 0;
      assert forall q: nat :: q in s.free ==> IsRun(s.free, q, 1);
      assert s.free == {};
    case Some(p) =>
      page := p;
      assert p in s.free;
  }

  /** A valid entry above level 3 that is not a table, which no descent can pass. */
  ghost predicate BlockAt(mem: Memory, base: nat, t: Tree, p: Pos, i: nat)
    requires i < 512
  {
    p in t && Entry(mem, Addr(base, t[p]), i).valid && !Entry(mem, Addr(base, t[p]), i).table
  }

  ghost predicate BlockOnPath(mem: Memory, base: nat, t: Tree, vpn: nat) {
    exists level: nat :: level < 3 && BlockAt(mem, base, t, OnPath(vpn, level), Prefix(vpn, level + 1) % 512)
  }

  lemma {:induction false} NextTableOk(r: Ram, s: State, t: Tree, pgd: nat, p: Pos, i: nat) returns (t': Tree)
    requires Live(r, s, t, pgd) && p in t && p.level < 3 && i < 512
    ensures var (child, s') := NextTable(r, s, Addr(r.base, t[p]), i);
            && Live(r, s', t', pgd) && Grown(r, s, t, s', t')
            && Mapping(s'.mem, pgd) == Mapping(s.mem, pgd)
            && (if child == 0 then s'.free == {} || BlockAt(s'.mem, r.base, t', p, i)
                else Child(p, i) in t' && child == Addr(r.base, t'[Child(p, i)]))
  {
    t' := t;
    var e := Entry(s.mem, Addr(r.base, t[p]), i);
    assert EntryOk(e, t, r.base, Child(p, i));
    if !e.valid {
      var page := NewTableOk(r, s);
      var (child, s1) := NewTable(r, s);
      if child != 0 {
        t' := t[Child(p, i) := page];
        GrowTree(r, s, t, pgd, p, i, page, Store(s1.mem, Addr(r.base, t[p]), i, TableDesc(child)), t');
      }
    }
  }

  /** Everything that linking one fresh table does to a live tree. */
  lemma GrowTree(r: Ram, s: State, t: Tree, pgd: nat, p: Pos, i: nat, page: nat, mem': Memory, t': Tree)
    requires Live(r, s, t, pgd)
    requires p in t && p.level < 3 && i < 512 && Child(p, i) !in t
    requires page in s.free && Addr(r.base, page) != 0
    requires t' == t[Child(p, i) := page]
    requires mem' == Store(s.mem[Addr(r.base, page) := ZeroTable()], Addr(r.base, t[p]), i,
                           TableDesc(Addr(r.base, page)))
    ensures Live(r, State(mem', s.free - {page}), t', pgd)
    ensures Grown(r, s, t, State(mem', s.free - {page}), t')
    ensures Mapping(mem', pgd) == Mapping(s.mem, pgd)
  {
    hide Mapping, Kept, ZeroTable, Shape, TableDesc, Addr, NoBlocks;
    PageAddress(r, s, page);
    MarkedFresh(t, r.total, s.free, page);
    if NoBlocks(s.mem, r.base, t) {
      GrowNoBlocks(s.mem, r.base, t, pgd, p, i, page);
    }
    GrownShape(r, s, t, pgd, p, i, page, mem', t');
    GrownPages(t, p, i, page, t');
    GrownKept(r, s, t, p, i, page, mem', t');
    hide Pages, Store;
  }

  lemma GrownShape(r: Ram, s: State, t: Tree, pgd: nat, p: Pos, i: nat, page: nat, mem': Memory, t': Tree)
    requires Shape(s.mem, r.base, t, pgd) && p in t && p.level < 3 && i < 512 && Child(p, i) !in t && page !in t.Values
    requires Addr(r.base, page) % 4096 == 0 && 0 < Addr(r.base, page) < ADDRESS_LIMIT && t' == t[Child(p, i) := page]
    requires mem' == Store(s.mem[Addr(r.base, page) := ZeroTable()], Addr(r.base, t[p]), i, TableDesc(Addr(r.base, page)))
    ensures Shape(mem', r.base, t', pgd) && Mapping(mem', pgd) == Mapping(s.mem, pgd)
  {
    hide Mapping, ZeroTable, TableDesc;
    AddTable(s.mem, r.base, t, pgd, p, i, page, mem', t');
  }

  lemma PageAddress(r: Ram, s: State, page: nat)
    requires RamOk(r, s.free) && page in s.free && Addr(r.base, page) != 0
    ensures Addr(r.base, page) % 4096 == 0 && 0 < Addr(r.base, page) < ADDRESS_LIMIT
  {
  }

  lemma MarkedFresh(t: Tree, total: nat, free: set<nat>, page: nat)
    requires Marked(t, total, free) && page in free
    ensures page !in t.Values
  {
  }

  lemma GrownPages(t: Tree, p: Pos, i: nat, page: nat, t': Tree)
    requires p in t && Child(p, i) !in t && t' == t[Child(p, i) := page]
    ensures Pages(t') == Pages(t) + {page}
  {
    assert t'[Child(p, i)] == page;
    assert forall q :: q in t ==> q in t' && t'[q] == t[q];
  }

  lemma GrownKept(r: Ram, s: State, t: Tree, p: Pos, i: nat, page: nat, mem': Memory, t': Tree)
    requires p in t && i < 512 && Pages(t') == Pages(t) + {page}
    requires mem' == Store(s.mem[Addr(r.base, page) := ZeroTable()], Addr(r.base, t[p]), i,
                           TableDesc(Addr(r.base, page)))
    ensures Kept(s.mem, mem', r.base, Pages(t'))
  {
    assert t[p] in Pages(t);
    forall x: nat | x !in Pages(t') && Addr(r.base, x) in s.mem
      ensures Addr(r.base, x) in mem' && mem'[Addr(r.base, x)] == s.mem[Addr(r.base, x)]
    {
      AddrInjective(r.base, x, page);
      AddrInjective(r.base, x, t[p]);
    }
  }

  /** Descending allocates tables on the path and changes no translation. */
  lemma {:induction false} DescendOk(r: Ram, s: State, t: Tree, pgd: nat, va: nat, level: nat) returns (t': Tree)
    requires Live(r, s, t, pgd) && level <= 3 && OnPath(Vpn(va), level) in t
    ensures var (level3, s') := Descend(r, s, Addr(r.base, t[OnPath(Vpn(va), level)]), va, level);
            && Live(r, s', t', pgd) && Grown(r, s, t, s', t')
            && Mapping(s'.mem, pgd) == Mapping(s.mem, pgd)
            && (if level3 == 0 then s'.free == {} || BlockOnPath(s'.mem, r.base, t', Vpn(va))
                else OnPath(Vpn(va), 3) in t' && level3 == Addr(r.base, t'[OnPath(Vpn(va), 3)]))
    decreases 3 - level
  {
    t' := t;
    if level < 3 {
      var p := OnPath(Vpn(va), level);
      IndexIsDigit(va, level);
      PathStep(Vpn(va), level);
      var t1 := NextTableOk(r, s, t, pgd, p, Index(va, level));
      var (child, s1) := NextTable(r, s, Addr(r.base, t[p]), Index(va, level));
      t' := t1;
      if child != 0 {
        t' := DescendOk(r, s1, t1, pgd, va, level + 1);
        var (_, s2) := Descend(r, s1, child, va, level + 1);
        GrownTrans(r, s, t, s1, t1, s2, t');
      }
    }
  }

  /**
   * Mapping one page: success adds exactly one binding, failure adds none even when
   * it has allocated child tables, and every page stays in a tree of distinct used pages.
   */
  lemma MapPageOk(r: Ram, s: State, t: Tree, pgd: nat, va: nat, pa: nat, flags: Flags) returns (t': Tree)
    requires Live(r, s, t, pgd)
    ensures var (ok, s') := MapPage(r, s, pgd, va, pa, flags);
            && Live(r, s', t', pgd) && Grown(r, s, t, s', t')
            && Mapping(s'.mem, pgd)
               == (if ok then Mapping(s.mem, pgd)[Vpn(va) := PageDescriptor(pa, flags)] else Mapping(s.mem, pgd))
            && (ok ==> Vpn(va) !in Mapping(s.mem, pgd))
            && (ok && pa < ADDRESS_LIMIT ==> Grants(Mapping(s'.mem, pgd)[Vpn(va)], pa, flags))
            && (!ok ==> va % 4096 != 0 || pa % 4096 != 0 || Vpn(va) in Mapping(s.mem, pgd)
                        || s'.free == {} || BlockOnPath(s'.mem, r.base, t', Vpn(va)))
  {
    t' := t;
    if va % 4096 == 0 && pa % 4096 == 0 {
      assert OnPath(Vpn(va), 0) == ROOT;
      t' := DescendOk(r, s, t, pgd, va, 0);
      var (level3, s1) := Descend(r, s, pgd, va, 0);
      if level3 != 0 {
        MapLeaf(r, s1, t', pgd, va, pa, flags);
        GrownLeaf(r, s, t, s1, t', pgd, va, PageDescriptor(pa, flags));
        if pa < ADDRESS_LIMIT {
          DescriptorGrants(pa, flags);
        }
      }
    }
  }

  lemma MapLeaf(r: Ram, s: State, t: Tree, pgd: nat, va: nat, pa: nat, flags: Flags)
    requires Live(r, s, t, pgd) && OnPath(Vpn(va), 3) in t
    ensures var leaf := Addr(r.base, t[OnPath(Vpn(va), 3)]);
            var mem' := Store(s.mem, leaf, Index(va, 3), PageDescriptor(pa, flags));
            && (Entry(s.mem, leaf, Index(va, 3)).valid <==> Vpn(va) in Mapping(s.mem, pgd))
            && Live(r, s.(mem := mem'), t, pgd)
            && Mapping(mem', pgd) == Mapping(s.mem, pgd)[Vpn(va) := PageDescriptor(pa, flags)]
  {
    IndexIsDigit(va, 3);
    LookupIsLeaf(s.mem, r.base, t, pgd, Vpn(va));
    var leaf := Addr(r.base, t[OnPath(Vpn(va), 3)]);
    SetLeaf(s.mem, r.base, t, pgd, Vpn(va), PageDescriptor(pa, flags),
            Store(s.mem, leaf, Index(va, 3), PageDescriptor(pa, flags)));
  }

  lemma GrownLeaf(r: Ram, s: State, t: Tree, s1: State, t': Tree, pgd: nat, va: nat, d: Desc)
    requires Live(r, s1, t', pgd) && Grown(r, s, t, s1, t') && OnPath(Vpn(va), 3) in t'
    ensures Grown(r, s, t, s1.(mem := Store(s1.mem, Addr(r.base, t'[OnPath(Vpn(va), 3)]), Index(va, 3), d)), t')
  {
    hide Shape, NoBlocks;
    var page := t'[OnPath(Vpn(va), 3)];
    assert page in Pages(t');
    if NoBlocks(s1.mem, r.base, t') {
      LeafNoBlocks(s1.mem, r.base, t', pgd, Vpn(va), Index(va, 3), d);
    }
    forall x: nat | x !in Pages(t')
      ensures Addr(r.base, x) != Addr(r.base, page)
    {
      AddrInjective(r.base, x, page);
    }
  }

  /** Unmapping succeeds exactly on mapped pages and removes exactly that binding. */
  lemma UnmapPageOk(r: Ram, s: State, t: Tree, pgd: nat, va: nat)
    requires Live(r, s, t, pgd)
    ensures var (ok, mem') := UnmapPage(s.mem, pgd, va);
            && Live(r, s.(mem := mem'), t, pgd)
            && (ok <==> va % 4096 == 0 && Vpn(va) in Mapping(s.mem, pgd))
            && Mapping(mem', pgd) == (if ok then Mapping(s.mem, pgd) - {Vpn(va)} else Mapping(s.mem, pgd))
            && Kept(s.mem, mem', r.base, Pages(t)) && NoNewBlocks(r.base, s.mem, t, mem', t)
  {
    hide NoBlocks;
    if va % 4096 == 0 {
      var vpn := Vpn(va);
      IndexIsDigit(va, 3);
      LookupIsLeaf(s.mem, r.base, t, pgd, vpn);
      assert OnPath(vpn, 0) == ROOT;
      WalkFollowsTree(s.mem, r.base, t, vpn, 0);
      if OnPath(vpn, 3) in t {
        var page := t[OnPath(vpn, 3)];
        SetLeaf(s.mem, r.base, t, pgd, vpn, ZERO, Store(s.mem, Addr(r.base, page), Index(va, 3), ZERO));
        assert page in Pages(t);
        if NoBlocks(s.mem, r.base, t) {
          LeafNoBlocks(s.mem, r.base, t, pgd, vpn, Index(va, 3), ZERO);
        }
        forall x: nat | x !in Pages(t)
          ensures Addr(r.base, x) != Addr(r.base, page)
        {
          AddrInjective(r.base, x, page);
        }
      }
    }
  }
}
