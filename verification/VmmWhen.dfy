/** When a mapping succeeds: exactly how many tables it needs, and that nothing but lack of pages stops it. */
module VmmWhen {
  import opened Basics
  import opened PhysicalPages
  import opened PageTableFormat
  import opened PageTree
  import opened VmmSpec
  import opened VmmRanges

  // ----- One page

  /** How many tables the path of `vpn` from `table` on lacks; nothing when a block entry bars it. */
  function Missing(mem: Memory, table: nat, vpn: nat, level: nat): (n: Option<nat>)
    requires level <= 3
    ensures n.Some? ==> n.value <= 3 - level
    decreases 3 - level
  {
    if level == 3 then Some(0)
    else
      var e := Entry(mem, table, Prefix(vpn, level + 1) % 512);
      if !e.valid then Some(3 - level)
      else if e.table then Missing(mem, e.addr, vpn, level + 1)
      else None
  }

  /** A descent succeeds exactly when no block bars its path and the free pages suffice for the tables it lacks. */
  lemma {:induction false} DescendWhen(r: Ram, s: State, t: Tree, pgd: nat, va: nat, level: nat)
    requires Live(r, s, t, pgd) && level <= 3 && OnPath(Vpn(va), level) in t
    ensures var table := Addr(r.base, t[OnPath(Vpn(va), level)]);
            var m := Missing(s.mem, table, Vpn(va), level);
            var (level3, s') := Descend(r, s, table, va, level);
            && (level3 != 0 <==> m.Some? && m.value <= |s.free|)
            && (level3 != 0 ==> |s'.free| == |s.free| - m.value)
    decreases 3 - level
  {
    if level == 3 {
      assert Addr(r.base, t[OnPath(Vpn(va), 3)]) != 0;
      return;
    }
    hide Missing, NextTable, Live, Mapping, Grown, BlockAt;
    var p := OnPath(Vpn(va), level);
    IndexIsDigit(va, level);
    PathStep(Vpn(va), level);
    var m := LevelWhen(r, s, t, pgd, Vpn(va), level);
    var t1 := NextTableOk(r, s, t, pgd, p, Index(va, level));
    var (child, s1) := NextTable(r, s, Addr(r.base, t[p]), Index(va, level));
    if child != 0 {
      DescendWhen(r, s1, t1, pgd, va, level + 1);
    }
  }

  /** One level down takes `m` free pages, none or one, and leaves that much less to do below. */
  lemma LevelWhen(r: Ram, s: State, t: Tree, pgd: nat, vpn: nat, level: nat) returns (m: nat)
    requires Live(r, s, t, pgd) && level < 3 && OnPath(vpn, level) in t
    ensures var table, i := Addr(r.base, t[OnPath(vpn, level)]), Prefix(vpn, level + 1) % 512;
            var (child, s1) := NextTable(r, s, table, i);
            var now := Missing(s.mem, table, vpn, level);
            if child == 0 then now.None? || (now.value > 0 && |s.free| == 0)
            else
              var after := Missing(s1.mem, child, vpn, level + 1);
              (now.Some? <==> after.Some?) && (now.Some? ==> now.value == after.value + m) && |s1.free| == |s.free| - m
  {
    var p, i := OnPath(vpn, level), Prefix(vpn, level + 1) % 512;
    var e := Entry(s.mem, Addr(r.base, t[p]), i);
    m := if e.valid then 0 else 1;
    assert EntryOk(e, t, r.base, Child(p, i));
    assert Child(p, i) in t ==> Addr(r.base, t[Child(p, i)]) != 0;
    if !e.valid {
      FreshChild(r, s, t, pgd, p, i);
      var (child, s1) := NextTable(r, s, Addr(r.base, t[p]), i);
      if child != 0 {
        FreshMissing(s1.mem, child, vpn, level + 1);
      }
    }
    hide NewTable, ZeroTable, Mapping;
  }

  lemma FreshMissing(mem: Memory, table: nat, vpn: nat, level: nat)
    requires level <= 3 && TableAt(mem, table) == ZeroTable()
    ensures Missing(mem, table, vpn, level) == Some(3 - level)
  {
  }

  /** A child made for an empty entry is a zeroed page, and the free pages are one fewer. */
  lemma FreshChild(r: Ram, s: State, t: Tree, pgd: nat, p: Pos, i: nat)
    requires Live(r, s, t, pgd) && p in t && p.level < 3 && i < 512 && !Entry(s.mem, Addr(r.base, t[p]), i).valid
    ensures var (child, s1) := NextTable(r, s, Addr(r.base, t[p]), i);
            && (child == 0 <==> |s.free| == 0)
            && (child != 0 ==> TableAt(s1.mem, child) == ZeroTable() && |s1.free| == |s.free| - 1)
  {
    var page := NewTableOk(r, s);
    hide NewTable, ZeroTable;
    if NewTable(r, s).0 != 0 {
      assert t[p] != page;
      AddrInjective(r.base, t[p], page);
    }
  }

  /**
   * A page is mapped exactly when both addresses are aligned, the page is not mapped yet, no block entry bars its path
   * and there are free pages for the tables the path lacks. It then takes exactly so many.
   */
  lemma MapPageWhen(r: Ram, s: State, t: Tree, pgd: nat, va: nat, pa: nat, flags: Flags)
    requires Live(r, s, t, pgd)
    ensures var m := Missing(s.mem, pgd, Vpn(va), 0);
            var (ok, s') := MapPage(r, s, pgd, va, pa, flags);
            && (ok <==> va % 4096 == 0 && pa % 4096 == 0 && Vpn(va) !in Mapping(s.mem, pgd) && m.Some? && m.value <= |s.free|)
            && (ok ==> |s'.free| == |s.free| - m.value)
  {
    hide Mapping, Descend, Missing;
    if va % 4096 == 0 && pa % 4096 == 0 {
      assert OnPath(Vpn(va), 0) == ROOT;
      DescendWhen(r, s, t, pgd, va, 0);
      var t' := DescendOk(r, s, t, pgd, va, 0);
      var (level3, s1) := Descend(r, s, pgd, va, 0);
      if level3 != 0 {
        MapLeaf(r, s1, t', pgd, va, pa, flags);
      }
    }
  }

  // ----- Trees without blocks

  lemma {:induction false} NoBlocksMissing(r: Ram, s: State, t: Tree, pgd: nat, vpn: nat, level: nat)
    requires Live(r, s, t, pgd) && NoBlocks(s.mem, r.base, t) && level <= 3 && OnPath(vpn, level) in t
    ensures Missing(s.mem, Addr(r.base, t[OnPath(vpn, level)]), vpn, level).Some?
    decreases 3 - level
  {
    if level < 3 {
      var p, i := OnPath(vpn, level), Prefix(vpn, level + 1) % 512;
      PathStep(vpn, level);
      assert EntryOk(s.mem[Addr(r.base, t[p])][i], t, r.base, Child(p, i)) && Linked(s.mem, r.base, t, p, i);
      if Child(p, i) in t {
        NoBlocksMissing(r, s, t, pgd, vpn, level + 1);
      }
    }
  }

  /** In a tree without blocks three free pages and an unmapped page are enough, and no block arises. */
  lemma MapPageSucceeds(r: Ram, s: State, t: Tree, pgd: nat, va: nat, pa: nat, flags: Flags) returns (t': Tree)
    requires Live(r, s, t, pgd) && NoBlocks(s.mem, r.base, t) && |s.free| >= 3
    requires va % 4096 == 0 && pa % 4096 == 0 && Vpn(va) !in Mapping(s.mem, pgd)
    ensures var (ok, s') := MapPage(r, s, pgd, va, pa, flags);
            && ok && Live(r, s', t', pgd) && NoBlocks(s'.mem, r.base, t') && |s'.free| >= |s.free| - 3
            && Mapping(s'.mem, pgd) == Mapping(s.mem, pgd)[Vpn(va) := PageDescriptor(pa, flags)]
  {
    hide Mapping, Descend, NoBlocks;
    assert OnPath(Vpn(va), 0) == ROOT;
    NoBlocksMissing(r, s, t, pgd, Vpn(va), 0);
    MapPageWhen(r, s, t, pgd, va, pa, flags);
    t' := MapPageOk(r, s, t, pgd, va, pa, flags);
  }

  // ----- A range

  /** Below 2^48 page numbers do not wrap. */
  lemma VpnPlain(va: nat, k: nat)
    requires va % 4096 == 0 && va + 4096 * k < 4096 * VPN_LIMIT
    ensures Vpn(va + 4096 * k) == va / 4096 + k
  {
  }

  /** Pages `k`, ..., `n - 1` of a range are not mapped. */
  ghost predicate Unmapped(m: map<nat, Desc>, va: nat, k: nat, n: nat) {
    forall v :: v in m ==> !(va / 4096 + k <= v < va / 4096 + n)
  }

  lemma {:induction false} MapLoopSucceeds(r: Ram, s: State, t: Tree, pgd: nat, va: nat, pa: nat, flags: Flags, k: nat, n: nat)
    returns (t': Tree)
    requires Live(r, s, t, pgd) && NoBlocks(s.mem, r.base, t) && k <= n && |s.free| >= 3 * (n - k)
    requires va % 4096 == 0 && pa % 4096 == 0 && va + 4096 * n <= 4096 * VPN_LIMIT && Unmapped(Mapping(s.mem, pgd), va, k, n)
    ensures var (done, s') := MapLoop(r, s, pgd, va, pa, flags, k, n);
            done == n && Live(r, s', t', pgd) && NoBlocks(s'.mem, r.base, t') && |s'.free| >= |s.free| - 3 * (n - k)
    decreases n - k
  {
    hide Mapping, Live, NoBlocks, MapPage;
    t' := t;
    if k < n {
      VpnPlain(va, k);
      VmmRanges.Aligned(va, k);
      VmmRanges.Aligned(pa, k);
      var t1 := MapPageSucceeds(r, s, t, pgd, va + 4096 * k, pa + 4096 * k, flags);
      t' := MapLoopSucceeds(r, MapPage(r, s, pgd, va + 4096 * k, pa + 4096 * k, flags).1, t1, pgd, va, pa, flags, k + 1, n);
    }
  }

  /** In a tree without blocks, a range below 2^48 that is not mapped is mapped whenever three free pages a page are left. */
  lemma MapRangeSucceeds(r: Ram, s: State, t: Tree, pgd: nat, va: nat, pa: nat, n: nat, flags: Flags) returns (t': Tree)
    requires Live(r, s, t, pgd) && NoBlocks(s.mem, r.base, t) && n > 0 && |s.free| >= 3 * n
    requires va % 4096 == 0 && pa % 4096 == 0 && va + 4096 * n <= 4096 * VPN_LIMIT && pa + 4096 * n < U64_LIMIT
    requires Unmapped(Mapping(s.mem, pgd), va, 0, n)
    ensures var (ok, s') := MapRange(r, s, pgd, va, pa, 4096 * n, flags);
            ok && Live(r, s', t', pgd) && NoBlocks(s'.mem, r.base, t') && |s'.free| >= |s.free| - 3 * n
  {
    WholeRange(va, n);
    WholeRange(pa, n);
    assert pgd != 0 by {
      hide Mapping, NoBlocks;
    }
    hide Mapping, Live, NoBlocks, MapLoop, Fits, PageCount;
    t' := MapLoopSucceeds(r, s, t, pgd, va, pa, flags, 0, n);
  }

  /** A range is treated as the whole pages it touches. */
  lemma RangeOfPages(r: Ram, s: State, pgd: nat, va: nat, pa: nat, size: nat, flags: Flags)
    requires va % 4096 == pa % 4096 && Fits(va, size) && Fits(pa, size)
    ensures var n := PageCount(va, size);
            && n > 0 && AlignedDown(va) + 4096 * n < U64_LIMIT && AlignedDown(pa) + 4096 * n < U64_LIMIT
            && MapRange(r, s, pgd, va, pa, size, flags) == MapRange(r, s, pgd, AlignedDown(va), AlignedDown(pa), 4096 * n, flags)
  {
    var n := PageCount(va, size);
    PageCountIs(va, size);
    WholeRange(AlignedDown(va), n);
    WholeRange(AlignedDown(pa), n);
    hide MapLoop, Rollback, Fits, PageCount;
  }

  /**
   * With pages enough, and no block entries, a range below 2^48 is mapped exactly when both addresses have the same distance
   * from their page, the physical range ends below 2^64 and none of the pages is mapped.
   */
  lemma MapRangeWhen(r: Ram, s: State, t: Tree, pgd: nat, va: nat, pa: nat, size: nat, flags: Flags)
    requires Live(r, s, t, pgd) && NoBlocks(s.mem, r.base, t) && size > 0 && va + size <= 4096 * VPN_LIMIT
    requires |s.free| >= 3 * PageCount(va, size)
    ensures MapRange(r, s, pgd, va, pa, size, flags).0 <==>
              && va % 4096 == pa % 4096 && (pa + size + 4095) / 4096 * 4096 < U64_LIMIT
              && Unmapped(Mapping(s.mem, pgd), AlignedDown(va), 0, PageCount(va, size))
  {
    hide Mapping, Live, NoBlocks, MapRange, Fits, PageCount, AlignedDown, Unmapped;
    FitsIs(va, size);
    FitsIs(pa, size);
    BelowLimit(va, size);
    if MapRange(r, s, pgd, va, pa, size, flags).0 {
      MapRangeNeeds(r, s, pgd, va, pa, size, flags);
      PagesWereNew(r, s, t, pgd, va, pa, size, flags);
    } else if va % 4096 == pa % 4096 && Fits(pa, size) && Unmapped(Mapping(s.mem, pgd), AlignedDown(va), 0, PageCount(va, size)) {
      var n := PageCount(va, size);
      RangeOfPages(r, s, pgd, va, pa, size, flags);
      AlignedDownOk(va);
      AlignedDownOk(pa);
      var _ := MapRangeSucceeds(r, s, t, pgd, AlignedDown(va), AlignedDown(pa), n, flags);
    }
  }

  lemma BelowLimit(va: nat, size: nat)
    requires size > 0 && va + size <= 4096 * VPN_LIMIT
    ensures Fits(va, size) && AlignedDown(va) + 4096 * PageCount(va, size) <= 4096 * VPN_LIMIT
  {
    FitsIs(va, size);
    PageCountIs(va, size);
  }

  lemma PagesWereNew(r: Ram, s: State, t: Tree, pgd: nat, va: nat, pa: nat, size: nat, flags: Flags)
    requires Live(r, s, t, pgd) && size > 0 && va + size <= 4096 * VPN_LIMIT && MapRange(r, s, pgd, va, pa, size, flags).0
    ensures Unmapped(Mapping(s.mem, pgd), AlignedDown(va), 0, PageCount(va, size))
  {
    hide Mapping, Live, MapRange, Vpns, Descs, Bind, Grown, Fits, PageCount, Firsts;
    var m, n, a := Mapping(s.mem, pgd), PageCount(va, size), AlignedDown(va);
    var _ := MapRangeOk(r, s, t, pgd, va, pa, size, flags);
    BelowLimit(va, size);
    AlignedDownOk(va);
    forall v: nat | a / 4096 <= v < a / 4096 + n
      ensures v !in m
    {
      var k := v - a / 4096;
      VpnPlain(a, k);
      VpnsAt(a, n, k);
      assert Vpns(a, n)[k] !in m;
    }
  }

  lemma WholeRange(a: nat, n: nat)
    requires a % 4096 == 0 && n > 0 && a + 4096 * n < U64_LIMIT
    ensures Fits(a, 4096 * n) && PageCount(a, 4096 * n) == n && AlignedDown(a) == a
  {
  }
}
