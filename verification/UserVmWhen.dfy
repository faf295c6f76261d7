/** When mmap and munmap succeed. */
module UserVmWhen {
  import opened Basics
  import opened PhysicalPages
  import opened PageTableFormat
  import opened PageTree
  import opened VmmSpec
  import opened VmmRanges
  import opened VmmWhen
  import opened ProcessSpec
  import opened UserVmSpec

  /** A region is added exactly when it is a range below 2^64 that meets no other, and there are fewer than eight. */
  lemma AddRegionWhen(p: Proc, start: nat, size: nat)
    ensures AddRegion(p, start, size).Some? <==>
              size > 0 && start + size < U64_LIMIT && |p.regions| < 8 && Clear(p.regions, start, start + size)
  {
    if size > 0 && start + size < U64_LIMIT && |p.regions| < 8 {
      assert forall i :: 0 <= i < |p.regions| ==>
        (Overlaps(p.regions[i], start, start + size) <==> !(p.regions[i].end <= start || start + size <= p.regions[i].start));
    }
  }

  /** A place in the mmap window is found exactly when the cursor, on a page, leaves room below the limit, and the place is clear. */
  lemma AllocRegionWhen(p: Proc, n: nat)
    requires p.nextVaddr % 4096 == 0 && n % 4096 == 0
    ensures AllocRegion(p, n).Some? <==>
              n > 0 && p.nextVaddr + n <= MMAP_LIMIT && |p.regions| < 8 && Clear(p.regions, p.nextVaddr, p.nextVaddr + n)
  {
    AddRegionWhen(p, p.nextVaddr, n);
    Up(p.nextVaddr);
    Up(n);
  }

  lemma Up(v: nat)
    requires v % 4096 == 0
    ensures AlignUp(v) == v
  {
  }

  /**
   * An mmap without a hint, of a size and a protection that are allowed, succeeds at the cursor whenever there is a region
   * left, the window has room, nothing is mapped there, and memory has a run of pages for it and three pages a page for tables.
   */
  lemma MapAnonymousSucceeds(r: Ram, s: State, p: Proc, t: Tree, size: nat, prot: Prot, n: nat)
    requires SlotOk(r, s, p, Some(t)) && p.nextVaddr % 4096 == 0
    requires 0 < size <= 4096 * n < size + 4096 && !prot.other && !(prot.write && prot.exec)
    requires |p.regions| < 8 && p.nextVaddr + 4096 * n <= MMAP_LIMIT && Clear(p.regions, p.nextVaddr, p.nextVaddr + 4096 * n)
    requires Unmapped(Mapping(s.mem, p.pageTable), p.nextVaddr, 0, n)
    requires FirstRun(s.free, r.total, n, 0).Some? && |s.free| >= 4 * n
    ensures MapAnonymous(r, s, p, 0, size, prot).0 == Mapped(p.nextVaddr)
  {
    hide Mapping, Live, NoBlocks, MapRange, RegionsOk, Owned, Run, FindRegion, RemoveRegion, AllocRegion, AlignSize, AlignUp, FlagsToVmm,
         Unmapped, NoWriteExec, FirstRun, UndoAnonymous;
    SizeIs(size, n);
    HasTable(r, s, p, t);
    ProtectionMeans(prot, ZERO, 0);
    AllocRegionWhen(p, 4096 * n);
    AllocRegionOk(p, 4096 * n);
    Up(p.nextVaddr);
    MmapRange(p, 4096 * n);
    var page := AllocPagesOk(r, s, n);
    RunPlaced(r, s.free, n);
    var (paddr, s1) := AllocPages(r, s, n);
    FewerPages(s.free, page, n);
    LiveWithFewerFree(r, s, t, p.pageTable, s1.free);
    var _ := MapRangeSucceeds(r, s1, t, p.pageTable, p.nextVaddr, paddr, n, FlagsToVmm(prot).value);
  }

  lemma SizeIs(size: nat, n: nat)
    requires 0 < size <= 4096 * n < size + 4096 && 4096 * n <= MMAP_LIMIT
    ensures AlignSize(size) == 4096 * n
  {
  }

  lemma FewerPages(free: set<nat>, page: nat, n: nat)
    requires Run(page, n) <= free
    ensures |free - Run(page, n)| == |free| - n
  {
    RunSize(page, n);
  }

  /** The pages of a range are all mapped. */
  ghost predicate AllMapped(m: map<nat, Desc>, addr: nat, n: nat) {
    forall j: nat :: j < n ==> Vpn(addr + 4096 * j) in m
  }

  /**
   * A munmap of whole pages below 2^48 succeeds exactly when some region that owns its pages has just those bounds and all
   * its pages are mapped.
   */
  lemma UnmapAnonymousWhen(r: Ram, s: State, p: Proc, t: Tree, addr: nat, size: nat, n: nat)
    requires SlotOk(r, s, p, Some(t)) && addr % 4096 == 0 && 0 < size <= 4096 * n < size + 4096 && addr + 4096 * n <= MMAP_LIMIT
    ensures UnmapAnonymous(r, s, p, addr, size).0 <==>
              && (exists k: nat :: k < |p.regions| && Unmaps(p.regions[k], addr, 4096 * n))
              && AllMapped(Mapping(s.mem, p.pageTable), addr, n)
    ensures (forall k: nat :: k < |p.regions| ==> !Unmaps(p.regions[k], addr, 4096 * n)) ==>
              UnmapAnonymous(r, s, p, addr, size).1 == s && UnmapAnonymous(r, s, p, addr, size).2 == p
  {
    hide Mapping, Live, RegionsOk, Owned, UnmapRange, FreePages, AlignSize, NoWriteExec, AllMapped, FindRegion;
    SizeIs(size, n);
    HasTable(r, s, p, t);
    RegionSearch(r, p, s, t, addr, 4096 * n);
    if k: nat :| k < |p.regions| && Unmaps(p.regions[k], addr, 4096 * n) {
      UnmapPagesWhen(r, s, t, p.pageTable, addr, n);
      FoundRemoved(p, addr, 4096 * n);
    }
  }

  lemma FoundRemoved(p: Proc, start: nat, size: nat)
    requires FindRegion(p, start, size).Some?
    ensures RemoveRegion(p, start, size).Some?
  {
  }

  /** The search finds the region with those bounds, since no two regions share an address. */
  lemma RegionSearch(r: Ram, p: Proc, s: State, t: Tree, addr: nat, n: nat)
    requires SlotOk(r, s, p, Some(t)) && n > 0 && addr + n < U64_LIMIT
    ensures forall k: nat :: k < |p.regions| && Unmaps(p.regions[k], addr, n) ==> FindRegion(p, addr, n) == Some(k)
    ensures FindRegion(p, addr, n).Some? ==>
              var k := FindRegion(p, addr, n).value;
              k < |p.regions| && p.regions[k].start == addr && p.regions[k].end == addr + n
  {
    hide Live, Owned, Mapping, NoWriteExec;
    forall k: nat | k < |p.regions| && Unmaps(p.regions[k], addr, n)
      ensures FindRegion(p, addr, n) == Some(k)
    {
      OneRegion(p.regions, FindFrom(p.regions, addr, addr + n, 0), k);
    }
  }

  lemma OneRegion(regs: seq<Region>, i: nat, k: nat)
    requires PlacesApart(regs) && i < |regs| && k < |regs| && regs[i].start == regs[k].start < regs[k].end == regs[i].end
    ensures i == k
  {
  }

  /** Unmapping whole pages below 2^48 succeeds exactly when all of them are mapped. */
  lemma UnmapPagesWhen(r: Ram, s: State, t: Tree, pgd: nat, addr: nat, n: nat)
    requires Live(r, s, t, pgd) && addr % 4096 == 0 && n > 0 && addr + 4096 * n <= 4096 * VPN_LIMIT
    ensures UnmapRange(s.mem, pgd, addr, 4096 * n).0 <==> AllMapped(Mapping(s.mem, pgd), addr, n)
  {
    hide Mapping, Live, UnmapRange, Vpns, Fits, PageCount, AlignedDown, Firsts, Vpn;
    var m, vs := Mapping(s.mem, pgd), Vpns(addr, n);
    WholeRange(addr, n);
    var done := UnmapRangeOk(r, s, t, pgd, addr, 4096 * n);
    forall j: nat | j < n
      ensures vs[j] == Vpn(addr + 4096 * j) && vs[j] !in Firsts(vs, j)
    {
      VpnsAt(addr, n, j);
      LaterPage(addr, n, j);
    }
    assert AllMapped(m, addr, n) ==> forall j: nat :: j < n ==> vs[j] in m;
    if done == n {
      forall j: nat | j < n
        ensures Vpn(addr + 4096 * j) in m
      {
        assert vs[j] in m - Firsts(vs, j);
      }
    }
  }

  lemma LaterPage(addr: nat, n: nat, j: nat)
    requires addr % 4096 == 0 && j < n && addr + 4096 * n <= 4096 * VPN_LIMIT
    ensures Vpns(addr, n)[j] !in Firsts(Vpns(addr, n), j)
  {
    hide Vpns, Firsts, Vpn;
    var vs := Vpns(addr, n);
    FirstsElements(vs, j);
    VpnsAt(addr, n, j);
    VpnPlain(addr, j);
    forall i: nat | i < j
      ensures vs[i] != vs[j]
    {
      VpnsAt(addr, n, i);
      VpnPlain(addr, i);
    }
  }
}
