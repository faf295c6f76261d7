/** Anonymous user mappings: what mmap and munmap do to one process, and what they keep. */
module UserVmSpec {
  import opened Basics
  import opened PhysicalPages
  import opened PageTableFormat
  import opened PageTree
  import opened VmmSpec
  import opened VmmRanges
  import opened VmmTeardown
  import opened ProcessSpec

  /** The protection bits of a request; `other` stands for any bit outside the supported three. */
  datatype Prot = Prot(read: bool, write: bool, exec: bool, other: bool)

  datatype MapResult = Mapped(addr: nat) | Invalid | NoMemory

  function FlagsToVmm(f: Prot): Option<Flags> {
    if f.other then None
    else
      var g := if f == Prot(false, false, false, false) then Prot(true, true, false, false) else f;
      if g.write && g.exec then None
      else Some(Flags(read := g.write || g.read, write := g.write, exec := g.exec, device := false, user := true))
  }

  /**
   * A page for user mode under a protection: always readable, writable when that was asked for or nothing was,
   * executable when that was asked for, and never executable by the kernel.
   */
  predicate Allows(d: Desc, pa: nat, prot: Prot) {
    && d.addr == pa && !d.device && UserReads(d) && !KernelExecutes(d)
    && (UserWrites(d) <==> prot.write || prot == Prot(false, false, false, false))
    && (UserExecutes(d) <==> prot.exec)
  }

  /** A protection is refused just when it has unknown bits or asks for writing and executing; any other is granted as asked. */
  lemma ProtectionMeans(prot: Prot, d: Desc, pa: nat)
    ensures FlagsToVmm(prot).None? <==> prot.other || (prot.write && prot.exec)
    ensures FlagsToVmm(prot).Some? && Grants(d, pa, FlagsToVmm(prot).value) ==> Allows(d, pa, prot)
  {
  }

  /** Byte `o` of the range at `va` is byte `o` of the pages at `pa`, for user mode under the protection. */
  ghost predicate UserByte(m: map<nat, Desc>, va: nat, pa: nat, o: nat, prot: Prot) {
    Vpn(va + o) in m && (va + o) % 4096 == (pa + o) % 4096 && Allows(m[Vpn(va + o)], AlignedDown(pa + o), prot)
  }

  ghost predicate UserRange(m: map<nat, Desc>, va: nat, pa: nat, size: nat, prot: Prot) {
    forall o: nat :: o < size ==> UserByte(m, va, pa, o, prot)
  }

  lemma RangeForUser(r: Ram, s: State, t: Tree, pgd: nat, va: nat, pa: nat, size: nat, prot: Prot)
    requires Live(r, s, t, pgd) && FlagsToVmm(prot).Some? && pa + size <= ADDRESS_LIMIT
    requires MapRange(r, s, pgd, va, pa, size, FlagsToVmm(prot).value).0
    ensures UserRange(Mapping(MapRange(r, s, pgd, va, pa, size, FlagsToVmm(prot).value).1.mem, pgd), va, pa, size, prot)
  {
    hide MapRange, Mapping, Live, FlagsToVmm, Grants, Allows, AlignedDown, Vpn;
    var flags := FlagsToVmm(prot).value;
    var m := Mapping(MapRange(r, s, pgd, va, pa, size, flags).1.mem, pgd);
    forall o: nat | o < size
      ensures UserByte(m, va, pa, o, prot)
    {
      MapRangeGrants(r, s, t, pgd, va, pa, size, flags, o);
      ProtectionMeans(prot, m[Vpn(va + o)], AlignedDown(pa + o));
    }
  }

  /** `page_align_up`, which answers 0 for an empty or overflowing size. */
  function AlignSize(size: nat): nat {
    if size == 0 || size > U64_LIMIT - 4096 then 0 else AlignUp(size)
  }

  /** `pmm_alloc_pages` on the free set; 0 when there is no run. */
  function AllocPages(r: Ram, s: State, n: nat): (nat, State) {
    if n == 0 then (0, s)
    else
      match FirstRun(s.free, r.total, n, 0)
      case None => (0, s)
      case Some(page) => (Addr(r.base, page), s.(free := s.free - Run(page, n)))
  }

  function RemovedOr(p: Proc, start: nat, size: nat): Proc {
    match RemoveRegion(p, start, size)
    case None => p
    case Some(p1) => p1
  }

  /** The undo of a mapping attempt whose pages were allocated: unmap, forget the region, free the pages. */
  function UndoAnonymous(r: Ram, s: State, p: Proc, addr: nat, size: nat, paddr: nat): (State, Proc) {
    var mem1 := UnmapRange(s.mem, p.pageTable, addr, size).1;
    (State(mem1, FreePages(r, s.free, paddr, size / 4096)), RemovedOr(p, addr, size))
  }

  function MapAnonymous(r: Ram, s: State, p: Proc, hint: nat, size: nat, prot: Prot): (MapResult, State, Proc) {
    var n := AlignSize(size);
    if p.pageTable == 0 || hint != 0 || n == 0 || FlagsToVmm(prot) == None then (Invalid, s, p)
    else
      match AllocRegion(p, n)
      case None => (Invalid, s, p)
      case Some((p1, addr)) =>
        var (paddr, s1) := AllocPages(r, s, n / 4096);
        if paddr == 0 then (NoMemory, s1, RemovedOr(p1, addr, n))
        else
          var (ok, s2) := MapRange(r, s1, p1.pageTable, addr, paddr, n, FlagsToVmm(prot).value);
          if !ok then
            var (s3, p3) := UndoAnonymous(r, s2, p1, addr, n, paddr);
            (NoMemory, s3, p3)
          else
            match SetMapping(p1, addr, n, paddr, true)
            case None =>
              var (s3, p3) := UndoAnonymous(r, s2, p1, addr, n, paddr);
              (Invalid, s3, p3)
            case Some(p2) => (Mapped(addr), s2, p2)
  }

  function UnmapAnonymous(r: Ram, s: State, p: Proc, addr: nat, size: nat): (bool, State, Proc) {
    var n := AlignSize(size);
    if p.pageTable == 0 || n == 0 then (false, s, p)
    else
      match FindRegion(p, addr, n)
      case None => (false, s, p)
      case Some(k) =>
        var g := p.regions[k];
        if !g.owned || g.paddr == 0 then (false, s, p)
        else
          var (ok, mem1) := UnmapRange(s.mem, p.pageTable, addr, n);
          if !ok then (false, s.(mem := mem1), p)
          else
            match RemoveRegion(p, addr, n)
            case None => (false, s.(mem := mem1), p)
            case Some(p1) => (true, State(mem1, FreePages(r, s.free, g.paddr, n / 4096)), p1)
  }

  // ----- The region list and the pages it owns

  lemma OwnedAppend(r: Ram, regs: seq<Region>, g: Region)
    ensures Owned(r, regs + [g]) == Owned(r, regs) + RegionPages(r, g)
  {
    hide RegionPages;
    var a := regs + [g];
    forall x | x in Owned(r, a)
      ensures x in Owned(r, regs) || x in RegionPages(r, g)
    {
      var k: nat :| k < |a| && x in RegionPages(r, a[k]);
      if k < |regs| {
        assert a[k] == regs[k];
      }
    }
    forall x | x in Owned(r, regs) || x in RegionPages(r, g)
      ensures x in Owned(r, a)
    {
      if x in RegionPages(r, g) {
        assert a[|regs|] == g;
      } else {
        var k: nat :| k < |regs| && x in RegionPages(r, regs[k]);
        assert a[k] == regs[k];
      }
    }
  }

  lemma OwnedAt(r: Ram, regs: seq<Region>, k: nat)
    requires k < |regs|
    ensures RegionPages(r, regs[k]) <= Owned(r, regs)
  {
  }

  /** Taking one region out of the list takes exactly its pages out of what is owned. */
  lemma OwnedRemove(r: Ram, regs: seq<Region>, k: nat)
    requires RegionsOk(r, regs) && k < |regs|
    ensures RegionsOk(r, regs[..k] + regs[k + 1..])
    ensures Owned(r, regs[..k] + regs[k + 1..]) == Owned(r, regs) - RegionPages(r, regs[k])
  {
    hide RegionPages, RegionOk;
    var a := regs[..k] + regs[k + 1..];
    assert forall j :: 0 <= j < |a| ==> a[j] == if j < k then regs[j] else regs[j + 1];
    forall x | x in Owned(r, a)
      ensures x in Owned(r, regs) && x !in RegionPages(r, regs[k])
    {
      var j: nat :| j < |a| && x in RegionPages(r, a[j]);
      var i := if j < k then j else j + 1;
      assert a[j] == regs[i] && i != k;
      assert RegionPages(r, regs[i]) !! RegionPages(r, regs[k]);
    }
    forall x | x in Owned(r, regs) && x !in RegionPages(r, regs[k])
      ensures x in Owned(r, a)
    {
      var i: nat :| i < |regs| && x in RegionPages(r, regs[i]);
      assert i != k;
      assert a[if i < k then i else i - 1] == regs[i];
    }
  }

  lemma AppendOk(r: Ram, regs: seq<Region>, g: Region)
    requires RegionsOk(r, regs) && |regs| < MAX_REGIONS && RegionOk(r, g) && RegionPages(r, g) !! Owned(r, regs)
    requires Clear(regs, g.start, g.end)
    ensures RegionsOk(r, regs + [g])
  {
    hide RegionPages, RegionOk;
    var a := regs + [g];
    forall i, j | 0 <= i < j < |a|
      ensures RegionPages(r, a[i]) !! RegionPages(r, a[j])
    {
      OwnedAt(r, regs, i);
      if j < |regs| {
        assert a[i] == regs[i] && a[j] == regs[j];
      } else {
        assert a[i] == regs[i] && a[j] == g;
      }
    }
  }

  /** A region that was just added is the one that a search for it finds. */
  lemma AddThenFind(p: Proc, start: nat, size: nat)
    requires AddRegion(p, start, size).Some?
    ensures var p1 := AddRegion(p, start, size).value;
            && FindRegion(p1, start, size) == Some(|p.regions|)
            && p1 == p.(regions := p.regions + [Region(start, start + size, 0, false)])
            && |p.regions| < MAX_REGIONS && size > 0 && start + size < U64_LIMIT && Clear(p.regions, start, start + size)
            && RemoveRegion(p1, start, size) == Some(p)
  {
    var p1 := AddRegion(p, start, size).value;
    assert p1.regions[|p.regions|] == Region(start, start + size, 0, false);
    assert p1.regions[..|p.regions|] + p1.regions[|p.regions| + 1..] == p.regions;
  }

  // ----- What mmap and munmap keep

  /** Taking pages off the free set leaves a live tree live. */
  lemma LiveWithFewerFree(r: Ram, s: State, t: Tree, pgd: nat, free: set<nat>)
    requires Live(r, s, t, pgd) && free <= s.free
    ensures Live(r, s.(free := free), t, pgd)
  {
  }

  lemma LiveWithFree(r: Ram, s: State, t: Tree, pgd: nat, free: set<nat>)
    requires Live(r, s, t, pgd) && free !! Pages(t) && RamOk(r, free)
    ensures Live(r, s.(free := free), t, pgd)
  {
    assert forall p :: p in t ==> t[p] in Pages(t);
  }

  lemma {:induction false} RunSize(start: nat, n: nat)
    ensures |Run(start, n)| == n
    decreases n
  {
    if n == 0 {
      assert Run(start, 0) == {};
    } else {
      RunSize(start, n - 1);
      assert Run(start, n) == Run(start, n - 1) + {start + n - 1};
    }
  }

  lemma AllocPagesOk(r: Ram, s: State, n: nat) returns (page: nat)
    requires RamOk(r, s.free) && n > 0
    ensures var (addr, s') := AllocPages(r, s, n);
            if addr == 0 then s' == s && FirstRun(s.free, r.total, n, 0) == None
            else addr == Addr(r.base, page) && page + n <= r.total && Run(page, n) <= s.free
                 && s' == s.(free := s.free - Run(page, n))
  {
    FirstRunIsLowest(s.free, r.total, n, 0);
    page := 0;
    match FirstRun(s.free, r.total, n, 0)
    case None =>
    case Some(q) =>
      page := q;
      assert q in s.free;
  }

  /** Pages that went from the free set to the region or the tables, and back. */
  lemma PagesBalance(free: set<nat>, run: set<nat>, owned: set<nat>, pt: set<nat>, pt2: set<nat>, free2: set<nat>)
    requires run <= free && owned !! free && owned !! pt && pt !! free
    requires pt <= pt2 <= pt + (free - run) && free2 == (free - run) - pt2
    ensures free2 + run + (owned + pt2) == free + (owned + pt)
    ensures free2 + (owned + run + pt2) == free + (owned + pt)
    ensures owned !! free2 + run && owned !! pt2 && pt2 !! free2 + run
    ensures owned + run !! free2 && owned + run !! pt2
  {
  }

  lemma {:induction false} BindNoWriteExec(m: map<nat, Desc>, vs: seq<nat>, pa: nat, flags: Flags, n: nat, k: nat)
    requires NoWriteExec(m) && |vs| == n && k <= n && !(flags.write && flags.exec)
    ensures NoWriteExec(Bind(m, vs, Descs(pa, flags, n), k))
  {
    hide Descs;
    if k > 0 {
      BindNoWriteExec(m, vs, pa, flags, n, k - 1);
      DescsAt(pa, flags, n, k - 1);
    }
  }

  lemma FlagsNotWriteExec(prot: Prot)
    ensures FlagsToVmm(prot).Some? ==> !(FlagsToVmm(prot).value.write && FlagsToVmm(prot).value.exec)
  {
  }

  lemma SizeOk(size: nat)
    ensures AlignSize(size) % 4096 == 0
    ensures AlignSize(size) > 0 ==> AlignUp(AlignSize(size)) == AlignSize(size) && AlignSize(size) / 4096 > 0
                                    && size <= AlignSize(size) < size + 4096
  {
    var q: nat := (size + 4095) / 4096;
    Quotient(4096 * q, 4096, q, 0);
    Quotient(4096 * q + 4095, 4096, q, 4095);
  }

  lemma AllocRegionOk(p: Proc, n: nat)
    requires AllocRegion(p, n).Some? && n % 4096 == 0
    ensures var (p1, addr) := AllocRegion(p, n).value;
            && addr % 4096 == 0 && n > 0
            && p1 == p.(nextVaddr := addr + n, regions := p.regions + [Region(addr, addr + n, 0, false)])
            && |p.regions| < MAX_REGIONS && Clear(p.regions, addr, addr + n)
            && FindRegion(p1, addr, n) == Some(|p.regions|)
            && RemoveRegion(p1, addr, n) == Some(p.(nextVaddr := addr + n))
  {
    assert AlignUp(n) == n;
    AddThenFind(p, AlignUp(p.nextVaddr), n);
  }

  /** A failed mapping attempt gives every page back to where it came from. */
  lemma UndoAnonymousOk(r: Ram, s: State, p: Proc, t: Tree, page: nat, n: nat, addr: nat, p1: Proc, s2: State, t2: Tree)
    requires SlotOk(r, s, p, Some(t)) && n > 0 && page + n <= r.total && Run(page, n) <= s.free
    requires p1.pageTable == p.pageTable
    requires RemoveRegion(p1, addr, 4096 * n).Some? && RemoveRegion(p1, addr, 4096 * n).value.regions == p.regions
    requires RemoveRegion(p1, addr, 4096 * n).value.pageTable == p.pageTable
    requires Live(r, s2, t2, p.pageTable) && Grown(r, s.(free := s.free - Run(page, n)), t, s2, t2)
    requires NoWriteExec(Mapping(s2.mem, p.pageTable))
    ensures var (s', p') := UndoAnonymous(r, s2, p1, addr, 4096 * n, Addr(r.base, page));
            SlotStep(r, s, p, Some(t), s', p', Some(t2))
  {
    hide Mapping, Kept, UnmapRange, RegionsOk, Owned, FreePages, Run, Vpns, Live, RemoveRegion, Fits, PageCount;
    var (s', p') := UndoAnonymous(r, s2, p1, addr, 4096 * n, Addr(r.base, page));
    var run, owned := Run(page, n), Owned(r, p.regions);
    var done := UnmapRangeOk(r, s2, t2, p.pageTable, addr, 4096 * n);
    FreePagesOk(r, s2.free, page, n);
    LiveApart(r, s, t, p.pageTable);
    assert RamOk(r, s2.free + run);
    PagesBalance(s.free, run, owned, Pages(t), Pages(t2), s2.free);
    LiveWithFree(r, State(s'.mem, s2.free), t2, p.pageTable, s'.free);
    KeptThrough(r, s, t, page, n, s2, t2, s'.mem, owned);
  }

  lemma LiveApart(r: Ram, s: State, t: Tree, pgd: nat)
    requires Live(r, s, t, pgd)
    ensures Pages(t) !! s.free
  {
  }

  lemma KeptThrough(r: Ram, s: State, t: Tree, page: nat, n: nat, s2: State, t2: Tree, mem3: Memory, owned: set<nat>)
    requires Run(page, n) <= s.free
    requires Grown(r, s.(free := s.free - Run(page, n)), t, s2, t2)
    requires Kept(s2.mem, mem3, r.base, Pages(t2))
    ensures Kept(s.mem, mem3, r.base, s.free + (owned + Pages(t)))
  {
    forall x: nat | x !in s.free + (owned + Pages(t))
      ensures x !in Pages(t2)
    {
    }
  }

  lemma MapSuccessOk(r: Ram, s: State, p: Proc, t: Tree, page: nat, n: nat, addr: nat, p2: Proc, s2: State, t2: Tree)
    requires SlotOk(r, s, p, Some(t)) && n > 0 && page + n <= r.total && Run(page, n) <= s.free
    requires p2.pageTable == p.pageTable && |p.regions| < MAX_REGIONS && Clear(p.regions, addr, addr + 4096 * n)
    requires p2.regions == p.regions + [Region(addr, addr + 4096 * n, Addr(r.base, page), true)]
    requires Addr(r.base, page) != 0
    requires Live(r, s2, t2, p.pageTable) && Grown(r, s.(free := s.free - Run(page, n)), t, s2, t2)
    requires NoWriteExec(Mapping(s2.mem, p.pageTable))
    ensures SlotStep(r, s, p, Some(t), s2, p2, Some(t2))
  {
    hide Mapping, Kept, RegionsOk, Owned, Run, Live;
    var g := Region(addr, addr + 4096 * n, Addr(r.base, page), true);
    var run, owned := Run(page, n), Owned(r, p.regions);
    assert RegionPages(r, g) == run && RegionOk(r, g);
    OwnedAppend(r, p.regions, g);
    LiveApart(r, s, t, p.pageTable);
    PagesBalance(s.free, run, owned, Pages(t), Pages(t2), s2.free);
    AppendOk(r, p.regions, g);
    KeptSelf(s2.mem, r.base, Pages(t2));
    KeptThrough(r, s, t, page, n, s2, t2, s2.mem, owned);
  }

  lemma SameRegionsStep(r: Ram, s: State, p: Proc, ot: Option<Tree>, p': Proc)
    requires SlotOk(r, s, p, ot) && p'.pageTable == p.pageTable && p'.regions == p.regions
    ensures SlotStep(r, s, p, ot, s, p', ot)
  {
    hide Mapping, RegionsOk, Owned, Live;
  }

  /** Every anonymous mapping call, failing ones included, only moves pages between the process and the free set. */
  lemma MapAnonymousOk(r: Ram, s: State, p: Proc, ot: Option<Tree>, hint: nat, size: nat, prot: Prot)
    returns (ot': Option<Tree>)
    requires SlotOk(r, s, p, ot)
    ensures var (_, s', p') := MapAnonymous(r, s, p, hint, size, prot); SlotStep(r, s, p, ot, s', p', ot')
  {
    hide Mapping, Kept, RegionsOk, Owned, Run, Live, MapRange, AllocRegion, AlignSize, AllocPages, UndoAnonymous,
         RemoveRegion, FindRegion, SlotStep;
    ot' := ot;
    var n := AlignSize(size);
    SizeOk(size);
    FlagsNotWriteExec(prot);
    if p.pageTable == 0 || hint != 0 || n == 0 || FlagsToVmm(prot) == None || AllocRegion(p, n) == None {
      SameRegionsStep(r, s, p, ot, p);
      return;
    }
    var (p1, addr) := AllocRegion(p, n).value;
    AllocRegionOk(p, n);
    var page := AllocPagesOk(r, s, n / 4096);
    var (paddr, s1) := AllocPages(r, s, n / 4096);
    if paddr == 0 {
      SameRegionsStep(r, s, p, ot, RemovedOr(p1, addr, n));
      return;
    }
    var t2 := AnonymousRangeOk(r, s, p, ot.value, page, n / 4096, addr, FlagsToVmm(prot).value, p1);
    ot' := Some(t2);
  }

  /** The mapping step of an anonymous mapping, whichever way it ends. */
  lemma AnonymousRangeOk(r: Ram, s: State, p: Proc, t: Tree, page: nat, n: nat, addr: nat, flags: Flags, p1: Proc)
    returns (t2: Tree)
    requires SlotOk(r, s, p, Some(t)) && n > 0 && page + n <= r.total && Run(page, n) <= s.free
    requires !(flags.write && flags.exec) && Addr(r.base, page) != 0 && |p.regions| < MAX_REGIONS
    requires Clear(p.regions, addr, addr + 4096 * n)
    requires p1 == p.(nextVaddr := addr + 4096 * n, regions := p.regions + [Region(addr, addr + 4096 * n, 0, false)])
    requires FindRegion(p1, addr, 4096 * n) == Some(|p.regions|)
    requires RemoveRegion(p1, addr, 4096 * n) == Some(p.(nextVaddr := addr + 4096 * n))
    ensures var (ok, s2) := MapRange(r, s.(free := s.free - Run(page, n)), p.pageTable, addr, Addr(r.base, page), 4096 * n, flags);
            Pages(t) <= Pages(t2) &&
            if ok then
              var op := SetMapping(p1, addr, 4096 * n, Addr(r.base, page), true);
              op.Some? && SlotStep(r, s, p, Some(t), s2, op.value, Some(t2))
            else
              var (s', p') := UndoAnonymous(r, s2, p1, addr, 4096 * n, Addr(r.base, page));
              SlotStep(r, s, p, Some(t), s', p', Some(t2))
  {
    hide Mapping, Kept, RegionsOk, Owned, Run, Live, MapRange, UndoAnonymous, RemoveRegion, FindRegion, AlignedDown, PageCount,
         NewPages, Bind, Vpns, Descs, Grown, NoWriteExec;
    var s1 := s.(free := s.free - Run(page, n));
    var paddr, pgd := Addr(r.base, page), p.pageTable;
    LiveWithFewerFree(r, s, t, pgd, s1.free);
    t2 := MapRangeOk(r, s1, t, pgd, addr, paddr, 4096 * n, flags);
    var (ok, s2) := MapRange(r, s1, pgd, addr, paddr, 4096 * n, flags);
    GrownTables(r, s1, t, s2, t2);
    if ok {
      var k := PageCount(addr, 4096 * n);
      BindNoWriteExec(Mapping(s.mem, pgd), Vpns(AlignedDown(addr), k), AlignedDown(paddr), flags, k, k);
      MapSuccessOk(r, s, p, t, page, n, addr, SetMapping(p1, addr, 4096 * n, paddr, true).value, s2, t2);
    } else {
      UndoAnonymousOk(r, s, p, t, page, n, addr, p1, s2, t2);
    }
  }

  lemma GrownTables(r: Ram, s: State, t: Tree, s': State, t': Tree)
    requires Grown(r, s, t, s', t')
    ensures Pages(t) <= Pages(t')
  {
  }

  lemma UnmappedNoWriteExec(m: map<nat, Desc>, gone: set<nat>)
    requires NoWriteExec(m)
    ensures NoWriteExec(m - gone)
  {
  }

  /** Every anonymous unmapping call only moves pages between the process and the free set. */
  lemma UnmapAnonymousOk(r: Ram, s: State, p: Proc, ot: Option<Tree>, addr: nat, size: nat)
    requires SlotOk(r, s, p, ot)
    ensures var (_, s', p') := UnmapAnonymous(r, s, p, addr, size); SlotStep(r, s, p, ot, s', p', ot)
  {
    hide Mapping, Kept, RegionsOk, Owned, Run, Live, UnmapRange, AlignSize, SlotStep, FreePages, RegionPages, NoWriteExec,
         FindFrom, Vpns, PageCount, AlignedDown, Fits, RegionEnd;
    var n := AlignSize(size);
    if p.pageTable == 0 || n == 0 || FindRegion(p, addr, n) == None {
      SameRegionsStep(r, s, p, ot, p);
      return;
    }
    var k := FindRegion(p, addr, n).value;
    var g := p.regions[k];
    if !g.owned || g.paddr == 0 {
      SameRegionsStep(r, s, p, ot, p);
      return;
    }
    var t, pgd := ot.value, p.pageTable;
    var done := UnmapRangeOk(r, s, t, pgd, addr, n);
    var (ok, mem1) := UnmapRange(s.mem, pgd, addr, n);
    UnmappedNoWriteExec(Mapping(s.mem, pgd), Firsts(Vpns(AlignedDown(addr), PageCount(addr, n)), done));
    UnmappedStep(r, s, p, t, mem1);
    if ok {
      SizeOk(size);
      RegionSize(p, addr, n, k);
      RegionRelease(r, s.(mem := mem1), p, t, k, p.(regions := p.regions[..k] + p.regions[k + 1..]), n);
      StepTrans(r, s, p, ot, s.(mem := mem1), p, ot,
                State(mem1, FreePages(r, s.free, g.paddr, n / 4096)), p.(regions := p.regions[..k] + p.regions[k + 1..]), ot);
    }
  }

  /**
   * Unmapping gives up exactly the region with those bounds, frees exactly its pages and ends exactly their translations.
   * A failing call changes no region and frees nothing.
   */
  lemma UnmapAnonymousMeaning(r: Ram, s: State, p: Proc, t: Tree, addr: nat, size: nat) returns (done: nat)
    requires SlotOk(r, s, p, Some(t))
    ensures var n := AlignSize(size);
            var vs := Vpns(AlignedDown(addr), PageCount(addr, n));
            var (ok, s', p') := UnmapAnonymous(r, s, p, addr, size);
            && done <= |vs| && Mapping(s'.mem, p.pageTable) == Mapping(s.mem, p.pageTable) - Firsts(vs, done)
            && (!ok ==> p' == p && s'.free == s.free)
            && (ok ==> done == |vs| && n > 0
                       && exists k: nat :: k < |p.regions| && Unmaps(p.regions[k], addr, n)
                                           && p' == p.(regions := p.regions[..k] + p.regions[k + 1..])
                                           && s'.free == s.free + RegionPages(r, p.regions[k]))
  {
    hide Mapping, Kept, RegionsOk, Owned, Run, Live, UnmapRange, AlignSize, FreePages, RegionPages, NoWriteExec,
         FindFrom, Vpns, PageCount, AlignedDown, Fits, RegionEnd;
    done := 0;
    var n := AlignSize(size);
    if p.pageTable == 0 || n == 0 || FindRegion(p, addr, n) == None {
      return;
    }
    var k := FindRegion(p, addr, n).value;
    RegionSize(p, addr, n, k);
    var g := p.regions[k];
    if !g.owned || g.paddr == 0 {
      return;
    }
    done := UnmapRangeOk(r, s, t, p.pageTable, addr, n);
    if UnmapRange(s.mem, p.pageTable, addr, n).0 {
      SizeOk(size);
      RegionFreed(r, s.free, p.regions, k, n);
      assert Unmaps(p.regions[k], addr, n);
    }
  }

  predicate Unmaps(g: Region, addr: nat, n: nat) {
    g.start == addr && g.end == addr + n && g.owned && g.paddr != 0
  }

  lemma RegionFreed(r: Ram, free: set<nat>, regs: seq<Region>, k: nat, n: nat)
    requires r.base % 4096 == 0 && RegionsOk(r, regs) && k < |regs| && Unmaps(regs[k], regs[k].start, n)
    ensures FreePages(r, free, regs[k].paddr, n / 4096) == free + RegionPages(r, regs[k])
  {
    var g := regs[k];
    assert RegionOk(r, g) && n / 4096 == RegionPageCount(g);
    hide FreePages, RegionPages, RegionPageCount;
    FreeRegionOk(r, free, g);
  }

  lemma RegionSize(p: Proc, addr: nat, n: nat, k: nat)
    requires FindRegion(p, addr, n) == Some(k)
    ensures k < |p.regions| && p.regions[k].start == addr && p.regions[k].end == addr + n
  {
  }

  lemma UnmappedStep(r: Ram, s: State, p: Proc, t: Tree, mem': Memory)
    requires SlotOk(r, s, p, Some(t)) && Live(r, s.(mem := mem'), t, p.pageTable)
    requires NoWriteExec(Mapping(mem', p.pageTable)) && Kept(s.mem, mem', r.base, Pages(t)) && NoNewBlocks(r.base, s.mem, t, mem', t)
    ensures SlotStep(r, s, p, Some(t), s.(mem := mem'), p, Some(t))
  {
    hide Mapping, RegionsOk, Owned, Live, NoWriteExec, NoBlocks;
  }

  lemma StepTrans(r: Ram, s0: State, p0: Proc, o0: Option<Tree>, s1: State, p1: Proc, o1: Option<Tree>,
                  s2: State, p2: Proc, o2: Option<Tree>)
    requires SlotStep(r, s0, p0, o0, s1, p1, o1) && SlotStep(r, s1, p1, o1, s2, p2, o2)
    ensures SlotStep(r, s0, p0, o0, s2, p2, o2)
  {
    hide SlotOk, Hold;
  }

  /** Giving up one owned region frees exactly its pages. */
  lemma RegionRelease(r: Ram, s: State, p: Proc, t: Tree, k: nat, p': Proc, n: nat)
    requires SlotOk(r, s, p, Some(t)) && k < |p.regions|
    requires p.regions[k].owned && p.regions[k].paddr != 0 && p.regions[k].end == p.regions[k].start + n
    requires p' == p.(regions := p.regions[..k] + p.regions[k + 1..])
    ensures SlotStep(r, s, p, Some(t), s.(free := FreePages(r, s.free, p.regions[k].paddr, n / 4096)), p', Some(t))
  {
    var g := p.regions[k];
    assert RegionOk(r, g) && n / 4096 == RegionPageCount(g);
    hide Mapping, RegionsOk, Owned, Run, Live, FreePages, RegionPages, NoWriteExec, RegionPageCount;
    FreeRegionOk(r, s.free, g);
    OwnedRemove(r, p.regions, k);
    OwnedAt(r, p.regions, k);
    var s' := s.(free := s.free + RegionPages(r, g));
    LiveApart(r, s, t, p.pageTable);
    RegionInRange(r, g);
    LiveWithFree(r, s, t, p.pageTable, s'.free);
    KeptSelf(s.mem, r.base, s.free + Hold(r, p, Some(t)));
  }

  lemma RegionInRange(r: Ram, g: Region)
    requires RegionOk(r, g)
    ensures forall x :: x in RegionPages(r, g) ==> x < r.total
    ensures r.base == 0 && r.base % 4096 == 0 ==> 0 !in RegionPages(r, g)
  {
  }

  lemma HasTable(r: Ram, s: State, p: Proc, t: Tree)
    requires SlotOk(r, s, p, Some(t))
    ensures p.pageTable != 0 && RamOk(r, s.free)
  {
    hide Live, RegionsOk, Owned, Mapping;
  }

  /** A run of free pages is whole pages of memory. */
  lemma RunPlaced(r: Ram, free: set<nat>, n: nat)
    requires RamOk(r, free) && n > 0 && FirstRun(free, r.total, n, 0).Some?
    ensures var paddr := Addr(r.base, FirstRun(free, r.total, n, 0).value);
            0 < paddr && paddr % 4096 == 0 && paddr + 4096 * n <= ADDRESS_LIMIT
  {
    FirstRunIsLowest(free, r.total, n, 0);
    hide FirstRun;
    var page := FirstRun(free, r.total, n, 0).value;
    assert page in free;
  }

  // ----- What the calls mean for the address space

  /** The call gets as far as installing translations. */
  predicate ReachesMapping(r: Ram, s: State, p: Proc, hint: nat, size: nat, prot: Prot) {
    && p.pageTable != 0 && hint == 0 && AlignSize(size) > 0 && FlagsToVmm(prot).Some?
    && AllocRegion(p, AlignSize(size)).Some?
    && FirstRun(s.free, r.total, AlignSize(size) / 4096, 0).Some?
  }

  lemma MmapRange(p: Proc, n: nat)
    requires n % 4096 == 0 && AllocRegion(p, n).Some?
    ensures var addr := AllocRegion(p, n).value.1;
            addr == AlignUp(p.nextVaddr) && AlignedDown(addr) == addr && Fits(addr, n) && PageCount(addr, n) == n / 4096
            && addr + n <= MMAP_LIMIT
  {
    AllocRegionOk(p, n);
  }

  /**
   * A mapped range is new, lies in the mmap window, and translates page by page to the lowest
   * run of free physical pages, which the new region owns. User mode can use every byte of it as it asked to.
   */
  lemma MapAnonymousMeaning(r: Ram, s: State, p: Proc, t: Tree, hint: nat, size: nat, prot: Prot)
    requires SlotOk(r, s, p, Some(t))
    requires MapAnonymous(r, s, p, hint, size, prot).0.Mapped?
    ensures var (res, s', p') := MapAnonymous(r, s, p, hint, size, prot);
            var n := AlignSize(size) / 4096;
            && ReachesMapping(r, s, p, hint, size, prot)
            && res.addr == AlignUp(p.nextVaddr) && res.addr + 4096 * n <= MMAP_LIMIT
            && var paddr := Addr(r.base, FirstRun(s.free, r.total, n, 0).value);
            && p' == p.(nextVaddr := res.addr + 4096 * n,
                        regions := p.regions + [Region(res.addr, res.addr + 4096 * n, paddr, true)])
            && NewPages(Mapping(s.mem, p.pageTable), Vpns(res.addr, n), n)
            && Mapping(s'.mem, p.pageTable)
               == Bind(Mapping(s.mem, p.pageTable), Vpns(res.addr, n), Descs(paddr, FlagsToVmm(prot).value, n), n)
            && size <= 4096 * n < size + 4096 && UserRange(Mapping(s'.mem, p.pageTable), res.addr, paddr, 4096 * n, prot)
  {
    hide UserRange, Mapping, Kept, RegionsOk, Owned, Run, Live, MapRange, AllocRegion, AlignSize, RemoveRegion, FindRegion,
         SlotStep, NewPages, Bind, Vpns, Descs, Grown, NoWriteExec, AlignedDown, PageCount, Fits, AlignUp;
    var n := AlignSize(size);
    SizeOk(size);
    AllocRegionOk(p, n);
    MmapRange(p, n);
    var page := AllocPagesOk(r, s, n / 4096);
    var (paddr, s1) := AllocPages(r, s, n / 4096);
    LiveWithFewerFree(r, s, t, p.pageTable, s1.free);
    var addr := AllocRegion(p, n).value.1;
    var t2 := MapRangeOk(r, s1, t, p.pageTable, addr, paddr, n, FlagsToVmm(prot).value);
    PageAligned(r, page);
    RangeForUser(r, s1, t, p.pageTable, addr, paddr, n, prot);
  }

  lemma PageAligned(r: Ram, page: nat)
    requires r.base % 4096 == 0
    ensures AlignedDown(Addr(r.base, page)) == Addr(r.base, page)
  {
  }

  /**
   * A failed call restores every translation exactly when the range it chose did not already
   * start on a mapped page: the undo path unmaps that range a second time.
   */
  lemma FailedMapRestores(r: Ram, s: State, p: Proc, t: Tree, hint: nat, size: nat, prot: Prot)
    requires SlotOk(r, s, p, Some(t))
    requires !MapAnonymous(r, s, p, hint, size, prot).0.Mapped?
    ensures var (_, s', _) := MapAnonymous(r, s, p, hint, size, prot);
            Mapping(s'.mem, p.pageTable) == Mapping(s.mem, p.pageTable)
            <==> !(ReachesMapping(r, s, p, hint, size, prot)
                   && Vpn(AlignUp(p.nextVaddr)) in Mapping(s.mem, p.pageTable))
  {
    hide Mapping, Kept, RegionsOk, Owned, Run, Live, MapRange, UnmapRange, AllocRegion, AlignSize, RemoveRegion, FindRegion,
         SlotStep, NewPages, Bind, Vpns, Descs, Grown, NoWriteExec, AlignedDown, PageCount, Fits, AlignUp, Vpn, FreePages;
    var n := AlignSize(size);
    SizeOk(size);
    if ReachesMapping(r, s, p, hint, size, prot) {
      AllocRegionOk(p, n);
      MmapRange(p, n);
      var page := AllocPagesOk(r, s, n / 4096);
      var (paddr, s1) := AllocPages(r, s, n / 4096);
      LiveWithFewerFree(r, s, t, p.pageTable, s1.free);
      var (p1, addr) := AllocRegion(p, n).value;
      var flags := FlagsToVmm(prot).value;
      var t2 := MapRangeOk(r, s1, t, p.pageTable, addr, paddr, n, flags);
      var (ok, s2) := MapRange(r, s1, p.pageTable, addr, paddr, n, flags);
      assert !ok;
      var done := UnmapRangeOk(r, s2, t2, p.pageTable, addr, n);
      FirstUnmapped(Mapping(s.mem, p.pageTable), addr, n / 4096, done);
    }
  }

  /** A failed call forgets the region it reserved, though not the place, and at worst takes translations away. */
  lemma FailedMapShrinks(r: Ram, s: State, p: Proc, t: Tree, hint: nat, size: nat, prot: Prot) returns (gone: set<nat>)
    requires SlotOk(r, s, p, Some(t))
    requires !MapAnonymous(r, s, p, hint, size, prot).0.Mapped?
    ensures var (_, s', p') := MapAnonymous(r, s, p, hint, size, prot);
            && Mapping(s'.mem, p.pageTable) == Mapping(s.mem, p.pageTable) - gone
            && p' == p.(nextVaddr := p'.nextVaddr) && p'.nextVaddr >= p.nextVaddr
            && (p'.nextVaddr == p.nextVaddr || p'.nextVaddr == AlignUp(p.nextVaddr) + AlignSize(size))
  {
    hide Mapping, Kept, RegionsOk, Owned, Run, Live, MapRange, UnmapRange, AllocRegion, AlignSize, RemoveRegion, FindRegion,
         SlotStep, NewPages, Bind, Vpns, Descs, Grown, NoWriteExec, AlignedDown, PageCount, Fits, Vpn, FreePages;
    gone := {};
    assert Mapping(s.mem, p.pageTable) - {} == Mapping(s.mem, p.pageTable);
    var n := AlignSize(size);
    SizeOk(size);
    if hint == 0 && n > 0 && FlagsToVmm(prot).Some? && AllocRegion(p, n).Some? {
      AllocRegionOk(p, n);
      MmapRange(p, n);
      var page := AllocPagesOk(r, s, n / 4096);
      var (paddr, s1) := AllocPages(r, s, n / 4096);
      if paddr != 0 {
        LiveWithFewerFree(r, s, t, p.pageTable, s1.free);
        var addr := AllocRegion(p, n).value.1;
        var flags := FlagsToVmm(prot).value;
        var t2 := MapRangeOk(r, s1, t, p.pageTable, addr, paddr, n, flags);
        var (ok, s2) := MapRange(r, s1, p.pageTable, addr, paddr, n, flags);
        assert !ok;
        var done := UnmapRangeOk(r, s2, t2, p.pageTable, addr, n);
        gone := Firsts(Vpns(AlignedDown(addr), PageCount(addr, n)), done);
      }
    }
  }

  lemma FirstUnmapped(m: map<nat, Desc>, addr: nat, n: nat, done: nat)
    requires 0 < n && done <= n
    requires forall j: nat :: j < done ==> Vpns(addr, n)[j] in m - Firsts(Vpns(addr, n), j)
    requires done < n ==> Vpns(addr, n)[done] !in m - Firsts(Vpns(addr, n), done)
    ensures m - Firsts(Vpns(addr, n), done) == m <==> Vpn(addr) !in m
  {
    hide Vpns, Vpn;
    VpnsAt(addr, n, 0);
    var vs := Vpns(addr, n);
    if done > 0 {
      assert vs[0] in m - Firsts(vs, 0);
      FirstsElements(vs, done);
      assert vs[0] in Firsts(vs, done);
      assert vs[0] !in m - Firsts(vs, done);
    } else {
      assert Firsts(vs, 0) == {};
      assert m - {} == m;
    }
  }

  /** Unmapping what was just mapped succeeds and restores translation, regions and pages, except for table pages. */
  lemma MapThenUnmapAnonymous(r: Ram, s: State, p: Proc, t: Tree, hint: nat, size: nat, prot: Prot) returns (t': Tree)
    requires SlotOk(r, s, p, Some(t))
    requires MapAnonymous(r, s, p, hint, size, prot).0.Mapped?
    ensures var (res, s', p') := MapAnonymous(r, s, p, hint, size, prot);
            var (ok, s'', p'') := UnmapAnonymous(r, s', p', res.addr, size);
            && ok && p''.regions == p.regions
            && Mapping(s''.mem, p.pageTable) == Mapping(s.mem, p.pageTable)
            && SlotOk(r, s'', p'', Some(t')) && Pages(t) <= Pages(t')
            && s''.free + Pages(t') == s.free + Pages(t)
  {
    hide Mapping, Kept, RegionsOk, Run, Live, MapRange, UnmapRange, AllocRegion, AlignSize, RegionPages,
         NewPages, Vpns, Descs, NoWriteExec, AlignedDown, PageCount, Fits, AlignUp, FreePages, SlotOk, SlotStep, RamOk;
    var n := AlignSize(size);
    SizeOk(size);
    AllocRegionOk(p, n);
    MmapRange(p, n);
    SlotLive(r, s, p, t);
    var page := AllocPagesOk(r, s, n / 4096);
    var (paddr, s1) := AllocPages(r, s, n / 4096);
    LiveWithFewerFree(r, s, t, p.pageTable, s1.free);
    var (p1, addr) := AllocRegion(p, n).value;
    var flags := FlagsToVmm(prot).value;
    t' := AnonymousRangeOk(r, s, p, t, page, n / 4096, addr, flags, p1);
    var (_, s2) := MapRange(r, s1, p.pageTable, addr, paddr, n, flags);
    MapThenUnmap(r, s1, t, p.pageTable, addr, paddr, n, flags);
    var p2 := SetMapping(p1, addr, n, paddr, true).value;
    FindOwned(p, p1, addr, n, paddr, p2);
    StepSlot(r, s, p, Some(t), s2, p2, Some(t'));
    UnmapAnonymousOk(r, s2, p2, Some(t'), addr, size);
    var (_, s3, p3) := UnmapAnonymous(r, s2, p2, addr, size);
    StepTrans(r, s, p, Some(t), s2, p2, Some(t'), s3, p3, Some(t'));
    TablesOfStep(r, s, p, t, s3, p3, t');
  }

  lemma SlotLive(r: Ram, s: State, p: Proc, t: Tree)
    requires SlotOk(r, s, p, Some(t))
    ensures Live(r, s, t, p.pageTable) && RamOk(r, s.free)
  {
  }

  lemma StepSlot(r: Ram, s: State, p: Proc, ot: Option<Tree>, s': State, p': Proc, ot': Option<Tree>)
    requires SlotStep(r, s, p, ot, s', p', ot')
    ensures SlotOk(r, s', p', ot')
  {
  }

  /** When the regions are the same, what the free set gave the tables got. */
  lemma TablesOfStep(r: Ram, s: State, p: Proc, t: Tree, s': State, p': Proc, t': Tree)
    requires SlotOk(r, s, p, Some(t)) && SlotStep(r, s, p, Some(t), s', p', Some(t')) && p'.regions == p.regions
    ensures SlotOk(r, s', p', Some(t')) && s'.free + Pages(t') == s.free + Pages(t)
  {
    hide Kept, RegionsOk, Live, Mapping, NoWriteExec, Owned, RamOk;
    CancelOwned(s.free, Owned(r, p.regions), Pages(t), s'.free, Pages(t'));
  }

  lemma FindOwned(p: Proc, p1: Proc, addr: nat, n: nat, paddr: nat, p2: Proc)
    requires p1.regions == p.regions + [Region(addr, addr + n, 0, false)]
    requires FindRegion(p1, addr, n) == Some(|p.regions|)
    requires SetMapping(p1, addr, n, paddr, true) == Some(p2)
    ensures p2.regions == p.regions + [Region(addr, addr + n, paddr, true)]
    ensures FindRegion(p2, addr, n) == Some(|p.regions|)
    ensures RemoveRegion(p2, addr, n) == Some(p2.(regions := p.regions))
  {
    assert p2.regions[|p.regions|].start == addr;
    assert forall k :: 0 <= k < |p.regions| ==> p1.regions[k] == p2.regions[k];
    assert p2.regions[..|p.regions|] + p2.regions[|p.regions| + 1..] == p.regions;
  }

  lemma CancelOwned(free: set<nat>, owned: set<nat>, pt: set<nat>, free': set<nat>, pt': set<nat>)
    requires free' + (owned + pt') == free + (owned + pt)
    requires owned !! free && owned !! pt && owned !! free' && owned !! pt'
    ensures free' + pt' == free + pt
  {
    forall x | x in free' + pt'
      ensures x in free + pt
    {
      assert x in free + (owned + pt);
    }
    forall x | x in free + pt
      ensures x in free' + pt'
    {
      assert x in free' + (owned + pt');
    }
  }
}
