/** What a process can reach in user mode: only pages of regions it owns, and nothing yet where mmap will go next. */
module IsolationSpec {
  import opened Basics
  import opened PhysicalPages
  import opened PageTableFormat
  import opened PageTree
  import opened VmmSpec
  import opened VmmRanges
  import opened VmmWhen
  import opened ProcessSpec
  import opened UserVmSpec
  import opened UserVmWhen
  import opened SpawnSpec
  import opened SpawnMeaning

  /** Descriptor `d` at virtual page `v` is page `j` of the owned region `i`, at its place in the region. */
  predicate BackedBy(regs: seq<Region>, i: nat, j: nat, v: nat, d: Desc) {
    && i < |regs| && regs[i].owned && regs[i].paddr != 0 && regs[i].start + 4096 * j < regs[i].end
    && v == Vpn(regs[i].start + 4096 * j) && d.addr == regs[i].paddr + 4096 * j
  }

  ghost predicate BackedAt(regs: seq<Region>, v: nat, d: Desc) {
    exists i: nat, j: nat :: BackedBy(regs, i, j, v, d)
  }

  /** Every page that user mode can reach belongs to a region the process owns. */
  ghost predicate Backed(regs: seq<Region>, m: map<nat, Desc>) {
    forall v :: v in m && UserReaches(m[v]) ==> BackedAt(regs, v, m[v])
  }

  predicate InWindow(v: nat, from: nat) {
    from <= 4096 * v < MMAP_LIMIT
  }

  /** Nothing is mapped between the place of the next mmap and the end of the window. */
  ghost predicate Ahead(nextVaddr: nat, m: map<nat, Desc>) {
    forall v :: v in m ==> !InWindow(v, nextVaddr)
  }

  /** Page `j` of the region is mapped for user mode, to the page at its place in the region. */
  predicate PageThere(m: map<nat, Desc>, g: Region, j: nat) {
    var v := Vpn(g.start + 4096 * j);
    v in m && UserReads(m[v]) && m[v].addr == g.paddr + 4096 * j
  }

  /** Every page of every region is there. */
  ghost predicate Resident(regs: seq<Region>, m: map<nat, Desc>) {
    forall i: nat, j: nat :: i < |regs| && regs[i].start + 4096 * j < regs[i].end ==> PageThere(m, regs[i], j)
  }

  /** Regions are whole pages that the process owns, below the cursor and within the window. */
  ghost predicate Tidy(regs: seq<Region>, nextVaddr: nat) {
    && nextVaddr % 4096 == 0 && MMAP_BASE <= nextVaddr
    && forall i :: 0 <= i < |regs| ==> TidyRegion(regs[i], nextVaddr)
  }

  predicate TidyRegion(g: Region, nextVaddr: nat) {
    g.owned && g.paddr != 0 && g.start % 4096 == 0 && g.end % 4096 == 0 && g.start < g.end <= nextVaddr && g.end <= MMAP_LIMIT
  }

  /** Where the kernel keeps out of the window: nothing ahead of the cursor, and every region complete. */
  ghost predicate Exact(p: Proc, m: map<nat, Desc>) {
    Ahead(p.nextVaddr, m) && Resident(p.regions, m) && Tidy(p.regions, p.nextVaddr)
  }

  /** User mode reaches nothing but the regions and, where the kernel keeps out of the window, all of them. */
  ghost predicate Sound(s: State, p: Proc, window: bool) {
    p.pageTable != 0 ==>
      Backed(p.regions, Mapping(s.mem, p.pageTable)) && (window ==> Exact(p, Mapping(s.mem, p.pageTable)))
  }

  // ----- Kernel ranges

  /** The kernel maps nothing for user mode and, where it is asked for, nothing in the mmap window. */
  ghost predicate KernelRange(m: KernelMap, window: bool) {
    && !m.flags.user
    && (window ==> forall j: nat :: j < PageCount(m.va, m.size) ==> !InWindow(Vpn(AlignedDown(m.va) + 4096 * j), MMAP_BASE))
  }

  ghost predicate KernelRanges(maps: seq<KernelMap>, window: bool) {
    forall i :: 0 <= i < |maps| ==> KernelRange(maps[i], window)
  }

  ghost predicate Outside(m: map<nat, Desc>, window: bool) {
    forall v :: v in m ==> !UserReaches(m[v]) && (window ==> !InWindow(v, MMAP_BASE))
  }

  /** A page of a bound range comes from the range or was there before. */
  lemma {:induction false} BindCases(m: map<nat, Desc>, vs: seq<nat>, ds: seq<Desc>, n: nat, v: nat) returns (k: nat)
    requires n <= |vs| == |ds| && v in Bind(m, vs, ds, n)
    ensures k <= n
    ensures if k < n then v == vs[k] && Bind(m, vs, ds, n)[v] == ds[k] else v in m && Bind(m, vs, ds, n)[v] == m[v]
  {
    k := n;
    if n > 0 {
      if v == vs[n - 1] {
        k := n - 1;
      } else {
        k := BindCases(m, vs, ds, n - 1, v);
        if k == n - 1 {
          k := n;
        }
      }
    }
  }

  lemma RangeOutside(m: map<nat, Desc>, range: KernelMap, window: bool)
    requires Outside(m, window) && KernelRange(range, window)
    ensures Outside(BindRange(m, range.va, range.pa, range.size, range.flags), window)
  {
    hide Vpns, Descs, Bind, PageCount, AlignedDown, Vpn, InWindow;
    var n := PageCount(range.va, range.size);
    var vs, ds := Vpns(AlignedDown(range.va), n), Descs(AlignedDown(range.pa), range.flags, n);
    var m' := Bind(m, vs, ds, n);
    forall v | v in m'
      ensures !UserReaches(m'[v]) && (window ==> !InWindow(v, MMAP_BASE))
    {
      var k := BindCases(m, vs, ds, n, v);
      if k < n {
        VpnsAt(AlignedDown(range.va), n, k);
        DescsAt(AlignedDown(range.pa), range.flags, n, k);
      }
    }
  }

  lemma {:induction false} KernelOutside(m: map<nat, Desc>, maps: seq<KernelMap>, i: nat, window: bool)
    requires Outside(m, window) && KernelRanges(maps, window) && i <= |maps|
    ensures Outside(BindKernel(m, maps, i), window)
    decreases |maps| - i
  {
    hide Outside, KernelRange, BindRange;
    if i < |maps| {
      RangeOutside(m, maps[i], window);
      KernelOutside(BindRange(m, maps[i].va, maps[i].pa, maps[i].size, maps[i].flags), maps, i + 1, window);
    }
  }

  // ----- A process just started

  lemma StartSound(m: map<nat, Desc>, maps: seq<KernelMap>, slot: nat, image: nat, stack: nat, window: bool)
    requires Translates(m, maps, slot, image, stack) && KernelRanges(maps, window) && slot < MAX_PROCESSES
    requires image % 4096 == 0 && stack % 4096 == 0 && 0 < image && 0 < stack && image + 8192 <= ADDRESS_LIMIT && stack + 4096 <= ADDRESS_LIMIT
    requires UserRange(m, ImageVaddr(slot), image, IMAGE_SIZE, Prot(true, false, true, false))
    requires UserRange(m, StackVaddr(slot), stack, STACK_SIZE, Prot(true, true, false, false))
    ensures var regs := StartRegions(slot, image, true, stack, true);
            Backed(regs, m) && (window ==> Ahead(MMAP_BASE, m) && Resident(regs, m) && Tidy(regs, MMAP_BASE))
  {
    hide UserRange, Resident, Tidy, BindKernel, BackedBy, InWindow, PageDescriptor, ImageVaddr, StackVaddr, StartRegions, KernelRanges, Vpn;
    KernelOutside(map[], maps, 0, window);
    StartBacked(slot, image, stack);
    StartResident(m, slot, image, stack);
  }

  lemma StartTidy(slot: nat, image: nat, stack: nat)
    requires slot < MAX_PROCESSES && 0 < image && 0 < stack
    ensures Tidy(StartRegions(slot, image, true, stack, true), MMAP_BASE)
  {
    ImagePages(slot);
    WholeIs(ImageVaddr(slot), IMAGE_SIZE, 2);
    WholeIs(StackVaddr(slot), STACK_SIZE, 1);
  }

  /** The two regions of a new process are complete. */
  lemma StartResident(m: map<nat, Desc>, slot: nat, image: nat, stack: nat)
    requires slot < MAX_PROCESSES && image % 4096 == 0 && stack % 4096 == 0 && 0 < image && 0 < stack
    requires UserRange(m, ImageVaddr(slot), image, IMAGE_SIZE, Prot(true, false, true, false))
    requires UserRange(m, StackVaddr(slot), stack, STACK_SIZE, Prot(true, true, false, false))
    ensures var regs := StartRegions(slot, image, true, stack, true); Resident(regs, m) && Tidy(regs, MMAP_BASE)
  {
    hide Vpn, ImageVaddr, StackVaddr, Tidy;
    var regs := StartRegions(slot, image, true, stack, true);
    StartTidy(slot, image, stack);
    forall i: nat, j: nat | i < |regs| && regs[i].start + 4096 * j < regs[i].end
      ensures PageThere(m, regs[i], j)
    {
      if i == 0 {
        assert UserByte(m, ImageVaddr(slot), image, 4096 * j, Prot(true, false, true, false));
      } else {
        assert UserByte(m, StackVaddr(slot), stack, 4096 * j, Prot(true, true, false, false));
      }
    }
  }

  lemma StartBacked(slot: nat, image: nat, stack: nat)
    requires slot < MAX_PROCESSES
    requires image % 4096 == 0 && stack % 4096 == 0 && 0 < image && 0 < stack && image + 8192 <= ADDRESS_LIMIT && stack + 4096 <= ADDRESS_LIMIT
    ensures var code, more, data := Vpn(ImageVaddr(slot)), Vpn(ImageVaddr(slot) + 4096), Vpn(StackVaddr(slot));
            var regs := StartRegions(slot, image, true, stack, true);
            && BackedAt(regs, code, PageDescriptor(image, CODE)) && BackedAt(regs, more, PageDescriptor(image + 4096, CODE))
            && BackedAt(regs, data, PageDescriptor(stack, DATA))
            && !InWindow(code, MMAP_BASE) && !InWindow(more, MMAP_BASE) && !InWindow(data, MMAP_BASE)
  {
    BelowWindow(ImageVaddr(slot));
    BelowWindow(ImageVaddr(slot) + 4096);
    BelowWindow(StackVaddr(slot));
    hide Vpn, AddrMask, InWindow, ImageVaddr, StackVaddr;
    var regs := StartRegions(slot, image, true, stack, true);
    MaskKeeps(image);
    MaskKeeps(image + 4096);
    MaskKeeps(stack);
    assert BackedBy(regs, 0, 0, Vpn(ImageVaddr(slot)), PageDescriptor(image, CODE));
    assert BackedBy(regs, 0, 1, Vpn(ImageVaddr(slot) + 4096), PageDescriptor(image + 4096, CODE));
    assert BackedBy(regs, 1, 0, Vpn(StackVaddr(slot)), PageDescriptor(stack, DATA));
  }

  lemma BelowWindow(va: nat)
    requires va < MMAP_BASE
    ensures !InWindow(Vpn(va), MMAP_BASE)
  {
  }

  // ----- The calls of a process

  lemma FewerSound(regs: seq<Region>, m: map<nat, Desc>, gone: set<nat>)
    requires Backed(regs, m)
    ensures Backed(regs, m - gone)
  {
  }

  lemma MapSound(r: Ram, s: State, p: Proc, t: Tree, hint: nat, size: nat, prot: Prot, window: bool)
    requires SlotOk(r, s, p, Some(t)) && Sound(s, p, window)
    ensures var (_, s', p') := MapAnonymous(r, s, p, hint, size, prot); Sound(s', p', window)
  {
    hide Mapping, SlotOk, MapAnonymous, Backed, Exact, AlignSize, AlignUp, FirstRun, RamOk, AllocRegion, NewPages, Bind, Vpns, Descs,
         UserRange, FlagsToVmm;
    HasTable(r, s, p, t);
    var (res, s', p') := MapAnonymous(r, s, p, hint, size, prot);
    if !res.Mapped? {
      var gone := FailedMapShrinks(r, s, p, t, hint, size, prot);
      FewerSound(p.regions, Mapping(s.mem, p.pageTable), gone);
      if window {
        FailedExact(r, s, p, t, hint, size, prot);
      }
    } else {
      MapAnonymousMeaning(r, s, p, t, hint, size, prot);
      var n := AlignSize(size) / 4096;
      SizeOk(size);
      RunPlaced(r, s.free, n);
      CursorAligned(p.nextVaddr);
      var paddr := Addr(r.base, FirstRun(s.free, r.total, n, 0).value);
      GrownSound(p.regions, p.nextVaddr, Mapping(s.mem, p.pageTable), res.addr, paddr, FlagsToVmm(prot).value, n);
      if window {
        ExactParts(p, Mapping(s.mem, p.pageTable));
        GrownAhead(p.nextVaddr, Mapping(s.mem, p.pageTable), res.addr, paddr, FlagsToVmm(prot).value, n);
        GrownExact(p, Mapping(s.mem, p.pageTable), p', Mapping(s'.mem, p.pageTable), paddr, FlagsToVmm(prot).value, n, prot);
      }
    }
  }

  lemma ExactParts(p: Proc, m: map<nat, Desc>)
    requires Exact(p, m)
    ensures Ahead(p.nextVaddr, m) && p.nextVaddr % 4096 == 0 && AlignUp(p.nextVaddr) == p.nextVaddr
  {
    UserVmWhen.Up(p.nextVaddr);
  }

  /** A failed call changes no translation, since nothing is mapped at the cursor. */
  lemma FailedExact(r: Ram, s: State, p: Proc, t: Tree, hint: nat, size: nat, prot: Prot)
    requires SlotOk(r, s, p, Some(t)) && Exact(p, Mapping(s.mem, p.pageTable)) && p.pageTable != 0
    requires !MapAnonymous(r, s, p, hint, size, prot).0.Mapped?
    ensures var (_, s', p') := MapAnonymous(r, s, p, hint, size, prot); Exact(p', Mapping(s'.mem, p.pageTable))
  {
    hide Mapping, SlotOk, MapAnonymous, AlignSize, AlignUp, FirstRun, AllocRegion, PageThere;
    var (_, s', p') := MapAnonymous(r, s, p, hint, size, prot);
    var m := Mapping(s.mem, p.pageTable);
    var _ := FailedMapShrinks(r, s, p, t, hint, size, prot);
    ExactParts(p, m);
    SizeOk(size);
    FailedMapRestores(r, s, p, t, hint, size, prot);
    if ReachesMapping(r, s, p, hint, size, prot) {
      CursorInWindow(p, AlignSize(size));
    }
    assert Mapping(s'.mem, p.pageTable) == m;
  }

  /** The place an mmap would take lies in the window. */
  lemma CursorInWindow(p: Proc, n: nat)
    requires AllocRegion(p, n).Some?
    ensures InWindow(Vpn(AlignUp(p.nextVaddr)), p.nextVaddr)
  {
    CursorAligned(p.nextVaddr);
    var a := AlignUp(p.nextVaddr);
    assert a < MMAP_LIMIT;
    hide AlignUp;
  }

  lemma FewerAhead(from: nat, from': nat, m: map<nat, Desc>, gone: set<nat>)
    requires from <= from'
    ensures Ahead(from, m) ==> Ahead(from', m - gone)
  {
  }

  lemma CursorAligned(v: nat)
    ensures AlignUp(v) % 4096 == 0 && v <= AlignUp(v)
  {
  }

  /** New pages in a new owned region. */
  lemma GrownSound(regs: seq<Region>, next: nat, m: map<nat, Desc>, addr: nat, paddr: nat, flags: Flags, n: nat)
    requires Backed(regs, m) && addr % 4096 == 0 && addr + 4096 * n <= MMAP_LIMIT
    requires 0 < paddr && paddr % 4096 == 0 && paddr + 4096 * n <= ADDRESS_LIMIT
    ensures var m' := Bind(m, Vpns(addr, n), Descs(paddr, flags, n), n);
            Backed(regs + [Region(addr, addr + 4096 * n, paddr, true)], m')
  {
    hide Vpns, Descs, Bind;
    var vs, ds := Vpns(addr, n), Descs(paddr, flags, n);
    var m' := Bind(m, vs, ds, n);
    var regs' := regs + [Region(addr, addr + 4096 * n, paddr, true)];
    forall v | v in m'
      ensures UserReaches(m'[v]) ==> BackedAt(regs', v, m'[v])
    {
      var k := BindCases(m, vs, ds, n, v);
      if k < n {
        VpnsAt(addr, n, k);
        DescsAt(paddr, flags, n, k);
        NewPage(regs, addr, paddr, flags, n, k);
      } else if UserReaches(m[v]) {
        OldPage(regs, Region(addr, addr + 4096 * n, paddr, true), v, m[v]);
      }
    }
  }

  /** The cursor moves past the new pages. */
  lemma GrownAhead(next: nat, m: map<nat, Desc>, addr: nat, paddr: nat, flags: Flags, n: nat)
    requires Ahead(next, m) && next <= addr && addr % 4096 == 0 && addr + 4096 * n <= MMAP_LIMIT
    ensures Ahead(addr + 4096 * n, Bind(m, Vpns(addr, n), Descs(paddr, flags, n), n))
  {
    hide Vpns, Descs, Bind;
    var vs, ds := Vpns(addr, n), Descs(paddr, flags, n);
    forall v | v in Bind(m, vs, ds, n)
      ensures !InWindow(v, addr + 4096 * n)
    {
      var k := BindCases(m, vs, ds, n, v);
      if k < n {
        VpnsAt(addr, n, k);
        assert Vpn(addr + 4096 * k) <= (addr + 4096 * k) / 4096;
      }
    }
  }

  /** The regions are complete again, the new one included. */
  lemma GrownExact(p: Proc, m: map<nat, Desc>, p': Proc, m': map<nat, Desc>, paddr: nat, flags: Flags, n: nat, prot: Prot)
    requires Exact(p, m) && n > 0 && p.nextVaddr + 4096 * n <= MMAP_LIMIT && paddr > 0 && paddr % 4096 == 0
    requires NewPages(m, Vpns(p.nextVaddr, n), n) && m' == Bind(m, Vpns(p.nextVaddr, n), Descs(paddr, flags, n), n)
    requires UserRange(m', p.nextVaddr, paddr, 4096 * n, prot)
    requires p'.nextVaddr == p.nextVaddr + 4096 * n
    requires p'.regions == p.regions + [Region(p.nextVaddr, p.nextVaddr + 4096 * n, paddr, true)]
    requires Ahead(p'.nextVaddr, m')
    ensures Exact(p', m')
  {
    hide Vpns, Descs, Bind, NewPages, Ahead, Vpn, UserRange;
    var a, g := p.nextVaddr, Region(p.nextVaddr, p.nextVaddr + 4096 * n, paddr, true);
    var vs, ds := Vpns(a, n), Descs(paddr, flags, n);
    forall i: nat, j: nat | i < |p'.regions| && p'.regions[i].start + 4096 * j < p'.regions[i].end
      ensures PageThere(m', p'.regions[i], j)
    {
      if i < |p.regions| {
        assert PageThere(m, p.regions[i], j);
        BindKeeps(m, vs, ds, n, Vpn(p.regions[i].start + 4096 * j));
      } else {
        RegionPage(m', a, paddr, 4096 * n, j, prot);
      }
    }
    assert TidyRegion(g, p'.nextVaddr);
    assert forall i :: 0 <= i < |p.regions| ==> TidyRegion(p.regions[i], p.nextVaddr);
  }

  lemma RegionPage(m: map<nat, Desc>, va: nat, pa: nat, size: nat, j: nat, prot: Prot)
    requires UserRange(m, va, pa, size, prot) && 4096 * j < size && pa % 4096 == 0
    ensures PageThere(m, Region(va, va + size, pa, true), j)
  {
    assert UserByte(m, va, pa, 4096 * j, prot);
  }

  /** Binding new pages leaves an old one alone. */
  lemma {:induction false} BindKeeps(m: map<nat, Desc>, vs: seq<nat>, ds: seq<Desc>, n: nat, v: nat)
    requires n <= |vs| == |ds| && NewPages(m, vs, n) && v in m
    ensures v in Bind(m, vs, ds, n) && Bind(m, vs, ds, n)[v] == m[v]
  {
    hide Firsts;
    if n > 0 {
      assert vs[n - 1] !in m;
      BindKeeps(m, vs, ds, n - 1, v);
    }
  }

  lemma NewPage(regs: seq<Region>, addr: nat, paddr: nat, flags: Flags, n: nat, k: nat)
    requires k < n && addr % 4096 == 0 && addr + 4096 * n <= MMAP_LIMIT
    requires 0 < paddr && paddr % 4096 == 0 && paddr + 4096 * n <= ADDRESS_LIMIT
    ensures BackedAt(regs + [Region(addr, addr + 4096 * n, paddr, true)], Vpn(addr + 4096 * k), PageDescriptor(paddr + 4096 * k, flags))
  {
    VmmRanges.Aligned(paddr, k);
    MaskKeeps(paddr + 4096 * k);
    assert BackedBy(regs + [Region(addr, addr + 4096 * n, paddr, true)], |regs|, k, Vpn(addr + 4096 * k),
                    PageDescriptor(paddr + 4096 * k, flags));
  }

  lemma OldPage(regs: seq<Region>, g: Region, v: nat, d: Desc)
    requires BackedAt(regs, v, d)
    ensures BackedAt(regs + [g], v, d)
  {
    var i: nat, j: nat :| BackedBy(regs, i, j, v, d);
    assert BackedBy(regs + [g], i, j, v, d);
  }

  lemma UnmapSound(r: Ram, s: State, p: Proc, t: Tree, addr: nat, size: nat, window: bool)
    requires SlotOk(r, s, p, Some(t)) && Sound(s, p, window)
    ensures var (_, s', p') := UnmapAnonymous(r, s, p, addr, size); Sound(s', p', window)
  {
    hide Mapping, SlotOk, UnmapAnonymous, Backed, Exact, Vpns, PageCount, AlignedDown, AlignSize;
    var n := AlignSize(size);
    HasTable(r, s, p, t);
    var (ok, s', p') := UnmapAnonymous(r, s, p, addr, size);
    var done := UnmapAnonymousMeaning(r, s, p, t, addr, size);
    var vs := Vpns(AlignedDown(addr), PageCount(addr, n));
    var m := Mapping(s.mem, p.pageTable);
    UnmapTable(r, s, p, addr, size);
    FewerSound(p.regions, m, Firsts(vs, done));
    if ok {
      var k: nat :| k < |p.regions| && Unmaps(p.regions[k], addr, n)
                    && p' == p.(regions := p.regions[..k] + p.regions[k + 1..])
                    && s'.free == s.free + RegionPages(r, p.regions[k]);
      UnmapFits(r, s, p, t, addr, size);
      WithoutSound(p.regions, m, k, addr, n);
      if window {
        WithoutExact(r, s, p, t, k, addr, n);
      }
    } else if window {
      RefusedExact(r, s, p, t, addr, size);
    }
  }

  /** A refused call changes nothing: a region of those bounds would have all its pages mapped. */
  lemma RefusedExact(r: Ram, s: State, p: Proc, t: Tree, addr: nat, size: nat)
    requires SlotOk(r, s, p, Some(t)) && Exact(p, Mapping(s.mem, p.pageTable)) && !UnmapAnonymous(r, s, p, addr, size).0
    ensures UnmapAnonymous(r, s, p, addr, size).1 == s
  {
    hide Mapping, SlotOk, UnmapAnonymous, AlignSize, PageThere, Vpn;
    var n := AlignSize(size);
    SizeOk(size);
    if k: nat :| k < |p.regions| && Unmaps(p.regions[k], addr, n) && n > 0 {
      assert TidyRegion(p.regions[k], p.nextVaddr);
      RegionResident(p, Mapping(s.mem, p.pageTable), k);
      UnmapAnonymousWhen(r, s, p, t, addr, size, n / 4096);
    } else {
      NoSuchRegion(r, s, p, addr, size);
    }
  }

  lemma NoSuchRegion(r: Ram, s: State, p: Proc, addr: nat, size: nat)
    requires AlignSize(size) == 0 || forall k: nat :: k < |p.regions| ==> !Unmaps(p.regions[k], addr, AlignSize(size))
    ensures UnmapAnonymous(r, s, p, addr, size).1 == s
  {
    hide UnmapRange, FreePages, AlignSize, FindFrom;
  }

  lemma RegionResident(p: Proc, m: map<nat, Desc>, k: nat)
    requires Exact(p, m) && k < |p.regions|
    ensures AllMapped(m, p.regions[k].start, (p.regions[k].end - p.regions[k].start) / 4096)
  {
    hide Vpn, Ahead;
    var g := p.regions[k];
    forall j: nat | j < (g.end - g.start) / 4096
      ensures Vpn(g.start + 4096 * j) in m
    {
      assert g.start + 4096 * j < g.end;
      assert PageThere(m, g, j);
    }
  }

  /** When a region and its pages are gone, the others are still complete. */
  lemma WithoutExact(r: Ram, s: State, p: Proc, t: Tree, k: nat, addr: nat, n: nat)
    requires SlotOk(r, s, p, Some(t)) && Exact(p, Mapping(s.mem, p.pageTable)) && k < |p.regions| && Unmaps(p.regions[k], addr, n)
    ensures var vs := Vpns(AlignedDown(addr), PageCount(addr, n));
            Exact(p.(regions := p.regions[..k] + p.regions[k + 1..]), Mapping(s.mem, p.pageTable) - Firsts(vs, |vs|))
  {
    hide Mapping, Vpns, PageCount, AlignedDown, SlotOk, Firsts, Vpn, TidyRegion;
    var vs, m := Vpns(AlignedDown(addr), PageCount(addr, n)), Mapping(s.mem, p.pageTable);
    var regs, m' := p.regions[..k] + p.regions[k + 1..], m - Firsts(vs, |vs|);
    SlotPlaces(r, s, p, t);
    FewerAhead(p.nextVaddr, p.nextVaddr, m, Firsts(vs, |vs|));
    forall i: nat, j: nat | i < |regs| && regs[i].start + 4096 * j < regs[i].end
      ensures PageThere(m', regs[i], j)
    {
      var i0 := if i < k then i else i + 1;
      assert regs[i] == p.regions[i0] && i0 != k;
      assert PageThere(m, p.regions[i0], j);
      ElsewherePage(p.regions, p.nextVaddr, k, i0, j);
    }
    assert forall i :: 0 <= i < |regs| ==> regs[i] == p.regions[if i < k then i else i + 1];
  }

  lemma SlotPlaces(r: Ram, s: State, p: Proc, t: Tree)
    requires SlotOk(r, s, p, Some(t))
    ensures PlacesApart(p.regions)
  {
    hide Live, Owned, Mapping, NoWriteExec;
  }

  /** A page of another region is none of those that go with region `k`. */
  lemma ElsewherePage(regs: seq<Region>, next: nat, k: nat, i: nat, j: nat)
    requires PlacesApart(regs) && Tidy(regs, next) && k < |regs| && i < |regs| && i != k && regs[i].start + 4096 * j < regs[i].end
    ensures var addr, n := regs[k].start, regs[k].end - regs[k].start;
            var vs := Vpns(AlignedDown(addr), PageCount(addr, n));
            Vpn(regs[i].start + 4096 * j) !in Firsts(vs, |vs|)
  {
    hide Vpns, Firsts, PageCount, Vpn;
    var g, h := regs[k], regs[i];
    assert TidyRegion(g, next) && TidyRegion(h, next);
    Elsewhere(regs, i, k);
    var n := (g.end - g.start) / 4096;
    assert g.end - g.start == 4096 * n;
    WholeRange(g.start, n);
    var vs := Vpns(g.start, n);
    FirstsElements(vs, n);
    VpnPlain(h.start, j);
    forall l: nat | l < n
      ensures vs[l] != Vpn(h.start + 4096 * j)
    {
      VpnsAt(g.start, n, l);
      VpnPlain(g.start, l);
      PagesDiffer(g, h, l, j);
    }
  }

  lemma Elsewhere(regs: seq<Region>, i: nat, k: nat)
    requires PlacesApart(regs) && i < |regs| && k < |regs| && i != k
    ensures regs[k].end <= regs[i].start || regs[i].end <= regs[k].start
  {
  }

  lemma PagesDiffer(g: Region, h: Region, l: nat, j: nat)
    requires g.end <= h.start || h.end <= g.start
    requires g.start % 4096 == 0 && h.start % 4096 == 0 && g.start + 4096 * l < g.end && h.start + 4096 * j < h.end
    ensures g.start / 4096 + l != h.start / 4096 + j
  {
  }

  lemma UnmapTable(r: Ram, s: State, p: Proc, addr: nat, size: nat)
    ensures var p' := UnmapAnonymous(r, s, p, addr, size).2; p'.pageTable == p.pageTable && p'.nextVaddr == p.nextVaddr
  {
    hide UnmapRange, FindRegion, FreePages, AlignSize;
  }

  lemma UnmapFits(r: Ram, s: State, p: Proc, t: Tree, addr: nat, size: nat)
    requires SlotOk(r, s, p, Some(t)) && UnmapAnonymous(r, s, p, addr, size).0
    ensures Fits(addr, AlignSize(size)) && AlignSize(size) > 0
  {
    hide SlotOk, UnmapLoop, FindRegion, FreePages, AlignSize;
  }

  /** What the other regions back is still there when region `k` and its pages are gone. */
  lemma WithoutSound(regs: seq<Region>, m: map<nat, Desc>, k: nat, addr: nat, n: nat)
    requires Backed(regs, m) && k < |regs| && Unmaps(regs[k], addr, n) && Fits(addr, n)
    ensures var vs := Vpns(AlignedDown(addr), PageCount(addr, n)); Backed(regs[..k] + regs[k + 1..], m - Firsts(vs, |vs|))
  {
    hide Vpns, PageCount, AlignedDown, Fits;
    var vs := Vpns(AlignedDown(addr), PageCount(addr, n));
    var m' := m - Firsts(vs, |vs|);
    var regs' := regs[..k] + regs[k + 1..];
    forall v | v in m' && UserReaches(m'[v])
      ensures BackedAt(regs', v, m'[v])
    {
      assert BackedAt(regs, v, m[v]);
      var i: nat, j: nat :| BackedBy(regs, i, j, v, m[v]);
      if i == k {
        GonePage(addr, n, j);
      }
      assert BackedBy(regs', if i < k then i else i - 1, j, v, m'[v]);
    }
  }

  /** Page `j` of an unmapped range is among those that went. */
  lemma GonePage(addr: nat, n: nat, j: nat)
    requires Fits(addr, n) && addr + 4096 * j < addr + n
    ensures var vs := Vpns(AlignedDown(addr), PageCount(addr, n)); Vpn(addr + 4096 * j) in Firsts(vs, |vs|)
  {
    var a, count := AlignedDown(addr), PageCount(addr, n);
    assert j < count;
    VpnsAt(a, count, j);
    assert (a + 4096 * j) / 4096 == (addr + 4096 * j) / 4096;
    hide Vpns, PageCount, AlignedDown;
    FirstsElements(Vpns(a, count), count);
  }

  // ----- What it means

  /** A page that user mode can reach is a page of memory that the process owns. */
  lemma Reached(r: Ram, regs: seq<Region>, v: nat, d: Desc) returns (x: nat)
    requires RegionsOk(r, regs) && BackedAt(regs, v, d)
    ensures d.addr == Addr(r.base, x) && x in Owned(r, regs)
  {
    var i: nat, j: nat :| BackedBy(regs, i, j, v, d);
    var g := regs[i];
    assert RegionOk(r, g);
    x := (g.paddr - r.base) / 4096 + j;
    assert j < (g.end - g.start) / 4096;
    assert x in RegionPages(r, g);
  }
}
