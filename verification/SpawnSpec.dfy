/** Setting up a new process, step by step, with the undo of each step. */
module SpawnSpec {
  import opened Basics
  import opened PhysicalPages
  import opened PageTableFormat
  import opened PageTree
  import opened VmmSpec
  import opened VmmRanges
  import opened VmmTeardown
  import opened ProcessSpec
  import opened UserVmSpec

  const IMAGE_VA_BASE: nat := 0x40_0000
  const IMAGE_VA_STRIDE: nat := 0x1_0000
  const IMAGE_SIZE: nat := 8192
  const STACK_VA_BASE: nat := 0x80_0000
  const STACK_VA_STRIDE: nat := 0x1_0000
  const STACK_SIZE: nat := 4096

  /** Physical pages that belong to the loader until the process takes them over; 0 when there are none. */
  datatype Storage = Storage(image: nat, stack: nat)

  /** One call of the kernel identity mapping. */
  datatype KernelMap = KernelMap(va: nat, pa: nat, size: nat, flags: Flags)

  /** What the world outside the memory system answers during one spawn. */
  datatype SpawnInput = SpawnInput(memoryKnown: bool, resolved: bool, loads: bool, entryOffset: nat,
                                   kernelMaps: seq<KernelMap>, mmioMaps: bool, pstate: nat,
                                   argvPlaced: bool, argvVaddr: nat, argc: nat)

  function ImageVaddr(slot: nat): nat {
    IMAGE_VA_BASE + slot * IMAGE_VA_STRIDE
  }

  function StackVaddr(slot: nat): nat {
    STACK_VA_BASE + slot * STACK_VA_STRIDE
  }

  function FreeImage(r: Ram, free: set<nat>, image: nat): set<nat> {
    if image == 0 then free else FreePages(r, free, image, 2)
  }

  /** `free_user_storage`. */
  function FreeStorage(r: Ram, s: State, st: Storage): State {
    var free1 := FreeImage(r, s.free, st.image);
    s.(free := if st.stack == 0 then free1 else FreePage(r, free1, st.stack))
  }

  function LoadImage(r: Ram, s: State, st: Storage, loads: bool): (bool, State, Storage) {
    if st.image != 0 then (false, s, st)
    else
      var (image, s1) := AllocPages(r, s, 2);
      if image == 0 then (false, s1, st)
      else if !loads then (false, s1.(free := FreeImage(r, s1.free, image)), st)
      else (true, s1, st.(image := image))
  }

  /** `user_vm_map_physical`. */
  function MapPhysical(r: Ram, s: State, p: Proc, va: nat, pa: nat, size: nat, prot: Prot): (bool, State, Proc) {
    if p.pageTable == 0 || va == 0 || pa == 0 || size == 0 || FlagsToVmm(prot) == None
       || FindRegion(p, va, size) == None then (false, s, p)
    else
      var (ok, s1) := MapRange(r, s, p.pageTable, va, pa, size, FlagsToVmm(prot).value);
      if !ok then (false, s1.(mem := UnmapRange(s1.mem, p.pageTable, va, size).1), p)
      else
        match SetMapping(p, va, size, pa, false)
        case None => (false, s1.(mem := UnmapRange(s1.mem, p.pageTable, va, size).1), p)
        case Some(p1) => (true, s1, p1)
  }

  /** The kernel identity mapping: a sequence of range mappings that stops at the first failure. */
  function MapKernel(r: Ram, s: State, pgd: nat, maps: seq<KernelMap>, i: nat): (bool, State)
    requires i <= |maps|
    decreases |maps| - i
  {
    if i == |maps| then (true, s)
    else
      var (ok, s1) := MapRange(r, s, pgd, maps[i].va, maps[i].pa, maps[i].size, maps[i].flags);
      if ok then MapKernel(r, s1, pgd, maps, i + 1) else (false, s1)
  }

  function CreatePageTable(r: Ram, s: State, p: Proc, slot: nat, st: Storage, inp: SpawnInput): (bool, State, Proc) {
    var (pgd, s1) := NewTable(r, s);
    if pgd == 0 then (false, s1, p)
    else
      var (mapped, s2) := MapKernel(r, s1, pgd, inp.kernelMaps, 0);
      if !mapped || !inp.mmioMaps then (false, s2.(free := FreeLevel(r, s2.mem, s2.free, pgd, 0)), p)
      else
        var p2 := p.(pageTable := pgd);
        var (ok3, s3, p3) := MapPhysical(r, s2, p2, ImageVaddr(slot), st.image, IMAGE_SIZE, Prot(true, false, true, false));
        if !ok3 then (false, s3, p3)
        else MapPhysical(r, s3, p3, StackVaddr(slot), st.stack, STACK_SIZE, Prot(true, true, false, false))
  }

  /** `user_image_prepare_process`: entry state and the two fixed regions, or the process as it was. */
  function PrepareProcess(p: Proc, imageBase: nat, imageSize: nat, entryOffset: nat,
                          stackStart: nat, stackSize: nat, pstate: nat): Option<Proc> {
    if imageBase == 0 || imageSize == 0 || entryOffset >= imageSize || imageBase + entryOffset >= U64_LIMIT
       || stackStart == 0 || stackSize == 0 || stackStart + stackSize >= U64_LIMIT then None
    else
      var p1 := p.(pc := imageBase + entryOffset, sp := stackStart + stackSize, pstate := pstate);
      match AddRegion(p1, imageBase, imageSize)
      case None => None
      case Some(p2) => AddRegion(p2, stackStart, stackSize)
  }

  function InitProcess(r: Ram, s: State, p: Proc, st: Storage, slot: nat, inp: SpawnInput): (bool, State, Proc, Storage) {
    if slot >= MAX_PROCESSES || st.image == 0 then (false, s, p, st)
    else
      var (stack, s1) := AllocPages(r, s, 1);
      var st1 := st.(stack := stack);
      if stack == 0 then (false, s1, p, st1)
      else
        match PrepareProcess(p, ImageVaddr(slot), IMAGE_SIZE, inp.entryOffset, StackVaddr(slot), STACK_SIZE, inp.pstate)
        case None => (false, s1, p, st1)
        case Some(p2) =>
          var (ok3, s3, p3) := CreatePageTable(r, s1, p2, slot, st1, inp);
          if !ok3 then (false, s3, p3, st1)
          else
            match SetMapping(p3, ImageVaddr(slot), IMAGE_SIZE, st1.image, true)
            case None => (false, s3, p3, st1)
            case Some(p4) =>
              var st2 := st1.(image := 0);
              match SetMapping(p4, StackVaddr(slot), STACK_SIZE, st2.stack, true)
              case None => (false, s3, p4, st2)
              case Some(p5) => (true, s3, p5, st2)
  }

  // ----- Pages in transit

  /** The pages the loader still holds. */
  function StoragePages(r: Ram, st: Storage): set<nat> {
    (if st.image == 0 || st.image < r.base then {} else Run((st.image - r.base) / 4096, 2))
    + (if st.stack == 0 || st.stack < r.base then {} else Run((st.stack - r.base) / 4096, 1))
  }

  predicate StorageOk(r: Ram, st: Storage) {
    && (st.image != 0 ==> r.base <= st.image && (st.image - r.base) % 4096 == 0 && (st.image - r.base) / 4096 + 2 <= r.total)
    && (st.stack != 0 ==> r.base <= st.stack && (st.stack - r.base) % 4096 == 0 && (st.stack - r.base) / 4096 + 1 <= r.total)
  }

  /**
   * Between the first allocation and the end of a spawn, the pages that were free in `s0` are
   * exactly those still free, held by the loader, or held by the new process.
   */
  ghost predicate Transit(r: Ram, s0: State, s: State, p: Proc, ot: Option<Tree>, st: Storage) {
    && SlotOk(r, s, p, ot) && StorageOk(r, st)
    && StoragePages(r, st) !! s.free && StoragePages(r, st) !! Hold(r, p, ot)
    && s.free + Hold(r, p, ot) + StoragePages(r, st) == s0.free
    && Kept(s0.mem, s.mem, r.base, s0.free)
  }

  /** Freeing what the loader holds returns exactly its pages. */
  lemma FreeStorageOk(r: Ram, s: State, st: Storage)
    requires r.base % 4096 == 0 && StorageOk(r, st)
    ensures FreeStorage(r, s, st) == s.(free := s.free + StoragePages(r, st))
  {
    hide FreePages, FreePage, Run;
    var imagePages := if st.image == 0 || st.image < r.base then {} else Run((st.image - r.base) / 4096, 2);
    if st.image != 0 {
      FreePagesOk(r, s.free, (st.image - r.base) / 4096, 2);
    }
    assert FreeImage(r, s.free, st.image) == s.free + imagePages;
    if st.stack != 0 {
      FreeMarked(r, s.free + imagePages, (st.stack - r.base) / 4096);
      RunOfOne((st.stack - r.base) / 4096);
    }
  }

  lemma RunOfOne(page: nat)
    ensures Run(page, 1) == {page}
  {
  }

  /** The undo at the end of every failed spawn: release the process, then free what the loader still holds. */
  lemma UndoSpawn(r: Ram, s0: State, s: State, p: Proc, ot: Option<Tree>, st: Storage)
    requires Transit(r, s0, s, p, ot, st)
    ensures FreeStorage(r, s.(free := FreeResources(r, s, p)), st).free == s0.free
  {
    hide SlotOk, Hold, StoragePages, FreeResources, FreeStorage;
    FreeResourcesOk(r, s, p, ot);
    RamAligned(r, s, p, ot);
    FreeStorageOk(r, s.(free := FreeResources(r, s, p)), st);
  }

  lemma RamAligned(r: Ram, s: State, p: Proc, ot: Option<Tree>)
    requires SlotOk(r, s, p, ot)
    ensures r.base % 4096 == 0
  {
  }

  /** A step of the new process keeps the page balance of the spawn. */
  lemma TransitStep(r: Ram, s0: State, s: State, p: Proc, ot: Option<Tree>, st: Storage,
                    s': State, p': Proc, ot': Option<Tree>)
    requires Transit(r, s0, s, p, ot, st) && SlotStep(r, s, p, ot, s', p', ot')
    ensures Transit(r, s0, s', p', ot', st)
  {
    hide SlotOk, Hold, StoragePages, StorageOk;
    assert s'.free <= s.free + Hold(r, p, ot) && Hold(r, p', ot') <= s.free + Hold(r, p, ot);
  }

  lemma TransitStart(r: Ram, s: State, p: Proc)
    requires SlotOk(r, s, p, None) && Owned(r, p.regions) == {}
    ensures Transit(r, s, s, p, None, Storage(0, 0))
  {
    hide Owned, RegionsOk;
  }

  /** Pages the loader allocates move from the free set into its storage. */
  lemma TransitAlloc(r: Ram, s0: State, s: State, p: Proc, ot: Option<Tree>, st: Storage, page: nat, n: nat, st': Storage)
    requires Transit(r, s0, s, p, ot, st) && Run(page, n) <= s.free
    requires StorageOk(r, st') && StoragePages(r, st') == StoragePages(r, st) + Run(page, n)
    ensures Transit(r, s0, s.(free := s.free - Run(page, n)), p, ot, st')
  {
    hide StoragePages, StorageOk, Run, Owned, RegionsOk, Live, Mapping, NoWriteExec;
    var free' := s.free - Run(page, n);
    if ot.Some? {
      LiveWithFewerFree(r, s, ot.value, p.pageTable, free');
      LiveApart(r, s, ot.value, p.pageTable);
    }
  }

  /** Loading the image: success or failure, no page is lost. */
  lemma LoadImageOk(r: Ram, s: State, p: Proc, loads: bool)
    requires SlotOk(r, s, p, None) && Owned(r, p.regions) == {}
    ensures var (ok, s', st') := LoadImage(r, s, Storage(0, 0), loads);
            && Transit(r, s, s', p, None, st') && st'.stack == 0
            && (ok ==> st'.image != 0) && (!ok ==> s' == s && st'.image == 0)
  {
    hide Transit, Run, FreePages;
    TransitStart(r, s, p);
    var page := AllocPagesOk(r, s, 2);
    var (image, s1) := AllocPages(r, s, 2);
    if image != 0 {
      var st' := Storage(image, 0);
      assert StoragePages(r, st') == StoragePages(r, Storage(0, 0)) + Run(page, 2);
      TransitAlloc(r, s, s, p, None, Storage(0, 0), page, 2, st');
      FreePagesOk(r, s1.free, page, 2);
      assert s.free - Run(page, 2) + Run(page, 2) == s.free;
    }
  }

  /** Registering unowned regions changes no page. */
  lemma AddRegionStep(r: Ram, s: State, p: Proc, ot: Option<Tree>, p1: Proc, start: nat, size: nat)
    requires SlotOk(r, s, p, ot) && p1.regions == p.regions && p1.pageTable == p.pageTable
    requires AddRegion(p1, start, size).Some?
    ensures SlotStep(r, s, p, ot, s, AddRegion(p1, start, size).value, ot)
  {
    hide Mapping, RegionsOk, Owned, Live, NoWriteExec, RegionPages;
    AddThenFind(p1, start, size);
    var g := Region(start, start + size, 0, false);
    NothingOwned(r, g);
    assert RegionOk(r, g);
    OwnedAppend(r, p.regions, g);
    AppendOk(r, p.regions, g);
    KeptSelf(s.mem, r.base, s.free + Hold(r, p, ot));
  }

  /** Changing a region that owns nothing into `g`. */
  lemma OwnedUpdate(r: Ram, regs: seq<Region>, k: nat, g: Region)
    requires RegionsOk(r, regs) && k < |regs| && RegionPages(r, regs[k]) == {}
    requires RegionOk(r, g) && RegionPages(r, g) !! Owned(r, regs) && g.start == regs[k].start && g.end == regs[k].end
    ensures RegionsOk(r, regs[k := g]) && Owned(r, regs[k := g]) == Owned(r, regs) + RegionPages(r, g)
  {
    hide RegionPages, RegionOk;
    var a := regs[k := g];
    forall i, j | 0 <= i < j < |a|
      ensures RegionPages(r, a[i]) !! RegionPages(r, a[j])
    {
      OwnedAt(r, regs, i);
      OwnedAt(r, regs, j);
    }
    forall x | x in Owned(r, a)
      ensures x in Owned(r, regs) || x in RegionPages(r, g)
    {
      var i: nat :| i < |a| && x in RegionPages(r, a[i]);
    }
    forall x | x in Owned(r, regs) || x in RegionPages(r, g)
      ensures x in Owned(r, a)
    {
      if x in RegionPages(r, g) {
        assert a[k] == g;
      } else {
        var i: nat :| i < |regs| && x in RegionPages(r, regs[i]);
        assert a[i] == regs[i];
      }
    }
  }

  predicate OwnsNothing(p: Proc) {
    forall i :: 0 <= i < |p.regions| ==> !p.regions[i].owned
  }

  /** Mapping loader pages into a registered region. */
  lemma MapPhysicalOk(r: Ram, s: State, p: Proc, t: Tree, va: nat, pa: nat, size: nat, prot: Prot) returns (t': Tree)
    requires SlotOk(r, s, p, Some(t)) && OwnsNothing(p)
    ensures var (_, s', p') := MapPhysical(r, s, p, va, pa, size, prot);
            SlotStep(r, s, p, Some(t), s', p', Some(t')) && OwnsNothing(p')
  {
    hide Mapping, Kept, RegionsOk, Owned, Live, MapRange, UnmapRange, FindFrom, RegionPages, NoWriteExec, Grown,
         NewPages, Bind, Vpns, Descs, AlignedDown, PageCount, Fits, SlotStep, FlagsToVmm;
    t' := t;
    FlagsNotWriteExec(prot);
    if va == 0 || pa == 0 || size == 0 || FlagsToVmm(prot) == None || FindRegion(p, va, size) == None {
      SameRegionsStep(r, s, p, Some(t), p);
      return;
    }
    var flags, pgd := FlagsToVmm(prot).value, p.pageTable;
    t' := MapRangeOk(r, s, t, pgd, va, pa, size, flags);
    var (ok, s1) := MapRange(r, s, pgd, va, pa, size, flags);
    var k := PageCount(va, size);
    BindNoWriteExec(Mapping(s.mem, pgd), Vpns(AlignedDown(va), k), AlignedDown(pa), flags, k, k);
    GrownStep(r, s, p, t, s1, t');
    StepSlot(r, s, p, Some(t), s1, p, Some(t'));
    if ok {
      var j := FindRegion(p, va, size).value;
      var p1 := SetMapping(p, va, size, pa, false).value;
      UnownedUpdate(r, s1, p, t', j, pa, p1);
      StepTrans(r, s, p, Some(t), s1, p, Some(t'), s1, p1, Some(t'));
    } else {
      var done := UnmapRangeOk(r, s1, t', pgd, va, size);
      UnmappedNoWriteExec(Mapping(s1.mem, pgd), Firsts(Vpns(AlignedDown(va), k), done));
      var mem2 := UnmapRange(s1.mem, pgd, va, size).1;
      UnmappedStep(r, s1, p, t', mem2);
      StepTrans(r, s, p, Some(t), s1, p, Some(t'), s1.(mem := mem2), p, Some(t'));
    }
  }

  lemma GrownStep(r: Ram, s: State, p: Proc, t: Tree, s': State, t': Tree)
    requires SlotOk(r, s, p, Some(t)) && Live(r, s', t', p.pageTable) && Grown(r, s, t, s', t')
    requires NoWriteExec(Mapping(s'.mem, p.pageTable))
    ensures SlotStep(r, s, p, Some(t), s', p, Some(t'))
  {
    hide Mapping, RegionsOk, Owned, NoWriteExec, Live;
    LiveApart(r, s, t, p.pageTable);
    assert RamOk(r, s'.free);
  }

  lemma UnownedUpdate(r: Ram, s: State, p: Proc, t: Tree, k: nat, pa: nat, p': Proc)
    requires SlotOk(r, s, p, Some(t)) && k < |p.regions| && OwnsNothing(p)
    requires p'.pageTable == p.pageTable
    requires p'.regions == p.regions[k := p.regions[k].(paddr := pa, owned := false)]
    ensures SlotStep(r, s, p, Some(t), s, p', Some(t)) && OwnsNothing(p')
  {
    var g := p'.regions[k];
    assert RegionOk(r, p.regions[k]);
    assert RegionOk(r, g);
    hide Mapping, RegionsOk, Owned, Live, NoWriteExec, RegionPages, RegionOk;
    NothingOwned(r, p.regions[k]);
    NothingOwned(r, g);
    OwnedUpdate(r, p.regions, k, g);
    KeptSelf(s.mem, r.base, s.free + Hold(r, p, Some(t)));
  }

  // ----- The page table of the new process

  /** A fresh root table is a live tree that translates nothing. */
  lemma FreshRoot(r: Ram, s: State, page: nat, s1: State)
    requires RamOk(r, s.free) && page in s.free && Addr(r.base, page) != 0
    requires s1 == State(s.mem[Addr(r.base, page) := ZeroTable()], s.free - {page})
    ensures Live(r, s1, map[ROOT := page], Addr(r.base, page))
    ensures Mapping(s1.mem, Addr(r.base, page)) == map[]
    ensures Kept(s.mem, s1.mem, r.base, {page})
  {
    var t, root := map[ROOT := page], Addr(r.base, page);
    assert Places(t) && Injective(t);
    assert Links(s1.mem, r.base, t);
    forall v: nat
      ensures Get(Mapping(s1.mem, root), v) == Get(map[], v)
    {
      GetIsLookup(s1.mem, root, v);
      if v < VPN_LIMIT {
        LookupIsLeaf(s1.mem, r.base, t, root, v);
        assert OnPath(v, 3) !in t;
      }
    }
    SameGets(Mapping(s1.mem, root), map[]);
    forall x: nat | x !in {page}
      ensures Addr(r.base, x) != root
    {
      AddrInjective(r.base, x, page);
    }
  }

  lemma FreshNoBlocks(r: Ram, s: State, page: nat, s1: State)
    requires s1.mem == s.mem[Addr(r.base, page) := ZeroTable()]
    ensures NoBlocks(s1.mem, r.base, map[ROOT := page])
  {
  }

  /** The kernel identity mapping, however far it gets, only grows the tree. */
  lemma {:induction false} MapKernelOk(r: Ram, s: State, t: Tree, pgd: nat, maps: seq<KernelMap>, i: nat) returns (t': Tree)
    requires Live(r, s, t, pgd) && NoWriteExec(Mapping(s.mem, pgd)) && i <= |maps|
    requires forall j :: 0 <= j < |maps| ==> !(maps[j].flags.write && maps[j].flags.exec)
    ensures var (_, s') := MapKernel(r, s, pgd, maps, i);
            Live(r, s', t', pgd) && Grown(r, s, t, s', t') && NoWriteExec(Mapping(s'.mem, pgd))
    decreases |maps| - i
  {
    hide Mapping, Live, MapRange, NoWriteExec, Grown, NewPages, Bind, Vpns, Descs, AlignedDown, PageCount;
    t' := t;
    if i == |maps| {
      GrownSelf(r, s, t, pgd);
      return;
    }
    var m := maps[i];
    var t1 := MapRangeOk(r, s, t, pgd, m.va, m.pa, m.size, m.flags);
    var (ok, s1) := MapRange(r, s, pgd, m.va, m.pa, m.size, m.flags);
    var k := PageCount(m.va, m.size);
    BindNoWriteExec(Mapping(s.mem, pgd), Vpns(AlignedDown(m.va), k), AlignedDown(m.pa), m.flags, k, k);
    t' := t1;
    if ok {
      t' := MapKernelOk(r, s1, t1, pgd, maps, i + 1);
      var (_, s2) := MapKernel(r, s1, pgd, maps, i + 1);
      GrownTrans(r, s, t, s1, t1, s2, t');
    }
  }

  /** A new tree that grew from one fresh root is the process's page table. */
  lemma NewTreeStep(r: Ram, s: State, p: Proc, page: nat, s1: State, s2: State, t2: Tree)
    requires SlotOk(r, s, p, None) && page in s.free && Addr(r.base, page) != 0
    requires s1.free == s.free - {page} && Kept(s.mem, s1.mem, r.base, {page})
    requires Live(r, s2, t2, Addr(r.base, page)) && Grown(r, s1, map[ROOT := page], s2, t2) && s1.mem == s.mem[Addr(r.base, page) := ZeroTable()]
    requires NoWriteExec(Mapping(s2.mem, Addr(r.base, page)))
    ensures SlotStep(r, s, p, None, s2, p.(pageTable := Addr(r.base, page)), Some(t2))
    ensures s2.free + Pages(t2) == s.free && Kept(s.mem, s2.mem, r.base, s.free)
  {
    hide Mapping, RegionsOk, Owned, NoWriteExec, Live, NoBlocks;
    FreshNoBlocks(r, s, page, s1);
    RootPages(page);
    LiveApart(r, s2, t2, Addr(r.base, page));
    assert RamOk(r, s2.free);
  }

  lemma RootPages(page: nat)
    ensures Pages(map[ROOT := page]) == {page}
  {
    var t: Tree := map[ROOT := page];
    assert t[ROOT] == page;
  }

  predicate KernelMapsOk(maps: seq<KernelMap>) {
    forall j :: 0 <= j < |maps| ==> !(maps[j].flags.write && maps[j].flags.exec)
  }

  /** Creating the page table keeps every page accounted for, whichever step fails. */
  lemma CreatePageTableOk(r: Ram, s: State, p: Proc, slot: nat, st: Storage, inp: SpawnInput) returns (ot': Option<Tree>)
    requires SlotOk(r, s, p, None) && OwnsNothing(p) && KernelMapsOk(inp.kernelMaps)
    ensures var (_, s', p') := CreatePageTable(r, s, p, slot, st, inp);
            SlotStep(r, s, p, None, s', p', ot') && OwnsNothing(p')
  {
    hide Mapping, Kept, RegionsOk, Owned, Live, NoWriteExec, Grown, NewTable, MapKernel, MapPhysical, SlotStep, FreeLevel,
         OwnsNothing, ZeroTable;
    ot' := None;
    var page := NewTableOk(r, s);
    var (pgd, s1) := NewTable(r, s);
    if pgd == 0 {
      SameRegionsStep(r, s, p, None, p);
      return;
    }
    FreshRoot(r, s, page, s1);
    EmptyNoWriteExec();
    var t2 := MapKernelOk(r, s1, map[ROOT := page], pgd, inp.kernelMaps, 0);
    var (mapped, s2) := MapKernel(r, s1, pgd, inp.kernelMaps, 0);
    NewTreeStep(r, s, p, page, s1, s2, t2);
    if !mapped || !inp.mmioMaps {
      FreeTableOk(r, s2, t2, pgd);
      ForgottenTree(r, s, p, s2);
      return;
    }
    var p2 := p.(pageTable := pgd);
    StepSlot(r, s, p, None, s2, p2, Some(t2));
    SameOwnsNothing(p, p2);
    var t3 := MapPhysicalOk(r, s2, p2, t2, ImageVaddr(slot), st.image, IMAGE_SIZE, Prot(true, false, true, false));
    var (ok3, s3, p3) := MapPhysical(r, s2, p2, ImageVaddr(slot), st.image, IMAGE_SIZE, Prot(true, false, true, false));
    StepTrans(r, s, p, None, s2, p2, Some(t2), s3, p3, Some(t3));
    ot' := Some(t3);
    if ok3 {
      StepSlot(r, s, p, None, s3, p3, Some(t3));
      var t4 := MapPhysicalOk(r, s3, p3, t3, StackVaddr(slot), st.stack, STACK_SIZE, Prot(true, true, false, false));
      var (_, s4, p4) := MapPhysical(r, s3, p3, StackVaddr(slot), st.stack, STACK_SIZE, Prot(true, true, false, false));
      StepTrans(r, s, p, None, s3, p3, Some(t3), s4, p4, Some(t4));
      ot' := Some(t4);
    }
  }

  lemma EmptyNoWriteExec()
    ensures NoWriteExec(map[])
  {
  }

  lemma SameOwnsNothing(p: Proc, p': Proc)
    requires OwnsNothing(p) && p'.regions == p.regions
    ensures OwnsNothing(p')
  {
  }

  /** Tearing the new tree down again leaves the process as it was, with only former free pages overwritten. */
  lemma ForgottenTree(r: Ram, s: State, p: Proc, s2: State)
    requires SlotOk(r, s, p, None) && Kept(s.mem, s2.mem, r.base, s.free)
    ensures SlotStep(r, s, p, None, s2.(free := s.free), p, None)
  {
    hide Mapping, RegionsOk, Owned, NoWriteExec, Live;
  }

  /** The process takes a loader allocation over as an owned region. */
  lemma TakeRegion(r: Ram, s0: State, s: State, p: Proc, ot: Option<Tree>, st: Storage, st': Storage,
                   k: nat, page: nat, n: nat, p': Proc)
    requires Transit(r, s0, s, p, ot, st) && k < |p.regions| && !p.regions[k].owned
    requires p.regions[k].end == p.regions[k].start + 4096 * n && n > 0
    requires page + n <= r.total && Addr(r.base, page) != 0
    requires StorageOk(r, st') && StoragePages(r, st) == StoragePages(r, st') + Run(page, n)
    requires StoragePages(r, st') !! Run(page, n)
    requires p'.pageTable == p.pageTable
    requires p'.regions == p.regions[k := p.regions[k].(paddr := Addr(r.base, page), owned := true)]
    ensures Transit(r, s0, s, p', ot, st')
  {
    hide Mapping, RegionsOk, Owned, Live, NoWriteExec, StoragePages, StorageOk, Run, TablePages, RamOk, Kept;
    var g := p'.regions[k];
    TakenPages(r, g, page, n);
    NothingOwned(r, p.regions[k]);
    var own, tables, all := Owned(r, p.regions), TablePages(ot), s0.free;
    MoveRun(s.free, own, tables, StoragePages(r, st), StoragePages(r, st'), Run(page, n), all);
    OwnedUpdate(r, p.regions, k, g);
  }

  lemma TakenPages(r: Ram, g: Region, page: nat, n: nat)
    requires g.owned && g.paddr == Addr(r.base, page) && g.end == g.start + 4096 * n && n > 0 && page + n <= r.total && g.paddr != 0
    ensures RegionPages(r, g) == Run(page, n) && RegionOk(r, g)
  {
  }

  lemma MoveRun(free: set<nat>, own: set<nat>, tables: set<nat>, st: set<nat>, st': set<nat>, run: set<nat>, all: set<nat>)
    requires own !! free && own !! tables && st !! free && st !! own + tables && free + (own + tables) + st == all
    requires st == st' + run && st' !! run
    ensures run !! own && (own + run) !! free && (own + run) !! tables && st' !! free && st' !! (own + run) + tables
    ensures free + (own + run + tables) + st' == all
  {
  }

  lemma SetMappingAt(p: Proc, start: nat, size: nat, paddr: nat)
    requires SetMapping(p, start, size, paddr, true).Some?
    ensures var p' := SetMapping(p, start, size, paddr, true).value;
            var k := FindFrom(p.regions, start, start + size, 0);
            && k < |p.regions| && p.regions[k].start == start && p.regions[k].end == start + size
            && p' == p.(regions := p.regions[k := p.regions[k].(paddr := paddr, owned := true)])
  {
  }

  /** The two pieces of loader storage, as runs of pages. */
  lemma StorageSplit(r: Ram, st: Storage)
    requires r.base % 4096 == 0 && StorageOk(r, st) && st.image != 0 && st.stack != 0
    ensures st.image >= r.base && st.stack >= r.base
    ensures var i, j := (st.image - r.base) / 4096, (st.stack - r.base) / 4096;
            && st.image == Addr(r.base, i) && st.stack == Addr(r.base, j)
            && StorageOk(r, Storage(0, st.stack)) && StorageOk(r, Storage(0, 0)) && i + 2 <= r.total && j + 1 <= r.total
            && StoragePages(r, st) == StoragePages(r, Storage(0, st.stack)) + Run(i, 2)
            && StoragePages(r, Storage(0, st.stack)) == Run(j, 1)
            && StoragePages(r, Storage(0, st.stack)) == StoragePages(r, Storage(0, 0)) + Run(j, 1)
            && StoragePages(r, Storage(0, 0)) == {}
  {
    hide Run;
  }

  lemma AllocStackOk(r: Ram, s0: State, s: State, p: Proc, st: Storage)
    requires Transit(r, s0, s, p, None, st) && st.image != 0 && st.stack == 0
    ensures var (stack, s1) := AllocPages(r, s, 1);
            Transit(r, s0, s1, p, None, st.(stack := stack))
            && (stack != 0 ==> Run((st.image - r.base) / 4096, 2) !! Run((stack - r.base) / 4096, 1))
  {
    hide Run, Owned, RegionsOk, Live, Mapping, NoWriteExec, Hold, FirstRun;
    var page := AllocPagesOk(r, s, 1);
    var (stack, s1) := AllocPages(r, s, 1);
    if stack != 0 {
      assert StoragePages(r, st.(stack := stack)) == StoragePages(r, st) + Run(page, 1);
      TransitAlloc(r, s0, s, p, None, st, page, 1, st.(stack := stack));
    }
  }

  lemma PrepareStep(r: Ram, s: State, p: Proc, image: nat, imageSize: nat, entry: nat, stack: nat, stackSize: nat, pstate: nat)
    requires SlotOk(r, s, p, None) && OwnsNothing(p) && PrepareProcess(p, image, imageSize, entry, stack, stackSize, pstate).Some?
    ensures var p2 := PrepareProcess(p, image, imageSize, entry, stack, stackSize, pstate).value;
            SlotStep(r, s, p, None, s, p2, None) && OwnsNothing(p2) && p2.pageTable == p.pageTable
  {
    hide SlotOk, SlotStep;
    var p1 := p.(pc := image + entry, sp := stack + stackSize, pstate := pstate);
    var p2 := AddRegion(p1, image, imageSize).value;
    AddRegionStep(r, s, p, None, p1, image, imageSize);
    StepSlot(r, s, p, None, s, p2, None);
    AddRegionStep(r, s, p2, None, p2, stack, stackSize);
    var p3 := AddRegion(p2, stack, stackSize).value;
    StepTrans(r, s, p, None, s, p2, None, s, p3, None);
    AddThenFind(p1, image, imageSize);
    AddThenFind(p2, stack, stackSize);
  }

  lemma TransitParts(r: Ram, s0: State, s: State, p: Proc, ot: Option<Tree>, st: Storage)
    requires Transit(r, s0, s, p, ot, st)
    ensures StorageOk(r, st) && r.base % 4096 == 0
  {
    hide SlotOk, Hold, StoragePages;
    RamAligned(r, s, p, ot);
  }

  /** Handing both regions over to the process. */
  lemma TakeBothOk(r: Ram, s0: State, s: State, p: Proc, ot: Option<Tree>, st: Storage, slot: nat)
    requires Transit(r, s0, s, p, ot, st) && OwnsNothing(p) && st.image != 0 && st.stack != 0 && slot < MAX_PROCESSES
    requires Run((st.image - r.base) / 4096, 2) !! Run((st.stack - r.base) / 4096, 1)
    ensures match SetMapping(p, ImageVaddr(slot), IMAGE_SIZE, st.image, true)
            case None => true
            case Some(p4) =>
              && Transit(r, s0, s, p4, ot, Storage(0, st.stack))
              && match SetMapping(p4, StackVaddr(slot), STACK_SIZE, st.stack, true) {
                   case None => true
                   case Some(p5) => Transit(r, s0, s, p5, ot, Storage(0, 0))
                 }
  {
    hide Transit, Run, StoragePages, FindFrom, SetMapping, StorageOk;
    TransitParts(r, s0, s, p, ot, st);
    StorageSplit(r, st);
    var i, j := (st.image - r.base) / 4096, (st.stack - r.base) / 4096;
    if SetMapping(p, ImageVaddr(slot), IMAGE_SIZE, st.image, true).Some? {
      SetMappingAt(p, ImageVaddr(slot), IMAGE_SIZE, st.image);
      var p4 := SetMapping(p, ImageVaddr(slot), IMAGE_SIZE, st.image, true).value;
      var k := FindFrom(p.regions, ImageVaddr(slot), ImageVaddr(slot) + IMAGE_SIZE, 0);
      TakeRegion(r, s0, s, p, ot, st, Storage(0, st.stack), k, i, 2, p4);
      if SetMapping(p4, StackVaddr(slot), STACK_SIZE, st.stack, true).Some? {
        SetMappingAt(p4, StackVaddr(slot), STACK_SIZE, st.stack);
        var p5 := SetMapping(p4, StackVaddr(slot), STACK_SIZE, st.stack, true).value;
        var m := FindFrom(p4.regions, StackVaddr(slot), StackVaddr(slot) + STACK_SIZE, 0);
        assert !p4.regions[m].owned;
        TakeRegion(r, s0, s, p4, ot, Storage(0, st.stack), Storage(0, 0), m, j, 1, p5);
      }
    }
  }

  /** Process setup keeps every page accounted for at every failure point; success leaves the loader nothing. */
  lemma InitProcessOk(r: Ram, s0: State, s: State, p: Proc, st: Storage, slot: nat, inp: SpawnInput)
    returns (ot': Option<Tree>)
    requires Transit(r, s0, s, p, None, st) && st.stack == 0 && OwnsNothing(p) && KernelMapsOk(inp.kernelMaps)
    ensures var (ok, s', p', st') := InitProcess(r, s, p, st, slot, inp);
            Transit(r, s0, s', p', ot', if ok then Storage(0, 0) else st')
  {
    hide Transit, Run, SetMapping, AllocPages, PrepareProcess, CreatePageTable, SlotStep, OwnsNothing, ImageVaddr, StackVaddr,
         KernelMapsOk;
    ot' := None;
    if slot >= MAX_PROCESSES || st.image == 0 {
      return;
    }
    AllocStackOk(r, s0, s, p, st);
    var (stack, s1) := AllocPages(r, s, 1);
    var st1 := st.(stack := stack);
    var op := PrepareProcess(p, ImageVaddr(slot), IMAGE_SIZE, inp.entryOffset, StackVaddr(slot), STACK_SIZE, inp.pstate);
    if stack == 0 || op == None {
      return;
    }
    var p2 := op.value;
    TransitSlot(r, s0, s1, p, None, st1);
    PrepareStep(r, s1, p, ImageVaddr(slot), IMAGE_SIZE, inp.entryOffset, StackVaddr(slot), STACK_SIZE, inp.pstate);
    TransitStep(r, s0, s1, p, None, st1, s1, p2, None);
    TransitSlot(r, s0, s1, p2, None, st1);
    ot' := CreatePageTableOk(r, s1, p2, slot, st1, inp);
    var (ok3, s3, p3) := CreatePageTable(r, s1, p2, slot, st1, inp);
    TransitStep(r, s0, s1, p2, None, st1, s3, p3, ot');
    if ok3 {
      TakeBothOk(r, s0, s3, p3, ot', st1, slot);
    }
  }

  lemma TransitSlot(r: Ram, s0: State, s: State, p: Proc, ot: Option<Tree>, st: Storage)
    requires Transit(r, s0, s, p, ot, st)
    ensures SlotOk(r, s, p, ot)
  {
  }
}
