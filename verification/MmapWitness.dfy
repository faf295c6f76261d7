/** A machine on which a failing mmap takes a translation away: the kernel maps a page where mmap will go. */
module MmapWitness {
  import opened Basics
  import opened PhysicalPages
  import opened PageTableFormat
  import opened PageTree
  import opened VmmSpec
  import opened VmmRanges
  import opened ProcessSpec
  import opened UserVmSpec
  import opened SpawnSpec
  import opened SpawnMeaning
  import opened KernelStart
  import opened KernelSpec
  import opened KernelRuns
  import opened KernelBoot

  /** An mmap whose place is taken fails, and unmaps what is there. */
  lemma TakenPlaceLoses(r: Ram, s: State, p: Proc, t: Tree, size: nat, prot: Prot)
    requires SlotOk(r, s, p, Some(t)) && ReachesMapping(r, s, p, 0, size, prot)
    requires Vpn(AlignUp(p.nextVaddr)) in Mapping(s.mem, p.pageTable)
    ensures var (res, s', _) := MapAnonymous(r, s, p, 0, size, prot);
            !res.Mapped? && Mapping(s'.mem, p.pageTable) != Mapping(s.mem, p.pageTable)
  {
    hide Mapping, SlotOk, MapAnonymous, ReachesMapping, AlignUp, Vpn, Vpns, AlignSize;
    if MapAnonymous(r, s, p, 0, size, prot).0.Mapped? {
      MapAnonymousMeaning(r, s, p, t, 0, size, prot);
      SizeReached(r, s, p, size, prot);
      VpnsAt(AlignUp(p.nextVaddr), AlignSize(size) / 4096, 0);
    } else {
      FailedMapRestores(r, s, p, t, 0, size, prot);
    }
  }

  lemma SizeReached(r: Ram, s: State, p: Proc, size: nat, prot: Prot)
    requires ReachesMapping(r, s, p, 0, size, prot)
    ensures AlignSize(size) / 4096 > 0
  {
    hide AllocRegion, FirstRun;
    SizeOk(size);
  }

  // ----- The machine

  /** Sixty-four pages of memory. */
  function SmallRam(): Ram {
    Ram(0x8000_0000, 64, PhysicalPages.Run(0, 64))
  }

  /** A boot that maps one kernel page at the start of the mmap window. */
  function WindowInput(): SpawnInput {
    var page := KernelMap(MMAP_BASE, MMAP_BASE, 4096, Flags(read := true, write := true, exec := false, device := false, user := false));
    SpawnInput(true, true, true, 0, [page], true, 0, true, 0, 0)
  }

  lemma SmallStartable()
    ensures RamOk(SmallRam(), SmallRam().pool) && |SmallRam().pool| == 64
    ensures Startable(SmallRam(), SmallRam().pool, 0, WindowInput()) && KernelMapsOk(WindowInput().kernelMaps)
    ensures PagesFrom(WindowInput().kernelMaps, 0) == 1
  {
    var r, maps := SmallRam(), WindowInput().kernelMaps;
    RunSize(0, 64);
    FirstRunIsLowest(r.pool, 64, 2, 0);
    assert IsRun(r.pool, 0, 2);
    assert Layable(maps, 0);
    assert PagesFrom(maps, 1) == 0;
    hide FirstRun;
  }

  /** The first process of that machine has the kernel page where its first mmap will go. */
  lemma WindowTaken(m: map<nat, Desc>, image: nat, stack: nat)
    requires Translates(m, WindowInput().kernelMaps, 0, image, stack)
    ensures Vpn(MMAP_BASE) in m
  {
    var maps := WindowInput().kernelMaps;
    var empty: map<nat, Desc> := map[];
    assert WholePages(MMAP_BASE, 4096, 1);
    BindOne(empty, MMAP_BASE, MMAP_BASE, 4096, maps[0].flags);
    assert BindKernel(empty, maps, 0) == BindKernel(BindRange(empty, MMAP_BASE, MMAP_BASE, 4096, maps[0].flags), maps, 1);
    hide BindRange, PageDescriptor, Vpn, ImageVaddr, StackVaddr;
  }

  /** A first mmap of one page gets as far as mapping it. */
  lemma FirstMmapReaches(r: Ram, s: State, p: Proc, slot: nat, image: nat, stack: nat, prot: Prot)
    requires RamOk(r, s.free) && |s.free| > 0 && p.pageTable != 0 && p.nextVaddr == MMAP_BASE && slot < MAX_PROCESSES
    requires p.regions == StartRegions(slot, image, true, stack, true) && FlagsToVmm(prot).Some?
    ensures ReachesMapping(r, s, p, 0, 4096, prot) && AlignUp(p.nextVaddr) == MMAP_BASE
  {
    AllocOneSucceeds(r, s);
    hide FirstRun, RamOk, FlagsToVmm;
  }

  /**
   * The machine boots, its first process asks for one page of memory, the call fails, and the kernel page that was mapped
   * at the start of the window is mapped no longer.
   */
  lemma FailedMmapLoses(mem: Memory, nextPid: nat)
    ensures var r := SmallRam();
            var k := Advance(r, PowerOn(r, mem, nextPid), Boots(WindowInput())).k;
            var pgd := k.procs[0].pageTable;
            var (res, s', _) := MapAnonymous(r, k.vm, k.procs[0], 0, 4096, Prot(true, true, false, false));
            && Executing(k) && k.current == Some(0) && Vpn(MMAP_BASE) in Mapping(k.vm.mem, pgd)
            && !res.Mapped? && Mapping(s'.mem, pgd) != Mapping(k.vm.mem, pgd)
  {
    hide Startable, RamOk, KernelMapsOk, Advance, MapAnonymous, Mapping, ReachesMapping, Translates, SlotOk, AllocPages, PagesFrom,
         SmallRam, WindowInput, StartRegions, AlignUp, Vpn, MachineOk;
    var r, inp := SmallRam(), WindowInput();
    SmallStartable();
    BootSucceeds(r, mem, nextPid, inp);
    PowerOnOk(r, mem, nextPid);
    var m0 := PowerOn(r, mem, nextPid);
    var m := Advance(r, m0, Boots(inp));
    var trees := AdvanceKeeps(r, m0, seq(16, _ => None), Boots(inp));
    var p := m.k.procs[0];
    var (image, s1) := AllocPages(r, State(mem, r.pool), 2);
    var stack := AllocPages(r, s1, 1).0;
    WindowTaken(Mapping(m.k.vm.mem, p.pageTable), image, stack);
    TableUsed(m.k.vm.mem, p.pageTable, Vpn(MMAP_BASE));
    var t := RunningSlot(r, m, trees);
    FirstMmapReaches(r, m.k.vm, p, 0, image, stack, Prot(true, true, false, false));
    TakenPlaceLoses(r, m.k.vm, p, t, 4096, Prot(true, true, false, false));
  }

  lemma TableUsed(mem: Memory, pgd: nat, v: nat)
    requires v in Mapping(mem, pgd)
    ensures pgd != 0
  {
  }

  /** The first process of a machine in user mode has a live tree. */
  lemma RunningSlot(r: Ram, m: Machine, trees: seq<Option<Tree>>) returns (t: Tree)
    requires MachineOk(r, m, trees) && m.k.procs[0].pageTable != 0
    ensures SlotOk(r, m.k.vm, m.k.procs[0], Some(t)) && RamOk(r, m.k.vm.free)
  {
    hide PidsOk, CountUsed, OneRunning, Live, RegionsOk, Owned, Mapping, Awake, Empty, Executing;
    assert SlotOk(r, m.k.vm, m.k.procs[0], trees[0]);
    t := trees[0].value;
  }
}
