/** What a spawned process finds: its regions, its entry state and its whole translation. */
module SpawnMeaning {
  import opened Basics
  import opened PhysicalPages
  import opened PageTableFormat
  import opened PageTree
  import opened VmmSpec
  import opened VmmRanges
  import opened VmmTeardown
  import opened ProcessSpec
  import opened UserVmSpec
  import opened SpawnSpec
  import opened KernelSpec
  import opened KernelRuns

  /** Code is executable and not writable, data the other way round; both belong to the user. */
  const CODE: Flags := Flags(read := true, write := false, exec := true, device := false, user := true)
  const DATA: Flags := Flags(read := true, write := true, exec := false, device := false, user := true)

  /** `m` with every page of a range bound. */
  ghost function BindRange(m: map<nat, Desc>, va: nat, pa: nat, size: nat, flags: Flags): map<nat, Desc> {
    var n := PageCount(va, size);
    Bind(m, Vpns(AlignedDown(va), n), Descs(AlignedDown(pa), flags, n), n)
  }

  /** `m` with the kernel ranges from the `i`-th on bound. */
  ghost function BindKernel(m: map<nat, Desc>, maps: seq<KernelMap>, i: nat): map<nat, Desc>
    requires i <= |maps|
    decreases |maps| - i
  {
    if i == |maps| then m
    else BindKernel(BindRange(m, maps[i].va, maps[i].pa, maps[i].size, maps[i].flags), maps, i + 1)
  }

  lemma {:induction false} MapKernelMeaning(r: Ram, s: State, t: Tree, pgd: nat, maps: seq<KernelMap>, i: nat)
    requires Live(r, s, t, pgd) && i <= |maps| && MapKernel(r, s, pgd, maps, i).0
    ensures Mapping(MapKernel(r, s, pgd, maps, i).1.mem, pgd) == BindKernel(Mapping(s.mem, pgd), maps, i)
    decreases |maps| - i
  {
    hide Mapping, Live, MapRange, Grown, NewPages, Bind, Vpns, Descs, AlignedDown, PageCount;
    if i < |maps| {
      var m := maps[i];
      var t1 := MapRangeOk(r, s, t, pgd, m.va, m.pa, m.size, m.flags);
      MapKernelMeaning(r, MapRange(r, s, pgd, m.va, m.pa, m.size, m.flags).1, t1, pgd, maps, i + 1);
    }
  }

  /** A page range as the loader uses it: it starts on a page and is `n` pages long. */
  predicate WholePages(va: nat, size: nat, n: nat) {
    AlignedDown(va) == va && PageCount(va, size) == n
  }

  lemma MapPhysicalMeaning(r: Ram, s: State, p: Proc, t: Tree, va: nat, pa: nat, size: nat, prot: Prot)
    requires Live(r, s, t, p.pageTable) && MapPhysical(r, s, p, va, pa, size, prot).0
    ensures var (_, s', p') := MapPhysical(r, s, p, va, pa, size, prot);
            && FlagsToVmm(prot).Some? && SetMapping(p, va, size, pa, false) == Some(p') && va % 4096 == pa % 4096
            && NewPages(Mapping(s.mem, p.pageTable), Vpns(AlignedDown(va), PageCount(va, size)), PageCount(va, size))
            && Mapping(s'.mem, p.pageTable) == BindRange(Mapping(s.mem, p.pageTable), va, pa, size, FlagsToVmm(prot).value)
  {
    hide Mapping, Live, MapPage, Grown, NewPages, Bind, Vpns, Descs, FlagsToVmm, MapLoop, Rollback, UnmapLoop, FindRegion;
    var t1 := MapRangeOk(r, s, t, p.pageTable, va, pa, size, FlagsToVmm(prot).value);
  }

  lemma ImagePages(slot: nat)
    ensures WholePages(ImageVaddr(slot), IMAGE_SIZE, 2) && WholePages(StackVaddr(slot), STACK_SIZE, 1)
  {
    Aligned(64 + 16 * slot);
    Aligned(128 + 16 * slot);
    assert ImageVaddr(slot) == 65536 * (64 + slot) && StackVaddr(slot) == 65536 * (128 + slot);
  }

  lemma Aligned(n: nat)
    ensures 4096 * n % 4096 == 0
  {
  }

  /** One page bound. */
  lemma BindOne(m: map<nat, Desc>, va: nat, pa: nat, size: nat, flags: Flags)
    requires WholePages(va, size, 1) && pa % 4096 == va % 4096
    ensures BindRange(m, va, pa, size, flags) == m[Vpn(va) := PageDescriptor(pa, flags)]
    ensures NewPages(m, Vpns(va, 1), 1) ==> Vpn(va) !in m
  {
    hide PageCount, PageDescriptor, Vpn;
    VpnsAt(va, 1, 0);
    DescsAt(pa, flags, 1, 0);
    assert AlignedDown(pa) == pa;
    var vs := Vpns(va, 1);
    assert Bind(m, vs, Descs(pa, flags, 1), 0) == m;
  }

  /** Two pages bound. */
  lemma BindTwo(m: map<nat, Desc>, va: nat, pa: nat, size: nat, flags: Flags)
    requires WholePages(va, size, 2) && pa % 4096 == va % 4096
    ensures BindRange(m, va, pa, size, flags)
         == m[Vpn(va) := PageDescriptor(pa, flags)][Vpn(va + 4096) := PageDescriptor(pa + 4096, flags)]
    ensures NewPages(m, Vpns(va, 2), 2) ==> Vpn(va) !in m && Vpn(va + 4096) !in m && Vpn(va) != Vpn(va + 4096)
  {
    hide PageCount, PageDescriptor, Vpn;
    VpnsAt(va, 2, 0);
    VpnsAt(va, 2, 1);
    DescsAt(pa, flags, 2, 0);
    DescsAt(pa, flags, 2, 1);
    assert AlignedDown(pa) == pa;
    var vs, ds := Vpns(va, 2), Descs(pa, flags, 2);
    assert Bind(m, vs, ds, 0) == m;
    assert Bind(m, vs, ds, 1) == m[vs[0] := ds[0]];
    assert Firsts(vs, 1) == {vs[0]};
  }

  /** The kernel ranges, two pages of code and one of data, all at different places. */
  ghost predicate Translates(m: map<nat, Desc>, maps: seq<KernelMap>, slot: nat, image: nat, stack: nat) {
    var kernel := BindKernel(map[], maps, 0);
    var code, more, data := Vpn(ImageVaddr(slot)), Vpn(ImageVaddr(slot) + 4096), Vpn(StackVaddr(slot));
    && code !in kernel && more !in kernel && data !in kernel && code != more && code != data && more != data
    && m == kernel[code := PageDescriptor(image, CODE)][more := PageDescriptor(image + 4096, CODE)][data := PageDescriptor(stack, DATA)]
  }

  lemma CreatePageTableMeaning(r: Ram, s: State, p: Proc, slot: nat, st: Storage, inp: SpawnInput)
    requires SlotOk(r, s, p, None) && OwnsNothing(p) && KernelMapsOk(inp.kernelMaps)
    requires CreatePageTable(r, s, p, slot, st, inp).0
    ensures var (_, s', p') := CreatePageTable(r, s, p, slot, st, inp);
            && Translates(Mapping(s'.mem, p'.pageTable), inp.kernelMaps, slot, st.image, st.stack)
            && exists pgd, p3 :: SetMapping(p.(pageTable := pgd), ImageVaddr(slot), IMAGE_SIZE, st.image, false) == Some(p3)
                                 && SetMapping(p3, StackVaddr(slot), STACK_SIZE, st.stack, false) == Some(p')
  {
    hide Mapping, Kept, RegionsOk, Owned, Live, NoWriteExec, Grown, NewTable, MapKernel, MapPhysical, SlotStep, FreeLevel,
         ZeroTable, BindKernel, BindRange, ImageVaddr, StackVaddr, Vpn, PageDescriptor, SetMapping, NewPages, Vpns, WholePages;
    var page := NewTableOk(r, s);
    var (pgd, s1) := NewTable(r, s);
    FreshRoot(r, s, page, s1);
    EmptyNoWriteExec();
    var t2 := MapKernelOk(r, s1, map[ROOT := page], pgd, inp.kernelMaps, 0);
    MapKernelMeaning(r, s1, map[ROOT := page], pgd, inp.kernelMaps, 0);
    var (_, s2) := MapKernel(r, s1, pgd, inp.kernelMaps, 0);
    NewTreeStep(r, s, p, page, s1, s2, t2);
    var p2 := p.(pageTable := pgd);
    StepSlot(r, s, p, None, s2, p2, Some(t2));
    SameOwnsNothing(p, p2);
    var code, data := Prot(true, false, true, false), Prot(true, true, false, false);
    assert FlagsToVmm(code) == Some(CODE) && FlagsToVmm(data) == Some(DATA);
    ImagePages(slot);
    var kernel := BindKernel(map[], inp.kernelMaps, 0);
    var (_, s3, p3) := MapPhysical(r, s2, p2, ImageVaddr(slot), st.image, IMAGE_SIZE, code);
    MapPhysicalMeaning(r, s2, p2, t2, ImageVaddr(slot), st.image, IMAGE_SIZE, code);
    WholeIs(ImageVaddr(slot), IMAGE_SIZE, 2);
    BindTwo(kernel, ImageVaddr(slot), st.image, IMAGE_SIZE, CODE);
    var t3 := MapPhysicalOk(r, s2, p2, t2, ImageVaddr(slot), st.image, IMAGE_SIZE, code);
    StepSlot(r, s2, p2, Some(t2), s3, p3, Some(t3));
    SetMappingTable(p2, ImageVaddr(slot), IMAGE_SIZE, st.image, false, p3);
    MapPhysicalMeaning(r, s3, p3, t3, StackVaddr(slot), st.stack, STACK_SIZE, data);
    WholeIs(StackVaddr(slot), STACK_SIZE, 1);
    var (_, s4, p4) := MapPhysical(r, s3, p3, StackVaddr(slot), st.stack, STACK_SIZE, data);
    SetMappingTable(p3, StackVaddr(slot), STACK_SIZE, st.stack, false, p4);
    BindOne(BindRange(kernel, ImageVaddr(slot), st.image, IMAGE_SIZE, CODE), StackVaddr(slot), st.stack, STACK_SIZE, DATA);
  }

  lemma WholeIs(va: nat, size: nat, n: nat)
    requires WholePages(va, size, n)
    ensures AlignedDown(va) == va && PageCount(va, size) == n
  {
  }

  lemma SetMappingTable(p: Proc, start: nat, size: nat, paddr: nat, owned: bool, p': Proc)
    requires SetMapping(p, start, size, paddr, owned) == Some(p')
    ensures p'.pageTable == p.pageTable
  {
  }

  /** The two regions of a new process. */
  function StartRegions(slot: nat, image: nat, imageOwned: bool, stack: nat, stackOwned: bool): seq<Region> {
    [Region(ImageVaddr(slot), ImageVaddr(slot) + IMAGE_SIZE, image, imageOwned),
     Region(StackVaddr(slot), StackVaddr(slot) + STACK_SIZE, stack, stackOwned)]
  }

  predicate Entered(p: Proc, slot: nat, inp: SpawnInput) {
    p.pc == ImageVaddr(slot) + inp.entryOffset && inp.entryOffset < IMAGE_SIZE && p.pstate == inp.pstate
  }

  lemma PrepareMeaning(p: Proc, slot: nat, inp: SpawnInput)
    requires p.regions == []
    requires PrepareProcess(p, ImageVaddr(slot), IMAGE_SIZE, inp.entryOffset, StackVaddr(slot), STACK_SIZE, inp.pstate).Some?
    ensures var p' := PrepareProcess(p, ImageVaddr(slot), IMAGE_SIZE, inp.entryOffset, StackVaddr(slot), STACK_SIZE, inp.pstate).value;
            && p'.regions == StartRegions(slot, 0, false, 0, false)
            && Entered(p', slot, inp) && p'.sp == StackVaddr(slot) + STACK_SIZE
  {
  }

  /** Recording pages changes the region asked for and nothing else. */
  lemma Recorded(p: Proc, slot: nat, image: nat, imageOwned: bool, stack: nat, stackOwned: bool, paddr: nat, owned: bool)
    requires slot < MAX_PROCESSES && p.regions == StartRegions(slot, image, imageOwned, stack, stackOwned)
    ensures SetMapping(p, ImageVaddr(slot), IMAGE_SIZE, paddr, owned)
         == Some(p.(regions := StartRegions(slot, paddr, owned, stack, stackOwned)))
    ensures SetMapping(p, StackVaddr(slot), STACK_SIZE, paddr, owned)
         == Some(p.(regions := StartRegions(slot, image, imageOwned, paddr, owned)))
  {
    assert ImageVaddr(slot) != StackVaddr(slot);
    assert FindFrom(p.regions, StackVaddr(slot), StackVaddr(slot) + STACK_SIZE, 0) == 1;
    var g, h := p.regions[0].(paddr := paddr, owned := owned), p.regions[1].(paddr := paddr, owned := owned);
    assert p.regions[0 := g] == StartRegions(slot, paddr, owned, stack, stackOwned);
    assert p.regions[1 := h] == StartRegions(slot, image, imageOwned, paddr, owned);
  }

  /** A process that was set up owns its image and its stack, starts at its entry, and translates just these and the kernel. */
  lemma InitProcessMeaning(r: Ram, s0: State, s: State, p: Proc, st: Storage, slot: nat, inp: SpawnInput)
    requires Transit(r, s0, s, p, None, st) && st.stack == 0 && p.regions == [] && KernelMapsOk(inp.kernelMaps)
    requires InitProcess(r, s, p, st, slot, inp).0
    ensures var (_, s', p', st') := InitProcess(r, s, p, st, slot, inp);
            && st'.stack == AllocPages(r, s, 1).0
            && p'.regions == StartRegions(slot, st.image, true, st'.stack, true)
            && Entered(p', slot, inp) && p'.sp == StackVaddr(slot) + STACK_SIZE
            && Translates(Mapping(s'.mem, p'.pageTable), inp.kernelMaps, slot, st.image, st'.stack)
  {
    hide Transit, PhysicalPages.Run, SetMapping, AllocPages, PrepareProcess, CreatePageTable, SlotStep, ImageVaddr, StackVaddr,
         KernelMapsOk, Translates, Mapping;
    AllocStackOk(r, s0, s, p, st);
    var (stack, s1) := AllocPages(r, s, 1);
    var st1 := st.(stack := stack);
    var p2 := PrepareProcess(p, ImageVaddr(slot), IMAGE_SIZE, inp.entryOffset, StackVaddr(slot), STACK_SIZE, inp.pstate).value;
    TransitSlot(r, s0, s1, p, None, st1);
    PrepareStep(r, s1, p, ImageVaddr(slot), IMAGE_SIZE, inp.entryOffset, StackVaddr(slot), STACK_SIZE, inp.pstate);
    PrepareMeaning(p, slot, inp);
    TransitStep(r, s0, s1, p, None, st1, s1, p2, None);
    TransitSlot(r, s0, s1, p2, None, st1);
    CreatePageTableMeaning(r, s1, p2, slot, st1, inp);
    var (_, s3, p3) := CreatePageTable(r, s1, p2, slot, st1, inp);
    var pgd, q :| SetMapping(p2.(pageTable := pgd), ImageVaddr(slot), IMAGE_SIZE, st1.image, false) == Some(q)
                  && SetMapping(q, StackVaddr(slot), STACK_SIZE, st1.stack, false) == Some(p3);
    Recorded(p2.(pageTable := pgd), slot, 0, false, 0, false, st.image, false);
    Recorded(q, slot, st.image, false, 0, false, stack, false);
    Recorded(p3, slot, st.image, false, stack, false, st.image, true);
    var p4 := SetMapping(p3, ImageVaddr(slot), IMAGE_SIZE, st.image, true).value;
    Recorded(p4, slot, st.image, true, stack, false, stack, true);
  }

  /** What a slot holds once it is filled: its image and its stack on the lowest free pages, its entry and its translation. */
  lemma FillMeans(r: Ram, k: Kernel, slot: nat, inp: SpawnInput)
    requires slot < |k.procs| && Bare(k.procs[slot]) && SlotOk(r, k.vm, k.procs[slot], None)
    requires KernelMapsOk(inp.kernelMaps) && Fill(r, k, slot, inp).0
    ensures var k' := Fill(r, k, slot, inp).1;
            Started(r, k.vm, k'.vm, k'.procs[slot], slot, inp) && k'.procs[slot].sp == StackVaddr(slot) + STACK_SIZE
    ensures slot < MAX_PROCESSES
  {
    hide KernelMapsOk, AllocPages, InitProcess, AbandonSpawn, Translates, Mapping, StartRegions, Transit, SlotOk, FreeImage;
    var p := k.procs[slot];
    IdleHolds(r, k.vm, p);
    LoadImageOk(r, k.vm, p, inp.loads);
    var (ok1, s1, st1) := LoadImage(r, k.vm, Storage(0, 0), inp.loads);
    InitProcessMeaning(r, k.vm, s1, p, st1, slot, inp);
    StackFound(r, s1, p, st1, slot, inp);
    SlotRam(r, k.vm, p);
    StartPlaced(r, k.vm);
    var k' := Fill(r, k, slot, inp).1;
    StartAllows(Mapping(k'.vm.mem, k'.procs[slot].pageTable), inp.kernelMaps, slot, st1.image, AllocPages(r, s1, 1).0);
  }

  /** Where the pages of a new process lie. */
  lemma StartPlaced(r: Ram, s: State)
    requires RamOk(r, s.free)
    ensures var (image, s1) := AllocPages(r, s, 2);
            var stack := AllocPages(r, s1, 1).0;
            && image % 4096 == 0 && stack % 4096 == 0 && (image != 0 ==> image + IMAGE_SIZE <= ADDRESS_LIMIT)
            && (stack != 0 ==> stack + STACK_SIZE <= ADDRESS_LIMIT)
  {
    hide PhysicalPages.Run, FirstRun;
    var _ := AllocPagesOk(r, s, 2);
    var s1 := AllocPages(r, s, 2).1;
    var _ := AllocPagesOk(r, s1, 1);
  }

  /** A process of slot `slot`, set up from the memory `s` with the memory `s'` as the outcome. */
  ghost predicate Started(r: Ram, s: State, s': State, p: Proc, slot: nat, inp: SpawnInput) {
    var (image, s1) := AllocPages(r, s, 2);
    var stack := AllocPages(r, s1, 1).0;
    && p.regions == StartRegions(slot, image, true, stack, true) && image != 0 && stack != 0
    && Entered(p, slot, inp) && Translates(Mapping(s'.mem, p.pageTable), inp.kernelMaps, slot, image, stack)
    && UserRange(Mapping(s'.mem, p.pageTable), ImageVaddr(slot), image, IMAGE_SIZE, Prot(true, false, true, false))
    && UserRange(Mapping(s'.mem, p.pageTable), StackVaddr(slot), stack, STACK_SIZE, Prot(true, true, false, false))
  }

  /** The program can execute every byte of its image and not write it, and write every byte of its stack and not execute it. */
  lemma StartAllows(m: map<nat, Desc>, maps: seq<KernelMap>, slot: nat, image: nat, stack: nat)
    requires Translates(m, maps, slot, image, stack) && image % 4096 == 0 && stack % 4096 == 0
    requires image + IMAGE_SIZE <= ADDRESS_LIMIT && stack + STACK_SIZE <= ADDRESS_LIMIT
    ensures UserRange(m, ImageVaddr(slot), image, IMAGE_SIZE, Prot(true, false, true, false))
    ensures UserRange(m, StackVaddr(slot), stack, STACK_SIZE, Prot(true, true, false, false))
  {
    hide BindKernel, PageDescriptor, Allows, Grants, Vpn, ImageVaddr, StackVaddr;
    var code, data := Prot(true, false, true, false), Prot(true, true, false, false);
    assert FlagsToVmm(code) == Some(CODE) && FlagsToVmm(data) == Some(DATA);
    hide FlagsToVmm;
    ImagePages(slot);
    WholeIs(ImageVaddr(slot), IMAGE_SIZE, 2);
    WholeIs(StackVaddr(slot), STACK_SIZE, 1);
    forall o: nat | o < IMAGE_SIZE
      ensures UserByte(m, ImageVaddr(slot), image, o, code)
    {
      var j := if o < 4096 then 0 else 4096;
      PageOf(ImageVaddr(slot), image, j, o);
      DescriptorGrants(image + j, CODE);
      ProtectionMeans(code, PageDescriptor(image + j, CODE), image + j);
    }
    forall o: nat | o < STACK_SIZE
      ensures UserByte(m, StackVaddr(slot), stack, o, data)
    {
      PageOf(StackVaddr(slot), stack, 0, o);
      DescriptorGrants(stack, DATA);
      ProtectionMeans(data, PageDescriptor(stack, DATA), stack);
    }
  }

  lemma PageOf(va: nat, pa: nat, j: nat, o: nat)
    requires va % 4096 == 0 && pa % 4096 == 0 && j % 4096 == 0 && j <= o < j + 4096
    ensures Vpn(va + o) == Vpn(va + j) && (va + o) % 4096 == (pa + o) % 4096 && AlignedDown(pa + o) == pa + j
  {
  }

  /**
   * A successful spawn takes the first idle slot and changes no other. The new process is ready, the child of the caller, owns
   * the lowest free pages as its image and stack, starts at its entry with its arguments, and translates exactly these pages
   * and the kernel ranges.
   */
  lemma SpawnMeans(r: Ram, k: Kernel, trees: seq<Option<Tree>>, inp: SpawnInput) returns (slot: nat)
    requires Inv(r, k, trees) && KernelMapsOk(inp.kernelMaps) && Spawn(r, k, inp).0.Some?
    ensures slot < |k.procs|
    ensures var (res, k') := Spawn(r, k, inp);
            var k1, p := ReclaimFrom(r, k, 0), k'.procs[slot];
            && k1.procs[slot] == IDLE && k'.procs == k1.procs[slot := p]
            && p.pid == res.value == k1.nextPid && p.state.Ready? && p.parent == CallerPid(k1)
            && Started(r, k1.vm, k'.vm, p, slot, inp)
            && p.sp == (if inp.argvVaddr != 0 then inp.argvVaddr else StackVaddr(slot) + STACK_SIZE) && p.nextVaddr == MMAP_BASE
            && p.x0 == (if inp.argvVaddr != 0 then inp.argc else 0) && p.x1 == inp.argvVaddr
            && (forall j :: 0 <= j < slot ==> !k1.procs[j].state.Unused?)
            && (Executing(k) ==> p.parent == k.procs[k.current.value].pid)
  {
    hide PagesOk, PidsOk, CountUsed, OneRunning, ReclaimFrom, KernelMapsOk, Alloc, Find, IDLE, AllocPages, Fill, CallerPid,
         Release, Translates, Mapping, StartRegions, SlotOk, SlotStep;
    var trees1 := ReclaimOk(r, k, trees, 0);
    var k1 := ReclaimFrom(r, k, 0);
    var pid := k1.nextPid;
    var k2 := k1.(nextPid := (pid + 1) % U32_LIMIT);
    NextPidFree(r, k1, trees1, k2.nextPid);
    var k3: Kernel;
    slot, k3 := Alloc(k2, pid).value.0, Alloc(k2, pid).value.1;
    AllocOk(r, k2, trees1, pid);
    var p := InitProc(pid).(parent := CallerPid(k3), state := Blocked);
    SameLength(r, k3, trees1);
    SlotReady(r, k3, trees1, slot, p);
    var k4 := k3.(procs := k3.procs[slot := p]);
    FillMeans(r, k4, slot, inp);
    var _ := FillOk(r, k4, slot, inp);
    CallerKept(k1, k3, slot);
    if Executing(k) {
      CallerRuns(k, k1);
    }
    var p' := Spawn(r, k, inp).1.procs[slot];
    assert k1.procs[slot := InitProc(pid)][slot := p][slot := p'] == k1.procs[slot := p'];
  }

  lemma CallerRuns(k: Kernel, k1: Kernel)
    requires Executing(k) && k1.current == k.current && |k1.procs| == |k.procs|
    requires k1.procs[k.current.value] == k.procs[k.current.value]
    ensures CallerPid(k1) == k.procs[k.current.value].pid
  {
  }

  lemma CallerKept(k1: Kernel, k3: Kernel, slot: nat)
    requires k3.current == k1.current != Some(slot) && slot < |k1.procs|
    requires |k3.procs| == |k1.procs| && k3.procs == k1.procs[slot := k3.procs[slot]]
    ensures CallerPid(k3) == CallerPid(k1)
  {
  }

  lemma SlotReady(r: Ram, k: Kernel, trees: seq<Option<Tree>>, slot: nat, p: Proc)
    requires PagesOk(r, k.vm, k.procs, trees) && slot < |trees| && trees[slot] == None
    requires k.procs[slot] == InitProc(k.procs[slot].pid) && p.pageTable == 0 && p.regions == []
    ensures SlotOk(r, k.vm, p, None) && Owned(r, p.regions) == {}
  {
    SlotAt(r, k, trees, slot);
  }

  lemma StackFound(r: Ram, s: State, p: Proc, st: Storage, slot: nat, inp: SpawnInput)
    requires InitProcess(r, s, p, st, slot, inp).0
    ensures AllocPages(r, s, 1).0 != 0 && slot < MAX_PROCESSES
  {
    hide AllocPages, PrepareProcess, CreatePageTable, SetMapping;
  }
}
