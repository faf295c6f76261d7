/** Memory isolation over whole lives of the machine. */
module KernelIsolation {
  import opened Basics
  import opened PhysicalPages
  import opened PageTableFormat
  import opened PageTree
  import opened VmmSpec
  import opened VmmRanges
  import opened ProcessSpec
  import opened UserVmSpec
  import opened SpawnSpec
  import opened SpawnMeaning
  import opened VmmWhen
  import opened UserVmWhen
  import opened IsolationSpec
  import opened KernelSpec
  import opened KernelRuns
  import opened KernelMeaning
  import opened KernelBoot

  ghost predicate AllSound(s: State, procs: seq<Proc>, window: bool) {
    forall i :: 0 <= i < |procs| ==> Sound(s, procs[i], window)
  }

  ghost predicate EventTame(e: Event, window: bool) {
    EventOk(e) && (e.SpawnCall? ==> KernelRanges(e.inp.kernelMaps, window))
  }

  ghost predicate ActTame(a: Act, window: bool) {
    match a
    case Boots(inp) => KernelMapsOk(inp.kernelMaps) && KernelRanges(inp.kernelMaps, window)
    case Does(e) => EventTame(e, window)
  }

  // ----- Steps

  /** The same tables, regions and cursor: what a process can reach is the same. */
  predicate SameReach(p: Proc, p': Proc) {
    p'.pageTable == 0 || (p'.pageTable == p.pageTable && p'.regions == p.regions && p'.nextVaddr == p.nextVaddr)
  }

  lemma SameSound(s: State, s': State, procs: seq<Proc>, procs': seq<Proc>, window: bool)
    requires AllSound(s, procs, window) && s'.mem == s.mem && |procs'| == |procs|
    requires forall i :: 0 <= i < |procs| ==> SameReach(procs[i], procs'[i])
    ensures AllSound(s', procs', window)
  {
    hide Mapping, Backed, Ahead;
    forall i | 0 <= i < |procs|
      ensures Sound(s', procs'[i], window)
    {
      assert Sound(s, procs[i], window) && SameReach(procs[i], procs'[i]);
    }
  }

  /** A step of one slot that leaves it sound leaves all sound. */
  lemma LiftSound(r: Ram, s: State, procs: seq<Proc>, trees: seq<Option<Tree>>, slot: nat, s': State, p': Proc, ot': Option<Tree>,
                  window: bool)
    requires PagesOk(r, s, procs, trees) && slot < |procs| && AllSound(s, procs, window)
    requires SlotStep(r, s, procs[slot], trees[slot], s', p', ot') && Sound(s', p', window)
    ensures AllSound(s', procs[slot := p'], window)
  {
    hide Mapping, Backed, Ahead, SlotStep, SlotOk, Hold;
    var procs' := procs[slot := p'];
    forall i | 0 <= i < |procs'|
      ensures Sound(s', procs'[i], window)
    {
      assert Sound(s, procs[i], window);
      if i != slot {
        NotMine(r, s, procs, trees, i, slot);
        OtherSlotKept(r, s, procs[i], trees[i], procs[slot], trees[slot], s', p', ot');
        TableThere(r, s, procs[i], trees[i]);
      }
    }
  }

  lemma NotMine(r: Ram, s: State, procs: seq<Proc>, trees: seq<Option<Tree>>, i: nat, j: nat)
    requires PagesOk(r, s, procs, trees) && i < |procs| && j < |procs| && i != j
    ensures SlotOk(r, s, procs[i], trees[i]) && Hold(r, procs[i], trees[i]) !! Hold(r, procs[j], trees[j])
  {
    hide SlotOk, Hold;
  }

  lemma TableThere(r: Ram, s: State, p: Proc, ot: Option<Tree>)
    requires SlotOk(r, s, p, ot)
    ensures p.pageTable != 0 <==> ot.Some?
  {
    hide RegionsOk, Owned, Live, Mapping;
  }

  /** A process set up on the lowest free pages is sound. */
  lemma StartedSound(r: Ram, s: State, s': State, p: Proc, slot: nat, inp: SpawnInput, window: bool)
    requires RamOk(r, s.free) && Started(r, s, s', p, slot, inp) && slot < MAX_PROCESSES && p.nextVaddr == MMAP_BASE
    requires KernelRanges(inp.kernelMaps, window)
    ensures Sound(s', p, window)
  {
    hide Mapping, Translates, StartRegions, Backed, Ahead, Entered, KernelRanges, FirstRun, RamOk;
    var (image, s1) := AllocPages(r, s, 2);
    RunPlaced(r, s.free, 2);
    FewerRam(r, s.free, s1.free);
    RunPlaced(r, s1.free, 1);
    StartSound(Mapping(s'.mem, p.pageTable), inp.kernelMaps, slot, image, AllocPages(r, s1, 1).0, window);
  }

  lemma FewerRam(r: Ram, free: set<nat>, free': set<nat>)
    requires RamOk(r, free) && free' <= free
    ensures RamOk(r, free')
  {
  }

  lemma ReclaimSound(r: Ram, k: Kernel, trees: seq<Option<Tree>>, window: bool)
    requires Inv(r, k, trees) && AllSound(k.vm, k.procs, window)
    ensures AllSound(ReclaimFrom(r, k, 0).vm, ReclaimFrom(r, k, 0).procs, window)
  {
    hide PagesOk, PidsOk, CountUsed, OneRunning, Sound, ReclaimFrom, Abandoned, Reclaimed;
    SameLength(r, k, trees);
    ReclaimMeans(r, k, trees, 0);
    SameSound(k.vm, ReclaimFrom(r, k, 0).vm, k.procs, ReclaimFrom(r, k, 0).procs, window);
  }

  /** A new process in an idle slot keeps everybody's pages apart. */
  lemma SpawnSound(r: Ram, k: Kernel, trees: seq<Option<Tree>>, inp: SpawnInput, window: bool)
    requires Inv(r, k, trees) && AllSound(k.vm, k.procs, window) && KernelMapsOk(inp.kernelMaps) && KernelRanges(inp.kernelMaps, window)
    ensures AllSound(Spawn(r, k, inp).1.vm, Spawn(r, k, inp).1.procs, window)
  {
    hide PagesOk, PidsOk, CountUsed, OneRunning, ReclaimFrom, SpawnInto, KernelMapsOk, KernelRanges, Alloc, Find, Sound, Started,
         SlotStep, SlotOk, RamOk;
    if !inp.memoryKnown || !inp.resolved {
      return;
    }
    var trees1 := ReclaimOk(r, k, trees, 0);
    ReclaimSound(r, k, trees, window);
    var k1 := ReclaimFrom(r, k, 0);
    var pid := k1.nextPid;
    var k2 := k1.(nextPid := (pid + 1) % U32_LIMIT);
    NextPidFree(r, k1, trees1, k2.nextPid);
    if Alloc(k2, pid) == None {
      return;
    }
    var (slot, k3) := Alloc(k2, pid).value;
    AllocOk(r, k2, trees1, pid);
    SameSound(k1.vm, k3.vm, k1.procs, k3.procs, window);
    SameLength(r, k3, trees1);
    var ot' := SpawnIntoOk(r, k3, trees1, slot, inp);
    var (res, k') := SpawnInto(r, k3, slot, inp);
    if res.Some? {
      var found := SpawnMeans(r, k, trees, inp);
      FoundSlot(k1, slot, found, k');
      PoolRam(r, k1, trees1);
      StartedSound(r, k1.vm, k'.vm, k'.procs[slot], slot, inp, window);
    } else {
      IdleSound(k'.vm, window);
    }
    LiftSound(r, k3.vm, k3.procs, trees1, slot, k'.vm, k'.procs[slot], ot', window);
    assert k'.procs == k3.procs[slot := k'.procs[slot]];
  }

  lemma IdleSound(s: State, window: bool)
    ensures Sound(s, IDLE, window)
  {
  }

  lemma PoolRam(r: Ram, k: Kernel, trees: seq<Option<Tree>>)
    requires Inv(r, k, trees)
    ensures RamOk(r, k.vm.free) && |k.procs| == 16
  {
    hide PidsOk, CountUsed, OneRunning;
    assert SlotOk(r, k.vm, k.procs[0], trees[0]);
    hide Live, RegionsOk, Owned;
  }

  /** The slot that changed is the slot that was filled. */
  lemma FoundSlot(k1: Kernel, slot: nat, found: nat, k': Kernel)
    requires slot < |k1.procs| && found < |k1.procs| == |k'.procs| && k1.procs[found] == IDLE && k1.procs[slot] == IDLE
    requires k'.procs == k1.procs[found := k'.procs[found]] && k'.procs[slot].state.Ready?
    ensures found == slot
  {
  }

  /** Every event keeps every process to its own pages. */
  lemma StepSound(r: Ram, k: Kernel, trees: seq<Option<Tree>>, e: Event, window: bool)
    requires Inv(r, k, trees) && AllSound(k.vm, k.procs, window) && EventTame(e, window)
    ensures AllSound(Step(r, k, e).vm, Step(r, k, e).procs, window)
  {
    hide PagesOk, PidsOk, CountUsed, OneRunning, Spawn, MapAnonymous, UnmapAnonymous, WaitZombie, KernelMapsOk, KernelRanges, Find, Sound,
         SlotStep, SlotOk, NextRunnable, IDLE;
    if !Executing(k) {
      return;
    }
    var c := k.current.value;
    SameLength(r, k, trees);
    match e
    case Tick =>
      SameSound(k.vm, k.vm, k.procs, Step(r, k, e).procs, window);
    case Exit(code) =>
      SameSound(k.vm, k.vm, k.procs, Step(r, k, e).procs, window);
    case SpawnCall(inp) => SpawnSound(r, k, trees, inp, window);
    case Mmap(hint, size, prot) =>
      SlotAt(r, k, trees, c);
      MmapStep(r, k, trees, c, hint, size, prot, window);
    case Munmap(addr, size) =>
      SlotAt(r, k, trees, c);
      MunmapStep(r, k, trees, c, addr, size, window);
    case KillCall(victim) =>
      SameSound(k.vm, k.vm, k.procs, Step(r, k, e).procs, window);
    case WaitCall(child) =>
      WaitReach(r, k, child);
      SameSound(k.vm, Step(r, k, e).vm, k.procs, Step(r, k, e).procs, window);
  }

  lemma WaitReach(r: Ram, k: Kernel, child: nat)
    ensures WaitZombie(r, k, child).Some? ==>
              var k' := WaitZombie(r, k, child).value.1;
              && k'.vm.mem == k.vm.mem && |k'.procs| == |k.procs|
              && forall i :: 0 <= i < |k.procs| ==> SameReach(k.procs[i], k'.procs[i])
  {
    hide FreeResources, FindPid;
  }

  lemma MmapStep(r: Ram, k: Kernel, trees: seq<Option<Tree>>, c: nat, hint: nat, size: nat, prot: Prot, window: bool)
    requires PagesOk(r, k.vm, k.procs, trees) && AllSound(k.vm, k.procs, window) && c < |k.procs| == |trees|
    requires SlotOk(r, k.vm, k.procs[c], trees[c])
    ensures var (_, s', p') := MapAnonymous(r, k.vm, k.procs[c], hint, size, prot); AllSound(s', k.procs[c := p'], window)
  {
    hide PagesOk, SlotOk, SlotStep, MapAnonymous, Mapping, Backed, Ahead;
    var p := k.procs[c];
    var (_, s', p') := MapAnonymous(r, k.vm, p, hint, size, prot);
    assert Sound(k.vm, p, window);
    TableThere(r, k.vm, p, trees[c]);
    if trees[c].Some? {
      MapSound(r, k.vm, p, trees[c].value, hint, size, prot, window);
    } else {
      NoTableMap(r, k.vm, p, hint, size, prot);
    }
    var ot' := MapAnonymousOk(r, k.vm, p, trees[c], hint, size, prot);
    LiftSound(r, k.vm, k.procs, trees, c, s', p', ot', window);
  }

  lemma NoTableMap(r: Ram, s: State, p: Proc, hint: nat, size: nat, prot: Prot)
    requires p.pageTable == 0
    ensures MapAnonymous(r, s, p, hint, size, prot).1 == s && MapAnonymous(r, s, p, hint, size, prot).2 == p
  {
  }

  lemma MunmapStep(r: Ram, k: Kernel, trees: seq<Option<Tree>>, c: nat, addr: nat, size: nat, window: bool)
    requires PagesOk(r, k.vm, k.procs, trees) && AllSound(k.vm, k.procs, window) && c < |k.procs| == |trees|
    requires SlotOk(r, k.vm, k.procs[c], trees[c])
    ensures var (_, s', p') := UnmapAnonymous(r, k.vm, k.procs[c], addr, size); AllSound(s', k.procs[c := p'], window)
  {
    hide PagesOk, SlotOk, SlotStep, UnmapAnonymous, Mapping, Backed, Ahead;
    var p := k.procs[c];
    var (_, s', p') := UnmapAnonymous(r, k.vm, p, addr, size);
    assert Sound(k.vm, p, window);
    TableThere(r, k.vm, p, trees[c]);
    if trees[c].Some? {
      UnmapSound(r, k.vm, p, trees[c].value, addr, size, window);
    } else {
      NoTableUnmap(r, k.vm, p, addr, size);
    }
    UnmapAnonymousOk(r, k.vm, p, trees[c], addr, size);
    LiftSound(r, k.vm, k.procs, trees, c, s', p', trees[c], window);
  }

  lemma NoTableUnmap(r: Ram, s: State, p: Proc, addr: nat, size: nat)
    requires p.pageTable == 0
    ensures UnmapAnonymous(r, s, p, addr, size).1 == s && UnmapAnonymous(r, s, p, addr, size).2 == p
  {
  }

  // ----- The machine

  lemma BootSound(r: Ram, k: Kernel, trees: seq<Option<Tree>>, inp: SpawnInput, window: bool)
    requires Inv(r, k, trees) && !Executing(k) && AllSound(k.vm, k.procs, window)
    requires KernelMapsOk(inp.kernelMaps) && KernelRanges(inp.kernelMaps, window)
    ensures AllSound(Boot(r, k, inp).1.vm, Boot(r, k, inp).1.procs, window)
  {
    hide PagesOk, PidsOk, CountUsed, OneRunning, ReclaimFrom, KernelMapsOk, KernelRanges, Alloc, Find, IDLE, Fill, Sound, Started,
         SlotStep, SlotOk, RamOk;
    NextPidFree(r, k, trees, WithPid(k).nextPid);
    var trees1 := ReclaimOk(r, WithPid(k), trees, 0);
    ReclaimSound(r, WithPid(k), trees, window);
    var k1 := ReclaimFrom(r, WithPid(k), 0);
    if Alloc(k1, PANEL_PID) == None {
      return;
    }
    var (slot, k2) := Alloc(k1, PANEL_PID).value;
    AllocOk(r, k1, trees1, PANEL_PID);
    SameSound(k1.vm, k2.vm, k1.procs, k2.procs, window);
    SameLength(r, k2, trees1);
    SlotReady(r, k2, trees1, slot, k2.procs[slot]);
    var ot' := FillOk(r, k2, slot, inp);
    var (ok, k3) := Fill(r, k2, slot, inp);
    if ok {
      FillMeans(r, k2, slot, inp);
      PoolRam(r, k2, trees1);
      StartedSound(r, k2.vm, k3.vm, k3.procs[slot], slot, inp, window);
    } else {
      IdleSound(k3.vm, window);
    }
    LiftSound(r, k2.vm, k2.procs, trees1, slot, k3.vm, k3.procs[slot], ot', window);
    SameSound(k3.vm, k3.vm, k3.procs, Boot(r, k, inp).1.procs, window);
  }

  lemma EmptySound(r: Ram, k: Kernel, window: bool)
    requires Empty(r, k)
    ensures AllSound(k.vm, k.procs, window)
  {
    hide Sound;
    IdleSound(k.vm, window);
  }

  lemma AdvanceSound(r: Ram, m: Machine, trees: seq<Option<Tree>>, a: Act, window: bool)
    requires MachineOk(r, m, trees) && AllSound(m.k.vm, m.k.procs, window) && ActTame(a, window)
    ensures var m' := Advance(r, m, a); AllSound(m'.k.vm, m'.k.procs, window)
  {
    hide Inv, Boot, Step, Leave, Executing, EventOk, KernelMapsOk, KernelRanges, Awake, Empty, AllSound;
    MachineParts(r, m, trees);
    match a
    case Boots(inp) =>
      if m.panel.None? {
        BootSound(r, m.k, trees, inp, window);
      }
    case Does(e) =>
      if m.panel.Some? {
        StepSound(r, m.k, trees, e, window);
        if !Executing(Step(r, m.k, e)) {
          var trees1 := StepKeeps(r, m.k, trees, e);
          LastExit(r, m.k, trees, e);
          var _ := LeaveEmpties(r, Step(r, m.k, e), trees1, m.panel.value);
          EmptySound(r, Leave(r, Step(r, m.k, e), m.panel.value), window);
        }
      }
  }

  lemma {:induction false} LifeSound(r: Ram, m: Machine, trees: seq<Option<Tree>>, acts: seq<Act>, window: bool)
    returns (trees': seq<Option<Tree>>)
    requires MachineOk(r, m, trees) && AllSound(m.k.vm, m.k.procs, window)
    requires forall i :: 0 <= i < |acts| ==> ActTame(acts[i], window)
    ensures var m' := Life(r, m, acts); MachineOk(r, m', trees') && AllSound(m'.k.vm, m'.k.procs, window)
    decreases |acts|
  {
    hide Inv, Awake, Empty, Executing, Advance, AllSound, KernelMapsOk, KernelRanges, EventTame;
    MachineParts(r, m, trees);
    trees' := trees;
    if acts != [] {
      TameOk(acts[0], window);
      var trees1 := AdvanceKeeps(r, m, trees, acts[0]);
      AdvanceSound(r, m, trees, acts[0], window);
      trees' := LifeSound(r, Advance(r, m, acts[0]), trees1, acts[1..], window);
    }
  }

  lemma TameOk(a: Act, window: bool)
    requires ActTame(a, window)
    ensures ActOk(a)
  {
    hide KernelMapsOk, KernelRanges;
  }

  /** From power on, whatever happens, user mode reaches only pages of regions the process owns. */
  lemma EveryLifeSound(r: Ram, mem: Memory, nextPid: nat, acts: seq<Act>, window: bool) returns (trees: seq<Option<Tree>>)
    requires RamOk(r, r.pool) && forall i :: 0 <= i < |acts| ==> ActTame(acts[i], window)
    ensures var m := Life(r, PowerOn(r, mem, nextPid), acts); MachineOk(r, m, trees) && AllSound(m.k.vm, m.k.procs, window)
  {
    hide Inv, Awake, Executing, ActTame, Life, Sound;
    PowerOnOk(r, mem, nextPid);
    EmptySound(r, PowerOn(r, mem, nextPid).k, window);
    trees := LifeSound(r, PowerOn(r, mem, nextPid), seq(16, _ => None), acts, window);
  }

  // ----- What it means

  /**
   * Isolation: a page that process `i` can reach in user mode is one it owns. It is not free, it holds no page table of
   * anybody, and no other process holds it or can reach it.
   */
  lemma Isolated(r: Ram, k: Kernel, trees: seq<Option<Tree>>, window: bool, i: nat, v: nat) returns (x: nat)
    requires Inv(r, k, trees) && AllSound(k.vm, k.procs, window) && i < |k.procs| && k.procs[i].pageTable != 0
    requires v in Mapping(k.vm.mem, k.procs[i].pageTable) && UserReaches(Mapping(k.vm.mem, k.procs[i].pageTable)[v])
    ensures Mapping(k.vm.mem, k.procs[i].pageTable)[v].addr == Addr(r.base, x)
    ensures x in Owned(r, k.procs[i].regions) && x !in k.vm.free && |trees| == |k.procs|
    ensures forall j :: 0 <= j < |k.procs| ==> x !in TablePages(trees[j]) && (j != i ==> x !in Hold(r, k.procs[j], trees[j]))
  {
    hide PidsOk, CountUsed, OneRunning, Mapping, Live, RegionsOk, Owned, NoWriteExec, RamOk;
    assert Sound(k.vm, k.procs[i], window);
    assert SlotOk(r, k.vm, k.procs[i], trees[i]);
    x := Reached(r, k.procs[i].regions, v, Mapping(k.vm.mem, k.procs[i].pageTable)[v]);
    assert x in Hold(r, k.procs[i], trees[i]);
    forall j | 0 <= j < |k.procs|
      ensures x !in TablePages(trees[j]) && (j != i ==> x !in Hold(r, k.procs[j], trees[j]))
    {
    }
  }

  /** Two processes never reach the same page in user mode. */
  lemma NothingShared(r: Ram, k: Kernel, trees: seq<Option<Tree>>, window: bool, i: nat, v: nat, j: nat, w: nat)
    requires Inv(r, k, trees) && AllSound(k.vm, k.procs, window) && i < |k.procs| && j < |k.procs| && i != j
    requires k.procs[i].pageTable != 0 && k.procs[j].pageTable != 0
    requires v in Mapping(k.vm.mem, k.procs[i].pageTable) && UserReaches(Mapping(k.vm.mem, k.procs[i].pageTable)[v])
    requires w in Mapping(k.vm.mem, k.procs[j].pageTable) && UserReaches(Mapping(k.vm.mem, k.procs[j].pageTable)[w])
    ensures Mapping(k.vm.mem, k.procs[i].pageTable)[v].addr != Mapping(k.vm.mem, k.procs[j].pageTable)[w].addr
  {
    hide Inv, AllSound, Mapping, Owned;
    var x := Isolated(r, k, trees, window, i, v);
    var y := Isolated(r, k, trees, window, j, w);
    AddrInjective(r.base, x, y);
  }

  /** When the kernel keeps out of the mmap window, every failing mmap restores every translation. */
  lemma FailedMmapRestores(r: Ram, k: Kernel, trees: seq<Option<Tree>>, c: nat, hint: nat, size: nat, prot: Prot)
    requires Inv(r, k, trees) && AllSound(k.vm, k.procs, true) && c < |k.procs| && k.procs[c].pageTable != 0
    requires !MapAnonymous(r, k.vm, k.procs[c], hint, size, prot).0.Mapped?
    ensures var (_, s', _) := MapAnonymous(r, k.vm, k.procs[c], hint, size, prot);
            Mapping(s'.mem, k.procs[c].pageTable) == Mapping(k.vm.mem, k.procs[c].pageTable)
  {
    hide PagesOk, PidsOk, CountUsed, OneRunning, Mapping, SlotOk, MapAnonymous, Backed;
    var p := k.procs[c];
    SameLength(r, k, trees);
    SlotAt(r, k, trees, c);
    TableThere(r, k.vm, p, trees[c]);
    assert Sound(k.vm, p, true);
    FailedMapRestores(r, k.vm, p, trees[c].value, hint, size, prot);
    if ReachesMapping(r, k.vm, p, hint, size, prot) {
      CursorInWindow(p, AlignSize(size));
    }
  }

  /**
   * When the kernel keeps out of the mmap window, user mode reaches exactly the pages of the regions of the process: page `v`
   * is reachable if and only if it is a page of a region, and then it is the page of memory at that place of the region.
   */
  lemma ExactReach(r: Ram, k: Kernel, trees: seq<Option<Tree>>, c: nat, v: nat)
    requires Inv(r, k, trees) && AllSound(k.vm, k.procs, true) && c < |k.procs| && k.procs[c].pageTable != 0
    ensures var m, regs := Mapping(k.vm.mem, k.procs[c].pageTable), k.procs[c].regions;
            && (v in m && UserReaches(m[v]) <==> exists i: nat, j: nat :: InRegion(regs, i, j, v))
            && forall i: nat, j: nat :: InRegion(regs, i, j, v) ==> v in m && m[v].addr == regs[i].paddr + 4096 * j
  {
    hide PagesOk, PidsOk, CountUsed, OneRunning, Mapping, Vpn, Ahead, Tidy;
    var p := k.procs[c];
    var m, regs := Mapping(k.vm.mem, p.pageTable), p.regions;
    assert Sound(k.vm, p, true);
    forall i: nat, j: nat | InRegion(regs, i, j, v)
      ensures v in m && UserReaches(m[v]) && m[v].addr == regs[i].paddr + 4096 * j
    {
      assert PageThere(m, regs[i], j);
    }
    if v in m && UserReaches(m[v]) {
      assert BackedAt(regs, v, m[v]);
      var i: nat, j: nat :| BackedBy(regs, i, j, v, m[v]);
      assert InRegion(regs, i, j, v);
    }
  }

  /** Virtual page `v` is page `j` of region `i`. */
  predicate InRegion(regs: seq<Region>, i: nat, j: nat, v: nat) {
    i < |regs| && regs[i].start + 4096 * j < regs[i].end && v == Vpn(regs[i].start + 4096 * j)
  }

  /**
   * A running process that asks for memory gets it, when it has a region left, the window has room, and memory has a run of
   * pages for it and three pages a page for tables: a new region at the cursor, and every byte of it usable as it asked.
   */
  lemma MmapEvent(r: Ram, k: Kernel, trees: seq<Option<Tree>>, size: nat, prot: Prot, n: nat)
    requires Inv(r, k, trees) && AllSound(k.vm, k.procs, true) && Executing(k)
    requires 0 < size <= 4096 * n < size + 4096 && !prot.other && !(prot.write && prot.exec)
    requires var p := k.procs[k.current.value];
             && p.pageTable != 0 && |p.regions| < 8 && p.nextVaddr + 4096 * n <= MMAP_LIMIT
             && FirstRun(k.vm.free, r.total, n, 0).Some? && |k.vm.free| >= 4 * n
    ensures var c, k' := k.current.value, Step(r, k, Mmap(0, size, prot));
            var p, p' := k.procs[c], k'.procs[c];
            var paddr := Addr(r.base, FirstRun(k.vm.free, r.total, n, 0).value);
            && p'.regions == p.regions + [Region(p.nextVaddr, p.nextVaddr + 4096 * n, paddr, true)]
            && UserRange(Mapping(k'.vm.mem, p'.pageTable), p.nextVaddr, paddr, 4096 * n, prot)
  {
    hide PagesOk, PidsOk, CountUsed, OneRunning, Mapping, MapAnonymous, SlotOk, NoBlocks, FirstRun, UserRange, Bind, Vpns, Descs, NewPages,
         Resident, Vpn, AlignSize;
    var c := k.current.value;
    var p := k.procs[c];
    SameLength(r, k, trees);
    SlotAt(r, k, trees, c);
    TableThere(r, k.vm, p, trees[c]);
    assert Sound(k.vm, p, true);
    var m := Mapping(k.vm.mem, p.pageTable);
    ExactParts(p, m);
    ExactRoom(p, m, n);
    SizeIs(size, n);
    MapAnonymousSucceeds(r, k.vm, p, trees[c].value, size, prot, n);
    MapAnonymousMeaning(r, k.vm, p, trees[c].value, 0, size, prot);
  }

  /** Ahead of the cursor there is neither a region nor a mapping. */
  lemma ExactRoom(p: Proc, m: map<nat, Desc>, n: nat)
    requires Exact(p, m) && p.nextVaddr + 4096 * n <= MMAP_LIMIT
    ensures Clear(p.regions, p.nextVaddr, p.nextVaddr + 4096 * n) && Unmapped(m, p.nextVaddr, 0, n)
  {
    hide Resident;
    forall i | 0 <= i < |p.regions|
      ensures p.regions[i].end <= p.nextVaddr
    {
      assert TidyRegion(p.regions[i], p.nextVaddr);
    }
    forall v | v in m
      ensures !(p.nextVaddr / 4096 <= v < p.nextVaddr / 4096 + n)
    {
      assert !InWindow(v, p.nextVaddr);
    }
  }

  /** A running process that gives a region back loses exactly that region, and memory gets exactly its pages. */
  lemma MunmapEvent(r: Ram, k: Kernel, trees: seq<Option<Tree>>, i: nat)
    requires Inv(r, k, trees) && AllSound(k.vm, k.procs, true) && Executing(k)
    requires k.procs[k.current.value].pageTable != 0 && i < |k.procs[k.current.value].regions|
    ensures var p := k.procs[k.current.value];
            var g := p.regions[i];
            g.start < g.end &&
            var k' := Step(r, k, Munmap(g.start, g.end - g.start));
            && k'.procs[k.current.value].regions == p.regions[..i] + p.regions[i + 1..]
            && k'.vm.free == k.vm.free + RegionPages(r, g)
  {
    hide PagesOk, PidsOk, CountUsed, OneRunning, Mapping, UnmapAnonymous, SlotOk, RegionPages, AllSound;
    SameLength(r, k, trees);
    MunmapSucceeds(r, k, trees, k.current.value, i);
    RegionGone(r, k, trees, k.current.value, i);
  }

  /** What unmapping a region does to its process and to free memory. */
  lemma RegionGone(r: Ram, k: Kernel, trees: seq<Option<Tree>>, c: nat, i: nat)
    requires Inv(r, k, trees) && c < |k.procs| && k.procs[c].pageTable != 0 && i < |k.procs[c].regions|
    requires var g := k.procs[c].regions[i];
             g.start < g.end && UnmapAnonymous(r, k.vm, k.procs[c], g.start, g.end - g.start).0
    ensures var p := k.procs[c];
            var g := p.regions[i];
            var (_, s', p') := UnmapAnonymous(r, k.vm, p, g.start, g.end - g.start);
            p'.regions == p.regions[..i] + p.regions[i + 1..] && s'.free == k.vm.free + RegionPages(r, g)
  {
    hide Mapping, UnmapAnonymous, SlotOk, RegionPages, Live, PagesOk, PidsOk, CountUsed, OneRunning;
    var p := k.procs[c];
    var g := p.regions[i];
    SameLength(r, k, trees);
    SlotAt(r, k, trees, c);
    TableThere(r, k.vm, p, trees[c]);
    var n := g.end - g.start;
    var done := UnmapAnonymousMeaning(r, k.vm, p, trees[c].value, g.start, n);
    var (_, s', p') := UnmapAnonymous(r, k.vm, p, g.start, n);
    var j: nat :| j < |p.regions| && Unmaps(p.regions[j], g.start, AlignSize(n))
                  && p' == p.(regions := p.regions[..j] + p.regions[j + 1..])
                  && s'.free == k.vm.free + RegionPages(r, p.regions[j]);
    SlotPlaces(r, k.vm, p, trees[c].value);
    SameStart(p.regions, j, i);
  }

  lemma SameStart(regs: seq<Region>, i: nat, k: nat)
    requires PlacesApart(regs) && i < |regs| && k < |regs| && regs[i].start == regs[k].start
    requires regs[i].start < regs[i].end && regs[k].start < regs[k].end
    ensures i == k
  {
  }

  /** Then every region can be unmapped, whatever happened before. */
  lemma MunmapSucceeds(r: Ram, k: Kernel, trees: seq<Option<Tree>>, c: nat, i: nat)
    requires Inv(r, k, trees) && AllSound(k.vm, k.procs, true) && c < |k.procs| && k.procs[c].pageTable != 0 && i < |k.procs[c].regions|
    ensures var g := k.procs[c].regions[i];
            g.start < g.end && UnmapAnonymous(r, k.vm, k.procs[c], g.start, g.end - g.start).0
  {
    hide PagesOk, PidsOk, CountUsed, OneRunning, Mapping, Vpn, Ahead, Resident, UnmapAnonymous, SlotOk, AllMapped;
    var p := k.procs[c];
    var g := p.regions[i];
    SameLength(r, k, trees);
    SlotAt(r, k, trees, c);
    TableThere(r, k.vm, p, trees[c]);
    assert Sound(k.vm, p, true);
    assert TidyRegion(g, p.nextVaddr);
    var n := (g.end - g.start) / 4096;
    assert g.end - g.start == 4096 * n;
    RegionResident(p, Mapping(k.vm.mem, p.pageTable), i);
    UnmapAnonymousWhen(r, k.vm, p, trees[c].value, g.start, g.end - g.start, n);
    assert Unmaps(p.regions[i], g.start, 4096 * n);
  }
}
