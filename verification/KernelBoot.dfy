/** The whole life of the machine: booting the first process, running, and coming back when nobody is left to run. */
module KernelBoot {
  import opened Basics
  import opened PhysicalPages
  import opened PageTableFormat
  import opened PageTree
  import opened VmmSpec
  import opened ProcessSpec
  import opened UserVmSpec
  import opened SpawnSpec
  import opened KernelSpec
  import opened KernelRuns
  import opened KernelMeaning
  import opened SpawnMeaning
  import opened KernelStart

  const PANEL_PID: nat := 1

  // ----- Booting

  /** `panel_boot_run` up to user mode: the slot of the first process, which then runs, or nothing with every step undone. */
  function Boot(r: Ram, k: Kernel, inp: SpawnInput): (res: (Option<nat>, Kernel))
    ensures |res.1.procs| == |k.procs|
    ensures res.0.Some? ==> res.0.value < |k.procs|
  {
    var k0 := if k.nextPid == 0 then k.(nextPid := PANEL_PID + 1) else k;
    var k1 := ReclaimFrom(r, k0, 0);
    match Alloc(k1, PANEL_PID)
    case None => (None, k1)
    case Some((slot, k2)) =>
      var (ok, k3) := Fill(r, k2, slot, inp);
      if !ok then (None, k3)
      else (Some(slot), k3.(procs := k3.procs[slot := k3.procs[slot].(state := Running)], current := Some(slot)))
  }

  /** `panel_boot_run` after user mode: zombies are reclaimed, then the slot of the first process is released. */
  function Leave(r: Ram, k: Kernel, slot: nat): (k': Kernel)
    requires slot < |k.procs|
    ensures |k'.procs| == |k.procs|
  {
    Release(r, ReclaimFrom(r, k, 0), slot)
  }

  // ----- The machine

  /** The kernel, and the slot of the first process while the machine is in user mode. */
  datatype Machine = Machine(k: Kernel, panel: Option<nat>)

  /** The boot code tries to start the first process, or the running process does something. */
  datatype Act = Boots(inp: SpawnInput) | Does(e: Event)

  predicate ActOk(a: Act) {
    match a
    case Boots(inp) => KernelMapsOk(inp.kernelMaps)
    case Does(e) => EventOk(e)
  }

  /** One act. When an event leaves nobody to run, control returns to the boot code, which cleans up. */
  function Advance(r: Ram, m: Machine, a: Act): (m': Machine)
    requires |m.k.procs| == 16 && (m.panel.Some? ==> m.panel.value < 16)
    ensures |m'.k.procs| == 16 && (m'.panel.Some? ==> m'.panel.value < 16)
  {
    match a
    case Boots(inp) =>
      if m.panel.Some? then m
      else
        var (slot, k') := Boot(r, m.k, inp);
        Machine(k', slot)
    case Does(e) =>
      if m.panel.None? then m
      else
        var k' := Step(r, m.k, e);
        if Executing(k') then m.(k := k') else Machine(Leave(r, k', m.panel.value), None)
  }

  function Life(r: Ram, m: Machine, acts: seq<Act>): (m': Machine)
    requires |m.k.procs| == 16 && (m.panel.Some? ==> m.panel.value < 16)
    ensures |m'.k.procs| == 16
    decreases |acts|
  {
    if acts == [] then m else Life(r, Advance(r, m, acts[0]), acts[1..])
  }

  /** The machine as `process_table_init` leaves it, with the pool free. */
  function PowerOn(r: Ram, mem: Memory, nextPid: nat): Machine {
    Machine(Kernel(State(mem, r.pool), seq(16, _ => IDLE), None, 0, nextPid), None)
  }

  // ----- Its invariant

  /** Nobody sleeps: between calls a process is ready, running or dead. */
  ghost predicate Awake(k: Kernel) {
    forall i :: 0 <= i < |k.procs| ==> !k.procs[i].state.Blocked?
  }

  /** Every slot is idle, and every page of the pool is free. */
  ghost predicate Empty(r: Ram, k: Kernel) {
    && |k.procs| == 16 && k.current == None && k.count == 0 && k.vm.free == r.pool
    && forall i :: 0 <= i < |k.procs| ==> k.procs[i] == IDLE
  }

  /** In user mode some process runs; outside it, nothing is held by anybody. */
  ghost predicate MachineOk(r: Ram, m: Machine, trees: seq<Option<Tree>>) {
    && Inv(r, m.k, trees) && Awake(m.k)
    && (m.panel.Some? ==> m.panel.value < 16 && Executing(m.k))
    && (m.panel.None? ==> Empty(r, m.k))
  }

  lemma PowerOnOk(r: Ram, mem: Memory, nextPid: nat)
    requires RamOk(r, r.pool)
    ensures MachineOk(r, PowerOn(r, mem, nextPid), seq(16, _ => None))
  {
    BootOk(r, mem, nextPid);
    hide Inv;
  }

  // ----- Booting keeps it

  /** The boot code's own choice of the next pid. */
  function WithPid(k: Kernel): Kernel {
    if k.nextPid == 0 then k.(nextPid := PANEL_PID + 1) else k
  }

  /**
   * Booting keeps the invariant when nobody runs. If it succeeds, the first process runs; if it fails, whichever step failed,
   * free pages and table are exactly as zombie reclaim left them.
   */
  lemma BootKeeps(r: Ram, k: Kernel, trees: seq<Option<Tree>>, inp: SpawnInput) returns (trees': seq<Option<Tree>>)
    requires Inv(r, k, trees) && !Executing(k) && KernelMapsOk(inp.kernelMaps)
    ensures var (slot, k') := Boot(r, k, inp);
            var k1 := ReclaimFrom(r, WithPid(k), 0);
            && Inv(r, k', trees') && k'.nextPid == (if k.nextPid == 0 then 2 else k.nextPid)
            && (slot.None? ==> k'.vm.free == k1.vm.free && k'.procs == k1.procs && k'.current == k1.current && k'.count == k1.count)
            && (slot.Some? ==>
                  && slot.value < |k1.procs| && k1.procs[slot.value] == IDLE && k'.current == slot && Executing(k')
                  && k'.procs == k1.procs[slot.value := k'.procs[slot.value]] && k'.procs[slot.value].pid == PANEL_PID
                  && k'.procs[slot.value].nextVaddr == MMAP_BASE)
  {
    hide PagesOk, PidsOk, CountUsed, OneRunning, ReclaimFrom, KernelMapsOk, Alloc, Find, IDLE, Fill, SlotStep, SlotOk;
    NextPidFree(r, k, trees, WithPid(k).nextPid);
    trees' := ReclaimOk(r, WithPid(k), trees, 0);
    var k1 := ReclaimFrom(r, WithPid(k), 0);
    ReclaimStill(r, WithPid(k), trees);
    if Alloc(k1, PANEL_PID) == None {
      return;
    }
    var (slot, k2) := Alloc(k1, PANEL_PID).value;
    AllocOk(r, k1, trees', PANEL_PID);
    SameLength(r, k2, trees');
    SlotReady(r, k2, trees', slot, k2.procs[slot]);
    var ot' := FillOk(r, k2, slot, inp);
    var (ok, k3) := Fill(r, k2, slot, inp);
    LiftStep(r, k2, trees', slot, k3.vm, k3.procs[slot], ot');
    trees' := trees'[slot := ot'];
    if !ok {
      assert k3.procs == k1.procs;
      SpawnFailedTable(k1, k2, slot, PANEL_PID, k3);
    } else {
      FilledRuns(r, k1, k2, slot, k3, trees');
    }
  }

  /** Reclaiming starts nobody. */
  lemma ReclaimStill(r: Ram, k: Kernel, trees: seq<Option<Tree>>)
    requires Inv(r, k, trees) && !Executing(k)
    ensures forall i :: 0 <= i < |k.procs| ==> !ReclaimFrom(r, k, 0).procs[i].state.Running?
  {
    hide PagesOk, PidsOk, CountUsed, ReclaimFrom, Lives, Reclaimed;
    SameLength(r, k, trees);
    ReclaimMeans(r, k, trees, 0);
  }

  /** The filled slot may start, since nobody else runs. */
  lemma FilledRuns(r: Ram, k1: Kernel, k2: Kernel, slot: nat, k3: Kernel, trees: seq<Option<Tree>>)
    requires TableOk(k2) && slot < |k1.procs| == |k2.procs| && k2.procs == k1.procs[slot := InitProc(PANEL_PID)]
    requires forall i :: 0 <= i < |k1.procs| ==> !k1.procs[i].state.Running?
    requires |k3.procs| == |k2.procs| && k3.procs == k2.procs[slot := k3.procs[slot]]
    requires k3.current == k2.current && k3.count == k2.count
    requires SameIdentity(k2.procs[slot], k3.procs[slot]) && PagesOk(r, k3.vm, k3.procs, trees)
    ensures var k' := k3.(procs := k3.procs[slot := k3.procs[slot].(state := Running)], current := Some(slot));
            Inv(r, k', trees) && k'.procs == k1.procs[slot := k'.procs[slot]]
  {
    hide PagesOk, PidsOk, CountUsed;
    var k' := k3.(procs := k3.procs[slot := k3.procs[slot].(state := Running)], current := Some(slot));
    TableUpdate(k2, slot, k3.procs[slot], k3.vm);
    Promote(k3, slot);
    SamePages(r, k3.vm, k3.procs, k'.procs, trees);
  }

  // ----- Running and leaving keeps it

  /** Nobody is left who could run. */
  ghost predicate Dead(k: Kernel) {
    forall i :: 0 <= i < |k.procs| ==> k.procs[i].state.Zombie? || k.procs[i].state.Unused?
  }

  /** An event after which nobody runs was the exit of the last process alive. */
  lemma LastExit(r: Ram, k: Kernel, trees: seq<Option<Tree>>, e: Event)
    requires Inv(r, k, trees) && Awake(k) && Executing(k) && EventOk(e) && !Executing(Step(r, k, e))
    ensures e.Exit? && Dead(Step(r, k, e))
  {
    hide PagesOk, PidsOk, CountUsed, NextRunnable, Spawn, MapAnonymous, UnmapAnonymous, SysKill, SysWait, EventOk;
    if !e.Tick? && !e.Exit? {
      CallKeepsCurrent(r, k, trees, e);
    } else if e.Tick? {
      DispatchWhen(k, OnPreempt);
    } else {
      var k1 := MarkExited(k, k.current.value, e.code);
      MarkExitedOk(r, k, trees, k.current.value, e.code);
      DispatchWhen(k1, OnExit);
      forall i: nat | i < |k1.procs|
        ensures k1.procs[i].state.Zombie? || k1.procs[i].state.Unused?
      {
        assert !OtherReady(k1, i);
      }
    }
  }

  /** No event puts a process to sleep. */
  lemma StepAwake(r: Ram, k: Kernel, trees: seq<Option<Tree>>, e: Event)
    requires Inv(r, k, trees) && Awake(k) && EventOk(e)
    ensures Awake(Step(r, k, e))
  {
    hide PagesOk, PidsOk, CountUsed, OneRunning, NextRunnable, Spawn, MapAnonymous, UnmapAnonymous, WaitZombie, KernelMapsOk, Find, IDLE;
    if !Executing(k) {
      return;
    }
    var c := k.current.value;
    match e
    case Tick => DispatchWhen(k, OnPreempt);
    case Exit(code) =>
      MarkExitedOk(r, k, trees, c, code);
      DispatchWhen(MarkExited(k, c, code), OnExit);
    case SpawnCall(inp) => SpawnAwake(r, k, trees, inp);
    case Mmap(hint, size, prot) => MapAnonymousFrame(r, k.vm, k.procs[c], hint, size, prot);
    case Munmap(addr, size) => UnmapAnonymousFrame(r, k.vm, k.procs[c], addr, size);
    case KillCall(victim) =>
    case WaitCall(child) => WaitAwake(r, k, child);
  }

  lemma WaitAwake(r: Ram, k: Kernel, child: nat)
    requires Awake(k)
    ensures WaitZombie(r, k, child).Some? ==> Awake(WaitZombie(r, k, child).value.1)
  {
    hide FreeResources, FindPid;
  }

  lemma SpawnAwake(r: Ram, k: Kernel, trees: seq<Option<Tree>>, inp: SpawnInput)
    requires Inv(r, k, trees) && Awake(k) && KernelMapsOk(inp.kernelMaps)
    ensures Awake(Spawn(r, k, inp).1)
  {
    hide PagesOk, PidsOk, CountUsed, OneRunning, ReclaimFrom, KernelMapsOk, Alloc, Find, SpawnInto, Started, Abandoned, Reclaimed;
    SameLength(r, k, trees);
    ReclaimMeans(r, k, trees, 0);
    var _ := SpawnOk(r, k, trees, inp);
    if Spawn(r, k, inp).0.Some? {
      var slot := SpawnMeans(r, k, trees, inp);
    }
  }

  /** With nobody left to run, cleaning up empties the table and returns every page of the pool. */
  lemma LeaveEmpties(r: Ram, k: Kernel, trees: seq<Option<Tree>>, slot: nat) returns (trees': seq<Option<Tree>>)
    requires Inv(r, k, trees) && Dead(k) && slot < |k.procs|
    ensures Inv(r, Leave(r, k, slot), trees') && Empty(r, Leave(r, k, slot))
  {
    hide PagesOk, PidsOk, OneRunning, ReclaimFrom, Reclaimed, FreeResources, CountUsed;
    SameLength(r, k, trees);
    trees' := ReclaimOk(r, k, trees, 0);
    ReclaimMeans(r, k, trees, 0);
    var k1 := ReclaimFrom(r, k, 0);
    forall i | 0 <= i < |k.procs|
      ensures k1.procs[i] == IDLE
    {
      assert k.procs[i].state.Zombie? ==> Abandoned(k.procs, i);
    }
    IdleCount(k1.procs);
    IdlePool(r, k1, trees');
  }

  /** Idle slots hold nothing, so all of the pool is free. */
  lemma IdlePool(r: Ram, k: Kernel, trees: seq<Option<Tree>>)
    requires PagesOk(r, k.vm, k.procs, trees) && forall i :: 0 <= i < |k.procs| ==> k.procs[i] == IDLE
    ensures k.vm.free == r.pool
  {
    forall i | 0 <= i < |k.procs|
      ensures Hold(r, k.procs[i], trees[i]) == {}
    {
      assert SlotOk(r, k.vm, k.procs[i], trees[i]);
      IdleTree(r, k.vm, k.procs[i], trees[i]);
      IdleHolds(r, k.vm, k.procs[i]);
    }
    hide SlotOk, Hold;
    assert Held(r, k.procs, trees) == {};
  }

  // ----- Every life of the machine

  lemma AdvanceKeeps(r: Ram, m: Machine, trees: seq<Option<Tree>>, a: Act) returns (trees': seq<Option<Tree>>)
    requires MachineOk(r, m, trees) && ActOk(a)
    ensures MachineOk(r, Advance(r, m, a), trees')
  {
    hide Inv, Boot, Step, Leave, Executing, EventOk, KernelMapsOk, Awake, Empty;
    MachineParts(r, m, trees);
    trees' := trees;
    match a
    case Boots(inp) =>
      if m.panel.None? {
        trees' := BootKeeps(r, m.k, trees, inp);
        BootFromEmpty(r, m.k, trees, inp);
      }
    case Does(e) =>
      if m.panel.Some? {
        trees' := StepKeeps(r, m.k, trees, e);
        StepAwake(r, m.k, trees, e);
        if !Executing(Step(r, m.k, e)) {
          LastExit(r, m.k, trees, e);
          trees' := LeaveEmpties(r, Step(r, m.k, e), trees', m.panel.value);
          EmptyAwake(r, Leave(r, Step(r, m.k, e), m.panel.value));
        }
      }
  }

  lemma MachineParts(r: Ram, m: Machine, trees: seq<Option<Tree>>)
    requires MachineOk(r, m, trees)
    ensures |m.k.procs| == 16 && (m.panel.None? ==> !Executing(m.k))
  {
    hide PagesOk, PidsOk, CountUsed;
  }

  lemma EmptyAwake(r: Ram, k: Kernel)
    requires Empty(r, k)
    ensures Awake(k)
  {
  }

  /** From an empty table, booting either runs the first process or leaves the table empty. */
  lemma BootFromEmpty(r: Ram, k: Kernel, trees: seq<Option<Tree>>, inp: SpawnInput)
    requires Inv(r, k, trees) && Empty(r, k) && KernelMapsOk(inp.kernelMaps)
    ensures var (slot, k') := Boot(r, k, inp);
            Awake(k') && (slot.Some? ==> slot.value < 16 && Executing(k')) && (slot.None? ==> Empty(r, k'))
  {
    hide PagesOk, PidsOk, CountUsed, OneRunning, Boot, KernelMapsOk, Reclaimable;
    NextPidFree(r, k, trees, WithPid(k).nextPid);
    SameLength(r, k, trees);
    NothingToReclaim(r, WithPid(k), 0);
    var _ := BootKeeps(r, k, trees, inp);
  }

  lemma {:induction false} NothingToReclaim(r: Ram, k: Kernel, i: nat)
    requires i <= |k.procs| && forall j :: 0 <= j < |k.procs| ==> k.procs[j] == IDLE
    ensures ReclaimFrom(r, k, i) == k
    decreases |k.procs| - i
  {
    if i < |k.procs| {
      NothingToReclaim(r, k, i + 1);
    }
  }

  lemma {:induction false} LifeKeeps(r: Ram, m: Machine, trees: seq<Option<Tree>>, acts: seq<Act>)
    returns (trees': seq<Option<Tree>>)
    requires MachineOk(r, m, trees) && forall i :: 0 <= i < |acts| ==> ActOk(acts[i])
    ensures MachineOk(r, Life(r, m, acts), trees')
    decreases |acts|
  {
    hide Inv, Awake, Empty, Executing, Advance, ActOk;
    MachineParts(r, m, trees);
    trees' := trees;
    if acts != [] {
      var trees1 := AdvanceKeeps(r, m, trees, acts[0]);
      trees' := LifeKeeps(r, Advance(r, m, acts[0]), trees1, acts[1..]);
    }
  }

  /**
   * From power on, through any number of boots and any events: the free pages and those of the processes are the whole pool,
   * no page has two holders, pids are unique and at most the current process runs; and whenever the machine is outside
   * user mode, every slot is idle and every page is free again.
   */
  lemma EveryLife(r: Ram, mem: Memory, nextPid: nat, acts: seq<Act>) returns (trees: seq<Option<Tree>>)
    requires RamOk(r, r.pool) && forall i :: 0 <= i < |acts| ==> ActOk(acts[i])
    ensures MachineOk(r, Life(r, PowerOn(r, mem, nextPid), acts), trees)
  {
    hide MachineOk, ActOk, Life;
    PowerOnOk(r, mem, nextPid);
    trees := LifeKeeps(r, PowerOn(r, mem, nextPid), seq(16, _ => None), acts);
  }

  /**
   * A machine with pages enough for the kernel ranges and thirteen more, two of them neighbours, does enter user mode,
   * with the first process set up in the first slot.
   */
  lemma BootSucceeds(r: Ram, mem: Memory, nextPid: nat, inp: SpawnInput)
    requires RamOk(r, r.pool) && Startable(r, r.pool, 0, inp) && KernelMapsOk(inp.kernelMaps)
    ensures var m := Advance(r, PowerOn(r, mem, nextPid), Boots(inp));
            && m.panel == Some(0) && Executing(m.k) && m.k.current == Some(0) && m.k.procs[0].pid == PANEL_PID
            && Started(r, State(mem, r.pool), m.k.vm, m.k.procs[0], 0, inp) && m.k.procs[0].nextVaddr == MMAP_BASE
            && |m.k.vm.free| >= |r.pool| - 13 - 3 * PagesFrom(inp.kernelMaps, 0)
  {
    hide Startable, RamOk, KernelMapsOk, Fill, Translates, Mapping, AllocPages, StartRegions, PagesFrom;
    var k := PowerOn(r, mem, nextPid).k;
    BootOk(r, mem, nextPid);
    NothingToReclaim(r, WithPid(k), 0);
    FirstSlot(WithPid(k));
    var (slot, k2) := Alloc(WithPid(k), PANEL_PID).value;
    FillSucceeds(r, k2, slot, inp);
    BareSlot(r, k2.vm, k2.procs[slot]);
    FillMeans(r, k2, slot, inp);
    var _ := BootKeeps(r, k, seq(16, _ => None), inp);
  }

  lemma BareSlot(r: Ram, s: State, p: Proc)
    requires Bare(p) && RamOk(r, s.free)
    ensures SlotOk(r, s, p, None)
  {
    IdleHolds(r, s, p);
  }

  /** In an empty table the first slot and any pid are free. */
  lemma FirstSlot(k: Kernel)
    requires |k.procs| == 16 && forall i :: 0 <= i < 16 ==> k.procs[i] == IDLE
    ensures Alloc(k, PANEL_PID).Some? && Alloc(k, PANEL_PID).value.0 == 0
    ensures var k' := Alloc(k, PANEL_PID).value.1; k'.procs[0] == InitProc(PANEL_PID) && k'.vm == k.vm
  {
  }
}
