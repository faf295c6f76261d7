/** Parents and children: who gets which pid, who may end whom, and what becomes of an exit code. */
module KernelFamily {
  import opened Basics
  import PhysicalPages
  import opened PageTree
  import opened VmmSpec
  import opened ProcessSpec
  import opened UserVmSpec
  import opened SpawnSpec
  import opened KernelSpec
  import opened KernelRuns
  import opened KernelMeaning
  import opened SpawnMeaning
  import opened KernelStart

  // ----- Exit, kill and wait

  predicate ValidPid(pid: nat) {
    0 < pid < U32_LIMIT
  }

  /** Slot `j` holds a process with that pid. */
  predicate Holds(procs: seq<Proc>, j: nat, pid: nat) {
    j < |procs| && !procs[j].state.Unused? && procs[j].pid == pid
  }

  lemma FindIs(procs: seq<Proc>, pid: nat, j: nat)
    requires PidsOk(procs) && Holds(procs, j, pid)
    ensures pid != 0 && Find(procs, pid) == Some(j)
  {
    var f := FindPid(procs, pid, 0);
    assert f == j;
  }

  lemma FindNone(procs: seq<Proc>, pid: nat)
    ensures Find(procs, pid).Some? ==> Holds(procs, Find(procs, pid).value, pid)
  {
  }

  /** An exit marks the caller dead with its code and changes nothing else but who runs. */
  lemma ExitMeans(r: Ram, k: Kernel, trees: seq<Option<Tree>>, code: nat)
    requires Inv(r, k, trees) && Executing(k)
    ensures var c, k' := k.current.value, Step(r, k, Exit(code));
            && k'.procs[c] == k.procs[c].(state := Zombie, exitCode := code) && k'.vm == k.vm
            && forall i :: 0 <= i < 16 && i != c ==>
                 k'.procs[i] == k.procs[i].(state := if k'.current == Some(i) then Running else k.procs[i].state)
  {
    hide PagesOk, PidsOk, CountUsed, NextRunnable;
    var c := k.current.value;
    var k1 := MarkExited(k, c, code);
    MarkExitedOk(r, k, trees, c, code);
    DispatchWhen(k1, OnExit);
  }

  /** A process that may be killed: alive, and not the one that asks. */
  predicate Victim(k: Kernel, j: nat, pid: nat) {
    ValidPid(pid) && Holds(k.procs, j, pid) && !k.procs[j].state.Zombie? && k.current != Some(j)
  }

  /** Kill answers exactly as the table says, and a killed process is dead with the code for it; nobody else is touched. */
  lemma KillMeans(r: Ram, k: Kernel, pid: nat)
    requires TableOk(k)
    ensures Executing(k) ==> Step(r, k, KillCall(pid)) == SysKill(k, pid).1
    ensures var (a, k') := SysKill(k, pid);
            && (forall j: nat :: Victim(k, j, pid) ==>
                  a == Killed && k' == k.(procs := k.procs[j := k.procs[j].(state := Zombie, exitCode := 0x80)]))
            && ((forall j: nat :: !Victim(k, j, pid)) ==> a != Killed && k' == k)
            && (a == NoProcess <==> ValidPid(pid) && forall j: nat :: !Holds(k.procs, j, pid))
  {
    hide FindPid, PidsOk, CountUsed;
    FindNone(k.procs, pid);
    if Find(k.procs, pid).Some? {
      assert Holds(k.procs, Find(k.procs, pid).value, pid);
    }
    forall j: nat | Holds(k.procs, j, pid)
      ensures Find(k.procs, pid) == Some(j)
    {
      FindIs(k.procs, pid, j);
    }
    if SysKill(k, pid).0.Killed? {
      assert Victim(k, Find(k.procs, pid).value, pid);
    }
  }

  /** A dead child of the process in slot `c`. */
  predicate DeadChild(k: Kernel, c: nat, j: nat, pid: nat)
    requires c < |k.procs|
  {
    ValidPid(pid) && Holds(k.procs, j, pid) && k.procs[j].state.Zombie? && k.procs[j].parent == k.procs[c].pid
  }

  /**
   * Wait collects exactly a dead child of the caller: it answers the child's exit code, empties its slot and returns its pages.
   * Any other request changes nothing and is answered by what stands against it.
   */
  lemma WaitMeans(r: Ram, k: Kernel, trees: seq<Option<Tree>>, pid: nat)
    requires Inv(r, k, trees) && Executing(k)
    ensures |trees| == |k.procs| && Step(r, k, WaitCall(pid)) == SysWait(r, k, k.current.value, pid).1
    ensures var c := k.current.value;
            var (a, k') := SysWait(r, k, c, pid);
            && (forall j: nat :: DeadChild(k, c, j, pid) ==>
                  && a == Exited(k.procs[j].exitCode) && k'.procs == k.procs[j := IDLE] && k'.current == k.current
                  && k'.vm == k.vm.(free := k.vm.free + Hold(r, k.procs[j], trees[j])))
            && ((forall j: nat :: !DeadChild(k, c, j, pid)) ==> !a.Exited? && k' == k)
            && (a == NoProcess <==> ValidPid(pid) && forall j: nat :: !Holds(k.procs, j, pid))
            && (forall j: nat :: ValidPid(pid) && Holds(k.procs, j, pid) ==>
                  && (a == NotParent <==> k.procs[j].parent != k.procs[c].pid)
                  && (a == StillAlive <==> k.procs[j].parent == k.procs[c].pid && !k.procs[j].state.Zombie?))
  {
    hide FindPid, PagesOk, PidsOk, CountUsed, Hold, FreeResources;
    var c := k.current.value;
    SameLength(r, k, trees);
    FindNone(k.procs, pid);
    forall j: nat | Holds(k.procs, j, pid)
      ensures Find(k.procs, pid) == Some(j)
    {
      FindIs(k.procs, pid, j);
    }
    if Find(k.procs, pid).Some? {
      var j := Find(k.procs, pid).value;
      assert Holds(k.procs, j, pid);
      ReleaseOk(r, k, trees, j);
      assert DeadChild(k, c, j, pid) || !SysWait(r, k, c, pid).0.Exited?;
    }
  }

  // ----- An exit code waits for the parent

  /** A spawn touches no process that has exited and whose parent lives. */
  lemma SpawnLeavesDead(r: Ram, k: Kernel, trees: seq<Option<Tree>>, inp: SpawnInput, j: nat)
    requires Inv(r, k, trees) && KernelMapsOk(inp.kernelMaps) && j < |k.procs| && k.procs[j].state.Zombie?
    requires k.procs[j].parent != 0 && Lives(k.procs, k.procs[j].parent)
    ensures Spawn(r, k, inp).1.procs[j] == k.procs[j]
  {
    hide PagesOk, PidsOk, CountUsed, OneRunning, ReclaimFrom, KernelMapsOk, Alloc, Find, SpawnInto, Started, Lives, Reclaimed;
    SameLength(r, k, trees);
    ReclaimMeans(r, k, trees, 0);
    var _ := SpawnOk(r, k, trees, inp);
    if Spawn(r, k, inp).0.Some? {
      var slot := SpawnMeans(r, k, trees, inp);
    }
  }

  /** The running process is the parent and collects the child. */
  predicate Collects(k: Kernel, e: Event, parent: nat, child: nat) {
    e == WaitCall(child) && Executing(k) && k.procs[k.current.value].pid == parent
  }

  lemma StepLeavesDead(r: Ram, k: Kernel, trees: seq<Option<Tree>>, e: Event, j: nat)
    requires Inv(r, k, trees) && EventOk(e) && j < 16 && k.procs[j].state.Zombie?
    requires k.procs[j].parent != 0 && Lives(k.procs, k.procs[j].parent) && !Collects(k, e, k.procs[j].parent, k.procs[j].pid)
    ensures Step(r, k, e).procs[j] == k.procs[j]
  {
    hide PagesOk, PidsOk, CountUsed, NextRunnable, Spawn, MapAnonymous, UnmapAnonymous, KernelMapsOk, Find, Lives, Hold, SysKill, SysWait;
    if !Executing(k) {
      return;
    }
    var c := k.current.value;
    match e
    case Tick => DispatchWhen(k, OnPreempt);
    case Exit(code) => ExitMeans(r, k, trees, code);
    case SpawnCall(inp) => SpawnLeavesDead(r, k, trees, inp, j);
    case Mmap(hint, size, prot) =>
    case Munmap(addr, size) =>
    case KillCall(victim) => KillLeavesDead(r, k, victim, j);
    case WaitCall(child) => WaitLeavesDead(r, k, trees, child, j);
  }

  lemma KillLeavesDead(r: Ram, k: Kernel, pid: nat, j: nat)
    requires TableOk(k) && j < |k.procs| && k.procs[j].state.Zombie?
    ensures |SysKill(k, pid).1.procs| == |k.procs| && SysKill(k, pid).1.procs[j] == k.procs[j]
  {
    hide PidsOk, CountUsed, SysKill;
    KillMeans(r, k, pid);
    if i: nat :| Victim(k, i, pid) {
      assert i != j;
    }
  }

  lemma WaitLeavesDead(r: Ram, k: Kernel, trees: seq<Option<Tree>>, pid: nat, j: nat)
    requires Inv(r, k, trees) && Executing(k) && j < |k.procs| && k.procs[j].state.Zombie?
    requires k.procs[j].pid != pid || k.procs[j].parent != k.procs[k.current.value].pid
    ensures var k' := SysWait(r, k, k.current.value, pid).1; |k'.procs| == |k.procs| && k'.procs[j] == k.procs[j]
  {
    hide PagesOk, PidsOk, CountUsed, SysWait, Hold;
    WaitMeans(r, k, trees, pid);
    if i: nat :| DeadChild(k, k.current.value, i, pid) {
      assert i != j;
    }
  }

  /** The parent is alive all the time, and does not collect the child. */
  ghost predicate Uncollected(r: Ram, k: Kernel, events: seq<Event>, parent: nat, child: nat)
    requires |k.procs| == 16
    decreases |events|
  {
    && Lives(k.procs, parent)
    && (events == [] || (!Collects(k, events[0], parent, child) && Uncollected(r, Step(r, k, events[0]), events[1..], parent, child)))
  }

  /** Whatever happens while its parent lives and has not waited for it, a dead process keeps its slot and its exit code. */
  lemma {:induction false} DeadStays(r: Ram, k: Kernel, trees: seq<Option<Tree>>, events: seq<Event>, j: nat) returns (trees': seq<Option<Tree>>)
    requires Inv(r, k, trees) && j < 16 && k.procs[j].state.Zombie? && k.procs[j].parent != 0
    requires Uncollected(r, k, events, k.procs[j].parent, k.procs[j].pid)
    requires forall i :: 0 <= i < |events| ==> EventOk(events[i])
    ensures Inv(r, Run(r, k, events), trees') && Run(r, k, events).procs[j] == k.procs[j]
    decreases |events|
  {
    hide PagesOk, PidsOk, CountUsed, Step, OneRunning, EventOk, Lives, Collects;
    trees' := trees;
    if events != [] {
      var e := events[0];
      StepLeavesDead(r, k, trees, e, j);
      var trees1 := StepKeeps(r, k, trees, e);
      trees' := DeadStays(r, Step(r, k, e), trees1, events[1..], j);
    }
  }

  /**
   * A process exits with a code. However much later its parent, alive all the while, waits for it for the first time,
   * the answer is that code.
   */
  lemma ExitThenWait(r: Ram, k: Kernel, trees: seq<Option<Tree>>, code: nat, events: seq<Event>)
    requires Inv(r, k, trees) && Executing(k)
    requires forall i :: 0 <= i < |events| ==> EventOk(events[i])
    requires var p := k.procs[k.current.value];
             && p.parent != 0 && ValidPid(p.pid)
             && Uncollected(r, Step(r, k, Exit(code)), events, p.parent, p.pid)
             && var k' := Run(r, Step(r, k, Exit(code)), events);
                Executing(k') && k'.procs[k'.current.value].pid == p.parent
    ensures var k' := Run(r, Step(r, k, Exit(code)), events);
            SysWait(r, k', k'.current.value, k.procs[k.current.value].pid).0 == Exited(code)
  {
    hide PagesOk, PidsOk, CountUsed, Step, OneRunning, EventOk, Lives, Uncollected, Run, SysWait, Hold;
    var c := k.current.value;
    var k1 := Step(r, k, Exit(code));
    ExitMeans(r, k, trees, code);
    assert EventOk(Exit(code)) by { ExitEvent(code); }
    var trees1 := StepKeeps(r, k, trees, Exit(code));
    var trees2 := DeadStays(r, k1, trees1, events, c);
    var k' := Run(r, k1, events);
    WaitMeans(r, k', trees2, k.procs[c].pid);
    assert DeadChild(k', k'.current.value, c, k.procs[c].pid);
  }

  lemma ExitEvent(code: nat)
    ensures EventOk(Exit(code))
  {
  }

  // ----- Pids

  /** The event asks for a new process and passes the first checks. */
  predicate TakesPid(k: Kernel, e: Event) {
    Executing(k) && e.SpawnCall? && e.inp.memoryKnown && e.inp.resolved
  }

  lemma StepNextPid(r: Ram, k: Kernel, trees: seq<Option<Tree>>, e: Event)
    requires Inv(r, k, trees) && EventOk(e) && k.nextPid < U32_LIMIT
    ensures Step(r, k, e).nextPid == (k.nextPid + if TakesPid(k, e) then 1 else 0) % U32_LIMIT
  {
    hide PagesOk, PidsOk, CountUsed, NextRunnable, Spawn, MapAnonymous, UnmapAnonymous, FreeResources, KernelMapsOk;
    if Executing(k) && e.SpawnCall? {
      var _ := SpawnOk(r, k, trees, e.inp);
    }
  }

  /** How many of the events use up a pid. */
  function PidsTaken(r: Ram, k: Kernel, events: seq<Event>): nat
    requires |k.procs| == 16
    decreases |events|
  {
    if events == [] then 0
    else (if TakesPid(k, events[0]) then 1 else 0) + PidsTaken(r, Step(r, k, events[0]), events[1..])
  }

  lemma {:induction false} RunNextPid(r: Ram, k: Kernel, trees: seq<Option<Tree>>, events: seq<Event>)
    requires Inv(r, k, trees) && k.nextPid < U32_LIMIT
    requires forall i :: 0 <= i < |events| ==> EventOk(events[i])
    ensures Run(r, k, events).nextPid == (k.nextPid + PidsTaken(r, k, events)) % U32_LIMIT
    decreases |events|
  {
    hide PagesOk, PidsOk, CountUsed, Step, OneRunning, EventOk, TakesPid;
    if events != [] {
      StepNextPid(r, k, trees, events[0]);
      var trees1 := StepKeeps(r, k, trees, events[0]);
      RunNextPid(r, Step(r, k, events[0]), trees1, events[1..]);
      Wraps(k.nextPid, if TakesPid(k, events[0]) then 1 else 0, PidsTaken(r, Step(r, k, events[0]), events[1..]));
    }
  }

  lemma Wraps(a: nat, b: nat, c: nat)
    ensures ((a + b) % U32_LIMIT + c) % U32_LIMIT == (a + (b + c)) % U32_LIMIT
  {
    var q := (a + b) / U32_LIMIT;
    assert a + b == q * U32_LIMIT + (a + b) % U32_LIMIT;
    Modulo((a + b) % U32_LIMIT + c, q);
  }

  lemma Modulo(x: nat, q: nat)
    ensures (x + q * U32_LIMIT) % U32_LIMIT == x % U32_LIMIT
  {
    var d, m := x / U32_LIMIT, x % U32_LIMIT;
    assert x + q * U32_LIMIT == (d + q) * U32_LIMIT + m;
    assert (x + q * U32_LIMIT) / U32_LIMIT == d + q;
  }

  /** Two successful spawns with fewer than 2^32 - 1 attempts between them, and any other events, answer different pids. */
  lemma PidsDiffer(r: Ram, k: Kernel, trees: seq<Option<Tree>>, first: SpawnInput, events: seq<Event>, second: SpawnInput)
    requires Inv(r, k, trees) && k.nextPid < U32_LIMIT && KernelMapsOk(first.kernelMaps) && KernelMapsOk(second.kernelMaps)
    requires forall i :: 0 <= i < |events| ==> EventOk(events[i])
    requires var (a, k1) := Spawn(r, k, first);
             |k1.procs| == 16 && a.Some? && PidsTaken(r, k1, events) < U32_LIMIT - 1 && Spawn(r, Run(r, k1, events), second).0.Some?
    ensures var (a, k1) := Spawn(r, k, first);
            a != Spawn(r, Run(r, k1, events), second).0
  {
    hide PagesOk, PidsOk, CountUsed, OneRunning, Spawn, EventOk, KernelMapsOk, Run, PidsTaken, Find;
    var k1 := Spawn(r, k, first).1;
    var trees1 := SpawnOk(r, k, trees, first);
    SpawnPassed(r, k, first);
    RunNextPid(r, k1, trees1, events);
    var trees2 := RunKeeps(r, k1, trees1, events);
    var _ := SpawnOk(r, Run(r, k1, events), trees2, second);
    Wraps(k.nextPid, 1, PidsTaken(r, k1, events));
  }

  lemma SpawnPassed(r: Ram, k: Kernel, inp: SpawnInput)
    ensures Spawn(r, k, inp).0.Some? ==> inp.memoryKnown && inp.resolved
  {
  }

  // ----- When a spawn succeeds

  /** Nobody has that pid. */
  ghost predicate PidFree(procs: seq<Proc>, pid: nat) {
    forall j: nat :: !Holds(procs, j, pid)
  }

  /**
   * With the checks passed, the next pid usable and free, a slot idle after reclaiming, and all that a process needs to start
   * in the first such slot, a spawn answers the next pid.
   */
  lemma SpawnSucceeds(r: Ram, k: Kernel, trees: seq<Option<Tree>>, inp: SpawnInput, slot: nat)
    requires Inv(r, k, trees) && KernelMapsOk(inp.kernelMaps) && inp.memoryKnown && inp.resolved && inp.argvPlaced
    requires var k1 := ReclaimFrom(r, k, 0);
             && k.nextPid != 0 && PidFree(k1.procs, k.nextPid) && slot < 16 && k1.procs[slot].state.Unused?
             && (forall j :: 0 <= j < slot ==> !k1.procs[j].state.Unused?)
             && Startable(r, k1.vm.free, slot, inp)
    ensures Spawn(r, k, inp).0 == Some(k.nextPid) && (Executing(k) ==> Step(r, k, SpawnCall(inp)) == Spawn(r, k, inp).1)
  {
    hide PagesOk, PidsOk, CountUsed, OneRunning, ReclaimFrom, KernelMapsOk, IDLE, Fill, CallerPid, Release, FindPid, Startable, RamOk;
    var trees1 := ReclaimOk(r, k, trees, 0);
    var k1 := ReclaimFrom(r, k, 0);
    var pid := k1.nextPid;
    var k2 := k1.(nextPid := (pid + 1) % U32_LIMIT);
    FindNone(k2.procs, pid);
    assert FreeSlot(k2.procs, 0) == slot;
    var k3 := Alloc(k2, pid).value.1;
    var k4 := k3.(procs := k3.procs[slot := InitProc(pid).(parent := CallerPid(k3), state := Blocked)]);
    TableRam(r, k1, trees1);
    FillSucceeds(r, k4, slot, inp);
    FilledPid(r, k4, slot, inp);
  }

  lemma TableRam(r: Ram, k: Kernel, trees: seq<Option<Tree>>)
    requires PagesOk(r, k.vm, k.procs, trees) && |k.procs| > 0
    ensures RamOk(r, k.vm.free)
  {
    hide Hold, Held, Owned, RegionsOk, RamOk;
    assert SlotOk(r, k.vm, k.procs[0], trees[0]);
  }

  /** Filling a slot does not change whose it is. */
  lemma FilledPid(r: Ram, k: Kernel, slot: nat, inp: SpawnInput)
    requires slot < |k.procs| && Fill(r, k, slot, inp).0
    ensures Fill(r, k, slot, inp).1.procs[slot].pid == k.procs[slot].pid
  {
    hide LoadImage, InitProcess, AbandonSpawn;
    var (ok1, s1, st1) := LoadImage(r, k.vm, Storage(0, 0), inp.loads);
    InitProcessFrame(r, s1, k.procs[slot], st1, slot, inp);
  }

  /** What a successful spawn must have found. */
  lemma SpawnNeeds(r: Ram, k: Kernel, trees: seq<Option<Tree>>, inp: SpawnInput)
    requires Inv(r, k, trees) && KernelMapsOk(inp.kernelMaps) && Spawn(r, k, inp).0.Some?
    ensures var k1 := ReclaimFrom(r, k, 0);
            && inp.memoryKnown && inp.resolved && inp.argvPlaced && inp.loads && inp.entryOffset < IMAGE_SIZE
            && k.nextPid != 0 && PidFree(k1.procs, k.nextPid) && (exists slot: nat :: slot < 16 && k1.procs[slot].state.Unused?)
            && PhysicalPages.FirstRun(k1.vm.free, r.total, 2, 0).Some?
  {
    hide PagesOk, PidsOk, CountUsed, OneRunning, ReclaimFrom, KernelMapsOk, Spawn, Translates, StartRegions, UserRange, FindPid;
    var trees1 := ReclaimOk(r, k, trees, 0);
    var slot := SpawnMeans(r, k, trees, inp);
    SpawnChecks(r, k, inp);
    var k1 := ReclaimFrom(r, k, 0);
    assert k1.procs[slot].state.Unused?;
    forall j: nat
      ensures !Holds(k1.procs, j, k.nextPid)
    {
      if Holds(k1.procs, j, k.nextPid) {
        FindIs(k1.procs, k.nextPid, j);
      }
    }
  }

  lemma SpawnChecks(r: Ram, k: Kernel, inp: SpawnInput)
    requires Spawn(r, k, inp).0.Some?
    ensures inp.memoryKnown && inp.resolved && inp.argvPlaced && inp.loads
    ensures var k1 := ReclaimFrom(r, k, 0); k1.nextPid != 0 && Find(k1.procs, k1.nextPid) == None
  {
    hide ReclaimFrom, FindPid, CallerPid, Release, InitProcess, AbandonSpawn, AllocPages, FreeImage;
  }
}
