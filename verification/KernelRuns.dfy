/** Whole runs: any sequence of system calls and timer ticks keeps the invariant, and nobody waits forever. */
module KernelRuns {
  import opened Basics
  import opened PhysicalPages
  import opened PageTableFormat
  import opened PageTree
  import opened VmmSpec
  import VmmRanges
  import opened ProcessSpec
  import opened UserVmSpec
  import opened SpawnSpec
  import opened KernelSpec

  // ----- Spawn on the whole table

  lemma AllocOk(r: Ram, k: Kernel, trees: seq<Option<Tree>>, pid: nat)
    requires Inv(r, k, trees) && Alloc(k, pid).Some?
    ensures var (slot, k') := Alloc(k, pid).value;
            && slot < |k.procs| && k.procs[slot] == IDLE && trees[slot] == None && k.current != Some(slot)
            && k'.procs == k.procs[slot := InitProc(pid)] && k'.count > 0 && k'.vm == k.vm && k'.current == k.current
            && k'.nextPid == k.nextPid && (forall j :: 0 <= j < slot ==> !k.procs[j].state.Unused?)
            && Inv(r, k', trees)
  {
    hide PagesOk, SlotOk, SlotStep, Hold, PidsOk, CountUsed, OneRunning, Find;
    var slot := FreeSlot(k.procs, 0);
    var p' := InitProc(pid);
    SameLength(r, k, trees);
    SlotAt(r, k, trees, slot);
    IdleTree(r, k.vm, k.procs[slot], trees[slot]);
    SameRegionsStep(r, k.vm, k.procs[slot], trees[slot], p');
    LiftStep(r, k, trees, slot, k.vm, p', trees[slot]);
    assert trees[slot := trees[slot]] == trees;
    AllocTable(k, pid);
  }

  lemma IdleTree(r: Ram, s: State, p: Proc, ot: Option<Tree>)
    requires SlotOk(r, s, p, ot) && p.pageTable == 0
    ensures ot == None
  {
  }

  lemma AllocTable(k: Kernel, pid: nat)
    requires TableOk(k) && Alloc(k, pid).Some?
    ensures TableOk(Alloc(k, pid).value.1)
  {
    CountUpdate(k.procs, FreeSlot(k.procs, 0), InitProc(pid));
  }

  /**
   * A spawn keeps the invariant. A failing one, whichever step failed, leaves the free pages and
   * the process table exactly as zombie reclaim left them. Every call that passes the first checks, failing or not,
   * uses up one pid; a successful one answers with it.
   */
  lemma SpawnOk(r: Ram, k: Kernel, trees: seq<Option<Tree>>, inp: SpawnInput) returns (trees': seq<Option<Tree>>)
    requires Inv(r, k, trees) && KernelMapsOk(inp.kernelMaps)
    ensures var (res, k') := Spawn(r, k, inp);
            && Inv(r, k', trees')
            && (inp.memoryKnown && inp.resolved && res == None ==>
                  var k1 := ReclaimFrom(r, k, 0);
                  k'.vm.free == k1.vm.free && k'.procs == k1.procs && k'.current == k1.current && k'.count == k1.count)
            && k'.nextPid == (if inp.memoryKnown && inp.resolved then (k.nextPid + 1) % U32_LIMIT else k.nextPid)
            && (res.Some? ==> res.value == k.nextPid && Find(k'.procs, res.value).Some? && k'.procs[Find(k'.procs, res.value).value].state.Ready?)
  {
    hide PagesOk, PidsOk, CountUsed, OneRunning, ReclaimFrom, SpawnInto, KernelMapsOk, Alloc, Find, IDLE;
    trees' := trees;
    if !inp.memoryKnown || !inp.resolved {
      return;
    }
    trees' := ReclaimOk(r, k, trees, 0);
    var k1 := ReclaimFrom(r, k, 0);
    var pid := k1.nextPid;
    var k2 := k1.(nextPid := (pid + 1) % U32_LIMIT);
    NextPidFree(r, k1, trees', k2.nextPid);
    if Alloc(k2, pid) == None {
      return;
    }
    var (slot, k3) := Alloc(k2, pid).value;
    AllocOk(r, k2, trees', pid);
    var ot' := SpawnIntoOk(r, k3, trees', slot, inp);
    var (res, k') := SpawnInto(r, k3, slot, inp);
    SameLength(r, k3, trees');
    if res == None {
      assert k'.procs == k2.procs;
      SpawnFailedTable(k2, k3, slot, pid, k');
    } else {
      TableUpdate(k3, slot, k'.procs[slot], k'.vm);
      FindsIt(k', slot);
    }
    trees' := trees'[slot := ot'];
  }

  lemma NextPidFree(r: Ram, k: Kernel, trees: seq<Option<Tree>>, next: nat)
    requires Inv(r, k, trees)
    ensures Inv(r, k.(nextPid := next), trees)
  {
    hide PagesOk, PidsOk, CountUsed;
  }

  lemma SpawnFailedTable(k2: Kernel, k3: Kernel, slot: nat, pid: nat, k': Kernel)
    requires TableOk(k2) && Alloc(k2, pid) == Some((slot, k3))
    requires k'.procs == k2.procs && k'.count == k3.count - 1 && k'.current == k3.current
    ensures TableOk(k') && k'.count == k2.count && k'.current == k2.current
  {
    hide PidsOk, CountUsed;
  }

  lemma FindsIt(k: Kernel, slot: nat)
    requires TableOk(k) && slot < |k.procs| && !k.procs[slot].state.Unused?
    ensures Find(k.procs, k.procs[slot].pid) == Some(slot)
  {
    var j := FindPid(k.procs, k.procs[slot].pid, 0);
    assert j < |k.procs|;
    assert j == slot;
  }

  // ----- Dispatching

  datatype Policy = OnExit | OnPreempt

  /** `j` slots on from `start`, round the table. */
  function Around(start: nat, j: nat): (i: nat)
    ensures i < 16
  {
    (start + j) % 16
  }

  /** The first ready slot among `start + offset`, ..., `start + count - 1`, counted round the table. */
  function Scan(procs: seq<Proc>, start: nat, offset: nat, count: nat): (n: Option<nat>)
    requires |procs| == 16 && offset <= count
    ensures n.Some? ==> n.value < 16 && procs[n.value].state.Ready?
    decreases count - offset
  {
    if offset == count then None
    else if procs[Around(start, offset)].state.Ready? then Some(Around(start, offset))
    else Scan(procs, start, offset + 1, count)
  }

  function NextRunnable(procs: seq<Proc>, after: Option<nat>): (n: Option<nat>)
    requires |procs| == 16
    ensures n.Some? ==> n.value < 16 && procs[n.value].state.Ready?
  {
    match after
    case None => Scan(procs, 0, 0, 16)
    case Some(c) => Scan(procs, c + 1, 0, 15)
  }

  function Dispatch(k: Kernel, policy: Policy): (bool, Kernel)
    requires |k.procs| == 16 && (k.current.Some? ==> k.current.value < 16)
  {
    if k.current == None && policy.OnPreempt? then (false, k)
    else
      match NextRunnable(k.procs, k.current)
      case None => (false, k)
      case Some(next) =>
        var procs1 := if policy.OnPreempt? && k.procs[k.current.value].state.Running?
                      then k.procs[k.current.value := k.procs[k.current.value].(state := Ready)] else k.procs;
        (true, k.(procs := procs1[next := procs1[next].(state := Running)], current := Some(next)))
  }

  lemma {:induction false} ScanIsFirst(procs: seq<Proc>, start: nat, offset: nat, count: nat) returns (o: nat)
    requires |procs| == 16 && offset <= count
    ensures match Scan(procs, start, offset, count)
            case None => o == count
            case Some(n) => offset <= o < count && n == Around(start, o)
    ensures forall j: nat :: offset <= j < o ==> !procs[Around(start, j)].state.Ready?
    decreases count - offset
  {
    hide Around;
    o := offset;
    if offset < count && !procs[Around(start, offset)].state.Ready? {
      o := ScanIsFirst(procs, start, offset + 1, count);
    }
  }

  /** How many slots lie strictly between `c` and `s`, going up round the table. */
  function Distance(c: nat, s: nat): nat
    requires c < 16 && s < 16
  {
    (s + 15 - c) % 16
  }

  lemma AroundTable(c: nat, s: nat)
    requires c < 16 && s < 16 && c != s
    ensures Distance(c, s) < 15 && Around(c + 1, Distance(c, s)) == s
  {
  }

  lemma AroundCloser(c: nat, s: nat, o: nat)
    requires c < 16 && s < 16 && c != s && o < Distance(c, s)
    ensures Distance(Around(c + 1, o), s) == Distance(c, s) - o - 1
  {
    if c < s {
      assert Distance(c, s) == s - c - 1;
    } else {
      assert Distance(c, s) == s + 15 - c;
    }
  }

  lemma AroundOther(c: nat, o: nat)
    requires c < 16 && o < 15
    ensures Around(c + 1, o) != c
  {
  }

  /** A ready process is picked, or the turn moves strictly closer to it. */
  lemma DispatchApproaches(procs: seq<Proc>, c: nat, s: nat)
    requires |procs| == 16 && c < 16 && s < 16 && c != s && procs[s].state.Ready?
    ensures var n := NextRunnable(procs, Some(c));
            n.Some? && n.value != c && (n.value == s || Distance(n.value, s) < Distance(c, s))
  {
    hide Around, Distance, Scan;
    var o := ScanIsFirst(procs, c + 1, 0, 15);
    var d := Distance(c, s);
    AroundTable(c, s);
    assert o <= d;
    AroundOther(c, o);
    if o < d {
      AroundCloser(c, s, o);
    }
  }

  /** A dispatch changes run states only: the new runner is current and nobody else runs. */
  lemma DispatchOk(r: Ram, k: Kernel, trees: seq<Option<Tree>>, policy: Policy)
    requires Inv(r, k, trees)
    requires policy.OnExit? ==> k.current == None || !k.procs[k.current.value].state.Running?
    ensures Inv(r, Dispatch(k, policy).1, trees)
  {
    hide PagesOk, NextRunnable, PidsOk, CountUsed;
    var (ok, k') := Dispatch(k, policy);
    if ok {
      DispatchTable(k, policy);
      forall i | 0 <= i < 16
        ensures k'.procs[i].regions == k.procs[i].regions && k'.procs[i].pageTable == k.procs[i].pageTable
      {
      }
      SamePages(r, k.vm, k.procs, k'.procs, trees);
    }
  }

  lemma SamePages(r: Ram, s: State, procs: seq<Proc>, procs': seq<Proc>, trees: seq<Option<Tree>>)
    requires PagesOk(r, s, procs, trees) && |procs'| == |procs|
    requires forall i :: 0 <= i < |procs| ==>
               procs'[i].regions == procs[i].regions && procs'[i].pageTable == procs[i].pageTable
    ensures PagesOk(r, s, procs', trees)
  {
    hide Live, Mapping, Owned, RegionsOk, NoWriteExec, Kept, RamOk;
    forall i | 0 <= i < |procs|
      ensures SlotOk(r, s, procs'[i], trees[i]) && Hold(r, procs'[i], trees[i]) == Hold(r, procs[i], trees[i])
    {
      assert SlotOk(r, s, procs[i], trees[i]);
    }
  }

  lemma DispatchTable(k: Kernel, policy: Policy)
    requires TableOk(k) && Dispatch(k, policy).0
    requires policy.OnExit? ==> k.current == None || !k.procs[k.current.value].state.Running?
    ensures TableOk(Dispatch(k, policy).1)
  {
    hide Scan, Around, PidsOk, CountUsed;
    var next := NextRunnable(k.procs, k.current).value;
    NextIsOther(k.procs, k.current);
    var c := k.current;
    var demoted := policy.OnPreempt? && k.procs[c.value].state.Running?;
    var k1 := if demoted then k.(procs := k.procs[c.value := k.procs[c.value].(state := Ready)]) else k;
    if demoted {
      TableUpdate(k, c.value, k.procs[c.value].(state := Ready), k.vm);
    }
    Promote(k1, next);
  }

  lemma NextIsOther(procs: seq<Proc>, c: Option<nat>)
    requires |procs| == 16 && NextRunnable(procs, c).Some? && (c.Some? ==> c.value < 16)
    ensures Some(NextRunnable(procs, c).value) != c
  {
    hide Scan, Around;
    if c.Some? {
      var o := ScanIsFirst(procs, c.value + 1, 0, 15);
      AroundOther(c.value, o);
    }
  }

  lemma Promote(k: Kernel, next: nat)
    requires TableOk(k) && next < |k.procs| && k.procs[next].state.Ready?
    requires forall i :: 0 <= i < |k.procs| ==> !k.procs[i].state.Running?
    ensures TableOk(k.(procs := k.procs[next := k.procs[next].(state := Running)], current := Some(next)))
  {
    CountUpdate(k.procs, next, k.procs[next].(state := Running));
  }

  // ----- Runs

  /** What the running process, or the timer on its behalf, asks the kernel to do. */
  datatype Event =
    | Tick
    | Exit(code: nat)
    | SpawnCall(inp: SpawnInput)
    | Mmap(hint: nat, size: nat, prot: Prot)
    | Munmap(addr: nat, size: nat)
    | KillCall(victim: nat)
    | WaitCall(child: nat)

  predicate Executing(k: Kernel) {
    k.current.Some? && k.current.value < |k.procs| && k.procs[k.current.value].state.Running?
  }

  /** One event. Once no process runs, control has left user mode and nothing more happens. */
  function Step(r: Ram, k: Kernel, e: Event): (k': Kernel)
    requires |k.procs| == 16
    ensures |k'.procs| == 16
  {
    if !Executing(k) then k
    else
      var c := k.current.value;
      match e
      case Tick => Dispatch(k, OnPreempt).1
      case Exit(code) => Dispatch(MarkExited(k, c, code), OnExit).1
      case SpawnCall(inp) => Spawn(r, k, inp).1
      case Mmap(hint, size, prot) =>
        var (_, s', p') := MapAnonymous(r, k.vm, k.procs[c], hint, size, prot);
        k.(vm := s', procs := k.procs[c := p'])
      case Munmap(addr, size) =>
        var (_, s', p') := UnmapAnonymous(r, k.vm, k.procs[c], addr, size);
        k.(vm := s', procs := k.procs[c := p'])
      case KillCall(victim) => SysKill(k, victim).1
      case WaitCall(child) => SysWait(r, k, c, child).1
  }

  const KILL_CODE: nat := 0x80

  /** What a system call on another process answers. */
  datatype Answer = Exited(code: nat) | Killed | BadRequest | NoProcess | NotParent | StillAlive

  /** `sys_wait`: only the parent may collect a dead child. */
  function SysWait(r: Ram, k: Kernel, c: nat, child: nat): (Answer, Kernel)
    requires c < |k.procs|
  {
    if child == 0 || child >= U32_LIMIT then (BadRequest, k)
    else
      match Find(k.procs, child)
      case None => (NoProcess, k)
      case Some(slot) =>
        if k.procs[slot].parent != k.procs[c].pid then (NotParent, k)
        else if !k.procs[slot].state.Zombie? then (StillAlive, k)
        else
          match WaitZombie(r, k, child)
          case None => (BadRequest, k)
          case Some((code, k')) => (Exited(code), k')
  }

  function SysKill(k: Kernel, victim: nat): (Answer, Kernel) {
    if victim == 0 || victim >= U32_LIMIT then (BadRequest, k)
    else if Find(k.procs, victim) == None then (NoProcess, k)
    else
      match Kill(k, victim, KILL_CODE)
      case None => (BadRequest, k)
      case Some(k') => (Killed, k')
  }

  predicate EventOk(e: Event) {
    e.SpawnCall? ==> KernelMapsOk(e.inp.kernelMaps)
  }

  lemma MapAnonymousFrame(r: Ram, s: State, p: Proc, hint: nat, size: nat, prot: Prot)
    ensures SameIdentity(p, MapAnonymous(r, s, p, hint, size, prot).2)
  {
    hide FindRegion, FlagsToVmm, AlignSize, AlignUp, AllocPages, VmmRanges.MapRange, VmmRanges.UnmapRange, FreePages;
  }

  lemma UnmapAnonymousFrame(r: Ram, s: State, p: Proc, addr: nat, size: nat)
    ensures SameIdentity(p, UnmapAnonymous(r, s, p, addr, size).2)
  {
    hide FindRegion, AlignSize, VmmRanges.UnmapRange, FreePages;
  }

  /** Every event keeps the invariant. */
  lemma StepKeeps(r: Ram, k: Kernel, trees: seq<Option<Tree>>, e: Event) returns (trees': seq<Option<Tree>>)
    requires Inv(r, k, trees) && EventOk(e)
    ensures Inv(r, Step(r, k, e), trees')
  {
    hide PagesOk, PidsOk, CountUsed, Dispatch, MarkExited, Spawn, MapAnonymous, UnmapAnonymous, Kill, WaitZombie, Find, KernelMapsOk;
    trees' := trees;
    if !Executing(k) {
      return;
    }
    var c := k.current.value;
    SameLength(r, k, trees);
    match e
    case Tick => DispatchOk(r, k, trees, OnPreempt);
    case Exit(code) => ExitOk(r, k, trees, code);
    case SpawnCall(inp) => trees' := SpawnOk(r, k, trees, inp);
    case Mmap(hint, size, prot) =>
      SlotAt(r, k, trees, c);
      var ot' := MapAnonymousOk(r, k.vm, k.procs[c], trees[c], hint, size, prot);
      MapAnonymousFrame(r, k.vm, k.procs[c], hint, size, prot);
      var (_, s', p') := MapAnonymous(r, k.vm, k.procs[c], hint, size, prot);
      SlotCallOk(r, k, trees, c, s', p', ot');
      trees' := trees[c := ot'];
    case Munmap(addr, size) =>
      SlotAt(r, k, trees, c);
      UnmapAnonymousOk(r, k.vm, k.procs[c], trees[c], addr, size);
      UnmapAnonymousFrame(r, k.vm, k.procs[c], addr, size);
      var (_, s', p') := UnmapAnonymous(r, k.vm, k.procs[c], addr, size);
      SlotCallOk(r, k, trees, c, s', p', trees[c]);
      trees' := trees[c := trees[c]];
    case KillCall(victim) =>
      if SysKill(k, victim).0.Killed? {
        KillOk(r, k, trees, victim, KILL_CODE);
      }
    case WaitCall(child) =>
      if SysWait(r, k, c, child).0.Exited? {
        trees' := WaitOk(r, k, trees, child);
      }
  }

  lemma ExitOk(r: Ram, k: Kernel, trees: seq<Option<Tree>>, code: nat)
    requires Inv(r, k, trees) && Executing(k)
    ensures Inv(r, Dispatch(MarkExited(k, k.current.value, code), OnExit).1, trees)
  {
    hide PagesOk, PidsOk, CountUsed, Dispatch;
    MarkExitedOk(r, k, trees, k.current.value, code);
    DispatchOk(r, MarkExited(k, k.current.value, code), trees, OnExit);
  }

  function Run(r: Ram, k: Kernel, events: seq<Event>): Kernel
    requires |k.procs| == 16
    decreases |events|
  {
    if events == [] then k else Run(r, Step(r, k, events[0]), events[1..])
  }

  /** In every reachable state pages are used and disjoint, pids are unique, and at most the current process runs. */
  lemma {:induction false} RunKeeps(r: Ram, k: Kernel, trees: seq<Option<Tree>>, events: seq<Event>)
    returns (trees': seq<Option<Tree>>)
    requires Inv(r, k, trees) && forall i :: 0 <= i < |events| ==> EventOk(events[i])
    ensures Inv(r, Run(r, k, events), trees')
    decreases |events|
  {
    hide PagesOk, PidsOk, CountUsed, Step, OneRunning, EventOk;
    trees' := trees;
    if events != [] {
      var trees1 := StepKeeps(r, k, trees, events[0]);
      trees' := RunKeeps(r, Step(r, k, events[0]), trees1, events[1..]);
    }
  }

  // ----- Nobody who is ready waits for more than fifteen dispatches

  /** Slot `s` is ready now and after each of the events. */
  predicate StaysReady(r: Ram, k: Kernel, events: seq<Event>, s: nat)
    requires |k.procs| == 16 && s < 16
    decreases |events|
  {
    k.procs[s].state.Ready? && (events == [] || StaysReady(r, Step(r, k, events[0]), events[1..], s))
  }

  /** How many of the events ask for another process to run. */
  function Switches(events: seq<Event>): nat {
    if events == [] then 0 else (if events[0].Tick? || events[0].Exit? then 1 else 0) + Switches(events[1..])
  }

  /** While some process is ready, a switch always finds a runner, and it is closer to the ready one. */
  lemma SwitchApproaches(k: Kernel, e: Event, r: Ram, s: nat)
    requires TableOk(k) && Executing(k) && s < 16 && k.procs[s].state.Ready? && (e.Tick? || e.Exit?)
    requires Step(r, k, e).procs[s].state.Ready?
    ensures Executing(Step(r, k, e))
    ensures Distance(Step(r, k, e).current.value, s) < Distance(k.current.value, s)
  {
    hide Distance, NextRunnable, PidsOk, CountUsed;
    var c := k.current.value;
    var k1 := if e.Exit? then MarkExited(k, c, e.code) else k;
    DispatchApproaches(k1.procs, c, s);
    var next := NextRunnable(k1.procs, Some(c)).value;
    assert Step(r, k, e).current == Some(next) && Step(r, k, e).procs[next].state.Running?;
    assert next != s;
  }

  /** Other calls leave the running process running. */
  lemma CallKeepsCurrent(r: Ram, k: Kernel, trees: seq<Option<Tree>>, e: Event)
    requires Inv(r, k, trees) && Executing(k) && !e.Tick? && !e.Exit? && EventOk(e)
    ensures Executing(Step(r, k, e)) && Step(r, k, e).current == k.current
  {
    hide PagesOk, PidsOk, CountUsed, MapAnonymous, UnmapAnonymous, KernelMapsOk, FreeResources, Spawn;
    var c := k.current.value;
    match e
    case SpawnCall(inp) => SpawnKeepsCurrent(r, k, trees, inp);
    case Mmap(hint, size, prot) => MapAnonymousFrame(r, k.vm, k.procs[c], hint, size, prot);
    case Munmap(addr, size) => UnmapAnonymousFrame(r, k.vm, k.procs[c], addr, size);
    case KillCall(victim) =>
    case WaitCall(child) =>
  }

  lemma SpawnKeepsCurrent(r: Ram, k: Kernel, trees: seq<Option<Tree>>, inp: SpawnInput)
    requires Inv(r, k, trees) && Executing(k) && KernelMapsOk(inp.kernelMaps)
    ensures Executing(Spawn(r, k, inp).1) && Spawn(r, k, inp).1.current == k.current
  {
    hide PagesOk, PidsOk, CountUsed, OneRunning, ReclaimFrom, SpawnInto, KernelMapsOk, Alloc, Find, IDLE;
    if !inp.memoryKnown || !inp.resolved {
      return;
    }
    var trees1 := ReclaimOk(r, k, trees, 0);
    var k1 := ReclaimFrom(r, k, 0);
    var pid := k1.nextPid;
    var k2 := k1.(nextPid := (pid + 1) % U32_LIMIT);
    NextPidFree(r, k1, trees1, k2.nextPid);
    if Alloc(k2, pid) == None {
      return;
    }
    var (slot, k3) := Alloc(k2, pid).value;
    AllocOk(r, k2, trees1, pid);
    var ot' := SpawnIntoOk(r, k3, trees1, slot, inp);
  }

  /**
   * Bounded waiting: while a process stays ready, there have been at most as many switches as
   * there are slots between it and the running process, so at most 14. The fifteenth runs it.
   */
  lemma {:induction false} BoundedWaiting(r: Ram, k: Kernel, trees: seq<Option<Tree>>, events: seq<Event>, s: nat)
    requires Inv(r, k, trees) && Executing(k) && s < 16 && StaysReady(r, k, events, s)
    requires forall i :: 0 <= i < |events| ==> EventOk(events[i])
    ensures Switches(events) <= Distance(k.current.value, s) <= 14
    decreases |events|
  {
    hide PagesOk, PidsOk, CountUsed, Step, OneRunning, EventOk, Distance;
    AroundTable(k.current.value, s);
    if events != [] {
      var e := events[0];
      var trees1 := StepKeeps(r, k, trees, e);
      if e.Tick? || e.Exit? {
        SwitchApproaches(k, e, r, s);
      } else {
        CallKeepsCurrent(r, k, trees, e);
      }
      BoundedWaiting(r, Step(r, k, e), trees1, events[1..], s);
    }
  }
}
