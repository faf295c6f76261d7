/** The process table as a whole: every system call that moves pages or changes who runs. */
module KernelSpec {
  import opened Basics
  import opened PhysicalPages
  import opened PageTableFormat
  import opened PageTree
  import opened VmmSpec
  import opened VmmRanges
  import opened VmmTeardown
  import opened ProcessSpec
  import opened UserVmSpec
  import opened SpawnSpec

  /** Memory, the fixed process table, the current slot, the live count and the next pid to hand out. */
  datatype Kernel = Kernel(vm: State, procs: seq<Proc>, current: Option<nat>, count: nat, nextPid: nat)

  /** A slot as `process_table_init` and `process_release` leave it. */
  const IDLE: Proc := Proc(0, 0, Unused, 0, 0, 0x1_0000_0000, [], 0, 0, 0, 0, 0)

  // ----- The table

  /** First slot from `i` on that a live process with this pid occupies, or the length. */
  function FindPid(procs: seq<Proc>, pid: nat, i: nat): (k: nat)
    requires i <= |procs|
    ensures i <= k <= |procs|
    ensures k < |procs| ==> !procs[k].state.Unused? && procs[k].pid == pid
    ensures forall j :: i <= j < k ==> procs[j].state.Unused? || procs[j].pid != pid
    decreases |procs| - i
  {
    if i == |procs| || (!procs[i].state.Unused? && procs[i].pid == pid) then i else FindPid(procs, pid, i + 1)
  }

  function Find(procs: seq<Proc>, pid: nat): Option<nat> {
    if pid == 0 || FindPid(procs, pid, 0) == |procs| then None else Some(FindPid(procs, pid, 0))
  }

  /** First unused slot from `i` on, or the length. */
  function FreeSlot(procs: seq<Proc>, i: nat): (k: nat)
    requires i <= |procs|
    ensures i <= k <= |procs|
    ensures k < |procs| ==> procs[k].state.Unused?
    ensures forall j :: i <= j < k ==> !procs[j].state.Unused?
    decreases |procs| - i
  {
    if i == |procs| || procs[i].state.Unused? then i else FreeSlot(procs, i + 1)
  }

  function Alloc(k: Kernel, pid: nat): Option<(nat, Kernel)> {
    if pid == 0 || Find(k.procs, pid).Some? || FreeSlot(k.procs, 0) == |k.procs| then None
    else
      var slot := FreeSlot(k.procs, 0);
      Some((slot, k.(procs := k.procs[slot := InitProc(pid)], count := k.count + 1)))
  }

  function Release(r: Ram, k: Kernel, slot: nat): (k': Kernel)
    requires slot < |k.procs|
    ensures |k'.procs| == |k.procs|
  {
    var p := k.procs[slot];
    if p.state.Unused? && p.pageTable == 0 && p.regions == [] then k
    else
      Kernel(k.vm.(free := FreeResources(r, k.vm, p)),
             k.procs[slot := IDLE],
             if k.current == Some(slot) then None else k.current,
             if !p.state.Unused? && k.count > 0 then k.count - 1 else k.count,
             k.nextPid)
  }

  /** A zombie nobody can wait for any more: it has no parent, or the parent is gone. */
  predicate Reclaimable(k: Kernel, slot: nat)
    requires slot < |k.procs|
  {
    var z := k.procs[slot];
    z.state.Zombie? &&
    (z.parent == 0 || Find(k.procs, z.parent) == None || k.procs[Find(k.procs, z.parent).value].state.Zombie?)
  }

  function ReclaimFrom(r: Ram, k: Kernel, i: nat): (k': Kernel)
    requires i <= |k.procs|
    ensures |k'.procs| == |k.procs|
    decreases |k.procs| - i
  {
    if i == |k.procs| then k
    else ReclaimFrom(r, if Reclaimable(k, i) then Release(r, k, i) else k, i + 1)
  }

  function MarkExited(k: Kernel, slot: nat, code: nat): Kernel
    requires slot < |k.procs|
  {
    if k.procs[slot].state.Zombie? then k
    else k.(procs := k.procs[slot := k.procs[slot].(exitCode := code, state := Zombie)])
  }

  function Kill(k: Kernel, pid: nat, code: nat): Option<Kernel> {
    match Find(k.procs, pid)
    case None => None
    case Some(slot) =>
      if k.current == Some(slot) || k.procs[slot].state.Zombie? then None else Some(MarkExited(k, slot, code))
  }

  function WaitZombie(r: Ram, k: Kernel, pid: nat): Option<(nat, Kernel)> {
    match Find(k.procs, pid)
    case None => None
    case Some(slot) =>
      if k.current == Some(slot) || !k.procs[slot].state.Zombie? then None
      else Some((k.procs[slot].exitCode, Release(r, k, slot)))
  }

  // ----- Spawning

  /** The end of a failed spawn: release the slot, then free what the loader still holds. */
  function AbandonSpawn(r: Ram, k: Kernel, slot: nat, st: Storage): Kernel
    requires slot < |k.procs|
  {
    var k1 := Release(r, k, slot);
    k1.(vm := FreeStorage(r, k1.vm, st))
  }

  function Spawn(r: Ram, k: Kernel, inp: SpawnInput): (res: (Option<nat>, Kernel))
    ensures |res.1.procs| == |k.procs|
  {
    if !inp.memoryKnown || !inp.resolved then (None, k)
    else
      var k1 := ReclaimFrom(r, k, 0);
      var pid := k1.nextPid;
      var k2 := k1.(nextPid := (pid + 1) % U32_LIMIT);
      match Alloc(k2, pid)
      case None => (None, k2)
      case Some((slot, k3)) => SpawnInto(r, k3, slot, inp)
  }

  /** The pid of the process that runs, or 0. */
  function CallerPid(k: Kernel): nat {
    match k.current
    case Some(c) => if c < |k.procs| then k.procs[c].pid else 0
    case None => 0
  }

  /** Loads the image of a slot and sets its process up, or gives up the slot and every page taken. */
  function Fill(r: Ram, k: Kernel, slot: nat, inp: SpawnInput): (res: (bool, Kernel))
    requires slot < |k.procs|
    ensures |res.1.procs| == |k.procs|
  {
    var (ok1, s1, st1) := LoadImage(r, k.vm, Storage(0, 0), inp.loads);
    if !ok1 then (false, AbandonSpawn(r, k.(vm := s1), slot, st1))
    else
      var (ok2, s2, p2, st2) := InitProcess(r, s1, k.procs[slot], st1, slot, inp);
      var k2 := k.(vm := s2, procs := k.procs[slot := p2]);
      if ok2 then (true, k2) else (false, AbandonSpawn(r, k2, slot, st2))
  }

  /** The part of a spawn that fills the allocated slot. */
  function SpawnInto(r: Ram, k: Kernel, slot: nat, inp: SpawnInput): (res: (Option<nat>, Kernel))
    requires slot < |k.procs|
    ensures |res.1.procs| == |k.procs|
  {
    var p := k.procs[slot].(parent := CallerPid(k), state := Blocked);
    var (ok, k1) := Fill(r, k.(procs := k.procs[slot := p]), slot, inp);
    if !ok then (None, k1)
    else if !inp.argvPlaced then (None, Release(r, k1, slot))
    else
      var p1 := k1.procs[slot].(sp := if inp.argvVaddr != 0 then inp.argvVaddr else k1.procs[slot].sp,
                                x0 := if inp.argvVaddr != 0 then inp.argc else 0, x1 := inp.argvVaddr, state := Ready);
      (Some(p1.pid), k1.(procs := k1.procs[slot := p1]))
  }

  // ----- The invariant of the whole table

  function CountUsed(procs: seq<Proc>): nat {
    if procs == [] then 0
    else CountUsed(procs[..|procs| - 1]) + (if procs[|procs| - 1].state.Unused? then 0 else 1)
  }

  ghost predicate PidsOk(procs: seq<Proc>) {
    && (forall i :: 0 <= i < |procs| && !procs[i].state.Unused? ==> procs[i].pid != 0)
    && (forall i, j :: 0 <= i < j < |procs| && !procs[i].state.Unused? && !procs[j].state.Unused? ==>
          procs[i].pid != procs[j].pid)
  }

  /** At most one process is running, and it is the current one. */
  ghost predicate OneRunning(k: Kernel) {
    forall i :: 0 <= i < |k.procs| && k.procs[i].state.Running? ==> k.current == Some(i)
  }

  /** Everything that any process holds. */
  ghost function Held(r: Ram, procs: seq<Proc>, trees: seq<Option<Tree>>): set<nat>
    requires |procs| == |trees|
  {
    set i: nat, x: nat | i < |procs| && x in Hold(r, procs[i], trees[i]) :: x
  }

  /**
   * All pages held by processes, as owned regions or page tables, are marked used and
   * pairwise disjoint, within and across processes, and together with the free pages
   * they are the whole pool: no page is ever lost.
   */
  ghost predicate PagesOk(r: Ram, s: State, procs: seq<Proc>, trees: seq<Option<Tree>>) {
    && |procs| == |trees|
    && s.free + Held(r, procs, trees) == r.pool
    && (forall i :: 0 <= i < |trees| ==> SlotOk(r, s, procs[i], trees[i]))
    && (forall i, j :: 0 <= i < j < |trees| ==> Hold(r, procs[i], trees[i]) !! Hold(r, procs[j], trees[j]))
  }

  ghost predicate TableOk(k: Kernel) {
    && |k.procs| == MAX_PROCESSES
    && (forall i :: 0 <= i < |k.procs| && k.procs[i].state.Unused? ==> k.procs[i] == IDLE)
    && PidsOk(k.procs)
    && k.count == CountUsed(k.procs)
    && (k.current.Some? ==> k.current.value < |k.procs| && !k.procs[k.current.value].state.Unused?)
    && OneRunning(k)
  }

  ghost predicate Inv(r: Ram, k: Kernel, trees: seq<Option<Tree>>) {
    TableOk(k) && PagesOk(r, k.vm, k.procs, trees)
  }

  // ----- Steps of one slot, seen from the others

  /** A process untouched by another process's step keeps its pages, its tree and its translation. */
  lemma OtherSlotKept(r: Ram, s: State, q: Proc, oq: Option<Tree>, p: Proc, ot: Option<Tree>, s': State, p': Proc, ot': Option<Tree>)
    requires SlotOk(r, s, q, oq) && SlotStep(r, s, p, ot, s', p', ot') && Hold(r, q, oq) !! Hold(r, p, ot)
    ensures SlotOk(r, s', q, oq) && Hold(r, q, oq) !! Hold(r, p', ot')
    ensures oq.Some? ==> Mapping(s'.mem, q.pageTable) == Mapping(s.mem, q.pageTable)
  {
    hide Owned, RegionsOk, Mapping, NoWriteExec, NoBlocks;
    var changed := s.free + Hold(r, p, ot);
    assert s'.free <= changed && Hold(r, p', ot') <= changed;
    if oq.Some? {
      LiveApart(r, s, oq.value, q.pageTable);
      DisjointTreeKept(s.mem, s'.mem, r.base, changed, oq.value, q.pageTable);
      DisjointNoBlocks(s.mem, s'.mem, r.base, changed, oq.value, q.pageTable);
      LiveWithFree(r, State(s'.mem, s.free), oq.value, q.pageTable, s'.free);
    }
  }

  /** A step of one slot keeps the page invariant of the table. */
  lemma LiftStep(r: Ram, k: Kernel, trees: seq<Option<Tree>>, slot: nat, s': State, p': Proc, ot': Option<Tree>)
    requires PagesOk(r, k.vm, k.procs, trees) && slot < |trees|
    requires SlotStep(r, k.vm, k.procs[slot], trees[slot], s', p', ot')
    ensures PagesOk(r, s', k.procs[slot := p'], trees[slot := ot'])
  {
    hide SlotOk, SlotStep, Hold;
    StepSlot(r, k.vm, k.procs[slot], trees[slot], s', p', ot');
    forall i | 0 <= i < |trees| && i != slot
      ensures SlotOk(r, s', k.procs[i], trees[i])
      ensures Hold(r, k.procs[i], trees[i]) !! Hold(r, p', ot')
    {
      assert Hold(r, k.procs[i], trees[i]) !! Hold(r, k.procs[slot], trees[slot]);
      OtherSlotKept(r, k.vm, k.procs[i], trees[i], k.procs[slot], trees[slot], s', p', ot');
    }
    StepBalance(r, k.vm, k.procs[slot], trees[slot], s', p', ot');
    HeldUpdate(r, k.procs, trees, slot, p', ot');
    PoolBalance(k.vm.free, Held(r, k.procs, trees), Hold(r, k.procs[slot], trees[slot]),
                s'.free, Held(r, k.procs[slot := p'], trees[slot := ot']), Hold(r, p', ot'));
  }

  lemma PoolBalance(free: set<nat>, held: set<nat>, hold: set<nat>, free': set<nat>, held': set<nat>, hold': set<nat>)
    requires hold <= held && hold' <= held' && held' + hold == held + hold' && free' + hold' == free + hold
    ensures free' + held' == free + held
  {
    forall x | x in free' + held'
      ensures x in free + held
    {
      assert x in free' + hold' || x in held' + hold;
    }
    forall x | x in free + held
      ensures x in free' + held'
    {
      assert x in free + hold || x in held + hold';
    }
  }

  lemma StepBalance(r: Ram, s: State, p: Proc, ot: Option<Tree>, s': State, p': Proc, ot': Option<Tree>)
    requires SlotStep(r, s, p, ot, s', p', ot')
    ensures s'.free + Hold(r, p', ot') == s.free + Hold(r, p, ot)
  {
  }

  lemma HeldUpdate(r: Ram, procs: seq<Proc>, trees: seq<Option<Tree>>, slot: nat, p': Proc, ot': Option<Tree>)
    requires |procs| == |trees| && slot < |procs|
    ensures Held(r, procs[slot := p'], trees[slot := ot']) + Hold(r, procs[slot], trees[slot])
         == Held(r, procs, trees) + Hold(r, p', ot')
    ensures Hold(r, procs[slot], trees[slot]) <= Held(r, procs, trees)
    ensures Hold(r, p', ot') <= Held(r, procs[slot := p'], trees[slot := ot'])
  {
    hide Hold;
    var a, b := procs[slot := p'], trees[slot := ot'];
    assert a[slot] == p' && b[slot] == ot';
    forall x | x in Held(r, procs, trees) + Hold(r, p', ot')
      ensures x in Held(r, a, b) + Hold(r, procs[slot], trees[slot])
    {
      if x in Hold(r, p', ot') {
        assert a[slot] == p' && b[slot] == ot';
      } else {
        var i: nat :| i < |procs| && x in Hold(r, procs[i], trees[i]);
        if i != slot {
          assert a[i] == procs[i] && b[i] == trees[i];
        }
      }
    }
    forall x | x in Held(r, a, b)
      ensures x in Held(r, procs, trees) + Hold(r, p', ot')
    {
      var i: nat :| i < |a| && x in Hold(r, a[i], b[i]);
    }
  }

  /** Releasing a process returns exactly its pages and leaves an idle slot. */
  lemma ReleaseStep(r: Ram, s: State, p: Proc, ot: Option<Tree>)
    requires SlotOk(r, s, p, ot)
    ensures SlotStep(r, s, p, ot, s.(free := FreeResources(r, s, p)), IDLE, None)
  {
    hide FreeResources, SlotOk, Hold, Kept;
    FreeResourcesOk(r, s, p, ot);
    HoldInRange(r, s, p, ot);
    IdleSlot(r, s.(free := FreeResources(r, s, p)));
    KeptSelf(s.mem, r.base, s.free + Hold(r, p, ot));
  }

  /** An idle slot holds nothing. */
  lemma IdleSlot(r: Ram, s: State)
    requires RamOk(r, s.free)
    ensures SlotOk(r, s, IDLE, None) && Hold(r, IDLE, None) == {}
  {
    assert Owned(r, []) == {};
  }

  lemma HoldInRange(r: Ram, s: State, p: Proc, ot: Option<Tree>)
    requires SlotOk(r, s, p, ot)
    ensures RamOk(r, s.free + Hold(r, p, ot))
  {
    forall x | x in Owned(r, p.regions)
      ensures x < r.total && !(r.base == 0 && x == 0)
    {
      var i: nat :| i < |p.regions| && x in RegionPages(r, p.regions[i]);
      RegionInRange(r, p.regions[i]);
    }
    if ot.Some? {
      forall x | x in Pages(ot.value)
        ensures x < r.total && !(r.base == 0 && x == 0)
      {
        var q :| q in ot.value && ot.value[q] == x;
        assert Addr(r.base, x) != 0;
      }
    }
  }

  // ----- The table after each operation

  lemma {:induction false} CountUpdate(procs: seq<Proc>, slot: nat, p: Proc)
    requires slot < |procs|
    ensures CountUsed(procs[slot := p]) + (if procs[slot].state.Unused? then 0 else 1)
         == CountUsed(procs) + (if p.state.Unused? then 0 else 1)
  {
    var n := |procs| - 1;
    var a := procs[slot := p];
    if slot == n {
      assert a[..n] == procs[..n];
    } else {
      CountUpdate(procs[..n], slot, p);
      assert a[..n] == procs[..n][slot := p];
    }
  }

  /** Changing a live process without touching its pid, unless it starts running, keeps the table. */
  lemma TableUpdate(k: Kernel, slot: nat, p: Proc, s': State)
    requires TableOk(k) && slot < |k.procs|
    requires !k.procs[slot].state.Unused? && !p.state.Unused? && p.pid == k.procs[slot].pid
    requires p.state.Running? ==> k.procs[slot].state.Running?
    ensures TableOk(k.(vm := s', procs := k.procs[slot := p]))
  {
    CountUpdate(k.procs, slot, p);
  }

  lemma TableRelease(k: Kernel, slot: nat, s': State)
    requires TableOk(k) && slot < |k.procs| && !k.procs[slot].state.Unused?
    ensures k.count > 0
    ensures TableOk(Kernel(s', k.procs[slot := IDLE], if k.current == Some(slot) then None else k.current,
                           k.count - 1, k.nextPid))
  {
    CountUpdate(k.procs, slot, IDLE);
  }

  /** Release keeps the invariant, and gives back exactly what the process held. */
  lemma ReleaseOk(r: Ram, k: Kernel, trees: seq<Option<Tree>>, slot: nat)
    requires Inv(r, k, trees) && slot < |k.procs| && !k.procs[slot].state.Unused?
    ensures var k' := Release(r, k, slot);
            && Inv(r, k', trees[slot := None])
            && k'.vm == k.vm.(free := k.vm.free + Hold(r, k.procs[slot], trees[slot]))
  {
    hide SlotOk, SlotStep, Hold, FreeResources, PidsOk, CountUsed, OneRunning;
    var p, ot := k.procs[slot], trees[slot];
    ReleaseStep(r, k.vm, p, ot);
    FreeResourcesOk(r, k.vm, p, ot);
    TableRelease(k, slot, k.vm.(free := FreeResources(r, k.vm, p)));
    LiftStep(r, k, trees, slot, k.vm.(free := FreeResources(r, k.vm, p)), IDLE, None);
  }

  lemma {:induction false} ReclaimOk(r: Ram, k: Kernel, trees: seq<Option<Tree>>, i: nat) returns (trees': seq<Option<Tree>>)
    requires Inv(r, k, trees) && i <= |k.procs|
    ensures Inv(r, ReclaimFrom(r, k, i), trees') && ReclaimFrom(r, k, i).nextPid == k.nextPid
    ensures k.current.Some? && !k.procs[k.current.value].state.Zombie? ==>
              ReclaimFrom(r, k, i).current == k.current
              && ReclaimFrom(r, k, i).procs[k.current.value] == k.procs[k.current.value]
    ensures forall j :: 0 <= j < |k.procs| && !k.procs[j].state.Zombie? ==> ReclaimFrom(r, k, i).procs[j] == k.procs[j]
    decreases |k.procs| - i
  {
    hide PagesOk, Hold, FreeResources, PidsOk, CountUsed, OneRunning;
    trees' := trees;
    SameLength(r, k, trees);
    if i < |k.procs| {
      if Reclaimable(k, i) {
        ReleaseOk(r, k, trees, i);
        trees' := ReclaimOk(r, Release(r, k, i), trees[i := None], i + 1);
      } else {
        trees' := ReclaimOk(r, k, trees, i + 1);
      }
    }
  }

  lemma MarkExitedOk(r: Ram, k: Kernel, trees: seq<Option<Tree>>, slot: nat, code: nat)
    requires Inv(r, k, trees) && slot < |k.procs| && !k.procs[slot].state.Unused?
    ensures Inv(r, MarkExited(k, slot, code), trees)
  {
    hide SlotStep, SlotOk, Hold, PidsOk, CountUsed, OneRunning;
    var p := k.procs[slot];
    var p' := p.(exitCode := code, state := Zombie);
    if !p.state.Zombie? {
      SameRegionsStep(r, k.vm, p, trees[slot], p');
      LiftStep(r, k, trees, slot, k.vm, p', trees[slot]);
      assert trees[slot := trees[slot]] == trees;
      TableUpdate(k, slot, p', k.vm);
    }
  }

  lemma KillOk(r: Ram, k: Kernel, trees: seq<Option<Tree>>, pid: nat, code: nat)
    requires Inv(r, k, trees) && Kill(k, pid, code).Some?
    ensures Inv(r, Kill(k, pid, code).value, trees)
  {
    MarkExitedOk(r, k, trees, Find(k.procs, pid).value, code);
  }

  lemma WaitOk(r: Ram, k: Kernel, trees: seq<Option<Tree>>, pid: nat) returns (trees': seq<Option<Tree>>)
    requires Inv(r, k, trees) && WaitZombie(r, k, pid).Some?
    ensures Inv(r, WaitZombie(r, k, pid).value.1, trees')
  {
    hide PagesOk, Hold, FreeResources, PidsOk, CountUsed, OneRunning;
    var slot := Find(k.procs, pid).value;
    SameLength(r, k, trees);
    ReleaseOk(r, k, trees, slot);
    trees' := trees[slot := None];
  }

  /** A memory call of one live process keeps the invariant. */
  lemma SlotCallOk(r: Ram, k: Kernel, trees: seq<Option<Tree>>, slot: nat, s': State, p': Proc, ot': Option<Tree>)
    requires Inv(r, k, trees) && slot < |k.procs| && !k.procs[slot].state.Unused?
    requires SlotStep(r, k.vm, k.procs[slot], trees[slot], s', p', ot')
    requires p'.state == k.procs[slot].state && p'.pid == k.procs[slot].pid
    ensures Inv(r, k.(vm := s', procs := k.procs[slot := p']), trees[slot := ot'])
  {
    hide SlotStep, SlotOk, Hold, PidsOk, CountUsed, OneRunning, PagesOk;
    assert |trees| == |k.procs| by { SameLength(r, k, trees); }
    LiftStep(r, k, trees, slot, s', p', ot');
    TableUpdate(k, slot, p', s');
  }

  lemma SameLength(r: Ram, k: Kernel, trees: seq<Option<Tree>>)
    requires PagesOk(r, k.vm, k.procs, trees)
    ensures |trees| == |k.procs|
  {
  }

  // ----- Spawning keeps the invariant, and a failed spawn leaves nothing behind

  lemma IdleHolds(r: Ram, s: State, p: Proc)
    requires p.regions == []
    ensures Owned(r, p.regions) == {} && Hold(r, p, None) == {} && OwnsNothing(p)
  {
  }

  /** Loader pages all taken over: what remains is a plain step of the new process. */
  lemma TransitDone(r: Ram, s0: State, p0: Proc, s: State, p: Proc, ot: Option<Tree>)
    requires Transit(r, s0, s, p, ot, Storage(0, 0)) && Hold(r, p0, None) == {}
    ensures SlotStep(r, s0, p0, None, s, p, ot)
  {
    hide SlotOk, Hold;
    assert StoragePages(r, Storage(0, 0)) == {};
  }

  /** Undoing a spawn leaves the slot idle and the free set as it was. */
  lemma TransitUndone(r: Ram, s0: State, p0: Proc, s: State, p: Proc, ot: Option<Tree>, st: Storage)
    requires SlotOk(r, s0, p0, None) && Hold(r, p0, None) == {} && Transit(r, s0, s, p, ot, st)
    ensures var s' := FreeStorage(r, s.(free := FreeResources(r, s, p)), st);
            s'.free == s0.free && SlotStep(r, s0, p0, None, s', IDLE, None)
  {
    hide SlotOk, Hold, FreeResources, StoragePages, FreeStorage, StorageOk, Kept;
    UndoSpawn(r, s0, s, p, ot, st);
    SlotRam(r, s0, p0);
    StorageMemory(r, s.(free := FreeResources(r, s, p)), st);
    IdleSlot(r, FreeStorage(r, s.(free := FreeResources(r, s, p)), st));
    assert s0.free + {} == s0.free;
  }

  lemma SlotRam(r: Ram, s: State, p: Proc)
    requires SlotOk(r, s, p, None)
    ensures RamOk(r, s.free)
  {
    hide RegionsOk, Owned;
  }

  lemma StorageMemory(r: Ram, s: State, st: Storage)
    ensures FreeStorage(r, s, st).mem == s.mem
  {
  }

  /** A process that has nothing yet. */
  predicate Bare(p: Proc) {
    p.pageTable == 0 && p.regions == [] && !p.state.Unused?
  }

  /** Filling a slot is a step of that slot alone: it sets the process up, or leaves the slot idle and every page back. */
  lemma FillOk(r: Ram, k: Kernel, slot: nat, inp: SpawnInput) returns (ot': Option<Tree>)
    requires slot < |k.procs| && k.current != Some(slot) && k.count > 0 && Bare(k.procs[slot])
    requires SlotOk(r, k.vm, k.procs[slot], None) && KernelMapsOk(inp.kernelMaps)
    ensures var (ok, k') := Fill(r, k, slot, inp);
            && SlotStep(r, k.vm, k.procs[slot], None, k'.vm, k'.procs[slot], ot')
            && k'.procs == k.procs[slot := k'.procs[slot]] && k'.current == k.current && k'.nextPid == k.nextPid
            && (if ok then k'.count == k.count && SameIdentity(k.procs[slot], k'.procs[slot])
                           && k'.procs[slot].nextVaddr == k.procs[slot].nextVaddr
                else k'.procs[slot] == IDLE && ot' == None && k'.vm.free == k.vm.free && k'.count == k.count - 1)
  {
    hide LoadImage, InitProcess, FreeResources, FreeStorage, Transit, SlotStep, SlotOk, Hold, OwnsNothing, Owned, KernelMapsOk;
    var p := k.procs[slot];
    IdleHolds(r, k.vm, p);
    LoadImageOk(r, k.vm, p, inp.loads);
    var (ok1, s1, st1) := LoadImage(r, k.vm, Storage(0, 0), inp.loads);
    ot' := None;
    if !ok1 {
      TransitUndone(r, k.vm, p, s1, p, None, st1);
      return;
    }
    var ot2 := InitProcessOk(r, k.vm, s1, p, st1, slot, inp);
    var (ok2, s2, p2, st2) := InitProcess(r, s1, p, st1, slot, inp);
    assert k.procs[slot := p2][slot := IDLE] == k.procs[slot := IDLE];
    InitProcessFrame(r, s1, p, st1, slot, inp);
    if ok2 {
      ot' := ot2;
      TransitDone(r, k.vm, p, s2, p2, ot2);
    } else {
      TransitUndone(r, k.vm, p, s2, p2, ot2, st2);
    }
  }

  /** Filling a freshly allocated slot: a ready process, or the slot idle again and every page back. */
  lemma SpawnIntoOk(r: Ram, k: Kernel, trees: seq<Option<Tree>>, slot: nat, inp: SpawnInput)
    returns (ot': Option<Tree>)
    requires PagesOk(r, k.vm, k.procs, trees) && slot < |k.procs| && k.current != Some(slot)
    requires trees[slot] == None && k.procs[slot] == InitProc(k.procs[slot].pid) && k.count > 0
    requires KernelMapsOk(inp.kernelMaps)
    ensures var (res, k') := SpawnInto(r, k, slot, inp);
            && SlotStep(r, k.vm, k.procs[slot], None, k'.vm, k'.procs[slot], ot')
            && PagesOk(r, k'.vm, k'.procs, trees[slot := ot']) && |k'.procs| == |k.procs|
            && k'.current == k.current && k'.nextPid == k.nextPid
            && (res == None ==>
                  k'.procs == k.procs[slot := IDLE] && k'.vm.free == k.vm.free && k'.count == k.count - 1)
            && (res.Some? ==>
                  && k'.count == k.count && res.value == k.procs[slot].pid
                  && k'.procs == k.procs[slot := k'.procs[slot]]
                  && k'.procs[slot].state.Ready? && k'.procs[slot].pid == res.value)
  {
    hide Fill, FreeResources, SlotStep, SlotOk, Hold, PagesOk, KernelMapsOk, IDLE, CallerPid;
    SameLength(r, k, trees);
    var p0 := k.procs[slot];
    var p := p0.(parent := CallerPid(k), state := Blocked);
    var k0 := k.(procs := k.procs[slot := p]);
    SlotAt(r, k, trees, slot);
    SameRegionsStep(r, k.vm, p0, None, p);
    StepSlot(r, k.vm, p0, None, k.vm, p, None);
    ot' := FillOk(r, k0, slot, inp);
    var (ok, k1) := Fill(r, k0, slot, inp);
    var p1 := k1.procs[slot];
    assert k1.procs == k.procs[slot := p1];
    StepTrans(r, k.vm, p0, None, k.vm, p, None, k1.vm, p1, ot');
    if ok {
      StepSlot(r, k.vm, p0, None, k1.vm, p1, ot');
      if inp.argvPlaced {
        var p2 := p1.(sp := if inp.argvVaddr != 0 then inp.argvVaddr else p1.sp,
                      x0 := if inp.argvVaddr != 0 then inp.argc else 0, x1 := inp.argvVaddr, state := Ready);
        SameRegionsStep(r, k1.vm, p1, ot', p2);
        StepTrans(r, k.vm, p0, None, k1.vm, p1, ot', k1.vm, p2, ot');
        assert k1.procs[slot := p2] == k.procs[slot := p2];
      } else {
        var s2 := k1.vm.(free := FreeResources(r, k1.vm, p1));
        ReleaseStep(r, k1.vm, p1, ot');
        StepTrans(r, k.vm, p0, None, k1.vm, p1, ot', s2, IDLE, None);
        assert k1.procs[slot := IDLE] == k.procs[slot := IDLE];
        BareReturned(r, k.vm, p0, s2);
        ot' := None;
      }
    }
    var k' := SpawnInto(r, k, slot, inp).1;
    LiftStep(r, k, trees, slot, k'.vm, k'.procs[slot], ot');
  }

  /** From a process with nothing to an idle slot: the free pages are what they were. */
  lemma BareReturned(r: Ram, s: State, p: Proc, s': State)
    requires p.regions == [] && SlotStep(r, s, p, None, s', IDLE, None)
    ensures s'.free == s.free
  {
    hide SlotOk;
    IdleHolds(r, s, p);
    IdleHolds(r, s', IDLE);
  }

  lemma SlotAt(r: Ram, k: Kernel, trees: seq<Option<Tree>>, slot: nat)
    requires PagesOk(r, k.vm, k.procs, trees) && slot < |trees|
    ensures SlotOk(r, k.vm, k.procs[slot], trees[slot])
  {
  }

  predicate SameIdentity(p: Proc, p': Proc) {
    p'.pid == p.pid && p'.parent == p.parent && p'.state == p.state
  }

  lemma MapPhysicalFrame(r: Ram, s: State, p: Proc, va: nat, pa: nat, size: nat, prot: Prot)
    ensures SameIdentity(p, MapPhysical(r, s, p, va, pa, size, prot).2)
    ensures MapPhysical(r, s, p, va, pa, size, prot).2.nextVaddr == p.nextVaddr
  {
    hide MapRange, UnmapRange, FindRegion, FlagsToVmm;
  }

  lemma CreatePageTableFrame(r: Ram, s: State, p: Proc, slot: nat, st: Storage, inp: SpawnInput)
    ensures SameIdentity(p, CreatePageTable(r, s, p, slot, st, inp).2)
    ensures CreatePageTable(r, s, p, slot, st, inp).2.nextVaddr == p.nextVaddr
  {
    hide MapKernel, FreeLevel, NewTable, MapPhysical;
    var (pgd, s1) := NewTable(r, s);
    var (_, s2) := MapKernel(r, s1, pgd, inp.kernelMaps, 0);
    var p2 := p.(pageTable := pgd);
    MapPhysicalFrame(r, s2, p2, ImageVaddr(slot), st.image, IMAGE_SIZE, Prot(true, false, true, false));
    var (_, s3, p3) := MapPhysical(r, s2, p2, ImageVaddr(slot), st.image, IMAGE_SIZE, Prot(true, false, true, false));
    MapPhysicalFrame(r, s3, p3, StackVaddr(slot), st.stack, STACK_SIZE, Prot(true, true, false, false));
  }

  /** Setting a process up does not change who it is. */
  lemma InitProcessFrame(r: Ram, s: State, p: Proc, st: Storage, slot: nat, inp: SpawnInput)
    ensures SameIdentity(p, InitProcess(r, s, p, st, slot, inp).2)
    ensures InitProcess(r, s, p, st, slot, inp).2.nextVaddr == p.nextVaddr
  {
    hide AllocPages, CreatePageTable, FindRegion;
    var (stack, s1) := AllocPages(r, s, 1);
    var op := PrepareProcess(p, ImageVaddr(slot), IMAGE_SIZE, inp.entryOffset, StackVaddr(slot), STACK_SIZE, inp.pstate);
    if op.Some? {
      CreatePageTableFrame(r, s1, op.value, slot, st.(stack := stack), inp);
    }
  }

  /** The table after `process_table_init`, with the pool free: the invariant holds at boot. */
  lemma BootOk(r: Ram, mem: Memory, nextPid: nat)
    requires RamOk(r, r.pool)
    ensures Inv(r, Kernel(State(mem, r.pool), seq(16, _ => IDLE), None, 0, nextPid), seq(16, _ => None))
  {
    var procs: seq<Proc> := seq(16, _ => IDLE);
    var trees: seq<Option<Tree>> := seq(16, _ => None);
    assert Owned(r, []) == {};
    forall i | 0 <= i < 16
      ensures SlotOk(r, State(mem, r.pool), procs[i], trees[i]) && Hold(r, procs[i], trees[i]) == {}
    {
    }
    assert Held(r, procs, trees) == {};
    IdleCount(procs);
  }

  lemma {:induction false} IdleCount(procs: seq<Proc>)
    requires forall i :: 0 <= i < |procs| ==> procs[i].state.Unused?
    ensures CountUsed(procs) == 0
  {
    if procs != [] {
      IdleCount(procs[..|procs| - 1]);
    }
  }
}
