/** What reclaiming and dispatching come to, apart from how they go about it. */
module KernelMeaning {
  import opened Basics
  import opened PhysicalPages
  import opened PageTree
  import opened VmmSpec
  import opened ProcessSpec
  import opened UserVmSpec
  import opened KernelSpec
  import opened KernelRuns

  // ----- Reclaiming zombies

  /** A process with that pid is alive: it has a slot, and it has not exited. */
  ghost predicate Lives(procs: seq<Proc>, pid: nat) {
    exists i: nat :: i < |procs| && procs[i].pid == pid && !procs[i].state.Unused? && !procs[i].state.Zombie?
  }

  /** Dead, and without a living parent who could still wait for it. */
  ghost predicate Abandoned(procs: seq<Proc>, j: nat)
    requires j < |procs|
  {
    procs[j].state.Zombie? && (procs[j].parent == 0 || !Lives(procs, procs[j].parent))
  }

  /** The test the scan makes, on a table whose pids are unique. */
  lemma ReclaimableIs(k: Kernel, j: nat)
    requires PidsOk(k.procs) && j < |k.procs|
    ensures Reclaimable(k, j) <==> Abandoned(k.procs, j)
  {
    var q := k.procs[j].parent;
    if q != 0 {
      var f := FindPid(k.procs, q, 0);
      if Lives(k.procs, q) {
        var i: nat :| i < |k.procs| && k.procs[i].pid == q && !k.procs[i].state.Unused? && !k.procs[i].state.Zombie?;
        assert f == i;
      }
    }
  }

  /** Releasing one zombie leaves the verdict on every other slot as it was. */
  lemma VerdictKept(r: Ram, k: Kernel, i: nat, j: nat)
    requires PidsOk(k.procs) && i < |k.procs| && j < |k.procs| && i != j && k.procs[i].state.Zombie?
    ensures Abandoned(Release(r, k, i).procs, j) <==> Abandoned(k.procs, j)
    ensures Release(r, k, i).procs == k.procs[i := IDLE]
  {
    hide FreeResources;
    var procs, q := k.procs, k.procs[j].parent;
    var procs' := procs[i := IDLE];
    if Lives(procs, q) {
      var n: nat :| n < |procs| && procs[n].pid == q && !procs[n].state.Unused? && !procs[n].state.Zombie?;
      assert procs'[n] == procs[n];
    }
    if Lives(procs', q) {
      var n: nat :| n < |procs'| && procs'[n].pid == q && !procs'[n].state.Unused? && !procs'[n].state.Zombie?;
      assert procs'[n] == procs[n];
    }
  }

  /** What the reclaimed processes held. */
  ghost function Reclaimed(r: Ram, k: Kernel, trees: seq<Option<Tree>>, i: nat): set<nat>
    requires i <= |k.procs| == |trees|
    decreases |k.procs| - i
  {
    if i == |k.procs| then {}
    else (if Abandoned(k.procs, i) then Hold(r, k.procs[i], trees[i]) else {}) + Reclaimed(r, k, trees, i + 1)
  }

  /**
   * Reclaiming goes through the table once and releases exactly the zombies without a living parent at the outset,
   * whatever their order, and returns exactly what they held. Everybody else keeps slot and pages.
   */
  lemma {:induction false} ReclaimMeans(r: Ram, k: Kernel, trees: seq<Option<Tree>>, i: nat)
    requires Inv(r, k, trees) && i <= |k.procs| == |trees|
    ensures var k' := ReclaimFrom(r, k, i);
            && k'.vm == k.vm.(free := k.vm.free + Reclaimed(r, k, trees, i))
            && forall j :: 0 <= j < |k.procs| ==>
                 k'.procs[j] == if i <= j && Abandoned(k.procs, j) then IDLE else k.procs[j]
    decreases |k.procs| - i
  {
    hide PagesOk, PidsOk, CountUsed, OneRunning, Find, IDLE, Hold, Release, Reclaimable, Abandoned;
    if i < |k.procs| {
      ReclaimableIs(k, i);
      if Reclaimable(k, i) {
        var k1 := Release(r, k, i);
        AbandonedIs(k.procs, i);
        ReleaseOk(r, k, trees, i);
        forall j: nat | j < |k.procs| && j != i
          ensures (Abandoned(k1.procs, j) <==> Abandoned(k.procs, j)) && k1.procs == k.procs[i := IDLE]
        {
          VerdictKept(r, k, i, j);
        }
        VerdictKept(r, k, i, if i == 0 then 1 else 0);
        ReclaimMeans(r, k1, trees[i := None], i + 1);
        SameReclaimed(r, k, k1, trees, trees[i := None], i + 1);
      } else {
        ReclaimMeans(r, k, trees, i + 1);
      }
    }
  }

  lemma AbandonedIs(procs: seq<Proc>, i: nat)
    requires i < |procs| && Abandoned(procs, i)
    ensures procs[i].state.Zombie?
  {
  }

  lemma {:induction false} SameReclaimed(r: Ram, k: Kernel, k1: Kernel, trees: seq<Option<Tree>>, trees1: seq<Option<Tree>>, i: nat)
    requires i <= |k.procs| == |trees| == |k1.procs| == |trees1|
    requires forall j :: i <= j < |k.procs| ==>
               (Abandoned(k1.procs, j) <==> Abandoned(k.procs, j)) && k1.procs[j] == k.procs[j] && trees1[j] == trees[j]
    ensures Reclaimed(r, k1, trees1, i) == Reclaimed(r, k, trees, i)
    decreases |k.procs| - i
  {
    hide Abandoned, Hold;
    if i < |k.procs| {
      SameReclaimed(r, k, k1, trees, trees1, i + 1);
    }
  }

  // ----- Dispatching

  /** Another process than the current one is ready. */
  predicate OtherReady(k: Kernel, i: nat) {
    i < |k.procs| && k.current != Some(i) && k.procs[i].state.Ready?
  }

  /** A dispatch succeeds exactly when another process is ready and, on preemption, there is a process to preempt. */
  lemma DispatchWhen(k: Kernel, policy: Policy)
    requires TableOk(k)
    ensures Dispatch(k, policy).0 <==> (policy.OnExit? || k.current.Some?) && exists i: nat :: OtherReady(k, i)
    ensures !Dispatch(k, policy).0 ==> Dispatch(k, policy).1 == k
    ensures Dispatch(k, policy).0 ==>
              var k' := Dispatch(k, policy).1;
              && k'.current.Some? && OtherReady(k, k'.current.value)
              && forall i :: 0 <= i < |k.procs| ==>
                   k'.procs[i] == k.procs[i].(state := if k'.current == Some(i) then Running
                                                       else if policy.OnPreempt? && k.procs[i].state.Running? then Ready
                                                       else k.procs[i].state)
  {
    hide Scan, Around, PidsOk, CountUsed;
    var n := NextRunnable(k.procs, k.current);
    if n.Some? {
      NextIsOther(k.procs, k.current);
      assert OtherReady(k, n.value);
    } else {
      forall i: nat
        ensures !OtherReady(k, i)
      {
        if OtherReady(k, i) {
          NobodyReady(k.procs, k.current, i);
        }
      }
    }
  }

  lemma NobodyReady(procs: seq<Proc>, c: Option<nat>, i: nat)
    requires |procs| == 16 && i < 16 && (c.Some? ==> c.value < 16) && c != Some(i) && NextRunnable(procs, c).None?
    ensures !procs[i].state.Ready?
  {
    hide Scan, Around, Distance;
    match c
    case Some(s) =>
      var o := ScanIsFirst(procs, s + 1, 0, 15);
      AroundTable(s, i);
    case None =>
      var o := ScanIsFirst(procs, 0, 0, 16);
      AroundZero(i);
  }

  lemma AroundZero(i: nat)
    requires i < 16
    ensures Around(0, i) == i
  {
  }
}
