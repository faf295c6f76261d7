/** That processes do start: with enough free pages nothing in the setup of a process can fail. */
module KernelStart {
  import opened Basics
  import opened PhysicalPages
  import opened PageTableFormat
  import opened PageTree
  import opened VmmSpec
  import opened VmmRanges
  import opened VmmTeardown
  import opened VmmWhen
  import opened ProcessSpec
  import opened UserVmSpec
  import opened SpawnSpec
  import opened SpawnMeaning
  import opened KernelSpec

  /** Virtual page `v` is one of `n` from address `va` on. */
  predicate InPages(va: nat, n: nat, v: nat) {
    va / 4096 <= v < va / 4096 + n
  }

  /** A range of whole pages below 2^48. */
  predicate Whole(m: KernelMap) {
    && m.va % 4096 == 0 && m.pa % 4096 == 0 && m.size % 4096 == 0 && m.size > 0
    && m.va + m.size <= 4096 * VPN_LIMIT && m.pa + m.size < U64_LIMIT
  }

  predicate Apart(a: nat, n: nat, b: nat, m: nat) {
    a / 4096 + n <= b / 4096 || b / 4096 + m <= a / 4096
  }

  /** The kernel ranges are whole pages and share none with each other, nor with the image or the stack of the slot. */
  ghost predicate Layable(maps: seq<KernelMap>, slot: nat) {
    && (forall j :: 0 <= j < |maps| ==> Whole(maps[j]))
    && (forall i, j :: 0 <= i < j < |maps| ==> Apart(maps[i].va, maps[i].size / 4096, maps[j].va, maps[j].size / 4096))
    && (forall j :: 0 <= j < |maps| ==> Apart(maps[j].va, maps[j].size / 4096, ImageVaddr(slot), 2)
                                        && Apart(maps[j].va, maps[j].size / 4096, StackVaddr(slot), 1))
  }

  /** The pages of the ranges from the `i`-th on. */
  function PagesFrom(maps: seq<KernelMap>, i: nat): nat
    requires i <= |maps|
    decreases |maps| - i
  {
    if i == |maps| then 0 else maps[i].size / 4096 + PagesFrom(maps, i + 1)
  }

  /** Everything mapped lies in one of the first `i` ranges. */
  ghost predicate Spans(m: map<nat, Desc>, maps: seq<KernelMap>, i: nat)
    requires i <= |maps|
  {
    forall v :: v in m ==> InOneOf(maps, i, v)
  }

  ghost predicate InOneOf(maps: seq<KernelMap>, i: nat, v: nat)
    requires i <= |maps|
  {
    exists j :: 0 <= j < i && InPages(maps[j].va, maps[j].size / 4096, v)
  }

  /** A range mapped adds its own pages and no others. */
  lemma BoundKeys(m: map<nat, Desc>, va: nat, pa: nat, n: nat, flags: Flags, v: nat)
    requires va % 4096 == 0 && n > 0 && va + 4096 * n <= 4096 * VPN_LIMIT
    requires v in Bind(m, Vpns(va, n), Descs(pa, flags, n), n)
    ensures v in m || InPages(va, n, v)
  {
    BindKeys(m, Vpns(va, n), Descs(pa, flags, n), n);
    FirstsElements(Vpns(va, n), n);
    if v !in m {
      var k: nat :| k < n && Vpns(va, n)[k] == v;
      VpnsAt(va, n, k);
      VpnPlain(va, k);
    }
  }

  lemma {:induction false} MapKernelSucceeds(r: Ram, s: State, t: Tree, pgd: nat, maps: seq<KernelMap>, i: nat, slot: nat)
    returns (t': Tree)
    requires Live(r, s, t, pgd) && NoBlocks(s.mem, r.base, t) && Layable(maps, slot) && i <= |maps|
    requires |s.free| >= 3 * PagesFrom(maps, i) && Spans(Mapping(s.mem, pgd), maps, i)
    ensures var (ok, s') := MapKernel(r, s, pgd, maps, i);
            && ok && Live(r, s', t', pgd) && NoBlocks(s'.mem, r.base, t') && |s'.free| >= |s.free| - 3 * PagesFrom(maps, i)
            && Spans(Mapping(s'.mem, pgd), maps, |maps|)
    decreases |maps| - i
  {
    hide Mapping, Live, NoBlocks, MapRange, Bind, Vpns, Descs;
    t' := t;
    if i < |maps| {
      var m := maps[i];
      var n := m.size / 4096;
      assert m.size == 4096 * n;
      forall v | v in Mapping(s.mem, pgd)
        ensures !InPages(m.va, n, v)
      {
        assert InOneOf(maps, i, v);
        var j :| 0 <= j < i && InPages(maps[j].va, maps[j].size / 4096, v);
        assert Apart(maps[j].va, maps[j].size / 4096, m.va, n);
      }
      var t1 := MapRangeSucceeds(r, s, t, pgd, m.va, m.pa, n, m.flags);
      var (_, s1) := MapRange(r, s, pgd, m.va, m.pa, m.size, m.flags);
      var _ := MapRangeOk(r, s, t, pgd, m.va, m.pa, m.size, m.flags);
      WholeRange(m.pa, n);
      WholeRange(m.va, n);
      forall v | v in Mapping(s1.mem, pgd)
        ensures InOneOf(maps, i + 1, v)
      {
        BoundKeys(Mapping(s.mem, pgd), m.va, m.pa, n, m.flags, v);
        if v in Mapping(s.mem, pgd) {
          assert InOneOf(maps, i, v);
        }
      }
      t' := MapKernelSucceeds(r, s1, t1, pgd, maps, i + 1, slot);
    }
  }

  /** Mapping loader pages into one of the two regions of a new process, when there is room for the tables. */
  lemma MapPhysicalSucceeds(r: Ram, s: State, p: Proc, t: Tree, va: nat, pa: nat, n: nat, prot: Prot) returns (t': Tree)
    requires Live(r, s, t, p.pageTable) && NoBlocks(s.mem, r.base, t) && n > 0 && |s.free| >= 3 * n
    requires va % 4096 == 0 && pa % 4096 == 0 && 0 < va && 0 < pa && va + 4096 * n <= 4096 * VPN_LIMIT && pa + 4096 * n < U64_LIMIT
    requires Unmapped(Mapping(s.mem, p.pageTable), va, 0, n)
    requires FlagsToVmm(prot).Some? && FindRegion(p, va, 4096 * n).Some?
    ensures var (ok, s', p') := MapPhysical(r, s, p, va, pa, 4096 * n, prot);
            && ok && Live(r, s', t', p.pageTable) && NoBlocks(s'.mem, r.base, t') && |s'.free| >= |s.free| - 3 * n
            && SetMapping(p, va, 4096 * n, pa, false) == Some(p') && p'.pageTable == p.pageTable
            && forall v :: v in Mapping(s'.mem, p.pageTable) ==> v in Mapping(s.mem, p.pageTable) || InPages(va, n, v)
  {
    hide Mapping, Live, NoBlocks, MapRange, UnmapRange, FlagsToVmm, FindRegion, Bind, Vpns, Descs, Fits, PageCount, AlignedDown,
         InPages, Unmapped, Grown, NewPages;
    var pgd, flags := p.pageTable, FlagsToVmm(prot).value;
    LiveRoot(r, s, t, pgd);
    t' := MapRangeSucceeds(r, s, t, pgd, va, pa, n, flags);
    var (_, s1) := MapRange(r, s, pgd, va, pa, 4096 * n, flags);
    var _ := MapRangeOk(r, s, t, pgd, va, pa, 4096 * n, flags);
    WholeRange(va, n);
    WholeRange(pa, n);
    forall v | v in Mapping(s1.mem, pgd)
      ensures v in Mapping(s.mem, pgd) || InPages(va, n, v)
    {
      BoundKeys(Mapping(s.mem, pgd), va, pa, n, flags, v);
    }
  }

  /** The places of image and stack. */
  lemma Places(slot: nat)
    requires slot < MAX_PROCESSES
    ensures ImageVaddr(slot) % 4096 == 0 && StackVaddr(slot) % 4096 == 0 && 0 < ImageVaddr(slot) && 0 < StackVaddr(slot)
    ensures ImageVaddr(slot) + IMAGE_SIZE <= 4096 * VPN_LIMIT && StackVaddr(slot) + STACK_SIZE <= 4096 * VPN_LIMIT
    ensures Apart(ImageVaddr(slot), 2, StackVaddr(slot), 1)
  {
  }

  /** Pages of the pool have page-aligned addresses below 2^48. */
  predicate Placed(addr: nat, n: nat) {
    0 < addr && addr % 4096 == 0 && addr + 4096 * n < U64_LIMIT
  }

  lemma CreatePageTableSucceeds(r: Ram, s: State, p: Proc, slot: nat, st: Storage, inp: SpawnInput)
    requires RamOk(r, s.free) && slot < MAX_PROCESSES && p.regions == StartRegions(slot, 0, false, 0, false)
    requires Placed(st.image, 2) && Placed(st.stack, 1) && Layable(inp.kernelMaps, slot) && inp.mmioMaps
    requires |s.free| >= 10 + 3 * PagesFrom(inp.kernelMaps, 0)
    ensures var (ok, s', p') := CreatePageTable(r, s, p, slot, st, inp);
            ok && |s'.free| >= |s.free| - 10 - 3 * PagesFrom(inp.kernelMaps, 0) && p'.regions == StartRegions(slot, st.image, false, st.stack, false)
  {
    hide Mapping, Live, NoBlocks, NewTable, MapKernel, MapPhysical, FreeLevel, ZeroTable, Layable, SetMapping, StartRegions, Spans,
         ImageVaddr, StackVaddr;
    var page := NewTableOk(r, s);
    var (pgd, s1) := NewTable(r, s);
    FreshRoot(r, s, page, s1);
    FreshNoBlocks(r, s, page, s1);
    EmptySpans(inp.kernelMaps);
    assert |s1.free| == |s.free| - 1;
    var t2 := MapKernelSucceeds(r, s1, map[ROOT := page], pgd, inp.kernelMaps, 0, slot);
    var (_, s2) := MapKernel(r, s1, pgd, inp.kernelMaps, 0);
    var p2 := p.(pageTable := pgd);
    Places(slot);
    Recorded(p2, slot, 0, false, 0, false, st.image, false);
    RegionThere(p2, slot, 0, 0);
    SpansApart(Mapping(s2.mem, pgd), inp.kernelMaps, slot);
    var code, data := Prot(true, false, true, false), Prot(true, true, false, false);
    var t3 := MapPhysicalSucceeds(r, s2, p2, t2, ImageVaddr(slot), st.image, 2, code);
    var (_, s3, p3) := MapPhysical(r, s2, p2, ImageVaddr(slot), st.image, IMAGE_SIZE, code);
    Recorded(p3, slot, st.image, false, 0, false, st.stack, false);
    RegionThere(p3, slot, st.image, 0);
    var t4 := MapPhysicalSucceeds(r, s3, p3, t3, StackVaddr(slot), st.stack, 1, data);
  }

  lemma EmptySpans(maps: seq<KernelMap>)
    ensures Spans(map[], maps, 0)
  {
  }

  lemma RegionThere(p: Proc, slot: nat, image: nat, stack: nat)
    requires slot < MAX_PROCESSES && p.regions == StartRegions(slot, image, false, stack, false)
    ensures FindRegion(p, ImageVaddr(slot), IMAGE_SIZE).Some? && FindRegion(p, StackVaddr(slot), STACK_SIZE).Some?
  {
    Recorded(p, slot, image, false, stack, false, 0, false);
    hide FindFrom;
  }

  lemma SpansApart(m: map<nat, Desc>, maps: seq<KernelMap>, slot: nat)
    requires Spans(m, maps, |maps|) && Layable(maps, slot)
    ensures Unmapped(m, ImageVaddr(slot), 0, 2) && Unmapped(m, StackVaddr(slot), 0, 1)
  {
    hide ImageVaddr, StackVaddr;
    forall v | v in m
      ensures !InPages(ImageVaddr(slot), 2, v) && !InPages(StackVaddr(slot), 1, v)
    {
      assert InOneOf(maps, |maps|, v);
    }
  }

  // ----- Whole processes

  /** Pages come whenever a run of them is free, at an address the loader can use. */
  lemma AllocSucceeds(r: Ram, s: State, n: nat)
    requires RamOk(r, s.free) && n > 0 && FirstRun(s.free, r.total, n, 0).Some?
    ensures var (addr, s') := AllocPages(r, s, n);
            Placed(addr, n) && |s'.free| == |s.free| - n && RamOk(r, s'.free)
  {
    hide Run;
    var page := AllocPagesOk(r, s, n);
    RunSize(page, n);
    RunStart(page, n);
    assert page in s.free;
  }

  lemma RunStart(page: nat, n: nat)
    requires n > 0
    ensures page in Run(page, n)
  {
  }

  lemma AllocOneSucceeds(r: Ram, s: State)
    requires RamOk(r, s.free) && |s.free| > 0
    ensures FirstRun(s.free, r.total, 1, 0).Some?
  {
    FirstRunIsLowest(s.free, r.total, 1, 0);
    var p: nat :| p in s.free;
    assert IsRun(s.free, p, 1);
  }

  lemma PrepareSucceeds(p: Proc, slot: nat, inp: SpawnInput)
    requires p.regions == [] && slot < MAX_PROCESSES && inp.entryOffset < IMAGE_SIZE
    ensures PrepareProcess(p, ImageVaddr(slot), IMAGE_SIZE, inp.entryOffset, StackVaddr(slot), STACK_SIZE, inp.pstate).Some?
  {
  }

  /** What a process needs to start in a slot: a sound image, mappable kernel ranges, and pages for them and for itself. */
  ghost predicate Startable(r: Ram, free: set<nat>, slot: nat, inp: SpawnInput) {
    && inp.loads && inp.mmioMaps && inp.entryOffset < IMAGE_SIZE && slot < MAX_PROCESSES && Layable(inp.kernelMaps, slot)
    && FirstRun(free, r.total, 2, 0).Some? && |free| >= 13 + 3 * PagesFrom(inp.kernelMaps, 0)
  }

  /** With that, loading and setup succeed. */
  lemma FillSucceeds(r: Ram, k: Kernel, slot: nat, inp: SpawnInput)
    requires slot < |k.procs| && Bare(k.procs[slot]) && RamOk(r, k.vm.free) && Startable(r, k.vm.free, slot, inp)
    ensures Fill(r, k, slot, inp).0 && |Fill(r, k, slot, inp).1.vm.free| >= |k.vm.free| - 13 - 3 * PagesFrom(inp.kernelMaps, 0)
  {
    hide AllocPages, PrepareProcess, CreatePageTable, SetMapping, Layable, RamOk, PagesFrom, ImageVaddr, StackVaddr, StartRegions,
         AbandonSpawn, FreeImage;
    AllocSucceeds(r, k.vm, 2);
    var (image, s1) := AllocPages(r, k.vm, 2);
    AllocOneSucceeds(r, s1);
    AllocSucceeds(r, s1, 1);
    var (stack, s2) := AllocPages(r, s1, 1);
    var st := Storage(image, stack);
    var p := k.procs[slot];
    PrepareSucceeds(p, slot, inp);
    PrepareMeaning(p, slot, inp);
    var p2 := PrepareProcess(p, ImageVaddr(slot), IMAGE_SIZE, inp.entryOffset, StackVaddr(slot), STACK_SIZE, inp.pstate).value;
    CreatePageTableSucceeds(r, s2, p2, slot, st, inp);
    var (_, s3, p3) := CreatePageTable(r, s2, p2, slot, st, inp);
    Recorded(p3, slot, image, false, stack, false, image, true);
    var p4 := SetMapping(p3, ImageVaddr(slot), IMAGE_SIZE, image, true).value;
    Recorded(p4, slot, image, true, stack, false, stack, true);
  }
}
