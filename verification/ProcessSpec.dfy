/** Process control blocks, their user regions, and the physical pages a process holds. */
module ProcessSpec {
  import opened Basics
  import opened PhysicalPages
  import opened PageTableFormat
  import opened PageTree
  import opened VmmSpec
  import opened VmmRanges
  import opened VmmTeardown

  const MAX_PROCESSES: nat := 16
  const MAX_REGIONS: nat := 8
  const MMAP_BASE: nat := 0x1_0000_0000
  const MMAP_LIMIT: nat := 0x2_0000_0000

  datatype RunState = Unused | Ready | Running | Blocked | Zombie

  /** A half-open user range; `owned` is PROCESS_USER_REGION_OWNED_PAGES. */
  datatype Region = Region(start: nat, end: nat, paddr: nat, owned: bool)

  /** `x0` and `x1` are the registers that carry the arguments of a new process. */
  datatype Proc = Proc(pid: nat, parent: nat, state: RunState, pageTable: nat, exitCode: nat,
                       nextVaddr: nat, regions: seq<Region>, pc: nat, sp: nat, pstate: nat, x0: nat, x1: nat)

  function InitProc(pid: nat): Proc {
    Proc(pid, 0, Ready, 0, 0, MMAP_BASE, [], 0, 0, 0, 0, 0)
  }

  // ----- The region list

  /** `user_region_end`: the end of a non-empty range that does not overflow. */
  function RegionEnd(start: nat, size: nat): Option<nat> {
    if size == 0 || start + size >= U64_LIMIT then None else Some(start + size)
  }

  predicate Overlaps(g: Region, start: nat, end: nat) {
    start < g.end && end > g.start
  }

  function AddRegion(p: Proc, start: nat, size: nat): Option<Proc> {
    match RegionEnd(start, size)
    case None => None
    case Some(end) =>
      if |p.regions| >= MAX_REGIONS || exists i :: 0 <= i < |p.regions| && Overlaps(p.regions[i], start, end) then None
      else Some(p.(regions := p.regions + [Region(start, end, 0, false)]))
  }

  function AlignUp(v: nat): nat {
    (v + 4095) / 4096 * 4096
  }

  /** Takes the next free stretch of mmap space; the cursor never moves back. */
  function AllocRegion(p: Proc, size: nat): Option<(Proc, nat)> {
    if size == 0 || AlignUp(size) >= U64_LIMIT || AlignUp(p.nextVaddr) >= U64_LIMIT then None
    else
      var start, n := AlignUp(p.nextVaddr), AlignUp(size);
      match RegionEnd(start, n)
      case None => None
      case Some(end) =>
        if end > MMAP_LIMIT then None
        else
          match AddRegion(p, start, n)
          case None => None
          case Some(p1) => Some((p1.(nextVaddr := end), start))
  }

  /** Index of the first region that is exactly `[start, end)`, or the length. */
  function FindFrom(regs: seq<Region>, start: nat, end: nat, i: nat): (k: nat)
    requires i <= |regs|
    ensures i <= k <= |regs|
    ensures k < |regs| ==> regs[k].start == start && regs[k].end == end
    ensures forall j :: i <= j < k ==> regs[j].start != start || regs[j].end != end
    decreases |regs| - i
  {
    if i == |regs| || (regs[i].start == start && regs[i].end == end) then i
    else FindFrom(regs, start, end, i + 1)
  }

  function FindRegion(p: Proc, start: nat, size: nat): Option<nat> {
    match RegionEnd(start, size)
    case None => None
    case Some(end) =>
      var k := FindFrom(p.regions, start, end, 0);
      if k < |p.regions| then Some(k) else None
  }

  function SetMapping(p: Proc, start: nat, size: nat, paddr: nat, owned: bool): Option<Proc> {
    match FindRegion(p, start, size)
    case None => None
    case Some(k) => Some(p.(regions := p.regions[k := p.regions[k].(paddr := paddr, owned := owned)]))
  }

  function RemoveRegion(p: Proc, start: nat, size: nat): Option<Proc> {
    match FindRegion(p, start, size)
    case None => None
    case Some(k) => Some(p.(regions := p.regions[..k] + p.regions[k + 1..]))
  }

  // ----- Pages held by a process

  /** The allocator pages a region owns. */
  function RegionPages(r: Ram, g: Region): set<nat> {
    if g.owned && g.paddr != 0 && r.base <= g.paddr && g.start <= g.end
    then Run((g.paddr - r.base) / 4096, (g.end - g.start) / 4096) else {}
  }

  /** Owned pages are whole managed pages. */
  predicate RegionOk(r: Ram, g: Region) {
    && g.start < g.end
    && (g.owned && g.paddr != 0 ==>
          && r.base <= g.paddr && (g.paddr - r.base) % 4096 == 0 && (g.end - g.start) % 4096 == 0
          && (g.paddr - r.base) / 4096 + (g.end - g.start) / 4096 <= r.total)
  }

  ghost function Owned(r: Ram, regs: seq<Region>): set<nat> {
    set i: nat, x: nat | i < |regs| && x in RegionPages(r, regs[i]) :: x
  }

  ghost predicate RegionsOk(r: Ram, regs: seq<Region>) {
    && |regs| <= MAX_REGIONS
    && (forall i :: 0 <= i < |regs| ==> RegionOk(r, regs[i]))
    && (forall i, j :: 0 <= i < j < |regs| ==> RegionPages(r, regs[i]) !! RegionPages(r, regs[j]))
    && PlacesApart(regs)
  }

  /** No address is in two regions. */
  ghost predicate PlacesApart(regs: seq<Region>) {
    forall i, j :: 0 <= i < j < |regs| ==> regs[i].end <= regs[j].start || regs[j].end <= regs[i].start
  }

  /** No address of the range is in a region. */
  ghost predicate Clear(regs: seq<Region>, start: nat, end: nat) {
    forall i :: 0 <= i < |regs| ==> regs[i].end <= start || end <= regs[i].start
  }

  ghost function TablePages(ot: Option<Tree>): set<nat> {
    match ot
    case None => {}
    case Some(t) => Pages(t)
  }

  /** Everything a process must give back when it is released. */
  ghost function Hold(r: Ram, p: Proc, ot: Option<Tree>): set<nat> {
    Owned(r, p.regions) + TablePages(ot)
  }

  /** No page is both writable, by anybody, and executable, by anybody. What user mode writes the kernel writes too. */
  ghost predicate NoWriteExec(m: map<nat, Desc>) {
    forall v :: v in m && KernelWrites(m[v]) ==> !UserExecutes(m[v]) && !KernelExecutes(m[v])
  }

  /** One process's pages are used, pairwise disjoint, and its tables form a live tree. */
  ghost predicate SlotOk(r: Ram, s: State, p: Proc, ot: Option<Tree>) {
    && RamOk(r, s.free)
    && (p.pageTable == 0 <==> ot.None?)
    && (ot.Some? ==> && Live(r, s, ot.value, p.pageTable) && NoBlocks(s.mem, r.base, ot.value)
                     && NoWriteExec(Mapping(s.mem, p.pageTable)))
    && RegionsOk(r, p.regions)
    && Owned(r, p.regions) !! s.free
    && Owned(r, p.regions) !! TablePages(ot)
  }

  /** A step of one process: pages only move between it and the free set. */
  ghost predicate SlotStep(r: Ram, s: State, p: Proc, ot: Option<Tree>, s': State, p': Proc, ot': Option<Tree>) {
    && SlotOk(r, s', p', ot')
    && s'.free + Hold(r, p', ot') == s.free + Hold(r, p, ot)
    && Kept(s.mem, s'.mem, r.base, s.free + Hold(r, p, ot))
  }

  // ----- Release

  /** Frees `n` consecutive pages from `paddr`. */
  function FreePages(r: Ram, free: set<nat>, paddr: nat, n: nat): set<nat>
    decreases n
  {
    if n == 0 then free else FreePage(r, FreePages(r, free, paddr, n - 1), paddr + 4096 * (n - 1))
  }

  lemma FreePagesStep(r: Ram, free: set<nat>, paddr: nat, n: nat)
    ensures FreePages(r, free, paddr, 0) == free
    ensures FreePages(r, free, paddr, n + 1) == FreePage(r, FreePages(r, free, paddr, n), paddr + 4096 * n)
  {
  }

  lemma {:induction false} FreePagesOk(r: Ram, free: set<nat>, page: nat, n: nat)
    requires r.base % 4096 == 0 && page + n <= r.total
    ensures FreePages(r, free, Addr(r.base, page), n) == free + Run(page, n)
  {
    if n > 0 {
      FreePagesOk(r, free, page, n - 1);
      assert Addr(r.base, page) + 4096 * (n - 1) == Addr(r.base, page + n - 1);
      FreeMarked(r, free + Run(page, n - 1), page + n - 1);
      assert Run(page, n) == Run(page, n - 1) + {page + n - 1};
    }
  }

  /** Number of whole or partial pages in a region. */
  function RegionPageCount(g: Region): nat {
    if g.end > g.start then (g.end - g.start + 4095) / 4096 else 0
  }

  /** Frees the pages of every owned region from index `i` on. */
  function FreeRegions(r: Ram, free: set<nat>, regs: seq<Region>, i: nat): set<nat>
    requires i <= |regs|
    decreases |regs| - i
  {
    if i == |regs| then free
    else if !regs[i].owned || regs[i].paddr == 0 then FreeRegions(r, free, regs, i + 1)
    else FreeRegions(r, FreePages(r, free, regs[i].paddr, RegionPageCount(regs[i])), regs, i + 1)
  }

  lemma FreeRegionsStep(r: Ram, free: set<nat>, regs: seq<Region>, i: nat)
    requires i <= |regs|
    ensures i == |regs| ==> FreeRegions(r, free, regs, i) == free
    ensures i < |regs| && (!regs[i].owned || regs[i].paddr == 0) ==> FreeRegions(r, free, regs, i) == FreeRegions(r, free, regs, i + 1)
    ensures i < |regs| && regs[i].owned && regs[i].paddr != 0 ==>
              FreeRegions(r, free, regs, i) == FreeRegions(r, FreePages(r, free, regs[i].paddr, RegionPageCount(regs[i])), regs, i + 1)
  {
  }

  /** The free pages after a process's regions and then its page tables are released. */
  function FreeResources(r: Ram, s: State, p: Proc): set<nat> {
    var free1 := FreeRegions(r, s.free, p.regions, 0);
    if p.pageTable == 0 then free1 else FreeLevel(r, s.mem, free1, p.pageTable, 0)
  }

  lemma FreeRegionOk(r: Ram, free: set<nat>, g: Region)
    requires r.base % 4096 == 0 && RegionOk(r, g) && g.owned && g.paddr != 0
    ensures FreePages(r, free, g.paddr, RegionPageCount(g)) == free + RegionPages(r, g)
  {
    var page, n := (g.paddr - r.base) / 4096, (g.end - g.start) / 4096;
    assert Addr(r.base, page) == g.paddr;
    assert RegionPageCount(g) == n;
    FreePagesOk(r, free, page, n);
  }

  lemma {:induction false} FreeRegionsOk(r: Ram, free: set<nat>, regs: seq<Region>, i: nat)
    requires r.base % 4096 == 0 && RegionsOk(r, regs) && i <= |regs|
    ensures FreeRegions(r, free, regs, i) == free + Owned(r, regs[i..])
    decreases |regs| - i
  {
    hide FreePages, RegionPageCount, RegionPages, RegionOk;
    if i < |regs| {
      OwnedFirst(r, regs, i);
      NothingOwned(r, regs[i]);
      if regs[i].owned && regs[i].paddr != 0 {
        FreeRegionOk(r, free, regs[i]);
        FreeRegionsOk(r, free + RegionPages(r, regs[i]), regs, i + 1);
      } else {
        FreeRegionsOk(r, free, regs, i + 1);
      }
    }
  }

  lemma NothingOwned(r: Ram, g: Region)
    ensures !g.owned || g.paddr == 0 ==> RegionPages(r, g) == {}
  {
  }

  lemma OwnedFirst(r: Ram, regs: seq<Region>, i: nat)
    requires i < |regs|
    ensures Owned(r, regs[i..]) == RegionPages(r, regs[i]) + Owned(r, regs[i + 1..])
  {
    hide RegionPages;
    var a, b := regs[i..], regs[i + 1..];
    forall x | x in Owned(r, a)
      ensures x in RegionPages(r, regs[i]) || x in Owned(r, b)
    {
      var k: nat :| k < |a| && x in RegionPages(r, a[k]);
      if k > 0 {
        assert a[k] == b[k - 1];
      }
    }
    forall x | x in RegionPages(r, regs[i]) || x in Owned(r, b)
      ensures x in Owned(r, a)
    {
      if x in RegionPages(r, regs[i]) {
        assert a[0] == regs[i];
      } else {
        var k: nat :| k < |b| && x in RegionPages(r, b[k]);
        assert a[k + 1] == b[k];
      }
    }
  }

  /** Releasing a process returns exactly the pages it holds, no more and no fewer. */
  lemma FreeResourcesOk(r: Ram, s: State, p: Proc, ot: Option<Tree>)
    requires SlotOk(r, s, p, ot)
    ensures FreeResources(r, s, p) == s.free + Hold(r, p, ot)
  {
    FreeRegionsOk(r, s.free, p.regions, 0);
    assert p.regions[0..] == p.regions;
    if ot.Some? {
      FreeLevelOk(r, s, s.free + Owned(r, p.regions), ot.value, p.pageTable, ROOT);
      RootBelow(ot.value);
    }
  }
}
