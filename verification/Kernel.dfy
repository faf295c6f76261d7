/** The process table, user memory calls and process setup as the kernel runs them. */
module KernelTable {
  import opened Basics
  import opened PhysicalPages
  import opened PageTableFormat
  import VmmSpec
  import VmmRanges
  import VmmTeardown
  import opened ProcessSpec
  import opened UserVmSpec
  import opened SpawnSpec
  import KS = KernelSpec
  import Runs = KernelRuns
  import Boots = KernelBoot
  import opened VirtualMemory

  class Kernel {
    const vmm: Vmm
    const pmm: Pmm
    const procs: array<Proc>
    var current: Option<nat>
    var count: nat
    var nextPid: nat

    /** `process_table_init` on a fresh table. */
    constructor (vmm: Vmm)
      requires vmm.Valid() && vmm.pmm.base + vmm.pmm.total * 4096 <= ADDRESS_LIMIT
      ensures Valid() && this.vmm == vmm && this.pmm == vmm.pmm && fresh(procs)
      ensures Boots.Machine(Abs(), None) == Boots.PowerOn(VmmSpec.Ram(pmm.base, pmm.total, pmm.free), vmm.mem, 0)
      ensures vmm.mem == old(vmm.mem) && pmm.free == old(vmm.pmm.free)
      ensures VmmSpec.RamOk(Ram(), pmm.free) && vmm.pool == pmm.free ==> KS.Inv(Ram(), Abs(), seq(16, _ => None))
    {
      this.vmm := vmm;
      this.pmm := vmm.pmm;
      procs := new Proc[16](_ => KS.IDLE);
      current := None;
      count := 0;
      nextPid := 0;
      new;
      assert procs[..] == seq(16, _ => KS.IDLE);
      if VmmSpec.RamOk(Ram(), pmm.free) && vmm.pool == pmm.free {
        KS.BootOk(Ram(), vmm.mem, 0);
      }
    }

    ghost predicate Valid()
      reads this, procs, vmm, pmm, pmm.bitmap
    {
      && vmm.pmm == pmm && procs.Length == 16 && vmm.Valid()
      && pmm.base + pmm.total * 4096 <= ADDRESS_LIMIT
      && (current.Some? ==> current.value < 16)
      && (forall i :: 0 <= i < 16 ==> procs[i].nextVaddr < U64_LIMIT)
    }

    ghost function Ram(): VmmSpec.Ram
      reads vmm, pmm
    {
      VmmSpec.Ram(pmm.base, pmm.total, vmm.pool)
    }

    ghost function State(): VmmSpec.State
      reads vmm, pmm
    {
      VmmSpec.State(vmm.mem, pmm.free)
    }

    ghost function Abs(): KS.Kernel
      reads this, procs, vmm, pmm
    {
      KS.Kernel(State(), procs[..], current, count, nextPid)
    }

    // ----- The region list of one process

    method FindRegion(slot: nat, start: nat, size: nat) returns (k: Option<nat>)
      requires Valid() && slot < 16
      ensures k == ProcessSpec.FindRegion(procs[slot], start, size)
    {
      if size == 0 || start > U64_LIMIT - 1 - size {
        return None;
      }
      var end, regs := start + size, procs[slot].regions;
      for i := 0 to |regs|
        invariant FindFrom(regs, start, end, 0) == FindFrom(regs, start, end, i)
      {
        if regs[i].start == start && regs[i].end == end {
          return Some(i);
        }
      }
      return None;
    }

    method AddRegion(slot: nat, start: nat, size: nat) returns (ok: bool)
      requires Valid() && slot < 16
      modifies procs
      ensures Valid()
      ensures match ProcessSpec.AddRegion(old(procs[slot]), start, size)
              case None => !ok && procs[..] == old(procs[..])
              case Some(p) => ok && procs[..] == old(procs[..])[slot := p]
    {
      var p := procs[slot];
      if |p.regions| >= MAX_REGIONS || size == 0 || start > U64_LIMIT - 1 - size {
        return false;
      }
      var end := start + size;
      for i := 0 to |p.regions|
        invariant forall j :: 0 <= j < i ==> !Overlaps(p.regions[j], start, end)
        invariant procs[..] == old(procs[..])
      {
        if start < p.regions[i].end && end > p.regions[i].start {
          assert Overlaps(p.regions[i], start, end);
          return false;
        }
      }
      procs[slot] := p.(regions := p.regions + [Region(start, end, 0, false)]);
      return true;
    }

    method AllocRegion(slot: nat, size: nat) returns (ok: bool, addr: nat)
      requires Valid() && slot < 16
      modifies procs
      ensures Valid()
      ensures match ProcessSpec.AllocRegion(old(procs[slot]), size)
              case None => !ok && procs[..] == old(procs[..])
              case Some((p, a)) => ok && addr == a && procs[..] == old(procs[..])[slot := p]
    {
      addr := 0;
      if size == 0 {
        return false, 0;
      }
      var aligned := AlignUp(size);
      if aligned >= U64_LIMIT {
        return false, 0;
      }
      var start := AlignUp(procs[slot].nextVaddr);
      if start >= U64_LIMIT || aligned == 0 || start > U64_LIMIT - 1 - aligned || start + aligned > MMAP_LIMIT {
        return false, 0;
      }
      ok := AddRegion(slot, start, aligned);
      if !ok {
        return;
      }
      procs[slot] := procs[slot].(nextVaddr := start + aligned);
      return true, start;
    }

    method SetMapping(slot: nat, start: nat, size: nat, paddr: nat, owned: bool) returns (ok: bool)
      requires Valid() && slot < 16
      modifies procs
      ensures Valid()
      ensures match ProcessSpec.SetMapping(old(procs[slot]), start, size, paddr, owned)
              case None => !ok && procs[..] == old(procs[..])
              case Some(p) => ok && procs[..] == old(procs[..])[slot := p]
    {
      var k := FindRegion(slot, start, size);
      if k == None {
        return false;
      }
      var p := procs[slot];
      procs[slot] := p.(regions := p.regions[k.value := p.regions[k.value].(paddr := paddr, owned := owned)]);
      return true;
    }

    /** Removes a region by shifting the later ones down. */
    method RemoveRegion(slot: nat, start: nat, size: nat) returns (ok: bool)
      requires Valid() && slot < 16
      modifies procs
      ensures Valid()
      ensures match ProcessSpec.RemoveRegion(old(procs[slot]), start, size)
              case None => !ok && procs[..] == old(procs[..])
              case Some(p) => ok && procs[..] == old(procs[..])[slot := p]
    {
      var k := FindRegion(slot, start, size);
      if k == None {
        return false;
      }
      var regs := CloseGap(procs[slot].regions, k.value);
      procs[slot] := procs[slot].(regions := regs);
      return true;
    }

    /** Moves the regions after `k` one place down. */
    method CloseGap(was: seq<Region>, k: nat) returns (regs: seq<Region>)
      requires k < |was|
      ensures regs == was[..k] + was[k + 1..]
    {
      regs := was;
      var j := k + 1;
      while j < |regs|
        invariant k < j <= |regs| == |was|
        invariant forall x :: 0 <= x < |regs| ==> regs[x] == was[if k <= x < j - 1 then x + 1 else x]
      {
        regs := regs[j - 1 := regs[j]];
        j := j + 1;
      }
      Shifted(was, regs, k);
      regs := regs[..|regs| - 1];
    }

    lemma Shifted(was: seq<Region>, now: seq<Region>, k: nat)
      requires k < |was| == |now| && forall x :: 0 <= x < |now| ==> now[x] == was[if k <= x < |was| - 1 then x + 1 else x]
      ensures now[..|now| - 1] == was[..k] + was[k + 1..]
    {
    }

    lemma PagesLeft(size: nat, k: nat)
      ensures k < (size + 4095) / 4096 <==> 4096 * k < size
    {
    }

    /** `pmm_free_page`, seen through the specification. */
    method FreeOne(paddr: nat)
      requires Valid()
      modifies pmm`freeCount, pmm`free, pmm.bitmap
      ensures Valid() && pmm.free == VmmTeardown.FreePage(Ram(), old(pmm.free), paddr)
    {
      pmm.FreePage(paddr);
    }

    /** Frees the pages of `[paddr, paddr + size)`, one by one. */
    method FreePageRange(paddr: nat, size: nat)
      requires Valid()
      modifies pmm`freeCount, pmm`free, pmm.bitmap
      ensures Valid() && pmm.free == FreePages(Ram(), old(pmm.free), paddr, (size + 4095) / 4096)
    {
      hide FreePages, VmmTeardown.FreePage, Pmm.Valid;
      var offset := 0;
      ghost var k: nat, n: nat := 0, (size + 4095) / 4096;
      FreePagesStep(Ram(), old(pmm.free), paddr, 0);
      PagesLeft(size, 0);
      while offset < size
        invariant offset == 4096 * k && k <= n && (k < n <==> offset < size)
        invariant Valid() && pmm.free == FreePages(Ram(), old(pmm.free), paddr, k)
      {
        FreePagesStep(Ram(), old(pmm.free), paddr, k);
        PagesLeft(size, k + 1);
        FreeOne(paddr + offset);
        offset := offset + 4096;
        k := k + 1;
      }
    }

    // ----- Anonymous mappings

    lemma WholePages(size: nat)
      requires size % 4096 == 0
      ensures (size + 4095) / 4096 == size / 4096
    {
    }

    /** `pmm_alloc_pages`, seen through the specification. */
    method AllocPages(n: nat) returns (paddr: nat)
      requires Valid()
      modifies pmm`freeCount, pmm`free, pmm.bitmap
      ensures Valid() && (paddr, State()) == UserVmSpec.AllocPages(Ram(), old(State()), n)
      ensures paddr < U64_LIMIT
    {
      if 0 < n {
        FirstRunIsLowest(pmm.free, pmm.total, n, 0);
      }
      paddr := pmm.AllocPages(n);
    }

    /** The undo path of a failed anonymous mapping. */
    method UndoAnonymous(slot: nat, addr: nat, size: nat, paddr: nat)
      requires Valid() && slot < 16 && addr < U64_LIMIT && size < U64_LIMIT && size % 4096 == 0
      modifies procs, vmm`mem, pmm`freeCount, pmm`free, pmm.bitmap
      ensures Valid()
      ensures var (s', p') := UserVmSpec.UndoAnonymous(Ram(), old(State()), old(procs[slot]), addr, size, paddr);
              State() == s' && procs[..] == old(procs[..])[slot := p']
    {
      hide FreePages, VmmRanges.UnmapRange, ProcessSpec.FindRegion, Pmm.Valid;
      WholePages(size);
      var _ := vmm.UnmapRange(procs[slot].pageTable, addr, size);
      var _ := RemoveRegion(slot, addr, size);
      FreePageRange(paddr, size);
    }

    method MapAnonymous(slot: nat, hint: nat, size: nat, prot: Prot) returns (res: MapResult)
      requires Valid() && slot < 16
      modifies procs, vmm`mem, pmm`freeCount, pmm`free, pmm.bitmap
      ensures Valid()
      ensures var (res', s', p') := UserVmSpec.MapAnonymous(Ram(), old(State()), old(procs[slot]), hint, size, prot);
              res == res' && State() == s' && procs[..] == old(procs[..])[slot := p']
    {
      hide FreePages, VmmRanges.UnmapRange, VmmRanges.MapRange, ProcessSpec.FindRegion, UserVmSpec.UndoAnonymous,
           UserVmSpec.AllocPages, ProcessSpec.AllocRegion, AlignSize, ProcessSpec.RemoveRegion, FlagsToVmm, Pmm.Valid;
      var aligned := AlignSize(size);
      if procs[slot].pageTable == 0 || hint != 0 || aligned == 0 || FlagsToVmm(prot) == None {
        return Invalid;
      }
      SizeOk(size);
      AlignedBelow(size);
      var flags := FlagsToVmm(prot).value;
      var ok, addr := AllocRegion(slot, aligned);
      if !ok {
        return Invalid;
      }
      MmapRange(old(procs[slot]), aligned);
      var paddr := AllocPages(aligned / 4096);
      if paddr == 0 {
        var _ := RemoveRegion(slot, addr, aligned);
        return NoMemory;
      }
      var mapped := vmm.MapRange(procs[slot].pageTable, addr, paddr, aligned, flags);
      if !mapped {
        UndoAnonymous(slot, addr, aligned, paddr);
        return NoMemory;
      }
      var registered := SetMapping(slot, addr, aligned, paddr, true);
      if !registered {
        UndoAnonymous(slot, addr, aligned, paddr);
        return Invalid;
      }
      return Mapped(addr);
    }

    lemma AlignedBelow(size: nat)
      ensures AlignSize(size) < U64_LIMIT
    {
    }

    method UnmapAnonymous(slot: nat, addr: nat, size: nat) returns (ok: bool)
      requires Valid() && slot < 16 && addr < U64_LIMIT
      modifies procs, vmm`mem, pmm`freeCount, pmm`free, pmm.bitmap
      ensures Valid()
      ensures var (ok', s', p') := UserVmSpec.UnmapAnonymous(Ram(), old(State()), old(procs[slot]), addr, size);
              ok == ok' && State() == s' && procs[..] == old(procs[..])[slot := p']
    {
      hide FreePages, VmmRanges.UnmapRange, AlignSize, FindFrom, Pmm.Valid;
      var aligned := AlignSize(size);
      SizeOk(size);
      AlignedBelow(size);
      WholePages(aligned);
      if procs[slot].pageTable == 0 || aligned == 0 {
        return false;
      }
      var k := FindRegion(slot, addr, aligned);
      if k == None {
        return false;
      }
      var region := procs[slot].regions[k.value];
      if !region.owned || region.paddr == 0 {
        return false;
      }
      var unmapped := vmm.UnmapRange(procs[slot].pageTable, addr, aligned);
      if !unmapped {
        return false;
      }
      var removed := RemoveRegion(slot, addr, aligned);
      if !removed {
        return false;
      }
      FreePageRange(region.paddr, aligned);
      return true;
    }

    method MapPhysical(slot: nat, va: nat, pa: nat, size: nat, prot: Prot) returns (ok: bool)
      requires Valid() && slot < 16 && va < U64_LIMIT && pa < U64_LIMIT && size < U64_LIMIT
      modifies procs, vmm`mem, pmm`freeCount, pmm`free, pmm.bitmap
      ensures Valid()
      ensures var (ok', s', p') := SpawnSpec.MapPhysical(Ram(), old(State()), old(procs[slot]), va, pa, size, prot);
              ok == ok' && State() == s' && procs[..] == old(procs[..])[slot := p']
    {
      hide VmmRanges.UnmapRange, VmmRanges.MapRange, FindFrom, FlagsToVmm, ProcessSpec.SetMapping, Pmm.Valid;
      var pgd := procs[slot].pageTable;
      if pgd == 0 || va == 0 || pa == 0 || size == 0 || FlagsToVmm(prot) == None {
        return false;
      }
      var k := FindRegion(slot, va, size);
      if k == None {
        return false;
      }
      var mapped := vmm.MapRange(pgd, va, pa, size, FlagsToVmm(prot).value);
      if !mapped {
        var _ := vmm.UnmapRange(pgd, va, size);
        return false;
      }
      var registered := SetMapping(slot, va, size, pa, false);
      if !registered {
        var _ := vmm.UnmapRange(pgd, va, size);
        return false;
      }
      return true;
    }

    // ----- The process table

    method ProcessFind(pid: nat) returns (slot: Option<nat>)
      requires Valid()
      ensures slot == KS.Find(procs[..], pid)
    {
      if pid == 0 {
        return None;
      }
      for i := 0 to 16
        invariant KS.FindPid(procs[..], pid, 0) == KS.FindPid(procs[..], pid, i)
      {
        if !procs[i].state.Unused? && procs[i].pid == pid {
          return Some(i);
        }
      }
      return None;
    }

    method ProcessAlloc(pid: nat) returns (slot: Option<nat>)
      requires Valid()
      modifies procs, this`count
      ensures Valid()
      ensures match KS.Alloc(old(Abs()), pid)
              case None => slot == None && Abs() == old(Abs())
              case Some((i, k')) => slot == Some(i) && i < 16 && Abs() == k'
    {
      var taken := ProcessFind(pid);
      if pid == 0 || taken.Some? {
        return None;
      }
      for i := 0 to 16
        invariant KS.FreeSlot(procs[..], 0) == KS.FreeSlot(procs[..], i)
        invariant Valid() && Abs() == old(Abs())
      {
        if procs[i].state.Unused? {
          procs[i] := InitProc(pid);
          count := count + 1;
          return Some(i);
        }
      }
      return None;
    }

    /** Frees the pages of every owned region, then the page tables. */
    method FreeResources(slot: nat)
      requires Valid() && slot < 16
      modifies procs, pmm`freeCount, pmm`free, pmm.bitmap
      ensures Valid()
      ensures pmm.free == ProcessSpec.FreeResources(Ram(), old(State()), old(procs[slot]))
      ensures forall i :: 0 <= i < 16 && i != slot ==> procs[i] == old(procs[i])
      ensures procs[slot].state == old(procs[slot].state)
    {
      hide FreePages, VmmTeardown.FreeLevel, Pmm.Valid, FreeRegions;
      ghost var regs0 := procs[slot].regions;
      var n := |procs[slot].regions|;
      for i := 0 to n
        invariant Valid()
        invariant |procs[slot].regions| == n == |regs0|
        invariant forall j :: i <= j < n ==> procs[slot].regions[j] == regs0[j]
        invariant FreeRegions(Ram(), old(pmm.free), regs0, 0) == FreeRegions(Ram(), pmm.free, regs0, i)
        invariant forall j :: 0 <= j < 16 && j != slot ==> procs[j] == old(procs[j])
        invariant procs[slot].state == old(procs[slot].state) && procs[slot].pageTable == old(procs[slot].pageTable)
      {
        var region := procs[slot].regions[i];
        FreeRegionsStep(Ram(), pmm.free, regs0, i);
        if region.owned && region.paddr != 0 {
          if region.end > region.start {
            FreePageRange(region.paddr, region.end - region.start);
          } else {
            FreePagesStep(Ram(), pmm.free, region.paddr, 0);
          }
          procs[slot] := procs[slot].(regions := procs[slot].regions[i := region.(owned := false, paddr := 0)]);
        }
      }
      FreeRegionsStep(Ram(), pmm.free, regs0, n);
      if procs[slot].pageTable != 0 {
        vmm.FreeTable(procs[slot].pageTable);
        procs[slot] := procs[slot].(pageTable := 0);
      }
    }

    method Release(slot: nat)
      requires Valid() && slot < 16
      modifies this`current, this`count, procs, pmm`freeCount, pmm`free, pmm.bitmap
      ensures Valid() && Abs() == KS.Release(Ram(), old(Abs()), slot)
    {
      var p := procs[slot];
      if p.state.Unused? && p.pageTable == 0 && p.regions == [] {
        return;
      }
      hide ProcessSpec.FreeResources, Pmm.Valid;
      if current == Some(slot) {
        current := None;
      }
      var counted := !p.state.Unused?;
      FreeResources(slot);
      procs[slot] := KS.IDLE;
      if counted && count > 0 {
        count := count - 1;
      }
      assert procs[..] == old(procs[..])[slot := KS.IDLE];
    }

    method ReclaimZombies()
      requires Valid()
      modifies this`current, this`count, procs, pmm`freeCount, pmm`free, pmm.bitmap
      ensures Valid() && Abs() == KS.ReclaimFrom(Ram(), old(Abs()), 0)
    {
      for i := 0 to 16
        invariant Valid()
        invariant KS.ReclaimFrom(Ram(), old(Abs()), 0) == KS.ReclaimFrom(Ram(), Abs(), i)
      {
        hide KS.Release, KS.Find, Pmm.Valid;
        var zombie := procs[i];
        if zombie.state.Zombie? {
          var parent := None;
          if zombie.parent != 0 {
            parent := ProcessFind(zombie.parent);
          }
          if zombie.parent != 0 && parent.Some? && !procs[parent.value].state.Zombie? {
            continue;
          }
          Release(i);
        }
      }
    }

    method MarkExited(slot: nat, code: nat)
      requires Valid() && slot < 16
      modifies procs
      ensures Valid() && Abs() == KS.MarkExited(old(Abs()), slot, code)
    {
      if procs[slot].state.Zombie? {
        return;
      }
      procs[slot] := procs[slot].(exitCode := code, state := Zombie);
    }

    method Kill(pid: nat, code: nat) returns (ok: bool)
      requires Valid()
      modifies procs
      ensures Valid()
      ensures match KS.Kill(old(Abs()), pid, code)
              case None => !ok && Abs() == old(Abs())
              case Some(k') => ok && Abs() == k'
    {
      var slot := ProcessFind(pid);
      if slot == None || current == slot || procs[slot.value].state.Zombie? {
        return false;
      }
      MarkExited(slot.value, code);
      return true;
    }

    method WaitZombie(pid: nat) returns (exitCode: Option<nat>)
      requires Valid()
      modifies this`current, this`count, procs, pmm`freeCount, pmm`free, pmm.bitmap
      ensures Valid()
      ensures match KS.WaitZombie(Ram(), old(Abs()), pid)
              case None => exitCode == None && Abs() == old(Abs())
              case Some((code, k')) => exitCode == Some(code) && Abs() == k'
    {
      hide KS.Release, Pmm.Valid;
      var slot := ProcessFind(pid);
      if slot == None || current == slot || !procs[slot.value].state.Zombie? {
        return None;
      }
      exitCode := Some(procs[slot.value].exitCode);
      Release(slot.value);
    }

    method NextRunnable(after: Option<nat>) returns (next: Option<nat>)
      requires Valid() && (after.Some? ==> after.value < 16)
      ensures next == Runs.NextRunnable(procs[..], after)
    {
      hide Pmm.Valid;
      var start, n := 0, 16;
      if after.Some? {
        start := after.value + 1;
        n := n - 1;
      }
      for offset := 0 to n
        invariant Runs.Scan(procs[..], start, 0, n) == Runs.Scan(procs[..], start, offset, n)
      {
        var index := (start + offset) % 16;
        if procs[index].state.Ready? {
          return Some(index);
        }
      }
      return None;
    }

    method Dispatch(policy: Runs.Policy) returns (ok: bool)
      requires Valid()
      modifies procs, this`current
      ensures Valid() && (ok, Abs()) == Runs.Dispatch(old(Abs()), policy)
    {
      hide Runs.NextRunnable, Pmm.Valid;
      if current == None && policy.OnPreempt? {
        return false;
      }
      var next := NextRunnable(current);
      if next == None {
        return false;
      }
      if policy.OnPreempt? && procs[current.value].state.Running? {
        procs[current.value] := procs[current.value].(state := Ready);
      }
      procs[next.value] := procs[next.value].(state := Running);
      current := next;
      return true;
    }

    // ----- Spawning

    method FreeImage(image: nat)
      requires Valid()
      modifies pmm`freeCount, pmm`free, pmm.bitmap
      ensures Valid() && pmm.free == SpawnSpec.FreeImage(Ram(), old(pmm.free), image)
    {
      hide FreePages, Pmm.Valid;
      if image == 0 {
        return;
      }
      FreePageRange(image, IMAGE_SIZE);
    }

    /** `free_user_storage`. */
    method FreeStorage(st: Storage)
      requires Valid()
      modifies pmm`freeCount, pmm`free, pmm.bitmap
      ensures Valid() && State() == SpawnSpec.FreeStorage(Ram(), old(State()), st)
    {
      hide FreePages, Pmm.Valid;
      FreeImage(st.image);
      if st.stack != 0 {
        pmm.FreePage(st.stack);
      }
    }

    /** Allocates the image pages and loads into them; `loads` is the loader's answer. */
    method LoadImage(st: Storage, loads: bool) returns (ok: bool, st': Storage)
      requires Valid() && st.image < U64_LIMIT && st.stack < U64_LIMIT
      modifies pmm`freeCount, pmm`free, pmm.bitmap
      ensures Valid() && (ok, State(), st') == SpawnSpec.LoadImage(Ram(), old(State()), st, loads)
      ensures st'.image < U64_LIMIT && st'.stack < U64_LIMIT
    {
      hide SpawnSpec.FreeImage, UserVmSpec.AllocPages, Pmm.Valid;
      if st.image != 0 {
        return false, st;
      }
      var image := AllocPages(2);
      if image == 0 {
        return false, st;
      }
      if !loads {
        FreeImage(image);
        return false, st;
      }
      return true, st.(image := image);
    }

    /** Addresses and sizes are 64-bit values. */
    predicate InputOk(inp: SpawnInput) {
      forall i :: 0 <= i < |inp.kernelMaps| ==>
        inp.kernelMaps[i].va < U64_LIMIT && inp.kernelMaps[i].pa < U64_LIMIT && inp.kernelMaps[i].size < U64_LIMIT
    }

    method MapKernel(pgd: nat, maps: seq<KernelMap>) returns (ok: bool)
      requires Valid()
      requires forall i :: 0 <= i < |maps| ==>
                 maps[i].va < U64_LIMIT && maps[i].pa < U64_LIMIT && maps[i].size < U64_LIMIT
      modifies vmm`mem, pmm`freeCount, pmm`free, pmm.bitmap
      ensures Valid() && (ok, State()) == SpawnSpec.MapKernel(Ram(), old(State()), pgd, maps, 0)
    {
      for i := 0 to |maps|
        invariant Valid()
        invariant SpawnSpec.MapKernel(Ram(), old(State()), pgd, maps, 0) == SpawnSpec.MapKernel(Ram(), State(), pgd, maps, i)
      {
        hide VmmRanges.MapRange, Pmm.Valid;
        var mapped := vmm.MapRange(pgd, maps[i].va, maps[i].pa, maps[i].size, maps[i].flags);
        if !mapped {
          return false;
        }
      }
      return true;
    }

    method CreatePageTable(slot: nat, st: Storage, inp: SpawnInput) returns (ok: bool)
      requires Valid() && slot < 16 && st.image < U64_LIMIT && st.stack < U64_LIMIT && InputOk(inp)
      modifies procs, vmm`mem, pmm`freeCount, pmm`free, pmm.bitmap
      ensures Valid()
      ensures var (ok', s', p') := SpawnSpec.CreatePageTable(Ram(), old(State()), old(procs[slot]), slot, st, inp);
              ok == ok' && State() == s' && procs[..] == old(procs[..])[slot := p']
    {
      hide SpawnSpec.MapPhysical, SpawnSpec.MapKernel, VmmTeardown.FreeLevel, VmmSpec.NewTable, Pmm.Valid;
      var pgd := vmm.NewTable();
      if pgd == 0 {
        return false;
      }
      var mapped := MapKernel(pgd, inp.kernelMaps);
      if !mapped || !inp.mmioMaps {
        vmm.FreeTable(pgd);
        return false;
      }
      procs[slot] := procs[slot].(pageTable := pgd);
      ok := MapPhysical(slot, ImageVaddr(slot), st.image, IMAGE_SIZE, Prot(true, false, true, false));
      if !ok {
        return;
      }
      ok := MapPhysical(slot, StackVaddr(slot), st.stack, STACK_SIZE, Prot(true, true, false, false));
    }

    /** `user_image_prepare_process`, with its restore of entry state and regions. */
    method PrepareProcess(slot: nat, imageBase: nat, imageSize: nat, entryOffset: nat,
                          stackStart: nat, stackSize: nat, pstate: nat) returns (ok: bool)
      requires Valid() && slot < 16
      modifies procs
      ensures Valid()
      ensures match SpawnSpec.PrepareProcess(old(procs[slot]), imageBase, imageSize, entryOffset, stackStart, stackSize, pstate)
              case None => !ok && procs[..] == old(procs[..])
              case Some(p) => ok && procs[..] == old(procs[..])[slot := p]
    {
      hide ProcessSpec.AddRegion, Pmm.Valid;
      if imageBase == 0 || imageSize == 0 || entryOffset >= imageSize || imageBase + entryOffset >= U64_LIMIT
         || stackStart == 0 || stackSize == 0 || stackStart + stackSize >= U64_LIMIT {
        return false;
      }
      var was := procs[slot];
      procs[slot] := was.(pc := imageBase + entryOffset, sp := stackStart + stackSize, pstate := pstate);
      ghost var p1 := procs[slot];
      ok := AddRegion(slot, imageBase, imageSize);
      if !ok {
        procs[slot] := procs[slot].(pc := was.pc, sp := was.sp, pstate := was.pstate);
        assert procs[slot] == was;
        return;
      }
      ok := AddRegion(slot, stackStart, stackSize);
      if !ok {
        AddThenFind(p1, imageBase, imageSize);
        var _ := RemoveRegion(slot, imageBase, imageSize);
        procs[slot] := procs[slot].(pc := was.pc, sp := was.sp, pstate := was.pstate);
        assert procs[slot] == was;
      }
    }

    method InitProcess(slot: nat, st: Storage, inp: SpawnInput) returns (ok: bool, st': Storage)
      requires Valid() && slot < 16 && st.image < U64_LIMIT && st.stack < U64_LIMIT && InputOk(inp)
      modifies procs, vmm`mem, pmm`freeCount, pmm`free, pmm.bitmap
      ensures Valid()
      ensures var (ok', s', p', st'') := SpawnSpec.InitProcess(Ram(), old(State()), old(procs[slot]), st, slot, inp);
              ok == ok' && State() == s' && procs[..] == old(procs[..])[slot := p'] && st' == st''
    {
      hide SpawnSpec.CreatePageTable, UserVmSpec.AllocPages, SpawnSpec.PrepareProcess, ProcessSpec.SetMapping, Pmm.Valid;
      st' := st;
      if st.image == 0 {
        return false, st';
      }
      var stack := AllocPages(1);
      st' := st'.(stack := stack);
      if stack == 0 {
        return false, st';
      }
      ok := PrepareProcess(slot, ImageVaddr(slot), IMAGE_SIZE, inp.entryOffset, StackVaddr(slot), STACK_SIZE, inp.pstate);
      if !ok {
        return;
      }
      ok := CreatePageTable(slot, st', inp);
      if !ok {
        return;
      }
      ok := SetMapping(slot, ImageVaddr(slot), IMAGE_SIZE, st'.image, true);
      if !ok {
        return;
      }
      st' := st'.(image := 0);
      ok := SetMapping(slot, StackVaddr(slot), STACK_SIZE, st'.stack, true);
    }

    /** `app_spawn_vfs`: the new pid, or nothing with every step undone. */
    method Spawn(inp: SpawnInput) returns (pid: Option<nat>)
      requires Valid() && InputOk(inp)
      modifies this`current, this`count, this`nextPid, procs, vmm`mem, pmm`freeCount, pmm`free, pmm.bitmap
      ensures Valid() && (pid, Abs()) == KS.Spawn(Ram(), old(Abs()), inp)
    {
      hide KS.ReclaimFrom, KS.Alloc, KS.SpawnInto, Pmm.Valid;
      if !inp.memoryKnown || !inp.resolved {
        return None;
      }
      ReclaimZombies();
      var fresh' := nextPid;
      nextPid := (nextPid + 1) % U32_LIMIT;
      var slot := ProcessAlloc(fresh');
      if slot == None {
        return None;
      }
      pid := SpawnInto(slot.value, inp);
    }

    /** The end of a failed spawn. */
    method Abandon(slot: nat, st: Storage)
      requires Valid() && slot < 16
      modifies this`current, this`count, procs, pmm`freeCount, pmm`free, pmm.bitmap
      ensures Valid() && Abs() == KS.AbandonSpawn(Ram(), old(Abs()), slot, st)
    {
      hide SpawnSpec.FreeStorage, KS.Release, Pmm.Valid;
      Release(slot);
      FreeStorage(st);
    }

    /** The loading that spawning and booting share, with its undo. */
    method Fill(slot: nat, inp: SpawnInput) returns (ok: bool)
      requires Valid() && slot < 16 && InputOk(inp)
      modifies this`current, this`count, procs, vmm`mem, pmm`freeCount, pmm`free, pmm.bitmap
      ensures Valid() && (ok, Abs()) == KS.Fill(Ram(), old(Abs()), slot, inp)
    {
      hide SpawnSpec.InitProcess, SpawnSpec.LoadImage, KS.AbandonSpawn, Pmm.Valid;
      var st;
      ok, st := LoadImage(Storage(0, 0), inp.loads);
      if !ok {
        Abandon(slot, st);
        return;
      }
      ok, st := InitProcess(slot, st, inp);
      assert procs[..] == old(procs[..])[slot := procs[slot]];
      if !ok {
        Abandon(slot, st);
      }
    }

    /** The part of a spawn that fills the allocated slot. */
    method SpawnInto(slot: nat, inp: SpawnInput) returns (pid: Option<nat>)
      requires Valid() && slot < 16 && InputOk(inp)
      modifies this`current, this`count, procs, vmm`mem, pmm`freeCount, pmm`free, pmm.bitmap
      ensures Valid() && (pid, Abs()) == KS.SpawnInto(Ram(), old(Abs()), slot, inp)
    {
      hide KS.Fill, KS.Release, Pmm.Valid;
      var parent := if current.Some? then procs[current.value].pid else 0;
      procs[slot] := procs[slot].(parent := parent, state := Blocked);
      var ok := Fill(slot, inp);
      if !ok {
        return None;
      }
      if !inp.argvPlaced {
        Release(slot);
        return None;
      }
      ghost var filled := procs[..];
      procs[slot] := procs[slot].(x0 := 0, x1 := 0);
      if inp.argvVaddr != 0 {
        procs[slot] := procs[slot].(sp := inp.argvVaddr, x0 := inp.argc, x1 := inp.argvVaddr);
      }
      procs[slot] := procs[slot].(state := Ready);
      assert procs[..] == filled[slot := procs[slot]];
      return Some(procs[slot].pid);
    }

    // ----- Events

    predicate EventOk(e: Runs.Event) {
      match e
      case SpawnCall(inp) => InputOk(inp)
      case Munmap(addr, size) => addr < U64_LIMIT
      case _ => true
    }

    /** `sys_wait` of the process in slot `c`. */
    method SysWait(c: nat, child: nat) returns (answer: Runs.Answer)
      requires Valid() && c < 16
      modifies this`current, this`count, procs, pmm`freeCount, pmm`free, pmm.bitmap
      ensures Valid() && (answer, Abs()) == Runs.SysWait(Ram(), old(Abs()), c, child)
    {
      hide KS.WaitZombie, KS.FindPid, Pmm.Valid;
      if child == 0 || child >= U32_LIMIT {
        return Runs.BadRequest;
      }
      var slot := ProcessFind(child);
      if slot == None {
        return Runs.NoProcess;
      }
      if procs[slot.value].parent != procs[c].pid {
        return Runs.NotParent;
      }
      if !procs[slot.value].state.Zombie? {
        return Runs.StillAlive;
      }
      var code := WaitZombie(child);
      return if code.None? then Runs.BadRequest else Runs.Exited(code.value);
    }

    method SysKill(victim: nat) returns (answer: Runs.Answer)
      requires Valid()
      modifies procs
      ensures Valid() && (answer, Abs()) == Runs.SysKill(old(Abs()), victim)
    {
      hide KS.Kill, KS.FindPid, Pmm.Valid;
      if victim == 0 || victim >= U32_LIMIT {
        return Runs.BadRequest;
      }
      var slot := ProcessFind(victim);
      if slot == None {
        return Runs.NoProcess;
      }
      var ok := Kill(victim, Runs.KILL_CODE);
      return if ok then Runs.Killed else Runs.BadRequest;
    }

    /** One system call or timer tick of the running process. */
    method Handle(e: Runs.Event)
      requires Valid() && EventOk(e)
      modifies this`current, this`count, this`nextPid, procs, vmm`mem, pmm`freeCount, pmm`free, pmm.bitmap
      ensures Valid() && Abs() == Runs.Step(Ram(), old(Abs()), e)
    {
      hide Runs.Dispatch, KS.Spawn, UserVmSpec.MapAnonymous, UserVmSpec.UnmapAnonymous, KS.Kill, KS.WaitZombie, KS.MarkExited, Pmm.Valid;
      if current == None || !procs[current.value].state.Running? {
        return;
      }
      var c := current.value;
      match e
      case Tick =>
        var _ := Dispatch(Runs.OnPreempt);
      case Exit(code) =>
        MarkExited(c, code);
        var _ := Dispatch(Runs.OnExit);
      case SpawnCall(inp) =>
        var _ := Spawn(inp);
      case Mmap(hint, size, prot) =>
        var _ := MapAnonymous(c, hint, size, prot);
      case Munmap(addr, size) =>
        var _ := UnmapAnonymous(c, addr, size);
      case KillCall(victim) =>
        var _ := SysKill(victim);
      case WaitCall(child) =>
        var _ := SysWait(c, child);
    }

    /** A whole run ends in the state the specification gives. */
    method HandleAll(events: seq<Runs.Event>)
      requires Valid() && forall i :: 0 <= i < |events| ==> EventOk(events[i])
      modifies this`current, this`count, this`nextPid, procs, vmm`mem, pmm`freeCount, pmm`free, pmm.bitmap
      ensures Valid() && Abs() == Runs.Run(Ram(), old(Abs()), events)
    {
      hide Runs.Step, EventOk, Pmm.Valid;
      for i := 0 to |events|
        invariant Valid()
        invariant Runs.Run(Ram(), old(Abs()), events) == Runs.Run(Ram(), Abs(), events[i..])
      {
        assert events[i..][0] == events[i] && events[i..][1..] == events[i + 1..];
        Handle(events[i]);
      }
    }

    // ----- From boot to boot

    /** `panel_boot_run` until user mode is entered: the slot of the first process, or nothing with every step undone. */
    method Boot(inp: SpawnInput) returns (slot: Option<nat>)
      requires Valid() && InputOk(inp)
      modifies this`current, this`count, this`nextPid, procs, vmm`mem, pmm`freeCount, pmm`free, pmm.bitmap
      ensures Valid() && (slot, Abs()) == Boots.Boot(Ram(), old(Abs()), inp)
    {
      hide KS.ReclaimFrom, KS.Alloc, KS.Fill, Pmm.Valid;
      if nextPid == 0 {
        nextPid := Boots.PANEL_PID + 1;
      }
      ReclaimZombies();
      slot := ProcessAlloc(Boots.PANEL_PID);
      if slot == None {
        return;
      }
      var ok := Fill(slot.value, inp);
      if !ok {
        return None;
      }
      ghost var filled := procs[..];
      procs[slot.value] := procs[slot.value].(state := Running);
      current := slot;
      assert procs[..] == filled[slot.value := procs[slot.value]];
    }

    /** `panel_boot_run` after user mode. */
    method Leave(slot: nat)
      requires Valid() && slot < 16
      modifies this`current, this`count, procs, pmm`freeCount, pmm`free, pmm.bitmap
      ensures Valid() && Abs() == Boots.Leave(Ram(), old(Abs()), slot)
    {
      hide KS.ReclaimFrom, KS.Release, Pmm.Valid;
      ReclaimZombies();
      Release(slot);
    }

    predicate ActOk(a: Boots.Act) {
      match a
      case Boots(inp) => InputOk(inp)
      case Does(e) => EventOk(e)
    }

    /** One act of the machine; `panel` is the slot of the first process while the machine is in user mode. */
    method Act(a: Boots.Act, panel: Option<nat>) returns (panel': Option<nat>)
      requires Valid() && ActOk(a) && (panel.Some? ==> panel.value < 16)
      modifies this`current, this`count, this`nextPid, procs, vmm`mem, pmm`freeCount, pmm`free, pmm.bitmap
      ensures Valid() && Boots.Machine(Abs(), panel') == Boots.Advance(Ram(), Boots.Machine(old(Abs()), panel), a)
    {
      hide Boots.Boot, Boots.Leave, Runs.Step, Pmm.Valid, EventOk, InputOk;
      panel' := panel;
      match a
      case Boots(inp) =>
        if panel.None? {
          panel' := Boot(inp);
        }
      case Does(e) =>
        if panel.Some? {
          Handle(e);
          if current == None || !procs[current.value].state.Running? {
            Leave(panel.value);
            panel' := None;
          }
        }
    }

    /** A whole life of the machine ends in the state the specification gives. */
    method Live(acts: seq<Boots.Act>) returns (panel: Option<nat>)
      requires Valid() && forall i :: 0 <= i < |acts| ==> ActOk(acts[i])
      modifies this`current, this`count, this`nextPid, procs, vmm`mem, pmm`freeCount, pmm`free, pmm.bitmap
      ensures Valid() && Boots.Machine(Abs(), panel) == Boots.Life(Ram(), Boots.Machine(old(Abs()), None), acts)
    {
      hide Boots.Advance, ActOk, Pmm.Valid;
      panel := None;
      for i := 0 to |acts|
        invariant Valid() && (panel.Some? ==> panel.value < 16)
        invariant Boots.Life(Ram(), Boots.Machine(old(Abs()), None), acts) == Boots.Life(Ram(), Boots.Machine(Abs(), panel), acts[i..])
      {
        assert acts[i..][0] == acts[i] && acts[i..][1..] == acts[i + 1..];
        panel := Act(acts[i], panel);
      }
    }
  }
}
