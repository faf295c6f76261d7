/** The page-table manager as the kernel runs it: tables updated in place, pages taken from the allocator. */
module VirtualMemory {
  import opened Basics
  import opened PhysicalPages
  import opened PageTableFormat
  import opened PageTree
  import Spec = VmmSpec
  import Ranges = VmmRanges
  import Teardown = VmmTeardown

  class Vmm {
    const pmm: Pmm
    /** The contents of the physical pages that have been used as tables. */
    var mem: Memory
    /** The pages that circulate between the free set and the processes. */
    ghost const pool: set<nat>

    constructor (pmm: Pmm)
      ensures this.pmm == pmm && mem == map[] && pool == pmm.free
    {
      this.pmm := pmm;
      mem := map[];
      pool := pmm.free;
    }

    ghost predicate Valid()
      reads this, pmm, pmm.bitmap
    {
      pmm.Valid()
    }

    ghost function Ram(): Spec.Ram
      reads pmm
    {
      Spec.Ram(pmm.base, pmm.total, pool)
    }

    ghost function State(): Spec.State
      reads this, pmm
    {
      Spec.State(mem, pmm.free)
    }

    method NewTable() returns (table: nat)
      requires Valid()
      modifies this`mem, pmm`freeCount, pmm`free, pmm.bitmap
      ensures Valid() && (table, State()) == Spec.NewTable(Ram(), old(State()))
    {
      table := pmm.AllocPage();
      if table == 0 {
        return;
      }
      mem := mem[table := ZeroTable()];
    }

    /** The child table behind an entry, created when the entry is empty; 0 on failure. */
    method NextTable(table: nat, index: nat) returns (child: nat)
      requires Valid() && index < 512
      modifies this`mem, pmm`freeCount, pmm`free, pmm.bitmap
      ensures Valid() && (child, State()) == Spec.NextTable(Ram(), old(State()), table, index)
    {
      var entry := Entry(mem, table, index);
      if entry.valid {
        if !entry.table {
          return 0;
        }
        return entry.addr;
      }
      child := NewTable();
      if child == 0 {
        return;
      }
      mem := Store(mem, table, index, TableDesc(child));
    }

    method MapPage(pgd: nat, va: nat, pa: nat, flags: Flags) returns (ok: bool)
      requires Valid()
      modifies this`mem, pmm`freeCount, pmm`free, pmm.bitmap
      ensures Valid() && (ok, State()) == Spec.MapPage(Ram(), old(State()), pgd, va, pa, flags)
    {
      if pgd == 0 || va % 4096 != 0 || pa % 4096 != 0 {
        return false;
      }
      var level1 := NextTable(pgd, Index(va, 0));
      if level1 == 0 {
        return false;
      }
      label first:
      assert Spec.Descend(Ram(), old(State()), pgd, va, 0) == Spec.Descend(Ram(), State(), level1, va, 1);
      var level2 := NextTable(level1, Index(va, 1));
      if level2 == 0 {
        return false;
      }
      assert Spec.Descend(Ram(), old@first(State()), level1, va, 1) == Spec.Descend(Ram(), State(), level2, va, 2);
      var level3 := NextTable(level2, Index(va, 2));
      if level3 == 0 {
        return false;
      }
      assert Spec.Descend(Ram(), State(), level3, va, 3) == (level3, State());
      var index3 := Index(va, 3);
      if Entry(mem, level3, index3).valid {
        return false;
      }
      mem := Store(mem, level3, index3, PageDescriptor(pa, flags));
      return true;
    }

    /** The level-3 table on the walk for an address, if every level above links to it. */
    method LeafTable(pgd: nat, va: nat) returns (table: nat)
      ensures table == if pgd == 0 then 0
                       else match Walk(mem, pgd, Vpn(va), 0) { case None => 0 case Some(leaf) => leaf }
    {
      table := pgd;
      if table == 0 {
        return 0;
      }
      for level := 0 to 3
        invariant Walk(mem, pgd, Vpn(va), 0) == Walk(mem, table, Vpn(va), level)
      {
        var entry := Entry(mem, table, Index(va, level));
        IndexIsDigit(va, level);
        if !entry.valid || !entry.table {
          return 0;
        }
        table := entry.addr;
      }
    }

    method UnmapPage(pgd: nat, va: nat) returns (ok: bool)
      modifies this`mem
      ensures (ok, mem) == Spec.UnmapPage(old(mem), pgd, va)
    {
      if pgd == 0 || va % 4096 != 0 {
        return false;
      }
      var level3 := LeafTable(pgd, va);
      if level3 == 0 {
        return false;
      }
      var index3 := Index(va, 3);
      if !Entry(mem, level3, index3).valid {
        return false;
      }
      mem := Store(mem, level3, index3, ZERO);
      return true;
    }

    /** `page_span`, with the aligned length or nothing. */
    method PageSpan(offset: nat, size: nat) returns (span: Option<nat>)
      requires offset < U64_LIMIT && size < U64_LIMIT
      ensures span == Ranges.PageSpan(offset, size)
    {
      if size == 0 || offset >= 4096 {
        return None;
      }
      if size > U64_LIMIT - 1 - offset {
        return None;
      }
      var end := offset + size;
      if end % 4096 != 0 && end > U64_LIMIT - 1 - 4095 {
        return None;
      }
      return Some((end + 4095) / 4096 * 4096);
    }

    method MapRange(pgd: nat, va: nat, pa: nat, size: nat, flags: Flags) returns (ok: bool)
      requires Valid() && va < U64_LIMIT && pa < U64_LIMIT && size < U64_LIMIT
      modifies this`mem, pmm`freeCount, pmm`free, pmm.bitmap
      ensures Valid() && (ok, State()) == Ranges.MapRange(Ram(), old(State()), pgd, va, pa, size, flags)
    {
      hide Ranges.MapLoop, Ranges.Rollback;
      if pgd == 0 || va % 4096 != pa % 4096 {
        return false;
      }
      if size == 0 {
        return true;
      }
      var va0, pa0 := Ranges.AlignedDown(va), Ranges.AlignedDown(pa);
      var span := PageSpan(va - va0, size);
      if span == None || va0 > U64_LIMIT - 1 - span.value || pa0 > U64_LIMIT - 1 - span.value {
        return false;
      }
      ok := MapPages(pgd, va0, pa0, flags, span.value);
    }

    /** The mapping loop of a range, with the rollback loop on the first failure. */
    method MapPages(pgd: nat, va0: nat, pa0: nat, flags: Flags, end: nat) returns (ok: bool)
      requires Valid() && end % 4096 == 0
      modifies this`mem, pmm`freeCount, pmm`free, pmm.bitmap
      ensures Valid()
      ensures var (done, s1) := Ranges.MapLoop(Ram(), old(State()), pgd, va0, pa0, flags, 0, end / 4096);
              if done < end / 4096
              then !ok && State() == s1.(mem := Ranges.Rollback(s1.mem, pgd, va0, 0, done))
              else ok && State() == s1
    {
      hide Spec.MapPage, Ranges.Rollback;
      var mapped := 0;
      ghost var k := 0;
      while mapped < end
        invariant mapped == 4096 * k && k <= end / 4096
        invariant Valid()
        invariant Ranges.MapLoop(Ram(), old(State()), pgd, va0, pa0, flags, 0, end / 4096)
               == Ranges.MapLoop(Ram(), State(), pgd, va0, pa0, flags, k, end / 4096)
      {
        var done := MapPage(pgd, va0 + mapped, pa0 + mapped, flags);
        if !done {
          RollBack(pgd, va0, mapped, k);
          return false;
        }
        mapped := mapped + 4096;
        k := k + 1;
      }
      return true;
    }

    /** The rollback loop of a failed range. */
    method RollBack(pgd: nat, va0: nat, mapped: nat, ghost n: nat)
      requires mapped == 4096 * n
      modifies this`mem
      ensures mem == Ranges.Rollback(old(mem), pgd, va0, 0, n)
    {
      hide Spec.UnmapPage;
      var rollback := 0;
      ghost var j := 0;
      while rollback < mapped
        invariant rollback == 4096 * j && j <= n
        invariant Ranges.Rollback(old(mem), pgd, va0, 0, n) == Ranges.Rollback(mem, pgd, va0, j, n)
      {
        var _ := UnmapPage(pgd, va0 + rollback);
        rollback := rollback + 4096;
        j := j + 1;
      }
    }

    method UnmapRange(pgd: nat, va: nat, size: nat) returns (ok: bool)
      requires va < U64_LIMIT && size < U64_LIMIT
      modifies this`mem
      ensures (ok, mem) == Ranges.UnmapRange(old(mem), pgd, va, size)
    {
      hide Ranges.UnmapLoop;
      if pgd == 0 {
        return false;
      }
      if size == 0 {
        return true;
      }
      var va0 := Ranges.AlignedDown(va);
      var span := PageSpan(va - va0, size);
      if span == None || va0 > U64_LIMIT - 1 - span.value {
        return false;
      }
      ok := UnmapPages(pgd, va0, span.value);
    }

    /** The unmapping loop of a range. */
    method UnmapPages(pgd: nat, va0: nat, end: nat) returns (ok: bool)
      requires end % 4096 == 0
      modifies this`mem
      ensures var (done, mem1) := Ranges.UnmapLoop(old(mem), pgd, va0, 0, end / 4096);
              ok == (done == end / 4096) && mem == mem1
    {
      hide Spec.UnmapPage;
      var unmapped := 0;
      ghost var k := 0;
      while unmapped < end
        invariant unmapped == 4096 * k && k <= end / 4096
        invariant Ranges.UnmapLoop(old(mem), pgd, va0, 0, end / 4096) == Ranges.UnmapLoop(mem, pgd, va0, k, end / 4096)
      {
        var done := UnmapPage(pgd, va0 + unmapped);
        if !done {
          return false;
        }
        unmapped := unmapped + 4096;
        k := k + 1;
      }
      return true;
    }

    /** Releases a table and, above level 3, everything it links to. */
    method FreeTableLevel(table: nat, level: nat)
      requires Valid() && level <= 3
      modifies pmm`freeCount, pmm`free, pmm.bitmap
      ensures Valid() && pmm.free == Teardown.FreeLevel(Ram(), mem, old(pmm.free), table, level)
      decreases 3 - level
    {
      hide Teardown.FreeLevel, Teardown.FreeEntries, Entry, Pmm.Valid;
      Teardown.FreeLevelStep(Ram(), mem, old(pmm.free), table, level);
      if table == 0 {
        return;
      }
      if level < 3 {
        for i := 0 to 512
          invariant Valid()
          invariant Teardown.FreeEntries(Ram(), mem, old(pmm.free), table, level, 0)
                 == Teardown.FreeEntries(Ram(), mem, pmm.free, table, level, i)
        {
          Teardown.FreeEntriesStep(Ram(), mem, pmm.free, table, level, i);
          var entry := Entry(mem, table, i);
          if entry.valid && entry.table {
            FreeTableLevel(entry.addr, level + 1);
          }
        }
        Teardown.FreeEntriesEnd(Ram(), mem, pmm.free, table, level);
      }
      pmm.FreePage(table);
    }

    method FreeTable(pgd: nat)
      requires Valid()
      modifies pmm`freeCount, pmm`free, pmm.bitmap
      ensures Valid() && pmm.free == Teardown.FreeLevel(Ram(), mem, old(pmm.free), pgd, 0)
    {
      FreeTableLevel(pgd, 0);
    }

    /** The leaf entry of an address, or zero. */
    method LeafEntry(pgd: nat, va: nat) returns (entry: Desc)
      ensures Lookup(mem, pgd, Vpn(va)) == if entry.valid then Some(entry) else None
    {
      var table := LeafTable(pgd, va);
      if table == 0 {
        return ZERO;
      }
      IndexIsDigit(va, 3);
      return Entry(mem, table, Index(va, 3));
    }

    /** The physical address behind a virtual one, or 0. */
    method VirtToPhys(pgd: nat, va: nat) returns (pa: nat)
      ensures pa == match Lookup(mem, pgd, Vpn(va)) {
                      case Some(d) => if d.table then d.addr + va % 4096 else 0
                      case None => 0
                    }
    {
      var entry := LeafEntry(pgd, va);
      if !entry.valid || !entry.table {
        return 0;
      }
      return entry.addr + va % 4096;
    }
  }
}
