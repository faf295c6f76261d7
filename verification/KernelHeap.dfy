/** The kernel heap: `kmalloc` and `kfree` over a doubly linked list of blocks in page arenas. */
module KernelHeap {
  import opened Basics
  import opened PhysicalPages
  import opened HeapSpec
  import opened HeapOps
  import opened HeapLinks

  const ALIGN: nat := 16

  function AlignUp(v: nat): nat {
    (v + 15) / 16 * 16
  }

  /** Pages for a header and `payload` bytes; 0 when that many cannot be counted. */
  function PageCount(payload: nat): nat {
    if payload > U64_LIMIT - 1 - HEADER then 0
    else if HEADER + payload > U64_LIMIT - 1 - (PAGE_SIZE - 1) then 0
    else (HEADER + payload + PAGE_SIZE - 1) / PAGE_SIZE
  }

  /** As few pages as hold a header and the payload, unless their number cannot be counted. */
  lemma PagesEnough(payload: nat)
    ensures PageCount(payload) > 0 ==> (PageCount(payload) - 1) * PAGE_SIZE < HEADER + payload <= PageCount(payload) * PAGE_SIZE
    ensures PageCount(payload) == 0 <==> HEADER + payload + PAGE_SIZE - 1 >= U64_LIMIT
  {
  }

  lemma AlignUpOk(v: nat)
    ensures v <= AlignUp(v) < v + 16 && AlignUp(v) % 16 == 0
  {
  }

  // ----- Arenas and pages

  /** Page `p` of the allocator lies in the arena. */
  predicate InArena(base: nat, a: Arena, p: nat) {
    a.base <= base + p * PAGE_SIZE < Limit(a)
  }

  /** The pages of the arenas are not free in the page allocator. */
  ghost predicate Held(base: nat, free: set<nat>, arenas: seq<Arena>) {
    forall k: nat, p: nat :: k < |arenas| && p in free ==> !InArena(base, arenas[k], p)
  }

  /** Arenas start at pages of the allocator. */
  ghost predicate OnPages(base: nat, arenas: seq<Arena>) {
    forall k: nat :: k < |arenas| ==> arenas[k].base >= base && (arenas[k].base - base) % PAGE_SIZE == 0
  }

  /** A run of free pages makes an arena apart from all others. */
  lemma NewArena(base: nat, total: nat, free: set<nat>, arenas: seq<Arena>, s: nat, pages: nat)
    requires base > 0 && base % PAGE_SIZE == 0 && base + total * PAGE_SIZE < U64_LIMIT && s + pages <= total && pages > 0
    requires ArenasOk(arenas) && OnPages(base, arenas) && Held(base, free, arenas) && IsRun(free, s, pages)
    ensures var a := Arena(base + s * PAGE_SIZE, pages * PAGE_SIZE);
            ArenasOk(arenas + [a]) && OnPages(base, arenas + [a]) && Held(base, free - Run(s, pages), arenas + [a])
  {
    var a := Arena(base + s * PAGE_SIZE, pages * PAGE_SIZE);
    NewHeld(base, free, arenas, s, pages);
    forall k: nat | k < |arenas|
      ensures Limit(arenas[k]) <= a.base || Limit(a) <= arenas[k].base
    {
      NewApart(base, free, arenas, s, pages, k);
    }
    hide Held, IsRun;
    assert Limit(a) <= base + total * PAGE_SIZE;
  }

  lemma NewHeld(base: nat, free: set<nat>, arenas: seq<Arena>, s: nat, pages: nat)
    requires Held(base, free, arenas)
    ensures Held(base, free - Run(s, pages), arenas + [Arena(base + s * PAGE_SIZE, pages * PAGE_SIZE)])
  {
    var a := Arena(base + s * PAGE_SIZE, pages * PAGE_SIZE);
    forall k: nat, p: nat | k < |arenas + [a]| && p in free - Run(s, pages)
      ensures !InArena(base, (arenas + [a])[k], p)
    {
      if k == |arenas| {
        assert p < s || p >= s + pages;
      }
    }
  }

  lemma NewApart(base: nat, free: set<nat>, arenas: seq<Arena>, s: nat, pages: nat, k: nat)
    requires pages > 0 && k < |arenas| && ArenasOk(arenas) && OnPages(base, arenas) && Held(base, free, arenas) && IsRun(free, s, pages)
    ensures Limit(arenas[k]) <= base + s * PAGE_SIZE || base + (s + pages) * PAGE_SIZE <= arenas[k].base
  {
    var a := arenas[k];
    var f: nat := (a.base - base) / PAGE_SIZE;
    assert a.base == base + f * PAGE_SIZE && InArena(base, a, f);
    assert f !in free;
    assert s in free && !InArena(base, a, s);
  }

  class Heap {
    const pmm: Pmm
    var mem: Memory
    var head: nat
    var tail: nat
    var total: nat
    var nextArena: nat
    ghost var bs: seq<Block>
    ghost var arenas: seq<Arena>

    /** The list in memory is the block list `bs`, and that is in order. */
    ghost predicate Valid()
      reads this, pmm, pmm.bitmap
    {
      && pmm.Valid() && pmm.base > 0
      && OnPages(pmm.base, arenas) && Held(pmm.base, pmm.free, arenas)
      && ListOk() && (|arenas| > 0 ==> nextArena == |arenas| + 1)
    }

    ghost predicate ListOk()
      reads `mem, `head, `tail, `total, `bs, `arenas
    {
      HeapOk(bs, arenas) && Links() && total == TotalBytes(arenas)
    }

    /** The headers in memory form the list `bs`, from `head` to `tail`. */
    ghost predicate Links()
      reads `mem, `head, `tail, `bs
    {
      Linked(mem, bs) && Ghosts(mem, bs) && head == AddrAt(bs, 0) && tail == AddrAt(bs, |bs| - 1)
    }

    constructor (allocator: Pmm)
      requires allocator.Valid() && allocator.base > 0
      ensures Valid() && pmm == allocator && bs == [] && arenas == [] && total == 0
    {
      pmm, mem, head, tail, total, nextArena := allocator, map[], 0, 0, 0, 0;
      bs, arenas := [], [];
    }

    /** `append_block`, for the block of a new arena. */
    method Append(b: nat, size: nat, ghost a: Arena)
      requires ListOk() && ArenasOk(arenas + [a]) && a.bytes > HEADER && a.base == b && size == a.bytes - HEADER
      requires nextArena == |arenas| + 1
      modifies this
      ensures ListOk() && arenas == old(arenas) + [a] && nextArena == old(nextArena) + 1
      ensures bs == old(bs) + [Block(b, size, true, |arenas|)]
    {
      hide HeapOk, Linked, AddrsApart, Ghosts, Addrs;
      ghost var mem0 := mem;
      ghost var block := Block(b, size, true, |arenas| + 1);
      ExtendOk(bs, arenas, a);
      HeapApart(bs, arenas);
      HeapApart(bs + [block], arenas + [a]);
      LinkAppend(mem, bs, block);
      mem := mem[b := Header(MAGIC, size, true, 0, tail, nextArena)];
      if tail != 0 {
        mem := SetNext(mem, tail, b);
      } else {
        head := b;
      }
      tail := b;
      total := total + size;
      nextArena := nextArena + 1;
      MoreBytes(arenas, a);
      AppendAddrs(bs, block);
      GhostsKept(mem0, bs, mem, bs + [block]);
      bs, arenas := bs + [block], arenas + [a];
    }

    /** `extend_heap`: a new arena for at least `payload` bytes, or 0. */
    method Extend(payload: nat) returns (b: nat)
      requires Valid() && nextArena == |arenas| + 1
      modifies this, pmm, pmm.bitmap
      ensures Valid() && nextArena == |arenas| + 1
      ensures b == 0 ==> bs == old(bs) && arenas == old(arenas) && pmm.free == old(pmm.free)
                         && (PageCount(payload) == 0 || FirstRun(old(pmm.free), pmm.total, PageCount(payload), 0).None?)
      ensures b != 0 ==> |bs| == |old(bs)| + 1 && bs[..|old(bs)|] == old(bs) && bs[|old(bs)|].addr == b
                         && bs[|old(bs)|].free && bs[|old(bs)|].size >= payload && Live(bs) == Live(old(bs))
      ensures b != 0 ==> && bs[|old(bs)|].size == PageCount(payload) * PAGE_SIZE - HEADER
                         && arenas == old(arenas) + [Arena(b, PageCount(payload) * PAGE_SIZE)]
                         && FirstRun(old(pmm.free), pmm.total, PageCount(payload), 0).Some?
                         && pmm.free == old(pmm.free) - Run(FirstRun(old(pmm.free), pmm.total, PageCount(payload), 0).value, PageCount(payload))
    {
      hide HeapOk, Linked, ListOk, Held, OnPages, FirstRun, IsRun, Run, ArenasOk, Live;
      var pages := PageCount(payload);
      if pages == 0 {
        return 0;
      }
      PagesEnough(payload);
      FirstRunIsLowest(pmm.free, pmm.total, pages, 0);
      ghost var free := pmm.free;
      var addr := pmm.AllocPages(pages);
      if addr == 0 {
        return 0;
      }
      ghost var s := FirstRun(free, pmm.total, pages, 0).value;
      ListArenas();
      NewArena(pmm.base, pmm.total, free, arenas, s, pages);
      ghost var a := Arena(addr, pages * PAGE_SIZE);
      ListExtended(a);
      Append(addr, pages * PAGE_SIZE - HEADER, a);
      return addr;
    }

    /** `split_block` on block `i`. */
    method SplitBlock(b: nat, size: nat, ghost i: nat)
      requires Links() && i < |bs| && bs[i].addr == b && AddrsApart(Split(bs, i, size))
      modifies this`mem, this`tail, this`bs
      ensures Links() && bs == Split(old(bs), i, size)
    {
      hide Linked, AddrsApart, Ghosts, Addrs;
      ghost var mem0 := mem;
      HeaderAt(mem, bs, i);
      if mem[b].size < size + HEADER + MIN_SPLIT {
        return;
      }
      ghost var l, r := bs[i].(size := size), Block(b + HEADER + size, bs[i].size - size - HEADER, true, bs[i].arena);
      LinkCut(mem, bs, i, l, r);
      CutEnds(bs, i, l, r);
      var next := b + HEADER + size;
      var after := mem[b].next;
      NonZeroNext(bs, i, l, r);
      mem := mem[next := Header(MAGIC, mem[b].size - size - HEADER, true, after, b, mem[b].arena)];
      if after != 0 {
        mem := SetPrev(mem, after, next);
      } else {
        tail := next;
      }
      mem := mem[b := mem[b].(next := next, size := size)];
      CutAddrs(bs, i, l, r);
      GhostsKept(mem0, bs, mem, Cut(bs, i, l, r));
      bs := Cut(bs, i, l, r);
    }

    /** Splits block `i` and marks it used. */
    method TakeBlock(b: nat, size: nat, ghost i: nat)
      requires ListOk() && i < |bs| && bs[i].addr == b && bs[i].free && size % 16 == 0 && 0 < size <= bs[i].size
      modifies this`mem, this`tail, this`bs
      ensures ListOk() && bs == Take(old(bs), i, size)
    {
      hide HeapOk, Linked, AddrsApart, Split, Ghosts, Addrs;
      TakeOk(bs, arenas, i, size);
      SplitApart(bs, arenas, i, size);
      SplitBlock(b, size, i);
      LinkMark(mem, bs, i, false);
      MarkEnds(bs, i, false);
      MarkAddrs(bs, i, false);
      AddrIn(bs, i);
      GhostsKept(mem, bs, mem[b := mem[b].(free := false)], bs[i := bs[i].(free := false)]);
      mem := mem[b := mem[b].(free := false)];
      bs := bs[i := bs[i].(free := false)];
    }

    /** `coalesce_next` on block `i`. */
    method CoalesceNext(b: nat, ghost i: nat)
      requires Links() && i < |bs| && bs[i].addr == b && AddrsApart(bs)
      modifies this`mem, this`tail, this`bs
      ensures Links() && bs == Merge(old(bs), i)
    {
      hide Linked, AddrsApart, Ghosts, Addrs;
      ghost var mem0 := mem;
      HeaderAt(mem, bs, i);
      NonZero(bs, i + 1);
      var next := mem[b].next;
      if next == 0 {
        return;
      }
      HeaderAt(mem, bs, i + 1);
      if !(mem[next].free && mem[b].arena == mem[next].arena && b + HEADER + mem[b].size == next) {
        return;
      }
      ghost var a := bs[i].(size := bs[i].size + HEADER + bs[i + 1].size);
      LinkPaste(mem, bs, i, a);
      PasteEnds(bs, i, a);
      NonZero(bs, i + 2);
      var after := mem[next].next;
      mem := mem[b := mem[b].(size := mem[b].size + HEADER + mem[next].size, next := after)];
      if after != 0 {
        mem := SetPrev(mem, after, b);
      } else {
        tail := b;
      }
      PasteAddrs(bs, i, a);
      GhostsKept(mem0, bs, mem, Paste(bs, i, a));
      bs := Paste(bs, i, a);
    }

    /** `kheap_init`: a first arena, unless there is one. */
    method Init()
      requires Valid()
      modifies this, pmm, pmm.bitmap
      ensures Valid() && nextArena == |arenas| + 1 && Live(bs) == Live(old(bs))
      ensures |old(bs)| > 0 ==> bs == old(bs) && arenas == old(arenas) && pmm.free == old(pmm.free)
      ensures |old(bs)| == 0 ==> if FirstRun(old(pmm.free), pmm.total, 1, 0).None? then bs == [] && pmm.free == old(pmm.free)
                                 else |bs| == 1 && bs[0].size == PAGE_SIZE - HEADER
    {
      hide ListOk, Held, OnPages, Live, FirstRun, Run, PageCount, Pmm.Valid;
      HeadIs();
      OnePage();
      if head != 0 {
        return;
      }
      nextArena := 1;
      var b := Extend(1);
    }

    /** There is a first block exactly when there are blocks, and blocks exactly when there are arenas. */
    lemma HeadIs()
      requires ListOk()
      ensures (head == 0 <==> bs == []) && (bs == [] <==> arenas == [])
    {
      hide HeapOk, Linked, Ghosts;
      NonZeroHead(bs, arenas);
    }

    /** No block can hold `size` bytes, and the page allocator has no run of pages for them. */
    ghost predicate NoSpace(size: nat)
      reads this, pmm
    {
      && FirstFit(bs, size, 0).None?
      && (PageCount(size) == 0 || FirstRun(pmm.free, pmm.total, PageCount(size), 0).None?)
    }

    /** Takes the free block `i` for `size` bytes. */
    method Hand(block: nat, size: nat, ghost i: nat) returns (ptr: nat, ghost b: Block)
      requires Valid() && i < |bs| && bs[i].addr == block && bs[i].free && size % 16 == 0 && 0 < size <= bs[i].size
      modifies this`mem, this`tail, this`bs
      ensures Valid() && Live(bs) == Live(old(bs)) + {b} && b !in Live(old(bs))
      ensures ptr == b.addr + HEADER && ptr % ALIGN == 0 && b.size >= size
      ensures bs == Take(old(bs), i, size) && size <= b.size < size + HEADER + MIN_SPLIT && b.addr == old(bs)[i].addr
    {
      hide HeapOk, Linked, Held, OnPages, Take, Live, Pmm.Valid;
      b := Take(bs, i, size)[i];
      TakenSize(bs, i, size);
      TakeOk(bs, arenas, i, size);
      BlockAligned(bs, arenas, i);
      TakeBlock(block, size, i);
      return block + HEADER, b;
    }

    /**
     * A block of at least `size` bytes and little more, 16-byte aligned, apart from every block in use; 0 only for lack of
     * space. It is the first block that fits; only when there is none does the heap grow, by as few pages as hold it.
     */
    method Malloc(size: nat) returns (ptr: nat, ghost b: Block)
      requires Valid() && size < U64_LIMIT
      modifies this, pmm, pmm.bitmap
      ensures Valid()
      ensures ptr != 0 ==> && Live(bs) == Live(old(bs)) + {b} && b !in Live(old(bs))
                           && ptr == b.addr + HEADER && ptr % ALIGN == 0 && size <= b.size < size + 16 + HEADER + MIN_SPLIT
      ensures size == 0 || size >= U64_LIMIT - (ALIGN - 1) ==> ptr == 0 && bs == old(bs) && pmm.free == old(pmm.free)
      ensures 0 < size < U64_LIMIT - (ALIGN - 1) ==>
                match FirstFit(old(bs), AlignUp(size), 0)
                case Some(i) => ptr == old(bs)[i].addr + HEADER && bs == Take(old(bs), i, AlignUp(size))
                                && arenas == old(arenas) && pmm.free == old(pmm.free)
                case None =>
                  |old(bs)| > 0 && ptr != 0 ==>
                    && arenas == old(arenas) + [Arena(ptr - HEADER, PageCount(AlignUp(size)) * PAGE_SIZE)]
                    && FirstRun(old(pmm.free), pmm.total, PageCount(AlignUp(size)), 0).Some?
                    && pmm.free == old(pmm.free) - Run(FirstRun(old(pmm.free), pmm.total, PageCount(AlignUp(size)), 0).value, PageCount(AlignUp(size)))
      ensures ptr == 0 ==> Live(bs) == Live(old(bs)) && (size == 0 || size >= U64_LIMIT - (ALIGN - 1) || NoSpace(AlignUp(size)))
    {
      hide HeapOk, Linked, Held, OnPages, Take, FirstFit, Live, AlignUp, PageCount, FirstRun, Pmm.Valid;
      b := Block(0, 0, true, 0);
      if size == 0 || size > U64_LIMIT - 1 - (ALIGN - 1) {
        return 0, b;
      }
      var aligned := AlignUp(size);
      AlignUpOk(size);
      NonZeroHead(bs, arenas);
      NothingFits(aligned);
      if head == 0 {
        Init();
      }
      var block := head;
      ghost var i := 0;
      ghost var bs0 := bs;
      while block != 0
        invariant Valid() && nextArena == |arenas| + 1 && bs == bs0 && Live(bs) == Live(old(bs)) && 0 <= i <= |bs| && block == AddrAt(bs, i)
        invariant |old(bs)| > 0 ==> bs == old(bs) && arenas == old(arenas) && pmm.free == old(pmm.free)
        invariant FirstFit(bs, aligned, 0) == FirstFit(bs, aligned, i)
        decreases |bs| - i
      {
        Walk(mem, bs, arenas, aligned, i);
        if mem[block].free && mem[block].size >= aligned {
          ptr, b := Hand(block, aligned, i);
          return;
        }
        block := mem[block].next;
        i := i + 1;
      }
      WalkEnd(bs, arenas, aligned, i);
      ghost var n := |bs|;
      block := Extend(aligned);
      if block == 0 {
        return 0, b;
      }
      ptr, b := Hand(block, aligned, n);
    }

    /**
     * Releases the block behind `ptr` and merges it with free neighbours. Anything else is left alone: null, a block that is
     * free, a header that a merge left behind, and an address where `seen` is not a header.
     */
    method Free(ptr: nat, seen: Header)
      requires Valid() && (ptr < HEADER || ptr - HEADER !in mem ==> seen.magic != MAGIC)
      modifies this`mem, this`tail, this`bs
      ensures Valid()
      ensures (forall i: nat :: i < |old(bs)| ==> !InUse(old(bs), i, ptr)) ==> bs == old(bs) && mem == old(mem)
      ensures forall i: nat :: i < |old(bs)| && InUse(old(bs), i, ptr) ==>
                bs == Release(old(bs), i) && Live(bs) == Live(old(bs)) - {old(bs)[i]}
    {
      hide HeapOk, Linked, Held, OnPages, Live, AddrsApart, Merge, Ghosts, Addrs, Release;
      UsedHeader(mem, bs, ptr);
      if ptr == 0 {
        return;
      }
      var header := if ptr >= HEADER && ptr - HEADER in mem then mem[ptr - HEADER] else seen;
      if header.magic != MAGIC {
        return;
      }
      if header.free {
        return;
      }
      ghost var i := UsedBlock(mem, bs, ptr - HEADER);
      OneInUse(bs, arenas, i, ptr);
      FreeBlock(ptr - HEADER, i);
    }

    /** The part of `kfree` that follows its checks. */
    method FreeBlock(block: nat, ghost i: nat)
      requires Valid() && i < |bs| && block == bs[i].addr && !bs[i].free
      modifies this`mem, this`tail, this`bs
      ensures Valid() && bs == Release(old(bs), i) && Live(bs) == Live(old(bs)) - {old(bs)[i]}
    {
      hide HeapOk, Linked, Held, OnPages, Live, AddrsApart, Merge, Ghosts, Addrs;
      HeaderAt(mem, bs, i);
      ReleaseOk(bs, arenas, i);
      ReleaseApart(bs, arenas, i);
      LinkMark(mem, bs, i, true);
      MarkEnds(bs, i, true);
      MarkAddrs(bs, i, true);
      GhostsKept(mem, bs, mem[block := mem[block].(free := true)], bs[i := bs[i].(free := true)]);
      mem := mem[block := mem[block].(free := true)];
      bs := bs[i := bs[i].(free := true)];
      CoalesceNext(block, i);
      HeaderAt(mem, bs, i);
      NonZeroPrev(bs, i);
      var prev := mem[block].prev;
      if prev != 0 {
        HeaderAt(mem, bs, i - 1);
        if mem[prev].free {
          CoalesceNext(prev, i - 1);
        }
      }
    }

    method CountFree() returns (n: nat)
      requires Valid()
      ensures n == FreeBytes(bs)
    {
      hide HeapOk, Linked, Held, OnPages;
      n := 0;
      NonZeroHead(bs, arenas);
      var block := head;
      ghost var i := 0;
      assert bs[0..] == bs;
      while block != 0
        invariant 0 <= i <= |bs| && block == AddrAt(bs, i) && n + FreeBytes(bs[i..]) == FreeBytes(bs)
        decreases |bs| - i
      {
        Walk(mem, bs, arenas, 0, i);
        assert bs[i..][1..] == bs[i + 1..];
        if mem[block].free {
          n := n + mem[block].size;
        }
        block := mem[block].next;
        i := i + 1;
      }
      WalkEnd(bs, arenas, 0, i);
    }

    lemma ListArenas()
      requires ListOk()
      ensures ArenasOk(arenas)
    {
    }

    lemma ListExtended(a: Arena)
      requires ListOk() && ArenasOk(arenas + [a]) && a.bytes > HEADER
      ensures Live(bs + [Block(a.base, a.bytes - HEADER, true, |arenas| + 1)]) == Live(bs)
    {
      ExtendOk(bs, arenas, a);
    }
  }

  lemma HeapApart(bs: seq<Block>, arenas: seq<Arena>)
    requires HeapOk(bs, arenas)
    ensures AddrsApart(bs)
    ensures |bs| > 0 ==> AddrAt(bs, 0) > 0 && AddrAt(bs, |bs| - 1) > 0
  {
    AllApart(bs, arenas);
    assert |bs| > 0 ==> Other(bs, 0, 0) && Other(bs, |bs| - 1, 0);
  }

  lemma MoreBytes(arenas: seq<Arena>, a: Arena)
    ensures TotalBytes(arenas + [a]) == TotalBytes(arenas) + a.bytes - HEADER
  {
    assert (arenas + [a])[..|arenas|] == arenas;
  }

  lemma HeaderAt(mem: Memory, bs: seq<Block>, i: nat)
    requires Linked(mem, bs) && i < |bs|
    ensures bs[i].addr in mem && mem[bs[i].addr] == NodeAt(bs, i)
  {
    assert LinkedAt(mem, bs, i);
  }

  lemma NonZero(bs: seq<Block>, i: nat)
    requires AddrsApart(bs)
    ensures AddrAt(bs, i) != 0 <==> i < |bs|
  {
    assert i < |bs| ==> Other(bs, i, i);
  }

  lemma NonZeroNext(bs: seq<Block>, i: nat, l: Block, r: Block)
    requires i < |bs| && AddrsApart(Cut(bs, i, l, r))
    ensures AddrAt(bs, i + 1) != 0 <==> i + 1 < |bs|
  {
    if i + 1 < |bs| {
      assert Cut(bs, i, l, r)[i + 2] == bs[i + 1] && Other(Cut(bs, i, l, r), i + 2, i);
    }
  }

  lemma CutEnds(bs: seq<Block>, i: nat, l: Block, r: Block)
    requires i < |bs| && l.addr == bs[i].addr
    ensures var c := Cut(bs, i, l, r);
            AddrAt(c, 0) == AddrAt(bs, 0) && AddrAt(c, |c| - 1) == if i + 1 < |bs| then AddrAt(bs, |bs| - 1) else r.addr
  {
  }

  lemma PasteEnds(bs: seq<Block>, i: nat, a: Block)
    requires i + 1 < |bs| && a.addr == bs[i].addr
    ensures var c := Paste(bs, i, a);
            AddrAt(c, 0) == AddrAt(bs, 0) && AddrAt(c, |c| - 1) == if i + 2 < |bs| then AddrAt(bs, |bs| - 1) else a.addr
  {
  }

  lemma MarkEnds(bs: seq<Block>, i: nat, free: bool)
    requires i < |bs|
    ensures var c := bs[i := bs[i].(free := free)]; AddrAt(c, 0) == AddrAt(bs, 0) && AddrAt(c, |c| - 1) == AddrAt(bs, |bs| - 1)
  {
  }

  lemma SplitApart(bs: seq<Block>, arenas: seq<Arena>, i: nat, size: nat)
    requires HeapOk(bs, arenas) && i < |bs| && size % 16 == 0 && 0 < size <= bs[i].size
    ensures AddrsApart(Split(bs, i, size)) && i < |Split(bs, i, size)| && Split(bs, i, size)[i].addr == bs[i].addr
  {
    SplitOk(bs, arenas, i, size);
    hide Split, Tiled, ArenasOk;
    AllApart(Split(bs, i, size), arenas);
  }

  lemma TakenSize(bs: seq<Block>, i: nat, size: nat)
    requires i < |bs| && size <= bs[i].size
    ensures size <= Take(bs, i, size)[i].size < size + HEADER + MIN_SPLIT && Take(bs, i, size)[i].addr == bs[i].addr
  {
  }

  lemma OnePage()
    ensures PageCount(1) == 1
  {
  }

  lemma NothingFits(size: nat)
    ensures FirstFit([], size, 0) == None
  {
  }

  lemma NonZeroHead(bs: seq<Block>, arenas: seq<Arena>)
    requires HeapOk(bs, arenas)
    ensures AddrAt(bs, 0) == 0 <==> |bs| == 0
    ensures |bs| == 0 <==> |arenas| == 0
  {
    HeapApart(bs, arenas);
  }

  lemma Walk(mem: Memory, bs: seq<Block>, arenas: seq<Arena>, size: nat, i: nat)
    requires HeapOk(bs, arenas) && Linked(mem, bs) && AddrAt(bs, i) != 0
    ensures i < |bs| && bs[i].addr in mem && mem[bs[i].addr] == NodeAt(bs, i)
    ensures FirstFit(bs, size, i) == if bs[i].free && bs[i].size >= size then Some(i) else FirstFit(bs, size, i + 1)
  {
    HeaderAt(mem, bs, i);
  }

  lemma WalkEnd(bs: seq<Block>, arenas: seq<Arena>, size: nat, i: nat)
    requires HeapOk(bs, arenas) && AddrAt(bs, i) == 0 && i <= |bs|
    ensures i == |bs| && FirstFit(bs, size, i) == None
  {
    HeapApart(bs, arenas);
    NonZero(bs, i);
  }

  lemma BlockAligned(bs: seq<Block>, arenas: seq<Arena>, i: nat)
    requires HeapOk(bs, arenas) && i < |bs|
    ensures (bs[i].addr + HEADER) % ALIGN == 0
  {
    hide HeapOk;
    BlockIs(bs, arenas, i);
  }

  lemma BlockIs(bs: seq<Block>, arenas: seq<Arena>, i: nat)
    requires HeapOk(bs, arenas) && i < |bs|
    ensures BlockOk(bs[i], arenas)
  {
    hide ArenasOk, Follows, Coalesced, BlockOk;
  }

  lemma NonZeroPrev(bs: seq<Block>, i: nat)
    requires AddrsApart(bs) && i < |bs|
    ensures AddrAt(bs, i - 1) != 0 <==> i > 0
  {
    assert i > 0 ==> Other(bs, i - 1, i);
  }

  /** The lists met while releasing block `i` have distinct addresses. */
  lemma ReleaseApart(bs: seq<Block>, arenas: seq<Arena>, i: nat)
    requires HeapOk(bs, arenas) && i < |bs|
    ensures AddrsApart(bs) && AddrsApart(bs[i := bs[i].(free := true)]) && AddrsApart(Merge(bs[i := bs[i].(free := true)], i))
    ensures i < |Merge(bs[i := bs[i].(free := true)], i)| && Merge(bs[i := bs[i].(free := true)], i)[i].addr == bs[i].addr
  {
    var bs0 := bs[i := bs[i].(free := true)];
    MarkTiled(bs, arenas, i, true);
    MergeOk(bs0, arenas, i);
    hide Tiled, ArenasOk;
    AllApart(bs, arenas);
    AllApart(bs0, arenas);
    AllApart(Merge(bs0, i), arenas);
  }

  // ----- Runs

  /** A request: allocate, or free the `k`-th pointer still held. */
  datatype Request = Alloc(size: nat) | Drop(k: nat)

  /** The pointer `kmalloc` returns for a block. */
  function Pointer(b: Block): nat {
    b.addr + HEADER
  }

  /** The pointers held are the payloads of the blocks in use, each held once. */
  ghost predicate Holds(live: set<Block>, held: seq<nat>) {
    && (forall b :: b in live ==> Pointer(b) in held)
    && (forall p :: p in held ==> HeldBlock(live, p))
    && Once(held)
  }

  ghost predicate Once(held: seq<nat>) {
    forall j, k :: 0 <= j < k < |held| ==> held[j] != held[k]
  }

  ghost predicate HeldBlock(live: set<Block>, p: nat) {
    exists b :: b in live && Pointer(b) == p
  }

  /** Different blocks in use have different pointers. */
  ghost predicate Told(live: set<Block>) {
    forall b, c :: b in live && c in live && Pointer(b) == Pointer(c) ==> b == c
  }

  /** Block `i` is in use and `ptr` is its payload. */
  predicate InUse(bs: seq<Block>, i: nat, ptr: nat)
    requires i < |bs|
  {
    ptr == bs[i].addr + HEADER && !bs[i].free
  }

  /** The header of a block in use is there and says so. */
  lemma UsedHeader(mem: Memory, bs: seq<Block>, ptr: nat)
    requires Linked(mem, bs)
    ensures forall i: nat :: i < |bs| && InUse(bs, i, ptr) ==>
              ptr >= HEADER && ptr - HEADER in mem && mem[ptr - HEADER].magic == MAGIC && !mem[ptr - HEADER].free
  {
    forall i: nat | i < |bs| && InUse(bs, i, ptr)
      ensures ptr >= HEADER && ptr - HEADER in mem && mem[ptr - HEADER].magic == MAGIC && !mem[ptr - HEADER].free
    {
      assert LinkedAt(mem, bs, i);
    }
  }

  /** A header that says it is in use is that of a block in use. */
  lemma UsedBlock(mem: Memory, bs: seq<Block>, a: nat) returns (i: nat)
    requires Linked(mem, bs) && Ghosts(mem, bs) && a in mem && !mem[a].free
    ensures i < |bs| && InUse(bs, i, a + HEADER)
  {
    assert a in Addrs(bs);
    i :| 0 <= i < |bs| && bs[i].addr == a;
    assert LinkedAt(mem, bs, i);
  }

  lemma OneInUse(bs: seq<Block>, arenas: seq<Arena>, i: nat, ptr: nat)
    requires HeapOk(bs, arenas) && i < |bs| && InUse(bs, i, ptr)
    ensures forall j: nat :: j < |bs| && InUse(bs, j, ptr) ==> j == i
  {
    forall j: nat | j < |bs| && InUse(bs, j, ptr)
      ensures j == i
    {
      Apart(bs, arenas, i, j);
    }
  }

  /** Payloads of different pointers held do not overlap, nor any header. */
  lemma HeldApart(bs: seq<Block>, arenas: seq<Arena>, b: Block, c: Block)
    requires HeapOk(bs, arenas) && b in Live(bs) && c in bs && b != c
    ensures End(b) <= c.addr || End(c) <= b.addr
  {
    var i :| 0 <= i < |bs| && bs[i] == b;
    var j :| 0 <= j < |bs| && bs[j] == c;
    hide ArenasOk, Tiled;
    if i < j {
      BlocksDisjoint(bs, arenas, i, j);
    } else {
      BlocksDisjoint(bs, arenas, j, i);
    }
  }

  lemma LiveTold(bs: seq<Block>, arenas: seq<Arena>)
    requires HeapOk(bs, arenas)
    ensures Told(Live(bs))
  {
    forall b, c | b in Live(bs) && c in Live(bs) && Pointer(b) == Pointer(c)
      ensures b == c
    {
      if b != c {
        HeldApart(bs, arenas, b, c);
      }
    }
  }

  lemma LiveAt(bs: seq<Block>, i: nat)
    requires i < |bs|
    ensures !bs[i].free ==> bs[i] in Live(bs)
  {
  }

  /** A pointer that was freed is behind no block in use, so that freeing it again changes nothing. */
  lemma FreedTwice(bs: seq<Block>, arenas: seq<Arena>, i: nat, ptr: nat)
    requires HeapOk(bs, arenas) && i < |bs| && InUse(bs, i, ptr)
    ensures forall j: nat :: j < |Release(bs, i)| ==> !InUse(Release(bs, i), j, ptr)
  {
    hide HeapOk, Release, Live;
    ReleaseOk(bs, arenas, i);
    LiveTold(bs, arenas);
    var bs' := Release(bs, i);
    LiveAt(bs, i);
    forall j: nat | j < |bs'|
      ensures !InUse(bs', j, ptr)
    {
      LiveAt(bs', j);
    }
  }

  lemma HoldsMore(live: set<Block>, held: seq<nat>, b: Block)
    requires Holds(live, held) && Told(live + {b}) && b !in live
    ensures Holds(live + {b}, held + [Pointer(b)])
  {
    var live', held' := live + {b}, held + [Pointer(b)];
    hide Pointer;
    forall p | p in held
      ensures HeldBlock(live', p) && p != Pointer(b)
    {
      assert HeldBlock(live, p);
      var c :| c in live && Pointer(c) == p;
      assert c in live' && b in live';
    }
    assert b in live' && HeldBlock(live', Pointer(b));
  }

  lemma Without(held: seq<nat>, k: nat)
    requires Once(held) && k < |held|
    ensures Once(held[..k] + held[k + 1..])
    ensures forall p :: p in held[..k] + held[k + 1..] <==> p in held && p != held[k]
  {
    var held' := held[..k] + held[k + 1..];
    forall p
      ensures p in held' <==> p in held && p != held[k]
    {
      if p in held' {
        var j :| 0 <= j < |held'| && held'[j] == p;
        assert held[if j < k then j else j + 1] == p;
      }
      if p in held && p != held[k] {
        var j :| 0 <= j < |held| && held[j] == p;
        assert held'[if j < k then j else j - 1] == p;
      }
    }
  }

  lemma HoldsLess(live: set<Block>, held: seq<nat>, held': seq<nat>, b: Block)
    requires Holds(live, held) && Told(live) && b in live
    requires Once(held') && forall p :: p in held' <==> p in held && p != Pointer(b)
    ensures Holds(live - {b}, held')
  {
    hide Once, Pointer;
    var live' := live - {b};
    forall p | p in held'
      ensures HeldBlock(live', p)
    {
      assert HeldBlock(live, p);
      var c :| c in live && Pointer(c) == p;
      assert c in live';
    }
    forall c | c in live'
      ensures Pointer(c) in held'
    {
      assert c in live && b in live;
    }
  }

  /** Any run of requests keeps the heap in order; when all is dropped again, every arena is one free block. */
  method Serve(heap: Heap, requests: seq<Request>) returns (held: seq<nat>)
    requires heap.Valid() && Live(heap.bs) == {} && forall i :: 0 <= i < |requests| && requests[i].Alloc? ==> requests[i].size < U64_LIMIT
    modifies heap, heap.pmm, heap.pmm.bitmap
    ensures heap.Valid() && Holds(Live(heap.bs), held)
    ensures held == [] ==> |heap.bs| == |heap.arenas| && FreeBytes(heap.bs) == heap.total
  {
    hide HeapOk, Linked, Held, OnPages, Live, Pmm.Valid, Release, AddrAt, FirstFit, PageCount;
    held := [];
    for n := 0 to |requests|
      invariant heap.Valid() && Holds(Live(heap.bs), held)
    {
      match requests[n]
      case Alloc(size) =>
        ghost var bs := heap.bs;
        var ptr, b := heap.Malloc(size);
        if ptr != 0 {
          LiveTold(heap.bs, heap.arenas);
          HoldsMore(Live(bs), held, b);
          held := held + [ptr];
        }
      case Drop(k) =>
        if k < |held| {
          ghost var bs := heap.bs;
          ghost var i, b := IndexOf(bs, held[k]);
          assert InUse(bs, i, held[k]);
          UsedHeader(heap.mem, bs, held[k]);
          heap.Free(held[k], Header(0, 0, false, 0, 0, 0));
          LiveTold(bs, heap.arenas);
          Without(held, k);
          HoldsLess(Live(bs), held, held[..k] + held[k + 1..], b);
          held := held[..k] + held[k + 1..];
        }
    }
    if held == [] {
      NothingHeld(Live(heap.bs));
      AllFreed(heap.bs, heap.arenas);
    }
  }

  lemma NothingHeld(live: set<Block>)
    requires Holds(live, [])
    ensures live == {}
  {
  }

  lemma IndexOf(bs: seq<Block>, p: nat) returns (i: nat, b: Block)
    requires HeldBlock(Live(bs), p)
    ensures i < |bs| && bs[i] == b && b in Live(bs) && Pointer(b) == p && !b.free
  {
    b :| b in Live(bs) && Pointer(b) == p;
    i :| 0 <= i < |bs| && bs[i] == b;
  }
}
