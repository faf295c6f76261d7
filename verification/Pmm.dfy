/** The physical page allocator: a fixed bitmap, a free counter and first-fit scans. */
module PhysicalPages {
  import opened Basics

  const PAGE_SIZE: nat := 4096
  const MAX_PAGES: nat := 32768
  const WORDS: nat := 512

  /** A 64-bit bitmap word, bit by bit from the least significant. */
  type Word = w: seq<bool> | |w| == 64 witness seq(64, _ => false)

  /** Pages `start`, ..., `start + count - 1`. */
  function Run(start: nat, count: nat): set<nat> {
    set p: nat | p < start + count && FromStart(start, p)
  }

  predicate FromStart(start: nat, p: nat) {
    start <= p
  }

  /** The pages left when those from `start` up to but not including `end` are taken. */
  function Taken(free: set<nat>, start: nat, end: nat): set<nat> {
    set p | p in free && !(start <= p < end)
  }

  lemma TakenStep(free: set<nat>, start: nat, end: nat)
    requires start <= end
    ensures Taken(free, start, end) - {end} == Taken(free, start, end + 1)
  {
  }

  lemma TakenNone(free: set<nat>, start: nat, end: nat)
    requires end <= start
    ensures Taken(free, start, end) == free
  {
  }

  predicate IsRun(free: set<nat>, start: nat, count: nat) {
    forall p :: start <= p < start + count ==> p in free
  }

  /** The simple meaning of first fit: try every start page from `from` up. */
  function FirstRun(free: set<nat>, total: nat, count: nat, from: nat): Option<nat>
    decreases total - from
  {
    if from + count > total then None
    else if IsRun(free, from, count) then Some(from)
    else if from == total then None
    else FirstRun(free, total, count, from + 1)
  }

  /** First fit finds the lowest run, and fails only when there is none. */
  lemma {:induction false} FirstRunIsLowest(free: set<nat>, total: nat, count: nat, from: nat)
    requires forall p :: p in free ==> p < total
    requires 0 < count
    ensures match FirstRun(free, total, count, from)
            case Some(s) =>
              && from <= s && s + count <= total && IsRun(free, s, count)
              && forall q :: from <= q < s ==> !IsRun(free, q, count)
            case None => forall q :: from <= q ==> !IsRun(free, q, count)
    decreases total - from
  {
    if from + count > total {
      forall q | from <= q
        ensures !IsRun(free, q, count)
      {
        assert q + count - 1 !in free;
      }
    } else if !IsRun(free, from, count) && from < total {
      FirstRunIsLowest(free, total, count, from + 1);
    }
  }

  /** Page `p` of an allocator at `base` shares a byte with `[start, start + size)`. */
  predicate PageMeets(base: nat, p: nat, start: nat, size: nat) {
    base + p * PAGE_SIZE < start + size && start < base + (p + 1) * PAGE_SIZE
  }

  function AddSaturated(a: nat, b: nat): nat {
    if a + b >= U64_LIMIT then U64_LIMIT - 1 else a + b
  }

  function AlignDown(v: nat): nat {
    v - v % PAGE_SIZE
  }

  function AlignUpSaturated(v: nat): nat {
    if v % PAGE_SIZE == 0 then v
    else if v > U64_LIMIT - PAGE_SIZE then U64_LIMIT - 1
    else v - v % PAGE_SIZE + PAGE_SIZE
  }

  lemma FirstMet(base: nat, p: nat, start: nat)
    requires base % PAGE_SIZE == 0 && base <= start
    ensures start < base + (p + 1) * PAGE_SIZE <==> (AlignDown(start) - base) / PAGE_SIZE <= p
  {
    var b, s := base / 4096, start / 4096;
    assert (AlignDown(start) - base) / 4096 == s - b;
  }

  lemma LastMet(base: nat, p: nat, end: nat)
    requires base % PAGE_SIZE == 0 && base < end <= U64_LIMIT - PAGE_SIZE
    ensures base + p * PAGE_SIZE < end <==> p < (AlignUpSaturated(end) - base) / PAGE_SIZE
  {
    var b, e := base / 4096, (end + 4095) / 4096;
    assert AlignUpSaturated(end) == 4096 * e;
    assert (AlignUpSaturated(end) - base) / 4096 == e - b;
  }

  class Pmm {
    const bitmap: array<Word>
    var base: nat
    var total: nat
    var freeCount: nat
    /** The clear bits of the bitmap. */
    ghost var free: set<nat>

    predicate Used(p: nat)
      requires bitmap.Length == WORDS && p < MAX_PAGES
      reads this, bitmap
    {
      bitmap[p / 64][p % 64]
    }

    /** The free counter is the number of clear bits, and only managed pages are clear. */
    ghost predicate Valid()
      reads this, bitmap
    {
      && bitmap.Length == WORDS
      && total <= MAX_PAGES
      && base % PAGE_SIZE == 0
      && base + total * PAGE_SIZE < U64_LIMIT
      && freeCount == |free|
      && (forall p :: p in free ==> p < total)
      && (forall p: nat {:trigger Used(p)} :: p < MAX_PAGES ==> (p in free <==> !Used(p)))
    }

    /** The page index behind a physical address, if the allocator manages it. */
    function PageOf(paddr: nat): Option<nat>
      reads this
    {
      if paddr < base || paddr % PAGE_SIZE != 0 || (paddr - base) / PAGE_SIZE >= total then None
      else Some((paddr - base) / PAGE_SIZE)
    }

    constructor (memBase: nat, memSize: nat)
      requires memBase % PAGE_SIZE == 0
      requires memBase + memSize < U64_LIMIT
      ensures Valid() && fresh(bitmap)
      ensures base == memBase
      ensures total == if memSize / PAGE_SIZE > MAX_PAGES then MAX_PAGES else memSize / PAGE_SIZE
      ensures free == Run(0, total) - (if memBase == 0 then {0} else {})
    {
      bitmap := new Word[WORDS];
      base := memBase;
      total := if memSize / PAGE_SIZE > MAX_PAGES then MAX_PAGES else memSize / PAGE_SIZE;
      freeCount := 0;
      free := {};
      new;
      for i := 0 to WORDS
        modifies bitmap
        invariant forall k :: 0 <= k < i ==> bitmap[k] == seq(64, _ => true)
      {
        bitmap[i] := seq(64, _ => true);
      }
      assert forall p: nat :: p < MAX_PAGES ==> Used(p);
      for i := 0 to total
        invariant Valid() && free == Run(0, i)
        invariant base == memBase && total <= MAX_PAGES
        invariant total == if memSize / PAGE_SIZE > MAX_PAGES then MAX_PAGES else memSize / PAGE_SIZE
      {
        SetFree(i);
      }
      if base == 0 && total > 0 {
        SetUsed(0);
      }
    }

    method SetUsed(page: nat)
      requires Valid() && page < MAX_PAGES
      modifies this`freeCount, this`free, bitmap
      ensures Valid() && free == old(free) - {page}
    {
      var word, bit := page / 64, page % 64;
      assert Used(page) == bitmap[word][bit];
      if !bitmap[word][bit] {
        bitmap[word] := bitmap[word][bit := true];
        freeCount := freeCount - 1;
        free := free - {page};
        assert forall p: nat :: p < MAX_PAGES ==> Used(p) == (p == page || old(Used(p)));
      }
    }

    method SetFree(page: nat)
      requires Valid() && page < total
      modifies this`freeCount, this`free, bitmap
      ensures Valid() && free == old(free) + {page}
    {
      var word, bit := page / 64, page % 64;
      assert Used(page) == bitmap[word][bit];
      if bitmap[word][bit] {
        bitmap[word] := bitmap[word][bit := false];
        freeCount := freeCount + 1;
        free := free + {page};
        assert forall p: nat :: p < MAX_PAGES ==> Used(p) == (p != page && old(Used(p)));
      }
    }

    /** The marking loop shared by range reservation and run allocation. */
    method MarkUsed(from: nat, to: nat)
      requires Valid() && to <= MAX_PAGES
      modifies this`freeCount, this`free, bitmap
      ensures Valid()
      ensures free == Taken(old(free), from, to)
    {
      hide Taken, Valid;
      if to <= from {
        TakenNone(free, from, to);
      }
      TakenNone(free, from, from);
      var page := from;
      while page < to
        invariant from <= page && (page <= to || page == from)
        invariant Valid()
        invariant free == Taken(old(free), from, page)
      {
        TakenStep(old(free), from, page);
        SetUsed(page);
        page := page + 1;
      }
    }

    /** Reserves exactly the managed pages that share a byte with the range. */
    method ReserveRange(start: nat, size: nat)
      requires Valid() && start < U64_LIMIT && size < U64_LIMIT
      modifies this`freeCount, this`free, bitmap
      ensures Valid()
      ensures free == set p | p in old(free) && !(size > 0 && PageMeets(base, p, start, size))
    {
      if size == 0 || total == 0 {
        return;
      }
      var end := AddSaturated(start, size);
      var limit := AddSaturated(base, total * PAGE_SIZE);
      if end <= base || start >= limit {
        assert forall p: nat :: p < total ==> !PageMeets(base, p, start, size);
        return;
      }
      var pageStart := if start < base then 0 else (AlignDown(start) - base) / PAGE_SIZE;
      var pageEnd := total;
      if end < limit {
        pageEnd := (AlignUpSaturated(end) - base) / PAGE_SIZE;
        if pageEnd > total {
          pageEnd := total;
        }
      }
      forall p: nat | p < total
        ensures PageMeets(base, p, start, size) <==> pageStart <= p < pageEnd
      {
        if start >= base {
          FirstMet(base, p, start);
        }
        if end < limit {
          LastMet(base, p, end);
        }
      }
      MarkUsed(pageStart, pageEnd);
    }

    /** The lowest free page, or 0 when there is none. */
    method AllocPage() returns (addr: nat)
      requires Valid()
      modifies this`freeCount, this`free, bitmap
      ensures Valid()
      ensures match FirstRun(old(free), total, 1, 0)
              case Some(p) => addr == base + p * PAGE_SIZE && free == old(free) - {p}
              case None => addr == 0 && free == old(free)
    {
      FirstRunIsLowest(free, total, 1, 0);
      assert forall q: nat :: IsRun(old(free), q, 1) ==> q in old(free);
      for page := 0 to total
        invariant forall q :: 0 <= q < page ==> q !in free
        invariant Valid() && free == old(free)
      {
        var word, bit := page / 64, page % 64;
        assert Used(page) == bitmap[word][bit];
        if !bitmap[word][bit] {
          assert IsRun(free, page, 1);
          SetUsed(page);
          return base + page * PAGE_SIZE;
        }
      }
      return 0;
    }

    /** The lowest run of `count` free pages, or 0 when there is none. */
    method AllocPages(count: nat) returns (addr: nat)
      requires Valid()
      modifies this`freeCount, this`free, bitmap
      ensures Valid()
      ensures count == 0 ==> addr == 0 && free == old(free)
      ensures count > 0 ==>
                match FirstRun(old(free), total, count, 0)
                case Some(s) => addr == base + s * PAGE_SIZE && free == old(free) - Run(s, count)
                case None => addr == 0 && free == old(free)
    {
      if count == 0 || count > total {
        return 0;
      }
      FirstRunIsLowest(free, total, count, 0);
      var runStart, runCount := 0, 0;
      for page := 0 to total
        invariant Valid() && free == old(free)
        invariant runCount < count && runCount <= page
        invariant runCount > 0 ==> runStart == page - runCount
        invariant forall q :: page - runCount <= q < page ==> q in free
        invariant forall q :: 0 <= q < page - runCount ==> !IsRun(free, q, count)
      {
        var word, bit := page / 64, page % 64;
        assert Used(page) == bitmap[word][bit];
        if !bitmap[word][bit] {
          if runCount == 0 {
            runStart := page;
          }
          runCount := runCount + 1;
          if runCount == count {
            assert IsRun(free, runStart, count);
            MarkUsed(runStart, runStart + count);
            return base + runStart * PAGE_SIZE;
          }
        } else {
          forall q | page - runCount <= q <= page
            ensures !IsRun(free, q, count)
          {
            assert page !in free;
          }
          runCount := 0;
        }
      }
      forall q: nat
        ensures !IsRun(free, q, count)
      {
        if q >= total - runCount {
          assert q + count - 1 !in free;
        }
      }
      return 0;
    }

    /** Frees a managed page; any other address is ignored, and so is a page already free. */
    method FreePage(paddr: nat)
      requires Valid()
      modifies this`freeCount, this`free, bitmap
      ensures Valid()
      ensures free == match PageOf(paddr)
                      case Some(p) => old(free) + {p}
                      case None => old(free)
    {
      if paddr < base || paddr % PAGE_SIZE != 0 {
        return;
      }
      var page := (paddr - base) / PAGE_SIZE;
      if page >= total {
        return;
      }
      SetFree(page);
    }
  }
}
