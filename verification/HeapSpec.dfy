/** The kernel heap as a list of blocks that tile page arenas. */
module HeapSpec {
  import opened Basics
  import opened PhysicalPages

  const HEADER: nat := 48
  const MIN_SPLIT: nat := 32

  /** A block: a header of `HEADER` bytes at `addr`, then `size` bytes of payload. */
  datatype Block = Block(addr: nat, size: nat, free: bool, arena: nat)

  /** A run of pages the heap took from the page allocator. Arena `k` of the list has the number `k + 1`. */
  datatype Arena = Arena(base: nat, bytes: nat)

  function End(b: Block): nat {
    b.addr + HEADER + b.size
  }

  function Limit(a: Arena): nat {
    a.base + a.bytes
  }

  // ----- The invariant

  ghost predicate ArenasOk(arenas: seq<Arena>) {
    && (forall k :: 0 <= k < |arenas| ==>
          arenas[k].base > 0 && arenas[k].base % PAGE_SIZE == 0 && arenas[k].bytes % PAGE_SIZE == 0 && arenas[k].bytes > 0
          && Limit(arenas[k]) < U64_LIMIT)
    && (forall j, k :: 0 <= j < k < |arenas| ==> Limit(arenas[j]) <= arenas[k].base || Limit(arenas[k]) <= arenas[j].base)
  }

  ghost predicate BlockOk(b: Block, arenas: seq<Arena>) {
    1 <= b.arena <= |arenas| && b.addr % 16 == 0 && b.size % 16 == 0 && b.size > 0
  }

  /** `b` comes right after `a`: next to it in its arena, or first in the next arena when `a` ends its own. */
  ghost predicate Follows(a: Block, b: Block, arenas: seq<Arena>)
    requires BlockOk(a, arenas) && BlockOk(b, arenas)
  {
    if b.arena == a.arena then b.addr == End(a)
    else b.arena == a.arena + 1 && End(a) == Limit(arenas[a.arena - 1]) && b.addr == arenas[b.arena - 1].base
  }

  /** The list goes through the arenas in order and tiles each of them exactly. */
  ghost predicate Tiled(bs: seq<Block>, arenas: seq<Arena>) {
    && (|bs| == 0 <==> |arenas| == 0)
    && (forall i :: 0 <= i < |bs| ==> BlockOk(bs[i], arenas))
    && (|bs| > 0 ==>
          bs[0].arena == 1 && bs[0].addr == arenas[0].base
          && bs[|bs| - 1].arena == |arenas| && End(bs[|bs| - 1]) == Limit(arenas[|arenas| - 1]))
    && (forall i :: 0 <= i < |bs| - 1 ==> Follows(bs[i], bs[i + 1], arenas))
  }

  /** No two neighbours of one arena are both free. */
  ghost predicate Coalesced(bs: seq<Block>) {
    forall i :: 0 <= i < |bs| - 1 ==> Settled(bs, i)
  }

  ghost predicate Settled(bs: seq<Block>, i: nat)
    requires i + 1 < |bs|
  {
    !(bs[i].free && bs[i + 1].free && bs[i].arena == bs[i + 1].arena)
  }

  /** Payload and headers of all blocks together. */
  function Span(bs: seq<Block>): nat {
    if |bs| == 0 then 0 else HEADER + bs[0].size + Span(bs[1..])
  }

  function FreeBytes(bs: seq<Block>): nat {
    if |bs| == 0 then 0 else (if bs[0].free then bs[0].size else 0) + FreeBytes(bs[1..])
  }

  function ArenaBytes(arenas: seq<Arena>): nat {
    if |arenas| == 0 then 0 else ArenaBytes(arenas[..|arenas| - 1]) + arenas[|arenas| - 1].bytes
  }

  ghost predicate HeapOk(bs: seq<Block>, arenas: seq<Arena>) {
    ArenasOk(arenas) && Tiled(bs, arenas) && Coalesced(bs) && Span(bs) == ArenaBytes(arenas)
  }

  ghost function Live(bs: seq<Block>): set<Block> {
    set b | b in bs && !b.free
  }

  // ----- What the invariant means

  lemma {:induction false} ArenasAscend(bs: seq<Block>, arenas: seq<Arena>, i: nat, j: nat)
    requires Tiled(bs, arenas) && i <= j < |bs|
    ensures bs[i].arena <= bs[j].arena
    decreases j - i
  {
    if i < j {
      ArenasAscend(bs, arenas, i + 1, j);
      assert Follows(bs[i], bs[i + 1], arenas);
    }
  }

  /** Within an arena, later blocks lie higher. */
  lemma {:induction false} Ascending(bs: seq<Block>, arenas: seq<Arena>, i: nat, j: nat)
    requires Tiled(bs, arenas) && i < j < |bs| && bs[i].arena == bs[j].arena
    ensures End(bs[i]) <= bs[j].addr
    decreases j - i
  {
    assert Follows(bs[i], bs[i + 1], arenas);
    if i + 1 < j {
      ArenasAscend(bs, arenas, i, i + 1);
      ArenasAscend(bs, arenas, i + 1, j);
      Ascending(bs, arenas, i + 1, j);
    }
  }

  lemma {:induction false} AboveBase(bs: seq<Block>, arenas: seq<Arena>, i: nat)
    requires Tiled(bs, arenas) && i < |bs|
    ensures arenas[bs[i].arena - 1].base <= bs[i].addr
    decreases i
  {
    if i > 0 {
      AboveBase(bs, arenas, i - 1);
      assert Follows(bs[i - 1], bs[i - 1 + 1], arenas);
    }
  }

  lemma {:induction false} BelowLimit(bs: seq<Block>, arenas: seq<Arena>, i: nat)
    requires Tiled(bs, arenas) && i < |bs|
    ensures End(bs[i]) <= Limit(arenas[bs[i].arena - 1])
    decreases |bs| - i
  {
    if i + 1 < |bs| {
      BelowLimit(bs, arenas, i + 1);
      assert Follows(bs[i], bs[i + 1], arenas);
    }
  }

  /** Blocks of the heap never overlap. */
  lemma BlocksDisjoint(bs: seq<Block>, arenas: seq<Arena>, i: nat, j: nat)
    requires ArenasOk(arenas) && Tiled(bs, arenas) && i < j < |bs|
    ensures End(bs[i]) <= bs[j].addr || End(bs[j]) <= bs[i].addr
  {
    AboveBase(bs, arenas, i);
    AboveBase(bs, arenas, j);
    BelowLimit(bs, arenas, i);
    BelowLimit(bs, arenas, j);
    ArenasAscend(bs, arenas, i, j);
    if bs[i].arena == bs[j].arena {
      Ascending(bs, arenas, i, j);
    }
  }

  lemma {:induction false} OnePerArena(bs: seq<Block>, arenas: seq<Arena>, i: nat)
    requires Tiled(bs, arenas) && Coalesced(bs) && Live(bs) == {} && i < |bs|
    ensures bs[i].arena == i + 1
    decreases i
  {
    assert bs[i].free by { assert bs[i] !in Live(bs); }
    if i > 0 {
      OnePerArena(bs, arenas, i - 1);
      assert bs[i - 1].free by { assert bs[i - 1] !in Live(bs); }
      assert Settled(bs, i - 1) && Follows(bs[i - 1], bs[i - 1 + 1], arenas);
    }
  }

  lemma {:induction false} AllFreeSpan(bs: seq<Block>)
    requires forall i :: 0 <= i < |bs| ==> bs[i].free
    ensures Span(bs) == FreeBytes(bs) + HEADER * |bs|
    decreases |bs|
  {
    if |bs| > 0 {
      AllFreeSpan(bs[1..]);
    }
  }

  /** Bytes the heap accounts for: each arena less one header. */
  function TotalBytes(arenas: seq<Arena>): int {
    ArenaBytes(arenas) - HEADER * |arenas|
  }

  /** Once everything is freed there is one block per arena, and all bytes are free. */
  lemma AllFreed(bs: seq<Block>, arenas: seq<Arena>)
    requires HeapOk(bs, arenas) && Live(bs) == {}
    ensures |bs| == |arenas|
    ensures forall k :: 0 <= k < |bs| ==>
              bs[k].free && bs[k].arena == k + 1 && bs[k].addr == arenas[k].base && End(bs[k]) == Limit(arenas[k])
    ensures FreeBytes(bs) == TotalBytes(arenas)
  {
    forall k | 0 <= k < |bs|
      ensures bs[k].free && bs[k].arena == k + 1
    {
      OnePerArena(bs, arenas, k);
      assert bs[k] !in Live(bs);
    }
    forall k | 0 <= k < |bs|
      ensures bs[k].addr == arenas[k].base && End(bs[k]) == Limit(arenas[k])
    {
      if k > 0 {
        assert Follows(bs[k - 1], bs[k - 1 + 1], arenas);
      }
      if k < |bs| - 1 {
        assert Follows(bs[k], bs[k + 1], arenas);
      }
    }
    AllFreeSpan(bs);
  }
}
