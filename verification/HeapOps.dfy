/** What the heap operations do to the block list. */
module HeapOps {
  import opened Basics
  import opened PhysicalPages
  import opened HeapSpec

  // ----- Cutting and pasting blocks

  /** Block `i` replaced by `a` and `b`. */
  function Cut(bs: seq<Block>, i: nat, a: Block, b: Block): seq<Block>
    requires i < |bs|
  {
    bs[..i] + [a, b] + bs[i + 1..]
  }

  /** Blocks `i` and `i + 1` replaced by `a`. */
  function Paste(bs: seq<Block>, i: nat, a: Block): seq<Block>
    requires i + 1 < |bs|
  {
    bs[..i] + [a] + bs[i + 2..]
  }

  lemma CutTiled(bs: seq<Block>, arenas: seq<Arena>, i: nat, a: Block, b: Block)
    requires Tiled(bs, arenas) && i < |bs| && BlockOk(a, arenas) && BlockOk(b, arenas)
    requires a.addr == bs[i].addr && b.addr == End(a) && End(b) == End(bs[i]) && a.arena == b.arena == bs[i].arena
    ensures Tiled(Cut(bs, i, a, b), arenas)
  {
    var bs' := Cut(bs, i, a, b);
    forall k | 0 <= k < |bs'| - 1
      ensures Follows(bs'[k], bs'[k + 1], arenas)
    {
      if k < i {
        assert Follows(bs[k], bs[k + 1], arenas);
      } else if k > i {
        assert bs'[k + 1] == bs[k];
        assert Follows(bs[k - 1], bs[k - 1 + 1], arenas);
      }
    }
  }

  lemma PasteTiled(bs: seq<Block>, arenas: seq<Arena>, i: nat, a: Block)
    requires Tiled(bs, arenas) && i + 1 < |bs| && BlockOk(a, arenas)
    requires a.addr == bs[i].addr && End(a) == End(bs[i + 1]) && a.arena == bs[i].arena == bs[i + 1].arena
    ensures Tiled(Paste(bs, i, a), arenas)
  {
    var bs' := Paste(bs, i, a);
    forall k | 0 <= k < |bs'| - 1
      ensures Follows(bs'[k], bs'[k + 1], arenas)
    {
      if k < i {
        assert Follows(bs[k], bs[k + 1], arenas);
      } else {
        assert bs'[k + 1] == bs[k + 2];
        assert Follows(bs[k + 1], bs[k + 1 + 1], arenas);
      }
    }
  }

  lemma {:induction false} SpanConcat(a: seq<Block>, b: seq<Block>)
    ensures Span(a + b) == Span(a) + Span(b)
    decreases |a|
  {
    if |a| == 0 {
      assert a + b == b;
    } else {
      SpanConcat(a[1..], b);
      assert (a + b)[1..] == a[1..] + b;
    }
  }

  lemma CutSpan(bs: seq<Block>, i: nat, a: Block, b: Block)
    requires i < |bs| && 2 * HEADER + a.size + b.size == HEADER + bs[i].size
    ensures Span(Cut(bs, i, a, b)) == Span(bs)
  {
    SpanConcat(bs[..i], [a, b] + bs[i + 1..]);
    SpanConcat([a, b], bs[i + 1..]);
    assert bs[..i] + ([a, b] + bs[i + 1..]) == Cut(bs, i, a, b);
    SpanConcat(bs[..i], bs[i..]);
    assert bs[..i] + bs[i..] == bs;
    assert [a, b][1..] == [b];
  }

  lemma PasteSpan(bs: seq<Block>, i: nat, a: Block)
    requires i + 1 < |bs| && HEADER + a.size == 2 * HEADER + bs[i].size + bs[i + 1].size
    ensures Span(Paste(bs, i, a)) == Span(bs)
  {
    var c := Paste(bs, i, a);
    CutSpan(c, i, bs[i], bs[i + 1]);
    assert Cut(c, i, bs[i], bs[i + 1]) == bs;
  }

  // ----- Marking

  lemma MarkTiled(bs: seq<Block>, arenas: seq<Arena>, i: nat, free: bool)
    requires Tiled(bs, arenas) && i < |bs|
    ensures Tiled(bs[i := bs[i].(free := free)], arenas)
  {
    var bs' := bs[i := bs[i].(free := free)];
    forall k | 0 <= k < |bs'| - 1
      ensures Follows(bs'[k], bs'[k + 1], arenas)
    {
      assert Follows(bs[k], bs[k + 1], arenas);
    }
  }

  lemma MarkSpan(bs: seq<Block>, i: nat, free: bool)
    requires i < |bs|
    ensures Span(bs[i := bs[i].(free := free)]) == Span(bs)
  {
    var bs' := bs[i := bs[i].(free := free)];
    SpanConcat(bs[..i], bs[i..]);
    SpanConcat(bs'[..i], bs'[i..]);
    assert bs[..i] + bs[i..] == bs && bs'[..i] + bs'[i..] == bs';
    assert bs'[..i] == bs[..i] && bs'[i..][1..] == bs[i..][1..];
  }

  // ----- The steps

  /** `split_block`. */
  function Split(bs: seq<Block>, i: nat, size: nat): seq<Block>
    requires i < |bs|
  {
    var b := bs[i];
    if b.size < size + HEADER + MIN_SPLIT then bs
    else Cut(bs, i, b.(size := size), Block(b.addr + HEADER + size, b.size - size - HEADER, true, b.arena))
  }

  /** Splitting off and marking used: how `kmalloc` takes block `i`. */
  function Take(bs: seq<Block>, i: nat, size: nat): (bs': seq<Block>)
    requires i < |bs|
    ensures i < |bs'|
  {
    var s := Split(bs, i, size);
    s[i := s[i].(free := false)]
  }

  /** The first block that is free and large enough. */
  function FirstFit(bs: seq<Block>, size: nat, k: nat): (r: Option<nat>)
    ensures r.Some? ==> k <= r.value < |bs| && bs[r.value].free && bs[r.value].size >= size
                        && forall j :: k <= j < r.value ==> !(bs[j].free && bs[j].size >= size)
    ensures r.None? ==> forall j :: k <= j < |bs| ==> !(bs[j].free && bs[j].size >= size)
    decreases |bs| - k
  {
    if k >= |bs| then None
    else if bs[k].free && bs[k].size >= size then Some(k)
    else FirstFit(bs, size, k + 1)
  }

  /** `coalesce_next` on block `i`. */
  function Merge(bs: seq<Block>, i: nat): seq<Block>
    requires i < |bs|
  {
    if i + 1 < |bs| && bs[i + 1].free && bs[i].arena == bs[i + 1].arena && End(bs[i]) == bs[i + 1].addr
    then Paste(bs, i, bs[i].(size := bs[i].size + HEADER + bs[i + 1].size)) else bs
  }

  /** `kfree` on a block in use. */
  function Release(bs: seq<Block>, i: nat): seq<Block>
    requires i < |bs|
  {
    var bs1 := Merge(bs[i := bs[i].(free := true)], i);
    if i > 0 && bs1[i - 1].free then Merge(bs1, i - 1) else bs1
  }

  // ----- Taking

  lemma SplitOk(bs: seq<Block>, arenas: seq<Arena>, i: nat, size: nat)
    requires Tiled(bs, arenas) && i < |bs| && size % 16 == 0 && 0 < size <= bs[i].size
    ensures Tiled(Split(bs, i, size), arenas) && Span(Split(bs, i, size)) == Span(bs)
    ensures i < |Split(bs, i, size)| && Split(bs, i, size)[i].addr == bs[i].addr && Split(bs, i, size)[i].arena == bs[i].arena
    ensures size <= Split(bs, i, size)[i].size <= bs[i].size
  {
    hide Tiled, Span, BlockOk;
    BlockAt(bs, arenas, i);
    var b := bs[i];
    if b.size >= size + HEADER + MIN_SPLIT {
      var l, r := b.(size := size), Block(b.addr + HEADER + size, b.size - size - HEADER, true, b.arena);
      PieceOk(b, arenas, size, r);
      CutTiled(bs, arenas, i, l, r);
      CutSpan(bs, i, l, r);
    }
  }

  lemma BlockAt(bs: seq<Block>, arenas: seq<Arena>, i: nat)
    requires Tiled(bs, arenas) && i < |bs|
    ensures BlockOk(bs[i], arenas)
  {
  }

  lemma PieceOk(b: Block, arenas: seq<Arena>, size: nat, r: Block)
    requires BlockOk(b, arenas) && size % 16 == 0 && 0 < size && b.size >= size + HEADER + MIN_SPLIT
    requires r == Block(b.addr + HEADER + size, b.size - size - HEADER, true, b.arena)
    ensures BlockOk(r, arenas) && BlockOk(b.(size := size), arenas)
  {
    Sixteenths(b.addr, size);
    Sixteenths(b.size, size);
  }

  lemma Sixteenths(a: nat, b: nat)
    requires a % 16 == 0 && b % 16 == 0
    ensures (a + 48 + b) % 16 == 0 && (a >= b + 48 ==> (a - b - 48) % 16 == 0)
  {
    var x, y := a / 16, b / 16;
    assert a == 16 * x && b == 16 * y;
    assert a + 48 + b == 16 * (x + 3 + y) && a - b - 48 == 16 * (x - y - 3);
  }

  lemma TakeCoalesced(bs: seq<Block>, i: nat, size: nat)
    requires Coalesced(bs) && i < |bs| && bs[i].free
    ensures Coalesced(Take(bs, i, size))
  {
    var bs' := Take(bs, i, size);
    if bs[i].size >= size + HEADER + MIN_SPLIT {
      forall k | 0 <= k < |bs'| - 1
        ensures Settled(bs', k)
      {
        if k < i {
          assert Settled(bs, k);
        } else if k > i {
          assert bs'[k + 1] == bs[k];
          assert Settled(bs, k - 1);
        }
      }
    } else {
      forall k | 0 <= k < |bs'| - 1
        ensures Settled(bs', k)
      {
        assert Settled(bs, k);
      }
    }
  }

  lemma TakeLive(bs: seq<Block>, i: nat, size: nat)
    requires i < |bs| && bs[i].free
    ensures Live(Take(bs, i, size)) == Live(bs) + {Take(bs, i, size)[i]}
  {
    var bs' := Take(bs, i, size);
    forall b: Block
      ensures b in Live(bs') <==> b in Live(bs) || b == bs'[i]
    {
      if b in Live(bs) {
        var k :| 0 <= k < |bs| && bs[k] == b;
        assert k != i;
        assert bs'[if k < i then k else k + |bs'| - |bs|] == b;
      }
      if b in Live(bs') {
        var k :| 0 <= k < |bs'| && bs'[k] == b;
        if k < i {
          assert bs[k] == b;
        } else if k > i {
          assert |bs'| == |bs| ==> bs[k] == b;
          assert |bs'| == |bs| + 1 && k > i + 1 ==> bs[k - 1] == b;
        }
      }
    }
  }

  /** Taking a block keeps the heap in order and adds to the live blocks exactly the one taken, out of free space. */
  lemma TakeOk(bs: seq<Block>, arenas: seq<Arena>, i: nat, size: nat)
    requires HeapOk(bs, arenas) && i < |bs| && bs[i].free && size % 16 == 0 && 0 < size <= bs[i].size
    ensures var bs' := Take(bs, i, size);
            && HeapOk(bs', arenas)
            && Live(bs') == Live(bs) + {bs'[i]} && bs'[i] !in Live(bs)
            && !bs'[i].free && bs'[i].addr == bs[i].addr && size <= bs'[i].size <= bs[i].size
  {
    hide ArenasOk, Tiled, Coalesced, Span, Live, Split;
    SplitOk(bs, arenas, i, size);
    var s := Split(bs, i, size);
    MarkTiled(s, arenas, i, false);
    MarkSpan(s, i, false);
    TakeCoalesced(bs, i, size);
    TakeLive(bs, i, size);
    TakenWasFree(bs, arenas, i, Take(bs, i, size)[i]);
  }

  lemma TakenWasFree(bs: seq<Block>, arenas: seq<Arena>, i: nat, b: Block)
    requires ArenasOk(arenas) && Tiled(bs, arenas) && i < |bs| && bs[i].free && b.addr == bs[i].addr
    ensures b !in Live(bs)
  {
    if b in Live(bs) {
      var k :| 0 <= k < |bs| && bs[k] == b;
      hide Tiled, ArenasOk;
      if k < i {
        BlocksDisjoint(bs, arenas, k, i);
      } else if k > i {
        BlocksDisjoint(bs, arenas, i, k);
      }
    }
  }

  // ----- Releasing

  lemma MergeOk(bs: seq<Block>, arenas: seq<Arena>, i: nat)
    requires Tiled(bs, arenas) && i < |bs|
    ensures Tiled(Merge(bs, i), arenas) && Span(Merge(bs, i)) == Span(bs)
    ensures i < |Merge(bs, i)| && Merge(bs, i)[i].free == bs[i].free && Merge(bs, i)[i].arena == bs[i].arena
    ensures forall k :: 0 <= k < i ==> Merge(bs, i)[k] == bs[k]
  {
    if i + 1 < |bs| && bs[i + 1].free && bs[i].arena == bs[i + 1].arena {
      assert BlockOk(bs[i], arenas) && BlockOk(bs[i + 1], arenas) && Follows(bs[i], bs[i + 1], arenas);
      var a := bs[i].(size := bs[i].size + HEADER + bs[i + 1].size);
      PasteTiled(bs, arenas, i, a);
      PasteSpan(bs, i, a);
    }
  }

  ghost predicate SettledBelow(bs: seq<Block>, j: nat) {
    forall k: nat :: k < j && k + 1 < |bs| ==> Settled(bs, k)
  }

  ghost predicate SettledFrom(bs: seq<Block>, j: nat) {
    forall k: nat :: j <= k && k + 1 < |bs| ==> Settled(bs, k)
  }

  /** Merging block `i` with a free successor settles it with what then follows. */
  lemma MergeFrom(bs: seq<Block>, arenas: seq<Arena>, i: nat)
    requires Tiled(bs, arenas) && i < |bs| && SettledFrom(bs, i + 1)
    ensures SettledFrom(Merge(bs, i), i)
  {
    var m := Merge(bs, i);
    if i + 1 < |bs| {
      assert Follows(bs[i], bs[i + 1], arenas);
    }
    hide Tiled;
    forall k: nat | i <= k && k + 1 < |m|
      ensures Settled(m, k)
    {
      if |m| < |bs| {
        assert m[k + 1] == bs[k + 2];
        assert Settled(bs, k + 1);
      } else if k > i {
        assert Settled(bs, k);
      }
    }
  }

  lemma MergeBelow(bs: seq<Block>, i: nat, j: nat)
    requires j <= i < |bs| && SettledBelow(bs, j)
    ensures SettledBelow(Merge(bs, i), j)
  {
    var m := Merge(bs, i);
    forall k: nat | k < j && k + 1 < |m|
      ensures Settled(m, k)
    {
      assert Settled(bs, k);
    }
  }

  /** Releasing a block leaves no two neighbours of an arena both free. */
  lemma ReleaseCoalesced(bs: seq<Block>, arenas: seq<Arena>, i: nat)
    requires Tiled(bs, arenas) && Coalesced(bs) && i < |bs|
    ensures Coalesced(Release(bs, i))
  {
    var bs0 := bs[i := bs[i].(free := true)];
    MarkTiled(bs, arenas, i, true);
    MarkSettled(bs, i);
    hide Tiled, Merge;
    var bs1 := Merge(bs0, i);
    MergeOk(bs0, arenas, i);
    MergeFrom(bs0, arenas, i);
    if i == 0 {
      assert forall k :: 0 <= k < |bs1| - 1 ==> Settled(bs1, k);
    } else {
      MergeBelow(bs0, i, i - 1);
      if bs1[i - 1].free {
        MergeFrom(bs1, arenas, i - 1);
        MergeBelow(bs1, i - 1, i - 1);
        var bs2 := Merge(bs1, i - 1);
        assert forall k :: 0 <= k < |bs2| - 1 ==> Settled(bs2, k);
      } else {
        forall k | 0 <= k < |bs1| - 1
          ensures Settled(bs1, k)
        {
          if k == i - 1 {
            assert !bs1[k].free;
          }
        }
      }
    }
  }

  lemma MarkSettled(bs: seq<Block>, i: nat)
    requires Coalesced(bs) && i < |bs|
    ensures SettledFrom(bs[i := bs[i].(free := true)], i + 1)
    ensures i > 0 ==> SettledBelow(bs[i := bs[i].(free := true)], i - 1)
  {
    var bs0 := bs[i := bs[i].(free := true)];
    forall k: nat | k + 1 < |bs0| && k != i && k != i - 1
      ensures Settled(bs0, k)
    {
      assert Settled(bs, k);
    }
  }

  // ----- What is live after a release

  ghost predicate Has(bs: seq<Block>, b: Block) {
    b in bs && !b.free
  }

  /** Merging changes no block in use. */
  lemma MergeLive(bs: seq<Block>, i: nat, b: Block)
    requires i < |bs| && bs[i].free
    ensures Has(Merge(bs, i), b) <==> Has(bs, b)
  {
    var m := Merge(bs, i);
    if |m| < |bs| {
      if Has(bs, b) {
        var k :| 0 <= k < |bs| && bs[k] == b;
        assert k != i && k != i + 1;
        assert m[if k < i then k else k - 1] == b;
      }
      if Has(m, b) {
        var k :| 0 <= k < |m| && m[k] == b;
        assert k != i;
        assert bs[if k < i then k else k + 1] == b;
      }
    }
  }

  lemma MarkLive(bs: seq<Block>, arenas: seq<Arena>, i: nat, b: Block)
    requires ArenasOk(arenas) && Tiled(bs, arenas) && i < |bs|
    ensures Has(bs[i := bs[i].(free := true)], b) <==> Has(bs, b) && b != bs[i]
  {
    var bs0 := bs[i := bs[i].(free := true)];
    if Has(bs, b) && b != bs[i] {
      var k :| 0 <= k < |bs| && bs[k] == b;
      assert bs0[k] == b;
    }
    if Has(bs0, b) {
      var k :| 0 <= k < |bs0| && bs0[k] == b;
      assert k != i && bs[k] == b;
      if k < i {
        BlocksDisjoint(bs, arenas, k, i);
      } else {
        BlocksDisjoint(bs, arenas, i, k);
      }
    }
  }

  /** Releasing a block in use keeps the heap in order and takes exactly that block from the live ones. */
  lemma ReleaseOk(bs: seq<Block>, arenas: seq<Arena>, i: nat)
    requires HeapOk(bs, arenas) && i < |bs|
    ensures HeapOk(Release(bs, i), arenas)
    ensures Live(Release(bs, i)) == Live(bs) - {bs[i]}
  {
    hide ArenasOk, Tiled, Coalesced, Span, Merge, Settled;
    ReleaseCoalesced(bs, arenas, i);
    var bs0 := bs[i := bs[i].(free := true)];
    var bs1, bs2 := Merge(bs0, i), Release(bs, i);
    MarkTiled(bs, arenas, i, true);
    MarkSpan(bs, i, true);
    MergeOk(bs0, arenas, i);
    if i > 0 {
      MergeOk(bs1, arenas, i - 1);
    }
    forall b
      ensures Has(bs2, b) <==> Has(bs, b) && b != bs[i]
    {
      MarkLive(bs, arenas, i, b);
      MergeLive(bs0, i, b);
      if i > 0 && bs1[i - 1].free {
        MergeLive(bs1, i - 1, b);
      }
    }
    assert forall b :: b in Live(bs2) <==> Has(bs2, b);
    assert forall b :: b in Live(bs) <==> Has(bs, b);
  }

  // ----- Growing

  lemma {:induction false} SpanLast(bs: seq<Block>, b: Block)
    ensures Span(bs + [b]) == Span(bs) + HEADER + b.size
  {
    SpanConcat(bs, [b]);
    assert Span([b]) == HEADER + b.size;
  }

  /** A new arena joins the heap as one free block. */
  lemma ExtendOk(bs: seq<Block>, arenas: seq<Arena>, a: Arena)
    requires HeapOk(bs, arenas) && ArenasOk(arenas + [a]) && a.bytes > HEADER
    ensures var b := Block(a.base, a.bytes - HEADER, true, |arenas| + 1);
            HeapOk(bs + [b], arenas + [a]) && Live(bs + [b]) == Live(bs)
  {
    hide ArenasOk, Tiled, Coalesced;
    var b := Block(a.base, a.bytes - HEADER, true, |arenas| + 1);
    ExtendTiled(bs, arenas, a, b);
    ExtendCoalesced(bs, arenas, b);
    SpanLast(bs, b);
    assert (arenas + [a])[..|arenas|] == arenas;
  }

  lemma ExtendTiled(bs: seq<Block>, arenas: seq<Arena>, a: Arena, b: Block)
    requires Tiled(bs, arenas) && ArenasOk(arenas + [a]) && a.bytes > HEADER
    requires b == Block(a.base, a.bytes - HEADER, true, |arenas| + 1)
    ensures Tiled(bs + [b], arenas + [a])
  {
    NewBlockOk(arenas, a, b);
    hide ArenasOk;
    var bs', arenas', n := bs + [b], arenas + [a], |bs|;
    assert arenas'[|arenas|] == a;
    forall i | 0 <= i < |bs'|
      ensures BlockOk(bs'[i], arenas')
    {
      assert i < n ==> BlockOk(bs[i], arenas);
    }
    forall i | 0 <= i < |bs'| - 1
      ensures Follows(bs'[i], bs'[i + 1], arenas')
    {
      if i + 1 < n {
        assert Follows(bs[i], bs[i + 1], arenas);
      } else {
        assert bs'[i] == bs[n - 1] && bs'[i + 1] == b && arenas'[|arenas| - 1] == arenas[|arenas| - 1];
      }
    }
  }

  lemma NewBlockOk(arenas: seq<Arena>, a: Arena, b: Block)
    requires ArenasOk(arenas + [a]) && a.bytes > HEADER && b == Block(a.base, a.bytes - HEADER, true, |arenas| + 1)
    ensures BlockOk(b, arenas + [a])
  {
    assert (arenas + [a])[|arenas|] == a;
    PageMultiple(a.base);
    PageMultiple(a.bytes);
  }

  lemma PageMultiple(n: nat)
    requires n % PAGE_SIZE == 0
    ensures n % 16 == 0 && (n >= HEADER ==> (n - HEADER) % 16 == 0)
  {
    var k := n / 4096;
    assert n == 16 * (256 * k);
  }

  lemma ExtendCoalesced(bs: seq<Block>, arenas: seq<Arena>, b: Block)
    requires Tiled(bs, arenas) && Coalesced(bs) && b.arena == |arenas| + 1
    ensures Coalesced(bs + [b])
  {
    var bs' := bs + [b];
    forall i | 0 <= i < |bs'| - 1
      ensures Settled(bs', i)
    {
      assert i + 1 < |bs| ==> Settled(bs, i);
    }
  }
}
