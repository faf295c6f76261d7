/** The block list as it lies in memory: headers at addresses, linked both ways. */
module HeapLinks {
  import opened PhysicalPages
  import opened HeapSpec
  import opened HeapOps

  const MAGIC: nat := 0x4B48_4541_504F_4B21

  datatype Header = Header(magic: nat, size: nat, free: bool, next: nat, prev: nat, arena: nat)

  /** The headers ever written, by address. Headers of merged blocks stay behind in memory. */
  type Memory = map<nat, Header>

  function AddrAt(bs: seq<Block>, i: int): nat {
    if 0 <= i < |bs| then bs[i].addr else 0
  }

  function NodeAt(bs: seq<Block>, i: nat): Header
    requires i < |bs|
  {
    Header(MAGIC, bs[i].size, bs[i].free, AddrAt(bs, i + 1), AddrAt(bs, i - 1), bs[i].arena)
  }

  ghost predicate Linked(mem: Memory, bs: seq<Block>) {
    forall i: nat :: i < |bs| ==> LinkedAt(mem, bs, i)
  }

  ghost predicate LinkedAt(mem: Memory, bs: seq<Block>, i: nat)
    requires i < |bs|
  {
    bs[i].addr in mem && mem[bs[i].addr] == NodeAt(bs, i)
  }

  /** No two blocks have the same address, and none has address 0. */
  lemma Apart(bs: seq<Block>, arenas: seq<Arena>, i: nat, j: nat)
    requires ArenasOk(arenas) && Tiled(bs, arenas) && i < |bs| && j < |bs|
    ensures bs[i].addr > 0
    ensures bs[i].addr == bs[j].addr ==> i == j
  {
    AboveBase(bs, arenas, i);
    assert BlockOk(bs[i], arenas) && BlockOk(bs[j], arenas);
    if i < j {
      BlocksDisjoint(bs, arenas, i, j);
    } else if j < i {
      BlocksDisjoint(bs, arenas, j, i);
    }
  }

  ghost predicate AddrsApart(bs: seq<Block>) {
    forall i: nat, j: nat :: i < |bs| && j < |bs| ==> Other(bs, i, j)
  }

  ghost predicate Other(bs: seq<Block>, i: nat, j: nat)
    requires i < |bs| && j < |bs|
  {
    bs[i].addr > 0 && (bs[i].addr == bs[j].addr ==> i == j)
  }

  lemma AllApart(bs: seq<Block>, arenas: seq<Arena>)
    requires ArenasOk(arenas) && Tiled(bs, arenas)
    ensures AddrsApart(bs)
  {
    hide ArenasOk, Tiled;
    forall i: nat, j: nat | i < |bs| && j < |bs|
      ensures Other(bs, i, j)
    {
      Apart(bs, arenas, i, j);
    }
  }

  function SetNext(mem: Memory, a: nat, next: nat): Memory {
    if a in mem then mem[a := mem[a].(next := next)] else mem
  }

  function SetPrev(mem: Memory, a: nat, prev: nat): Memory {
    if a in mem then mem[a := mem[a].(prev := prev)] else mem
  }

  /** Linking a new block `c` in after block `i`, which becomes `b`. */
  lemma LinkCut(mem: Memory, bs: seq<Block>, i: nat, b: Block, c: Block)
    requires Linked(mem, bs) && i < |bs| && AddrsApart(Cut(bs, i, b, c)) && b.addr == bs[i].addr
    requires b.arena == bs[i].arena && b.free == bs[i].free
    ensures bs[i].addr in mem
    ensures var next := mem[b.addr].next;
            var m1 := mem[c.addr := Header(MAGIC, c.size, c.free, next, b.addr, c.arena)];
            var m2 := if next != 0 then SetPrev(m1, next, c.addr) else m1;
            b.addr in m2 && Linked(m2[b.addr := m2[b.addr].(next := c.addr, size := b.size)], Cut(bs, i, b, c))
  {
    var bs' := Cut(bs, i, b, c);
    assert LinkedAt(mem, bs, i);
    var next := mem[bs[i].addr].next;
    assert bs'[i] == b && bs'[i + 1] == c && Other(bs', i, i + 1);
    assert next == AddrAt(bs', i + 2);
    if i + 2 < |bs'| {
      assert bs'[i + 2] == bs[i + 1] && LinkedAt(mem, bs, i + 1) && Other(bs', i + 2, i) && Other(bs', i + 2, i + 1);
    }
    var m1 := mem[c.addr := Header(MAGIC, c.size, c.free, next, b.addr, c.arena)];
    var m2 := if next != 0 then SetPrev(m1, next, c.addr) else m1;
    var m3 := m2[b.addr := m2[b.addr].(next := c.addr, size := b.size)];
    forall k: nat | k < |bs'|
      ensures LinkedAt(m3, bs', k)
    {
      if k < i {
        assert bs'[k] == bs[k] && LinkedAt(mem, bs, k) && Other(bs', k, i) && Other(bs', k, i + 1);
        assert i + 2 < |bs'| ==> Other(bs', k, i + 2);
      } else if k > i + 1 {
        assert bs'[k] == bs[k - 1] && LinkedAt(mem, bs, k - 1) && Other(bs', k, i) && Other(bs', k, i + 1) && Other(bs', k, i + 2);
        assert AddrAt(bs', k + 1) == AddrAt(bs, k);
      }
    }
  }

  /** Unlinking the block after block `i`, which becomes `b`. */
  lemma LinkPaste(mem: Memory, bs: seq<Block>, i: nat, b: Block)
    requires Linked(mem, bs) && i + 1 < |bs| && AddrsApart(bs) && b.addr == bs[i].addr && b.arena == bs[i].arena && b.free == bs[i].free
    ensures bs[i].addr in mem && bs[i + 1].addr in mem
    ensures var after := mem[bs[i + 1].addr].next;
            var m1 := mem[b.addr := mem[b.addr].(size := b.size, next := after)];
            Linked(if after != 0 then SetPrev(m1, after, b.addr) else m1, Paste(bs, i, b))
  {
    var bs' := Paste(bs, i, b);
    assert LinkedAt(mem, bs, i) && LinkedAt(mem, bs, i + 1);
    var after := mem[bs[i + 1].addr].next;
    assert bs'[i] == b && after == AddrAt(bs', i + 1);
    if i + 2 < |bs| {
      assert bs'[i + 1] == bs[i + 2] && LinkedAt(mem, bs, i + 2) && Other(bs, i + 2, i);
    }
    var m1 := mem[b.addr := mem[b.addr].(size := b.size, next := after)];
    var m2 := if after != 0 then SetPrev(m1, after, b.addr) else m1;
    forall k: nat | k < |bs'|
      ensures LinkedAt(m2, bs', k)
    {
      if k < i {
        assert bs'[k] == bs[k] && LinkedAt(mem, bs, k) && Other(bs, k, i);
        assert i + 2 < |bs| ==> Other(bs, k, i + 2);
      } else if k > i {
        assert bs'[k] == bs[k + 1] && LinkedAt(mem, bs, k + 1) && Other(bs, k + 1, i) && Other(bs, k + 1, i + 2);
        assert AddrAt(bs', k + 1) == AddrAt(bs, k + 2);
      }
    }
  }

  lemma LinkMark(mem: Memory, bs: seq<Block>, i: nat, free: bool)
    requires Linked(mem, bs) && i < |bs| && AddrsApart(bs)
    ensures bs[i].addr in mem
    ensures Linked(mem[bs[i].addr := mem[bs[i].addr].(free := free)], bs[i := bs[i].(free := free)])
  {
    var bs' := bs[i := bs[i].(free := free)];
    assert LinkedAt(mem, bs, i);
    var mem' := mem[bs[i].addr := mem[bs[i].addr].(free := free)];
    forall k: nat | k < |bs'|
      ensures LinkedAt(mem', bs', k)
    {
      assert LinkedAt(mem, bs, k) && Other(bs, k, i);
    }
  }

  /** Appending a block at the tail. */
  lemma LinkAppend(mem: Memory, bs: seq<Block>, b: Block)
    requires Linked(mem, bs) && AddrsApart(bs + [b])
    ensures var tail := AddrAt(bs, |bs| - 1);
            var m1 := mem[b.addr := Header(MAGIC, b.size, b.free, 0, tail, b.arena)];
            Linked(if tail != 0 then SetNext(m1, tail, b.addr) else m1, bs + [b])
  {
    var bs', n := bs + [b], |bs|;
    var tail := AddrAt(bs, n - 1);
    if n > 0 {
      assert LinkedAt(mem, bs, n - 1) && Other(bs', n - 1, n);
    }
    var m1 := mem[b.addr := Header(MAGIC, b.size, b.free, 0, tail, b.arena)];
    var m2 := if tail != 0 then SetNext(m1, tail, b.addr) else m1;
    forall k: nat | k < |bs'|
      ensures LinkedAt(m2, bs', k)
    {
      if k < n {
        assert bs'[k] == bs[k] && LinkedAt(mem, bs, k) && Other(bs', k, n) && Other(bs', k, n - 1);
      }
    }
  }

  // ----- Headers left behind

  function Addrs(bs: seq<Block>): set<nat> {
    set i | 0 <= i < |bs| :: bs[i].addr
  }

  /** A header that says its block is in use is one of the list: those that merging left behind say they are free. */
  ghost predicate Ghosts(mem: Memory, bs: seq<Block>) {
    forall a :: a in mem && !mem[a].free ==> a in Addrs(bs)
  }

  lemma AddrIn(bs: seq<Block>, i: nat)
    requires i < |bs|
    ensures bs[i].addr in Addrs(bs)
  {
  }

  /** Memory in which only headers of the new list were marked used, and no used header of the old list was lost. */
  lemma GhostsKept(mem: Memory, bs: seq<Block>, mem': Memory, bs': seq<Block>)
    requires Ghosts(mem, bs)
    requires forall a :: a in mem' && !mem'[a].free ==> a in Addrs(bs') || (a in mem && !mem[a].free)
    requires forall a :: a in Addrs(bs) && a in mem && !mem[a].free ==> a in Addrs(bs')
    ensures Ghosts(mem', bs')
  {
    hide Addrs;
  }

  lemma CutAddrs(bs: seq<Block>, i: nat, b: Block, c: Block)
    requires i < |bs| && b.addr == bs[i].addr
    ensures Addrs(Cut(bs, i, b, c)) == Addrs(bs) + {c.addr}
  {
    var bs' := Cut(bs, i, b, c);
    forall k | 0 <= k < |bs|
      ensures bs[k].addr in Addrs(bs')
    {
      assert bs'[if k <= i then k else k + 1].addr == bs[k].addr;
    }
    assert bs'[i + 1] == c;
    forall k | 0 <= k < |bs'|
      ensures bs'[k].addr in Addrs(bs) + {c.addr}
    {
      if k != i + 1 {
        assert bs'[k].addr == bs[if k <= i then k else k - 1].addr;
      }
    }
  }

  lemma PasteAddrs(bs: seq<Block>, i: nat, b: Block)
    requires i + 1 < |bs| && b.addr == bs[i].addr
    ensures forall a :: a in Addrs(bs) && a != bs[i + 1].addr ==> a in Addrs(Paste(bs, i, b))
  {
    var bs' := Paste(bs, i, b);
    forall k | 0 <= k < |bs| && k != i + 1
      ensures bs[k].addr in Addrs(bs')
    {
      assert bs'[if k <= i then k else k - 1].addr == bs[k].addr;
    }
  }

  lemma MarkAddrs(bs: seq<Block>, i: nat, free: bool)
    requires i < |bs|
    ensures Addrs(bs[i := bs[i].(free := free)]) == Addrs(bs)
  {
    var bs' := bs[i := bs[i].(free := free)];
    assert forall k :: 0 <= k < |bs| ==> bs'[k].addr == bs[k].addr;
  }

  lemma AppendAddrs(bs: seq<Block>, b: Block)
    ensures Addrs(bs + [b]) == Addrs(bs) + {b.addr}
  {
    var bs' := bs + [b];
    assert bs'[|bs|] == b;
    assert forall k :: 0 <= k < |bs| ==> bs'[k] == bs[k];
  }
}
