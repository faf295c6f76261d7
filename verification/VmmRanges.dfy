/** Range mapping with rollback, range unmapping, and teardown of a whole tree. */
module VmmRanges {
  import opened Basics
  import opened PhysicalPages
  import opened PageTableFormat
  import opened PageTree
  import opened VmmSpec

  /** `page_span`: the page-aligned length that covers `size` bytes from `offset` within a page. */
  function PageSpan(offset: nat, size: nat): Option<nat> {
    if size == 0 || offset >= 4096 || offset + size >= U64_LIMIT then None
    else
      var end := offset + size;
      if end % 4096 != 0 && end > U64_LIMIT - 4096 then None
      else Some((end + 4095) / 4096 * 4096)
  }

  /** Maps pages `k`, ..., `n - 1` of a range; stops at the first failure and says where. */
  function MapLoop(r: Ram, s: State, pgd: nat, va: nat, pa: nat, flags: Flags, k: nat, n: nat): (nat, State)
    requires k <= n
    decreases n - k
  {
    if k == n then (n, s)
    else
      var (ok, s1) := MapPage(r, s, pgd, va + 4096 * k, pa + 4096 * k, flags);
      if ok then MapLoop(r, s1, pgd, va, pa, flags, k + 1, n) else (k, s1)
  }

  /** The rollback loop: unmaps pages `k`, ..., `n - 1`, whatever each call answers. */
  function Rollback(mem: Memory, pgd: nat, va: nat, k: nat, n: nat): Memory
    requires k <= n
    decreases n - k
  {
    if k == n then mem else Rollback(UnmapPage(mem, pgd, va + 4096 * k).1, pgd, va, k + 1, n)
  }

  /** Unmaps pages `k`, ..., `n - 1`; stops at the first failure and says where. */
  function UnmapLoop(mem: Memory, pgd: nat, va: nat, k: nat, n: nat): (nat, Memory)
    requires k <= n
    decreases n - k
  {
    if k == n then (n, mem)
    else
      var (ok, mem1) := UnmapPage(mem, pgd, va + 4096 * k);
      if ok then UnmapLoop(mem1, pgd, va, k + 1, n) else (k, mem1)
  }

  /** Number of pages a range of `size` bytes at `va` touches. */
  function PageCount(va: nat, size: nat): nat {
    match PageSpan(va % 4096, size)
    case None => 0
    case Some(end) => end / 4096
  }

  /** The aligned range has a length and an end below 2^64. */
  predicate Fits(a: nat, size: nat) {
    match PageSpan(a % 4096, size)
    case None => false
    case Some(end) => a - a % 4096 + end < U64_LIMIT
  }

  function AlignedDown(a: nat): nat {
    a - a % 4096
  }

  /** A range fits exactly when it is not empty and its last page ends below 2^64. */
  lemma FitsIs(a: nat, size: nat)
    ensures Fits(a, size) <==> size > 0 && (a + size + 4095) / 4096 * 4096 < U64_LIMIT
  {
    var q, o := a / 4096, a % 4096;
    var k := (o + size + 4095) / 4096;
    assert a + size + 4095 == 4096 * q + (o + size + 4095);
    Quotient(a + size + 4095, 4096, q + k, (o + size + 4095) % 4096);
    assert (a + size + 4095) / 4096 * 4096 == 4096 * q + k * 4096;
  }

  /** The pages of a range are those its bytes touch: one fewer would not reach its end. */
  lemma PageCountIs(a: nat, size: nat)
    requires Fits(a, size)
    ensures 4096 * PageCount(a, size) - 4096 < a % 4096 + size <= 4096 * PageCount(a, size)
  {
  }

  function MapRange(r: Ram, s: State, pgd: nat, va: nat, pa: nat, size: nat, flags: Flags): (bool, State) {
    if pgd == 0 || va % 4096 != pa % 4096 then (false, s)
    else if size == 0 then (true, s)
    else if !Fits(va, size) || !Fits(pa, size) then (false, s)
    else
      var (done, s1) := MapLoop(r, s, pgd, AlignedDown(va), AlignedDown(pa), flags, 0, PageCount(va, size));
      if done < PageCount(va, size) then (false, s1.(mem := Rollback(s1.mem, pgd, AlignedDown(va), 0, done)))
      else (true, s1)
  }

  function UnmapRange(mem: Memory, pgd: nat, va: nat, size: nat): (bool, Memory) {
    if pgd == 0 then (false, mem)
    else if size == 0 then (true, mem)
    else if !Fits(va, size) then (false, mem)
    else
      var (done, mem1) := UnmapLoop(mem, pgd, AlignedDown(va), 0, PageCount(va, size));
      (done == PageCount(va, size), mem1)
  }

  // ----- What ranges mean for the translation

  /** The virtual pages of `n` consecutive pages from `va`. */
  ghost function Vpns(va: nat, n: nat): (vs: seq<nat>)
    ensures |vs| == n
  {
    if n == 0 then [] else Vpns(va, n - 1) + [Vpn(va + 4096 * (n - 1))]
  }

  /** The descriptors of `n` consecutive physical pages from `pa`. */
  ghost function Descs(pa: nat, flags: Flags, n: nat): (ds: seq<Desc>)
    ensures |ds| == n
  {
    if n == 0 then [] else Descs(pa, flags, n - 1) + [PageDescriptor(pa + 4096 * (n - 1), flags)]
  }

  lemma {:induction false} VpnsAt(va: nat, n: nat, k: nat)
    requires k < n
    ensures Vpns(va, n)[k] == Vpn(va + 4096 * k)
  {
    if k < n - 1 {
      VpnsAt(va, n - 1, k);
    }
  }

  lemma {:induction false} DescsAt(pa: nat, flags: Flags, n: nat, k: nat)
    requires k < n
    ensures Descs(pa, flags, n)[k] == PageDescriptor(pa + 4096 * k, flags)
  {
    if k < n - 1 {
      DescsAt(pa, flags, n - 1, k);
    }
  }

  /** The first `n` elements. */
  ghost function Firsts(vs: seq<nat>, n: nat): set<nat>
    requires n <= |vs|
  {
    if n == 0 then {} else Firsts(vs, n - 1) + {vs[n - 1]}
  }

  /** `m` with the first `n` pages of `vs` bound to `ds`. */
  ghost function Bind(m: map<nat, Desc>, vs: seq<nat>, ds: seq<Desc>, n: nat): map<nat, Desc>
    requires n <= |vs| == |ds|
  {
    if n == 0 then m else Bind(m, vs, ds, n - 1)[vs[n - 1] := ds[n - 1]]
  }

  /** The first `n` pages of `vs` are new to `m` and different from each other. */
  ghost predicate NewPages(m: map<nat, Desc>, vs: seq<nat>, n: nat)
    requires n <= |vs|
  {
    forall k: nat :: k < n ==> vs[k] !in m && vs[k] !in Firsts(vs, k)
  }

  lemma {:induction false} BindKeys(m: map<nat, Desc>, vs: seq<nat>, ds: seq<Desc>, n: nat)
    requires n <= |vs| == |ds|
    ensures Bind(m, vs, ds, n).Keys == m.Keys + Firsts(vs, n)
  {
    if n > 0 {
      BindKeys(m, vs, ds, n - 1);
    }
  }

  /** Removing what was bound gives the old translation back. */
  lemma {:induction false} BindUndo(m: map<nat, Desc>, vs: seq<nat>, ds: seq<Desc>, n: nat)
    requires n <= |vs| == |ds| && NewPages(m, vs, n)
    ensures Bind(m, vs, ds, n) - Firsts(vs, n) == m
  {
    if n > 0 {
      BindUndo(m, vs, ds, n - 1);
      var b, xs, v := Bind(m, vs, ds, n - 1), Firsts(vs, n - 1), vs[n - 1];
      assert v !in m;
      hide Bind, Firsts;
      UndoOne(m, b, xs, v, ds[n - 1]);
    }
  }

  lemma UndoOne(m: map<nat, Desc>, b: map<nat, Desc>, xs: set<nat>, v: nat, d: Desc)
    requires b - xs == m && v !in m
    ensures b[v := d] - (xs + {v}) == m
  {
  }

  lemma {:induction false} MapLoopOk(r: Ram, s: State, t: Tree, pgd: nat, va: nat, pa: nat, flags: Flags, k: nat, n: nat,
                                     m: map<nat, Desc>) returns (t': Tree)
    requires Live(r, s, t, pgd) && k <= n
    requires Mapping(s.mem, pgd) == Bind(m, Vpns(va, n), Descs(pa, flags, n), k) && NewPages(m, Vpns(va, n), k)
    ensures var (done, s') := MapLoop(r, s, pgd, va, pa, flags, k, n);
            && k <= done <= n && Live(r, s', t', pgd) && Grown(r, s, t, s', t')
            && Mapping(s'.mem, pgd) == Bind(m, Vpns(va, n), Descs(pa, flags, n), done) && NewPages(m, Vpns(va, n), done)
    decreases n - k
  {
    hide MapPage, Vpns, Descs, Bind, NewPages, Mapping, Live, Grown;
    t' := t;
    if k == n {
      GrownSelf(r, s, t, pgd);
      return;
    }
    var (ok, s1) := MapPage(r, s, pgd, va + 4096 * k, pa + 4096 * k, flags);
    var t1 := MapStep(r, s, t, pgd, va, pa, flags, k, n, m);
    t' := t1;
    if ok {
      t' := MapLoopOk(r, s1, t1, pgd, va, pa, flags, k + 1, n, m);
      var (_, s2) := MapLoop(r, s1, pgd, va, pa, flags, k + 1, n);
      GrownTrans(r, s, t, s1, t1, s2, t');
    }
  }

  /** One map call within a range. */
  lemma MapStep(r: Ram, s: State, t: Tree, pgd: nat, va: nat, pa: nat, flags: Flags, k: nat, n: nat,
                m: map<nat, Desc>) returns (t': Tree)
    requires Live(r, s, t, pgd) && k < n
    requires Mapping(s.mem, pgd) == Bind(m, Vpns(va, n), Descs(pa, flags, n), k) && NewPages(m, Vpns(va, n), k)
    ensures var (ok, s') := MapPage(r, s, pgd, va + 4096 * k, pa + 4096 * k, flags);
            var j := if ok then k + 1 else k;
            && Live(r, s', t', pgd) && Grown(r, s, t, s', t')
            && Mapping(s'.mem, pgd) == Bind(m, Vpns(va, n), Descs(pa, flags, n), j) && NewPages(m, Vpns(va, n), j)
  {
    hide MapPage, Vpn, PageDescriptor, Vpns, Descs, Bind, NewPages, Mapping, Live, Grown, BlockOnPath;
    t' := MapPageOk(r, s, t, pgd, va + 4096 * k, pa + 4096 * k, flags);
    VpnsAt(va, n, k);
    DescsAt(pa, flags, n, k);
    if Vpns(va, n)[k] !in Mapping(s.mem, pgd) {
      BindStep(m, Vpns(va, n), Descs(pa, flags, n), k);
    }
  }

  lemma BindStep(m: map<nat, Desc>, vs: seq<nat>, ds: seq<Desc>, k: nat)
    requires k < |vs| == |ds| && NewPages(m, vs, k) && vs[k] !in Bind(m, vs, ds, k)
    ensures NewPages(m, vs, k + 1) && Bind(m, vs, ds, k + 1) == Bind(m, vs, ds, k)[vs[k] := ds[k]]
  {
    BindKeys(m, vs, ds, k);
  }

  lemma KeptSelf(mem: Memory, base: nat, changed: set<nat>)
    ensures Kept(mem, mem, base, changed)
  {
  }

  lemma KeptTrans(m0: Memory, m1: Memory, m2: Memory, base: nat, changed: set<nat>)
    requires Kept(m0, m1, base, changed) && Kept(m1, m2, base, changed)
    ensures Kept(m0, m2, base, changed)
  {
  }

  lemma Aligned(va: nat, k: nat)
    requires va % 4096 == 0
    ensures (va + 4096 * k) % 4096 == 0
  {
  }

  /** One unmap call within a range. */
  lemma UnmapStep(r: Ram, s: State, t: Tree, pgd: nat, va: nat, k: nat, n: nat, m: map<nat, Desc>)
    requires Live(r, s, t, pgd) && k < n && va % 4096 == 0
    requires Mapping(s.mem, pgd) == m - Firsts(Vpns(va, n), k)
    ensures var (ok, mem') := UnmapPage(s.mem, pgd, va + 4096 * k);
            && Live(r, s.(mem := mem'), t, pgd)
            && (ok <==> Vpns(va, n)[k] in m - Firsts(Vpns(va, n), k))
            && Mapping(mem', pgd) == m - Firsts(Vpns(va, n), k + 1)
            && Kept(s.mem, mem', r.base, Pages(t)) && NoNewBlocks(r.base, s.mem, t, mem', t)
  {
    hide UnmapPage, Vpn, Mapping, Live, Kept;
    var a := va + 4096 * k;
    Aligned(va, k);
    UnmapPageOk(r, s, t, pgd, a);
    VpnsAt(va, n, k);
    RemoveOne(m, Vpns(va, n), k, Mapping(UnmapPage(s.mem, pgd, a).1, pgd));
  }

  /** The rollback loop removes every page of its range from the translation. */
  lemma {:induction false} RollbackOk(r: Ram, s: State, t: Tree, pgd: nat, va: nat, k: nat, n: nat, total: nat,
                                      m: map<nat, Desc>)
    requires Live(r, s, t, pgd) && k <= n <= total && va % 4096 == 0
    requires Mapping(s.mem, pgd) == m - Firsts(Vpns(va, total), k)
    ensures var mem' := Rollback(s.mem, pgd, va, k, n);
            && Live(r, s.(mem := mem'), t, pgd)
            && Mapping(mem', pgd) == m - Firsts(Vpns(va, total), n)
            && Kept(s.mem, mem', r.base, Pages(t)) && NoNewBlocks(r.base, s.mem, t, mem', t)
    decreases n - k
  {
    hide UnmapPage, Vpns, Mapping, Live, Kept;
    if k == n {
      KeptSelf(s.mem, r.base, Pages(t));
      return;
    }
    var (_, mem1) := UnmapPage(s.mem, pgd, va + 4096 * k);
    UnmapStep(r, s, t, pgd, va, k, total, m);
    RollbackOk(r, s.(mem := mem1), t, pgd, va, k + 1, n, total, m);
    KeptTrans(s.mem, mem1, Rollback(mem1, pgd, va, k + 1, n), r.base, Pages(t));
  }

  lemma RemoveOne(m: map<nat, Desc>, vs: seq<nat>, k: nat, m': map<nat, Desc>)
    requires k < |vs|
    requires m' == m - Firsts(vs, k) - {vs[k]} || (vs[k] !in m - Firsts(vs, k) && m' == m - Firsts(vs, k))
    ensures m' == m - Firsts(vs, k + 1)
  {
  }

  /** The unmap loop removes a prefix of its range and stops only at a page that is not mapped. */
  lemma {:induction false} UnmapLoopOk(r: Ram, s: State, t: Tree, pgd: nat, va: nat, k: nat, n: nat, m: map<nat, Desc>)
    requires Live(r, s, t, pgd) && k <= n && va % 4096 == 0
    requires Mapping(s.mem, pgd) == m - Firsts(Vpns(va, n), k)
    ensures var (done, mem') := UnmapLoop(s.mem, pgd, va, k, n);
            && k <= done <= n && Live(r, s.(mem := mem'), t, pgd)
            && Mapping(mem', pgd) == m - Firsts(Vpns(va, n), done)
            && (done < n ==> Vpns(va, n)[done] !in m - Firsts(Vpns(va, n), done))
            && (forall j: nat :: k <= j < done ==> Vpns(va, n)[j] in m - Firsts(Vpns(va, n), j))
            && Kept(s.mem, mem', r.base, Pages(t)) && NoNewBlocks(r.base, s.mem, t, mem', t)
    decreases n - k
  {
    hide UnmapPage, Vpns, Mapping, Live, Kept;
    if k == n {
      KeptSelf(s.mem, r.base, Pages(t));
      return;
    }
    var (ok, mem1) := UnmapPage(s.mem, pgd, va + 4096 * k);
    UnmapStep(r, s, t, pgd, va, k, n, m);
    if ok {
      UnmapLoopOk(r, s.(mem := mem1), t, pgd, va, k + 1, n, m);
      KeptTrans(s.mem, mem1, UnmapLoop(mem1, pgd, va, k + 1, n).1, r.base, Pages(t));
    }
  }

  /** Range mapping is all or nothing: a failure at any page restores the exact previous translation. */
  lemma MapRangeOk(r: Ram, s: State, t: Tree, pgd: nat, va: nat, pa: nat, size: nat, flags: Flags) returns (t': Tree)
    requires Live(r, s, t, pgd)
    ensures var (ok, s') := MapRange(r, s, pgd, va, pa, size, flags);
            var n := PageCount(va, size);
            var vs, ds := Vpns(AlignedDown(va), n), Descs(AlignedDown(pa), flags, n);
            && Live(r, s', t', pgd) && Grown(r, s, t, s', t')
            && (ok ==> NewPages(Mapping(s.mem, pgd), vs, n)
                       && Mapping(s'.mem, pgd) == Bind(Mapping(s.mem, pgd), vs, ds, n))
            && (!ok ==> Mapping(s'.mem, pgd) == Mapping(s.mem, pgd))
  {
    hide MapLoop, Rollback, Mapping, Live, Vpns, Descs, Grown, Bind, NewPages, PageCount, Fits, AlignedDown;
    LiveRoot(r, s, t, pgd);
    var va0, pa0, n := AlignedDown(va), AlignedDown(pa), PageCount(va, size);
    if size == 0 || va % 4096 != pa % 4096 || !Fits(va, size) || !Fits(pa, size) {
      t' := t;
      GrownSelf(r, s, t, pgd);
      EmptyRange(Mapping(s.mem, pgd), va, pa, flags);
    } else {
      AlignedDownOk(va);
      t' := RangeLoopOk(r, s, t, pgd, va0, pa0, flags, n);
    }
  }

  lemma DifferentPages(m: map<nat, Desc>, vs: seq<nat>, n: nat, k: nat)
    requires k < n - 1 < |vs| && NewPages(m, vs, n)
    ensures vs[k] != vs[n - 1] && NewPages(m, vs, n - 1)
  {
    hide Firsts;
    FirstAmong(vs, n - 1, k);
    assert vs[n - 1] !in Firsts(vs, n - 1);
  }

  lemma {:induction false} FirstAmong(vs: seq<nat>, n: nat, k: nat)
    requires k < n <= |vs|
    ensures vs[k] in Firsts(vs, n)
  {
    if k < n - 1 {
      FirstAmong(vs, n - 1, k);
    }
  }

  /** What was bound stays bound as later pages are added. */
  lemma {:induction false} BindAt(m: map<nat, Desc>, vs: seq<nat>, ds: seq<Desc>, n: nat, k: nat)
    requires k < n <= |vs| == |ds| && NewPages(m, vs, n)
    ensures vs[k] in Bind(m, vs, ds, n) && Bind(m, vs, ds, n)[vs[k]] == ds[k]
  {
    hide Firsts;
    if k < n - 1 {
      DifferentPages(m, vs, n, k);
      BindAt(m, vs, ds, n - 1, k);
    }
  }

  /** The byte at `a` is the physical byte at `pa`, on a page that grants exactly what `flags` ask for. */
  ghost predicate Reaches(m: map<nat, Desc>, a: nat, pa: nat, flags: Flags) {
    Vpn(a) in m && a % 4096 == pa % 4096 && Grants(m[Vpn(a)], AlignedDown(pa), flags)
  }

  /**
   * Every byte of a mapped range, from the first to the last, translates to the byte at the same distance from the physical
   * start, on a page that grants exactly what was asked for.
   */
  lemma MapRangeGrants(r: Ram, s: State, t: Tree, pgd: nat, va: nat, pa: nat, size: nat, flags: Flags, o: nat)
    requires Live(r, s, t, pgd) && MapRange(r, s, pgd, va, pa, size, flags).0 && o < size && pa + size <= ADDRESS_LIMIT
    ensures var m := Mapping(MapRange(r, s, pgd, va, pa, size, flags).1.mem, pgd);
            Reaches(m, va + o, pa + o, flags)
  {
    hide MapRange, Mapping, Live, Grown, Vpns, Descs, Bind, NewPages, PageDescriptor, Grants, Fits, PageCount, AlignedDown, Vpn;
    MapRangeNeeds(r, s, pgd, va, pa, size, flags);
    RangeByte(va, pa, size, o);
    var n, k := PageCount(va, size), (va % 4096 + o) / 4096;
    var _ := MapRangeOk(r, s, t, pgd, va, pa, size, flags);
    BindAt(Mapping(s.mem, pgd), Vpns(AlignedDown(va), n), Descs(AlignedDown(pa), flags, n), n, k);
    VpnsAt(AlignedDown(va), n, k);
    DescsAt(AlignedDown(pa), flags, n, k);
    DescriptorGrants(AlignedDown(pa + o), flags);
  }

  lemma MapRangeNeeds(r: Ram, s: State, pgd: nat, va: nat, pa: nat, size: nat, flags: Flags)
    requires MapRange(r, s, pgd, va, pa, size, flags).0 && size > 0
    ensures va % 4096 == pa % 4096 && Fits(va, size) && Fits(pa, size)
  {
    hide Fits, MapLoop, Rollback;
  }

  /** The page of the range that holds its byte `o`. */
  lemma RangeByte(va: nat, pa: nat, size: nat, o: nat)
    requires o < size && va % 4096 == pa % 4096 && Fits(va, size)
    ensures var k := (va % 4096 + o) / 4096;
            && k < PageCount(va, size) && Vpn(AlignedDown(va) + 4096 * k) == Vpn(va + o)
            && AlignedDown(pa) + 4096 * k == AlignedDown(pa + o) <= pa + o && AlignedDown(pa + o) % 4096 == 0
            && (va + o) % 4096 == (pa + o) % 4096
  {
    var k := (va % 4096 + o) / 4096;
    var q := va / 4096 + k;
    var q' := pa / 4096 + k;
    assert va + o == 4096 * q + (va % 4096 + o) % 4096;
    Quotient(va + o, 4096, q, (va % 4096 + o) % 4096);
    Quotient(pa + o, 4096, q', (va % 4096 + o) % 4096);
    assert AlignedDown(va) + 4096 * k == 4096 * q && AlignedDown(pa) + 4096 * k == 4096 * q';
    Quotient(4096 * q, 4096, q, 0);
    Quotient(4096 * q', 4096, q', 0);
  }

  lemma LiveRoot(r: Ram, s: State, t: Tree, pgd: nat)
    requires Live(r, s, t, pgd)
    ensures pgd != 0
  {
  }

  lemma AlignedDownOk(a: nat)
    ensures AlignedDown(a) % 4096 == 0
  {
  }

  lemma EmptyRange(m: map<nat, Desc>, va: nat, pa: nat, flags: Flags)
    ensures PageCount(va, 0) == 0
    ensures var vs, ds := Vpns(AlignedDown(va), 0), Descs(AlignedDown(pa), flags, 0);
            NewPages(m, vs, 0) && Bind(m, vs, ds, 0) == m
  {
  }

  /** The mapping loop and its rollback, together. */
  lemma RangeLoopOk(r: Ram, s: State, t: Tree, pgd: nat, va: nat, pa: nat, flags: Flags, n: nat) returns (t': Tree)
    requires Live(r, s, t, pgd) && va % 4096 == 0
    ensures var (done, s1) := MapLoop(r, s, pgd, va, pa, flags, 0, n);
            var s' := if done < n then s1.(mem := Rollback(s1.mem, pgd, va, 0, done)) else s1;
            && done <= n && Live(r, s', t', pgd) && Grown(r, s, t, s', t')
            && (done == n ==> NewPages(Mapping(s.mem, pgd), Vpns(va, n), n)
                              && Mapping(s'.mem, pgd)
                                 == Bind(Mapping(s.mem, pgd), Vpns(va, n), Descs(pa, flags, n), n))
            && (done < n ==> Mapping(s'.mem, pgd) == Mapping(s.mem, pgd))
  {
    hide MapLoop, Rollback, Mapping, Live, Vpns, Descs, Grown, Kept;
    var m := Mapping(s.mem, pgd);
    t' := MapLoopOk(r, s, t, pgd, va, pa, flags, 0, n, m);
    var (done, s1) := MapLoop(r, s, pgd, va, pa, flags, 0, n);
    if done < n {
      var b := Bind(m, Vpns(va, n), Descs(pa, flags, n), done);
      assert b - Firsts(Vpns(va, n), 0) == b;
      RollbackOk(r, s1, t', pgd, va, 0, done, n, b);
      BindUndo(m, Vpns(va, n), Descs(pa, flags, n), done);
      GrownUnmap(r, s, t, s1, t', Rollback(s1.mem, pgd, va, 0, done));
    }
  }

  lemma GrownSelf(r: Ram, s: State, t: Tree, pgd: nat)
    requires Live(r, s, t, pgd)
    ensures Grown(r, s, t, s, t)
  {
  }

  lemma GrownUnmap(r: Ram, s: State, t: Tree, s1: State, t1: Tree, mem': Memory)
    requires Grown(r, s, t, s1, t1) && Kept(s1.mem, mem', r.base, Pages(t1)) && NoNewBlocks(r.base, s1.mem, t1, mem', t1)
    ensures Grown(r, s, t, s1.(mem := mem'), t1)
  {
  }

  lemma {:induction false} FirstsElements(vs: seq<nat>, n: nat)
    requires n <= |vs|
    ensures forall v :: v in Firsts(vs, n) <==> exists k: nat :: k < n && vs[k] == v
  {
    if n > 0 {
      FirstsElements(vs, n - 1);
    }
  }

  /** Unmapping a range removes a prefix of its pages: all of them on success, up to the first hole otherwise. */
  lemma UnmapRangeOk(r: Ram, s: State, t: Tree, pgd: nat, va: nat, size: nat) returns (done: nat)
    requires Live(r, s, t, pgd)
    ensures var (ok, mem') := UnmapRange(s.mem, pgd, va, size);
            var n := PageCount(va, size);
            var vs := Vpns(AlignedDown(va), n);
            && done <= n && Live(r, s.(mem := mem'), t, pgd)
            && Kept(s.mem, mem', r.base, Pages(t)) && NoNewBlocks(r.base, s.mem, t, mem', t)
            && Mapping(mem', pgd) == Mapping(s.mem, pgd) - Firsts(vs, done)
            && (ok <==> size == 0 || (Fits(va, size) && done == n))
            && (forall j: nat :: j < done ==> vs[j] in Mapping(s.mem, pgd) - Firsts(vs, j))
            && (!ok && Fits(va, size) ==> vs[done] !in Mapping(s.mem, pgd) - Firsts(vs, done))
  {
    hide UnmapLoop, Mapping, Live, Vpns, PageCount, Fits, AlignedDown, Kept;
    LiveRoot(r, s, t, pgd);
    var va0, n, m := AlignedDown(va), PageCount(va, size), Mapping(s.mem, pgd);
    assert m - Firsts(Vpns(va0, n), 0) == m;
    done := 0;
    if size == 0 || !Fits(va, size) {
      KeptSelf(s.mem, r.base, Pages(t));
      ZeroSize(va, size);
    } else {
      AlignedDownOk(va);
      UnmapLoopOk(r, s, t, pgd, va0, 0, n, m);
      done := UnmapLoop(s.mem, pgd, va0, 0, n).0;
      ZeroSize(va, size);
    }
  }

  lemma ZeroSize(va: nat, size: nat)
    ensures size == 0 ==> !Fits(va, size) && PageCount(va, size) == 0
  {
  }

  /** After a range was mapped, unmapping the same range succeeds and restores the previous translation. */
  lemma MapThenUnmap(r: Ram, s: State, t: Tree, pgd: nat, va: nat, pa: nat, size: nat, flags: Flags)
    requires Live(r, s, t, pgd) && MapRange(r, s, pgd, va, pa, size, flags).0
    ensures var (_, s') := MapRange(r, s, pgd, va, pa, size, flags);
            var (ok, mem'') := UnmapRange(s'.mem, pgd, va, size);
            ok && Mapping(mem'', pgd) == Mapping(s.mem, pgd)
  {
    assert size > 0 ==> Fits(va, size);
    hide MapLoop, Rollback, Mapping, Live, Vpns, Descs, Grown, PageCount, Fits, AlignedDown, MapRange, UnmapRange, Kept;
    var (_, s') := MapRange(r, s, pgd, va, pa, size, flags);
    var t' := MapRangeOk(r, s, t, pgd, va, pa, size, flags);
    var done := UnmapRangeOk(r, s', t', pgd, va, size);
    var n := PageCount(va, size);
    var m, vs, ds := Mapping(s.mem, pgd), Vpns(AlignedDown(va), n), Descs(AlignedDown(pa), flags, n);
    ZeroSize(va, size);
    BindUndo(m, vs, ds, n);
    BindKeys(m, vs, ds, n);
    FirstsElements(vs, n);
  }
}
