/** Which physical pages form one translation tree, and what that tree translates. */
module PageTree {
  import opened Basics
  import opened PhysicalPages
  import opened PageTableFormat

  /** A table's place: its level and the page-number digits that lead to it. */
  datatype Pos = Pos(level: nat, prefix: nat)

  /** The tables of one tree: from place to allocator page index. */
  type Tree = map<Pos, nat>

  const ROOT: Pos := Pos(0, 0)

  function Child(p: Pos, i: nat): Pos {
    Pos(p.level + 1, p.prefix * 512 + i)
  }

  function Parent(p: Pos): Pos
    requires p.level > 0
  {
    Pos(p.level - 1, p.prefix / 512)
  }

  /** The place of the level-`level` table on the walk for `vpn`. */
  function OnPath(vpn: nat, level: nat): Pos
    requires level <= 3
  {
    Pos(level, Prefix(vpn, level))
  }

  function Addr(base: nat, page: nat): nat {
    base + page * 4096
  }

  /** An entry links exactly the child table the tree has at that place. */
  predicate EntryOk(e: Desc, t: Tree, base: nat, child: Pos) {
    if child in t then e.valid && e.table && e.addr == Addr(base, t[child])
    else !(e.valid && e.table)
  }

  ghost predicate Places(t: Tree) {
    && ROOT in t
    && (forall p :: p in t ==> p.level <= 3 && (p.level == 0 ==> p == ROOT))
    && (forall p :: p in t && p.level > 0 ==> Parent(p) in t)
  }

  ghost predicate Injective(t: Tree) {
    forall p, q :: p in t && q in t && t[p] == t[q] ==> p == q
  }

  ghost predicate Links(mem: Memory, base: nat, t: Tree) {
    && (forall p :: p in t ==> Addr(base, t[p]) in mem && Addr(base, t[p]) != 0)
    && (forall p, i :: p in t && p.level < 3 && 0 <= i < 512 ==>
          EntryOk(mem[Addr(base, t[p])][i], t, base, Child(p, i)))
  }

  /** `t` is exactly the tree of distinct table pages that memory holds below `root`. */
  ghost predicate Shape(mem: Memory, base: nat, t: Tree, root: nat) {
    && Places(t) && Injective(t) && Links(mem, base, t)
    && root == Addr(base, t[ROOT])
  }

  /** Every table page is managed and marked used. */
  ghost predicate Marked(t: Tree, total: nat, free: set<nat>) {
    forall p :: p in t ==> t[p] < total && t[p] !in free
  }

  function Pages(t: Tree): set<nat> {
    t.Values
  }

  // ----- Walking

  /** The table at an address; memory never written as a table reads as zero. */
  function TableAt(mem: Memory, table: nat): Table {
    if table in mem then mem[table] else ZeroTable()
  }

  function Entry(mem: Memory, table: nat, i: nat): Desc
    requires i < 512
  {
    TableAt(mem, table)[i]
  }

  function WithEntry(table: Table, i: nat, d: Desc): Table
    requires i < 512
  {
    table[i := d]
  }

  function Store(mem: Memory, table: nat, i: nat, d: Desc): Memory
    requires i < 512
  {
    mem[table := WithEntry(TableAt(mem, table), i, d)]
  }

  /** The level-3 table that a hardware walk for `vpn` reaches from `table`. */
  function Walk(mem: Memory, table: nat, vpn: nat, level: nat): Option<nat>
    requires level <= 3
    decreases 3 - level
  {
    if level == 3 then Some(table)
    else
      var e := Entry(mem, table, Prefix(vpn, level + 1) % 512);
      if e.valid && e.table then Walk(mem, e.addr, vpn, level + 1) else None
  }

  /** What the tables below `root` say about one virtual page. */
  function Lookup(mem: Memory, root: nat, vpn: nat): Option<Desc> {
    if root == 0 then None
    else
      match Walk(mem, root, vpn, 0)
      case None => None
      case Some(leaf) =>
        if leaf != 0 && Entry(mem, leaf, vpn % 512).valid then Some(Entry(mem, leaf, vpn % 512)) else None
  }

  /** The translation as a map from virtual page number to descriptor. */
  ghost function Mapping(mem: Memory, root: nat): map<nat, Desc> {
    map vpn: nat | vpn < VPN_LIMIT && Lookup(mem, root, vpn).Some? :: Lookup(mem, root, vpn).value
  }

  function Get(m: map<nat, Desc>, vpn: nat): Option<Desc> {
    if vpn in m then Some(m[vpn]) else None
  }

  lemma GetIsLookup(mem: Memory, root: nat, vpn: nat)
    ensures Get(Mapping(mem, root), vpn) == if vpn < VPN_LIMIT then Lookup(mem, root, vpn) else None
  {
  }

  lemma StoreIsUpdate(m: map<nat, Desc>, vpn: nat, d: Desc, m': map<nat, Desc>)
    requires forall v: nat :: Get(m', v) == (if v != vpn then Get(m, v) else if d.valid then Some(d) else None)
    ensures m' == if d.valid then m[vpn := d] else m - {vpn}
  {
    var u := if d.valid then m[vpn := d] else m - {vpn};
    assert forall v: nat :: Get(u, v) == Get(m', v);
    SameGets(u, m');
  }

  lemma SameGets(m: map<nat, Desc>, m': map<nat, Desc>)
    requires forall v: nat :: Get(m, v) == Get(m', v)
    ensures m == m'
  {
    forall v: nat
      ensures v in m <==> v in m'
      ensures v in m ==> m[v] == m'[v]
    {
      assert Get(m, v) == Get(m', v);
    }
  }

  /** The leaf entry of `vpn`, read through the ghost tree. */
  ghost function Leaf(mem: Memory, base: nat, t: Tree, vpn: nat): Desc
    requires Links(mem, base, t)
  {
    if OnPath(vpn, 3) in t then mem[Addr(base, t[OnPath(vpn, 3)])][vpn % 512] else ZERO
  }

  lemma PathStep(vpn: nat, level: nat)
    requires level < 3
    ensures OnPath(vpn, level + 1) == Child(OnPath(vpn, level), Prefix(vpn, level + 1) % 512)
    ensures Parent(OnPath(vpn, level + 1)) == OnPath(vpn, level)
  {
    PrefixStep(vpn, level);
  }

  /** From any table on its path, the walk ends in the leaf table the tree has for `vpn`. */
  lemma {:induction false} WalkFollowsTree(mem: Memory, base: nat, t: Tree, vpn: nat, level: nat)
    requires Places(t) && Links(mem, base, t)
    requires level <= 3 && OnPath(vpn, level) in t
    ensures Walk(mem, Addr(base, t[OnPath(vpn, level)]), vpn, level)
         == if OnPath(vpn, 3) in t then Some(Addr(base, t[OnPath(vpn, 3)])) else None
    decreases 3 - level
  {
    if level < 3 {
      PathStep(vpn, level);
      var p := OnPath(vpn, level);
      var i := Prefix(vpn, level + 1) % 512;
      assert EntryOk(mem[Addr(base, t[p])][i], t, base, Child(p, i));
      if OnPath(vpn, level + 1) in t {
        WalkFollowsTree(mem, base, t, vpn, level + 1);
      } else {
        PathBroken(t, vpn, level + 1);
      }
    }
  }

  /** A missing table on the path means a missing leaf table. */
  lemma {:induction false} PathBroken(t: Tree, vpn: nat, level: nat)
    requires Places(t) && level <= 3 && OnPath(vpn, level) !in t
    ensures OnPath(vpn, 3) !in t
    decreases 3 - level
  {
    if level < 3 {
      PathStep(vpn, level);
      PathBroken(t, vpn, level + 1);
    }
  }

  /** The walk reads exactly the leaf entries of the tree. */
  lemma LookupIsLeaf(mem: Memory, base: nat, t: Tree, root: nat, vpn: nat)
    requires Shape(mem, base, t, root) && vpn < VPN_LIMIT
    ensures Lookup(mem, root, vpn)
         == if Leaf(mem, base, t, vpn).valid then Some(Leaf(mem, base, t, vpn)) else None
  {
    assert OnPath(vpn, 0) == ROOT;
    WalkFollowsTree(mem, base, t, vpn, 0);
  }

  /** Trees that read the same leaves give the same translation. */
  lemma SameLeavesSameMapping(mem: Memory, t: Tree, mem': Memory, t': Tree, base: nat, root: nat)
    requires Shape(mem, base, t, root) && Shape(mem', base, t', root)
    requires forall v: nat :: v < VPN_LIMIT ==> Leaf(mem', base, t', v) == Leaf(mem, base, t, v)
    ensures Mapping(mem', root) == Mapping(mem, root)
  {
    forall v: nat
      ensures Get(Mapping(mem', root), v) == Get(Mapping(mem, root), v)
    {
      GetIsLookup(mem, root, v);
      GetIsLookup(mem', root, v);
      if v < VPN_LIMIT {
        LookupIsLeaf(mem, base, t, root, v);
        LookupIsLeaf(mem', base, t', root, v);
      }
    }
    SameGets(Mapping(mem', root), Mapping(mem, root));
  }

  /** Memory that keeps a tree's own pages keeps the tree and its translation. */
  lemma Frame(mem: Memory, mem': Memory, base: nat, t: Tree, root: nat)
    requires Shape(mem, base, t, root)
    requires forall p :: p in t ==> Addr(base, t[p]) in mem' && mem'[Addr(base, t[p])] == mem[Addr(base, t[p])]
    ensures Shape(mem', base, t, root)
    ensures Mapping(mem', root) == Mapping(mem, root)
  {
    assert Links(mem', base, t);
    SameLeavesSameMapping(mem, t, mem', t, base, root);
  }

  lemma AddrInjective(base: nat, x: nat, y: nat)
    ensures Addr(base, x) == Addr(base, y) ==> x == y
  {
  }

  /** Pages outside `changed` keep their contents. */
  ghost predicate Kept(mem: Memory, mem': Memory, base: nat, changed: set<nat>) {
    forall x: nat :: x !in changed && Addr(base, x) in mem ==>
      Addr(base, x) in mem' && mem'[Addr(base, x)] == mem[Addr(base, x)]
  }

  /** A tree that shares no page with what changed is untouched. */
  lemma DisjointTreeKept(mem: Memory, mem': Memory, base: nat, changed: set<nat>, t: Tree, root: nat)
    requires Shape(mem, base, t, root) && Kept(mem, mem', base, changed) && Pages(t) !! changed
    ensures Shape(mem', base, t, root)
    ensures Mapping(mem', root) == Mapping(mem, root)
  {
    forall p | p in t
      ensures Addr(base, t[p]) in mem' && mem'[Addr(base, t[p])] == mem[Addr(base, t[p])]
    {
      assert t[p] in Pages(t);
    }
    Frame(mem, mem', base, t, root);
  }

  // ----- Trees without blocks

  /** Above the last level every valid entry is a table, as in every tree this code builds. */
  ghost predicate NoBlocks(mem: Memory, base: nat, t: Tree) {
    forall p, i: nat :: p in t && p.level < 3 && i < 512 ==> Linked(mem, base, t, p, i)
  }

  ghost predicate Linked(mem: Memory, base: nat, t: Tree, p: Pos, i: nat)
    requires p in t && i < 512
  {
    Entry(mem, Addr(base, t[p]), i).valid ==> Entry(mem, Addr(base, t[p]), i).table
  }

  lemma DisjointNoBlocks(mem: Memory, mem': Memory, base: nat, changed: set<nat>, t: Tree, root: nat)
    requires Shape(mem, base, t, root) && Kept(mem, mem', base, changed) && Pages(t) !! changed && NoBlocks(mem, base, t)
    ensures NoBlocks(mem', base, t)
  {
    forall p, i: nat | p in t && p.level < 3 && i < 512
      ensures Linked(mem', base, t, p, i)
    {
      assert t[p] in Pages(t) && Linked(mem, base, t, p, i);
    }
  }

  /** Linking a fresh table makes no block. */
  lemma GrowNoBlocks(mem: Memory, base: nat, t: Tree, root: nat, p: Pos, i: nat, page: nat)
    requires Shape(mem, base, t, root) && NoBlocks(mem, base, t)
    requires p in t && p.level < 3 && i < 512 && Child(p, i) !in t && page !in t.Values
    ensures NoBlocks(Store(mem[Addr(base, page) := ZeroTable()], Addr(base, t[p]), i, TableDesc(Addr(base, page))),
                     base, t[Child(p, i) := page])
  {
    var t' := t[Child(p, i) := page];
    var mem' := Store(mem[Addr(base, page) := ZeroTable()], Addr(base, t[p]), i, TableDesc(Addr(base, page)));
    AddrInjective(base, t[p], page);
    forall q, j: nat | q in t' && q.level < 3 && j < 512
      ensures Linked(mem', base, t', q, j)
    {
      AddrInjective(base, t'[q], page);
      AddrInjective(base, t'[q], t[p]);
      if q in t && q != Child(p, i) {
        assert Linked(mem, base, t, q, j);
      }
    }
  }

  /** An entry of the last level is never a block. */
  lemma LeafNoBlocks(mem: Memory, base: nat, t: Tree, root: nat, vpn: nat, i: nat, d: Desc)
    requires Shape(mem, base, t, root) && NoBlocks(mem, base, t) && OnPath(vpn, 3) in t && i < 512
    ensures NoBlocks(Store(mem, Addr(base, t[OnPath(vpn, 3)]), i, d), base, t)
  {
    var leaf := OnPath(vpn, 3);
    var mem' := Store(mem, Addr(base, t[leaf]), i, d);
    forall q, j: nat | q in t && q.level < 3 && j < 512
      ensures Linked(mem', base, t, q, j)
    {
      assert Linked(mem, base, t, q, j) && t[q] != t[leaf];
      AddrInjective(base, t[q], t[leaf]);
    }
  }

  // ----- Effects of single stores on the tree

  /** Linking a fresh zeroed table keeps the shape and adds no translation. */
  lemma AddTable(mem: Memory, base: nat, t: Tree, root: nat, p: Pos, i: nat, page: nat,
                 mem': Memory, t': Tree)
    requires Shape(mem, base, t, root)
    requires p in t && p.level < 3 && 0 <= i < 512 && Child(p, i) !in t
    requires page !in t.Values
    requires Addr(base, page) % 4096 == 0 && 0 < Addr(base, page) < ADDRESS_LIMIT
    requires t' == t[Child(p, i) := page]
    requires var m1 := mem[Addr(base, page) := ZeroTable()];
             mem' == m1[Addr(base, t[p]) := m1[Addr(base, t[p])][i := TableDesc(Addr(base, page))]]
    ensures Shape(mem', base, t', root)
    ensures Mapping(mem', root) == Mapping(mem, root)
  {
    hide ZeroTable, TableDesc, Mapping, Places, Injective, Links;
    AddTablePlaces(t, p, i, page, t');
    AddTableLinks(mem, base, t, root, p, i, page, mem', t');
    AddTableLeaves(mem, base, t, root, p, i, page, mem', t');
    assert t'[ROOT] == t[ROOT] by { RootIsNoChild(p, i); RootIn(t); }
    SameLeavesSameMapping(mem, t, mem', t', base, root);
  }

  lemma RootIsNoChild(p: Pos, i: nat)
    ensures Child(p, i) != ROOT
  {
  }

  lemma RootIn(t: Tree)
    requires Places(t)
    ensures ROOT in t
  {
  }

  lemma AddTableLeaves(mem: Memory, base: nat, t: Tree, root: nat, p: Pos, i: nat, page: nat, mem': Memory, t': Tree)
    requires Shape(mem, base, t, root) && Links(mem', base, t')
    requires p in t && p.level < 3 && 0 <= i < 512 && Child(p, i) !in t && page !in t.Values
    requires t' == t[Child(p, i) := page]
    requires var m1 := mem[Addr(base, page) := ZeroTable()];
             mem' == m1[Addr(base, t[p]) := m1[Addr(base, t[p])][i := TableDesc(Addr(base, page))]]
    ensures forall v: nat :: v < VPN_LIMIT ==> Leaf(mem', base, t', v) == Leaf(mem, base, t, v)
  {
    hide EntryOk;
    forall v: nat | v < VPN_LIMIT
      ensures Leaf(mem', base, t', v) == Leaf(mem, base, t, v)
    {
      var q := OnPath(v, 3);
      if q in t {
        assert t'[q] == t[q] != page && t[q] != t[p];
        AddrInjective(base, t[q], page);
        AddrInjective(base, t[q], t[p]);
      }
    }
  }

  lemma AddTablePlaces(t: Tree, p: Pos, i: nat, page: nat, t': Tree)
    requires Places(t) && Injective(t) && p in t && p.level < 3 && 0 <= i < 512
    requires Child(p, i) !in t && page !in t.Values
    requires t' == t[Child(p, i) := page]
    ensures Places(t') && Injective(t')
  {
    assert Parent(Child(p, i)) == p;
    forall q, r | q in t' && r in t' && t'[q] == t'[r]
      ensures q == r
    {
      if q in t && r in t {
        assert t[q] == t[r];
      }
    }
  }

  lemma ChildInjective(p: Pos, i: nat, q: Pos, j: nat)
    requires i < 512 && j < 512
    ensures Child(p, i) == Child(q, j) ==> p == q && i == j
  {
  }

  lemma AddTableLinks(mem: Memory, base: nat, t: Tree, root: nat, p: Pos, i: nat, page: nat,
                      mem': Memory, t': Tree)
    requires Shape(mem, base, t, root)
    requires p in t && p.level < 3 && 0 <= i < 512 && Child(p, i) !in t
    requires page !in t.Values
    requires Addr(base, page) % 4096 == 0 && 0 < Addr(base, page) < ADDRESS_LIMIT
    requires t' == t[Child(p, i) := page]
    requires var m1 := mem[Addr(base, page) := ZeroTable()];
             mem' == m1[Addr(base, t[p]) := m1[Addr(base, t[p])][i := TableDesc(Addr(base, page))]]
    ensures Links(mem', base, t')
  {
    hide EntryOk, TableDesc, ZeroTable;
    AddTableMapped(mem, base, t, p, i, page, mem', t');
    forall q, j | q in t' && q.level < 3 && 0 <= j < 512
      ensures EntryOk(mem'[Addr(base, t'[q])][j], t', base, Child(q, j))
    {
      AddTableEntry(mem, base, t, root, p, i, page, mem', t', q, j);
    }
  }

  lemma AddTableMapped(mem: Memory, base: nat, t: Tree, p: Pos, i: nat, page: nat, mem': Memory, t': Tree)
    requires Links(mem, base, t) && p in t && 0 <= i < 512 && Addr(base, page) != 0
    requires t' == t[Child(p, i) := page]
    requires var m1 := mem[Addr(base, page) := ZeroTable()];
             mem' == m1[Addr(base, t[p]) := m1[Addr(base, t[p])][i := TableDesc(Addr(base, page))]]
    ensures forall q :: q in t' ==> Addr(base, t'[q]) in mem' && Addr(base, t'[q]) != 0
  {
  }

  lemma AddTableEntry(mem: Memory, base: nat, t: Tree, root: nat, p: Pos, i: nat, page: nat,
                      mem': Memory, t': Tree, q: Pos, j: nat)
    requires Shape(mem, base, t, root)
    requires p in t && p.level < 3 && 0 <= i < 512 && Child(p, i) !in t
    requires page !in t.Values
    requires Addr(base, page) % 4096 == 0 && 0 < Addr(base, page) < ADDRESS_LIMIT
    requires t' == t[Child(p, i) := page]
    requires var m1 := mem[Addr(base, page) := ZeroTable()];
             mem' == m1[Addr(base, t[p]) := m1[Addr(base, t[p])][i := TableDesc(Addr(base, page))]]
    requires q in t' && q.level < 3 && 0 <= j < 512 && Addr(base, t'[q]) in mem'
    ensures EntryOk(mem'[Addr(base, t'[q])][j], t', base, Child(q, j))
  {
    hide ZeroTable, EntryOk, TableDesc, Injective;
    if q == Child(p, i) {
      AddTableFresh(mem, base, t, p, i, page, mem', j);
      assert Child(q, j) !in t;
      EmptyEntryOk(t', base, Child(q, j));
    } else {
      ChildInjective(p, i, q, j);
      AddTableElsewhere(mem, base, t, p, i, page, mem', q, j);
      if Child(q, j) == Child(p, i) {
        LinkEntryOk(t', base, Child(p, i));
      } else {
        assert EntryOk(mem[Addr(base, t[q])][j], t, base, Child(q, j));
        OldEntryOk(mem[Addr(base, t[q])][j], t, base, Child(q, j), Child(p, i), page);
      }
    }
  }

  lemma EmptyEntryOk(t: Tree, base: nat, child: Pos)
    requires child !in t
    ensures EntryOk(ZERO, t, base, child)
  {
  }

  lemma LinkEntryOk(t: Tree, base: nat, child: Pos)
    requires child in t && Addr(base, t[child]) % 4096 == 0 && Addr(base, t[child]) < ADDRESS_LIMIT
    ensures EntryOk(TableDesc(Addr(base, t[child])), t, base, child)
  {
    hide AddrMask, Addr;
    MaskKeeps(Addr(base, t[child]));
  }

  lemma OldEntryOk(e: Desc, t: Tree, base: nat, child: Pos, other: Pos, page: nat)
    requires EntryOk(e, t, base, child) && child != other
    ensures EntryOk(e, t[other := page], base, child)
  {
  }

  lemma AddTableFresh(mem: Memory, base: nat, t: Tree, p: Pos, i: nat, page: nat, mem': Memory, j: nat)
    requires Links(mem, base, t) && p in t && i < 512 && j < 512 && page !in t.Values
    requires var m1 := mem[Addr(base, page) := ZeroTable()];
             mem' == m1[Addr(base, t[p]) := m1[Addr(base, t[p])][i := TableDesc(Addr(base, page))]]
    ensures Addr(base, page) in mem' && mem'[Addr(base, page)][j] == ZERO
  {
    AddrInjective(base, t[p], page);
  }

  lemma AddTableElsewhere(mem: Memory, base: nat, t: Tree, p: Pos, i: nat, page: nat, mem': Memory, q: Pos, j: nat)
    requires Injective(t) && Links(mem, base, t)
    requires p in t && q in t && i < 512 && j < 512 && page !in t.Values
    requires var m1 := mem[Addr(base, page) := ZeroTable()];
             mem' == m1[Addr(base, t[p]) := m1[Addr(base, t[p])][i := TableDesc(Addr(base, page))]]
    ensures Addr(base, t[q]) in mem'
    ensures mem'[Addr(base, t[q])][j]
         == if p == q && i == j then TableDesc(Addr(base, page)) else mem[Addr(base, t[q])][j]
  {
    AddrInjective(base, t[q], page);
    AddrInjective(base, t[p], page);
    AddrInjective(base, t[q], t[p]);
  }

  lemma SetLeafShape(mem: Memory, base: nat, t: Tree, root: nat, vpn: nat, d: Desc, mem': Memory)
    requires Shape(mem, base, t, root)
    requires OnPath(vpn, 3) in t
    requires var a := Addr(base, t[OnPath(vpn, 3)]); mem' == mem[a := mem[a][vpn % 512 := d]]
    ensures Shape(mem', base, t, root)
  {
    var p := OnPath(vpn, 3);
    forall q, j | q in t && q.level < 3 && 0 <= j < 512
      ensures EntryOk(mem'[Addr(base, t[q])][j], t, base, Child(q, j))
    {
      assert EntryOk(mem[Addr(base, t[q])][j], t, base, Child(q, j));
      AddrInjective(base, t[q], t[p]);
    }
  }

  lemma SetLeafAt(mem: Memory, base: nat, t: Tree, vpn: nat, d: Desc, mem': Memory, v: nat)
    requires Links(mem, base, t) && Links(mem', base, t) && Injective(t)
    requires OnPath(vpn, 3) in t
    requires var a := Addr(base, t[OnPath(vpn, 3)]); mem' == mem[a := mem[a][vpn % 512 := d]]
    ensures Leaf(mem', base, t, v) == if v == vpn then d else Leaf(mem, base, t, v)
  {
    var p, q := OnPath(vpn, 3), OnPath(v, 3);
    if q in t {
      AddrInjective(base, t[q], t[p]);
      assert v == v / 512 * 512 + v % 512;
      assert vpn == vpn / 512 * 512 + vpn % 512;
    }
  }

  lemma SetLeafLookup(mem: Memory, base: nat, t: Tree, root: nat, vpn: nat, d: Desc, mem': Memory, v: nat)
    requires Shape(mem, base, t, root) && Shape(mem', base, t, root)
    requires OnPath(vpn, 3) in t && v < VPN_LIMIT
    requires var a := Addr(base, t[OnPath(vpn, 3)]); mem' == mem[a := mem[a][vpn % 512 := d]]
    ensures Lookup(mem', root, v)
         == if v != vpn then Lookup(mem, root, v) else if d.valid then Some(d) else None
  {
    LookupIsLeaf(mem, base, t, root, v);
    LookupIsLeaf(mem', base, t, root, v);
    SetLeafAt(mem, base, t, vpn, d, mem', v);
  }

  /** Storing one leaf entry changes the translation of that page and of no other. */
  lemma SetLeaf(mem: Memory, base: nat, t: Tree, root: nat, vpn: nat, d: Desc, mem': Memory)
    requires Shape(mem, base, t, root) && vpn < VPN_LIMIT
    requires OnPath(vpn, 3) in t
    requires var a := Addr(base, t[OnPath(vpn, 3)]); mem' == mem[a := mem[a][vpn % 512 := d]]
    ensures Shape(mem', base, t, root)
    ensures Mapping(mem', root)
         == if d.valid then Mapping(mem, root)[vpn := d] else Mapping(mem, root) - {vpn}
  {
    SetLeafShape(mem, base, t, root, vpn, d, mem');
    var m, m' := Mapping(mem, root), Mapping(mem', root);
    forall v: nat
      ensures Get(m', v) == if v != vpn then Get(m, v) else if d.valid then Some(d) else None
    {
      GetIsLookup(mem, root, v);
      GetIsLookup(mem', root, v);
      if v < VPN_LIMIT {
        SetLeafLookup(mem, base, t, root, vpn, d, mem', v);
      }
    }
    StoreIsUpdate(m, vpn, d, m');
  }
}
