/** What one change of the device does to a well-formed volume. */
module Fat32Steps {
  import opened Basics
  import opened Fat32Layout
  import opened FatChains
  import opened Fat32Disk
  import opened Fat32Volume

  // ----- Chains

  ghost function ChainOf(chains: Chains, o: Owner): seq<nat> {
    if o in chains then chains[o] else []
  }

  function Last(ch: seq<nat>): nat {
    if |ch| == 0 then 0 else ch[|ch| - 1]
  }

  lemma PathMarked(fat: Fat, ch: seq<nat>, i: nat)
    requires SmallFat(fat) && IsPath(fat, ch) && i < |ch|
    ensures IsCluster(fat, ch[i]) && fat[ch[i]] != 0 && fat[ch[i]] != BAD
  {
    if i < |ch| - 1 {
      assert fat[ch[i]] == ch[i + 1] && IsCluster(fat, ch[i + 1]);
    }
  }

  lemma PathKept(fat: Fat, fat': Fat, ch: seq<nat>)
    requires IsPath(fat, ch) && |fat'| == |fat|
    requires forall i :: 0 <= i < |ch| && ch[i] < |fat| ==> fat'[ch[i]] == fat[ch[i]]
    ensures IsPath(fat', ch)
  {
    forall i | 0 <= i < |ch|
      ensures IsCluster(fat', ch[i])
    {
      assert IsCluster(fat, ch[i]);
    }
    assert fat'[ch[|ch| - 1]] == fat[ch[|ch| - 1]];
  }

  /** A cluster that is free is in nobody's chain. */
  lemma FreeUnowned(fat: Fat, chains: Chains, n: nat, o: Owner)
    requires SmallFat(fat) && ChainsOk(fat, chains) && IsCluster(fat, n) && fat[n] == 0 && o in chains
    ensures n !in chains[o]
  {
    if n in chains[o] {
      assert ChainOk(fat, o, chains[o]);
      var i :| 0 <= i < |chains[o]| && chains[o][i] == n;
      PathMarked(fat, chains[o], i);
    }
  }

  /** Outside `ch` and `n`, nothing changes between the tables. */
  ghost predicate Elsewhere(fat: Fat, fat': Fat, ch: seq<nat>) {
    |fat'| == |fat| && forall c: nat :: c < |fat| && c !in ch ==> fat'[c] == fat[c]
  }

  lemma PathsElsewhere(fat: Fat, fat': Fat, chains: Chains, o: Owner, ch: seq<nat>)
    requires PathsOk(fat, chains) && Elsewhere(fat, fat', ch)
    requires forall p :: p in chains && p != o ==> Disjoint(ch, chains[p])
    ensures PathsOk(fat', chains - {o})
  {
    hide IsPath;
    forall p | p in chains - {o}
      ensures ChainOk(fat', p, chains[p])
    {
      assert ChainOk(fat, p, chains[p]);
      assert Disjoint(ch, chains[p]);
      if |chains[p]| > 0 || !p.Slot? {
        PathKept(fat, fat', chains[p]);
      }
    }
  }

  lemma CoveredElsewhere(fat: Fat, fat': Fat, chains: Chains, o: Owner, ch: seq<nat>)
    requires Covered(fat, chains) && Elsewhere(fat, fat', ch) && (forall c :: c in ChainOf(chains, o) ==> c in ch)
    requires forall c :: c in ch && c < |fat'| ==> fat'[c] == 0
    ensures Covered(fat', chains - {o})
  {
    forall c: nat | IsCluster(fat', c) && fat'[c] != 0 && fat'[c] != BAD
      ensures Owned(chains - {o}, c)
    {
      assert Owned(chains, c);
      var p :| p in chains && c in chains[p];
      assert p in chains - {o} && c in (chains - {o})[p];
    }
  }

  lemma CoveredWith(fat: Fat, fat': Fat, chains: Chains, o: Owner, ch: seq<nat>)
    requires Covered(fat, chains) && Elsewhere(fat, fat', ch) && (forall c :: c in ChainOf(chains, o) ==> c in ch)
    ensures Covered(fat', chains[o := ch])
  {
    forall c: nat | IsCluster(fat', c) && fat'[c] != 0 && fat'[c] != BAD
      ensures Owned(chains[o := ch], c)
    {
      if c in ch {
        assert o in chains[o := ch] && c in chains[o := ch][o];
      } else {
        assert Owned(chains, c);
        var p :| p in chains && c in chains[p];
        assert p in chains[o := ch] && c in chains[o := ch][p];
      }
    }
  }

  /** A chain may take a cluster that nobody has. */
  lemma ApartWith(chains: Chains, o: Owner, n: nat)
    requires Apart(chains) && forall p :: p in chains ==> n !in chains[p]
    ensures Apart(chains[o := ChainOf(chains, o) + [n]])
    ensures forall p :: p in chains && p != o ==> Disjoint(ChainOf(chains, o) + [n], chains[p])
  {
    forall p | p in chains && p != o
      ensures Disjoint(ChainOf(chains, o) + [n], chains[p]) && Disjoint(chains[p], ChainOf(chains, o) + [n])
    {
      assert o in chains ==> Disjoint(chains[o], chains[p]);
    }
    hide Disjoint;
  }

  /** Allocating a cluster for a file keeps the chains in order and gives the cluster to that file alone. */
  lemma AllocStep(fat: Fat, chains: Chains, o: Owner, n: nat)
    requires SmallFat(fat) && ChainsOk(fat, chains) && o.Slot?
    requires Allocate(fat, Last(ChainOf(chains, o))).0 == Some(n)
    ensures IsCluster(fat, n) && forall p :: p in chains ==> n !in chains[p]
    ensures ChainsOk(Allocate(fat, Last(ChainOf(chains, o))).1, chains[o := ChainOf(chains, o) + [n]])
  {
    var ch := ChainOf(chains, o);
    var fat' := Allocate(fat, Last(ch)).1;
    assert |ch| > 0 ==> ChainOk(fat, o, ch);
    AllocateOk(fat, ch);
    hide Allocate, IsPath, Disjoint, Covered;
    forall p | p in chains
      ensures n !in chains[p]
    {
      FreeUnowned(fat, chains, n, p);
    }
    ApartWith(chains, o, n);
    assert Elsewhere(fat, fat', ch + [n]);
    PathsElsewhere(fat, fat', chains, o, ch + [n]);
    CoveredWith(fat, fat', chains, o, ch + [n]);
    PathsAdd(fat', chains, o, ch + [n]);
  }

  lemma PathsAdd(fat: Fat, chains: Chains, o: Owner, ch: seq<nat>)
    requires PathsOk(fat, chains - {o}) && ChainOk(fat, o, ch)
    ensures PathsOk(fat, chains[o := ch])
  {
    hide ChainOk;
    var chains' := chains[o := ch];
    forall p | p in chains'
      ensures ChainOk(fat, p, chains'[p])
    {
      if p != o {
        assert p in chains - {o} && (chains - {o})[p] == chains[p];
      }
    }
  }

  /** Freeing a file's chain frees its clusters and no one else's. */
  lemma FreeStep(fat: Fat, chains: Chains, o: Owner)
    requires SmallFat(fat) && ChainsOk(fat, chains) && o in chains && |chains[o]| > 0
    ensures FreeChain(fat, chains[o][0]) == (true, Cleared(fat, chains[o]))
    ensures ChainsOk(Cleared(fat, chains[o]), chains - {o})
  {
    var ch := chains[o];
    assert ChainOk(fat, o, ch);
    FreeChainOk(fat, ch);
    PathHead(fat, ch);
    hide FreeChain, IsPath, Cleared, Disjoint, Covered, PathsOk;
    var fat' := Cleared(fat, ch);
    assert |fat'| == |fat| by { ClearedAt(fat, ch, ch[0]); }
    forall c: nat | c < |fat|
      ensures fat'[c] == if c in ch then 0 else fat[c]
    {
      ClearedAt(fat, ch, c);
    }
    PathsElsewhere(fat, fat', chains, o, ch);
    CoveredElsewhere(fat, fat', chains, o, ch);
  }

  lemma PathHead(fat: Fat, ch: seq<nat>)
    requires IsPath(fat, ch)
    ensures |ch| > 0 && 0 <= ch[0] < |fat|
  {
    assert IsCluster(fat, ch[0]);
  }

  /** An owner without clusters can go without further ado. */
  lemma DropStep(fat: Fat, chains: Chains, o: Owner)
    requires ChainsOk(fat, chains) && o in chains && |chains[o]| == 0
    ensures ChainsOk(fat, chains - {o})
  {
    hide IsPath;
    forall c: nat | IsCluster(fat, c) && fat[c] != 0 && fat[c] != BAD
      ensures Owned(chains - {o}, c)
    {
      assert Owned(chains, c);
      var p :| p in chains && c in chains[p];
      assert p in chains - {o};
    }
  }

  // ----- Sectors

  /** The devices hold the same in the sectors `lbas`. */
  ghost predicate Agree(disk: Disk, disk': Disk, lbas: seq<nat>) {
    |disk'| == |disk| && forall j :: 0 <= j < |lbas| && lbas[j] < |disk| ==> disk'[lbas[j]] == disk[lbas[j]]
  }

  lemma AgreeDir(disk: Disk, disk': Disk, lbas: seq<nat>)
    requires Agree(disk, disk', lbas)
    ensures Dir(disk', lbas) == Dir(disk, lbas)
  {
    forall n: nat | n < 16 * |lbas|
      ensures SlotAt(disk', lbas, n) == SlotAt(disk, lbas, n)
    {
    }
    assert |Dir(disk', lbas)| == |Dir(disk, lbas)|;
  }

  lemma AgreeContent(disk: Disk, disk': Disk, lbas: seq<nat>, size: nat)
    requires Agree(disk, disk', lbas)
    ensures Content(disk', lbas, size) == Content(disk, lbas, size)
  {
    forall p: nat | p < size
      ensures ByteAt(disk', lbas, p) == ByteAt(disk, lbas, p)
    {
    }
    assert |Content(disk', lbas, size)| == |Content(disk, lbas, size)|;
  }

  lemma SmallTable(g: Geometry, disk: Disk)
    requires DiskOk(g, disk)
    ensures SmallFat(FatView(disk, g)) && |FatView(disk, g)| == g.clusters + 2
  {
  }

  /** The chains of a volume run through data clusters, none of them twice. */
  lemma ChainData(g: Geometry, disk: Disk, others: map<nat, seq<nat>>, chains: Chains, o: Owner)
    requires TableOk(g, disk, others, chains) && o in chains
    ensures AllData(g, chains[o]) && Distinct(chains[o])
  {
    var fat := FatView(disk, g);
    SmallTable(g, disk);
    assert ChainOk(fat, o, chains[o]);
    if |chains[o]| > 0 {
      PathDistinct(fat, chains[o]);
      assert forall i :: 0 <= i < |chains[o]| ==> IsCluster(fat, chains[o][i]);
    }
  }

  /** A change of one data sector of `o` is no change to the table nor to any other chain. */
  lemma SectorStep(g: Geometry, disk: Disk, others: map<nat, seq<nat>>, chains: Chains, o: Owner, j: nat, s: Sector)
    requires TableOk(g, disk, others, chains) && o in chains && j < |Lbas(g, chains[o])|
    ensures Lbas(g, chains[o])[j] < |disk|
    ensures var disk' := disk[Lbas(g, chains[o])[j] := s];
            && TableOk(g, disk', others, chains)
            && Distinct(Lbas(g, chains[o]))
            && forall p :: p in chains && p != o ==> Agree(disk, disk', Lbas(g, chains[p]))
  {
    hide ChainsOk, Mirrored, FatView, OthersOk, RootOk;
    ChainData(g, disk, others, chains, o);
    LbasInRange(g, chains[o]);
    LbasDistinct(g, chains[o]);
    var l := Lbas(g, chains[o])[j];
    TableFrame(disk, disk[l := s], g);
    forall p | p in chains && p != o
      ensures Agree(disk, disk[l := s], Lbas(g, chains[p]))
    {
      ChainData(g, disk, others, chains, p);
      assert Disjoint(chains[p], chains[o]) by { assert Apart(chains) by { TableApart(g, disk, others, chains); } }
      LbasApart(g, chains[p], chains[o]);
    }
  }

  lemma TableApart(g: Geometry, disk: Disk, others: map<nat, seq<nat>>, chains: Chains)
    requires TableOk(g, disk, others, chains)
    ensures Apart(chains)
  {
  }

  // ----- The directory

  /** Replacing slot `n` keeps the directory in order, if the new slot fits the new chains. */
  lemma DirReplace(g: Geometry, dir: seq<Slot32>, chains: Chains, n: nat, e: Slot32, chains': Chains)
    requires DirOk(g, dir, chains) && n < |dir|
    requires forall m: nat :: m != n ==>
               (Slot(m) in chains' <==> Slot(m) in chains) && (Slot(m) in chains ==> chains'[Slot(m)] == chains[Slot(m)])
    requires Slot(n) in chains' <==> IsFile(e)
    requires Slot(n) in chains' ==> EntryOk(g, e, chains'[Slot(n)])
    requires IsFile(e) ==> forall m :: 0 <= m < |dir| && m != n && IsFile(dir[m]) ==> Name(dir[m]) != Name(e)
    requires e[0] == 0 ==> dir[n][0] == 0
    requires !IsFree(e) ==> forall m :: 0 <= m < n ==> dir[m][0] != 0
    ensures DirOk(g, dir[n := e], chains')
  {
    hide EntryOk, Name;
    assert UniqueNames(dir[n := e]) by { hide FreeTail; }
    assert FreeTail(dir[n := e]) by { hide IsFile; }
  }

  /** A file entry never follows the end mark. */
  lemma NoEndBefore(g: Geometry, dir: seq<Slot32>, n: nat)
    requires FreeTail(dir) && n < |dir| && !IsFree(dir[n])
    ensures forall m :: 0 <= m < n ==> dir[m][0] != 0
  {
  }

  /** A sector that differs only in slot `n` changes that slot of the directory. */
  lemma SlotStep(disk: Disk, lbas: seq<nat>, n: nat, s: Sector)
    requires Distinct(lbas) && n < 16 * |lbas| && lbas[n / 16] < |disk|
    requires OnlySlot(disk[lbas[n / 16]], s, n)
    ensures Dir(disk[lbas[n / 16] := s], lbas) == Dir(disk, lbas)[n := SlotOf(s, n)]
  {
    var disk' := disk[lbas[n / 16] := s];
    forall m: nat | m < 16 * |lbas|
      ensures SlotAt(disk', lbas, m) == if m == n then SlotOf(s, n) else SlotAt(disk, lbas, m)
    {
      if m / 16 == n / 16 {
        if m != n {
          assert 32 * (m % 16) + 32 <= 32 * (n % 16) || 32 * (n % 16) + 32 <= 32 * (m % 16);
          assert SlotAt(disk', lbas, m) == SlotAt(disk, lbas, m);
        }
      } else {
        assert lbas[m / 16] != lbas[n / 16];
      }
    }
    assert |Dir(disk', lbas)| == |Dir(disk, lbas)|;
  }
}
