/** The changes the file operations are made of, each from one well-formed volume to another. */
module Fat32Changes {
  import opened Basics
  import opened Fat32Layout
  import opened FatChains
  import opened Fat32Disk
  import opened Fat32Volume
  import opened Fat32Steps

  /** Between `disk` and `disk'` only the table changed, to `fat'`. */
  ghost predicate TableChange(g: Geometry, disk: Disk, disk': Disk, fat': Fat) {
    && DiskOk(g, disk) && |disk'| == |disk| && FatView(disk', g) == fat'
    && (Mirrored(g, disk) ==> Mirrored(g, disk'))
    && forall l :: g.dataStart <= l < |disk| ==> disk'[l] == disk[l]
  }

  lemma TableChangeNone(g: Geometry, disk: Disk)
    requires DiskOk(g, disk)
    ensures TableChange(g, disk, disk, FatView(disk, g))
  {
  }

  /** Setting one entry after another is one change of the table. */
  lemma TableChangeThen(g: Geometry, disk: Disk, disk': Disk, fat: Fat, c: nat, v: nat)
    requires TableChange(g, disk, disk', fat) && IsData(g, c) && v < 0x1000_0000
    ensures TableChange(g, disk, WriteFat(disk', g, c, v), fat[c := v])
  {
    hide WriteFat, FatView, Mirrored, GeometryOk;
    WriteFatView(disk', g, c, v);
    WriteFatFrame(disk', g, c, v);
  }

  ghost predicate SameElse(chains: Chains, chains': Chains, n: nat) {
    forall o :: o != Slot(n) ==> (o in chains' <==> o in chains) && (o in chains ==> chains'[o] == chains[o])
  }

  /** What a caller sees of the files other than `n` is the same. */
  ghost predicate OthersSame(g: Geometry, disk: Disk, chains: Chains, disk': Disk, chains': Chains, n: nat) {
    forall m: nat :: m != n ==>
      (Slot(m) in chains' <==> Slot(m) in chains) &&
      (Slot(m) in chains ==> FileAt(g, disk', chains', m) == FileAt(g, disk, chains, m))
  }

  /** The directories differ in slot `n` at most. */
  ghost predicate OneSlot(dir: seq<Slot32>, dir': seq<Slot32>, n: nat) {
    n < |dir| == |dir'| && dir' == dir[n := dir'[n]]
  }

  /** Both entries show as the same line of a listing. */
  predicate SameTitle(e: Slot32, e': Slot32) {
    Name(e') == Name(e) && e'[11] == e[11]
  }

  lemma OneSlotTrans(a: seq<Slot32>, b: seq<Slot32>, c: seq<Slot32>, n: nat)
    requires OneSlot(a, b, n) && OneSlot(b, c, n)
    ensures OneSlot(a, c, n)
  {
  }

  /** A change of the table and of the chains leaves the directory and all data alone. */
  lemma TableStep(g: Geometry, disk: Disk, disk': Disk, others: map<nat, seq<nat>>, chains: Chains, fat': Fat, chains': Chains, n: nat)
    requires TableOk(g, disk, others, chains) && TableChange(g, disk, disk', fat')
    requires ChainsOk(fat', chains') && SameElse(chains, chains', n)
    ensures TableOk(g, disk', others, chains')
    ensures RootDir(g, disk', chains') == RootDir(g, disk, chains)
    ensures forall o :: o in chains' ==> Agree(disk, disk', Lbas(g, chains'[o]))
  {
    hide ChainsOk, FatView, Mirrored;
    assert Other(0) != Slot(n) && Root != Slot(n);
    assert OthersOk(others, chains') by {
      forall k: nat
        ensures (Other(k) in chains' <==> k in others) && (k in others ==> chains'[Other(k)] == others[k])
      {
        assert Other(k) != Slot(n);
      }
    }
    assert RootOk(g, chains');
    forall o | o in chains'
      ensures Agree(disk, disk', Lbas(g, chains'[o]))
    {
      ChainData(g, disk', others, chains', o);
      LbasInRange(g, chains'[o]);
    }
    AgreeDir(disk, disk', RootLbas(g, chains));
  }

  /** Rewriting one slot of the root directory changes that slot and no file's data. */
  lemma SlotWrite(g: Geometry, disk: Disk, others: map<nat, seq<nat>>, chains: Chains, n: nat, l: nat, s: Sector)
    requires TableOk(g, disk, others, chains) && n < |RootDir(g, disk, chains)|
    requires l == RootLbas(g, chains)[n / 16] && l < |disk| && OnlySlot(disk[l], s, n)
    ensures TableOk(g, disk[l := s], others, chains)
    ensures RootDir(g, disk[l := s], chains) == RootDir(g, disk, chains)[n := SlotOf(s, n)]
    ensures forall o :: o in chains && o != Root ==> Agree(disk, disk[l := s], Lbas(g, chains[o]))
  {
    assert Root in chains;
    hide TableOk, OnlySlot;
    SectorStep(g, disk, others, chains, Root, n / 16, s);
    SlotStep(disk, RootLbas(g, chains), n, s);
  }

  lemma RootSlot(g: Geometry, disk: Disk, others: map<nat, seq<nat>>, chains: Chains, n: nat)
    requires TableOk(g, disk, others, chains) && n < |RootDir(g, disk, chains)|
    ensures g.dataStart <= RootLbas(g, chains)[n / 16] < |disk|
    ensures RootDir(g, disk, chains)[n] == SlotOf(disk[RootLbas(g, chains)[n / 16]], n)
  {
    hide TableOk, Lbas;
    RootRange(g, disk, others, chains);
  }

  lemma RootRange(g: Geometry, disk: Disk, others: map<nat, seq<nat>>, chains: Chains)
    requires TableOk(g, disk, others, chains)
    ensures forall j :: 0 <= j < |RootLbas(g, chains)| ==> g.dataStart <= RootLbas(g, chains)[j] < |disk|
  {
    ChainData(g, disk, others, chains, Root);
    LbasInRange(g, chains[Root]);
  }

  // ----- Whole changes

  /** The new slot `e` may stand at `n` once the chains are `chains'`. */
  ghost predicate Fits(g: Geometry, dir: seq<Slot32>, n: nat, e: Slot32, chains': Chains)
    requires n < |dir|
  {
    && (Slot(n) in chains' <==> IsFile(e))
    && (Slot(n) in chains' ==> EntryOk(g, e, chains'[Slot(n)]))
    && (IsFile(e) ==> forall m :: 0 <= m < |dir| && m != n && IsFile(dir[m]) ==> Name(dir[m]) != Name(e))
    && (e[0] == 0 ==> dir[n][0] == 0)
    && (!IsFree(e) ==> forall m :: 0 <= m < n ==> dir[m][0] != 0)
  }

  /** A change of the table followed by a fitting change of one directory slot. */
  lemma EntryStep(g: Geometry, disk: Disk, disk1: Disk, others: map<nat, seq<nat>>, chains: Chains,
                  fat': Fat, chains': Chains, n: nat, l: nat, s: Sector)
    requires VolumeOk(g, disk, others, chains) && TableChange(g, disk, disk1, fat')
    requires ChainsOk(fat', chains') && SameElse(chains, chains', n) && n < |RootDir(g, disk, chains)|
    requires l == RootLbas(g, chains)[n / 16] && l < |disk| && OnlySlot(disk1[l], s, n)
    requires Fits(g, RootDir(g, disk, chains), n, SlotOf(s, n), chains')
    ensures VolumeOk(g, disk1[l := s], others, chains')
    ensures RootDir(g, disk1[l := s], chains') == RootDir(g, disk, chains)[n := SlotOf(s, n)]
    ensures OthersSame(g, disk, chains, disk1[l := s], chains', n)
    ensures Slot(n) in chains' ==> Agree(disk, disk1[l := s], Lbas(g, chains'[Slot(n)]))
  {
    hide OnlySlot, SlotOf, ChainsOk, TableOk, TableChange, EntryOk, Name, FileAt, IsFile, Dir, Lbas, Agree;
    EntryTable(g, disk, disk1, others, chains, fat', chains', n, l, s);
    DirReplace(g, RootDir(g, disk, chains), chains, n, SlotOf(s, n), chains');
    FilesKept(g, disk, chains, disk1[l := s], chains', n);
  }

  lemma EntryTable(g: Geometry, disk: Disk, disk1: Disk, others: map<nat, seq<nat>>, chains: Chains,
                   fat': Fat, chains': Chains, n: nat, l: nat, s: Sector)
    requires TableOk(g, disk, others, chains) && TableChange(g, disk, disk1, fat')
    requires ChainsOk(fat', chains') && SameElse(chains, chains', n) && n < |RootDir(g, disk, chains)|
    requires l == RootLbas(g, chains)[n / 16] && l < |disk| && OnlySlot(disk1[l], s, n)
    ensures |disk1| == |disk|
    ensures TableOk(g, disk1[l := s], others, chains')
    ensures RootDir(g, disk1[l := s], chains') == RootDir(g, disk, chains)[n := SlotOf(s, n)]
    ensures forall o :: o in chains' && o != Root ==> Agree(disk, disk1[l := s], Lbas(g, chains'[o]))
  {
    assert |disk1| == |disk|;
    hide OnlySlot, SlotOf, ChainsOk, TableOk, TableChange, Dir, Lbas, Agree;
    TableStep(g, disk, disk1, others, chains, fat', chains', n);
    assert RootLbas(g, chains') == RootLbas(g, chains) by { assert Root != Slot(n); }
    SlotWrite(g, disk1, others, chains', n, l, s);
    forall o | o in chains' && o != Root
      ensures Agree(disk, disk1[l := s], Lbas(g, chains'[o]))
    {
      AgreeTrans(disk, disk1, disk1[l := s], Lbas(g, chains'[o]));
    }
  }

  lemma AgreeTrans(a: Disk, b: Disk, c: Disk, lbas: seq<nat>)
    requires Agree(a, b, lbas) && Agree(b, c, lbas)
    ensures Agree(a, c, lbas)
  {
  }

  /** Files whose slot and sectors are the same are the same files. */
  lemma FilesKept(g: Geometry, disk: Disk, chains: Chains, disk': Disk, chains': Chains, n: nat)
    requires DirOk(g, RootDir(g, disk, chains), chains) && SameElse(chains, chains', n)
    requires |RootDir(g, disk', chains')| == |RootDir(g, disk, chains)|
    requires forall m: nat :: m < |RootDir(g, disk, chains)| && m != n ==>
               RootDir(g, disk', chains')[m] == RootDir(g, disk, chains)[m]
    requires forall o :: o in chains' && o != Root && o != Slot(n) ==> Agree(disk, disk', Lbas(g, chains'[o]))
    ensures OthersSame(g, disk, chains, disk', chains', n)
  {
    hide EntryOk, Lbas, Agree, SlotAt, Content;
    forall m: nat | m != n
      ensures (Slot(m) in chains' <==> Slot(m) in chains)
      ensures Slot(m) in chains ==> FileAt(g, disk', chains', m) == FileAt(g, disk, chains, m)
    {
      assert Slot(m) != Slot(n);
      if Slot(m) in chains {
        assert m < |RootDir(g, disk, chains)|;
        assert RootDir(g, disk', chains')[m] == RootDir(g, disk, chains)[m];
        assert SlotAt(disk', RootLbas(g, chains'), m) == SlotAt(disk, RootLbas(g, chains), m);
        AgreeContent(disk, disk', Lbas(g, chains[Slot(m)]), Size(SlotAt(disk, RootLbas(g, chains), m)));
      }
    }
  }

  /** Giving a file one more cluster changes no file. */
  lemma GrowStep(g: Geometry, disk: Disk, disk': Disk, others: map<nat, seq<nat>>, chains: Chains, n: nat, c: nat)
    requires VolumeOk(g, disk, others, chains) && Slot(n) in chains && |chains[Slot(n)]| > 0
    requires Allocate(FatView(disk, g), Last(chains[Slot(n)])).0 == Some(c)
    requires TableChange(g, disk, disk', Allocate(FatView(disk, g), Last(chains[Slot(n)])).1)
    requires (|chains[Slot(n)]| + 1) * ClusterBytes(g) < U32_LIMIT
    ensures VolumeOk(g, disk', others, chains[Slot(n) := chains[Slot(n)] + [c]])
    ensures RootDir(g, disk', chains[Slot(n) := chains[Slot(n)] + [c]]) == RootDir(g, disk, chains)
    ensures OthersSame(g, disk, chains, disk', chains[Slot(n) := chains[Slot(n)] + [c]], n)
    ensures Lbas(g, chains[Slot(n)]) <= Lbas(g, chains[Slot(n)] + [c])
    ensures Agree(disk, disk', Lbas(g, chains[Slot(n)]))
  {
    hide ChainsOk, TableOk, TableChange, Allocate, FileAt, Agree, Dir, FatView, EntryOk, Lbas, UniqueNames, FreeTail;
    var ch := chains[Slot(n)];
    var chains' := chains[Slot(n) := ch + [c]];
    TableAlloc(g, disk, others, chains, Slot(n), c);
    TableStep(g, disk, disk', others, chains, Allocate(FatView(disk, g), Last(ch)).1, chains', n);
    LbasConcat(g, ch, [c]);
    assert Slot(n) in chains' && chains'[Slot(n)] == ch + [c];
    AgreePrefix(disk, disk', Lbas(g, ch), Lbas(g, ch + [c]));
    GrowDir(g, RootDir(g, disk, chains), chains, n, c);
    FilesKept(g, disk, chains, disk', chains', n);
  }

  lemma TableAlloc(g: Geometry, disk: Disk, others: map<nat, seq<nat>>, chains: Chains, o: Owner, c: nat)
    requires TableOk(g, disk, others, chains) && o.Slot?
    requires Allocate(FatView(disk, g), Last(ChainOf(chains, o))).0 == Some(c)
    ensures ChainsOk(Allocate(FatView(disk, g), Last(ChainOf(chains, o))).1, chains[o := ChainOf(chains, o) + [c]])
    ensures IsData(g, c)
  {
    hide ChainsOk, FatView, Mirrored;
    SmallTable(g, disk);
    AllocStep(FatView(disk, g), chains, o, c);
  }

  lemma GrowDir(g: Geometry, dir: seq<Slot32>, chains: Chains, n: nat, c: nat)
    requires DirOk(g, dir, chains) && Slot(n) in chains && |chains[Slot(n)]| > 0
    requires (|chains[Slot(n)]| + 1) * ClusterBytes(g) < U32_LIMIT
    ensures DirOk(g, dir, chains[Slot(n) := chains[Slot(n)] + [c]])
  {
    hide First, Size, IsFile, UniqueNames, FreeTail;
    var ch := chains[Slot(n)];
    assert (|ch| + 1) * ClusterBytes(g) == |ch| * ClusterBytes(g) + ClusterBytes(g);
    assert EntryOk(g, dir[n], ch + [c]);
  }

  lemma AgreePrefix(disk: Disk, disk': Disk, a: seq<nat>, b: seq<nat>)
    requires Agree(disk, disk', b) && a <= b
    ensures Agree(disk, disk', a)
  {
  }

  /** Rewriting a sector of a file changes that sector of that file and nothing else. */
  lemma DataStep(g: Geometry, disk: Disk, others: map<nat, seq<nat>>, chains: Chains, n: nat, j: nat, s: Sector)
    requires VolumeOk(g, disk, others, chains) && Slot(n) in chains && j < |Lbas(g, chains[Slot(n)])|
    ensures Lbas(g, chains[Slot(n)])[j] < |disk|
    ensures var disk' := disk[Lbas(g, chains[Slot(n)])[j] := s];
            && VolumeOk(g, disk', others, chains)
            && RootDir(g, disk', chains) == RootDir(g, disk, chains)
            && OthersSame(g, disk, chains, disk', chains, n)
    ensures Distinct(Lbas(g, chains[Slot(n)]))
  {
    SectorStep(g, disk, others, chains, Slot(n), j, s);
    assert Root in chains && Root != Slot(n);
    hide TableOk, FileAt, EntryOk, Agree, Lbas;
    var disk' := disk[Lbas(g, chains[Slot(n)])[j] := s];
    AgreeDir(disk, disk', RootLbas(g, chains));
    assert SameElse(chains, chains, n);
    FilesKept(g, disk, chains, disk', chains, n);
  }

  lemma OthersSameTrans(g: Geometry, d0: Disk, c0: Chains, d1: Disk, c1: Chains, d2: Disk, c2: Chains, n: nat)
    requires OthersSame(g, d0, c0, d1, c1, n) && OthersSame(g, d1, c1, d2, c2, n)
    ensures OthersSame(g, d0, c0, d2, c2, n)
  {
    hide FileAt;
  }

  /** The bytes of a chain after one of its sectors was rewritten. */
  lemma ByteStep(disk: Disk, lbas: seq<nat>, j: nat, s: Sector, p: nat)
    requires Distinct(lbas) && j < |lbas| && lbas[j] < |disk|
    ensures ByteAt(disk[lbas[j] := s], lbas, p) == if p / 512 == j then s[p % 512] else ByteAt(disk, lbas, p)
  {
    if p / 512 < |lbas| && p / 512 != j {
      assert lbas[p / 512] != lbas[j];
    }
  }
}
