/** A volume determines its chains; a name that begins with the deleted mark therefore leaks clusters. */
module Fat32Marks {
  import opened Basics
  import opened Fat32Layout
  import opened FatChains
  import opened Fat32Disk
  import opened Fat32Volume
  import opened Fat32Steps
  import opened Fat32Changes
  import opened Fat32Search
  import opened Fat32Handles
  import opened Fat32Entries

  /** The volume invariant without the demand that every allocated cluster have an owner. */
  ghost predicate Leaky(g: Geometry, disk: Disk, others: map<nat, seq<nat>>, chains: Chains) {
    && DiskOk(g, disk) && PathsOk(FatView(disk, g), chains) && OthersOk(others, chains) && RootOk(g, chains)
    && DirOk(g, RootDir(g, disk, chains), chains)
  }

  lemma SamePath(fat: Fat, o: Owner, a: Chains, b: Chains)
    requires SmallFat(fat) && PathsOk(fat, a) && PathsOk(fat, b) && o in a && o in b
    requires |a[o]| > 0 && |b[o]| > 0 && a[o][0] == b[o][0]
    ensures a[o] == b[o]
  {
    assert ChainOk(fat, o, a[o]) && ChainOk(fat, o, b[o]);
    PathUnique(fat, a[o], b[o]);
  }

  lemma SameSlot(g: Geometry, fat: Fat, dir: seq<Slot32>, n: nat, a: Chains, b: Chains)
    requires SmallFat(fat) && PathsOk(fat, a) && PathsOk(fat, b) && DirOk(g, dir, a) && DirOk(g, dir, b) && Slot(n) in a
    ensures Slot(n) in b && a[Slot(n)] == b[Slot(n)]
  {
    hide IsPath, IsFile, First, Size, UniqueNames, FreeTail;
    assert EntryOk(g, dir[n], a[Slot(n)]) && EntryOk(g, dir[n], b[Slot(n)]);
    HeadIsCluster(fat, Slot(n), a);
    HeadIsCluster(fat, Slot(n), b);
    if |a[Slot(n)]| > 0 {
      SamePath(fat, Slot(n), a, b);
    }
  }

  lemma HeadIsCluster(fat: Fat, o: Owner, chains: Chains)
    requires PathsOk(fat, chains) && o in chains
    ensures |chains[o]| > 0 ==> chains[o][0] >= 2
    ensures !o.Slot? ==> |chains[o]| > 0
  {
    assert ChainOk(fat, o, chains[o]);
    if |chains[o]| > 0 {
      assert IsCluster(fat, chains[o][0]);
    }
  }

  /** The device alone says which cluster belongs to whom. */
  lemma Determined(g: Geometry, disk: Disk, others: map<nat, seq<nat>>, a: Chains, b: Chains)
    requires Leaky(g, disk, others, a) && Leaky(g, disk, others, b)
    ensures a == b
  {
    var fat := FatView(disk, g);
    SmallTable(g, disk);
    hide DirOk, FatView, PathsOk, SmallFat, Dir, Lbas, DiskOk;
    HeadIsCluster(fat, Root, a);
    SamePath(fat, Root, a, b);
    assert RootDir(g, disk, a) == RootDir(g, disk, b);
    forall o: Owner
      ensures o in a ==> o in b && a[o] == b[o]
      ensures o in b ==> o in a
    {
      match o
      case Root =>
      case Slot(n) =>
        if o in a { SameSlot(g, fat, RootDir(g, disk, a), n, a, b); }
        if o in b { SameSlot(g, fat, RootDir(g, disk, a), n, b, a); }
      case Other(k) =>
    }
  }

  /** No reading of the chains makes this a well-formed volume. */
  ghost predicate IllFormed(g: Geometry, disk: Disk, others: map<nat, seq<nat>>) {
    forall chains :: !VolumeOk(g, disk, others, chains)
  }

  /** An allocated cluster that is in none of the chains makes the volume ill formed, whatever chains one reads off it. */
  lemma Leaked(g: Geometry, disk: Disk, others: map<nat, seq<nat>>, chains: Chains, c: nat)
    requires Leaky(g, disk, others, chains) && IsData(g, c) && FatView(disk, g)[c] != 0 && FatView(disk, g)[c] != BAD
    requires !Owned(chains, c)
    ensures IllFormed(g, disk, others)
  {
    hide DirOk, FatView, PathsOk, RootDir, OthersOk, RootOk, Mirrored, Owned;
    forall any
      ensures !VolumeOk(g, disk, others, any)
    {
      if VolumeOk(g, disk, others, any) {
        Determined(g, disk, others, chains, any);
      }
    }
  }

  // ----- Clearing a cluster

  function ZeroSector(): Sector {
    seq(512, _ => 0)
  }

  function Wiped(disk: Disk, l: nat, count: nat): (disk': Disk)
    requires l + count <= |disk|
    ensures |disk'| == |disk|
    ensures forall i :: 0 <= i < |disk| ==> disk'[i] == if l <= i < l + count then ZeroSector() else disk[i]
    decreases count
  {
    if count == 0 then disk else Wiped(disk[l := ZeroSector()], l + 1, count - 1)
  }

  lemma ClusterLbas(g: Geometry, disk: Disk, c: nat)
    requires DiskOk(g, disk) && IsData(g, c)
    ensures Lbas(g, [c]) == ClusterSectors(g, c) && AllData(g, [c])
    ensures g.dataStart <= ClusterLba(g, c) && ClusterLba(g, c) + g.spc <= |disk|
  {
    assert Lbas(g, [c][1..]) == [];
    ClusterInRange(g, c, 0);
    ClusterInRange(g, c, g.spc - 1);
  }

  /** Clearing the only cluster of a file touches neither the table nor another chain. */
  lemma ClearStep(g: Geometry, disk: Disk, others: map<nat, seq<nat>>, chains: Chains, n: nat, c: nat)
    requires TableOk(g, disk, others, chains) && Slot(n) in chains && chains[Slot(n)] == [c] && IsData(g, c)
    ensures ClusterLba(g, c) + g.spc <= |disk|
    ensures var disk' := Wiped(disk, ClusterLba(g, c), g.spc);
            && TableOk(g, disk', others, chains) && FatView(disk', g) == FatView(disk, g)
            && (forall p :: p in chains && p != Slot(n) ==> Agree(disk, disk', Lbas(g, chains[p])))
            && RootDir(g, disk', chains) == RootDir(g, disk, chains)
  {
    ClusterLbas(g, disk, c);
    TableApart(g, disk, others, chains);
    hide ChainsOk, FatView, Mirrored, GeometryOk, Lbas, Apart, Disjoint, Dir, ClusterLba, ClusterSectors;
    var disk' := Wiped(disk, ClusterLba(g, c), g.spc);
    TableFrame(disk, disk', g);
    forall p | p in chains && p != Slot(n)
      ensures Agree(disk, disk', Lbas(g, chains[p]))
    {
      ChainData(g, disk, others, chains, p);
      ClearApart(g, disk, chains[p], c, chains);
      OutsideAgree(g, disk, chains[p], c);
    }
    assert Root != Slot(n);
    AgreeDir(disk, disk', RootLbas(g, chains));
  }

  lemma ClearApart(g: Geometry, disk: Disk, ch: seq<nat>, c: nat, chains: Chains)
    requires DiskOk(g, disk) && AllData(g, ch) && IsData(g, c)
    requires Apart(chains) && exists p, q :: p in chains && q in chains && p != q && chains[p] == ch && chains[q] == [c]
    ensures Disjoint(Lbas(g, ch), Lbas(g, [c]))
  {
    var p, q :| p in chains && q in chains && p != q && chains[p] == ch && chains[q] == [c];
    assert Disjoint(chains[p], chains[q]);
    LbasApart(g, ch, [c]);
  }

  lemma SectorOwn(g: Geometry, c: nat, l: nat)
    requires c >= 2
    ensures ClusterLba(g, c) <= l < ClusterLba(g, c) + g.spc ==> l in ClusterSectors(g, c)
  {
    if ClusterLba(g, c) <= l < ClusterLba(g, c) + g.spc {
      assert ClusterSectors(g, c)[l - ClusterLba(g, c)] == l;
    }
  }

  lemma OutsideAgree(g: Geometry, disk: Disk, ch: seq<nat>, c: nat)
    requires DiskOk(g, disk) && IsData(g, c) && ClusterLba(g, c) + g.spc <= |disk|
    requires Disjoint(Lbas(g, ch), Lbas(g, [c]))
    ensures Agree(disk, Wiped(disk, ClusterLba(g, c), g.spc), Lbas(g, ch))
  {
    ClusterLbas(g, disk, c);
    var lbas, own := Lbas(g, ch), Lbas(g, [c]);
    hide Lbas, GeometryOk;
    forall j | 0 <= j < |lbas| && lbas[j] < |disk|
      ensures !(ClusterLba(g, c) <= lbas[j] < ClusterLba(g, c) + g.spc)
    {
      SectorOwn(g, c, lbas[j]);
      assert lbas[j] !in own;
    }
  }

  // ----- Names that begin with the deleted mark

  /** The device after `fat32_create`: cluster `c` taken, entry written to slot `n`, cluster cleared. */
  function Created(g: Geometry, disk1: Disk, n: nat, l: nat, name: seq<byte>, c: nat): Disk
    requires l < |disk1| && |name| == 11 && c >= 2 && ClusterLba(g, c) + g.spc <= |disk1|
  {
    Wiped(disk1[l := WriteDirEntry(disk1[l], SlotStart(n), name, 0x20, c, 0)], ClusterLba(g, c), g.spc)
  }

  /** A file created under any other name is there, empty, and its cluster is cleared. */
  lemma CreateGood(g: Geometry, disk: Disk, disk1: Disk, others: map<nat, seq<nat>>, chains: Chains, n: nat, l: nat, name: seq<byte>, c: nat)
    requires VolumeOk(g, disk, others, chains) && FindFreeSlot(RootDir(g, disk, chains), 0) == Some(n)
    requires l == RootLbas(g, chains)[n / 16] && l < |disk|
    requires |name| == 11 && name[0] != 0 && name[0] != 0xe5 && NoFile(RootDir(g, disk, chains), name)
    requires Allocate(FatView(disk, g), 0).0 == Some(c) && TableChange(g, disk, disk1, Allocate(FatView(disk, g), 0).1)
    ensures Slot(n) !in chains && |disk1| == |disk| && IsData(g, c) && ClusterLba(g, c) + g.spc <= |disk1|
    ensures var disk', chains' := Created(g, disk1, n, l, name, c), chains[Slot(n) := [c]];
            && VolumeOk(g, disk', others, chains')
            && HandleOk(g, disk', chains', File(c, l, SlotStart(n), ClusterBytes(g), 0), n)
            && OthersSame(g, disk, chains, disk', chains', n)
            && FileAt(g, disk', chains', n) == FileView(name, [])
            && Entitled(RootDir(g, disk, chains), RootDir(g, disk', chains'), n, name, 0x20) && IsFree(RootDir(g, disk, chains)[n])
  {
    hide TableOk, DirOk, WriteDirEntry, FileAt, Dir, Lbas, Agree, OthersSame, Content, Name, First, Size,
         TableChange, Allocate, FatView, FindFreeSlot, Wiped, ClusterLba, NoFile;
    CreateStep(g, disk, disk1, others, chains, n, l, name, c);
    TableAlloc(g, disk, others, chains, Slot(n), c);
    var chains', f := chains[Slot(n) := [c]], File(c, l, SlotStart(n), ClusterBytes(g), 0);
    var disk2 := disk1[l := WriteDirEntry(disk1[l], SlotStart(n), name, 0x20, c, 0)];
    ClearStep(g, disk2, others, chains', n, c);
    var disk' := Created(g, disk1, n, l, name, c);
    FilesKept(g, disk2, chains', disk', chains', n);
    OthersSameTrans(g, disk, chains, disk2, chains', disk', chains', n);
    FileIs(g, disk2, chains', f, n);
    FileIs(g, disk', chains', f, n);
    EmptyContent(disk', Lbas(g, chains'[Slot(n)]));
  }

  /** A slot that holds no file before or after may change without further ado. */
  lemma DirMarked(g: Geometry, dir: seq<Slot32>, chains: Chains, n: nat, e: Slot32)
    requires DirOk(g, dir, chains) && n < |dir| && e[0] == 0xe5
    ensures DirOk(g, dir[n := e], chains - {Slot(n)})
  {
    hide EntryOk, UniqueNames, FreeTail, Name, First, Size;
    DirReplace(g, dir, chains, n, e, chains - {Slot(n)});
  }

  /** A file created under a name that begins with the deleted mark is lost at once, and its cluster with it. */
  lemma CreateLeaks(g: Geometry, disk: Disk, disk1: Disk, others: map<nat, seq<nat>>, chains: Chains, n: nat, l: nat, name: seq<byte>, c: nat)
    requires VolumeOk(g, disk, others, chains) && FindFreeSlot(RootDir(g, disk, chains), 0) == Some(n)
    requires l == RootLbas(g, chains)[n / 16] && l < |disk|
    requires |name| == 11 && name[0] == 0xe5
    requires Allocate(FatView(disk, g), 0).0 == Some(c) && TableChange(g, disk, disk1, Allocate(FatView(disk, g), 0).1)
    ensures |disk1| == |disk| && IsData(g, c) && ClusterLba(g, c) + g.spc <= |disk1|
    ensures IllFormed(g, Created(g, disk1, n, l, name, c), others)
  {
    hide TableOk, DirOk, EntryOk, First, Size, Name, OnlySlot, SlotOf, WriteDirEntry, Dir, Lbas, Agree,
         TableChange, ChainsOk, Allocate, FatView, GeometryOk, FindFreeSlot, IsFile, IsFree, Wiped, ClusterLba;
    var dir, chains', fat' := RootDir(g, disk, chains), chains[Slot(n) := [c]], Allocate(FatView(disk, g), 0).1;
    Vacant(g, dir, chains, n);
    RootSlot(g, disk, others, chains, n);
    DataKept(g, disk, disk1, fat', l);
    TableAlloc(g, disk, others, chains, Slot(n), c);
    assert [] + [c] == [c];
    TableGeometry(g, disk, others, chains);
    OneCluster(g, c);
    var s' := WriteDirEntry(disk1[l], SlotStart(n), name, 0x20, c, 0);
    WriteDirEntryOk(disk1[l], n, name, 0x20, c, 0);
    EntryTable(g, disk, disk1, others, chains, fat', chains', n, l, s');
    var disk2 := disk1[l := s'];
    ClearStep(g, disk2, others, chains', n, c);
    FirstOfName(SlotOf(s', n));
    DirMarked(g, dir, chains, n, SlotOf(s', n));
    assert chains - {Slot(n)} == chains && chains' - {Slot(n)} == chains;
    ForgetOwner(g, Created(g, disk1, n, l, name, c), others, chains', n);
    SlotTable(g, disk, disk1, l, s', fat');
    NewUnowned(g, disk, others, chains, c);
    assert RootLbas(g, chains') == RootLbas(g, chains) by { assert Root != Slot(n); }
    Leaked(g, Created(g, disk1, n, l, name, c), others, chains, c);
  }

  lemma FirstOfName(e: Slot32)
    ensures Name(e)[0] == e[0]
  {
  }

  lemma SlotTable(g: Geometry, disk: Disk, disk1: Disk, l: nat, s: Sector, fat': Fat)
    requires TableChange(g, disk, disk1, fat') && g.dataStart <= l < |disk|
    ensures |disk1| == |disk| && FatView(disk1[l := s], g) == fat'
  {
    hide FatView;
    TableFrame(disk1, disk1[l := s], g);
  }

  lemma NewUnowned(g: Geometry, disk: Disk, others: map<nat, seq<nat>>, chains: Chains, c: nat)
    requires TableOk(g, disk, others, chains) && Allocate(FatView(disk, g), 0).0 == Some(c)
    ensures !Owned(chains, c)
    ensures c < |Allocate(FatView(disk, g), 0).1| && Allocate(FatView(disk, g), 0).1[c] == EOC
  {
    SmallTable(g, disk);
    FindFreeOk(FatView(disk, g), 2);
    hide FindFree;
    forall o | o in chains
      ensures c !in chains[o]
    {
      FreeUnowned(FatView(disk, g), chains, c, o);
    }
  }

  /** Taking an owner away leaves all but the covering of the allocated clusters. */
  lemma ForgetOwner(g: Geometry, disk: Disk, others: map<nat, seq<nat>>, chains: Chains, n: nat)
    requires TableOk(g, disk, others, chains) && DirOk(g, RootDir(g, disk, chains), chains - {Slot(n)})
    ensures Leaky(g, disk, others, chains - {Slot(n)})
  {
    hide DirOk, FatView, ChainOk, Covered, Apart, Dir, Mirrored;
    assert Root != Slot(n);
    assert RootLbas(g, chains - {Slot(n)}) == RootLbas(g, chains);
    forall k: nat
      ensures (Other(k) in chains - {Slot(n)} <==> k in others) && (k in others ==> (chains - {Slot(n)})[Other(k)] == others[k])
    {
      assert Other(k) != Slot(n);
    }
  }

  /** Renaming a file to a name that begins with the deleted mark is well formed exactly when the file has no cluster. */
  lemma RenameMarked(g: Geometry, disk: Disk, others: map<nat, seq<nat>>, chains: Chains, f: File, n: nat, name: seq<byte>)
    requires VolumeOk(g, disk, others, chains) && HandleOk(g, disk, chains, f, n)
    requires |name| == 11 && name[0] == 0xe5
    ensures f.lba < |disk| && f.offset == SlotStart(n)
    ensures var disk' := disk[f.lba := PutName(disk[f.lba], f.offset, name)];
            f.first < 2 ==>
              && VolumeOk(g, disk', others, chains - {Slot(n)}) && OthersSame(g, disk, chains, disk', chains - {Slot(n)}, n)
              && Struck(RootDir(g, disk, chains), RootDir(g, disk', chains - {Slot(n)}), n)
    ensures f.first >= 2 ==> IllFormed(g, disk[f.lba := PutName(disk[f.lba], f.offset, name)], others)
  {
    hide TableOk, DirOk, EntryOk, First, Size, Name, OnlySlot, SlotOf, PutName, Dir, Lbas, Agree, ChainsOk, FatView, IsFile, FileAt,
         OthersSame, TableChange, Fits;
    var dir := RootDir(g, disk, chains);
    RootSlot(g, disk, others, chains, n);
    HandleSize(g, disk, others, chains, f, n);
    HandleChain(g, disk, others, chains, n);
    var s' := PutName(disk[f.lba], f.offset, name);
    PutNameOk(disk[f.lba], n, name);
    FirstOfName(SlotOf(s', n));
    if f.first < 2 {
      TableFree(g, disk, others, chains, n);
      TableChangeNone(g, disk);
      assert SameElse(chains, chains - {Slot(n)}, n);
      FitsDeleted(g, dir, n, SlotOf(s', n), chains - {Slot(n)});
      EntryStep(g, disk, disk, others, chains, FatView(disk, g), chains - {Slot(n)}, n, f.lba, s');
    } else {
      SlotWrite(g, disk, others, chains, n, f.lba, s');
      DirMarked(g, dir, chains, n, SlotOf(s', n));
      var disk' := disk[f.lba := s'];
      ForgetOwner(g, disk', others, chains, n);
      HeadUnowned(g, disk', others, chains, n);
      Leaked(g, disk', others, chains - {Slot(n)}, chains[Slot(n)][0]);
    }
  }

  lemma HeadUnowned(g: Geometry, disk: Disk, others: map<nat, seq<nat>>, chains: Chains, n: nat)
    requires TableOk(g, disk, others, chains) && Slot(n) in chains && |chains[Slot(n)]| > 0
    ensures var c := chains[Slot(n)][0];
            IsData(g, c) && FatView(disk, g)[c] != 0 && FatView(disk, g)[c] != BAD && !Owned(chains - {Slot(n)}, c)
  {
    SmallTable(g, disk);
    assert ChainOk(FatView(disk, g), Slot(n), chains[Slot(n)]);
    PathMarked(FatView(disk, g), chains[Slot(n)], 0);
    hide FatView, IsPath;
    var c := chains[Slot(n)][0];
    forall o | o in chains - {Slot(n)}
      ensures c !in chains[o]
    {
      assert Disjoint(chains[Slot(n)], chains[o]);
    }
  }
}
