/** Rewriting the fields of a directory entry. */
module Fat32Entries {
  import opened Basics
  import opened Fat32Layout
  import opened FatChains
  import opened Fat32Disk
  import opened Fat32Volume
  import opened Fat32Steps
  import opened Fat32Changes
  import opened Fat32Search
  import opened Fat32Handles

  /** The start of slot `n` in its sector. */
  function SlotStart(n: nat): (o: nat)
    ensures o + 32 <= 512
  {
    32 * (n % 16)
  }

  /** The size field of a slot, rewritten. */
  lemma PutSize(s: Sector, n: nat, size: nat)
    requires size < U32_LIMIT
    ensures var s' := PutLe32(s, SlotStart(n) + 28, size);
            && OnlySlot(s, s', n) && Size(SlotOf(s', n)) == size && First(SlotOf(s', n)) == First(SlotOf(s, n))
            && Name(SlotOf(s', n)) == Name(SlotOf(s, n)) && SlotOf(s', n)[11] == SlotOf(s, n)[11]
  {
    var o := SlotStart(n);
    var s' := PutLe32(s, o + 28, size);
    PutGet32(s, o + 28, size, o + 28);
    assert forall i :: 0 <= i < 28 ==> SlotOf(s', n)[i] == s'[o + i] == s[o + i] == SlotOf(s, n)[i];
    assert forall i :: 28 <= i < 32 ==> SlotOf(s', n)[i] == s'[o + i];
  }

  /** The two halves of the first-cluster field. */
  function PutFirst(s: Sector, o: nat, c: nat): Sector
    requires o + 32 <= 512
  {
    PutLe16(PutLe16(s, o + 20, c / 65536), o + 26, c % 65536)
  }

  lemma PutFirstOk(s: Sector, n: nat, c: nat)
    requires c < U32_LIMIT
    ensures var s' := PutFirst(s, SlotStart(n), c);
            && OnlySlot(s, s', n) && First(SlotOf(s', n)) == c && Size(SlotOf(s', n)) == Size(SlotOf(s, n))
            && Name(SlotOf(s', n)) == Name(SlotOf(s, n)) && SlotOf(s', n)[11] == SlotOf(s, n)[11]
  {
    var o := SlotStart(n);
    var s' := PutFirst(s, SlotStart(n), c);
    assert forall i :: 0 <= i < 32 && i != 20 && i != 21 && i != 26 && i != 27 ==> SlotOf(s', n)[i] == SlotOf(s, n)[i];
    var hi, lo := c / 65536, c % 65536;
    assert hi < 65536;
    assert SlotOf(s', n)[20] == hi % 256 && SlotOf(s', n)[21] == hi / 256 % 256;
    assert SlotOf(s', n)[26] == lo % 256 && SlotOf(s', n)[27] == lo / 256 % 256;
  }

  /** Same name and same kind: still that file. */
  lemma SameKind(e: Slot32, e': Slot32)
    requires Name(e') == Name(e) && e'[11] == e[11]
    ensures e'[0] == e[0] && (IsFile(e') <==> IsFile(e)) && (IsFree(e') <==> IsFree(e))
  {
    assert e'[0] == Name(e')[0] && e[0] == Name(e)[0];
  }

  /** A slot rewritten for the same file, with a chain that the new entry describes, fits the directory. */
  lemma FitsSame(g: Geometry, dir: seq<Slot32>, chains: Chains, n: nat, e: Slot32, chains': Chains)
    requires DirOk(g, dir, chains) && n < |dir| && Slot(n) in chains && Slot(n) in chains'
    requires Name(e) == Name(dir[n]) && e[11] == dir[n][11] && EntryOk(g, e, chains'[Slot(n)])
    ensures Fits(g, dir, n, e, chains')
  {
    SameKind(dir[n], e);
    hide EntryOk, Name;
    assert IsFile(dir[n]);
    NoEndBefore(g, dir, n);
  }

  /** Only slot `n` of the root directory changed, and neither its name nor its attributes. */
  ghost predicate Retitled(g: Geometry, disk: Disk, chains: Chains, disk': Disk, chains': Chains, n: nat) {
    var dir, dir' := RootDir(g, disk, chains), RootDir(g, disk', chains');
    OneSlot(dir, dir', n) && SameTitle(dir[n], dir'[n])
  }

  /** Setting the size of a file. */
  lemma SizeStep(g: Geometry, disk: Disk, others: map<nat, seq<nat>>, chains: Chains, f: File, n: nat, size: nat)
    requires VolumeOk(g, disk, others, chains) && HandleOk(g, disk, chains, f, n) && size <= f.capacity
    ensures f.lba < |disk| && f.offset + 32 <= 512
    ensures var disk' := disk[f.lba := PutLe32(disk[f.lba], f.offset + 28, size)];
            && VolumeOk(g, disk', others, chains) && HandleOk(g, disk', chains, f.(size := size), n)
            && OthersSame(g, disk, chains, disk', chains, n)
            && FileAt(g, disk', chains, n) == FileView(FileAt(g, disk, chains, n).name, Content(disk, Lbas(g, chains[Slot(n)]), size))
            && Retitled(g, disk, chains, disk', chains, n)
  {
    hide TableOk, DirOk, EntryOk, First, Size, Name, OnlySlot, SlotOf, PutLe32, FileAt, Dir, Lbas, OthersSame, Content, Agree;
    var dir := RootDir(g, disk, chains);
    HandleSize(g, disk, others, chains, f, n);
    RootSlot(g, disk, others, chains, n);
    var s' := PutLe32(disk[f.lba], f.offset + 28, size);
    PutSize(disk[f.lba], n, size);
    NewSize(g, dir[n], SlotOf(s', n), chains[Slot(n)], size);
    Unchanged(g, disk, others, chains, n);
    Rewritten(g, disk, others, chains, f, n, s', chains, disk, FatView(disk, g), f.(size := size));
    var disk' := disk[f.lba := s'];
    FileIs(g, disk, chains, f, n);
    FileIs(g, disk', chains, f.(size := size), n);
    AgreeContent(disk, disk', Lbas(g, chains[Slot(n)]), size);
  }

  lemma Unchanged(g: Geometry, disk: Disk, others: map<nat, seq<nat>>, chains: Chains, n: nat)
    requires TableOk(g, disk, others, chains)
    ensures TableChange(g, disk, disk, FatView(disk, g)) && ChainsOk(FatView(disk, g), chains) && SameElse(chains, chains, n)
  {
    hide ChainsOk;
  }

  lemma NewSize(g: Geometry, e: Slot32, e': Slot32, ch: seq<nat>, size: nat)
    requires (if |ch| == 0 then First(e) < 2 else First(e) == ch[0]) && First(e') == First(e) && Size(e') == size
    requires size <= |ch| * ClusterBytes(g) < U32_LIMIT
    ensures EntryOk(g, e', ch)
  {
  }

  /** A rewritten entry of the same file leaves a well-formed volume, with a handle to match. */
  lemma Rewritten(g: Geometry, disk: Disk, others: map<nat, seq<nat>>, chains: Chains, f: File, n: nat, s: Sector,
                  chains': Chains, disk1: Disk, fat': Fat, f': File)
    requires VolumeOk(g, disk, others, chains) && HandleOk(g, disk, chains, f, n) && f.lba < |disk|
    requires TableChange(g, disk, disk1, fat') && ChainsOk(fat', chains') && SameElse(chains, chains', n)
    requires OnlySlot(disk1[f.lba], s, n) && Slot(n) in chains' && EntryOk(g, SlotOf(s, n), chains'[Slot(n)])
    requires Name(SlotOf(s, n)) == Name(RootDir(g, disk, chains)[n]) && SlotOf(s, n)[11] == RootDir(g, disk, chains)[n][11]
    requires f' == File(First(SlotOf(s, n)), f.lba, f.offset, Capacity(g, chains'[Slot(n)]), Size(SlotOf(s, n)))
    ensures VolumeOk(g, disk1[f.lba := s], others, chains') && HandleOk(g, disk1[f.lba := s], chains', f', n)
    ensures OthersSame(g, disk, chains, disk1[f.lba := s], chains', n)
    ensures Agree(disk, disk1[f.lba := s], Lbas(g, chains'[Slot(n)]))
    ensures Retitled(g, disk, chains, disk1[f.lba := s], chains', n)
  {
    hide TableOk, DirOk, EntryOk, First, Size, Name, OnlySlot, SlotOf, Dir, Lbas, OthersSame, Agree, TableChange, ChainsOk, Fits;
    assert Root != Slot(n);
    FitsSame(g, RootDir(g, disk, chains), chains, n, SlotOf(s, n), chains');
    EntryStep(g, disk, disk1, others, chains, fat', chains', n, f.lba, s);
  }

  /** Giving an empty file its first cluster, in the table and in its entry. */
  lemma HeadStep(g: Geometry, disk: Disk, disk1: Disk, others: map<nat, seq<nat>>, chains: Chains, f: File, n: nat, c: nat)
    requires VolumeOk(g, disk, others, chains) && HandleOk(g, disk, chains, f, n) && f.first < 2
    requires Allocate(FatView(disk, g), 0).0 == Some(c) && TableChange(g, disk, disk1, Allocate(FatView(disk, g), 0).1)
    ensures f.lba < |disk1| && f.offset == SlotStart(n)
    ensures var disk', chains' := disk1[f.lba := PutFirst(disk1[f.lba], f.offset, c)], chains[Slot(n) := [c]];
            && VolumeOk(g, disk', others, chains')
            && HandleOk(g, disk', chains', f.(first := c, capacity := ClusterBytes(g)), n)
            && OthersSame(g, disk, chains, disk', chains', n)
            && FileAt(g, disk', chains', n) == FileAt(g, disk, chains, n)
            && Retitled(g, disk, chains, disk', chains', n)
  {
    hide TableOk, DirOk, EntryOk, First, Size, Name, OnlySlot, SlotOf, PutFirst, FileAt, Dir, Lbas, OthersSame, Content, Agree,
         TableChange, ChainsOk, Allocate, FatView, GeometryOk;
    var dir := RootDir(g, disk, chains);
    HandleSize(g, disk, others, chains, f, n);
    HandleChain(g, disk, others, chains, n);
    RootSlot(g, disk, others, chains, n);
    DataKept(g, disk, disk1, Allocate(FatView(disk, g), 0).1, f.lba);
    TableAlloc(g, disk, others, chains, Slot(n), c);
    OneCluster(g, c);
    assert chains[Slot(n)] + [c] == [c];
    var s' := PutFirst(disk1[f.lba], f.offset, c);
    PutFirstOk(disk1[f.lba], n, c);
    NewHead(g, SlotOf(s', n), c);
    var chains', f' := chains[Slot(n) := [c]], f.(first := c, capacity := ClusterBytes(g));
    assert |chains'[Slot(n)]| * ClusterBytes(g) == ClusterBytes(g);
    Rewritten(g, disk, others, chains, f, n, s', chains', disk1, Allocate(FatView(disk, g), 0).1, f');
    var disk' := disk1[f.lba := s'];
    FileIs(g, disk, chains, f, n);
    FileIs(g, disk', chains', f', n);
    EmptyContent(disk, Lbas(g, chains[Slot(n)]));
    EmptyContent(disk', Lbas(g, chains'[Slot(n)]));
  }

  lemma OneCluster(g: Geometry, c: nat)
    requires GeometryOk(g) && IsData(g, c)
    ensures c < U32_LIMIT && ClusterBytes(g) < U32_LIMIT
  {
  }

  lemma NewHead(g: Geometry, e: Slot32, c: nat)
    requires First(e) == c && Size(e) == 0 && ClusterBytes(g) < U32_LIMIT
    ensures EntryOk(g, e, [c])
  {
  }

  lemma EmptyContent(disk: Disk, lbas: seq<nat>)
    ensures Content(disk, lbas, 0) == []
  {
  }

  lemma DataKept(g: Geometry, disk: Disk, disk1: Disk, fat': Fat, l: nat)
    requires TableChange(g, disk, disk1, fat') && g.dataStart <= l < |disk|
    ensures |disk1| == |disk| && disk1[l] == disk[l]
  {
  }

  // ----- Names

  /** The name field of a slot, rewritten. */
  function PutName(s: Sector, o: nat, name: seq<byte>): Sector
    requires |name| == 11 && o + 32 <= 512
  {
    Overlay(s, o, name)
  }

  lemma PutNameOk(s: Sector, n: nat, name: seq<byte>)
    requires |name| == 11
    ensures var s' := PutName(s, SlotStart(n), name);
            && OnlySlot(s, s', n) && Name(SlotOf(s', n)) == name && SlotOf(s', n)[11] == SlotOf(s, n)[11]
            && First(SlotOf(s', n)) == First(SlotOf(s, n)) && Size(SlotOf(s', n)) == Size(SlotOf(s, n))
  {
    var s' := PutName(s, SlotStart(n), name);
    assert forall i :: 0 <= i < 11 ==> SlotOf(s', n)[i] == name[i];
    assert forall i :: 11 <= i < 32 ==> SlotOf(s', n)[i] == SlotOf(s, n)[i];
  }

  /** Slot `n` now has that name and those attributes, and no other slot changed. */
  ghost predicate Entitled(dir: seq<Slot32>, dir': seq<Slot32>, n: nat, name: seq<byte>, attr: byte) {
    OneSlot(dir, dir', n) && Name(dir'[n]) == name && dir'[n][11] == attr
  }

  /** Slot `n` is now marked deleted, and no other slot changed. */
  ghost predicate Struck(dir: seq<Slot32>, dir': seq<Slot32>, n: nat) {
    OneSlot(dir, dir', n) && dir'[n][0] == 0xe5
  }

  /** Renaming a file to a name nobody has, provided the name is not the deleted mark. */
  lemma NameStep(g: Geometry, disk: Disk, others: map<nat, seq<nat>>, chains: Chains, f: File, n: nat, name: seq<byte>)
    requires VolumeOk(g, disk, others, chains) && HandleOk(g, disk, chains, f, n)
    requires |name| == 11 && name[0] != 0 && name[0] != 0xe5 && NoFile(RootDir(g, disk, chains), name)
    ensures f.lba < |disk| && f.offset == SlotStart(n)
    ensures var disk' := disk[f.lba := PutName(disk[f.lba], f.offset, name)];
            && VolumeOk(g, disk', others, chains) && HandleOk(g, disk', chains, f, n)
            && OthersSame(g, disk, chains, disk', chains, n)
            && FileAt(g, disk', chains, n) == FileView(name, FileAt(g, disk, chains, n).content)
            && Entitled(RootDir(g, disk, chains), RootDir(g, disk', chains), n, name, RootDir(g, disk, chains)[n][11])
  {
    hide TableOk, DirOk, EntryOk, First, Size, Name, OnlySlot, SlotOf, PutName, FileAt, Dir, Lbas, OthersSame, Content, Agree,
         TableChange, ChainsOk, FatView, GeometryOk, NoFile, Fits;
    var dir := RootDir(g, disk, chains);
    HandleSize(g, disk, others, chains, f, n);
    RootSlot(g, disk, others, chains, n);
    var s' := PutName(disk[f.lba], f.offset, name);
    PutNameOk(disk[f.lba], n, name);
    Unchanged(g, disk, others, chains, n);
    FitsRenamed(g, dir, chains, n, SlotOf(s', n));
    EntryStep(g, disk, disk, others, chains, FatView(disk, g), chains, n, f.lba, s');
    var disk' := disk[f.lba := s'];
    assert HandleOk(g, disk', chains, f, n);
    FileIs(g, disk, chains, f, n);
    FileIs(g, disk', chains, f, n);
    AgreeContent(disk, disk', Lbas(g, chains[Slot(n)]), f.size);
  }

  lemma FitsRenamed(g: Geometry, dir: seq<Slot32>, chains: Chains, n: nat, e: Slot32)
    requires DirOk(g, dir, chains) && n < |dir| && Slot(n) in chains && NoFile(dir, Name(e))
    requires e[11] == dir[n][11] && First(e) == First(dir[n]) && Size(e) == Size(dir[n])
    requires Name(e)[0] != 0 && Name(e)[0] != 0xe5
    ensures Fits(g, dir, n, e, chains)
  {
    hide First, Size;
    assert IsFile(dir[n]) && EntryOk(g, dir[n], chains[Slot(n)]);
    assert e[0] == Name(e)[0];
    NoEndBefore(g, dir, n);
  }

  // ----- Deleting

  function MarkDeleted(s: Sector, o: nat): Sector
    requires o + 32 <= 512
  {
    s[o := 0xe5]
  }

  /** Freeing the clusters of a file and marking its entry deleted. */
  lemma DeleteStep(g: Geometry, disk: Disk, disk1: Disk, others: map<nat, seq<nat>>, chains: Chains, f: File, n: nat, fat': Fat)
    requires VolumeOk(g, disk, others, chains) && HandleOk(g, disk, chains, f, n)
    requires TableChange(g, disk, disk1, fat') && ChainsOk(fat', chains - {Slot(n)})
    ensures f.lba < |disk1| && f.offset == SlotStart(n)
    ensures VolumeOk(g, disk1[f.lba := MarkDeleted(disk1[f.lba], f.offset)], others, chains - {Slot(n)})
    ensures OthersSame(g, disk, chains, disk1[f.lba := MarkDeleted(disk1[f.lba], f.offset)], chains - {Slot(n)}, n)
    ensures Struck(RootDir(g, disk, chains), RootDir(g, disk1[f.lba := MarkDeleted(disk1[f.lba], f.offset)], chains - {Slot(n)}), n)
  {
    hide TableOk, DirOk, First, Size, FileAt, Dir, Lbas, OthersSame, Agree, TableChange, ChainsOk, Fits;
    RootSlot(g, disk, others, chains, n);
    DataKept(g, disk, disk1, fat', f.lba);
    var s := disk1[f.lba];
    var s' := MarkDeleted(s, f.offset);
    assert OnlySlot(s, s', n) && SlotOf(s', n)[0] == 0xe5;
    assert SameElse(chains, chains - {Slot(n)}, n);
    FitsDeleted(g, RootDir(g, disk, chains), n, SlotOf(s', n), chains - {Slot(n)});
    EntryStep(g, disk, disk1, others, chains, fat', chains - {Slot(n)}, n, f.lba, s');
  }

  lemma FitsDeleted(g: Geometry, dir: seq<Slot32>, n: nat, e: Slot32, chains': Chains)
    requires n < |dir| && Slot(n) !in chains' && e[0] == 0xe5
    ensures Fits(g, dir, n, e, chains')
  {
  }

  lemma TableFree(g: Geometry, disk: Disk, others: map<nat, seq<nat>>, chains: Chains, n: nat)
    requires TableOk(g, disk, others, chains) && Slot(n) in chains
    ensures |chains[Slot(n)]| > 0 ==>
              FreeChain(FatView(disk, g), chains[Slot(n)][0]).0
              && ChainsOk(FreeChain(FatView(disk, g), chains[Slot(n)][0]).1, chains - {Slot(n)})
    ensures |chains[Slot(n)]| == 0 ==> ChainsOk(FatView(disk, g), chains - {Slot(n)})
  {
    hide ChainsOk, FatView, Mirrored, FreeChain;
    SmallTable(g, disk);
    if |chains[Slot(n)]| > 0 {
      FreeStep(FatView(disk, g), chains, Slot(n));
    } else {
      DropStep(FatView(disk, g), chains, Slot(n));
    }
  }

  // ----- Creating

  function Zeros(n: nat): (z: seq<byte>)
    ensures |z| == n
  {
    seq(n, _ => 0)
  }

  /** `write_dir_entry`: a fresh entry in the slot at `o`. */
  function WriteDirEntry(s: Sector, o: nat, name: seq<byte>, attr: byte, first: nat, size: nat): Sector
    requires |name| == 11 && o + 32 <= 512
  {
    PutLe32(PutFirst(Overlay(s, o, name + [attr] + Zeros(20)), o, first), o + 28, size)
  }

  lemma WriteDirEntryOk(s: Sector, n: nat, name: seq<byte>, attr: byte, first: nat, size: nat)
    requires |name| == 11 && first < U32_LIMIT && size < U32_LIMIT
    ensures var s' := WriteDirEntry(s, SlotStart(n), name, attr, first, size);
            && OnlySlot(s, s', n) && Name(SlotOf(s', n)) == name && SlotOf(s', n)[11] == attr
            && First(SlotOf(s', n)) == first && Size(SlotOf(s', n)) == size
  {
    var s1 := Overlay(s, SlotStart(n), name + [attr] + Zeros(20));
    FreshSlot(s, n, name, attr);
    hide First, Size, Overlay, SlotOf, Name, PutFirst, PutLe32;
    PutFirstOk(s1, n, first);
    PutSize(PutFirst(s1, SlotStart(n), first), n, size);
  }

  lemma FreshSlot(s: Sector, n: nat, name: seq<byte>, attr: byte)
    requires |name| == 11
    ensures var s1 := Overlay(s, SlotStart(n), name + [attr] + Zeros(20));
            OnlySlot(s, s1, n) && Name(SlotOf(s1, n)) == name && SlotOf(s1, n)[11] == attr
  {
    assert SlotOf(Overlay(s, SlotStart(n), name + [attr] + Zeros(20)), n) == name + [attr] + Zeros(20);
  }

  /** A new file in the first free slot, with the cluster just allocated, provided its name is not the deleted mark. */
  lemma CreateStep(g: Geometry, disk: Disk, disk1: Disk, others: map<nat, seq<nat>>, chains: Chains, n: nat, l: nat, name: seq<byte>, c: nat)
    requires VolumeOk(g, disk, others, chains) && FindFreeSlot(RootDir(g, disk, chains), 0) == Some(n)
    requires l == RootLbas(g, chains)[n / 16] && l < |disk|
    requires |name| == 11 && name[0] != 0 && name[0] != 0xe5 && NoFile(RootDir(g, disk, chains), name)
    requires Allocate(FatView(disk, g), 0).0 == Some(c) && TableChange(g, disk, disk1, Allocate(FatView(disk, g), 0).1)
    ensures Slot(n) !in chains && |disk1| == |disk|
    ensures var disk', chains' := disk1[l := WriteDirEntry(disk1[l], SlotStart(n), name, 0x20, c, 0)], chains[Slot(n) := [c]];
            && VolumeOk(g, disk', others, chains')
            && HandleOk(g, disk', chains', File(c, l, SlotStart(n), ClusterBytes(g), 0), n)
            && OthersSame(g, disk, chains, disk', chains', n)
            && FileAt(g, disk', chains', n) == FileView(name, [])
            && Entitled(RootDir(g, disk, chains), RootDir(g, disk', chains'), n, name, 0x20) && IsFree(RootDir(g, disk, chains)[n])
  {
    hide TableOk, DirOk, EntryOk, First, Size, Name, OnlySlot, SlotOf, WriteDirEntry, FileAt, Dir, Lbas, OthersSame, Content, Agree,
         TableChange, ChainsOk, Allocate, FatView, GeometryOk, Fits, FindFreeSlot, IsFile, IsFree;
    var dir, chains' := RootDir(g, disk, chains), chains[Slot(n) := [c]];
    Vacant(g, dir, chains, n);
    RootSlot(g, disk, others, chains, n);
    DataKept(g, disk, disk1, Allocate(FatView(disk, g), 0).1, l);
    TableAlloc(g, disk, others, chains, Slot(n), c);
    TableGeometry(g, disk, others, chains);
    OneCluster(g, c);
    var s' := WriteDirEntry(disk1[l], SlotStart(n), name, 0x20, c, 0);
    WriteDirEntryOk(disk1[l], n, name, 0x20, c, 0);
    NewHead(g, SlotOf(s', n), c);
    assert [] + [c] == [c];
    FitsNew(g, dir, n, SlotOf(s', n), chains');
    EntryStep(g, disk, disk1, others, chains, Allocate(FatView(disk, g), 0).1, chains', n, l, s');
    var disk', f' := disk1[l := s'], File(c, l, SlotStart(n), ClusterBytes(g), 0);
    assert Root != Slot(n) && RootLbas(g, chains') == RootLbas(g, chains);
    assert |chains'[Slot(n)]| * ClusterBytes(g) == ClusterBytes(g);
    FileIs(g, disk', chains', f', n);
    EmptyContent(disk', Lbas(g, chains'[Slot(n)]));
  }

  lemma TableGeometry(g: Geometry, disk: Disk, others: map<nat, seq<nat>>, chains: Chains)
    requires TableOk(g, disk, others, chains)
    ensures GeometryOk(g) && DiskOk(g, disk)
  {
  }

  lemma Vacant(g: Geometry, dir: seq<Slot32>, chains: Chains, n: nat)
    requires DirOk(g, dir, chains) && FindFreeSlot(dir, 0) == Some(n)
    ensures n < |dir| && IsFree(dir[n]) && Slot(n) !in chains
  {
  }

  lemma FitsNew(g: Geometry, dir: seq<Slot32>, n: nat, e: Slot32, chains': Chains)
    requires FindFreeSlot(dir, 0) == Some(n) && Slot(n) in chains' && EntryOk(g, e, chains'[Slot(n)]) && e[11] == 0x20
    requires NoFile(dir, Name(e)) && Name(e)[0] != 0 && Name(e)[0] != 0xe5
    ensures Fits(g, dir, n, e, chains')
  {
    hide EntryOk;
    assert e[0] == Name(e)[0];
    assert forall m :: 0 <= m < n ==> !IsFree(dir[m]);
  }
}
