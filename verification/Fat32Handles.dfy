/** Open files of a volume. */
module Fat32Handles {
  import opened Basics
  import opened Fat32Layout
  import opened FatChains
  import opened Fat32Disk
  import opened Fat32Volume
  import opened Fat32Steps
  import opened Fat32Changes
  import opened Fat32Search

  datatype File = File(first: nat, lba: nat, offset: nat, capacity: nat, size: nat)

  /** What `fat32_open_root` makes of the entry it found. */
  function EntryFile(g: Geometry, fat: Fat, e: Slot32, lba: nat, offset: nat): Option<File> {
    if First(e) < 2 then
      if Size(e) != 0 then None else Some(File(First(e), lba, offset, 0, Size(e)))
    else
      match ChainCapacity(fat, First(e), ClusterBytes(g))
      case None => None
      case Some(capacity) => if Size(e) > capacity then None else Some(File(First(e), lba, offset, capacity, Size(e)))
  }

  /** The bytes a chain can hold. */
  function Capacity(g: Geometry, ch: seq<nat>): nat {
    |ch| * ClusterBytes(g)
  }

  /** The handle describes the file of slot `n` as it is on the volume. */
  ghost predicate HandleOk(g: Geometry, disk: Disk, chains: Chains, f: File, n: nat) {
    && Slot(n) in chains && n < |RootDir(g, disk, chains)|
    && f.lba == RootLbas(g, chains)[n / 16] && f.offset == 32 * (n % 16)
    && f.first == First(RootDir(g, disk, chains)[n]) && f.size == Size(RootDir(g, disk, chains)[n])
    && f.capacity == Capacity(g, chains[Slot(n)])
  }

  /** Every file of a well-formed volume opens, and its handle is right. */
  lemma EntryFileOk(g: Geometry, disk: Disk, others: map<nat, seq<nat>>, chains: Chains, n: nat)
    requires VolumeOk(g, disk, others, chains) && n < |RootDir(g, disk, chains)| && IsFile(RootDir(g, disk, chains)[n])
    ensures var r := EntryFile(g, FatView(disk, g), RootDir(g, disk, chains)[n], RootLbas(g, chains)[n / 16], 32 * (n % 16));
            r.Some? && HandleOk(g, disk, chains, r.value, n)
  {
    hide TableOk, Dir, EntryFile, EntryOk, IsFile, First, Size, UniqueNames, FreeTail;
    assert Slot(n) in chains;
    HandleChain(g, disk, others, chains, n);
    OpenEntry(g, FatView(disk, g), RootDir(g, disk, chains)[n], chains[Slot(n)], RootLbas(g, chains)[n / 16], 32 * (n % 16));
  }

  lemma OpenEntry(g: Geometry, fat: Fat, e: Slot32, ch: seq<nat>, lba: nat, offset: nat)
    requires SmallFat(fat) && (|ch| == 0 || (IsPath(fat, ch) && ch[0] >= 2)) && EntryOk(g, e, ch)
    ensures EntryFile(g, fat, e, lba, offset) == Some(File(First(e), lba, offset, Capacity(g, ch), Size(e)))
  {
    hide First, Size, ClusterBytes, ChainCapacity, IsPath;
    if |ch| > 0 {
      CapacityOk(fat, ch[0], ClusterBytes(g));
    } else {
      assert |ch| * ClusterBytes(g) == 0;
    }
  }

  /** The chain of a file, as its operations walk it. */
  lemma HandleChain(g: Geometry, disk: Disk, others: map<nat, seq<nat>>, chains: Chains, n: nat)
    requires TableOk(g, disk, others, chains) && Slot(n) in chains
    ensures DiskOk(g, disk) && SmallFat(FatView(disk, g)) && |FatView(disk, g)| == g.clusters + 2 && 0 < g.spc
    ensures |chains[Slot(n)]| > 0 ==> IsPath(FatView(disk, g), chains[Slot(n)])
    ensures AllData(g, chains[Slot(n)])
    ensures |chains[Slot(n)]| > 0 ==> chains[Slot(n)][0] >= 2
  {
    SmallTable(g, disk);
    ChainData(g, disk, others, chains, Slot(n));
    assert ChainOk(FatView(disk, g), Slot(n), chains[Slot(n)]);
  }

  /** The handle starts at the chain of `o` and does not reach beyond it, whatever else has changed since it was made. */
  ghost predicate ReadsFrom(g: Geometry, chains: Chains, f: File, o: Owner) {
    && o in chains && f.size <= Capacity(g, chains[o]) && (f.size > 0 ==> |chains[o]| > 0 && f.first == chains[o][0])
  }

  /** The chain of any owner, as a read walks it. */
  lemma OwnerChain(g: Geometry, disk: Disk, others: map<nat, seq<nat>>, chains: Chains, o: Owner)
    requires VolumeOk(g, disk, others, chains) && o in chains
    ensures DiskOk(g, disk) && SmallFat(FatView(disk, g)) && 0 < g.spc
    ensures |chains[o]| > 0 ==> IsPath(FatView(disk, g), chains[o])
    ensures AllData(g, chains[o]) && (|chains[o]| > 0 ==> chains[o][0] >= 2)
  {
    hide DirOk;
    SmallTable(g, disk);
    ChainData(g, disk, others, chains, o);
    assert ChainOk(FatView(disk, g), o, chains[o]);
  }

  /** A handle that is up to date reads its file. */
  lemma HandleReads(g: Geometry, disk: Disk, others: map<nat, seq<nat>>, chains: Chains, f: File, n: nat)
    requires VolumeOk(g, disk, others, chains) && HandleOk(g, disk, chains, f, n)
    ensures ReadsFrom(g, chains, f, Slot(n))
    ensures FileAt(g, disk, chains, n).content == Content(disk, Lbas(g, chains[Slot(n)]), f.size)
  {
    hide VolumeOk, HandleOk, FileAt, RootDir;
    HandleSize(g, disk, others, chains, f, n);
    FileIs(g, disk, chains, f, n);
  }

  /** No file of that name. */
  ghost predicate NoFile(dir: seq<Slot32>, name: seq<byte>) {
    forall m :: 0 <= m < |dir| && IsFile(dir[m]) ==> Name(dir[m]) != name
  }

  lemma SearchOk(g: Geometry, disk: Disk, others: map<nat, seq<nat>>, chains: Chains, name: seq<byte>)
    requires VolumeOk(g, disk, others, chains)
    ensures var dir, r := RootDir(g, disk, chains), FindSlot(RootDir(g, disk, chains), name, 0);
            if r.Some? then r.value < |dir| && IsFile(dir[r.value]) && Name(dir[r.value]) == name && Slot(r.value) in chains
            else NoFile(dir, name)
  {
    hide TableOk, RootDir, Name, IsFile;
    FindSlotOk(RootDir(g, disk, chains), name, 0);
  }

  // ----- Positions in a file

  lemma ClusterStart(g: Geometry, i: nat)
    ensures ClusterBytes(g) == 512 * g.spc && i * ClusterBytes(g) == 512 * (i * g.spc)
    ensures (i + 1) * ClusterBytes(g) == i * ClusterBytes(g) + ClusterBytes(g)
  {
  }

  /** Up to `n` bytes of a content from `offset` on. */
  function Slice(s: seq<byte>, offset: nat, n: nat): (w: seq<byte>)
    ensures |w| == (if offset >= |s| then 0 else if offset + n <= |s| then n else |s| - offset)
    ensures forall i :: 0 <= i < |w| ==> w[i] == s[offset + i]
  {
    if offset <= |s| then s[offset..Min(offset + n, |s|)] else []
  }

  lemma SliceJoin(whole: seq<byte>, a: nat, b: nat, c: nat)
    requires a <= b <= c <= |whole|
    ensures whole[a..b] + whole[b..c] == whole[a..c]
  {
  }

  lemma FileIs(g: Geometry, disk: Disk, chains: Chains, f: File, n: nat)
    requires HandleOk(g, disk, chains, f, n)
    ensures FileAt(g, disk, chains, n) == FileView(Name(RootDir(g, disk, chains)[n]), Content(disk, Lbas(g, chains[Slot(n)]), f.size))
  {
    hide Lbas, Content, Name, Size, First;
  }

  /** The handle of a file, its chain and its size fit together. */
  lemma HandleSize(g: Geometry, disk: Disk, others: map<nat, seq<nat>>, chains: Chains, f: File, n: nat)
    requires VolumeOk(g, disk, others, chains) && HandleOk(g, disk, chains, f, n)
    ensures Slot(n) in chains && n < |RootDir(g, disk, chains)|
    ensures f.size <= f.capacity == |chains[Slot(n)]| * ClusterBytes(g) < U32_LIMIT
    ensures |chains[Slot(n)]| > 0 ==> f.first == chains[Slot(n)][0]
    ensures |chains[Slot(n)]| == 0 ==> f.first < 2 && f.size == 0
    ensures IsFile(RootDir(g, disk, chains)[n])
  {
    hide TableOk, Dir, UniqueNames, FreeTail, First, Size, IsFile;
    assert EntryOk(g, RootDir(g, disk, chains)[n], chains[Slot(n)]);
    if |chains[Slot(n)]| == 0 {
      assert |chains[Slot(n)]| * ClusterBytes(g) == 0;
    }
  }

  // ----- Gathering a read cluster by cluster

  /** `data` holds the bytes from `offset` on, and the next one lies at `skip` in the `i`-th cluster. */
  ghost predicate Gathered(g: Geometry, whole: seq<byte>, offset: nat, end: nat, data: seq<byte>, i: nat, skip: nat) {
    && offset <= end <= |whole| && offset + |data| <= end && data == whole[offset..offset + |data|]
    && (offset + |data| < end ==> skip < ClusterBytes(g) && i * ClusterBytes(g) + skip == offset + |data|)
  }

  lemma GatherStart(g: Geometry, whole: seq<byte>, offset: nat, end: nat, i: nat, skip: nat)
    requires offset <= end <= |whole| && skip < ClusterBytes(g) && i * ClusterBytes(g) + skip == offset
    ensures Gathered(g, whole, offset, end, [], i, skip)
  {
    hide ClusterBytes;
  }

  lemma GatherRoom(g: Geometry, whole: seq<byte>, offset: nat, end: nat, data: seq<byte>, i: nat, skip: nat)
    requires Gathered(g, whole, offset, end, data, i, skip) && offset + |data| < end
    ensures skip < ClusterBytes(g) && i * ClusterBytes(g) + skip == offset + |data|
    ensures i * ClusterBytes(g) + skip + Min(end - offset - |data|, ClusterBytes(g) - skip) <= |whole|
  {
    hide ClusterBytes;
  }

  /** One more piece, as long as the cluster and the request allow. */
  lemma GatherStep(g: Geometry, whole: seq<byte>, offset: nat, end: nat, data: seq<byte>, i: nat, skip: nat, part: seq<byte>)
    requires Gathered(g, whole, offset, end, data, i, skip) && offset + |data| < end
    requires |part| == Min(end - offset - |data|, ClusterBytes(g) - skip)
    requires offset + |data| + |part| <= |whole| && part == whole[offset + |data|..offset + |data| + |part|]
    ensures Gathered(g, whole, offset, end, data + part, i + 1, 0)
    ensures offset + |data| + |part| < end ==> (i + 1) * ClusterBytes(g) == offset + |data| + |part|
    ensures offset + |data| + |part| == end ==> Gathered(g, whole, offset, end, data + part, i, 0)
  {
    ClusterStart(g, i);
    hide ClusterBytes;
    SliceJoin(whole, offset, offset + |data|, offset + |data| + |part|);
  }

  lemma GatherEnd(g: Geometry, whole: seq<byte>, offset: nat, end: nat, data: seq<byte>, i: nat, skip: nat)
    requires Gathered(g, whole, offset, end, data, i, skip) && offset + |data| == end
    ensures data == whole[offset..end]
  {
  }
}
