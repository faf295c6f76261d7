/** A write in progress. */
module Fat32Writing {
  import opened Basics
  import opened Fat32Layout
  import opened FatChains
  import opened Fat32Disk
  import opened Fat32Volume
  import opened Fat32Steps
  import opened Fat32Changes
  import opened Fat32Search
  import opened Fat32Handles

  /** The volume is well formed and, beside the data and the length of `n`'s chain, as it was. */
  ghost predicate Kept(g: Geometry, others: map<nat, seq<nat>>, disk0: Disk, chains0: Chains, disk: Disk, chains: Chains, n: nat) {
    && VolumeOk(g, disk, others, chains) && Slot(n) in chains0 && Slot(n) in chains
    && chains0[Slot(n)] <= chains[Slot(n)] && Lbas(g, chains0[Slot(n)]) <= Lbas(g, chains[Slot(n)])
    && RootLbas(g, chains) == RootLbas(g, chains0) && RootDir(g, disk, chains) == RootDir(g, disk0, chains0)
    && OthersSame(g, disk0, chains0, disk, chains, n)
  }

  /** ... and the first `k` bytes of the buffer have reached the file. */
  ghost predicate Underway(g: Geometry, others: map<nat, seq<nat>>, disk0: Disk, chains0: Chains, disk: Disk, chains: Chains, n: nat,
                           offset: nat, buf: seq<byte>, k: nat) {
    && Kept(g, others, disk0, chains0, disk, chains, n)
    && Written(disk0, Lbas(g, chains0[Slot(n)]), disk, Lbas(g, chains[Slot(n)]), offset, buf, k)
  }

  lemma UnderwayStart(g: Geometry, others: map<nat, seq<nat>>, disk: Disk, chains: Chains, n: nat, offset: nat, buf: seq<byte>)
    requires VolumeOk(g, disk, others, chains) && Slot(n) in chains
    ensures Underway(g, others, disk, chains, disk, chains, n, offset, buf, 0)
  {
    hide TableOk, DirOk, FileAt, ByteAt;
  }

  /** The chain grew by a cluster. */
  lemma UnderwayGrow(g: Geometry, others: map<nat, seq<nat>>, disk0: Disk, chains0: Chains, disk: Disk, chains: Chains, n: nat,
                     offset: nat, buf: seq<byte>, k: nat, disk': Disk, c: nat)
    requires Underway(g, others, disk0, chains0, disk, chains, n, offset, buf, k) && |chains[Slot(n)]| > 0
    requires Allocate(FatView(disk, g), Last(chains[Slot(n)])).0 == Some(c)
    requires TableChange(g, disk, disk', Allocate(FatView(disk, g), Last(chains[Slot(n)])).1)
    requires (|chains[Slot(n)]| + 1) * ClusterBytes(g) < U32_LIMIT && offset + k <= |chains[Slot(n)]| * ClusterBytes(g)
    ensures Underway(g, others, disk0, chains0, disk', chains[Slot(n) := chains[Slot(n)] + [c]], n, offset, buf, k)
  {
    hide VolumeOk, Allocate, TableChange, FatView, Lbas, RootDir, OthersSame, Written, Agree;
    var ch, chains' := chains[Slot(n)], chains[Slot(n) := chains[Slot(n)] + [c]];
    GrowStep(g, disk, disk', others, chains, n, c);
    OthersSameTrans(g, disk0, chains0, disk, chains, disk', chains', n);
    ChainBytes(g, disk, others, chains, n);
    WrittenGrown(disk0, Lbas(g, chains0[Slot(n)]), disk, Lbas(g, ch), disk', Lbas(g, ch + [c]), offset, buf, k);
    assert Root != Slot(n) && RootLbas(g, chains') == RootLbas(g, chains);
  }

  lemma ChainBytes(g: Geometry, disk: Disk, others: map<nat, seq<nat>>, chains: Chains, n: nat)
    requires VolumeOk(g, disk, others, chains) && Slot(n) in chains
    ensures 512 * |Lbas(g, chains[Slot(n)])| == |chains[Slot(n)]| * ClusterBytes(g)
  {
    hide DirOk;
    ChainData(g, disk, others, chains, Slot(n));
    hide TableOk;
    LbasLength(g, chains[Slot(n)]);
    ClusterStart(g, |chains[Slot(n)]|);
  }

  /** The next piece of the buffer was laid over a sector. */
  lemma UnderwayData(g: Geometry, others: map<nat, seq<nat>>, disk0: Disk, chains0: Chains, disk: Disk, chains: Chains, n: nat,
                     offset: nat, buf: seq<byte>, k: nat, j: nat, o: nat, count: nat)
    requires Underway(g, others, disk0, chains0, disk, chains, n, offset, buf, k) && j < |Lbas(g, chains[Slot(n)])|
    requires offset + k == 512 * j + o && o + count <= 512 && k + count <= |buf|
    ensures Lbas(g, chains[Slot(n)])[j] < |disk|
    ensures var l := Lbas(g, chains[Slot(n)])[j];
            Underway(g, others, disk0, chains0, disk[l := Overlay(disk[l], o, buf[k..k + count])], chains, n, offset, buf, k + count)
  {
    hide VolumeOk, Lbas, RootDir, OthersSame, Written, Overlay;
    DataInRange(g, disk, others, chains, n);
    var l := Lbas(g, chains[Slot(n)])[j];
    var s := Overlay(disk[l], o, buf[k..k + count]);
    DataStep(g, disk, others, chains, n, j, s);
    OthersSameTrans(g, disk0, chains0, disk, chains, disk[l := s], chains, n);
    WriteChunk(disk0, Lbas(g, chains0[Slot(n)]), disk, Lbas(g, chains[Slot(n)]), offset, buf, k, j, o, count);
  }

  lemma DataInRange(g: Geometry, disk: Disk, others: map<nat, seq<nat>>, chains: Chains, n: nat)
    requires VolumeOk(g, disk, others, chains) && Slot(n) in chains
    ensures forall j :: 0 <= j < |Lbas(g, chains[Slot(n)])| ==> Lbas(g, chains[Slot(n)])[j] < |disk|
    ensures AllData(g, chains[Slot(n)]) && DiskOk(g, disk)
  {
    hide DirOk;
    ChainData(g, disk, others, chains, Slot(n));
    LbasInRange(g, chains[Slot(n)]);
  }

  /** Where the sector loop of a write is after `s` sectors of its cluster: `k` bytes are done, `within` are to be skipped. */
  ghost predicate At(spc: nat, skip: nat, k0: nat, total: nat, s: nat, within: nat, k: nat) {
    && s <= spc && k0 <= k <= total && skip < 512 * spc && skip + (k - k0) <= 512 * spc
    && (k < total ==> skip + (k - k0) == 512 * s + within)
    && (within > 0 ==> k == k0)
  }

  lemma AtStart(spc: nat, skip: nat, k0: nat, total: nat)
    requires skip < 512 * spc && k0 <= total
    ensures At(spc, skip, k0, total, 0, skip, k0)
  {
  }

  /** A sector less to skip. */
  lemma AtSkip(spc: nat, skip: nat, k0: nat, total: nat, s: nat, within: nat, k: nat)
    requires At(spc, skip, k0, total, s, within, k) && s < spc && k < total && within >= 512
    ensures At(spc, skip, k0, total, s + 1, within - 512, k)
  {
  }

  lemma AtStep(spc: nat, skip: nat, k0: nat, total: nat, s: nat, within: nat, k: nat, n: nat)
    requires At(spc, skip, k0, total, s, within, k) && s < spc && k < total && within < 512
    requires n == Min(512 - within, total - k)
    ensures At(spc, skip, k0, total, s + 1, 0, k + n) && skip + (k - k0) == 512 * s + within
  {
  }

  lemma AtDone(spc: nat, skip: nat, k0: nat, total: nat, s: nat, within: nat, k: nat)
    requires At(spc, skip, k0, total, s, within, k) && (s == spc || k == total)
    ensures k - k0 == Min(total - k0, 512 * spc - skip)
  {
  }

  /** The chain cannot be extended: no free cluster is found, or the file would reach 4 GiB. */
  ghost predicate NoRoom(g: Geometry, disk: Disk, chains: Chains, n: nat) {
    FindFree(FatView(disk, g), 2).None? || (Slot(n) in chains && (|chains[Slot(n)]| + 1) * ClusterBytes(g) >= U32_LIMIT)
  }

  lemma AllocateFails(fat: Fat, ch: seq<nat>)
    requires SmallFat(fat) && IsPath(fat, ch)
    ensures Allocate(fat, Last(ch)).0.None? ==> FindFree(fat, 2).None?
  {
    PathMarked(fat, ch, |ch| - 1);
    assert fat[Last(ch)] >= EOC;
  }

  /** What the loops of a write use of the volume. */
  lemma UnderwayFacts(g: Geometry, others: map<nat, seq<nat>>, disk0: Disk, chains0: Chains, disk: Disk, chains: Chains, n: nat,
                      offset: nat, buf: seq<byte>, k: nat)
    requires Underway(g, others, disk0, chains0, disk, chains, n, offset, buf, k)
    ensures VolumeOk(g, disk, others, chains) && Slot(n) in chains && DiskOk(g, disk) && 0 < g.spc
    ensures SmallFat(FatView(disk, g)) && |FatView(disk, g)| == g.clusters + 2
    ensures |chains[Slot(n)]| > 0 ==> IsPath(FatView(disk, g), chains[Slot(n)])
    ensures AllData(g, chains[Slot(n)])
  {
    hide DirOk, Written, Lbas, OthersSame;
    assert TableOk(g, disk, others, chains);
    HandleChain(g, disk, others, chains, n);
    hide TableOk;
  }

  /** The handle goes with the grown chain. */
  lemma UnderwayHandle(g: Geometry, others: map<nat, seq<nat>>, disk0: Disk, chains0: Chains, disk: Disk, chains: Chains, n: nat,
                       offset: nat, buf: seq<byte>, k: nat, f: File)
    requires Underway(g, others, disk0, chains0, disk, chains, n, offset, buf, k) && HandleOk(g, disk0, chains0, f, n)
    ensures VolumeOk(g, disk, others, chains) && OthersSame(g, disk0, chains0, disk, chains, n) && Slot(n) in chains
    ensures HandleOk(g, disk, chains, f.(capacity := Capacity(g, chains[Slot(n)])), n)
  {
    hide VolumeOk, OthersSame, Written, Lbas, Dir, First, Size;
  }

  /** What the file is when a write stopped after `k` bytes: the old bytes up to `offset` are still there. */
  lemma StoppedFile(g: Geometry, others: map<nat, seq<nat>>, disk0: Disk, chains0: Chains, disk: Disk, chains: Chains, n: nat,
                    offset: nat, buf: seq<byte>, k: nat, f: File)
    requires Underway(g, others, disk0, chains0, disk, chains, n, offset, buf, k) && HandleOk(g, disk0, chains0, f, n) && offset <= f.size
    ensures Slot(n) in chains && FileAt(g, disk, chains, n).name == FileAt(g, disk0, chains0, n).name
    ensures |FileAt(g, disk, chains, n).content| == |FileAt(g, disk0, chains0, n).content| == f.size
    ensures FileAt(g, disk, chains, n).content[..offset] == FileAt(g, disk0, chains0, n).content[..offset]
  {
    hide VolumeOk, OthersSame, Lbas, RootDir, FileAt, Name, HandleOk, ByteAt;
    UnderwayHandle(g, others, disk0, chains0, disk, chains, n, offset, buf, k, f);
    FileIs(g, disk0, chains0, f, n);
    FileIs(g, disk, chains, f.(capacity := Capacity(g, chains[Slot(n)])), n);
    assert forall p: nat :: p < offset ==> FileAt(g, disk, chains, n).content[p] == FileAt(g, disk0, chains0, n).content[p];
  }

  /** What the file is when the whole buffer is in place and the new size is stored. */
  lemma FinishedContent(g: Geometry, others: map<nat, seq<nat>>, disk0: Disk, chains0: Chains, disk: Disk, chains: Chains, n: nat,
                        offset: nat, buf: seq<byte>, f: File)
    requires Underway(g, others, disk0, chains0, disk, chains, n, offset, buf, |buf|) && HandleOk(g, disk0, chains0, f, n) && offset <= f.size
    ensures Slot(n) in chains && FileAt(g, disk, chains, n).name == FileAt(g, disk0, chains0, n).name
    ensures Content(disk, Lbas(g, chains[Slot(n)]), offset + |buf|) == FileAt(g, disk0, chains0, n).content[..offset] + buf
  {
    hide VolumeOk, OthersSame, Lbas, RootDir, FileAt, Name, HandleOk, Written, Content;
    UnderwayHandle(g, others, disk0, chains0, disk, chains, n, offset, buf, |buf|, f);
    FileIs(g, disk0, chains0, f, n);
    FileIs(g, disk, chains, f.(capacity := Capacity(g, chains[Slot(n)])), n);
    WrittenContent(disk0, Lbas(g, chains0[Slot(n)]), f.size, disk, Lbas(g, chains[Slot(n)]), offset, buf);
  }
}
