/** A FAT32 volume: which cluster belongs to whom, and the files it holds. */
module Fat32Volume {
  import opened Basics
  import opened Fat32Layout
  import opened FatChains
  import opened Fat32Disk

  // ----- The sectors of a chain, in file order

  function ClusterSectors(g: Geometry, c: nat): (ls: seq<nat>)
    requires c >= 2
    ensures |ls| == g.spc
  {
    seq(g.spc, (s: nat) => ClusterLba(g, c) + s)
  }

  function Lbas(g: Geometry, ch: seq<nat>): seq<nat> {
    if |ch| == 0 then []
    else (if ch[0] >= 2 then ClusterSectors(g, ch[0]) else []) + Lbas(g, ch[1..])
  }

  ghost predicate AllData(g: Geometry, ch: seq<nat>) {
    forall i :: 0 <= i < |ch| ==> IsData(g, ch[i])
  }

  /** Sector `s` of the `i`-th cluster comes at position `i * spc + s`. */
  lemma {:induction false} LbasAt(g: Geometry, ch: seq<nat>, i: nat, s: nat)
    requires AllData(g, ch) && i < |ch| && s < g.spc
    ensures ch[i] >= 2
    ensures |Lbas(g, ch)| == |ch| * g.spc
    ensures i * g.spc + s < |Lbas(g, ch)|
    ensures Lbas(g, ch)[i * g.spc + s] == ClusterLba(g, ch[i]) + s
    decreases |ch|
  {
    assert ch[i] >= 2 && ch[0] >= 2;
    hide IsData, ClusterLba;
    LbasLength(g, ch);
    LbasStart(g, i, |ch|);
    var here, rest := ClusterSectors(g, ch[0]), Lbas(g, ch[1..]);
    assert Lbas(g, ch) == here + rest;
    if i == 0 {
      assert (here + rest)[s] == here[s];
    } else {
      LbasAt(g, ch[1..], i - 1, s);
      LbasStart(g, i - 1, |ch| - 1);
      assert (here + rest)[i * g.spc + s] == rest[(i - 1) * g.spc + s];
    }
  }

  lemma LbasStart(g: Geometry, i: nat, n: nat)
    requires i < n
    ensures i * g.spc + g.spc <= n * g.spc
    ensures i == 0 ==> i * g.spc == 0
    ensures (i + 1) * g.spc == i * g.spc + g.spc
  {
    MulLe(i + 1, n, g.spc);
  }

  lemma {:induction false} LbasLength(g: Geometry, ch: seq<nat>)
    requires AllData(g, ch)
    ensures |Lbas(g, ch)| == |ch| * g.spc
    decreases |ch|
  {
    if |ch| > 0 {
      LbasLength(g, ch[1..]);
      assert |ch| * g.spc == (|ch| - 1) * g.spc + g.spc;
    }
  }

  lemma {:induction false} LbasConcat(g: Geometry, a: seq<nat>, b: seq<nat>)
    ensures Lbas(g, a + b) == Lbas(g, a) + Lbas(g, b)
    decreases |a|
  {
    if |a| == 0 {
      assert a + b == b;
    } else {
      LbasConcat(g, a[1..], b);
      assert (a + b)[1..] == a[1..] + b;
    }
  }

  /** Every sector of a chain is a sector of one of its clusters. */
  lemma {:induction false} LbasIndex(g: Geometry, ch: seq<nat>, j: nat) returns (i: nat, s: nat)
    requires AllData(g, ch) && j < |Lbas(g, ch)|
    ensures i < |ch| && s < g.spc && j == i * g.spc + s
    decreases |ch|
  {
    if j < g.spc {
      i, s := 0, j;
    } else {
      i, s := LbasIndex(g, ch[1..], j - g.spc);
      assert (i + 1) * g.spc == i * g.spc + g.spc;
      i := i + 1;
    }
  }

  lemma LbasMember(g: Geometry, ch: seq<nat>, j: nat) returns (i: nat, s: nat)
    requires AllData(g, ch) && j < |Lbas(g, ch)|
    ensures i < |ch| && s < g.spc && j == i * g.spc + s && Lbas(g, ch)[j] == ClusterLba(g, ch[i]) + s
  {
    i, s := LbasIndex(g, ch, j);
    LbasAt(g, ch, i, s);
  }

  /** The sectors of a chain lie in the data area. */
  lemma LbasInRange(g: Geometry, ch: seq<nat>)
    requires GeometryOk(g) && AllData(g, ch)
    ensures forall j :: 0 <= j < |Lbas(g, ch)| ==> g.dataStart <= Lbas(g, ch)[j] < g.total
  {
    forall j | 0 <= j < |Lbas(g, ch)|
      ensures g.dataStart <= Lbas(g, ch)[j] < g.total
    {
      hide GeometryOk;
      var i, s := LbasMember(g, ch, j);
      ClusterInRange(g, ch[i], s);
    }
  }

  /** A chain without repetition has no sector twice. */
  lemma LbasDistinct(g: Geometry, ch: seq<nat>)
    requires GeometryOk(g) && AllData(g, ch) && Distinct(ch)
    ensures Distinct(Lbas(g, ch))
  {
    forall j, k | 0 <= j < k < |Lbas(g, ch)|
      ensures Lbas(g, ch)[j] != Lbas(g, ch)[k]
    {
      var i, s := LbasMember(g, ch, j);
      var i', s' := LbasMember(g, ch, k);
      ClustersApart(g, ch[i], s, ch[i'], s');
    }
  }

  ghost predicate Disjoint(a: seq<nat>, b: seq<nat>) {
    forall i, j :: 0 <= i < |a| && 0 <= j < |b| ==> a[i] != b[j]
  }

  /** Chains without a common cluster have no common sector. */
  lemma LbasApart(g: Geometry, a: seq<nat>, b: seq<nat>)
    requires GeometryOk(g) && AllData(g, a) && AllData(g, b) && Disjoint(a, b)
    ensures Disjoint(Lbas(g, a), Lbas(g, b))
  {
    forall j, k | 0 <= j < |Lbas(g, a)| && 0 <= k < |Lbas(g, b)|
      ensures Lbas(g, a)[j] != Lbas(g, b)[k]
    {
      var i, s := LbasMember(g, a, j);
      var i', s' := LbasMember(g, b, k);
      ClustersApart(g, a[i], s, b[i'], s');
    }
  }

  // ----- Bytes of a chain

  /** Byte `p` of the sectors `lbas` taken in order. */
  function ByteAt(disk: Disk, lbas: seq<nat>, p: nat): byte {
    if p / 512 < |lbas| && lbas[p / 512] < |disk| then disk[lbas[p / 512]][p % 512] else 0
  }

  function Content(disk: Disk, lbas: seq<nat>, size: nat): (r: seq<byte>)
    ensures |r| == size
  {
    seq(size, (p: nat) => ByteAt(disk, lbas, p))
  }

  // ----- Directory entries

  type Slot32 = e: seq<byte> | |e| == 32 witness seq(32, _ => 0)

  function ZeroSlot(): Slot32 {
    seq(32, _ => 0)
  }

  /** The bytes of slot `n` of a directory, in the sector that holds it. */
  function SlotOf(s: Sector, n: nat): Slot32 {
    s[32 * (n % 16)..32 * (n % 16) + 32]
  }

  /** The sectors differ in slot `n` only. */
  ghost predicate OnlySlot(s: Sector, s': Sector, n: nat) {
    forall i :: 0 <= i < 512 && !(32 * (n % 16) <= i < 32 * (n % 16) + 32) ==> s'[i] == s[i]
  }

  /** The 32 bytes of directory slot `n`. */
  function SlotAt(disk: Disk, lbas: seq<nat>, n: nat): Slot32 {
    if n / 16 < |lbas| && lbas[n / 16] < |disk|
    then SlotOf(disk[lbas[n / 16]], n) else ZeroSlot()
  }

  /** The directory kept in the sectors `lbas`. */
  function Dir(disk: Disk, lbas: seq<nat>): (d: seq<Slot32>)
    ensures |d| == 16 * |lbas|
  {
    seq(16 * |lbas|, (n: nat) => SlotAt(disk, lbas, n))
  }

  predicate IsFree(e: Slot32) {
    e[0] == 0 || e[0] == 0xe5
  }

  /** What `fat32_open_root` takes for a file: neither free, nor part of a long name, nor a directory. */
  predicate IsFile(e: Slot32) {
    e[0] != 0 && e[0] != 0xe5 && e[11] != 0x0f && e[11] as int / 16 % 2 == 0
  }

  function Name(e: Slot32): (nm: seq<byte>)
    ensures |nm| == 11
  {
    e[..11]
  }

  function First(e: Slot32): nat {
    65536 * Le16(e, 20) + Le16(e, 26)
  }

  function Size(e: Slot32): nat {
    Le32(e, 28)
  }

  function ClusterBytes(g: Geometry): nat {
    512 * g.spc
  }

  /** The entry of a file describes its chain. */
  ghost predicate EntryOk(g: Geometry, e: Slot32, ch: seq<nat>) {
    && (if |ch| == 0 then First(e) < 2 else First(e) == ch[0])
    && Size(e) <= |ch| * ClusterBytes(g) < U32_LIMIT
  }

  // ----- Owners

  /** Whose chain a chain is: the root directory's, the file's of a root slot, or that of something below. */
  datatype Owner = Root | Slot(n: nat) | Other(k: nat)

  type Chains = map<Owner, seq<nat>>

  ghost predicate ChainOk(fat: Fat, o: Owner, ch: seq<nat>) {
    (o.Slot? && |ch| == 0) || IsPath(fat, ch)
  }

  /** Acyclic chains, pairwise disjoint, and every allocated cluster in one of them. */
  ghost predicate ChainsOk(fat: Fat, chains: Chains) {
    PathsOk(fat, chains) && Apart(chains) && Covered(fat, chains)
  }

  ghost predicate PathsOk(fat: Fat, chains: Chains) {
    forall o :: o in chains ==> ChainOk(fat, o, chains[o])
  }

  ghost predicate Apart(chains: Chains) {
    forall o, p :: o in chains && p in chains && o != p ==> Disjoint(chains[o], chains[p])
  }

  ghost predicate Covered(fat: Fat, chains: Chains) {
    forall c: nat :: IsCluster(fat, c) && fat[c] != 0 && fat[c] != BAD ==> Owned(chains, c)
  }

  ghost predicate Owned(chains: Chains, c: nat) {
    exists o :: o in chains && c in chains[o]
  }

  ghost predicate OthersOk(others: map<nat, seq<nat>>, chains: Chains) {
    forall k: nat :: (Other(k) in chains <==> k in others) && (k in others ==> chains[Other(k)] == others[k])
  }

  ghost predicate RootOk(g: Geometry, chains: Chains) {
    Root in chains && |chains[Root]| > 0 && chains[Root][0] == g.root
  }

  ghost function RootLbas(g: Geometry, chains: Chains): seq<nat> {
    if Root in chains then Lbas(g, chains[Root]) else []
  }

  /** The directory lists exactly the files that own chains, each under its own name. */
  ghost predicate DirOk(g: Geometry, dir: seq<Slot32>, chains: Chains) {
    && (forall n: nat :: Slot(n) in chains <==> n < |dir| && IsFile(dir[n]))
    && (forall n: nat :: n < |dir| && Slot(n) in chains ==> EntryOk(g, dir[n], chains[Slot(n)]))
    && UniqueNames(dir)
    && FreeTail(dir)
  }

  ghost predicate UniqueNames(dir: seq<Slot32>) {
    forall n, m :: 0 <= n < m < |dir| && IsFile(dir[n]) && IsFile(dir[m]) ==> Name(dir[n]) != Name(dir[m])
  }

  /** Nothing but free slots follows the end mark. */
  ghost predicate FreeTail(dir: seq<Slot32>) {
    forall n, m :: 0 <= n < m < |dir| && dir[n][0] == 0 ==> IsFree(dir[m])
  }

  ghost function RootDir(g: Geometry, disk: Disk, chains: Chains): seq<Slot32> {
    Dir(disk, RootLbas(g, chains))
  }

  /** The part of the volume invariant that does not look into the directory. */
  ghost predicate TableOk(g: Geometry, disk: Disk, others: map<nat, seq<nat>>, chains: Chains) {
    && DiskOk(g, disk) && Mirrored(g, disk)
    && ChainsOk(FatView(disk, g), chains)
    && OthersOk(others, chains) && RootOk(g, chains)
  }

  /** The volume invariant. `others` are the chains below the root, which no operation here touches. */
  ghost predicate VolumeOk(g: Geometry, disk: Disk, others: map<nat, seq<nat>>, chains: Chains) {
    TableOk(g, disk, others, chains) && DirOk(g, RootDir(g, disk, chains), chains)
  }

  // ----- The files

  datatype FileView = FileView(name: seq<byte>, content: seq<byte>)

  ghost function FileAt(g: Geometry, disk: Disk, chains: Chains, n: nat): FileView
    requires Slot(n) in chains
  {
    var e := SlotAt(disk, RootLbas(g, chains), n);
    FileView(Name(e), Content(disk, Lbas(g, chains[Slot(n)]), Size(e)))
  }
}
