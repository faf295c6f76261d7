/** The FAT32 driver: operations that rewrite the device sector by sector through one shared buffer. */
module Fat32Driver {
  import opened Basics
  import opened Fat32Layout
  import opened FatChains
  import opened Fat32Disk
  import opened Fat32Volume
  import opened Fat32Steps
  import opened Fat32Changes
  import opened Fat32Search
  import opened Fat32Names
  import opened Fat32Handles
  import opened Fat32Entries
  import opened Fat32Writing
  import opened Fat32Marks

  class Fat32 {
    const g: Geometry
    ghost const others: map<nat, seq<nat>>
    var disk: Disk
    var sector: Sector
    var writeBuffer: Sector
    ghost var chains: Chains

    /** The volume is well formed. */
    ghost predicate Valid()
      reads this
    {
      VolumeOk(g, disk, others, chains)
    }

    /** A mounted volume: the geometry its boot sector describes, on a well-formed device. */
    constructor (device: Disk, geometry: Geometry, ghost below: map<nat, seq<nat>>, ghost owners: Chains)
      requires |device| > 0 && Mount(device[0]) == Some(geometry) && VolumeOk(geometry, device, below, owners)
      ensures Valid() && disk == device && g == geometry && others == below && chains == owners
    {
      hide VolumeOk, Mount;
      g, disk, sector, writeBuffer := geometry, device, device[0], ZeroSector();
      others, chains := below, owners;
    }

    method ReadSector(lba: nat)
      requires lba < |disk|
      modifies this`sector
      ensures sector == disk[lba]
    {
      sector := disk[lba];
    }

    // ----- The allocation table

    method ReadFatEntry(c: nat, chain: bool) returns (r: Option<nat>)
      requires DiskOk(g, disk)
      modifies this`sector
      ensures r == ReadEntry(FatView(disk, g), c, chain)
    {
      hide Le32, GeometryOk;
      if !IsData(g, c) {
        return None;
      }
      EntrySector(g, c);
      FatSectorInRange(g, 0, c);
      EntryPlace(g, 0, c);
      hide FatOffset, FatLba;
      ReadSector(g.reserved + 4 * c / 512);
      var value := Le32(sector, 4 * c % 512) % 0x1000_0000;
      EntryValue(disk, g, c);
      if value == BAD || (chain && value < EOC && !IsData(g, value)) {
        return None;
      }
      return Some(value);
    }

    /** The entry is written to every copy of the table. */
    method WriteFatEntry(c: nat, value: nat) returns (ok: bool)
      requires DiskOk(g, disk)
      modifies this`disk, this`sector
      ensures ok <==> IsData(g, c) && (value == 0 || value >= EOC || IsData(g, value))
      ensures ok ==> disk == WriteFat(old(disk), g, c, value)
      ensures !ok ==> disk == old(disk)
    {
      hide PutLe32, GeometryOk, FatOffset, FatLba;
      if !IsData(g, c) || (value != 0 && value < EOC && !IsData(g, value)) {
        return false;
      }
      var copy := 0;
      while copy < g.fats
        invariant copy <= g.fats && DiskOk(g, disk)
        invariant WriteCopies(disk, g, c, value, copy) == WriteFat(old(disk), g, c, value)
      {
        FatSectorInRange(g, copy, c);
        EntryPlace(g, copy, c);
        var lba := g.reserved + copy * g.spf + 4 * c / 512;
        ReadSector(lba);
        sector := PutLe32(sector, 4 * c % 512, value % 0x1000_0000);
        disk := disk[lba := sector];
        copy := copy + 1;
      }
      return true;
    }

    method FindFreeCluster() returns (r: Option<nat>)
      requires DiskOk(g, disk)
      modifies this`sector
      ensures r == FindFree(FatView(disk, g), 2)
    {
      hide GeometryOk, FatView;
      var c := 2;
      while c - 2 < g.clusters
        invariant 2 <= c <= g.clusters + 2
        invariant FindFree(FatView(disk, g), 2) == FindFree(FatView(disk, g), c)
      {
        var value := ReadFatEntry(c, false);
        if value.None? {
          return None;
        }
        if value.value == 0 {
          return Some(c);
        }
        c := c + 1;
      }
      return None;
    }

    /** Takes a free cluster and links it after `prev`, or starts a chain when `prev` is 0. */
    method AllocateCluster(prev: nat) returns (r: Option<nat>)
      requires DiskOk(g, disk)
      modifies this`disk, this`sector
      ensures r == Allocate(FatView(old(disk), g), prev).0
      ensures TableChange(g, old(disk), disk, Allocate(FatView(old(disk), g), prev).1)
      ensures r.None? ==> disk == old(disk)
    {
      hide TableChange, WriteFat, FatView, FindFree;
      TableChangeNone(g, disk);
      ghost var fat := FatView(disk, g);
      SmallTable(g, disk);
      var n := FindFreeCluster();
      if n.None? {
        return None;
      }
      if prev != 0 {
        var value := ReadFatEntry(prev, true);
        if value.None? {
          return None;
        }
        if value.value < EOC {
          return None;
        }
        var linked := WriteFatEntry(prev, n.value);
        assert linked;
        TableChangeThen(g, old(disk), old(disk), fat, prev, n.value);
        ghost var disk1 := disk;
        KeepsOk(g, old(disk), disk1, fat[prev := n.value]);
        var ended := WriteFatEntry(n.value, EOC);
        assert ended;
        TableChangeThen(g, old(disk), disk1, fat[prev := n.value], n.value, EOC);
      } else {
        var ended := WriteFatEntry(n.value, EOC);
        assert ended;
        TableChangeThen(g, old(disk), old(disk), fat, n.value, EOC);
      }
      return n;
    }

    /** Walks a chain and frees every cluster of it. */
    method FreeClusterChain(first: nat) returns (ok: bool)
      requires DiskOk(g, disk)
      modifies this`disk, this`sector
      ensures ok == FreeChain(FatView(old(disk), g), first).0
      ensures TableChange(g, old(disk), disk, FreeChain(FatView(old(disk), g), first).1)
    {
      hide TableChange, WriteFat, FatView;
      TableChangeNone(g, disk);
      SmallTable(g, disk);
      ghost var fat := FatView(disk, g);
      var c: nat, remaining: nat := first, g.clusters;
      while IsData(g, c) && remaining != 0
        invariant DiskOk(g, disk) && remaining <= g.clusters && TableChange(g, old(disk), disk, fat) && fat == FatView(disk, g)
        invariant FreeLoop(fat, c, remaining) == FreeChain(FatView(old(disk), g), first)
        decreases remaining
      {
        SmallTable(g, disk);
        remaining := remaining - 1;
        var next := ReadFatEntry(c, true);
        if next.None? {
          return false;
        }
        ghost var disk1 := disk;
        var freed := WriteFatEntry(c, 0);
        assert freed;
        TableChangeThen(g, old(disk), disk1, fat, c, 0);
        KeepsOk(g, old(disk), disk, fat[c := 0]);
        fat := fat[c := 0];
        c := next.value;
        if c >= EOC {
          return true;
        }
      }
      return false;
    }

    /** The bytes a chain can hold. */
    method FileChainCapacity(first: nat) returns (r: Option<nat>)
      requires DiskOk(g, disk)
      modifies this`sector
      ensures r == ChainCapacity(FatView(disk, g), first, ClusterBytes(g))
    {
      hide GeometryOk, FatView;
      if !IsData(g, first) {
        return None;
      }
      ghost var fat := FatView(disk, g);
      var total: nat, c: nat, remaining: nat := 0, first, g.clusters;
      while remaining != 0
        invariant remaining <= g.clusters
        invariant CapacityLoop(fat, c, remaining, total, ClusterBytes(g)) == ChainCapacity(fat, first, ClusterBytes(g))
        decreases remaining
      {
        remaining := remaining - 1;
        total := total + ClusterBytes(g);
        if total >= U32_LIMIT {
          return None;
        }
        var next := ReadFatEntry(c, true);
        if next.None? {
          return None;
        }
        c := next.value;
        if c >= EOC {
          return Some(total);
        }
      }
      return None;
    }

    // ----- The root directory

    /** Searches one directory sector, the `j`-th of the root, for a file named `wanted`. */
    method ScanSector(lba: nat, wanted: seq<byte>, ghost j: nat) returns (found: Option<nat>, stop: bool, ghost t: nat)
      requires Valid() && j < |RootLbas(g, chains)| && lba == RootLbas(g, chains)[j]
      modifies this`sector
      ensures lba < |disk| && sector == disk[lba]
      ensures FindSlot(RootDir(g, disk, chains), wanted, 16 * j)
           == if found.Some? then Some(16 * j + t)
              else if stop then None else FindSlot(RootDir(g, disk, chains), wanted, 16 * j + 16)
      ensures found.Some? ==> t < 16 && found.value == 32 * t
    {
      hide TableOk, DirOk, Lbas, Dir;
      RootRange(g, disk, others, chains);
      ReadSector(lba);
      ghost var dir := RootDir(g, disk, chains);
      var offset := 0;
      t := 0;
      while offset < 512
        invariant t <= 16 && offset == 32 * t && sector == disk[lba]
        invariant FindSlot(dir, wanted, 16 * j) == FindSlot(dir, wanted, 16 * j + t)
      {
        var e: Slot32 := sector[offset..offset + 32];
        SlotHere(disk, RootLbas(g, chains), j, t);
        ghost var k := 16 * j + t;
        if e[0] == 0 {
          return None, true, t;
        }
        if e[0] == 0xe5 || e[11] == 0x0f || e[11] as int / 16 % 2 != 0 || e[..11] != wanted {
          assert FindSlot(dir, wanted, k) == FindSlot(dir, wanted, k + 1);
          offset := offset + 32;
          t := t + 1;
          continue;
        }
        return Some(offset), true, t;
      }
      return None, false, t;
    }

    /** Searches one cluster of the root directory, the `i`-th, whose sectors are the root's from the `at`-th on. */
    method ScanCluster(cluster: nat, wanted: seq<byte>, ghost i: nat, ghost at: nat) returns (r: Option<(nat, nat)>, stop: bool, ghost n: nat)
      requires Valid() && Root in chains && AllData(g, chains[Root]) && i < |chains[Root]| && cluster == chains[Root][i] && at == i * g.spc
      modifies this`sector
      ensures FindSlot(RootDir(g, disk, chains), wanted, 16 * at)
           == if r.Some? then Some(n)
              else if stop then None else FindSlot(RootDir(g, disk, chains), wanted, 16 * (at + g.spc))
      ensures r.Some? ==> n < |RootDir(g, disk, chains)|
      ensures r.Some? ==> r.value == (RootLbas(g, chains)[n / 16], 32 * (n % 16)) && r.value.0 < |disk| && sector == disk[r.value.0]
    {
      hide VolumeOk, Lbas, ClusterLba, GeometryOk, FindSlot, Dir, AllData;
      ghost var dir := RootDir(g, disk, chains);
      var s := 0;
      n := 0;
      while s < g.spc
        invariant 0 <= s <= g.spc
        invariant FindSlot(dir, wanted, 16 * at) == FindSlot(dir, wanted, 16 * (at + s))
      {
        LbasAt(g, chains[Root], i, s);
        var lba := ClusterLba(g, cluster) + s;
        var found, ended, t := ScanSector(lba, wanted, at + s);
        if found.Some? {
          n := 16 * (at + s) + t;
          FindSlotBound(dir, wanted, 16 * (at + s));
          SlotPlace(at + s, t, n);
          return Some((lba, found.value)), true, n;
        }
        if ended {
          return None, true, 0;
        }
        s := s + 1;
      }
      return None, false, 0;
    }

    /** The scan of `fat32_open_root` over the chain of the root directory. */
    method FindEntry(wanted: seq<byte>) returns (r: Option<(nat, nat)>, ghost n: nat)
      requires Valid()
      modifies this`sector
      ensures FindSlot(RootDir(g, disk, chains), wanted, 0) == if r.Some? then Some(n) else None
      ensures r.Some? ==> n < |RootDir(g, disk, chains)|
      ensures r.Some? ==> r.value == (RootLbas(g, chains)[n / 16], 32 * (n % 16)) && r.value.0 < |disk| && sector == disk[r.value.0]
    {
      hide TableOk, DirOk, Lbas, AllData, IsData, IsPath, FatView, GeometryOk, FindSlot, Dir, ReadEntry;
      n := 0;
      RootChain(g, disk, others, chains);
      ghost var ch, fat, dir := chains[Root], FatView(disk, g), RootDir(g, disk, chains);
      var cluster: nat, remaining: nat := g.root, g.clusters;
      ghost var i, at := 0, 0;
      while IsData(g, cluster) && remaining != 0
        invariant i <= |ch| && remaining == g.clusters - i && at == i * g.spc
        invariant if i < |ch| then cluster == ch[i] else cluster >= EOC
        invariant FindSlot(dir, wanted, 0) == FindSlot(dir, wanted, 16 * at)
        decreases remaining
      {
        NotEnd(g, cluster);
        remaining := remaining - 1;
        var found, stop;
        found, stop, n := ScanCluster(cluster, wanted, i, at);
        if found.Some? || stop {
          return found, n;
        }
        WalkStep(fat, ch, i);
        var next := ReadFatEntry(cluster, true);
        cluster := next.value;
        LbasStart(g, i, i + 1);
        i, at := i + 1, at + g.spc;
      }
      RootEnd(g, disk, others, chains, wanted, i, 16 * at);
      return None, 0;
    }

    method LoadEntry(lba: nat, offset: nat) returns (r: Option<File>)
      requires DiskOk(g, disk) && offset + 32 <= 512
      modifies this`sector
      ensures r == EntryFile(g, FatView(disk, g), old(sector)[offset..offset + 32], lba, offset)
    {
      hide Le16, Le32, ChainCapacity, GeometryOk, FatView;
      var e: Slot32 := sector[offset..offset + 32];
      var first, capacity, size := 65536 * Le16(e, 20) + Le16(e, 26), 0, Le32(e, 28);
      if size != 0 && first < 2 {
        return None;
      }
      if first >= 2 {
        var c := FileChainCapacity(first);
        if c.None? || size > c.value {
          return None;
        }
        capacity := c.value;
      }
      return Some(File(first, lba, offset, capacity, size));
    }

    /** Opens the file of the root directory with that name, whenever there is one. */
    method OpenRoot(name: seq<byte>) returns (r: Option<File>, ghost n: nat)
      requires Valid()
      modifies this`sector
      ensures r.Some? ==> ShortName(name).Some? && HandleOk(g, disk, chains, r.value, n)
                          && Name(RootDir(g, disk, chains)[n]) == ShortName(name).value
      ensures r.None? ==> ShortName(name).None? || NoFile(RootDir(g, disk, chains), ShortName(name).value)
    {
      hide TableOk, DirOk, HandleOk, ShortName, FindSlot, EntryFile, Name, IsFile, NoFile, Dir, Lbas;
      n := 0;
      var wanted := MakeShortName(name);
      if wanted.None? {
        return None, n;
      }
      var at;
      at, n := FindEntry(wanted.value);
      SearchOk(g, disk, others, chains, wanted.value);
      if at.None? {
        return None, n;
      }
      RootSlot(g, disk, others, chains, n);
      EntryFileOk(g, disk, others, chains, n);
      VolumeDisk(g, disk, others, chains);
      r := LoadEntry(at.value.0, at.value.1);
    }

    // ----- Reading

    /** The sector loop of `fat32_read` in the cluster whose sectors start at the `at`-th: at most `count` bytes from `skip` on. */
    method ReadCluster(cluster: nat, skip: nat, count: nat, ghost ch: seq<nat>, ghost i: nat, ghost at: nat, ghost size: nat)
      returns (data: seq<byte>)
      requires DiskOk(g, disk) && AllData(g, ch) && i < |ch| && cluster == ch[i] && at == i * g.spc && skip < 512 * g.spc
      requires 512 * at + skip + Min(count, 512 * g.spc - skip) <= size
      modifies this`sector
      ensures |data| == Min(count, 512 * g.spc - skip)
      ensures data == Content(disk, Lbas(g, ch), size)[512 * at + skip..512 * at + skip + |data|]
    {
      hide GeometryOk, AllData, Lbas, Content, IsData, ClusterLba, Copying;
      ghost var lbas := Lbas(g, ch);
      ghost var whole := Content(disk, lbas, size);
      ChainRange(g, disk, ch);
      data := [];
      var s: nat, within: nat := 0, skip;
      CopyingStart(g.spc, whole, 512 * at, skip, count);
      while s < g.spc && |data| < count
        invariant s <= g.spc && |data| <= count
        invariant Copying(g.spc, whole, 512 * at, skip, count, s, within, data)
      {
        if within >= 512 {
          CopyingSkip(g.spc, whole, 512 * at, skip, count, s, within, data);
          within := within - 512;
        } else {
          LbasAt(g, ch, i, s);
          ReadSector(ClusterLba(g, cluster) + s);
          var n := Min(512 - within, count - |data|);
          CopyingStep(g.spc, whole, 512 * at, skip, count, s, within, data, n);
          ReadChunk(disk, lbas, size, at + s, within, n);
          data := data + sector[within..within + n];
          within := 0;
        }
        s := s + 1;
      }
      CopyingDone(g.spc, whole, 512 * at, skip, count, s, within, data);
    }

    /** The skip loop of `fat32_read`: the cluster that holds byte `offset`, and the offset in it. */
    method Seek(first: nat, offset: nat, ghost ch: seq<nat>) returns (cluster: nat, skip: nat, ghost i: nat)
      requires DiskOk(g, disk) && SmallFat(FatView(disk, g)) && IsPath(FatView(disk, g), ch) && first == ch[0]
      requires 0 < ClusterBytes(g) && offset < |ch| * ClusterBytes(g)
      modifies this`sector
      ensures i < |ch| && cluster == ch[i] && skip < ClusterBytes(g) && i * ClusterBytes(g) + skip == offset
    {
      hide DiskOk, IsPath, FatView, ReadEntry, ClusterBytes;
      cluster, skip, i := first, offset, 0;
      while skip >= ClusterBytes(g)
        invariant i < |ch| && cluster == ch[i] && i * ClusterBytes(g) + skip == offset
      {
        skip := skip - ClusterBytes(g);
        ClusterStart(g, i);
        NextCluster(g, FatView(disk, g), ch, i, offset);
        var next := ReadFatEntry(cluster, true);
        cluster := next.value;
        i := i + 1;
      }
    }

    /** Up to `capacity` bytes from `offset` on, of the bytes the handle spans in the chain it starts. */
    method Read(f: File, offset: nat, capacity: nat, ghost o: Owner) returns (r: Option<seq<byte>>)
      requires Valid() && ReadsFrom(g, chains, f, o)
      modifies this`sector
      ensures r == if offset > f.size then None else Some(Slice(Content(disk, Lbas(g, chains[o]), f.size), offset, capacity))
    {
      hide VolumeOk, Lbas, Content, DiskOk, IsPath, AllData, FatView, ReadEntry, RootDir, ClusterBytes;
      OwnerChain(g, disk, others, chains, o);
      ghost var ch := chains[o];
      ghost var whole := Content(disk, Lbas(g, ch), f.size);
      if offset > f.size {
        return None;
      }
      var remaining: nat := Min(f.size - offset, capacity);
      if remaining == 0 {
        assert whole[offset..offset] == [];
        return Some([]);
      }
      if f.first < 2 {
        return None;
      }
      ClusterStart(g, 0);
      var cluster: nat, skip: nat;
      ghost var i: nat;
      cluster, skip, i := Seek(f.first, offset, ch);
      var data: seq<byte> := [];
      ghost var end := Min(offset + capacity, f.size);
      GatherStart(g, whole, offset, end, i, skip);
      hide Gathered;
      while remaining > 0
        invariant i < |ch| && cluster == ch[i] && |data| + remaining == end - offset
        invariant Gathered(g, whole, offset, end, data, i, skip)
      {
        ClusterStart(g, i);
        GatherRoom(g, whole, offset, end, data, i, skip);
        var part := ReadCluster(cluster, skip, remaining, ch, i, i * g.spc, f.size);
        GatherStep(g, whole, offset, end, data, i, skip, part);
        data := data + part;
        remaining := remaining - |part|;
        skip := 0;
        if remaining > 0 {
          NextCluster(g, FatView(disk, g), ch, i, offset + |data|);
          var next := ReadFatEntry(cluster, true);
          cluster := next.value;
          i := i + 1;
        }
      }
      GatherEnd(g, whole, offset, end, data, i, skip);
      return Some(data);
    }

    // ----- Writing

    /** The next cluster of the file being written, taken from the chain or newly allocated. */
    method AdvanceOrAllocate(f: File, cluster: nat, ghost n: nat, ghost i: nat,
                             ghost disk0: Disk, ghost chains0: Chains, ghost offset: nat, ghost buf: seq<byte>, ghost k: nat)
      returns (next: Option<nat>, f': File)
      requires Underway(g, others, disk0, chains0, disk, chains, n, offset, buf, k)
      requires Slot(n) in chains && i < |chains[Slot(n)]| && cluster == chains[Slot(n)][i]
      requires f.capacity == |chains[Slot(n)]| * ClusterBytes(g) && offset + k <= f.capacity
      modifies this`disk, this`sector, this`chains
      ensures Underway(g, others, disk0, chains0, disk, chains, n, offset, buf, k)
      ensures Slot(n) in chains && |chains[Slot(n)]| >= old(|chains[Slot(n)]|)
      ensures f' == f.(capacity := Capacity(g, chains[Slot(n)])) && f'.capacity >= f.capacity
      ensures next.Some? ==> i + 1 < |chains[Slot(n)]| && next.value == chains[Slot(n)][i + 1]
      ensures next.None? ==> NoRoom(g, disk, chains, n) && i + 1 == |chains[Slot(n)]|
    {
      hide Underway, VolumeOk, FatView, IsPath, Allocate, TableChange, DiskOk, SmallFat, AllData, ReadEntry, FindFree;
      ghost var ch := chains[Slot(n)];
      UnderwayFacts(g, others, disk0, chains0, disk, chains, n, offset, buf, k);
      WalkStep(FatView(disk, g), ch, i);
      var entry := ReadFatEntry(cluster, true);
      if entry.value >= EOC {
        assert cluster == Last(ch);
        ClusterStart(g, |ch|);
        if f.capacity > U32_LIMIT - 1 - ClusterBytes(g) {
          return None, f;
        }
        AllocateFails(FatView(disk, g), ch);
        ghost var disk1 := disk;
        var c := AllocateCluster(cluster);
        if c.None? {
          return None, f;
        }
        UnderwayGrow(g, others, disk0, chains0, disk1, chains, n, offset, buf, k, disk, c.value);
        chains := chains[Slot(n) := ch + [c.value]];
        return c, f.(capacity := f.capacity + ClusterBytes(g));
      }
      return entry, f;
    }

    /** The sector loop of `fat32_write` in one cluster of the file; returns how much of the buffer is now written. */
    method WriteCluster(cluster: nat, skip: nat, buf: seq<byte>, k0: nat, ghost n: nat, ghost i: nat, ghost at: nat,
                        ghost disk0: Disk, ghost chains0: Chains, ghost offset: nat)
      returns (k: nat)
      requires Underway(g, others, disk0, chains0, disk, chains, n, offset, buf, k0)
      requires Slot(n) in chains && i < |chains[Slot(n)]| && cluster == chains[Slot(n)][i] && at == i * g.spc
      requires skip < 512 * g.spc && offset + k0 == 512 * at + skip && k0 <= |buf|
      modifies this`disk, this`sector, this`writeBuffer
      ensures Underway(g, others, disk0, chains0, disk, chains, n, offset, buf, k)
      ensures k == k0 + Min(|buf| - k0, 512 * g.spc - skip)
    {
      hide Underway, VolumeOk, FatView, IsPath, DiskOk, SmallFat, AllData, Lbas, At, Overlay, ClusterLba, IsData;
      k := k0;
      var s: nat, within: nat := 0, skip;
      ghost var ch := chains[Slot(n)];
      ghost var lbas := Lbas(g, ch);
      UnderwayFacts(g, others, disk0, chains0, disk, chains, n, offset, buf, k);
      AtStart(g.spc, skip, k0, |buf|);
      while s < g.spc && k < |buf|
        invariant s <= g.spc && k0 <= k <= |buf|
        invariant Underway(g, others, disk0, chains0, disk, chains, n, offset, buf, k)
        invariant At(g.spc, skip, k0, |buf|, s, within, k)
      {
        if within >= 512 {
          AtSkip(g.spc, skip, k0, |buf|, s, within, k);
          within := within - 512;
        } else {
          LbasAt(g, ch, i, s);
          UnderwayFacts(g, others, disk0, chains0, disk, chains, n, offset, buf, k);
          DataInRange(g, disk, others, chains, n);
          var lba := ClusterLba(g, cluster) + s;
          ReadSector(lba);
          writeBuffer := sector;
          var count := Min(512 - within, |buf| - k);
          AtStep(g.spc, skip, k0, |buf|, s, within, k, count);
          UnderwayData(g, others, disk0, chains0, disk, chains, n, offset, buf, k, at + s, within, count);
          writeBuffer := Overlay(writeBuffer, within, buf[k..k + count]);
          disk := disk[lba := writeBuffer];
          k := k + count;
          within := 0;
        }
        s := s + 1;
      }
      AtDone(g.spc, skip, k0, |buf|, s, within, k);
    }

    /** The first loop of `fat32_write`: the cluster of `offset`, which may be a new one, and the offset in it. */
    method SeekToWrite(f: File, offset: nat, ghost buf: seq<byte>, ghost n: nat)
      returns (cluster: Option<nat>, skip: nat, f': File, ghost i: nat)
      requires Valid() && HandleOk(g, disk, chains, f, n) && f.first >= 2 && offset <= f.capacity
      modifies this
      ensures Underway(g, others, old(disk), old(chains), disk, chains, n, offset, buf, 0) && Slot(n) in chains
      ensures f' == f.(capacity := Capacity(g, chains[Slot(n)])) && offset <= f'.capacity
      ensures cluster.None? ==> NoRoom(g, disk, chains, n) && f'.capacity <= offset
      ensures cluster.Some? ==> && i < |chains[Slot(n)]| && cluster.value == chains[Slot(n)][i]
                                && skip < ClusterBytes(g) && i * ClusterBytes(g) + skip == offset
    {
      hide Underway, VolumeOk, HandleOk, FatView, IsPath, DiskOk, SmallFat, AllData, ClusterBytes, RootDir, NoRoom;
      HandleSize(g, disk, others, chains, f, n);
      UnderwayStart(g, others, disk, chains, n, offset, buf);
      ghost var disk0, chains0 := disk, chains;
      UnderwayFacts(g, others, disk0, chains0, disk, chains, n, offset, buf, 0);
      ClusterStart(g, 0);
      f', skip, i := f, offset, 0;
      var at := f.first;
      while skip >= ClusterBytes(g)
        invariant Underway(g, others, disk0, chains0, disk, chains, n, offset, buf, 0)
        invariant Slot(n) in chains && i < |chains[Slot(n)]| && at == chains[Slot(n)][i]
        invariant f' == f.(capacity := Capacity(g, chains[Slot(n)])) && offset <= f'.capacity
        invariant i * ClusterBytes(g) + skip == offset
      {
        skip := skip - ClusterBytes(g);
        ClusterStart(g, i);
        var next;
        next, f' := AdvanceOrAllocate(f', at, n, i, disk0, chains0, offset, buf, 0);
        if next.None? {
          return None, skip, f', i;
        }
        at := next.value;
        i := i + 1;
      }
      return Some(at), skip, f', i;
    }

    /** The two loops of `fat32_write`: find the cluster of `offset`, then write cluster by cluster. */
    method WriteData(f: File, offset: nat, buf: seq<byte>, ghost n: nat) returns (ok: bool, f': File, ghost k: nat)
      requires Valid() && HandleOk(g, disk, chains, f, n) && f.first >= 2 && offset <= f.capacity && |buf| > 0
      modifies this
      ensures Underway(g, others, old(disk), old(chains), disk, chains, n, offset, buf, k) && Slot(n) in chains
      ensures f' == f.(capacity := Capacity(g, chains[Slot(n)]))
      ensures ok ==> k == |buf| && offset + |buf| <= f'.capacity
      ensures !ok ==> NoRoom(g, disk, chains, n) && f'.capacity < offset + |buf|
    {
      hide Underway, VolumeOk, HandleOk, FatView, IsPath, DiskOk, SmallFat, AllData, ClusterBytes, RootDir, NoRoom, Capacity;
      ghost var disk0, chains0 := disk, chains;
      var start: Option<nat>, skip: nat;
      ghost var i: nat;
      start, skip, f', i := SeekToWrite(f, offset, buf, n);
      k := 0;
      if start.None? {
        return false, f', 0;
      }
      var cluster := start.value;
      var copied: nat := 0;
      while copied < |buf|
        invariant copied <= |buf| && Underway(g, others, disk0, chains0, disk, chains, n, offset, buf, copied)
        invariant Slot(n) in chains && i < |chains[Slot(n)]| && cluster == chains[Slot(n)][i]
        invariant f' == f.(capacity := Capacity(g, chains[Slot(n)])) && offset + copied <= f'.capacity
        invariant copied < |buf| ==> skip < ClusterBytes(g) && i * ClusterBytes(g) + skip == offset + copied
      {
        ClusterStart(g, i);
        CapacityFrom(g, chains[Slot(n)], i);
        copied := WriteCluster(cluster, skip, buf, copied, n, i, i * g.spc, disk0, chains0, offset);
        skip := 0;
        if copied < |buf| {
          var next;
          next, f' := AdvanceOrAllocate(f', cluster, n, i, disk0, chains0, offset, buf, copied);
          CapacityFrom(g, chains[Slot(n)], i);
          if next.None? {
            return false, f', copied;
          }
          cluster := next.value;
          i := i + 1;
        }
      }
      return true, f', copied;
    }

    /** Stores a size in the directory entry of the file. */
    method StoreSize(f: File, size: nat, ghost n: nat) returns (f': File)
      requires Valid() && HandleOk(g, disk, chains, f, n) && size <= f.capacity
      modifies this`disk, this`sector
      ensures Valid() && HandleOk(g, disk, chains, f', n) && f' == f.(size := size)
      ensures OthersSame(g, old(disk), chains, disk, chains, n)
      ensures FileAt(g, disk, chains, n)
           == FileView(old(FileAt(g, disk, chains, n)).name, Content(old(disk), Lbas(g, chains[Slot(n)]), size))
      ensures Retitled(g, old(disk), chains, disk, chains, n)
    {
      hide VolumeOk, HandleOk, PutLe32, FileAt, OthersSame, Content, Lbas, Retitled;
      SizeStep(g, disk, others, chains, f, n, size);
      ReadSector(f.lba);
      sector := PutLe32(sector, f.offset + 28, size);
      disk := disk[f.lba := sector];
      return f.(size := size);
    }

    /** The first cluster of an empty file. */
    method AllocateHead(f: File, ghost n: nat) returns (ok: bool, f': File)
      requires Valid() && HandleOk(g, disk, chains, f, n) && f.first < 2
      modifies this`disk, this`sector, this`chains
      ensures Valid() && HandleOk(g, disk, chains, f', n) && f'.size == f.size
      ensures OthersSame(g, old(disk), old(chains), disk, chains, n)
      ensures FileAt(g, disk, chains, n) == old(FileAt(g, disk, chains, n))
      ensures Retitled(g, old(disk), old(chains), disk, chains, n)
      ensures ok ==> f'.first >= 2
      ensures !ok ==> f' == f && disk == old(disk) && chains == old(chains) && NoRoom(g, disk, chains, n)
    {
      hide VolumeOk, HandleOk, PutFirst, FileAt, OthersSame, FatView, TableChange, Retitled;
      SameSelf(g, disk, chains, n);
      TitleSelf(g, disk, chains, f, n);
      VolumeDisk(g, disk, others, chains);
      ghost var disk0 := disk;
      var head := AllocateCluster(0);
      if head.None? {
        return false, f;
      }
      HeadStep(g, disk0, disk, others, chains, f, n, head.value);
      ReadSector(f.lba);
      sector := PutFirst(sector, f.offset, head.value);
      disk := disk[f.lba := sector];
      chains := chains[Slot(n) := [head.value]];
      HandleSize(g, disk, others, chains, f.(first := head.value, capacity := ClusterBytes(g)), n);
      return true, f.(first := head.value, capacity := ClusterBytes(g));
    }

    /** Writes `buf` at `offset`; the file then ends where the buffer ends. */
    method Write(f: File, offset: nat, buf: seq<byte>, ghost n: nat) returns (ok: bool, f': File)
      requires Valid() && HandleOk(g, disk, chains, f, n)
      modifies this
      ensures Valid() && HandleOk(g, disk, chains, f', n)
      ensures OthersSame(g, old(disk), old(chains), disk, chains, n)
      ensures FileAt(g, disk, chains, n).name == old(FileAt(g, disk, chains, n)).name
      ensures Retitled(g, old(disk), old(chains), disk, chains, n)
      ensures ok ==> offset <= f.size && f'.size == offset + |buf| <= f'.capacity < U32_LIMIT
      ensures ok ==> FileAt(g, disk, chains, n).content == old(FileAt(g, disk, chains, n)).content[..offset] + buf
      ensures offset > f.size ==> !ok && disk == old(disk) && chains == old(chains) && f' == f
      ensures !ok && offset <= f.size ==> f'.size == f.size && NoRoom(g, disk, chains, n) && f'.capacity < offset + |buf|
      ensures !ok && offset <= f.size ==>
                |FileAt(g, disk, chains, n).content| == f.size
                && FileAt(g, disk, chains, n).content[..offset] == old(FileAt(g, disk, chains, n)).content[..offset]
    {
      hide VolumeOk, HandleOk, FileAt, OthersSame, NoRoom, Underway, Content, Lbas, RootDir, Retitled;
      HandleSize(g, disk, others, chains, f, n);
      TitleSelf(g, disk, chains, f, n);
      SameSelf(g, disk, chains, n);
      FileLength(g, disk, chains, f, n);
      if offset > f.size || offset > f.capacity {
        return false, f;
      }
      if |buf| == 0 {
        EmptyWrite(g, disk, chains, f, n, offset);
        f' := StoreSize(f, offset, n);
        HandleSize(g, disk, others, chains, f', n);
        return true, f';
      }
      f' := f;
      VolumeHead(g, disk, others, chains, f, n);
      if f.first < 2 {
        ok, f' := AllocateHead(f, n);
        if !ok {
          return false, f';
        }
      }
      HandleSize(g, disk, others, chains, f', n);
      ghost var disk0, chains0, f0 := disk, chains, f';
      ghost var k;
      ok, f', k := WriteData(f', offset, buf, n);
      UnderwayHandle(g, others, disk0, chains0, disk, chains, n, offset, buf, k, f0);
      OthersSameTrans(g, old(disk), old(chains), disk0, chains0, disk, chains, n);
      StoppedFile(g, others, disk0, chains0, disk, chains, n, offset, buf, k, f0);
      UnderwayTitle(g, others, disk0, chains0, disk, chains, n, offset, buf, k, f0);
      TitleTrans(g, old(disk), old(chains), disk0, chains0, disk, chains, n);
      if !ok {
        return false, f';
      }
      FinishedContent(g, others, disk0, chains0, disk, chains, n, offset, buf, f0);
      ghost var disk2 := disk;
      f' := StoreSize(f', offset + |buf|, n);
      OthersSameTrans(g, old(disk), old(chains), disk2, chains, disk, chains, n);
      TitleTrans(g, old(disk), old(chains), disk2, chains, disk, chains, n);
      HandleSize(g, disk, others, chains, f', n);
    }

    // ----- Creating, deleting, renaming

    /** Searches one directory sector, the `j`-th of the root, for a free slot. */
    method ScanFree(lba: nat, ghost j: nat) returns (found: Option<nat>, ghost t: nat)
      requires Valid() && j < |RootLbas(g, chains)| && lba == RootLbas(g, chains)[j]
      modifies this`sector
      ensures FindFreeSlot(RootDir(g, disk, chains), 16 * j)
           == if found.Some? then Some(16 * j + t) else FindFreeSlot(RootDir(g, disk, chains), 16 * j + 16)
      ensures found.Some? ==> t < 16 && found.value == 32 * t
    {
      hide TableOk, DirOk, Lbas, Dir;
      RootRange(g, disk, others, chains);
      ReadSector(lba);
      ghost var dir := RootDir(g, disk, chains);
      var offset := 0;
      t := 0;
      while offset < 512
        invariant t <= 16 && offset == 32 * t && sector == disk[lba]
        invariant FindFreeSlot(dir, 16 * j) == FindFreeSlot(dir, 16 * j + t)
      {
        SlotHere(disk, RootLbas(g, chains), j, t);
        ghost var k := 16 * j + t;
        assert dir[k][0] == sector[offset];
        if sector[offset] == 0 || sector[offset] == 0xe5 {
          return Some(offset), t;
        }
        assert FindFreeSlot(dir, k) == FindFreeSlot(dir, k + 1);
        offset := offset + 32;
        t := t + 1;
      }
      return None, t;
    }

    /** Searches the `i`-th cluster of the root directory for a free slot. */
    method ScanFreeCluster(cluster: nat, ghost i: nat, ghost at: nat) returns (r: Option<(nat, nat)>, ghost n: nat)
      requires Valid() && Root in chains && AllData(g, chains[Root]) && i < |chains[Root]| && cluster == chains[Root][i] && at == i * g.spc
      modifies this`sector
      ensures FindFreeSlot(RootDir(g, disk, chains), 16 * at)
           == if r.Some? then Some(n) else FindFreeSlot(RootDir(g, disk, chains), 16 * (at + g.spc))
      ensures r.Some? ==> n < |RootDir(g, disk, chains)| && r.value == (RootLbas(g, chains)[n / 16], SlotStart(n))
    {
      hide VolumeOk, Lbas, ClusterLba, GeometryOk, FindFreeSlot, Dir, AllData;
      ghost var dir := RootDir(g, disk, chains);
      var s := 0;
      n := 0;
      while s < g.spc
        invariant 0 <= s <= g.spc
        invariant FindFreeSlot(dir, 16 * at) == FindFreeSlot(dir, 16 * (at + s))
      {
        LbasAt(g, chains[Root], i, s);
        var lba := ClusterLba(g, cluster) + s;
        var found, t := ScanFree(lba, at + s);
        if found.Some? {
          n := 16 * (at + s) + t;
          SlotPlace(at + s, t, n);
          return Some((lba, found.value)), n;
        }
        s := s + 1;
      }
      return None, 0;
    }

    /** The first free slot of the root directory. */
    method FindFreeDirEntry() returns (r: Option<(nat, nat)>, ghost n: nat)
      requires Valid()
      modifies this`sector
      ensures FindFreeSlot(RootDir(g, disk, chains), 0) == if r.Some? then Some(n) else None
      ensures r.Some? ==> n < |RootDir(g, disk, chains)| && r.value == (RootLbas(g, chains)[n / 16], SlotStart(n))
    {
      hide TableOk, DirOk, Lbas, AllData, IsData, IsPath, FatView, GeometryOk, FindFreeSlot, Dir, ReadEntry;
      n := 0;
      RootChain(g, disk, others, chains);
      ghost var ch, fat, dir := chains[Root], FatView(disk, g), RootDir(g, disk, chains);
      var cluster: nat, remaining: nat := g.root, g.clusters;
      ghost var i, at := 0, 0;
      while IsData(g, cluster) && remaining != 0
        invariant i <= |ch| && remaining == g.clusters - i && at == i * g.spc
        invariant if i < |ch| then cluster == ch[i] else cluster >= EOC
        invariant FindFreeSlot(dir, 0) == FindFreeSlot(dir, 16 * at)
        decreases remaining
      {
        NotEnd(g, cluster);
        remaining := remaining - 1;
        var found;
        found, n := ScanFreeCluster(cluster, i, at);
        if found.Some? {
          return found, n;
        }
        WalkStep(fat, ch, i);
        var next := ReadFatEntry(cluster, true);
        cluster := next.value;
        LbasStart(g, i, i + 1);
        i, at := i + 1, at + g.spc;
      }
      RootFull(g, disk, others, chains, i, 16 * at);
      return None, 0;
    }

    method ClearCluster(c: nat)
      requires IsData(g, c) && ClusterLba(g, c) + g.spc <= |disk|
      modifies this`disk, this`writeBuffer
      ensures disk == Wiped(old(disk), ClusterLba(g, c), g.spc)
    {
      hide ClusterLba;
      var lba := ClusterLba(g, c);
      writeBuffer := ZeroSector();
      var s := 0;
      while s < g.spc
        invariant 0 <= s <= g.spc && |disk| == |old(disk)| && writeBuffer == ZeroSector()
        invariant Wiped(disk, lba + s, g.spc - s) == Wiped(old(disk), lba, g.spc)
      {
        disk := disk[lba + s := writeBuffer];
        s := s + 1;
      }
    }

    /**
     * Makes an empty file. It succeeds exactly when the name is a short name no file has, and there is a free slot
     * and a free cluster. The volume is then well formed exactly when the name does not begin with the deleted mark.
     */
    method Create(name: seq<byte>) returns (r: Option<File>, ghost n: nat)
      requires Valid()
      modifies this
      ensures r.Some? <==> && ShortName(name).Some? && NoFile(old(RootDir(g, disk, chains)), ShortName(name).value)
                           && FindFreeSlot(old(RootDir(g, disk, chains)), 0).Some? && FindFree(FatView(old(disk), g), 2).Some?
      ensures r.None? ==> disk == old(disk) && chains == old(chains)
      ensures r.Some? && ShortName(name).value[0] != 0xe5 ==>
                && Valid() && HandleOk(g, disk, chains, r.value, n)
                && Slot(n) !in old(chains) && OthersSame(g, old(disk), old(chains), disk, chains, n)
                && FileAt(g, disk, chains, n) == FileView(ShortName(name).value, [])
                && Entitled(old(RootDir(g, disk, chains)), RootDir(g, disk, chains), n, ShortName(name).value, 0x20)
                && IsFree(old(RootDir(g, disk, chains))[n])
                && IsData(g, r.value.first) && chains[Slot(n)] == [r.value.first]
                && forall l :: ClusterLba(g, r.value.first) <= l < ClusterLba(g, r.value.first) + g.spc && l < |disk| ==>
                     disk[l] == ZeroSector()
      ensures r.Some? && ShortName(name).value[0] == 0xe5 ==> IllFormed(g, disk, others)
    {
      hide VolumeOk, HandleOk, ShortName, NoFile, FindFreeSlot, FindFree, FatView, OthersSame, FileAt, Dir, Lbas, TableChange,
           WriteDirEntry, ClusterLba, IllFormed, Name;
      n := 0;
      var short := MakeShortName(name);
      if short.None? {
        return None, n;
      }
      var existing;
      existing, n := OpenRoot(name);
      if existing.Some? {
        Taken(g, disk, others, chains, existing.value, n, short.value);
        return None, n;
      }
      var at;
      at, n := FindFreeDirEntry();
      if at.None? {
        return None, n;
      }
      VolumeDisk(g, disk, others, chains);
      RootInRange(g, disk, others, chains);
      ghost var disk0 := disk;
      var c := AllocateCluster(0);
      AllocateFresh(FatView(disk0, g));
      if c.None? {
        return None, n;
      }
      ghost var disk1 := disk;
      NameFirst(name);
      if short.value[0] != 0xe5 {
        CreateGood(g, disk0, disk1, others, chains, n, at.value.0, short.value, c.value);
      } else {
        CreateLeaks(g, disk0, disk1, others, chains, n, at.value.0, short.value, c.value);
      }
      ReadSector(at.value.0);
      sector := WriteDirEntry(sector, at.value.1, short.value, 0x20, c.value, 0);
      disk := disk[at.value.0 := sector];
      ClearCluster(c.value);
      chains := chains[Slot(n) := [c.value]];
      return Some(File(c.value, at.value.0, at.value.1, ClusterBytes(g), 0)), n;
    }

    /** Removes the file of that name and frees its clusters; fails, changing nothing, only when there is no such file. */
    method Delete(name: seq<byte>) returns (ok: bool, ghost n: nat)
      requires Valid()
      modifies this
      ensures Valid()
      ensures ok <==> ShortName(name).Some? && !NoFile(old(RootDir(g, disk, chains)), ShortName(name).value)
      ensures !ok ==> disk == old(disk) && chains == old(chains)
      ensures ok ==> && Slot(n) in old(chains) && old(FileAt(g, disk, chains, n)).name == ShortName(name).value
                     && chains == old(chains) - {Slot(n)} && OthersSame(g, old(disk), old(chains), disk, chains, n)
                     && Struck(old(RootDir(g, disk, chains)), RootDir(g, disk, chains), n)
    {
      hide VolumeOk, HandleOk, ShortName, NoFile, FatView, OthersSame, FileAt, RootDir, Lbas, TableChange, FreeChain, ChainsOk, Struck;
      var short := MakeShortName(name);
      if short.None? {
        return false, 0;
      }
      var file;
      file, n := OpenRoot(name);
      if file.None? {
        return false, n;
      }
      var f := file.value;
      Taken(g, disk, others, chains, f, n, short.value);
      FileIs(g, disk, chains, f, n);
      HandleSize(g, disk, others, chains, f, n);
      VolumeDisk(g, disk, others, chains);
      VolumeFree(g, disk, others, chains, f, n);
      ghost var disk0, fat := disk, FatView(disk, g);
      TableChangeNone(g, disk);
      if f.first >= 2 {
        var freed := FreeClusterChain(f.first);
        assert freed;
        fat := FreeChain(fat, f.first).1;
      }
      DeleteStep(g, disk0, disk, others, chains, f, n, fat);
      ReadSector(f.lba);
      sector := MarkDeleted(sector, f.offset);
      disk := disk[f.lba := sector];
      chains := chains - {Slot(n)};
      return true, n;
    }

    /**
     * Gives a file another name. It succeeds exactly when the new name is a short name, there is a file of the old name
     * and none of the new one. A new name that begins with the deleted mark loses the file, and leaks its clusters if it has any.
     */
    method Rename(oldName: seq<byte>, newName: seq<byte>) returns (ok: bool, ghost n: nat)
      requires Valid()
      modifies this
      ensures ok <==> && ShortName(newName).Some? && NoFile(old(RootDir(g, disk, chains)), ShortName(newName).value)
                      && ShortName(oldName).Some? && !NoFile(old(RootDir(g, disk, chains)), ShortName(oldName).value)
      ensures !ok ==> disk == old(disk) && chains == old(chains)
      ensures ok ==> Slot(n) in old(chains) && old(FileAt(g, disk, chains, n)).name == ShortName(oldName).value
      ensures ok && ShortName(newName).value[0] != 0xe5 ==>
                && Valid() && chains == old(chains) && OthersSame(g, old(disk), old(chains), disk, chains, n)
                && FileAt(g, disk, chains, n) == FileView(ShortName(newName).value, old(FileAt(g, disk, chains, n)).content)
                && n < |old(RootDir(g, disk, chains))|
                && Entitled(old(RootDir(g, disk, chains)), RootDir(g, disk, chains), n, ShortName(newName).value,
                            old(RootDir(g, disk, chains))[n][11])
      ensures ok && ShortName(newName).value[0] == 0xe5 ==>
                if |old(chains)[Slot(n)]| == 0
                then && Valid() && chains == old(chains) - {Slot(n)} && OthersSame(g, old(disk), old(chains), disk, chains, n)
                     && Struck(old(RootDir(g, disk, chains)), RootDir(g, disk, chains), n)
                else IllFormed(g, disk, others)
    {
      hide VolumeOk, HandleOk, ShortName, NoFile, OthersSame, FileAt, RootDir, Lbas, PutName, IllFormed, Struck, Entitled;
      var short := MakeShortName(newName);
      if short.None? {
        return false, 0;
      }
      var file;
      file, n := OpenRoot(oldName);
      if file.None? {
        return false, n;
      }
      var f := file.value;
      Taken(g, disk, others, chains, f, n, ShortName(oldName).value);
      FileIs(g, disk, chains, f, n);
      HandleSize(g, disk, others, chains, f, n);
      var existing, m := OpenRoot(newName);
      if existing.Some? {
        Taken(g, disk, others, chains, existing.value, m, short.value);
        return false, n;
      }
      NameFirst(newName);
      if short.value[0] != 0xe5 {
        NameStep(g, disk, others, chains, f, n, short.value);
      } else {
        VolumeHead(g, disk, others, chains, f, n);
        RenameMarked(g, disk, others, chains, f, n, short.value);
      }
      ReadSector(f.lba);
      sector := PutName(sector, f.offset, short.value);
      disk := disk[f.lba := sector];
      if short.value[0] == 0xe5 {
        chains := chains - {Slot(n)};
      }
      return true, n;
    }
  }

  lemma TitleSelf(g: Geometry, disk: Disk, chains: Chains, f: File, n: nat)
    requires HandleOk(g, disk, chains, f, n)
    ensures Retitled(g, disk, chains, disk, chains, n)
  {
  }

  lemma TitleTrans(g: Geometry, d0: Disk, c0: Chains, d1: Disk, c1: Chains, d2: Disk, c2: Chains, n: nat)
    requires Retitled(g, d0, c0, d1, c1, n) && Retitled(g, d1, c1, d2, c2, n)
    ensures Retitled(g, d0, c0, d2, c2, n)
  {
    hide RootDir;
    OneSlotTrans(RootDir(g, d0, c0), RootDir(g, d1, c1), RootDir(g, d2, c2), n);
  }

  /** Writing data leaves the directory alone. */
  lemma UnderwayTitle(g: Geometry, others: map<nat, seq<nat>>, disk0: Disk, chains0: Chains, disk: Disk, chains: Chains, n: nat,
                      offset: nat, buf: seq<byte>, k: nat, f: File)
    requires Underway(g, others, disk0, chains0, disk, chains, n, offset, buf, k) && HandleOk(g, disk0, chains0, f, n)
    ensures Retitled(g, disk0, chains0, disk, chains, n)
  {
    hide VolumeOk, OthersSame, Written, Lbas, Dir;
  }

  /** Where the entry of a cluster lies, as the code computes it. */
  lemma EntryPlace(g: Geometry, copy: nat, c: nat)
    ensures g.reserved + copy * g.spf + 4 * c / 512 == FatLba(g, copy, c) && 4 * c % 512 == FatOffset(c)
    ensures copy == 0 ==> g.reserved + 4 * c / 512 == FatLba(g, copy, c)
  {
    var q, r := c / 128, c % 128;
    assert c == 128 * q + r && 4 * c == 512 * q + 4 * r;
    assert 4 * c / 512 == q && 4 * c % 512 == 4 * r;
  }

  lemma EntryValue(disk: Disk, g: Geometry, c: nat)
    requires DiskOk(g, disk) && IsData(g, c) && FatLba(g, 0, c) < |disk| && FatOffset(c) + 4 <= 512
    ensures FatView(disk, g)[c] == Le32(disk[FatLba(g, 0, c)], FatOffset(c)) % 0x1000_0000
  {
    hide Le32, FatLba, FatOffset;
  }

  lemma KeepsOk(g: Geometry, disk: Disk, disk': Disk, fat: Fat)
    requires TableChange(g, disk, disk', fat)
    ensures DiskOk(g, disk') && fat == FatView(disk', g)
  {
  }

  lemma SlotHere(disk: Disk, lbas: seq<nat>, j: nat, t: nat)
    requires j < |lbas| && lbas[j] < |disk| && t < 16
    ensures 16 * j + t < |Dir(disk, lbas)|
    ensures Dir(disk, lbas)[16 * j + t] == disk[lbas[j]][32 * t..32 * t + 32]
  {
    var n := 16 * j + t;
    assert n / 16 == j && n % 16 == t;
  }

  /** The chain of the root directory, as the scan meets it. */
  lemma RootChain(g: Geometry, disk: Disk, others: map<nat, seq<nat>>, chains: Chains)
    requires TableOk(g, disk, others, chains)
    ensures DiskOk(g, disk) && SmallFat(FatView(disk, g))
    ensures Root in chains && IsPath(FatView(disk, g), chains[Root]) && chains[Root][0] == g.root
    ensures AllData(g, chains[Root]) && |chains[Root]| <= g.clusters
  {
    SmallTable(g, disk);
    assert ChainOk(FatView(disk, g), Root, chains[Root]);
    PathBound(FatView(disk, g), chains[Root]);
    ChainData(g, disk, others, chains, Root);
  }

  lemma NotEnd(g: Geometry, c: nat)
    requires GeometryOk(g) && IsData(g, c)
    ensures c < EOC
  {
  }

  lemma {:induction false} FindSlotBound(dir: seq<Slot32>, name: seq<byte>, k: nat)
    requires FindSlot(dir, name, k).Some?
    ensures FindSlot(dir, name, k).value < |dir|
    decreases |dir| - k
  {
    if !(IsFile(dir[k]) && Name(dir[k]) == name) {
      FindSlotBound(dir, name, k + 1);
    }
  }

  lemma RootEnd(g: Geometry, disk: Disk, others: map<nat, seq<nat>>, chains: Chains, wanted: seq<byte>, i: nat, k: nat)
    requires TableOk(g, disk, others, chains) && i >= |ChainOf(chains, Root)| && k == 16 * (i * g.spc)
    ensures FindSlot(RootDir(g, disk, chains), wanted, k) == None
  {
    ChainData(g, disk, others, chains, Root);
    LbasLength(g, chains[Root]);
    MulLe(|chains[Root]|, i, g.spc);
  }

  lemma VolumeDisk(g: Geometry, disk: Disk, others: map<nat, seq<nat>>, chains: Chains)
    requires VolumeOk(g, disk, others, chains)
    ensures DiskOk(g, disk) && g.total == |disk|
  {
  }

  lemma ChainRange(g: Geometry, disk: Disk, ch: seq<nat>)
    requires DiskOk(g, disk) && AllData(g, ch)
    ensures forall j :: 0 <= j < |Lbas(g, ch)| ==> g.dataStart <= Lbas(g, ch)[j] < |disk|
    ensures forall i :: 0 <= i < |ch| ==> ch[i] >= 2
  {
    LbasInRange(g, ch);
  }

  /** A position inside the file that is past cluster `i` has a cluster after `i` to lie in. */
  lemma NextCluster(g: Geometry, fat: Fat, ch: seq<nat>, i: nat, p: nat)
    requires SmallFat(fat) && IsPath(fat, ch) && i < |ch|
    requires p < |ch| * ClusterBytes(g) && (i + 1) * ClusterBytes(g) <= p
    ensures i + 1 < |ch| && ReadEntry(fat, ch[i], true) == Some(ch[i + 1])
  {
    if i + 1 == |ch| {
      assert false;
    }
    WalkStep(fat, ch, i);
  }

  /** The capacity of a chain reaches past its `i`-th cluster, and to its end if that is the last. */
  lemma CapacityFrom(g: Geometry, ch: seq<nat>, i: nat)
    requires i < |ch|
    ensures i * ClusterBytes(g) + ClusterBytes(g) <= Capacity(g, ch) == |ch| * ClusterBytes(g)
    ensures i + 1 == |ch| ==> i * ClusterBytes(g) + ClusterBytes(g) == Capacity(g, ch)
  {
    ClusterStart(g, i);
    InChain(g, i, |ch|);
  }

  lemma InChain(g: Geometry, i: nat, n: nat)
    requires i < n
    ensures i * ClusterBytes(g) + ClusterBytes(g) <= n * ClusterBytes(g)
  {
    MulLe(i + 1, n, ClusterBytes(g));
  }

  lemma SameSelf(g: Geometry, disk: Disk, chains: Chains, n: nat)
    ensures OthersSame(g, disk, chains, disk, chains, n)
  {
  }

  lemma FileLength(g: Geometry, disk: Disk, chains: Chains, f: File, n: nat)
    requires HandleOk(g, disk, chains, f, n)
    ensures Slot(n) in chains && |FileAt(g, disk, chains, n).content| == f.size
  {
    FileIs(g, disk, chains, f, n);
  }

  /** Writing nothing at `offset` just cuts the file there. */
  lemma EmptyWrite(g: Geometry, disk: Disk, chains: Chains, f: File, n: nat, offset: nat)
    requires HandleOk(g, disk, chains, f, n) && offset <= f.size
    ensures Slot(n) in chains && offset <= |FileAt(g, disk, chains, n).content|
    ensures Content(disk, Lbas(g, chains[Slot(n)]), offset) == FileAt(g, disk, chains, n).content[..offset] + []
  {
    FileIs(g, disk, chains, f, n);
    hide Lbas, FileAt, HandleOk;
  }

  lemma RootFull(g: Geometry, disk: Disk, others: map<nat, seq<nat>>, chains: Chains, i: nat, k: nat)
    requires TableOk(g, disk, others, chains) && i >= |ChainOf(chains, Root)| && k == 16 * (i * g.spc)
    ensures FindFreeSlot(RootDir(g, disk, chains), k) == None
  {
    ChainData(g, disk, others, chains, Root);
    LbasLength(g, chains[Root]);
    MulLe(|chains[Root]|, i, g.spc);
  }

  lemma RootInRange(g: Geometry, disk: Disk, others: map<nat, seq<nat>>, chains: Chains)
    requires VolumeOk(g, disk, others, chains)
    ensures forall j :: 0 <= j < |RootLbas(g, chains)| ==> g.dataStart <= RootLbas(g, chains)[j] < |disk|
  {
    hide TableOk, DirOk;
    RootRange(g, disk, others, chains);
  }

  /** The name of an open file is taken. */
  lemma Taken(g: Geometry, disk: Disk, others: map<nat, seq<nat>>, chains: Chains, f: File, n: nat, name: seq<byte>)
    requires VolumeOk(g, disk, others, chains) && HandleOk(g, disk, chains, f, n) && Name(RootDir(g, disk, chains)[n]) == name
    ensures !NoFile(RootDir(g, disk, chains), name)
  {
    HandleSize(g, disk, others, chains, f, n);
    hide VolumeOk, HandleOk, Dir, Name, IsFile;
  }

  lemma AllocateFresh(fat: Fat)
    ensures Allocate(fat, 0).0 == FindFree(fat, 2)
  {
  }

  lemma NameFirst(name: seq<byte>)
    requires ShortName(name).Some?
    ensures |ShortName(name).value| == 11 && ShortName(name).value[0] != 0
  {
    ShortNameFirst(name);
  }

  lemma VolumeHead(g: Geometry, disk: Disk, others: map<nat, seq<nat>>, chains: Chains, f: File, n: nat)
    requires VolumeOk(g, disk, others, chains) && HandleOk(g, disk, chains, f, n)
    ensures f.first < 2 <==> |chains[Slot(n)]| == 0
    ensures f.first >= 2 ==> f.first == chains[Slot(n)][0]
  {
    hide TableOk, DirOk;
    HandleSize(g, disk, others, chains, f, n);
    HandleChain(g, disk, others, chains, n);
  }

  lemma VolumeFree(g: Geometry, disk: Disk, others: map<nat, seq<nat>>, chains: Chains, f: File, n: nat)
    requires VolumeOk(g, disk, others, chains) && HandleOk(g, disk, chains, f, n)
    ensures f.first >= 2 ==> FreeChain(FatView(disk, g), f.first).0 && ChainsOk(FreeChain(FatView(disk, g), f.first).1, chains - {Slot(n)})
    ensures f.first < 2 ==> ChainsOk(FatView(disk, g), chains - {Slot(n)})
  {
    hide TableOk, DirOk, FreeChain, ChainsOk, FatView;
    VolumeHead(g, disk, others, chains, f, n);
    TableFree(g, disk, others, chains, n);
  }

  lemma SlotPlace(j: nat, t: nat, n: nat)
    requires n == 16 * j + t && t < 16
    ensures n / 16 == j && n % 16 == t && SlotStart(n) == 32 * t
  {
  }
}
