/** Directory listings as text, and reading them window by window. */
module DirListing {
  import opened Basics
  import opened Fat32Layout
  import opened FatChains
  import opened Fat32Disk
  import opened Fat32Volume
  import opened Fat32Steps
  import opened Fat32Search
  import opened Fat32Driver

  const BLANK: byte := 0x20
  const CHUNK: nat := 256

  // ----- The one full listing

  /** The length of the first `n` bytes without trailing spaces. */
  function Trimmed(s: seq<byte>, n: nat): (m: nat)
    requires n <= |s|
    ensures m <= n
  {
    if n > 0 && s[n - 1] == BLANK then Trimmed(s, n - 1) else n
  }

  function Line(e: Slot32): seq<byte> {
    var b, x := Trimmed(e[..8], 8), Trimmed(e[8..11], 3);
    e[..b] + (if x > 0 then [0x2e] + e[8..8 + x] else []) + (if e[11] as int / 16 % 2 == 1 then [0x2f] else []) + [0x0a]
  }

  predicate IsDot(e: Slot32) {
    e[0] == 0x2e && (e[1] == BLANK || (e[1] == 0x2e && e[2] == BLANK))
  }

  /** Listed: not deleted, not part of a long name, not the volume label, not `.` or `..`. */
  predicate Listed(e: Slot32) {
    e[0] != 0xe5 && e[11] != 0x0f && e[11] as int / 8 % 2 == 0 && !IsDot(e)
  }

  /** The lines of the directory from slot `k` on, up to the end mark. */
  function Text(dir: seq<Slot32>, k: nat): seq<byte>
    decreases |dir| - k
  {
    if k >= |dir| || dir[k][0] == 0 then []
    else (if Listed(dir[k]) then Line(dir[k]) else []) + Text(dir, k + 1)
  }

  /** Up to `capacity` bytes of a text from `offset` on. */
  function Window(text: seq<byte>, offset: nat, capacity: nat): (w: seq<byte>)
    ensures |w| == (if offset >= |text| then 0 else if offset + capacity <= |text| then capacity else |text| - offset)
    ensures forall i :: 0 <= i < |w| ==> w[i] == text[offset + i]
  {
    if offset >= |text| then [] else text[offset..Min(offset + capacity, |text|)]
  }

  // ----- The output cursor

  /** `dir_list_output_t`: what has been written of the window `[offset, offset + capacity)`. */
  class Output {
    const offset: nat
    const capacity: nat
    var position: nat
    var buffer: seq<byte>
    /** The text appended so far. */
    ghost var text: seq<byte>

    ghost predicate Valid()
      reads this
    {
      position == |text| && buffer == Window(text, offset, capacity) && |text| <= offset + capacity
    }

    /** The window is full: nothing that follows can change it. */
    ghost predicate Full()
      reads this
    {
      |text| == offset + capacity
    }

    constructor (from: nat, room: nat)
      ensures Valid() && text == [] && offset == from && capacity == room
    {
      offset, capacity, position, buffer := from, room, 0, [];
      text := [];
    }

    /** `dir_append_byte`. */
    method AppendByte(value: byte) returns (ok: bool)
      requires Valid()
      modifies this
      ensures Valid() && ok == !old(Full())
      ensures text == if ok then old(text) + [value] else old(text)
    {
      if position >= offset {
        if |buffer| >= capacity {
          return false;
        }
        buffer := buffer + [value];
      }
      position := position + 1;
      text := text + [value];
      return true;
    }

    /** Appends `s` as far as the window reaches. */
    method AppendAll(s: seq<byte>) returns (ok: bool)
      requires Valid()
      modifies this
      ensures Valid() && text <= old(text) + s && (ok ==> text == old(text) + s) && (!ok ==> Full())
    {
      for i := 0 to |s|
        invariant Valid() && text == old(text) + s[..i]
      {
        var more := AppendByte(s[i]);
        if !more {
          return false;
        }
        assert s[..i + 1] == s[..i] + [s[i]];
      }
      return true;
    }

    /** `dir_append_name`. */
    method AppendName(e: Slot32) returns (ok: bool)
      requires Valid()
      modifies this
      ensures Valid() && text <= old(text) + Line(e) && (ok ==> text == old(text) + Line(e)) && (!ok ==> Full())
    {
      var b := TrimEnd(e[..8], 8);
      var x := TrimEnd(e[8..11], 3);
      ghost var t0 := text;
      ghost var p1, p2 := e[..b], if x > 0 then [0x2e] + e[8..8 + x] else [];
      ghost var p3: seq<byte> := if e[11] as int / 16 % 2 == 1 then [0x2f] else [];
      LineIs(e);
      ok := AppendAll(e[..b]);
      if !ok {
        Prefix(t0, p1, p2 + p3 + [0x0a], text, Line(e));
        return;
      }
      if x > 0 {
        ok := AppendAll([0x2e] + e[8..8 + x]);
        if !ok {
          Prefix(t0 + p1, p2, p3 + [0x0a], text, p2 + p3 + [0x0a]);
          Rest(t0, p1, p2 + p3 + [0x0a], Line(e));
          return;
        }
      }
      assert text == t0 + p1 + p2;
      if e[11] as int / 16 % 2 == 1 {
        ok := AppendByte(0x2f);
        if !ok {
          Whole(t0, p1, p2, p3, Line(e));
          return;
        }
      }
      Whole(t0, p1, p2, p3, Line(e));
      ok := AppendByte(0x0a);
    }
  }

  method TrimEnd(s: seq<byte>, n: nat) returns (m: nat)
    requires n <= |s|
    ensures m == Trimmed(s, n)
  {
    m := n;
    while m > 0 && s[m - 1] == BLANK
      invariant m <= n && Trimmed(s, m) == Trimmed(s, n)
    {
      m := m - 1;
    }
  }

  lemma LineIs(e: Slot32)
    ensures var b, x := Trimmed(e[..8], 8), Trimmed(e[8..11], 3);
            var p2 := if x > 0 then [0x2e] + e[8..8 + x] else [];
            var p3: seq<byte> := if e[11] as int / 16 % 2 == 1 then [0x2f] else [];
            Line(e) == e[..b] + (p2 + p3 + [0x0a])
  {
  }

  lemma Prefix(t: seq<byte>, a: seq<byte>, b: seq<byte>, text: seq<byte>, line: seq<byte>)
    requires text <= t + a && line == a + b
    ensures text <= t + line
  {
    assert t + line == t + a + b;
  }

  lemma Rest(t: seq<byte>, a: seq<byte>, b: seq<byte>, line: seq<byte>)
    requires line == a + b
    ensures t + a + b == t + line
  {
  }

  lemma Whole(t: seq<byte>, a: seq<byte>, b: seq<byte>, c: seq<byte>, line: seq<byte>)
    requires line == a + (b + c + [0x0a])
    ensures t + a + b <= t + line && t + a + b + c <= t + line && t + a + b + c + [0x0a] == t + line
  {
    assert t + line == t + a + b + (c + [0x0a]);
    assert t + line == t + a + b + c + [0x0a];
  }

  /** A full window is the window of every text that goes on from here. */
  lemma FullWindow(done: seq<byte>, all: seq<byte>, offset: nat, capacity: nat)
    requires done <= all && |done| == offset + capacity
    ensures Window(done, offset, capacity) == Window(all, offset, capacity)
  {
  }

  // ----- Listing a directory

  /** The output holds the window of `all`, or has everything before slot `k` and the rest is still to come. */
  ghost predicate Reached(text: seq<byte>, dir: seq<Slot32>, k: nat, all: seq<byte>) {
    text + Text(dir, k) == all
  }

  lemma ReachedNext(text: seq<byte>, dir: seq<Slot32>, k: nat, all: seq<byte>)
    requires Reached(text, dir, k, all)
    ensures k >= |dir| || dir[k][0] == 0 ==> text == all
    ensures k < |dir| && dir[k][0] != 0 && !Listed(dir[k]) ==> Reached(text, dir, k + 1, all)
    ensures k < |dir| && dir[k][0] != 0 && Listed(dir[k]) ==> Reached(text + Line(dir[k]), dir, k + 1, all) && text + Line(dir[k]) <= all
  {
    hide Line;
    if k >= |dir| || dir[k][0] == 0 {
      assert text + [] == text;
    } else if Listed(dir[k]) {
      assert text + (Line(dir[k]) + Text(dir, k + 1)) == text + Line(dir[k]) + Text(dir, k + 1);
    } else {
      assert [] + Text(dir, k + 1) == Text(dir, k + 1);
    }
  }

  /** The entries of one directory sector, the `j`-th. Stops at the end mark or when the window is full. */
  method ListSector(fs: Fat32, out: Output, lba: nat, ghost lbas: seq<nat>, ghost j: nat, ghost all: seq<byte>) returns (stop: bool)
    requires j < |lbas| && lba == lbas[j] < |fs.disk| && out.Valid() && Reached(out.text, Dir(fs.disk, lbas), 16 * j, all)
    modifies fs`sector, out
    ensures out.Valid()
    ensures stop ==> out.buffer == Window(all, out.offset, out.capacity)
    ensures !stop ==> Reached(out.text, Dir(fs.disk, lbas), 16 * j + 16, all)
  {
    hide Reached, Dir, Line, Text, Window;
    fs.ReadSector(lba);
    ghost var dir := Dir(fs.disk, lbas);
    var offset := 0;
    ghost var t := 0;
    while offset < 512
      invariant 0 <= t <= 16 && offset == 32 * t && fs.sector == fs.disk[lba] && out.Valid() && Reached(out.text, dir, 16 * j + t, all)
    {
      var e: Slot32 := fs.sector[offset..offset + 32];
      SlotHere(fs.disk, lbas, j, t);
      ReachedNext(out.text, dir, 16 * j + t, all);
      if e[0] == 0 {
        return true;
      }
      if Listed(e) {
        ghost var before := out.text;
        var ok := out.AppendName(e);
        if !ok {
          FullWindow(out.text, all, out.offset, out.capacity);
          return true;
        }
      }
      offset := offset + 32;
      t := t + 1;
      assert 16 * j + t == 16 * j + (t - 1) + 1;
    }
    return false;
  }

  /** The chain of any directory of the volume, as the scan meets it. */
  lemma DirChain(g: Geometry, disk: Disk, others: map<nat, seq<nat>>, chains: Chains, o: Owner)
    requires VolumeOk(g, disk, others, chains) && o in chains && |chains[o]| > 0
    ensures DiskOk(g, disk) && SmallFat(FatView(disk, g)) && IsPath(FatView(disk, g), chains[o])
    ensures AllData(g, chains[o]) && |chains[o]| <= g.clusters && |Lbas(g, chains[o])| == |chains[o]| * g.spc
    ensures forall j :: 0 <= j < |Lbas(g, chains[o])| ==> Lbas(g, chains[o])[j] < |disk|
  {
    hide DirOk;
    SmallTable(g, disk);
    assert ChainOk(FatView(disk, g), o, chains[o]);
    ChainData(g, disk, others, chains, o);
    PathBound(FatView(disk, g), chains[o]);
    hide ChainsOk;
    LbasLength(g, chains[o]);
    LbasInRange(g, chains[o]);
  }

  /** The whole listing of the directory whose chain `o` owns. */
  ghost function Listing(fs: Fat32, o: Owner): seq<byte>
    reads fs
  {
    if o in fs.chains then Text(Dir(fs.disk, Lbas(fs.g, fs.chains[o])), 0) else []
  }

  /** The chain from `first` is `o`'s on a well-formed volume. */
  ghost predicate IsDirectory(fs: Fat32, first: nat, o: Owner)
    reads fs
  {
    fs.Valid() && o in fs.chains && |fs.chains[o]| > 0 && first == fs.chains[o][0]
  }

  /** The sectors of one cluster of a directory, the `i`-th. */
  method ListCluster(fs: Fat32, out: Output, cluster: nat, ghost ch: seq<nat>, ghost i: nat, ghost at: nat, ghost all: seq<byte>) returns (stop: bool)
    requires AllData(fs.g, ch) && i < |ch| && cluster == ch[i] && at == i * fs.g.spc && out.Valid()
    requires forall j :: 0 <= j < |Lbas(fs.g, ch)| ==> Lbas(fs.g, ch)[j] < |fs.disk|
    requires Reached(out.text, Dir(fs.disk, Lbas(fs.g, ch)), 16 * at, all)
    modifies fs`sector, out
    ensures out.Valid()
    ensures stop ==> out.buffer == Window(all, out.offset, out.capacity)
    ensures !stop ==> Reached(out.text, Dir(fs.disk, Lbas(fs.g, ch)), 16 * (at + fs.g.spc), all)
  {
    hide Lbas, ClusterLba, Dir, Text, Reached, Window, AllData;
    ghost var lbas := Lbas(fs.g, ch);
    var s := 0;
    while s < fs.g.spc
      invariant 0 <= s <= fs.g.spc && out.Valid()
      invariant Reached(out.text, Dir(fs.disk, lbas), 16 * (at + s), all)
    {
      LbasAt(fs.g, ch, i, s);
      stop := ListSector(fs, out, ClusterLba(fs.g, cluster) + s, lbas, at + s, all);
      if stop {
        return;
      }
      s := s + 1;
    }
    return false;
  }

  /** `fat32_list_path_at` on the directory that starts at `first`: the window of the one full listing. */
  method ListPathAt(fs: Fat32, first: nat, offset: nat, capacity: nat, ghost o: Owner) returns (buffer: seq<byte>)
    requires IsDirectory(fs, first, o)
    modifies fs`sector
    ensures buffer == Window(Listing(fs, o), offset, capacity)
  {
    hide VolumeOk, Lbas, IsData, IsPath, FatView, GeometryOk, Dir, ReadEntry, Text, Reached, Window;
    ghost var g, ch := fs.g, fs.chains[o];
    ghost var fat, lbas, all := FatView(fs.disk, g), Lbas(g, ch), Listing(fs, o);
    DirChain(g, fs.disk, fs.others, fs.chains, o);
    var out := new Output(offset, capacity);
    ReachedStart(Dir(fs.disk, lbas), all);
    var cluster: nat, remaining: nat := first, fs.g.clusters;
    ghost var i, at := 0, 0;
    while IsData(fs.g, cluster) && remaining != 0
      invariant i <= |ch| && remaining == fs.g.clusters - i && at == i * fs.g.spc
      invariant if i < |ch| then cluster == ch[i] else cluster >= EOC
      invariant out.Valid() && out.offset == offset && out.capacity == capacity && fresh(out)
      invariant Reached(out.text, Dir(fs.disk, lbas), 16 * at, all)
      decreases remaining
    {
      NotEnd(fs.g, cluster);
      remaining := remaining - 1;
      var stop := ListCluster(fs, out, cluster, ch, i, at, all);
      if stop {
        return out.buffer;
      }
      WalkStep(fat, ch, i);
      var next := fs.ReadFatEntry(cluster, true);
      cluster := next.value;
      LbasStart(fs.g, i, i + 1);
      i, at := i + 1, at + fs.g.spc;
    }
    ListingEnd(out.text, Dir(fs.disk, lbas), fs.g, |ch|, i, 16 * at, all);
    return out.buffer;
  }

  lemma ReachedStart(dir: seq<Slot32>, all: seq<byte>)
    requires all == Text(dir, 0)
    ensures Reached([], dir, 0, all)
  {
    assert [] + all == all;
  }

  lemma ListingEnd(text: seq<byte>, dir: seq<Slot32>, g: Geometry, n: nat, i: nat, k: nat, all: seq<byte>)
    requires |dir| == 16 * (n * g.spc) && i >= n && k == 16 * (i * g.spc) && Reached(text, dir, k, all)
    ensures text == all
  {
    MulLe(n, i, g.spc);
    ReachedNext(text, dir, k, all);
  }

  // ----- Reading the listing chunk by chunk

  lemma WindowsJoin(text: seq<byte>, total: nat, n: nat)
    ensures Window(text, 0, total) + Window(text, total, n) == Window(text, 0, total + n) || |text| < total
    ensures |text| <= total ==> Window(text, total, n) == []
    ensures total <= |text| ==> |Window(text, 0, total)| == total && |Window(text, total, n)| == Min(n, |text| - total)
  {
  }

  /** The loop of `sys_readdir`: chunks of at most 256 bytes give what one unbounded call would. */
  method ReadDir(fs: Fat32, first: nat, len: nat, ghost o: Owner) returns (user: seq<byte>)
    requires IsDirectory(fs, first, o)
    modifies fs`sector
    ensures user == Window(Listing(fs, o), 0, len)
  {
    hide VolumeOk, Lbas, Dir, Text;
    ghost var all := Listing(fs, o);
    user := [];
    var total: nat := 0;
    assert Window(all, 0, 0) == [];
    while total < len
      invariant total <= len && total <= |all| && user == Window(all, 0, total)
      decreases len - total
    {
      var requested := Min(CHUNK, len - total);
      WindowsJoin(all, total, requested);
      WindowsJoin(all, total, len - total);
      var chunk := ListPathAt(fs, first, total, requested, o);
      if |chunk| == 0 {
        break;
      }
      user := user + chunk;
      total := total + |chunk|;
      if |chunk| < requested {
        break;
      }
    }
    if total < len {
      assert total == |all|;
    }
  }
}
