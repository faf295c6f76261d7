/** The on-disk format as a formatter lays it out, field after field, and what the driver makes of it. */
module Fat32Format {
  import opened Basics
  import opened Fat32Layout
  import opened FatChains
  import opened Fat32Disk
  import opened Fat32Volume
  import opened Fat32Search
  import opened Fat32Entries

  // ----- Fields

  /** A number in `n` bytes, the low byte first. */
  function LittleEndian(v: nat, n: nat): (s: seq<byte>)
    ensures |s| == n
  {
    if n == 0 then [] else [v % 256] + LittleEndian(v / 256, n - 1)
  }

  lemma Bytes2(v: nat)
    ensures LittleEndian(v, 2) == [v % 256, v / 256 % 256]
  {
    assert LittleEndian(v / 256, 1) == [v / 256 % 256] + LittleEndian(v / 256 / 256, 0);
  }

  lemma Bytes4(v: nat)
    ensures LittleEndian(v, 4) == [v % 256, v / 256 % 256, v / 65536 % 256, v / 16777216 % 256]
  {
    var w := v / 65536;
    assert v / 256 / 256 == w && w / 256 == v / 16777216;
    Bytes2(w);
    assert LittleEndian(v, 4) == [v % 256] + ([v / 256 % 256] + LittleEndian(w, 2));
  }

  lemma Reads16(s: seq<byte>, o: nat, v: nat)
    requires o + 2 <= |s| && s[o..o + 2] == LittleEndian(v, 2) && v < 65536
    ensures Le16(s, o) == v
  {
    Bytes2(v);
    assert s[o] == s[o..o + 2][0] && s[o + 1] == s[o..o + 2][1];
  }

  lemma Reads32(s: seq<byte>, o: nat, v: nat)
    requires o + 4 <= |s| && s[o..o + 4] == LittleEndian(v, 4) && v < U32_LIMIT
    ensures Le32(s, o) == v
  {
    Bytes4(v);
    Digits(v);
    var t := s[o..o + 4];
    assert s[o] == t[0] && s[o + 1] == t[1] && s[o + 2] == t[2] && s[o + 3] == t[3];
  }

  /** Fields one after another. */
  function Flat(fields: seq<seq<byte>>): seq<byte> {
    if fields == [] then [] else fields[0] + Flat(fields[1..])
  }

  /** Where field `i` starts. */
  function Start(fields: seq<seq<byte>>, i: nat): nat
    requires i <= |fields|
  {
    if i == 0 then 0 else |fields[0]| + Start(fields[1..], i - 1)
  }

  lemma {:induction false} StartStep(fields: seq<seq<byte>>, i: nat)
    requires i < |fields|
    ensures Start(fields, i + 1) == Start(fields, i) + |fields[i]|
    decreases i
  {
    if i > 0 {
      StartStep(fields[1..], i - 1);
    }
  }

  lemma {:induction false} FieldAt(fields: seq<seq<byte>>, i: nat)
    requires i < |fields|
    ensures Start(fields, i) + |fields[i]| <= |Flat(fields)|
    ensures Flat(fields)[Start(fields, i)..Start(fields, i) + |fields[i]|] == fields[i]
    decreases i
  {
    var all, rest, n := Flat(fields), Flat(fields[1..]), |fields[0]|;
    assert all == fields[0] + rest;
    if i > 0 {
      FieldAt(fields[1..], i - 1);
      var a, b := Start(fields[1..], i - 1), Start(fields[1..], i - 1) + |fields[i]|;
      assert Start(fields, i) == n + a;
      assert all[n + a..n + b] == rest[a..b];
    } else {
      assert all[0..n] == fields[0];
    }
  }

  lemma {:induction false} FlatLength(fields: seq<seq<byte>>)
    ensures |Flat(fields)| == Start(fields, |fields|)
  {
    if fields != [] {
      FlatLength(fields[1..]);
    }
  }

  // ----- The boot sector

  /** The fields of a FAT32 boot sector up to the root cluster, in their order; `tail` is what follows. */
  datatype Boot = Boot(jump: seq<byte>, oem: seq<byte>, bytesPerSector: nat, spc: byte, reserved: nat, fats: byte, rootEntries: nat,
                       total16: nat, media: byte, spf16: nat, spt: nat, heads: nat, hidden: nat, total32: nat, spf32: nat,
                       flags: nat, version: nat, root: nat, tail: seq<byte>)

  ghost predicate BootOk(b: Boot) {
    && |b.jump| == 3 && |b.oem| == 8 && |b.tail| == 464
    && b.bytesPerSector < 65536 && b.reserved < 65536 && b.rootEntries < 65536 && b.total16 < 65536
    && b.total32 < U32_LIMIT && b.spf32 < U32_LIMIT && b.root < U32_LIMIT
  }

  function BootFields(b: Boot): seq<seq<byte>> {
    [b.jump, b.oem, LittleEndian(b.bytesPerSector, 2), [b.spc], LittleEndian(b.reserved, 2), [b.fats], LittleEndian(b.rootEntries, 2),
     LittleEndian(b.total16, 2), [b.media], LittleEndian(b.spf16, 2), LittleEndian(b.spt, 2), LittleEndian(b.heads, 2),
     LittleEndian(b.hidden, 4), LittleEndian(b.total32, 4), LittleEndian(b.spf32, 4), LittleEndian(b.flags, 2),
     LittleEndian(b.version, 2), LittleEndian(b.root, 4), b.tail]
  }

  lemma BootStarts(b: Boot)
    requires BootOk(b)
    ensures var fs := BootFields(b);
            && Start(fs, 2) == 11 && Start(fs, 3) == 13 && Start(fs, 4) == 14 && Start(fs, 5) == 16 && Start(fs, 6) == 17
            && Start(fs, 7) == 19 && Start(fs, 13) == 32 && Start(fs, 14) == 36 && Start(fs, 17) == 44 && |Flat(fs)| == 512
  {
    hide Start, LittleEndian;
    LaterStarts(b);
    FlatLength(BootFields(b));
  }

  lemma EarlyStarts(b: Boot)
    requires BootOk(b)
    ensures var fs := BootFields(b);
            && Start(fs, 2) == 11 && Start(fs, 3) == 13 && Start(fs, 4) == 14 && Start(fs, 5) == 16 && Start(fs, 6) == 17
            && Start(fs, 7) == 19 && Start(fs, 8) == 21
  {
    var fs := BootFields(b);
    hide Start, LittleEndian;
    StartZero(fs);
    StartStep(fs, 0);
    StartStep(fs, 1);
    StartStep(fs, 2);
    StartStep(fs, 3);
    StartStep(fs, 4);
    StartStep(fs, 5);
    StartStep(fs, 6);
    StartStep(fs, 7);
  }

  lemma MiddleStarts(b: Boot)
    requires BootOk(b)
    ensures var fs := BootFields(b); Start(fs, 13) == 32 && Start(fs, 14) == 36
  {
    var fs := BootFields(b);
    hide Start, LittleEndian;
    EarlyStarts(b);
    StartStep(fs, 8);
    StartStep(fs, 9);
    StartStep(fs, 10);
    StartStep(fs, 11);
    StartStep(fs, 12);
    StartStep(fs, 13);
  }

  lemma LaterStarts(b: Boot)
    requires BootOk(b)
    ensures var fs := BootFields(b);
            && Start(fs, 2) == 11 && Start(fs, 3) == 13 && Start(fs, 4) == 14 && Start(fs, 5) == 16 && Start(fs, 6) == 17
            && Start(fs, 7) == 19 && Start(fs, 13) == 32 && Start(fs, 14) == 36 && Start(fs, 17) == 44 && Start(fs, 19) == 512
  {
    var fs := BootFields(b);
    hide Start, LittleEndian;
    EarlyStarts(b);
    MiddleStarts(b);
    StartStep(fs, 14);
    StartStep(fs, 15);
    StartStep(fs, 16);
    StartStep(fs, 17);
    StartStep(fs, 18);
  }

  lemma StartZero(fields: seq<seq<byte>>)
    ensures Start(fields, 0) == 0
  {
  }

  /** The driver reads from a boot sector exactly the fields that were written, and the long sector count when the short one is 0. */
  lemma BootRoundTrip(b: Boot)
    requires BootOk(b)
    ensures |Flat(BootFields(b))| == 512
    ensures ReadBpb(Flat(BootFields(b)))
         == Bpb(b.bytesPerSector, b.spc, b.reserved, b.fats, b.rootEntries, if b.total16 == 0 then b.total32 else b.total16, b.spf32, b.root)
  {
    var fs := BootFields(b);
    BootStarts(b);
    var s: Sector := Flat(fs);
    hide Flat, Start, LittleEndian, Le16, Le32;
    FieldAt(fs, 2);
    FieldAt(fs, 3);
    FieldAt(fs, 4);
    FieldAt(fs, 5);
    FieldAt(fs, 6);
    FieldAt(fs, 7);
    FieldAt(fs, 13);
    FieldAt(fs, 14);
    FieldAt(fs, 17);
    Reads16(s, 11, b.bytesPerSector);
    Reads16(s, 14, b.reserved);
    Reads16(s, 17, b.rootEntries);
    Reads16(s, 19, b.total16);
    Reads32(s, 32, b.total32);
    Reads32(s, 36, b.spf32);
    Reads32(s, 44, b.root);
    assert s[13] == s[13..14][0] && s[16] == s[16..17][0];
  }

  /** A boot sector written for a sound geometry mounts as that geometry; any other is refused. */
  lemma FormatThenMount(b: Boot, g: Geometry)
    requires BootOk(b) && b.bytesPerSector == 512 && b.rootEntries == 0
    requires b.spc == g.spc && b.reserved == g.reserved && b.fats == g.fats && b.spf32 == g.spf && b.root == g.root
    requires g.total == if b.total16 == 0 then b.total32 else b.total16
    ensures |Flat(BootFields(b))| == 512
    ensures GeometryOk(g) ==> Mount(Flat(BootFields(b))) == Some(g)
    ensures Mount(Flat(BootFields(b))).Some? ==>
              var h := Mount(Flat(BootFields(b))).value;
              GeometryOk(h) && h == g.(dataStart := h.dataStart, clusters := h.clusters)
  {
    hide Flat, BootFields, ReadBpb, Accept, GeometryOk;
    BootRoundTrip(b);
    MountOk(Flat(BootFields(b)));
  }

  // ----- Directory entries

  function EntryFields(name: seq<byte>, attr: byte, first: nat, size: nat): seq<seq<byte>> {
    [name, [attr], LittleEndian(0, 1), LittleEndian(0, 1), LittleEndian(0, 2), LittleEndian(0, 2), LittleEndian(0, 2),
     LittleEndian(first / 65536, 2), LittleEndian(0, 2), LittleEndian(0, 2), LittleEndian(first % 65536, 2), LittleEndian(size, 4)]
  }

  lemma EntryStarts(name: seq<byte>, attr: byte, first: nat, size: nat)
    requires |name| == 11
    ensures var fs := EntryFields(name, attr, first, size);
            && Start(fs, 0) == 0 && Start(fs, 1) == 11 && Start(fs, 2) == 12 && Start(fs, 3) == 13 && Start(fs, 4) == 14
            && Start(fs, 5) == 16 && Start(fs, 6) == 18 && Start(fs, 7) == 20 && Start(fs, 8) == 22 && Start(fs, 9) == 24
            && Start(fs, 10) == 26 && Start(fs, 11) == 28 && |Flat(fs)| == 32
  {
    var fs := EntryFields(name, attr, first, size);
    hide Start, LittleEndian;
    StartZero(fs);
    StartStep(fs, 0);
    StartStep(fs, 1);
    StartStep(fs, 2);
    StartStep(fs, 3);
    StartStep(fs, 4);
    StartStep(fs, 5);
    StartStep(fs, 6);
    StartStep(fs, 7);
    StartStep(fs, 8);
    StartStep(fs, 9);
    StartStep(fs, 10);
    StartStep(fs, 11);
    FlatLength(fs);
  }

  /** The driver reads from a directory entry exactly the fields that were written. */
  lemma EntryRoundTrip(name: seq<byte>, attr: byte, first: nat, size: nat)
    requires |name| == 11 && first < U32_LIMIT && size < U32_LIMIT
    ensures |Flat(EntryFields(name, attr, first, size))| == 32
    ensures var e: Slot32 := Flat(EntryFields(name, attr, first, size));
            Name(e) == name && e[11] == attr && First(e) == first && Size(e) == size
  {
    var fs := EntryFields(name, attr, first, size);
    EntryStarts(name, attr, first, size);
    var e: Slot32 := Flat(fs);
    hide Flat, Start, LittleEndian, Le16, Le32;
    FieldAt(fs, 0);
    FieldAt(fs, 1);
    FieldAt(fs, 7);
    FieldAt(fs, 10);
    FieldAt(fs, 11);
    Reads16(e, 20, first / 65536);
    Reads16(e, 26, first % 65536);
    Reads32(e, 28, size);
    assert e[11] == e[11..12][0] && e[0..11] == e[..11];
  }

  /** The attribute byte, bit by bit. */
  function Attributes(readOnly: bool, hidden: bool, system: bool, volume: bool, folder: bool, archive: bool): byte {
    (if readOnly then 0x01 else 0) + (if hidden then 0x02 else 0) + (if system then 0x04 else 0) + (if volume then 0x08 else 0)
    + (if folder then 0x10 else 0) + (if archive then 0x20 else 0)
  }

  /**
   * An entry is a file exactly when it is neither at the end nor deleted, is no directory, and does not carry the four low
   * bits alone, which mark a part of a long name.
   */
  lemma FileKinds(e: Slot32, readOnly: bool, hidden: bool, system: bool, volume: bool, folder: bool, archive: bool)
    requires e[11] == Attributes(readOnly, hidden, system, volume, folder, archive)
    ensures IsFile(e) <==>
              e[0] != 0x00 && e[0] != 0xe5 && !folder && !(readOnly && hidden && system && volume && !archive)
  {
  }

  /** A field of `s`. */
  ghost predicate FieldHolds(fields: seq<seq<byte>>, s: seq<byte>, i: nat) {
    && i < |fields| && Start(fields, i) + |fields[i]| <= |s|
    && s[Start(fields, i)..Start(fields, i) + |fields[i]|] == fields[i]
  }

  /** Bytes that hold every field are the fields one after another. */
  lemma {:induction false} FlatIs(fields: seq<seq<byte>>, s: seq<byte>)
    requires |s| == Start(fields, |fields|) && forall i: nat :: i < |fields| ==> FieldHolds(fields, s, i)
    ensures s == Flat(fields)
    decreases |fields|
  {
    if fields != [] {
      assert FieldHolds(fields, s, 0);
      var n, rest := |fields[0]|, fields[1..];
      forall i: nat | i < |rest|
        ensures FieldHolds(rest, s[n..], i)
      {
        assert FieldHolds(fields, s, i + 1);
        assert s[n..][Start(rest, i)..Start(rest, i) + |rest[i]|] == s[n + Start(rest, i)..n + Start(rest, i) + |rest[i]|];
      }
      FlatIs(rest, s[n..]);
      assert s == s[..n] + s[n..];
    } else {
      assert s == [];
    }
  }

  /** The entry of a new file is written in that format, with everything that is not given set to 0. */
  lemma WriteDirEntryFormat(s: Sector, n: nat, name: seq<byte>, attr: byte, first: nat, size: nat)
    requires |name| == 11 && first < U32_LIMIT && size < U32_LIMIT
    ensures SlotOf(WriteDirEntry(s, SlotStart(n), name, attr, first, size), n) == Flat(EntryFields(name, attr, first, size))
  {
    hide Flat, Start, LittleEndian, WriteDirEntry, SlotOf;
    var fs, e := EntryFields(name, attr, first, size), SlotOf(WriteDirEntry(s, SlotStart(n), name, attr, first, size), n);
    EntryStarts(name, attr, first, size);
    FlatLength(fs);
    EntryBytes(s, n, name, attr, first, size);
    Bytes2(first / 65536);
    Bytes2(first % 65536);
    Bytes4(size);
    ZeroFields();
    assert e[0..11] == name && e[11..12] == [attr] && e[12..13] == [0] && e[13..14] == [0];
    assert e[14..16] == [0, 0] && e[16..18] == [0, 0] && e[18..20] == [0, 0] && e[22..24] == [0, 0] && e[24..26] == [0, 0];
    assert e[20..22] == fs[7] && e[26..28] == fs[10] && e[28..32] == fs[11];
    forall i: nat | i < |fs|
      ensures FieldHolds(fs, e, i)
    {
    }
    FlatIs(fs, e);
  }

  lemma ZeroFields()
    ensures LittleEndian(0, 1) == [0] && LittleEndian(0, 2) == [0, 0]
  {
    Bytes2(0);
    assert LittleEndian(0, 1) == [0] + LittleEndian(0, 0);
  }

  /** The bytes of an entry just written. */
  lemma EntryBytes(s: Sector, n: nat, name: seq<byte>, attr: byte, first: nat, size: nat)
    requires |name| == 11 && first < U32_LIMIT
    ensures var e := SlotOf(WriteDirEntry(s, SlotStart(n), name, attr, first, size), n);
            && e[..11] == name && e[11] == attr
            && (forall i :: 12 <= i < 20 || 22 <= i < 26 ==> e[i] == 0)
            && e[20] == first / 65536 % 256 && e[21] == first / 65536 / 256 % 256
            && e[26] == first % 65536 % 256 && e[27] == first % 65536 / 256 % 256
            && e[28] == size % 256 && e[29] == size / 256 % 256 && e[30] == size / 65536 % 256 && e[31] == size / 16777216 % 256
  {
    hide PutFirst, PutLe32, SlotOf, Overlay, SlotStart, Zeros;
    var o := SlotStart(n);
    var s1 := Overlay(s, o, name + [attr] + Zeros(20));
    FreshBytes(s, n, name, attr);
    FirstBytes(s1, n, first);
    SizeBytes(PutFirst(s1, o, first), n, size);
    var e1 := SlotOf(s1, n);
    var e := SlotOf(PutLe32(PutFirst(s1, o, first), o + 28, size), n);
    assert e[..11] == e1[..11];
  }

  lemma FreshBytes(s: Sector, n: nat, name: seq<byte>, attr: byte)
    requires |name| == 11
    ensures var e := SlotOf(Overlay(s, SlotStart(n), name + [attr] + Zeros(20)), n);
            e[..11] == name && e[11] == attr && forall i :: 12 <= i < 32 ==> e[i] == 0
  {
    assert SlotOf(Overlay(s, SlotStart(n), name + [attr] + Zeros(20)), n) == name + [attr] + Zeros(20);
  }

  lemma FirstBytes(s: Sector, n: nat, c: nat)
    ensures var e, e' := SlotOf(s, n), SlotOf(PutFirst(s, SlotStart(n), c), n);
            && e'[20] == c / 65536 % 256 && e'[21] == c / 65536 / 256 % 256 && e'[26] == c % 65536 % 256 && e'[27] == c % 65536 / 256 % 256
            && forall i :: 0 <= i < 32 && i != 20 && i != 21 && i != 26 && i != 27 ==> e'[i] == e[i]
  {
  }

  lemma SizeBytes(s: Sector, n: nat, v: nat)
    ensures var e, e' := SlotOf(s, n), SlotOf(PutLe32(s, SlotStart(n) + 28, v), n);
            && e'[28] == v % 256 && e'[29] == v / 256 % 256 && e'[30] == v / 65536 % 256 && e'[31] == v / 16777216 % 256
            && forall i :: 0 <= i < 28 ==> e'[i] == e[i]
  {
  }

  // ----- The table and the data area

  /** Byte `p` of the volume. */
  function VolumeByte(disk: Disk, p: nat): byte {
    if p / 512 < |disk| then disk[p / 512][p % 512] else 0
  }

  /** The table starts after the reserved sectors and gives each cluster four bytes, of which the top four bits do not count. */
  lemma TableFormat(g: Geometry, disk: Disk, c: nat, v: nat)
    requires DiskOk(g, disk) && IsData(g, c) && v < U32_LIMIT
    requires forall i: nat :: i < 4 ==> VolumeByte(disk, 512 * g.reserved + 4 * c + i) == LittleEndian(v, 4)[i]
    ensures FatView(disk, g)[c] == v % 0x1000_0000
  {
    FatSectorInRange(g, 0, c);
    var l, o := FatLba(g, 0, c), FatOffset(c);
    assert l < |disk| && o + 4 <= 512;
    forall i: nat | i < 4
      ensures disk[l][o + i] == LittleEndian(v, 4)[i]
    {
      BytePlace(g.reserved, c, i);
      assert VolumeByte(disk, 512 * g.reserved + 4 * c + i) == disk[l][o + i];
    }
    hide LittleEndian, Le32, VolumeByte;
    assert disk[l][o..o + 4] == LittleEndian(v, 4);
    Reads32(disk[l], o, v);
  }

  lemma BytePlace(reserved: nat, c: nat, i: nat)
    requires i < 4
    ensures (512 * reserved + 4 * c + i) / 512 == reserved + c / 128 && (512 * reserved + 4 * c + i) % 512 == 4 * (c % 128) + i
  {
    assert 512 * reserved + 4 * c + i == 512 * (reserved + c / 128) + (4 * (c % 128) + i);
  }

  /** Clusters follow one another from the start of the data area, number 2 first. */
  lemma ClusterOrder(g: Geometry, c: nat)
    requires c >= 2
    ensures ClusterLba(g, 2) == g.dataStart && ClusterLba(g, c + 1) == ClusterLba(g, c) + g.spc
  {
    assert (c - 1) * g.spc == (c - 2) * g.spc + g.spc;
  }

  /** Byte `p` of a chain stands in its `p / (512 * spc)`-th cluster, at the same distance from the start of it. */
  lemma ContentFormat(g: Geometry, disk: Disk, ch: seq<nat>, size: nat, i: nat, o: nat)
    requires DiskOk(g, disk) && AllData(g, ch) && i < |ch| && o < 512 * g.spc && 512 * (i * g.spc) + o < size
    ensures Content(disk, Lbas(g, ch), size)[512 * (i * g.spc) + o] == VolumeByte(disk, 512 * ClusterLba(g, ch[i]) + o)
  {
    hide Lbas, ClusterLba, GeometryOk, AllData;
    var s := o / 512;
    LbasAt(g, ch, i, s);
    var p := 512 * (i * g.spc) + o;
    Places(i * g.spc, o);
    Places(ClusterLba(g, ch[i]), o);
  }

  lemma Places(a: nat, o: nat)
    ensures (512 * a + o) / 512 == a + o / 512 && (512 * a + o) % 512 == o % 512
  {
    assert 512 * a + o == 512 * (a + o / 512) + o % 512;
  }

  /** A chain holds 512 bytes in each sector of its clusters. */
  lemma ChainBytes(g: Geometry, ch: seq<nat>)
    requires AllData(g, ch)
    ensures |ch| * ClusterBytes(g) == 512 * |Lbas(g, ch)| && ClusterBytes(g) == 512 * g.spc
  {
    LbasLength(g, ch);
    assert |ch| * (512 * g.spc) == 512 * (|ch| * g.spc);
  }

  /** Slot `n` of a directory is bytes `32 n` to `32 n + 31` of its chain. */
  lemma SlotFormat(disk: Disk, lbas: seq<nat>, n: nat)
    requires n < 16 * |lbas| && forall j :: 0 <= j < |lbas| ==> lbas[j] < |disk|
    ensures Dir(disk, lbas)[n] == Content(disk, lbas, 512 * |lbas|)[32 * n..32 * n + 32]
  {
    var all := Content(disk, lbas, 512 * |lbas|);
    var a, b := Dir(disk, lbas)[n], all[32 * n..32 * n + 32];
    forall i | 0 <= i < 32
      ensures a[i] == b[i]
    {
      assert 32 * n + i == 512 * (n / 16) + (32 * (n % 16) + i);
      Places(n / 16, 32 * (n % 16) + i);
      assert b[i] == all[32 * n + i] == ByteAt(disk, lbas, 32 * n + i);
    }
  }
}
