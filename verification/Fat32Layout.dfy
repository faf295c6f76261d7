/** Where a FAT32 volume keeps things: geometry, sector numbers and little-endian fields. */
module Fat32Layout {
  import opened Basics

  type Sector = s: seq<byte> | |s| == 512 witness seq(512, _ => 0)

  /** The device, sector by sector. */
  type Disk = seq<Sector>

  const EOC: nat := 0x0fff_fff8
  const BAD: nat := 0x0fff_fff7

  // ----- Little-endian fields

  function Le16(s: seq<byte>, o: nat): nat
    requires o + 2 <= |s|
  {
    s[o] as int + 256 * s[o + 1] as int
  }

  function Le32(s: seq<byte>, o: nat): nat
    requires o + 4 <= |s|
  {
    s[o] as int + 256 * s[o + 1] as int + 65536 * s[o + 2] as int + 16777216 * s[o + 3] as int
  }

  function PutLe16(s: Sector, o: nat, v: nat): Sector
    requires o + 2 <= 512
  {
    s[o := v % 256][o + 1 := v / 256 % 256]
  }

  function PutLe32(s: Sector, o: nat, v: nat): Sector
    requires o + 4 <= 512
  {
    s[o := v % 256][o + 1 := v / 256 % 256][o + 2 := v / 65536 % 256][o + 3 := v / 16777216 % 256]
  }

  lemma Digits(v: nat)
    requires v < U32_LIMIT
    ensures v == v % 256 + 256 * (v / 256 % 256) + 65536 * (v / 65536 % 256) + 16777216 * (v / 16777216 % 256)
  {
    var a, b, c := v / 256, v / 65536, v / 16777216;
    assert v == 256 * a + v % 256;
    assert a == 256 * b + a % 256;
    assert b == 256 * c + b % 256;
  }

  /** A stored 32-bit field reads back, and fields that do not overlap it are untouched. */
  lemma PutGet32(s: Sector, o: nat, v: nat, o': nat)
    requires o + 4 <= 512 && o' + 4 <= 512 && v < U32_LIMIT
    requires o' == o || o' + 4 <= o || o + 4 <= o'
    ensures Le32(PutLe32(s, o, v), o') == if o' == o then v else Le32(s, o')
  {
    Digits(v);
  }

  // ----- Geometry

  datatype Geometry = Geometry(spc: nat, reserved: nat, fats: nat, spf: nat, total: nat, dataStart: nat,
                               root: nat, clusters: nat)

  predicate PowerOfTwoTo128(n: nat) {
    n == 1 || n == 2 || n == 4 || n == 8 || n == 16 || n == 32 || n == 64 || n == 128
  }

  predicate GeometryOk(g: Geometry) {
    && PowerOfTwoTo128(g.spc)
    && 0 < g.reserved && 0 < g.fats && 0 < g.spf && g.total < U32_LIMIT
    && g.dataStart == g.reserved + g.fats * g.spf < g.total
    && g.clusters == (g.total - g.dataStart) / g.spc
    && 0 < g.clusters <= BAD - 2
    && g.clusters + 2 <= 128 * g.spf
    && IsData(g, g.root)
  }

  predicate IsData(g: Geometry, c: nat) {
    2 <= c && c - 2 < g.clusters
  }

  /** The boot-sector fields `fat32_mount` reads. */
  datatype Bpb = Bpb(bytesPerSector: nat, spc: nat, reserved: nat, fats: nat, rootEntries: nat, total: nat, spf: nat, root: nat)

  function ReadBpb(boot: Sector): Bpb {
    Bpb(Le16(boot, 11), boot[13], Le16(boot, 14), boot[16], Le16(boot, 17),
        if Le16(boot, 19) == 0 then Le32(boot, 32) else Le16(boot, 19), Le32(boot, 36), Le32(boot, 44))
  }

  /** The checks of `fat32_mount`, which reject every geometry this driver cannot address. */
  function Accept(b: Bpb): Option<Geometry> {
    if b.bytesPerSector != 512 || b.spc == 0 || b.spc > 128 || !PowerOfTwoTo128(b.spc) || b.reserved == 0 || b.fats == 0
       || b.rootEntries != 0 || b.total == 0 || b.spf == 0 || b.spf > (U32_LIMIT - 1 - b.reserved) / b.fats then None
    else if b.reserved + b.fats * b.spf >= b.total then None
    else AcceptData(b, b.reserved + b.fats * b.spf)
  }

  function AcceptData(b: Bpb, dataStart: nat): Option<Geometry>
    requires dataStart < b.total && b.spc > 0
  {
    var clusters := (b.total - dataStart) / b.spc;
    if clusters == 0 || clusters > BAD - 2 || (clusters + 2 + 127) / 128 > b.spf
       || b.root < 2 || b.root - 2 >= clusters then None
    else Some(Geometry(b.spc, b.reserved, b.fats, b.spf, b.total, dataStart, b.root, clusters))
  }

  function Mount(boot: Sector): Option<Geometry> {
    Accept(ReadBpb(boot))
  }

  lemma ByteBound(boot: Sector, o: nat)
    requires o + 4 <= 512
    ensures Le32(boot, o) < U32_LIMIT && Le16(boot, o) < 65536
  {
  }

  /** The geometry `g` is what the boot sector says. */
  predicate Describes(b: Bpb, g: Geometry) {
    && b.bytesPerSector == 512 && b.rootEntries == 0
    && g.spc == b.spc && g.reserved == b.reserved && g.fats == b.fats && g.spf == b.spf && g.total == b.total && g.root == b.root
  }

  /** A boot sector is accepted exactly when it describes a geometry in which every sector number is sound, and as that one. */
  lemma MountOk(boot: Sector)
    ensures Mount(boot).Some? ==> Describes(ReadBpb(boot), Mount(boot).value) && GeometryOk(Mount(boot).value)
    ensures forall g :: Describes(ReadBpb(boot), g) && GeometryOk(g) ==> Mount(boot) == Some(g)
  {
    ByteBound(boot, 32);
    ByteBound(boot, 19);
    ByteBound(boot, 36);
    var b := ReadBpb(boot);
    hide ReadBpb;
    forall g | Describes(b, g) && GeometryOk(g)
      ensures Accept(b) == Some(g)
    {
      assert b.spf <= (U32_LIMIT - 1 - b.reserved) / b.fats by {
        assert b.fats * b.spf <= U32_LIMIT - 1 - b.reserved;
        DivGe(b.spf, b.fats, U32_LIMIT - 1 - b.reserved);
      }
    }
  }

  lemma DivGe(a: nat, k: nat, n: nat)
    requires k > 0 && k * a <= n
    ensures a <= n / k
  {
    var q := n / k;
    assert (q + 1) * k == q * k + k;
    if q < a {
      MulLe(q + 1, a, k);
    }
  }

  // ----- Sector numbers

  /** The sector of FAT copy `copy` that holds the entry of cluster `c`. */
  function FatLba(g: Geometry, copy: nat, c: nat): nat {
    g.reserved + copy * g.spf + c / 128
  }

  function FatOffset(c: nat): nat {
    4 * (c % 128)
  }

  function ClusterLba(g: Geometry, c: nat): nat
    requires c >= 2
  {
    g.dataStart + (c - 2) * g.spc
  }

  lemma MulLe(a: nat, b: nat, k: nat)
    requires a <= b
    ensures a * k <= b * k
  {
  }

  /** A FAT entry lies in its own copy of the FAT, below the data area. */
  lemma FatSectorInRange(g: Geometry, copy: nat, c: nat)
    requires GeometryOk(g) && copy < g.fats && IsData(g, c)
    ensures g.reserved + copy * g.spf <= FatLba(g, copy, c) < g.reserved + (copy + 1) * g.spf
    ensures FatLba(g, copy, c) < g.dataStart < g.total
    ensures FatOffset(c) + 4 <= 512
  {
    MulLe(copy + 1, g.fats, g.spf);
    assert (copy + 1) * g.spf == copy * g.spf + g.spf;
    assert c / 128 < g.spf;
  }

  /** Different copies keep an entry in different sectors. */
  lemma FatCopiesApart(g: Geometry, copy: nat, copy': nat, i: nat, j: nat)
    requires 0 < g.spf && i < g.spf && j < g.spf
    ensures copy * g.spf + i == copy' * g.spf + j ==> copy == copy' && i == j
  {
    if copy < copy' {
      MulLe(copy + 1, copy', g.spf);
      assert (copy + 1) * g.spf == copy * g.spf + g.spf;
    } else if copy' < copy {
      MulLe(copy' + 1, copy, g.spf);
      assert (copy' + 1) * g.spf == copy' * g.spf + g.spf;
    }
  }

  /** Every sector of a data cluster lies in the data area of the volume. */
  lemma ClusterInRange(g: Geometry, c: nat, s: nat)
    requires GeometryOk(g) && IsData(g, c) && s < g.spc
    ensures g.dataStart <= ClusterLba(g, c) + s < g.total
  {
    var n := c - 2;
    MulLe(n + 1, g.clusters, g.spc);
    assert (n + 1) * g.spc == n * g.spc + g.spc;
    assert g.clusters * g.spc <= g.total - g.dataStart;
  }

  /** Different clusters share no sector. */
  lemma ClustersApart(g: Geometry, c: nat, s: nat, c': nat, s': nat)
    requires 0 < g.spc && c >= 2 && c' >= 2 && s < g.spc && s' < g.spc
    ensures ClusterLba(g, c) + s == ClusterLba(g, c') + s' ==> c == c' && s == s'
  {
    FatCopiesApart(g.(spf := g.spc), c - 2, c' - 2, s, s');
  }
}
