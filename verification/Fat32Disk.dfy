/** The allocation table and the cluster bytes as they lie on the device. */
module Fat32Disk {
  import opened Basics
  import opened Fat32Layout
  import opened FatChains

  ghost predicate DiskOk(g: Geometry, disk: Disk) {
    GeometryOk(g) && |disk| == g.total
  }

  // ----- The table

  /** The entry of cluster `c` in the first copy of the table, without its reserved top bits. */
  function FatAt(disk: Disk, g: Geometry, c: nat): nat {
    if IsData(g, c) && FatLba(g, 0, c) < |disk| && FatOffset(c) + 4 <= 512
    then Le32(disk[FatLba(g, 0, c)], FatOffset(c)) % 0x1000_0000 else 0
  }

  function FatView(disk: Disk, g: Geometry): (fat: Fat)
    ensures |fat| == g.clusters + 2
  {
    seq(g.clusters + 2, (c: nat) => FatAt(disk, g, c))
  }

  /** All copies of the table agree, sector by sector. */
  ghost predicate Mirrored(g: Geometry, disk: Disk)
    requires DiskOk(g, disk)
  {
    forall copy: nat, i: nat :: copy < g.fats && i < g.spf ==> CopySector(g, disk, copy, i) == CopySector(g, disk, 0, i)
  }

  function CopySector(g: Geometry, disk: Disk, copy: nat, i: nat): seq<byte> {
    if g.reserved + copy * g.spf + i < |disk| then disk[g.reserved + copy * g.spf + i] else []
  }

  /** `write_fat_entry` from copy `copy` on: the same field in every remaining copy. */
  function WriteCopies(disk: Disk, g: Geometry, c: nat, v: nat, copy: nat): (disk': Disk)
    requires DiskOk(g, disk) && IsData(g, c) && copy <= g.fats
    ensures |disk'| == |disk|
    decreases g.fats - copy
  {
    if copy == g.fats then disk
    else
      FatSectorInRange(g, copy, c);
      var lba := FatLba(g, copy, c);
      WriteCopies(disk[lba := PutLe32(disk[lba], FatOffset(c), v % 0x1000_0000)], g, c, v, copy + 1)
  }

  function WriteFat(disk: Disk, g: Geometry, c: nat, v: nat): (disk': Disk)
    requires DiskOk(g, disk) && IsData(g, c)
    ensures |disk'| == |disk|
  {
    WriteCopies(disk, g, c, v, 0)
  }

  /** Each remaining copy gets the field in its own sector; nothing else moves. */
  lemma {:induction false} WriteCopiesAt(disk: Disk, g: Geometry, c: nat, v: nat, copy: nat, l: nat)
    requires DiskOk(g, disk) && IsData(g, c) && copy <= g.fats && l < |disk|
    ensures FatOffset(c) + 4 <= 512
    ensures (exists k: nat :: copy <= k < g.fats && FatLba(g, k, c) == l) ==>
              WriteCopies(disk, g, c, v, copy)[l] == PutLe32(disk[l], FatOffset(c), v % 0x1000_0000)
    ensures !(exists k: nat :: copy <= k < g.fats && FatLba(g, k, c) == l) ==>
              WriteCopies(disk, g, c, v, copy)[l] == disk[l]
    decreases g.fats - copy
  {
    hide PutLe32, GeometryOk;
    if copy < g.fats {
      FatSectorInRange(g, copy, c);
      var lba := FatLba(g, copy, c);
      var disk1 := disk[lba := PutLe32(disk[lba], FatOffset(c), v % 0x1000_0000)];
      WriteCopiesAt(disk1, g, c, v, copy + 1, l);
      forall k: nat | copy < k < g.fats
        ensures FatLba(g, k, c) != lba
      {
        FatSectorInRange(g, k, c);
        EntrySector(g, c);
        FatCopiesApart(g, copy, k, c / 128, c / 128);
      }
    }
  }

  lemma EntrySector(g: Geometry, c: nat)
    requires GeometryOk(g) && IsData(g, c)
    ensures 0 < g.fats && 0 < g.spf && c / 128 < g.spf
  {
  }

  /** Writing an entry changes that entry of the table and no other. */
  lemma WriteFatView(disk: Disk, g: Geometry, c: nat, v: nat)
    requires DiskOk(g, disk) && IsData(g, c)
    ensures FatView(WriteFat(disk, g, c, v), g) == FatView(disk, g)[c := v % 0x1000_0000]
  {
    hide PutLe32, Le32, GeometryOk;
    var disk' := WriteFat(disk, g, c, v);
    forall d: nat | d < g.clusters + 2
      ensures FatAt(disk', g, d) == if d == c then v % 0x1000_0000 else FatAt(disk, g, d)
    {
      if IsData(g, d) {
        WriteFatEntryAt(disk, g, c, v, d);
      }
    }
    assert |FatView(disk', g)| == g.clusters + 2;
  }

  lemma FirstCopy(g: Geometry, c: nat, d: nat)
    requires GeometryOk(g) && IsData(g, c) && IsData(g, d)
    ensures (exists k: nat :: k < g.fats && FatLba(g, k, c) == FatLba(g, 0, d)) <==> c / 128 == d / 128
  {
    EntrySector(g, c);
    EntrySector(g, d);
    if c / 128 == d / 128 {
      assert FatLba(g, 0, c) == FatLba(g, 0, d);
    } else {
      forall k: nat | k < g.fats
        ensures FatLba(g, k, c) != FatLba(g, 0, d)
      {
        FatCopiesApart(g, k, 0, c / 128, d / 128);
      }
    }
  }

  lemma WriteFatEntryAt(disk: Disk, g: Geometry, c: nat, v: nat, d: nat)
    requires DiskOk(g, disk) && IsData(g, c) && IsData(g, d)
    ensures FatAt(WriteFat(disk, g, c, v), g, d) == if d == c then v % 0x1000_0000 else FatAt(disk, g, d)
  {
    hide PutLe32, Le32, GeometryOk, WriteCopies;
    EntrySector(g, c);
    FatSectorInRange(g, 0, d);
    FatSectorInRange(g, 0, c);
    var l := FatLba(g, 0, d);
    WriteCopiesAt(disk, g, c, v, 0, l);
    FirstCopy(g, c, d);
    assert l < |disk|;
    if c / 128 == d / 128 {
      assert c != d ==> FatOffset(c) != FatOffset(d);
      PutGet32(disk[l], FatOffset(c), v % 0x1000_0000, FatOffset(d));
    }
  }

  /** Writing an entry touches only the table, and keeps its copies in agreement. */
  lemma WriteFatFrame(disk: Disk, g: Geometry, c: nat, v: nat)
    requires DiskOk(g, disk) && IsData(g, c)
    ensures forall l :: g.dataStart <= l < |disk| ==> WriteFat(disk, g, c, v)[l] == disk[l]
    ensures Mirrored(g, disk) ==> Mirrored(g, WriteFat(disk, g, c, v))
  {
    hide PutLe32, GeometryOk, WriteCopies;
    var disk' := WriteFat(disk, g, c, v);
    forall l | g.dataStart <= l < |disk|
      ensures disk'[l] == disk[l]
    {
      WriteCopiesAt(disk, g, c, v, 0, l);
      forall k: nat | k < g.fats
        ensures FatLba(g, k, c) != l
      {
        FatSectorInRange(g, k, c);
      }
    }
    if Mirrored(g, disk) {
      forall copy: nat, i: nat | copy < g.fats && i < g.spf
        ensures CopySector(g, disk', copy, i) == CopySector(g, disk', 0, i)
      {
        WriteFatCopy(disk, g, c, v, copy, i);
        WriteFatCopy(disk, g, c, v, 0, i);
        assert CopySector(g, disk, copy, i) == CopySector(g, disk, 0, i);
      }
    }
  }

  lemma CopyInRange(g: Geometry, copy: nat, i: nat)
    requires GeometryOk(g) && copy < g.fats && i < g.spf
    ensures g.reserved + copy * g.spf + i < g.dataStart
  {
    MulLe(copy + 1, g.fats, g.spf);
    assert (copy + 1) * g.spf == copy * g.spf + g.spf;
  }

  lemma WriteFatCopy(disk: Disk, g: Geometry, c: nat, v: nat, copy: nat, i: nat)
    requires DiskOk(g, disk) && IsData(g, c) && copy < g.fats && i < g.spf
    ensures FatOffset(c) + 4 <= 512 && |CopySector(g, disk, copy, i)| == 512
    ensures CopySector(g, WriteFat(disk, g, c, v), copy, i)
         == if i == c / 128 then PutLe32(CopySector(g, disk, copy, i), FatOffset(c), v % 0x1000_0000)
            else CopySector(g, disk, copy, i)
  {
    hide PutLe32, WriteCopies;
    CopyInRange(g, copy, i);
    var l := g.reserved + copy * g.spf + i;
    assert l < |disk|;
    hide GeometryOk;
    WriteCopiesAt(disk, g, c, v, 0, l);
    EntrySector(g, c);
    if i == c / 128 {
      assert FatLba(g, copy, c) == l;
    } else {
      forall k: nat | k < g.fats
        ensures FatLba(g, k, c) != l
      {
        FatCopiesApart(g, k, copy, c / 128, i);
      }
    }
  }

  /** The table is a matter of the sectors below the data area alone. */
  lemma TableFrame(disk: Disk, disk': Disk, g: Geometry)
    requires DiskOk(g, disk) && |disk'| == |disk|
    requires forall l :: 0 <= l < g.dataStart ==> disk'[l] == disk[l]
    ensures FatView(disk', g) == FatView(disk, g)
    ensures Mirrored(g, disk) ==> Mirrored(g, disk')
  {
    hide Le32;
    forall c: nat | c < g.clusters + 2
      ensures FatAt(disk', g, c) == FatAt(disk, g, c)
    {
      if IsData(g, c) {
        FatSectorInRange(g, 0, c);
      }
    }
    assert |FatView(disk', g)| == |FatView(disk, g)|;
    if Mirrored(g, disk) {
      forall copy: nat, i: nat | copy < g.fats && i < g.spf
        ensures CopySector(g, disk', copy, i) == CopySector(g, disk', 0, i)
      {
        CopyInRange(g, copy, i);
        CopyInRange(g, 0, i);
        assert CopySector(g, disk, copy, i) == CopySector(g, disk, 0, i);
      }
    }
  }
}
