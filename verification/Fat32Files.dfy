/** A volume as a map from names to contents. */
module Fat32Files {
  import opened Basics
  import opened Fat32Layout
  import opened FatChains
  import opened Fat32Disk
  import opened Fat32Volume
  import opened Fat32Steps
  import opened Fat32Changes
  import opened Fat32Search
  import opened Fat32Handles

  type Names = map<seq<byte>, seq<byte>>

  ghost function NameSet(g: Geometry, disk: Disk, chains: Chains): set<seq<byte>> {
    set o | o in chains && o.Slot? :: FileAt(g, disk, chains, o.n).name
  }

  /** The contents of every file of the root directory, by name. */
  ghost function ByName(g: Geometry, disk: Disk, chains: Chains): Names {
    map name | name in NameSet(g, disk, chains) ::
      var o :| o in chains && o.Slot? && FileAt(g, disk, chains, o.n).name == name;
      FileAt(g, disk, chains, o.n).content
  }

  /** How many clusters each of them has, by name. */
  ghost function Lengths(g: Geometry, disk: Disk, chains: Chains): map<seq<byte>, nat> {
    map name | name in NameSet(g, disk, chains) ::
      var o :| o in chains && o.Slot? && FileAt(g, disk, chains, o.n).name == name;
      |chains[o]|
  }

  lemma LengthsAt(g: Geometry, disk: Disk, others: map<nat, seq<nat>>, chains: Chains, n: nat)
    requires VolumeOk(g, disk, others, chains) && Slot(n) in chains
    ensures var name := FileAt(g, disk, chains, n).name;
            name in Lengths(g, disk, chains) && Lengths(g, disk, chains)[name] == |chains[Slot(n)]|
  {
    hide VolumeOk, FileAt;
    var name := FileAt(g, disk, chains, n).name;
    assert Slot(n).n == n;
    assert name in NameSet(g, disk, chains);
    var o :| o in chains && o.Slot? && FileAt(g, disk, chains, o.n).name == name && Lengths(g, disk, chains)[name] == |chains[o]|;
    NamesApart(g, disk, others, chains, n, o.n);
  }

  lemma NamesApart(g: Geometry, disk: Disk, others: map<nat, seq<nat>>, chains: Chains, n: nat, m: nat)
    requires VolumeOk(g, disk, others, chains) && Slot(n) in chains && Slot(m) in chains
    requires FileAt(g, disk, chains, n).name == FileAt(g, disk, chains, m).name
    ensures n == m
  {
    hide TableOk, EntryOk, IsFile, SlotAt, Content, Lbas, FreeTail;
    var dir := RootDir(g, disk, chains);
    assert n < |dir| && m < |dir|;
    assert dir[n] == SlotAt(disk, RootLbas(g, chains), n) && dir[m] == SlotAt(disk, RootLbas(g, chains), m);
  }

  /** A file is found under its name. */
  lemma ByNameAt(g: Geometry, disk: Disk, others: map<nat, seq<nat>>, chains: Chains, n: nat)
    requires VolumeOk(g, disk, others, chains) && Slot(n) in chains
    ensures var f := FileAt(g, disk, chains, n);
            f.name in ByName(g, disk, chains) && ByName(g, disk, chains)[f.name] == f.content
  {
    hide VolumeOk, FileAt;
    var name := FileAt(g, disk, chains, n).name;
    assert Slot(n).n == n;
    assert name in NameSet(g, disk, chains);
    var o :| o in chains && o.Slot? && FileAt(g, disk, chains, o.n).name == name
             && ByName(g, disk, chains)[name] == FileAt(g, disk, chains, o.n).content;
    NamesApart(g, disk, others, chains, n, o.n);
  }

  /** A name leads to a file. */
  lemma ByNameOf(g: Geometry, disk: Disk, others: map<nat, seq<nat>>, chains: Chains, name: seq<byte>) returns (n: nat)
    requires VolumeOk(g, disk, others, chains) && name in ByName(g, disk, chains)
    ensures Slot(n) in chains && FileAt(g, disk, chains, n) == FileView(name, ByName(g, disk, chains)[name])
  {
    hide VolumeOk, FileAt;
    var o :| o in chains && o.Slot? && FileAt(g, disk, chains, o.n).name == name;
    n := o.n;
    ByNameAt(g, disk, others, chains, n);
  }

  /** The files other than `n` keep their names and contents. */
  lemma OthersByName(g: Geometry, disk: Disk, chains: Chains, disk': Disk, chains': Chains, others: map<nat, seq<nat>>, n: nat, name: seq<byte>)
    requires VolumeOk(g, disk, others, chains) && VolumeOk(g, disk', others, chains') && OthersSame(g, disk, chains, disk', chains', n)
    requires Slot(n) in chains ==> FileAt(g, disk, chains, n).name != name
    requires Slot(n) in chains' ==> FileAt(g, disk', chains', n).name != name
    ensures name in ByName(g, disk, chains) <==> name in ByName(g, disk', chains')
    ensures name in ByName(g, disk, chains) ==> ByName(g, disk', chains')[name] == ByName(g, disk, chains)[name]
  {
    hide VolumeOk, FileAt, ByName;
    if name in ByName(g, disk, chains) {
      var m := ByNameOf(g, disk, others, chains, name);
      ByNameAt(g, disk', others, chains', m);
    }
    if name in ByName(g, disk', chains') {
      var m := ByNameOf(g, disk', others, chains', name);
      ByNameAt(g, disk, others, chains, m);
    }
  }

  /** A file changed its content. */
  lemma ByNameUpdate(g: Geometry, disk: Disk, chains: Chains, disk': Disk, chains': Chains, others: map<nat, seq<nat>>, n: nat)
    requires VolumeOk(g, disk, others, chains) && VolumeOk(g, disk', others, chains') && OthersSame(g, disk, chains, disk', chains', n)
    requires Slot(n) in chains' && (Slot(n) in chains ==> FileAt(g, disk, chains, n).name == FileAt(g, disk', chains', n).name)
    ensures var f := FileAt(g, disk', chains', n); ByName(g, disk', chains') == ByName(g, disk, chains)[f.name := f.content]
  {
    hide VolumeOk, FileAt, ByName;
    var f, a, b := FileAt(g, disk', chains', n), ByName(g, disk, chains), ByName(g, disk', chains');
    ByNameAt(g, disk', others, chains', n);
    forall name
      ensures name != f.name ==> (name in a <==> name in b) && (name in a ==> a[name] == b[name])
    {
      if name != f.name {
        OthersByName(g, disk, chains, disk', chains', others, n, name);
      }
    }
    SameMap(b, a[f.name := f.content]);
  }

  lemma SameMap(a: Names, b: Names)
    requires forall name :: (name in a <==> name in b) && (name in a ==> a[name] == b[name])
    ensures a == b
  {
    assert forall name :: name in a.Keys <==> name in b.Keys;
  }

  /** A file went, and perhaps came back under another name. */
  lemma ByNameMove(g: Geometry, disk: Disk, chains: Chains, disk': Disk, chains': Chains, others: map<nat, seq<nat>>, n: nat)
    requires VolumeOk(g, disk, others, chains) && VolumeOk(g, disk', others, chains') && OthersSame(g, disk, chains, disk', chains', n)
    requires Slot(n) in chains && (Slot(n) in chains' ==> FileAt(g, disk', chains', n).name !in ByName(g, disk, chains))
    ensures var f := FileAt(g, disk, chains, n);
            ByName(g, disk', chains') == if Slot(n) in chains'
              then (ByName(g, disk, chains) - {f.name})[FileAt(g, disk', chains', n).name := FileAt(g, disk', chains', n).content]
              else ByName(g, disk, chains) - {f.name}
  {
    hide VolumeOk, FileAt, ByName, OthersSame;
    var f, a, b := FileAt(g, disk, chains, n), ByName(g, disk, chains), ByName(g, disk', chains');
    ByNameAt(g, disk, others, chains, n);
    if Slot(n) in chains' {
      ByNameAt(g, disk', others, chains', n);
    }
    Gone(g, disk, chains, disk', chains', others, n);
    forall name
      ensures name != f.name && (Slot(n) in chains' ==> name != FileAt(g, disk', chains', n).name) ==>
                (name in a <==> name in b) && (name in a ==> a[name] == b[name])
    {
      if name != f.name && (Slot(n) in chains' ==> name != FileAt(g, disk', chains', n).name) {
        OthersByName(g, disk, chains, disk', chains', others, n, name);
      }
    }
    if Slot(n) in chains' {
      var f' := FileAt(g, disk', chains', n);
      SameMap(b, (a - {f.name})[f'.name := f'.content]);
    } else {
      SameMap(b, a - {f.name});
    }
  }

  lemma Gone(g: Geometry, disk: Disk, chains: Chains, disk': Disk, chains': Chains, others: map<nat, seq<nat>>, n: nat)
    requires VolumeOk(g, disk, others, chains) && VolumeOk(g, disk', others, chains') && OthersSame(g, disk, chains, disk', chains', n)
    requires Slot(n) in chains && (Slot(n) in chains' ==> FileAt(g, disk', chains', n).name != FileAt(g, disk, chains, n).name)
    ensures FileAt(g, disk, chains, n).name !in ByName(g, disk', chains')
  {
    hide VolumeOk, FileAt, ByName;
    var name := FileAt(g, disk, chains, n).name;
    if name in ByName(g, disk', chains') {
      var m := ByNameOf(g, disk', others, chains', name);
      assert m != n;
      NamesApart(g, disk, others, chains, n, m);
      assert false;
    }
  }

  /** There is a file of that name exactly when the directory search sees one. */
  lemma NoFileIs(g: Geometry, disk: Disk, others: map<nat, seq<nat>>, chains: Chains, name: seq<byte>)
    requires VolumeOk(g, disk, others, chains)
    ensures NoFile(RootDir(g, disk, chains), name) <==> name !in ByName(g, disk, chains)
  {
    if name in ByName(g, disk, chains) {
      var n := ByNameOf(g, disk, others, chains, name);
      FileSlot(g, disk, others, chains, n);
    }
    if !NoFile(RootDir(g, disk, chains), name) {
      hide VolumeOk, IsFile, Name, Dir, ByName, FileAt;
      var m :| 0 <= m < |RootDir(g, disk, chains)| && IsFile(RootDir(g, disk, chains)[m]) && Name(RootDir(g, disk, chains)[m]) == name;
      FileSlot(g, disk, others, chains, m);
      ByNameAt(g, disk, others, chains, m);
    }
  }

  lemma FileSlot(g: Geometry, disk: Disk, others: map<nat, seq<nat>>, chains: Chains, n: nat)
    requires VolumeOk(g, disk, others, chains)
    ensures Slot(n) in chains <==> n < |RootDir(g, disk, chains)| && IsFile(RootDir(g, disk, chains)[n])
    ensures Slot(n) in chains ==> FileAt(g, disk, chains, n).name == Name(RootDir(g, disk, chains)[n])
  {
    hide TableOk, IsFile, EntryOk, Content, Lbas, UniqueNames, FreeTail;
  }

  // ----- An empty volume

  /** Only the root directory has a cluster, and that cluster is all zeros. */
  ghost predicate Formatted(g: Geometry, disk: Disk) {
    && DiskOk(g, disk) && Mirrored(g, disk) && IsData(g, g.root)
    && (forall c: nat :: 2 <= c < |FatView(disk, g)| ==>
          if c == g.root then FatView(disk, g)[c] >= EOC else FatView(disk, g)[c] == 0)
    && (forall l :: 0 <= l < |disk| && l in Lbas(g, [g.root]) ==> Blank(disk[l]))
  }

  predicate Blank(s: Sector) {
    forall i :: 0 <= i < 512 ==> s[i] == 0
  }

  /** A freshly formatted device is a well-formed volume without files. */
  lemma FormattedOk(g: Geometry, disk: Disk)
    requires Formatted(g, disk)
    ensures VolumeOk(g, disk, map[], map[Root := [g.root]]) && ByName(g, disk, map[Root := [g.root]]) == map[]
  {
    var chains: Chains := map[Root := [g.root]];
    var fat := FatView(disk, g);
    SmallTable(g, disk);
    assert IsPath(fat, [g.root]);
    forall c: nat | IsCluster(fat, c) && fat[c] != 0 && fat[c] != BAD
      ensures Owned(chains, c)
    {
      assert c in chains[Root];
    }
    assert NameSet(g, disk, chains) == {};
    EmptyDir(g, disk);
  }

  lemma EmptyDir(g: Geometry, disk: Disk)
    requires Formatted(g, disk)
    ensures DirOk(g, RootDir(g, disk, map[Root := [g.root]]), map[Root := [g.root]])
  {
    var chains: Chains := map[Root := [g.root]];
    var lbas := Lbas(g, [g.root]);
    var dir := RootDir(g, disk, chains);
    forall n: nat | n < |dir|
      ensures dir[n][0] == 0
    {
      assert dir[n] == SlotAt(disk, lbas, n);
    }
  }
}
