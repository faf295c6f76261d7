/** Every run of file operations keeps the volume well formed and acts like a map from names to contents. */
module Fat32Runs {
  import opened Basics
  import opened Fat32Layout
  import opened FatChains
  import opened Fat32Disk
  import opened Fat32Volume
  import opened Fat32Changes
  import opened Fat32Search
  import opened Fat32Names
  import opened Fat32Handles
  import opened Fat32Writing
  import opened Fat32Marks
  import opened Fat32Files
  import opened Fat32Driver

  datatype Op =
    | Create(name: seq<byte>)
    | Read(name: seq<byte>, offset: nat, capacity: nat)
    | Write(name: seq<byte>, offset: nat, buf: seq<byte>)
    | Delete(name: seq<byte>)
    | Rename(name: seq<byte>, newName: seq<byte>)

  datatype Outcome = Failed | Done | Data(bytes: seq<byte>)

  /** A volume as its users see it: the files, their clusters, and whether a directory entry and a cluster can be had. */
  datatype Snapshot = Snapshot(files: Names, clusters: map<seq<byte>, nat>, entry: bool, cluster: bool, clusterBytes: nat)

  ghost function View(fs: Fat32): Snapshot
    reads fs
  {
    Look(fs.g, fs.disk, fs.chains)
  }

  ghost function Look(g: Geometry, disk: Disk, chains: Chains): Snapshot {
    Snapshot(ByName(g, disk, chains), Lengths(g, disk, chains), FindFreeSlot(RootDir(g, disk, chains), 0).Some?,
             FindFree(FatView(disk, g), 2).Some?, ClusterBytes(g))
  }

  // ----- What each operation means

  /** The name is a short name that begins with the deleted mark. */
  predicate Marked(name: seq<byte>) {
    ShortName(name).Some? && ShortName(name).value[0] == 0xe5
  }

  /** There are such names: the byte 0xe5 alone is one. */
  lemma MarkedName()
    ensures Marked([0xe5])
  {
    var name: seq<byte> := [0xe5];
    assert Strip(name) == name;
    assert DotFrom(name, 0) == 1;
    assert name[..1] == name;
    assert IsShort(name);
    ShortNameFirst(name);
  }

  /** The file an operation names exists. */
  predicate Present(files: Names, name: seq<byte>) {
    ShortName(name).Some? && ShortName(name).value in files
  }

  predicate Creatable(v: Snapshot, name: seq<byte>) {
    ShortName(name).Some? && !Present(v.files, name) && v.entry && v.cluster
  }

  predicate Renamable(files: Names, name: seq<byte>, newName: seq<byte>) {
    Present(files, name) && ShortName(newName).Some? && !Present(files, newName)
  }

  /** A write at `offset` is within the file. */
  predicate Writable(files: Names, name: seq<byte>, offset: nat) {
    Present(files, name) && offset <= |files[ShortName(name).value]|
  }

  /**
   * What each operation means on the map of files. It is refused in the stated cases and no others; a write may also be
   * cut short, but only when its bytes do not fit the clusters of the file and the file cannot get another.
   */
  ghost predicate Meaning(v: Snapshot, op: Op, r: Outcome, v': Snapshot) {
    var files, files' := v.files, v'.files;
    match op
    case Create(name) =>
      if Creatable(v, name) then r == Done && files' == files[ShortName(name).value := []] else r == Failed && v' == v
    case Read(name, offset, capacity) =>
      v' == v && r == if Writable(files, name, offset) then Data(Slice(files[ShortName(name).value], offset, capacity)) else Failed
    case Write(name, offset, buf) =>
      if !Writable(files, name, offset) then r == Failed && v' == v
      else if Held(v', ShortName(name).value, offset + |buf|)
      then r == Done && files' == files[ShortName(name).value := files[ShortName(name).value][..offset] + buf]
      else r == Failed && CutShort(files, ShortName(name).value, offset, files') && Stuck(v', ShortName(name).value)
    case Delete(name) =>
      if Present(files, name) then r == Done && files' == files - {ShortName(name).value} else r == Failed && v' == v
    case Rename(name, newName) =>
      if !Renamable(files, name, newName) then r == Failed && v' == v
      else
        && r == Done
        && files' == if Marked(newName) then files - {ShortName(name).value}
                     else (files - {ShortName(name).value})[ShortName(newName).value := files[ShortName(name).value]]
  }

  /** The clusters of a file hold so many bytes. */
  predicate Held(v: Snapshot, name: seq<byte>, bytes: nat) {
    name in v.clusters && bytes <= v.clusters[name] * v.clusterBytes < U32_LIMIT
  }

  /** A file cannot get another cluster: none is found, or it would reach 4 GiB. */
  predicate Stuck(v: Snapshot, name: seq<byte>) {
    !v.cluster || (name in v.clusters && (v.clusters[name] + 1) * v.clusterBytes >= U32_LIMIT)
  }

  /** A write that ran out of room keeps the size of its file and all that lies before `offset`. */
  ghost predicate CutShort(fs: Names, name: seq<byte>, offset: nat, fs': Names) {
    && name in fs && name in fs' && offset <= |fs[name]| == |fs'[name]| && fs'[name][..offset] == fs[name][..offset]
    && fs' == fs[name := fs'[name]]
  }

  /** The operation leaks clusters: it gives the deleted mark to a new file, or to one that has clusters. */
  ghost predicate Leaks(v: Snapshot, op: Op) {
    match op
    case Create(name) => Creatable(v, name) && Marked(name)
    case Rename(name, newName) =>
      Renamable(v.files, name, newName) && Marked(newName)
      && ShortName(name).value in v.clusters && v.clusters[ShortName(name).value] > 0
    case _ => false
  }

  /** An operation that leaks leaves a volume that is not well formed; any other keeps it so and means what it should. */
  ghost predicate Outcomes(g: Geometry, others: map<nat, seq<nat>>, v: Snapshot, op: Op, r: Outcome, disk: Disk, chains: Chains) {
    if Leaks(v, op) then r == Done && IllFormed(g, disk, others)
    else VolumeOk(g, disk, others, chains) && Meaning(v, op, r, Look(g, disk, chains))
  }

  // ----- The operations

  method ApplyCreate(fs: Fat32, name: seq<byte>) returns (r: Outcome)
    requires fs.Valid()
    modifies fs
    ensures Outcomes(fs.g, fs.others, old(View(fs)), Create(name), r, fs.disk, fs.chains)
  {
    hide VolumeOk, FileAt, ByName, Lengths, OthersSame, HandleOk, NoFile, RootDir, ShortName, FatView, IllFormed;
    ghost var disk, chains := fs.disk, fs.chains;
    if ShortName(name).Some? {
      NoFileIs(fs.g, disk, fs.others, chains, ShortName(name).value);
    }
    var f, n := fs.Create(name);
    if f.None? {
      return Failed;
    }
    if ShortName(name).value[0] != 0xe5 {
      HandleSlot(fs.g, fs.disk, fs.chains, f.value, n);
      ByNameUpdate(fs.g, disk, chains, fs.disk, fs.chains, fs.others, n);
    }
    return Done;
  }

  lemma OpenedFile(g: Geometry, disk: Disk, others: map<nat, seq<nat>>, chains: Chains, f: File, n: nat, name: seq<byte>)
    requires VolumeOk(g, disk, others, chains) && HandleOk(g, disk, chains, f, n) && Name(RootDir(g, disk, chains)[n]) == name
    ensures Slot(n) in chains && name in ByName(g, disk, chains) && FileAt(g, disk, chains, n) == FileView(name, ByName(g, disk, chains)[name])
    ensures |ByName(g, disk, chains)[name]| == f.size
  {
    hide VolumeOk, ByName, FileAt, Dir, Name, Lbas;
    FileIs(g, disk, chains, f, n);
    ByNameAt(g, disk, others, chains, n);
  }

  method ApplyRead(fs: Fat32, name: seq<byte>, offset: nat, capacity: nat) returns (r: Outcome)
    requires fs.Valid()
    modifies fs
    ensures Outcomes(fs.g, fs.others, old(View(fs)), Read(name, offset, capacity), r, fs.disk, fs.chains)
  {
    hide VolumeOk, FileAt, ByName, Lengths, HandleOk, NoFile, RootDir, ShortName, FatView, Content, Lbas, ReadsFrom, Slice;
    var f, n := fs.OpenRoot(name);
    if f.None? {
      if ShortName(name).Some? {
        NoFileIs(fs.g, fs.disk, fs.others, fs.chains, ShortName(name).value);
      }
      return Failed;
    }
    OpenedFile(fs.g, fs.disk, fs.others, fs.chains, f.value, n, ShortName(name).value);
    HandleReads(fs.g, fs.disk, fs.others, fs.chains, f.value, n);
    var data := fs.Read(f.value, offset, capacity, Slot(n));
    if data.None? {
      return Failed;
    }
    return Data(data.value);
  }

  method ApplyWrite(fs: Fat32, name: seq<byte>, offset: nat, buf: seq<byte>) returns (r: Outcome)
    requires fs.Valid()
    modifies fs
    ensures Outcomes(fs.g, fs.others, old(View(fs)), Write(name, offset, buf), r, fs.disk, fs.chains)
  {
    hide VolumeOk, FileAt, ByName, Lengths, OthersSame, HandleOk, NoFile, RootDir, ShortName, FatView, ClusterBytes;
    ghost var disk, chains := fs.disk, fs.chains;
    var f, n := fs.OpenRoot(name);
    if f.None? {
      if ShortName(name).Some? {
        NoFileIs(fs.g, fs.disk, fs.others, fs.chains, ShortName(name).value);
      }
      return Failed;
    }
    OpenedFile(fs.g, disk, fs.others, chains, f.value, n, ShortName(name).value);
    var ok, f' := fs.Write(f.value, offset, buf, n);
    HandleSlot(fs.g, fs.disk, fs.chains, f', n);
    HandleSize(fs.g, fs.disk, fs.others, fs.chains, f', n);
    LengthsAt(fs.g, fs.disk, fs.others, fs.chains, n);
    ByNameUpdate(fs.g, disk, chains, fs.disk, fs.chains, fs.others, n);
    if ok {
      return Done;
    }
    return Failed;
  }

  lemma HandleSlot(g: Geometry, disk: Disk, chains: Chains, f: File, n: nat)
    requires HandleOk(g, disk, chains, f, n)
    ensures Slot(n) in chains
  {
  }

  method ApplyDelete(fs: Fat32, name: seq<byte>) returns (r: Outcome)
    requires fs.Valid()
    modifies fs
    ensures Outcomes(fs.g, fs.others, old(View(fs)), Delete(name), r, fs.disk, fs.chains)
  {
    hide VolumeOk, FileAt, ByName, Lengths, OthersSame, HandleOk, NoFile, RootDir, ShortName, FatView;
    ghost var disk, chains := fs.disk, fs.chains;
    var ok, n := fs.Delete(name);
    if ShortName(name).Some? {
      NoFileIs(fs.g, disk, fs.others, chains, ShortName(name).value);
    }
    if !ok {
      return Failed;
    }
    ByNameMove(fs.g, disk, chains, fs.disk, fs.chains, fs.others, n);
    return Done;
  }

  method ApplyRename(fs: Fat32, name: seq<byte>, newName: seq<byte>) returns (r: Outcome)
    requires fs.Valid()
    modifies fs
    ensures Outcomes(fs.g, fs.others, old(View(fs)), Rename(name, newName), r, fs.disk, fs.chains)
  {
    hide VolumeOk, FileAt, ByName, Lengths, OthersSame, HandleOk, NoFile, RootDir, ShortName, FatView, IllFormed;
    ghost var disk, chains := fs.disk, fs.chains;
    var ok, n := fs.Rename(name, newName);
    if ShortName(name).Some? {
      NoFileIs(fs.g, disk, fs.others, chains, ShortName(name).value);
    }
    if ShortName(newName).Some? {
      NoFileIs(fs.g, disk, fs.others, chains, ShortName(newName).value);
    }
    if !ok {
      return Failed;
    }
    ByNameAt(fs.g, disk, fs.others, chains, n);
    LengthsAt(fs.g, disk, fs.others, chains, n);
    if ShortName(newName).value[0] != 0xe5 || |chains[Slot(n)]| == 0 {
      ByNameMove(fs.g, disk, chains, fs.disk, fs.chains, fs.others, n);
    }
    return Done;
  }

  method Apply(fs: Fat32, op: Op) returns (r: Outcome)
    requires fs.Valid()
    modifies fs
    ensures Outcomes(fs.g, fs.others, old(View(fs)), op, r, fs.disk, fs.chains)
  {
    hide VolumeOk, Outcomes;
    match op
    case Create(name) => r := ApplyCreate(fs, name);
    case Read(name, offset, capacity) => r := ApplyRead(fs, name, offset, capacity);
    case Write(name, offset, buf) => r := ApplyWrite(fs, name, offset, buf);
    case Delete(name) => r := ApplyDelete(fs, name);
    case Rename(name, newName) => r := ApplyRename(fs, name, newName);
  }

  // ----- Runs

  predicate GivesMark(op: Op) {
    match op
    case Create(name) => Marked(name)
    case Rename(_, newName) => Marked(newName)
    case _ => false
  }

  /** Whether the file an operation renames has clusters. */
  method HasClusters(fs: Fat32, op: Op) returns (has: bool)
    requires fs.Valid()
    modifies fs`sector
    ensures op.Rename? && Present(View(fs).files, op.name) ==>
              ShortName(op.name).value in View(fs).clusters && has == (View(fs).clusters[ShortName(op.name).value] > 0)
  {
    hide VolumeOk, FileAt, ByName, Lengths, HandleOk, NoFile, RootDir, ShortName, FatView, Name;
    if !op.Rename? {
      return false;
    }
    var f, n := fs.OpenRoot(op.name);
    if f.None? {
      if ShortName(op.name).Some? {
        NoFileIs(fs.g, fs.disk, fs.others, fs.chains, ShortName(op.name).value);
      }
      return false;
    }
    OpenedFile(fs.g, fs.disk, fs.others, fs.chains, f.value, n, ShortName(op.name).value);
    LengthsAt(fs.g, fs.disk, fs.others, fs.chains, n);
    VolumeHead(fs.g, fs.disk, fs.others, fs.chains, f.value, n);
    return f.value.first >= 2;
  }

  /** One operation, and whether the volume is still well formed. */
  method ApplyOne(fs: Fat32, op: Op) returns (r: Outcome, sound: bool)
    requires fs.Valid()
    modifies fs
    ensures Outcomes(fs.g, fs.others, old(View(fs)), op, r, fs.disk, fs.chains)
    ensures sound == !Leaks(old(View(fs)), op) && (sound ==> fs.Valid())
  {
    hide VolumeOk, ByName, Lengths, RootDir, ShortName, FatView, IllFormed;
    var has := HasClusters(fs, op);
    r := Apply(fs, op);
    sound := !(r.Done? && GivesMark(op) && (op.Create? || has));
  }

  /**
   * A run of any operations. As long as none of them leaks, the volume stays well formed and each step means what the
   * operation means on the map of files. The run ends early exactly at the first operation that leaks.
   */
  method Run(fs: Fat32, ops: seq<Op>) returns (rs: seq<Outcome>, sound: bool, ghost trace: seq<Snapshot>)
    requires fs.Valid()
    modifies fs
    ensures |rs| <= |ops| && |trace| == (if sound then |rs| + 1 else |rs|) && |trace| > 0 && trace[0] == old(View(fs))
    ensures forall i :: 0 <= i < |trace| - 1 ==> !Leaks(trace[i], ops[i]) && Meaning(trace[i], ops[i], rs[i], trace[i + 1])
    ensures sound ==> fs.Valid() && |rs| == |ops| && trace[|ops|] == View(fs)
    ensures !sound ==> |rs| > 0 && Leaks(trace[|rs| - 1], ops[|rs| - 1]) && rs[|rs| - 1] == Done && IllFormed(fs.g, fs.disk, fs.others)
  {
    hide VolumeOk, Meaning, Leaks, ByName, Lengths, IllFormed, Look;
    rs, sound, trace := [], true, [View(fs)];
    for k := 0 to |ops|
      invariant sound && fs.Valid() && |rs| == k && |trace| == k + 1 && trace[0] == old(View(fs)) && trace[k] == View(fs)
      invariant forall i :: 0 <= i < k ==> !Leaks(trace[i], ops[i]) && Meaning(trace[i], ops[i], rs[i], trace[i + 1])
    {
      var r;
      r, sound := ApplyOne(fs, ops[k]);
      rs := rs + [r];
      if !sound {
        return;
      }
      trace := trace + [View(fs)];
    }
  }
}
