/** The node table and the open-file table. */
module OpenFileSpec {
  import opened Basics
  import opened VfsPath

  const MAX_NODES: nat := 24
  const MAX_FDS: nat := 8
  const MAX_FILES: nat := 128

  datatype Mode = ReadOnly | WriteOnly | ReadWrite

  /** A file the table knows: its normal path and which ways it can be used. */
  datatype Node = Vacant | Node(path: string, readable: bool, writable: bool)

  /** A slot of the open-file table. */
  datatype File = Unused | File(node: nat, offset: nat, mode: Mode, owner: nat, fd: nat)

  datatype Vfs = Vfs(nodes: seq<Node>, count: nat, files: seq<File>)

  // ----- The invariant

  ghost predicate NodesOk(v: Vfs) {
    && |v.nodes| == MAX_NODES && v.count <= MAX_NODES
    && (forall i :: v.count <= i < MAX_NODES ==> v.nodes[i].Vacant?)
    && (forall i, j :: 0 <= i < j < MAX_NODES && v.nodes[i].Node? && v.nodes[j].Node? ==> v.nodes[i].path != v.nodes[j].path)
  }

  /** Slot `i` is unused, or open on a known node: the one called `names[i]`. */
  ghost predicate FileOk(v: Vfs, names: seq<string>, i: nat)
    requires |v.files| == |names| == MAX_FILES && i < MAX_FILES
  {
    v.files[i].File? ==>
      v.files[i].fd < MAX_FDS && v.files[i].node < |v.nodes|
      && v.nodes[v.files[i].node].Node? && v.nodes[v.files[i].node].path == names[i]
  }

  /** A process has each of its descriptors once. */
  ghost predicate FdsUnique(files: seq<File>) {
    forall i, j :: 0 <= i < j < |files| && files[i].File? && files[j].File? ==>
      files[i].owner != files[j].owner || files[i].fd != files[j].fd
  }

  /** `names` are the paths the handles were opened on. */
  ghost predicate VfsOk(v: Vfs, names: seq<string>) {
    && NodesOk(v) && |v.files| == |names| == MAX_FILES && FdsUnique(v.files)
    && forall i: nat :: i < MAX_FILES ==> FileOk(v, names, i)
  }

  // ----- Dropping handles

  predicate Alive(pids: set<nat>, pid: nat) {
    pid == 0 || pid in pids
  }

  /** `vfs_reap_dead_owners`. */
  function Reap(files: seq<File>, pids: set<nat>): (r: seq<File>)
    ensures |r| == |files|
  {
    seq(|files|, i requires 0 <= i < |files| => if files[i].File? && !Alive(pids, files[i].owner) then Unused else files[i])
  }

  /** `vfs_drop_open_files_for_node`. */
  function DropNode(files: seq<File>, node: nat): (r: seq<File>)
    ensures |r| == |files|
  {
    seq(|files|, i requires 0 <= i < |files| => if files[i].File? && files[i].node == node then Unused else files[i])
  }

  /** `vfs_close_all_for_pid`. */
  function DropOwner(files: seq<File>, pid: nat): (r: seq<File>)
    ensures |r| == |files|
  {
    seq(|files|, i requires 0 <= i < |files| => if files[i].File? && files[i].owner == pid then Unused else files[i])
  }

  /** How many handles a process has. */
  function HeldBy(files: seq<File>, pid: nat): nat {
    if |files| == 0 then 0
    else HeldBy(files[..|files| - 1], pid) + if files[|files| - 1].File? && files[|files| - 1].owner == pid then 1 else 0
  }

  /** Each slot is as it was, or unused. */
  ghost predicate OnlyDrops(files: seq<File>, files': seq<File>) {
    |files'| == |files| && forall i :: 0 <= i < |files| ==> files'[i] == files[i] || files'[i] == Unused
  }

  lemma DropsKeep(v: Vfs, names: seq<string>, files': seq<File>)
    requires VfsOk(v, names) && OnlyDrops(v.files, files')
    ensures VfsOk(v.(files := files'), names)
  {
    var v' := v.(files := files');
    forall i: nat | i < MAX_FILES
      ensures FileOk(v', names, i)
    {
      assert FileOk(v, names, i);
    }
    assert FdsUnique(files');
  }

  // ----- Looking up

  function FindNode(nodes: seq<Node>, path: string, k: nat, count: nat): (r: Option<nat>)
    requires count <= |nodes|
    ensures r.Some? ==> k <= r.value < count && nodes[r.value].Node? && nodes[r.value].path == path
    ensures r.None? ==> forall i :: k <= i < count && nodes[i].Node? ==> nodes[i].path != path
    decreases count - k
  {
    if k >= count then None
    else if nodes[k].Node? && nodes[k].path == path then Some(k)
    else FindNode(nodes, path, k + 1, count)
  }

  predicate FdInUse(files: seq<File>, owner: nat, fd: nat, k: nat)
    ensures FdInUse(files, owner, fd, k) <==> exists i :: k <= i < |files| && files[i].File? && files[i].owner == owner && files[i].fd == fd
    decreases |files| - k
  {
    k < |files| && ((files[k].File? && files[k].owner == owner && files[k].fd == fd) || FdInUse(files, owner, fd, k + 1))
  }

  /** The lowest descriptor the owner does not use. */
  function FreeFd(files: seq<File>, owner: nat, fd: nat): (r: Option<nat>)
    ensures r.Some? ==> fd <= r.value < MAX_FDS && !FdInUse(files, owner, r.value, 0) && forall k :: fd <= k < r.value ==> FdInUse(files, owner, k, 0)
    ensures r.None? ==> forall k :: fd <= k < MAX_FDS ==> FdInUse(files, owner, k, 0)
    decreases MAX_FDS - fd
  {
    if fd >= MAX_FDS then None else if !FdInUse(files, owner, fd, 0) then Some(fd) else FreeFd(files, owner, fd + 1)
  }

  function FreeSlot(files: seq<File>, k: nat): (r: Option<nat>)
    ensures r.Some? ==> k <= r.value < |files| && files[r.value].Unused?
    ensures r.None? ==> forall i :: k <= i < |files| ==> files[i].File?
    decreases |files| - k
  {
    if k >= |files| then None else if files[k].Unused? then Some(k) else FreeSlot(files, k + 1)
  }

  /** The slot behind a descriptor. */
  function FdSlot(files: seq<File>, owner: nat, fd: int, k: nat): (r: Option<nat>)
    ensures r.Some? ==> k <= r.value < |files| && files[r.value].File? && files[r.value].owner == owner && files[r.value].fd == fd
    ensures r.None? ==> forall i :: k <= i < |files| && files[i].File? && files[i].owner == owner ==> files[i].fd != fd
    decreases |files| - k
  {
    if k >= |files| then None
    else if files[k].File? && files[k].owner == owner && files[k].fd == fd then Some(k)
    else FdSlot(files, owner, fd, k + 1)
  }

  // ----- Opening

  predicate Allows(n: Node, mode: Mode)
    requires n.Node?
  {
    (mode.WriteOnly? || n.readable) && (mode.ReadOnly? || n.writable)
  }

  /** `vfs_open_flags` on a path whose node, if any, is in the table: the descriptor and the slot. */
  function Open(v: Vfs, pids: set<nat>, owner: nat, path: string, mode: Mode): (r: (Vfs, Option<(nat, nat)>))
    requires v.count <= |v.nodes|
  {
    match Normalize(path)
    case None => (v, None)
    case Some(canonical) =>
      match FindNode(v.nodes, canonical, 0, v.count)
      case None => (v, None)
      case Some(node) =>
        if !Allows(v.nodes[node], mode) then (v, None)
        else
          var files := Reap(v.files, pids);
          match (FreeFd(files, owner, 0), FreeSlot(files, 0))
          case (Some(fd), Some(slot)) => (v.(files := files[slot := File(node, 0, mode, owner, fd)]), Some((fd, slot)))
          case _ => (v.(files := files), None)
  }

  lemma ReapDrops(files: seq<File>, pids: set<nat>)
    ensures OnlyDrops(files, Reap(files, pids))
  {
  }

  /**
   * A successful open gives the caller a new descriptor on the normal form of the path; whatever happens,
   * other handles stay, but for those of dead processes.
   */
  lemma OpenOk(v: Vfs, names: seq<string>, pids: set<nat>, owner: nat, path: string, mode: Mode)
    requires VfsOk(v, names)
    ensures var (v', r) := Open(v, pids, owner, path, mode);
            match r
            case Some((fd, slot)) =>
              && Normalize(path).Some? && slot < MAX_FILES && fd < MAX_FDS
              && VfsOk(v', names[slot := Normalize(path).value])
              && v'.files[slot].File? && v'.files[slot].owner == owner && v'.files[slot].fd == fd && v'.files[slot].offset == 0
              && v'.files[slot].mode == mode && Serves(v, v'.files[slot].node, Normalize(path).value, mode)
              && (v.files[slot].Unused? || !Alive(pids, v.files[slot].owner))
              && OnlyDrops(v.files[slot := Unused], v'.files[slot := Unused])
            case None => VfsOk(v', names) && OnlyDrops(v.files, v'.files)
    ensures Open(v, pids, owner, path, mode).0.nodes == v.nodes
    ensures forall i :: 0 <= i < MAX_FILES && v.files[i].File? && Alive(pids, v.files[i].owner) ==>
              Open(v, pids, owner, path, mode).0.files[i] == v.files[i]
  {
    hide Normalize;
    var (v', r) := Open(v, pids, owner, path, mode);
    var files := Reap(v.files, pids);
    ReapDrops(v.files, pids);
    DropsKeep(v, names, files);
    if r.Some? {
      var (fd, slot) := r.value;
      var names' := names[slot := Normalize(path).value];
      OpenUnique(files, owner, fd, slot, v'.files[slot]);
      forall i: nat | i < MAX_FILES
        ensures FileOk(v', names', i)
      {
        assert FileOk(v.(files := files), names, i);
      }
    }
  }

  /** Node `n` is the file of that path, and it may be used that way. */
  predicate Serves(v: Vfs, n: nat, path: string, mode: Mode) {
    && n < |v.nodes| && v.nodes[n].Node? && v.nodes[n].path == path
    && (mode == ReadOnly || mode == ReadWrite ==> v.nodes[n].readable)
    && (mode == WriteOnly || mode == ReadWrite ==> v.nodes[n].writable)
  }

  /** Slot `i` is free, or will be once dead owners are reaped. */
  predicate Spare(v: Vfs, pids: set<nat>, i: nat) {
    i < |v.files| && (v.files[i].Unused? || !Alive(pids, v.files[i].owner))
  }

  predicate Unbound(v: Vfs, owner: nat, fd: nat) {
    fd < MAX_FDS && !FdInUse(v.files, owner, fd, 0)
  }

  /** An open succeeds exactly when a node serves it and a descriptor and a slot are left, and takes the lowest descriptor. */
  lemma OpenWhen(v: Vfs, names: seq<string>, pids: set<nat>, owner: nat, path: string, mode: Mode)
    requires VfsOk(v, names) && Alive(pids, owner)
    ensures Open(v, pids, owner, path, mode).1.Some? <==>
              && Normalize(path).Some? && (exists n: nat :: Serves(v, n, Normalize(path).value, mode))
              && (exists fd: nat :: Unbound(v, owner, fd)) && (exists i: nat :: Spare(v, pids, i))
    ensures Open(v, pids, owner, path, mode).1.Some? ==>
              var (fd, slot) := Open(v, pids, owner, path, mode).1.value;
              Unbound(v, owner, fd) && Spare(v, pids, slot) && forall k: nat :: k < fd ==> !Unbound(v, owner, k)
  {
    hide Normalize;
    var files := Reap(v.files, pids);
    forall fd: nat
      ensures Unbound(v, owner, fd) <==> fd < MAX_FDS && !FdInUse(files, owner, fd, 0)
    {
      SameFds(v.files, pids, owner, fd);
    }
    forall i: nat
      ensures Spare(v, pids, i) <==> i < MAX_FILES && files[i].Unused?
    {
    }
    var fd, slot := FreeFd(files, owner, 0), FreeSlot(files, 0);
    assert fd.Some? ==> Unbound(v, owner, fd.value);
    assert slot.Some? ==> Spare(v, pids, slot.value);
    if Normalize(path).Some? {
      var n := FindNode(v.nodes, Normalize(path).value, 0, v.count);
      assert n.Some? && Allows(v.nodes[n.value], mode) ==> Serves(v, n.value, Normalize(path).value, mode);
    }
  }

  /** Reaping the dead takes no descriptor from the living. */
  lemma SameFds(files: seq<File>, pids: set<nat>, owner: nat, fd: nat)
    requires Alive(pids, owner)
    ensures FdInUse(Reap(files, pids), owner, fd, 0) == FdInUse(files, owner, fd, 0)
  {
    var after := Reap(files, pids);
    if FdInUse(files, owner, fd, 0) {
      var i :| 0 <= i < |files| && files[i].File? && files[i].owner == owner && files[i].fd == fd;
      assert after[i] == files[i];
    }
  }

  lemma OpenUnique(files: seq<File>, owner: nat, fd: nat, slot: nat, f: File)
    requires FdsUnique(files) && slot < |files| && f.File? && f.owner == owner && f.fd == fd && !FdInUse(files, owner, fd, 0)
    ensures FdsUnique(files[slot := f])
  {
  }

  // ----- Using a descriptor

  datatype Use = Close | Advance(n: nat) | Seek(offset: nat)

  function Used(f: File, use: Use): File
    requires f.File?
  {
    match use
    case Close => Unused
    case Advance(n) => f.(offset := f.offset + n)
    case Seek(offset) => f.(offset := offset)
  }

  /** An operation on a descriptor: dead owners are reaped, then the handle is found and changed. */
  function Apply(v: Vfs, pids: set<nat>, owner: nat, fd: int, use: Use): (Vfs, bool) {
    if fd < 0 || fd >= MAX_FDS then (v, false)
    else
      var files := Reap(v.files, pids);
      match FdSlot(files, owner, fd, 0)
      case None => (v.(files := files), false)
      case Some(i) => (v.(files := files[i := Used(files[i], use)]), true)
  }

  /** Using a descriptor changes one handle of the caller, and beyond that only drops those of dead processes. */
  lemma ApplyOk(v: Vfs, names: seq<string>, pids: set<nat>, owner: nat, fd: int, use: Use)
    requires VfsOk(v, names)
    ensures VfsOk(Apply(v, pids, owner, fd, use).0, names)
    ensures var (v', ok) := Apply(v, pids, owner, fd, use);
            forall i :: 0 <= i < MAX_FILES && v.files[i].File? && Alive(pids, v.files[i].owner) ==>
              if ok && v.files[i].owner == owner && v.files[i].fd == fd then
                match use
                case Close => v'.files[i] == Unused
                case Advance(n) => v'.files[i] == v.files[i].(offset := v.files[i].offset + n)
                case Seek(offset) => v'.files[i] == v.files[i].(offset := offset)
              else v'.files[i] == v.files[i]
    ensures Alive(pids, owner) ==>
              (Apply(v, pids, owner, fd, use).1 <==> exists i :: 0 <= i < MAX_FILES && v.files[i].File? && v.files[i].owner == owner && v.files[i].fd == fd)
    ensures forall i :: 0 <= i < MAX_FILES && v.files[i].Unused? ==> Apply(v, pids, owner, fd, use).0.files[i].Unused?
  {
    var files := Reap(v.files, pids);
    ReapDrops(v.files, pids);
    DropsKeep(v, names, files);
    var (v', ok) := Apply(v, pids, owner, fd, use);
    if ok {
      var k := FdSlot(files, owner, fd, 0).value;
      UsedUnique(files, k, use);
      forall i: nat | i < MAX_FILES
        ensures FileOk(v', names, i)
      {
        assert FileOk(v.(files := files), names, i);
      }
    } else {
      forall i | 0 <= i < MAX_FILES && v.files[i].File? && v.files[i].owner == owner && v.files[i].fd == fd
        ensures !Alive(pids, owner)
      {
        assert FileOk(v, names, i);
      }
    }
  }

  lemma UsedUnique(files: seq<File>, k: nat, use: Use)
    requires FdsUnique(files) && k < |files| && files[k].File?
    ensures FdsUnique(files[k := Used(files[k], use)])
  {
  }

  // ----- Mounting

  function FreeNode(nodes: seq<Node>, k: nat): (r: Option<nat>)
    ensures r.Some? ==> k <= r.value < |nodes| && nodes[r.value].Vacant?
    ensures r.None? ==> forall i :: k <= i < |nodes| ==> nodes[i].Node?
    decreases |nodes| - k
  {
    if k >= |nodes| then None else if nodes[k].Vacant? then Some(k) else FreeNode(nodes, k + 1)
  }

  /** A node enters the lowest free slot of the table under its normal path. */
  function MountOne(v: Vfs, n: Node): Vfs
    requires v.count <= |v.nodes|
  {
    match FreeNode(v.nodes, 0)
    case None => v
    case Some(i) => v.(nodes := v.nodes[i := n], count := if i >= v.count then i + 1 else v.count)
  }

  lemma MountOk(v: Vfs, names: seq<string>, n: Node)
    requires VfsOk(v, names) && n.Node? && FindNode(v.nodes, n.path, 0, v.count).None?
    ensures VfsOk(MountOne(v, n), names)
  {
    var v' := MountOne(v, n);
    forall i: nat | i < MAX_FILES
      ensures FileOk(v', names, i)
    {
      assert FileOk(v, names, i);
    }
  }

  /** The nodes as they will stand in the table, if every one of them may be mounted. */
  predicate Mountable(v: Vfs, ns: seq<Node>)
    requires v.count <= |v.nodes|
  {
    |ns| > 0 && |ns| <= Vacancies(v.nodes) && forall i :: 0 <= i < |ns| ==> MountableAt(v, ns, i)
  }

  predicate MountableAt(v: Vfs, ns: seq<Node>, i: nat)
    requires v.count <= |v.nodes| && i < |ns|
  {
    && ns[i].Node? && Normalize(ns[i].path).Some? && (ns[i].readable || ns[i].writable)
    && FindNode(v.nodes, Normalize(ns[i].path).value, 0, v.count).None?
    && forall j :: 0 <= j < i && ns[j].Node? ==> Normalize(ns[j].path) != Normalize(ns[i].path)
  }

  function Vacancies(nodes: seq<Node>): nat {
    if |nodes| == 0 then 0 else Vacancies(nodes[..|nodes| - 1]) + if nodes[|nodes| - 1].Vacant? then 1 else 0
  }

  function Canonical(n: Node): Node {
    if n.Node? && Normalize(n.path).Some? then n.(path := Normalize(n.path).value) else n
  }

  function MountFrom(v: Vfs, ns: seq<Node>, i: nat): (v': Vfs)
    requires v.count <= |v.nodes| && i <= |ns|
    ensures v'.count <= |v'.nodes| && |v'.nodes| == |v.nodes| && v'.files == v.files
    decreases |ns| - i
  {
    if i == |ns| then v else MountFrom(MountOne(v, Canonical(ns[i])), ns, i + 1)
  }

  /** `vfs_mount_static`: all the nodes or none. */
  function Mount(v: Vfs, ns: seq<Node>): (Vfs, bool)
    requires v.count <= |v.nodes|
  {
    if Mountable(v, ns) then (MountFrom(v, ns, 0), true) else (v, false)
  }

  /** The nodes from `i` on are still to be mounted and clash with nothing mounted yet. */
  ghost predicate Pending(v: Vfs, ns: seq<Node>, i: nat)
    requires v.count <= |v.nodes|
  {
    && (forall k :: i <= k < |ns| ==> ns[k].Node? && Normalize(ns[k].path).Some? && FindNode(v.nodes, Normalize(ns[k].path).value, 0, v.count).None?)
    && (forall j, k :: i <= j < k < |ns| ==> Normalize(ns[j].path) != Normalize(ns[k].path))
  }

  lemma {:induction false} MountFromOk(v: Vfs, names: seq<string>, ns: seq<Node>, i: nat)
    requires VfsOk(v, names) && i <= |ns| && (forall k :: i <= k < |ns| ==> ns[k].Node?) && Pending(v, ns, i)
    ensures VfsOk(MountFrom(v, ns, i), names)
    decreases |ns| - i
  {
    hide Normalize;
    if i < |ns| {
      var n := Canonical(ns[i]);
      MountOk(v, names, n);
      var v' := MountOne(v, n);
      forall k | i + 1 <= k < |ns|
        ensures FindNode(v'.nodes, Normalize(ns[k].path).value, 0, v'.count).None?
      {
        MountKeepsAbsent(v, n, Normalize(ns[k].path).value);
      }
      MountFromOk(v', names, ns, i + 1);
    }
  }

  lemma MountKeepsAbsent(v: Vfs, n: Node, path: string)
    requires NodesOk(v) && n.Node? && n.path != path && FindNode(v.nodes, path, 0, v.count).None?
    ensures FindNode(MountOne(v, n).nodes, path, 0, MountOne(v, n).count).None?
  {
  }

  /** Mounting nodes, in slots given up earlier or not, leaves every handle on the path it was opened on. */
  lemma MountStaticOk(v: Vfs, names: seq<string>, ns: seq<Node>)
    requires VfsOk(v, names)
    ensures VfsOk(Mount(v, ns).0, names) && Mount(v, ns).0.files == v.files
  {
    hide Normalize;
    if Mountable(v, ns) {
      forall k | 0 <= k < |ns|
        ensures ns[k].Node? && Normalize(ns[k].path).Some? && FindNode(v.nodes, Normalize(ns[k].path).value, 0, v.count).None?
      {
        assert MountableAt(v, ns, k);
      }
      forall j, k | 0 <= j < k < |ns|
        ensures Normalize(ns[j].path) != Normalize(ns[k].path)
      {
        assert MountableAt(v, ns, k);
      }
      MountFromOk(v, names, ns, 0);
    }
  }

  /** The nodes the table knows. */
  function Known(nodes: seq<Node>): set<Node> {
    set i | 0 <= i < |nodes| && nodes[i].Node? :: nodes[i]
  }

  /** The nodes asked for, under their normal paths, from the `i`-th on. */
  function Wanted(ns: seq<Node>, i: nat): set<Node>
    requires i <= |ns|
    decreases |ns| - i
  {
    if i == |ns| then {} else {Canonical(ns[i])} + Wanted(ns, i + 1)
  }

  lemma {:induction false} VacancyAt(nodes: seq<Node>, i: nat)
    requires i < |nodes| && nodes[i].Vacant?
    ensures forall n: Node :: n.Node? ==> Vacancies(nodes[i := n]) == Vacancies(nodes) - 1
    decreases |nodes|
  {
    var m := |nodes| - 1;
    forall n: Node | n.Node?
      ensures Vacancies(nodes[i := n]) == Vacancies(nodes) - 1
    {
      if i < m {
        VacancyAt(nodes[..m], i);
        assert nodes[i := n][..m] == nodes[..m][i := n];
      } else {
        assert nodes[i := n][..m] == nodes[..m];
      }
    }
  }

  lemma {:induction false} NoVacancy(nodes: seq<Node>)
    requires forall i :: 0 <= i < |nodes| ==> nodes[i].Node?
    ensures Vacancies(nodes) == 0
    decreases |nodes|
  {
    if |nodes| > 0 {
      NoVacancy(nodes[..|nodes| - 1]);
    }
  }

  /** One node entered: a slot was found for it, and it is known besides those known before. */
  lemma MountOneMeans(v: Vfs, n: Node)
    requires v.count <= |v.nodes| && n.Node? && Vacancies(v.nodes) > 0
    ensures MountOne(v, n).count <= |MountOne(v, n).nodes|
    ensures Known(MountOne(v, n).nodes) == Known(v.nodes) + {n} && Vacancies(MountOne(v, n).nodes) == Vacancies(v.nodes) - 1
  {
    var r := FreeNode(v.nodes, 0);
    if r.None? {
      NoVacancy(v.nodes);
    } else {
      var i := r.value;
      VacancyAt(v.nodes, i);
      var nodes' := v.nodes[i := n];
      forall x: Node
        ensures x in Known(nodes') <==> x in Known(v.nodes) + {n}
      {
        if x in Known(v.nodes) {
          var j :| 0 <= j < |v.nodes| && v.nodes[j].Node? && v.nodes[j] == x;
          assert nodes'[j] == x;
        }
        assert nodes'[i] == n;
      }
    }
  }

  lemma {:induction false} MountFromMeans(v: Vfs, ns: seq<Node>, i: nat)
    requires v.count <= |v.nodes| && i <= |ns| && |ns| - i <= Vacancies(v.nodes) && forall k :: i <= k < |ns| ==> ns[k].Node?
    ensures Known(MountFrom(v, ns, i).nodes) == Known(v.nodes) + Wanted(ns, i)
    decreases |ns| - i
  {
    hide Normalize, Known, Vacancies, MountOne;
    if i < |ns| {
      MountOneMeans(v, Canonical(ns[i]));
      MountFromMeans(MountOne(v, Canonical(ns[i])), ns, i + 1);
    }
  }

  /** Mounting makes known all the nodes asked for, or none of them: once the checks pass no step can fail. */
  lemma MountMeans(v: Vfs, ns: seq<Node>)
    requires v.count <= |v.nodes|
    ensures var (v', ok) := Mount(v, ns);
            Known(v'.nodes) == if ok then Known(v.nodes) + Wanted(ns, 0) else Known(v.nodes)
  {
    hide Normalize, Known, Vacancies, MountFrom;
    if Mountable(v, ns) {
      forall k | 0 <= k < |ns|
        ensures ns[k].Node?
      {
        assert MountableAt(v, ns, k);
      }
      MountFromMeans(v, ns, 0);
    }
  }

  /** `vfs_unmount_static`: the handles on the node go before its slot is given up. */
  function Unmount(v: Vfs, path: string): (Vfs, bool)
    requires v.count <= |v.nodes|
  {
    match Normalize(path)
    case None => (v, false)
    case Some(canonical) =>
      match FindNode(v.nodes, canonical, 0, v.count)
      case None => (v, false)
      case Some(i) => (v.(files := DropNode(v.files, i), nodes := v.nodes[i := Vacant]), true)
  }

  /** Unmounting drops exactly the handles opened on that path, whoever owns them. */
  lemma UnmountOk(v: Vfs, names: seq<string>, path: string)
    requires VfsOk(v, names)
    ensures VfsOk(Unmount(v, path).0, names)
    ensures var (v', ok) := Unmount(v, path);
            && (ok ==> Normalize(path).Some?)
            && forall i :: 0 <= i < MAX_FILES && v.files[i].File? ==>
                 v'.files[i] == if ok && names[i] == Normalize(path).value then Unused else v.files[i]
  {
    hide Normalize;
    var (v', ok) := Unmount(v, path);
    if ok {
      var k := FindNode(v.nodes, Normalize(path).value, 0, v.count).value;
      assert OnlyDrops(v.files, v'.files);
      DropsKeep(v, names, v'.files);
      forall i: nat | i < MAX_FILES
        ensures FileOk(v', names, i)
        ensures v.files[i].File? ==> v'.files[i] == if names[i] == Normalize(path).value then Unused else v.files[i]
      {
        assert FileOk(v, names, i);
      }
    }
  }

  /** Unmounting succeeds exactly on the path of a known node, and makes that node, and no other, unknown. */
  lemma UnmountMeans(v: Vfs, path: string)
    requires NodesOk(v)
    ensures Unmount(v, path).1 <==> Normalize(path).Some? && exists n :: n in Known(v.nodes) && n.path == Normalize(path).value
    ensures var (v', ok) := Unmount(v, path);
            forall n :: n in Known(v'.nodes) <==> n in Known(v.nodes) && !(ok && n.path == Normalize(path).value)
  {
    hide Normalize;
    if Normalize(path).Some? {
      var canonical := Normalize(path).value;
      var r := FindNode(v.nodes, canonical, 0, v.count);
      if r.Some? {
        assert v.nodes[r.value] in Known(v.nodes);
        KnownWithout(v, r.value);
      }
    }
  }

  lemma KnownWithout(v: Vfs, k: nat)
    requires NodesOk(v) && k < |v.nodes| && v.nodes[k].Node?
    ensures forall n :: n in Known(v.nodes[k := Vacant]) <==> n in Known(v.nodes) && n.path != v.nodes[k].path
  {
    var nodes' := v.nodes[k := Vacant];
    forall n | n in Known(v.nodes) && n.path != v.nodes[k].path
      ensures n in Known(nodes')
    {
      var j :| 0 <= j < |v.nodes| && v.nodes[j].Node? && v.nodes[j] == n;
      assert nodes'[j] == n;
    }
    forall n | n in Known(nodes')
      ensures n in Known(v.nodes) && n.path != v.nodes[k].path
    {
      var j :| 0 <= j < |nodes'| && nodes'[j].Node? && nodes'[j] == n;
      assert v.nodes[j] == n;
    }
  }

  // ----- Runs

  datatype Event =
    | Opens(owner: nat, path: string, mode: Mode)
    | Uses(owner: nat, fd: int, use: Use)
    | Mounts(nodes: seq<Node>)
    | Unmounts(path: string)
    | Spawns(pid: nat)
    | Exits(pid: nat)

  /** The tables, the paths the handles were opened on, and the processes alive. */
  datatype World = World(v: Vfs, names: seq<string>, pids: set<nat>)

  ghost predicate WorldOk(w: World) {
    VfsOk(w.v, w.names)
  }

  ghost function Step(w: World, e: Event): World
    requires WorldOk(w)
  {
    match e
    case Opens(owner, path, mode) =>
      var (v, r) := Open(w.v, w.pids, owner, path, mode);
      if r.Some? && r.value.1 < |w.names| && Normalize(path).Some? then World(v, w.names[r.value.1 := Normalize(path).value], w.pids)
      else w.(v := v)
    case Uses(owner, fd, use) => w.(v := Apply(w.v, w.pids, owner, fd, use).0)
    case Mounts(nodes) => w.(v := Mount(w.v, nodes).0)
    case Unmounts(path) => w.(v := Unmount(w.v, path).0)
    case Spawns(pid) => w.(pids := w.pids + {pid})
    case Exits(pid) => w.(v := w.v.(files := DropOwner(w.v.files, pid)), pids := w.pids - {pid})
  }

  lemma StepOk(w: World, e: Event)
    requires WorldOk(w)
    ensures WorldOk(Step(w, e))
  {
    hide FileOk, NodesOk, FdsUnique, Open, Apply, Mount, Unmount, Normalize;
    match e
    case Opens(owner, path, mode) => OpenOk(w.v, w.names, w.pids, owner, path, mode);
    case Uses(owner, fd, use) => ApplyOk(w.v, w.names, w.pids, owner, fd, use);
    case Mounts(nodes) => MountStaticOk(w.v, w.names, nodes);
    case Unmounts(path) => UnmountOk(w.v, w.names, path);
    case Spawns(pid) =>
    case Exits(pid) => DropsKeep(w.v, w.names, DropOwner(w.v.files, pid));
  }

  ghost function Run(w: World, events: seq<Event>): World
    requires WorldOk(w)
    decreases |events|
  {
    if |events| == 0 then w
    else
      StepOk(w, events[0]);
      Run(Step(w, events[0]), events[1..])
  }

  /** In every reachable state descriptors are unique per process and each handle designates the path it was opened on. */
  lemma {:induction false} RunOk(w: World, events: seq<Event>)
    requires WorldOk(w)
    ensures WorldOk(Run(w, events))
    decreases |events|
  {
    if |events| > 0 {
      StepOk(w, events[0]);
      hide WorldOk, Step;
      RunOk(Step(w, events[0]), events[1..]);
    }
  }

  /** What one process does with descriptors changes no handle of another process that is alive. */
  lemma Isolated(w: World, e: Event, i: nat)
    requires WorldOk(w) && (e.Opens? || e.Uses?) && i < MAX_FILES
    requires w.v.files[i].File? && w.v.files[i].owner != e.owner && Alive(w.pids, w.v.files[i].owner)
    ensures Step(w, e).v.files[i] == w.v.files[i] && Step(w, e).names[i] == w.names[i]
    ensures Step(w, e).v.nodes == w.v.nodes
  {
    match e
    case Opens(owner, path, mode) =>
      hide Open, Normalize;
      OpenOk(w.v, w.names, w.pids, owner, path, mode);
    case Uses(owner, fd, use) =>
      ApplyOk(w.v, w.names, w.pids, owner, fd, use);
  }
}
