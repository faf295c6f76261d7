/** The virtual file system's tables in memory. */
module OpenFiles {
  import opened Basics
  import opened VfsPath
  import opened OpenFileSpec

  class FileTable {
    const nodes: array<Node>
    const files: array<File>
    var count: nat

    ghost predicate Sized()
      reads this
    {
      nodes.Length == MAX_NODES && files.Length == MAX_FILES && count <= MAX_NODES
    }

    ghost function State(): Vfs
      reads this, nodes, files
    {
      Vfs(nodes[..], count, files[..])
    }

    constructor ()
      ensures Sized() && fresh(nodes) && fresh(files)
      ensures forall names :: |names| == MAX_FILES ==> VfsOk(State(), names)
    {
      nodes, files, count := new Node[MAX_NODES](_ => Vacant), new File[MAX_FILES](_ => Unused), 0;
    }

    /** Clears every handle whose owner is gone. */
    method ReapDeadOwners(pids: set<nat>)
      requires Sized()
      modifies files
      ensures files[..] == Reap(old(files[..]), pids)
    {
      for i := 0 to MAX_FILES
        invariant forall k :: 0 <= k < i ==> files[k] == Reap(old(files[..]), pids)[k]
        invariant forall k :: i <= k < MAX_FILES ==> files[k] == old(files[..])[k]
      {
        if files[i].File? && !Alive(pids, files[i].owner) {
          files[i] := Unused;
        }
      }
    }

    method DropOpenFiles(node: nat)
      requires Sized()
      modifies files
      ensures files[..] == DropNode(old(files[..]), node)
    {
      for i := 0 to MAX_FILES
        invariant forall k :: 0 <= k < i ==> files[k] == DropNode(old(files[..]), node)[k]
        invariant forall k :: i <= k < MAX_FILES ==> files[k] == old(files[..])[k]
      {
        if files[i].File? && files[i].node == node {
          files[i] := Unused;
        }
      }
    }

    method CloseAllForPid(pid: nat) returns (closed: nat)
      requires Sized()
      modifies files
      ensures files[..] == DropOwner(old(files[..]), pid) && closed == HeldBy(old(files[..]), pid)
    {
      closed := 0;
      ghost var was := files[..];
      for i := 0 to MAX_FILES
        invariant closed == HeldBy(was[..i], pid)
        invariant forall k :: 0 <= k < i ==> files[k] == DropOwner(old(files[..]), pid)[k]
        invariant forall k :: i <= k < MAX_FILES ==> files[k] == old(files[..])[k]
      {
        assert was[..i + 1][..i] == was[..i];
        if files[i].File? && files[i].owner == pid {
          files[i] := Unused;
          closed := closed + 1;
        }
      }
      assert was[..MAX_FILES] == was;
    }

    method FindCanonical(path: string) returns (r: Option<nat>)
      requires Sized()
      ensures r == FindNode(nodes[..], path, 0, count)
    {
      var i := 0;
      while i < count
        invariant 0 <= i <= count && FindNode(nodes[..], path, 0, count) == FindNode(nodes[..], path, i, count)
      {
        if nodes[i].Node? && nodes[i].path == path {
          return Some(i);
        }
        i := i + 1;
      }
      return None;
    }

    method LocalFdInUse(owner: nat, fd: nat) returns (r: bool)
      requires Sized()
      ensures r == FdInUse(files[..], owner, fd, 0)
    {
      var i := 0;
      while i < MAX_FILES
        invariant 0 <= i <= MAX_FILES && FdInUse(files[..], owner, fd, 0) == FdInUse(files[..], owner, fd, i)
      {
        if files[i].File? && files[i].owner == owner && files[i].fd == fd {
          return true;
        }
        i := i + 1;
      }
      return false;
    }

    method FindFreeLocalFd(owner: nat) returns (r: Option<nat>)
      requires Sized()
      ensures r == FreeFd(files[..], owner, 0)
    {
      var fd := 0;
      while fd < MAX_FDS
        invariant 0 <= fd <= MAX_FDS && FreeFd(files[..], owner, 0) == FreeFd(files[..], owner, fd)
      {
        var used := LocalFdInUse(owner, fd);
        if !used {
          return Some(fd);
        }
        fd := fd + 1;
      }
      return None;
    }

    method FindFreeHandle() returns (r: Option<nat>)
      requires Sized()
      ensures r == FreeSlot(files[..], 0)
    {
      var i := 0;
      while i < MAX_FILES
        invariant 0 <= i <= MAX_FILES && FreeSlot(files[..], 0) == FreeSlot(files[..], i)
      {
        if files[i].Unused? {
          return Some(i);
        }
        i := i + 1;
      }
      return None;
    }

    /** `vfs_fd_at`: the handle behind a descriptor of `owner`, after dead owners are reaped. */
    method FdAt(pids: set<nat>, owner: nat, fd: int) returns (r: Option<nat>)
      requires Sized()
      modifies files
      ensures fd < 0 || fd >= MAX_FDS ==> r == None && files[..] == old(files[..])
      ensures 0 <= fd < MAX_FDS ==> files[..] == Reap(old(files[..]), pids) && r == FdSlot(files[..], owner, fd, 0)
    {
      if fd < 0 || fd >= MAX_FDS {
        return None;
      }
      ReapDeadOwners(pids);
      var i := 0;
      while i < MAX_FILES
        invariant 0 <= i <= MAX_FILES && files[..] == Reap(old(files[..]), pids)
        invariant FdSlot(files[..], owner, fd, 0) == FdSlot(files[..], owner, fd, i)
      {
        if files[i].File? && files[i].owner == owner && files[i].fd == fd {
          return Some(i);
        }
        i := i + 1;
      }
      return None;
    }

    /** Closing, advancing or seeking: the handle behind the descriptor changes as `use` says. */
    method UseFd(pids: set<nat>, owner: nat, fd: int, use: Use) returns (ok: bool)
      requires Sized()
      modifies files
      ensures Sized() && (State(), ok) == Apply(old(State()), pids, owner, fd, use)
    {
      var slot := FdAt(pids, owner, fd);
      if slot.None? {
        return false;
      }
      ghost var before := files[..];
      files[slot.value] := Used(files[slot.value], use);
      assert files[..] == before[slot.value := Used(before[slot.value], use)];
      return true;
    }

    /** `vfs_open_flags` for a path the node table knows. */
    method OpenFlags(pids: set<nat>, owner: nat, path: string, mode: Mode) returns (fd: Option<nat>)
      requires Sized() && '\0' !in path
      modifies files
      ensures Sized() && State() == Open(old(State()), pids, owner, path, mode).0
      ensures match Open(old(State()), pids, owner, path, mode).1 case Some((n, slot)) => fd == Some(n) case None => fd == None
    {
      hide Normalize, Reap;
      var normalized := new char[MAX_PATH];
      var length := NormalizePath(path, normalized);
      if length.None? {
        return None;
      }
      var node := FindCanonical(normalized[..length.value]);
      if node.None? {
        return None;
      }
      if !Allows(nodes[node.value], mode) {
        return None;
      }
      ReapDeadOwners(pids);
      var localFd := FindFreeLocalFd(owner);
      if localFd.None? {
        return None;
      }
      var slot := FindFreeHandle();
      if slot.None? {
        return None;
      }
      ghost var before := files[..];
      files[slot.value] := File(node.value, 0, mode, owner, localFd.value);
      assert files[..] == before[slot.value := File(node.value, 0, mode, owner, localFd.value)];
      return localFd;
    }

    /** `vfs_unmount_static`. */
    method UnmountStatic(path: string) returns (ok: bool)
      requires Sized() && '\0' !in path
      modifies files, nodes
      ensures Sized() && (State(), ok) == Unmount(old(State()), path)
    {
      hide Normalize, DropNode;
      var normalized := new char[MAX_PATH];
      var length := NormalizePath(path, normalized);
      if length.None? {
        return false;
      }
      var node := FindCanonical(normalized[..length.value]);
      if node.None? {
        return false;
      }
      DropOpenFiles(node.value);
      nodes[node.value] := Vacant;
      assert nodes[..] == old(nodes[..])[node.value := Vacant];
      return true;
    }

    method FindFreeNode() returns (r: Option<nat>)
      requires Sized()
      ensures r == FreeNode(nodes[..], 0)
    {
      var i := 0;
      while i < MAX_NODES
        invariant 0 <= i <= MAX_NODES && FreeNode(nodes[..], 0) == FreeNode(nodes[..], i)
      {
        if nodes[i].Vacant? {
          return Some(i);
        }
        i := i + 1;
      }
      return None;
    }

    method FreeNodeCount() returns (n: nat)
      requires Sized()
      ensures n == Vacancies(nodes[..])
    {
      n := 0;
      for i := 0 to MAX_NODES
        invariant n == Vacancies(nodes[..i])
      {
        assert nodes[..i + 1][..i] == nodes[..i];
        if nodes[i].Vacant? {
          n := n + 1;
        }
      }
      assert nodes[..MAX_NODES] == nodes[..];
    }

    /** The checks of `vfs_mount_static` on the `i`-th node. */
    method CanMount(ns: seq<Node>, i: nat) returns (ok: bool)
      requires Sized() && i < |ns| && forall k :: 0 <= k < |ns| ==> ns[k].Node? && '\0' !in ns[k].path
      ensures ok == MountableAt(State(), ns, i)
    {
      hide Normalize;
      var normalized := new char[MAX_PATH];
      var length := NormalizePath(ns[i].path, normalized);
      if length.None? || (!ns[i].readable && !ns[i].writable) {
        return false;
      }
      var path := normalized[..length.value];
      var known := FindCanonical(path);
      if known.Some? {
        return false;
      }
      for j := 0 to i
        invariant forall k :: 0 <= k < j ==> Normalize(ns[k].path) != Some(path)
      {
        var previous := new char[MAX_PATH];
        var l := NormalizePath(ns[j].path, previous);
        if l.Some? && previous[..l.value] == path {
          return false;
        }
      }
      return true;
    }

    /** `vfs_mount_static`: all nodes are checked before any is entered. */
    method MountStatic(ns: seq<Node>) returns (ok: bool)
      requires Sized() && forall k :: 0 <= k < |ns| ==> ns[k].Node? && '\0' !in ns[k].path
      modifies this`count, nodes
      ensures Sized() && (State(), ok) == Mount(old(State()), ns)
    {
      hide Normalize, MountableAt, Vacancies;
      var free := FreeNodeCount();
      if |ns| == 0 || |ns| > free {
        return false;
      }
      for i := 0 to |ns|
        invariant State() == old(State()) && forall k :: 0 <= k < i ==> MountableAt(State(), ns, k)
      {
        var can := CanMount(ns, i);
        if !can {
          return false;
        }
      }
      for i := 0 to |ns|
        invariant Sized() && MountFrom(State(), ns, i) == MountFrom(old(State()), ns, 0)
      {
        EnterNode(ns[i]);
      }
      return true;
    }

    method EnterNode(n: Node)
      requires Sized() && n.Node? && '\0' !in n.path
      modifies this`count, nodes
      ensures Sized() && State() == MountOne(old(State()), Canonical(n))
    {
      hide Normalize;
      var index := FindFreeNode();
      if index.None? {
        return;
      }
      var normalized := new char[MAX_PATH];
      var length := NormalizePath(n.path, normalized);
      nodes[index.value] := if length.Some? then n.(path := normalized[..length.value]) else n;
      assert nodes[..] == old(nodes[..])[index.value := Canonical(n)];
      if index.value >= count {
        count := index.value + 1;
      }
    }
  }
}
