/** Cluster chains on an arbitrary allocation table, possibly cyclic or malformed. */
module FatChains {
  import opened Basics
  import opened Fat32Layout

  /** The allocation table: entry `c` for cluster `c`; entries 0 and 1 are not used. */
  type Fat = seq<nat>

  predicate IsCluster(fat: Fat, c: nat) {
    2 <= c < |fat|
  }

  /** `read_fat_entry` on the table. */
  function ReadEntry(fat: Fat, c: nat, chain: bool): Option<nat> {
    if !IsCluster(fat, c) then None
    else if fat[c] == BAD || (chain && fat[c] < EOC && !IsCluster(fat, fat[c])) then None
    else Some(fat[c])
  }

  /** `ch` is the whole chain from its first cluster to the end mark. */
  ghost predicate IsPath(fat: Fat, ch: seq<nat>) {
    && |ch| > 0
    && (forall i :: 0 <= i < |ch| ==> IsCluster(fat, ch[i]))
    && (forall i :: 0 <= i < |ch| - 1 ==> fat[ch[i]] == ch[i + 1])
    && fat[ch[|ch| - 1]] >= EOC
  }

  ghost predicate Distinct(ch: seq<nat>) {
    forall i, j :: 0 <= i < j < |ch| ==> ch[i] != ch[j]
  }

  /** The table is small enough that no cluster number is an end mark. */
  predicate SmallFat(fat: Fat) {
    |fat| <= BAD
  }

  lemma PathTail(fat: Fat, ch: seq<nat>)
    requires IsPath(fat, ch) && |ch| > 1
    ensures IsPath(fat, ch[1..])
  {
  }

  /** A chain that reaches the end mark never visits a cluster twice. */
  lemma {:induction false} PathDistinct(fat: Fat, ch: seq<nat>)
    requires SmallFat(fat) && IsPath(fat, ch)
    ensures Distinct(ch)
  {
    forall i, j | 0 <= i < j < |ch|
      ensures ch[i] != ch[j]
    {
      if ch[i] == ch[j] {
        Periodic(fat, ch, i, j, |ch| - 1 - j);
      }
    }
  }

  /** Equal clusters are followed by equal clusters, up to the end of the chain. */
  lemma {:induction false} Periodic(fat: Fat, ch: seq<nat>, i: nat, j: nat, k: nat)
    requires SmallFat(fat) && IsPath(fat, ch) && i < j && j + k < |ch| && ch[i] == ch[j]
    ensures ch[i + k] == ch[j + k]
    ensures j + k != |ch| - 1
    decreases k
  {
    if k > 0 {
      Periodic(fat, ch, i, j, k - 1);
      assert fat[ch[i + k - 1]] == ch[i + k] && fat[ch[j + k - 1]] == ch[j + k];
    }
    assert fat[ch[i + k]] == ch[i + k + 1] && IsCluster(fat, ch[i + k + 1]);
  }

  function Leading(ch: seq<nat>): nat {
    if |ch| > 0 then ch[0] else 0
  }

  /** Distinct clusters of the table are no more than the table has. */
  lemma {:induction false} Pigeonhole(ch: seq<nat>, n: nat)
    requires Distinct(ch) && forall i :: 0 <= i < |ch| ==> 2 <= ch[i] < n + 2
    ensures |ch| <= n
    decreases n
  {
    if n == 0 {
      assert Leading(ch) >= 0;
    } else if exists k :: 0 <= k < |ch| && ch[k] == n + 1 {
      var k :| 0 <= k < |ch| && ch[k] == n + 1;
      var rest := ch[..k] + ch[k + 1..];
      assert forall i :: 0 <= i < |rest| ==> rest[i] == ch[if i < k then i else i + 1];
      Pigeonhole(rest, n - 1);
    } else {
      Pigeonhole(ch, n - 1);
    }
  }

  lemma PathBound(fat: Fat, ch: seq<nat>)
    requires SmallFat(fat) && IsPath(fat, ch)
    ensures Distinct(ch) && |ch| <= |fat| - 2
  {
    PathDistinct(fat, ch);
    assert IsCluster(fat, ch[0]);
    Pigeonhole(ch, |fat| - 2);
  }

  lemma PathEnds(fat: Fat, ch: seq<nat>)
    requires SmallFat(fat) && IsPath(fat, ch)
    ensures IsCluster(fat, ch[0]) && (|ch| == 1 <==> fat[ch[0]] >= EOC)
  {
    if |ch| > 1 {
      assert fat[ch[0]] == ch[1] && IsCluster(fat, ch[1]);
    }
  }

  /** At most one chain starts at a cluster. */
  lemma {:induction false} PathUnique(fat: Fat, a: seq<nat>, b: seq<nat>)
    requires SmallFat(fat) && IsPath(fat, a) && IsPath(fat, b) && a[0] == b[0]
    ensures a == b
    decreases |a|
  {
    PathEnds(fat, a);
    PathEnds(fat, b);
    if |a| > 1 && |b| > 1 {
      PathTail(fat, a);
      PathTail(fat, b);
      assert fat[a[0]] == a[1] && fat[b[0]] == b[1];
      PathUnique(fat, a[1..], b[1..]);
      assert a == [a[0]] + a[1..] && b == [b[0]] + b[1..];
    }
  }

  // ----- Measuring a chain

  /** The loop of `file_chain_capacity`: `total` bytes so far, `left` steps before it gives up. */
  function CapacityLoop(fat: Fat, c: nat, left: nat, total: nat, size: nat): Option<nat>
    decreases left
  {
    if left == 0 then None
    else if total + size >= U32_LIMIT then None
    else
      match ReadEntry(fat, c, true)
      case None => None
      case Some(next) => if next >= EOC then Some(total + size) else CapacityLoop(fat, next, left - 1, total + size, size)
  }

  function ChainCapacity(fat: Fat, first: nat, size: nat): Option<nat> {
    if !IsCluster(fat, first) then None else CapacityLoop(fat, first, |fat| - 2, 0, size)
  }

  /** The loop succeeds on a chain that fits both its step bound and 32 bits. */
  lemma {:induction false} CapacityOfPath(fat: Fat, ch: seq<nat>, left: nat, total: nat, size: nat)
    requires SmallFat(fat) && IsPath(fat, ch) && |ch| <= left
    ensures CapacityLoop(fat, ch[0], left, total, size)
         == if total + |ch| * size < U32_LIMIT then Some(total + |ch| * size) else None
    decreases |ch|
  {
    assert IsCluster(fat, ch[0]);
    if |ch| > 1 {
      PathTail(fat, ch);
      assert fat[ch[0]] == ch[1] && IsCluster(fat, ch[1]);
      assert ch[1..][0] == ch[1];
      CapacityOfPath(fat, ch[1..], left - 1, total + size, size);
      assert total + size + |ch[1..]| * size == total + |ch| * size by {
        assert |ch| * size == |ch[1..]| * size + size;
      }
      assert total + size <= total + |ch| * size;
    }
  }

  /** When the loop succeeds, it has walked a chain to its end mark. */
  lemma {:induction false} PathOfCapacity(fat: Fat, c: nat, left: nat, total: nat, size: nat) returns (ch: seq<nat>)
    requires CapacityLoop(fat, c, left, total, size).Some?
    ensures IsPath(fat, ch) && ch[0] == c
    decreases left
  {
    var next := ReadEntry(fat, c, true).value;
    if next >= EOC {
      ch := [c];
    } else {
      var rest := PathOfCapacity(fat, next, left - 1, total + size, size);
      ch := [c] + rest;
      forall i | 0 <= i < |ch| - 1
        ensures fat[ch[i]] == ch[i + 1]
      {
        if i > 0 {
          assert fat[rest[i - 1]] == rest[i];
        }
      }
    }
  }

  /**
   * Measuring succeeds exactly when the walk from `first` reaches an end mark through data
   * clusters and the total fits 32 bits, and then it is the chain length times the cluster size.
   */
  lemma CapacityOk(fat: Fat, first: nat, size: nat)
    requires SmallFat(fat)
    ensures forall ch :: IsPath(fat, ch) && ch[0] == first ==>
              ChainCapacity(fat, first, size) == if |ch| * size < U32_LIMIT then Some(|ch| * size) else None
    ensures ChainCapacity(fat, first, size).Some? ==> exists ch :: IsPath(fat, ch) && ch[0] == first
  {
    forall ch | IsPath(fat, ch) && ch[0] == first
      ensures ChainCapacity(fat, first, size) == if |ch| * size < U32_LIMIT then Some(|ch| * size) else None
    {
      PathBound(fat, ch);
      CapacityOfPath(fat, ch, |fat| - 2, 0, size);
    }
    if ChainCapacity(fat, first, size).Some? {
      var ch := PathOfCapacity(fat, first, |fat| - 2, 0, size);
    }
  }

  // ----- Freeing a chain

  /** The loop of `free_cluster_chain`: whether it reached the end mark, and the table it leaves. */
  function FreeLoop(fat: Fat, c: nat, left: nat): (bool, Fat)
    decreases left
  {
    if !IsCluster(fat, c) || left == 0 then (false, fat)
    else
      match ReadEntry(fat, c, true)
      case None => (false, fat)
      case Some(next) =>
        if next >= EOC then (true, fat[c := 0]) else FreeLoop(fat[c := 0], next, left - 1)
  }

  function FreeChain(fat: Fat, first: nat): (bool, Fat) {
    if |fat| < 2 then (false, fat) else FreeLoop(fat, first, |fat| - 2)
  }

  /** `fat` with every cluster of `ch` free. */
  function Cleared(fat: Fat, ch: seq<nat>): Fat
    decreases |ch|
  {
    if ch == [] then fat
    else if ch[0] < |fat| then Cleared(fat[ch[0] := 0], ch[1..])
    else Cleared(fat, ch[1..])
  }

  lemma {:induction false} ClearedAt(fat: Fat, ch: seq<nat>, c: nat)
    requires c < |fat|
    ensures |Cleared(fat, ch)| == |fat|
    ensures Cleared(fat, ch)[c] == if c in ch then 0 else fat[c]
    decreases |ch|
  {
    if ch != [] {
      var fat1 := if ch[0] < |fat| then fat[ch[0] := 0] else fat;
      ClearedAt(fat1, ch[1..], c);
      assert c in ch <==> c == ch[0] || c in ch[1..];
    }
  }

  lemma {:induction false} FreeLoopOk(fat: Fat, ch: seq<nat>, left: nat)
    requires SmallFat(fat) && IsPath(fat, ch) && Distinct(ch) && |ch| <= left
    ensures FreeLoop(fat, ch[0], left) == (true, Cleared(fat, ch))
    decreases |ch|
  {
    assert IsCluster(fat, ch[0]);
    var fat1 := fat[ch[0] := 0];
    if |ch| == 1 {
      assert ch[1..] == [];
    } else {
      assert fat[ch[0]] == ch[1] && IsCluster(fat, ch[1]);
      var rest := ch[1..];
      assert forall i :: 0 <= i < |rest| ==> rest[i] == ch[i + 1] && rest[i] != ch[0];
      assert IsPath(fat1, rest);
      FreeLoopOk(fat1, rest, left - 1);
    }
  }

  /** Freeing a chain succeeds and frees exactly its clusters. */
  lemma FreeChainOk(fat: Fat, ch: seq<nat>)
    requires SmallFat(fat) && IsPath(fat, ch)
    ensures FreeChain(fat, ch[0]) == (true, Cleared(fat, ch))
  {
    PathBound(fat, ch);
    assert IsCluster(fat, ch[0]);
    FreeLoopOk(fat, ch, |fat| - 2);
  }

  // ----- Allocating

  /** `find_free_cluster` from cluster `c` on: a bad cluster on the way ends the search. */
  function FindFree(fat: Fat, c: nat): (n: Option<nat>)
    ensures n.Some? ==> IsCluster(fat, n.value)
    decreases |fat| - c
  {
    if !IsCluster(fat, c) then None
    else if fat[c] == BAD then None
    else if fat[c] == 0 then Some(c)
    else FindFree(fat, c + 1)
  }

  lemma {:induction false} FindFreeOk(fat: Fat, c: nat)
    requires c >= 2
    ensures match FindFree(fat, c)
            case Some(n) => IsCluster(fat, n) && n >= c && fat[n] == 0
                            && forall i :: c <= i < n ==> fat[i] != 0 && fat[i] != BAD
            case None => (forall i :: c <= i < |fat| ==> fat[i] != 0)
                         || exists b :: c <= b < |fat| && fat[b] == BAD && forall i :: c <= i < b ==> fat[i] != 0
    decreases |fat| - c
  {
    if IsCluster(fat, c) && fat[c] != BAD && fat[c] != 0 {
      FindFreeOk(fat, c + 1);
    }
  }

  /** `allocate_cluster`: links a free cluster after `prev`, or starts a chain when `prev` is 0. */
  function Allocate(fat: Fat, prev: nat): (Option<nat>, Fat) {
    match FindFree(fat, 2)
    case None => (None, fat)
    case Some(n) =>
      if prev == 0 then (Some(n), fat[n := EOC])
      else
        match ReadEntry(fat, prev, true)
        case None => (None, fat)
        case Some(v) => if v < EOC then (None, fat) else (Some(n), fat[prev := n][n := EOC])
  }

  /** Cluster `n` is free, and no cluster from `c` up to it is marked bad. */
  ghost predicate FreeBeforeBad(fat: Fat, c: nat, n: nat) {
    c <= n < |fat| && fat[n] == 0 && forall i :: c <= i < n ==> fat[i] != BAD
  }

  /** The search finds a cluster exactly when one is free below the first bad one. */
  lemma FindFreeWhen(fat: Fat, c: nat)
    requires c >= 2
    ensures FindFree(fat, c).Some? <==> exists n :: FreeBeforeBad(fat, c, n)
  {
    FindFreeOk(fat, c);
    hide FindFree;
    if FindFree(fat, c).Some? {
      assert FreeBeforeBad(fat, c, FindFree(fat, c).value);
    }
  }

  /** A table with a free cluster that neither the search nor an allocation finds, because a bad one comes first. */
  lemma BadHidesFree()
    ensures var fat := [0, 0, BAD, 0];
            IsCluster(fat, 3) && fat[3] == 0 && FindFree(fat, 2) == None && Allocate(fat, 0) == (None, fat)
  {
    var fat := [0, 0, BAD, 0];
    FindFreeWhen(fat, 2);
  }

  /** Allocation takes a free cluster and makes it a chain of its own, or the new end of one. */
  lemma AllocateOk(fat: Fat, ch: seq<nat>)
    requires SmallFat(fat) && (ch == [] || IsPath(fat, ch))
    ensures var (res, fat') := Allocate(fat, if |ch| == 0 then 0 else ch[|ch| - 1]);
            match res
            case None => fat' == fat
            case Some(n) =>
              && IsCluster(fat, n) && fat[n] == 0 && n !in ch && IsPath(fat', ch + [n]) && |fat'| == |fat|
              && forall c :: 0 <= c < |fat| && c != n && (|ch| == 0 || c != ch[|ch| - 1]) ==> fat'[c] == fat[c]
  {
    FindFreeOk(fat, 2);
    if FindFree(fat, 2).Some? {
      var n := FindFree(fat, 2).value;
      if ch != [] {
        PathDistinct(fat, ch);
        var last := ch[|ch| - 1];
        assert IsCluster(fat, last);
        forall i | 0 <= i < |ch|
          ensures ch[i] != n
        {
          if i < |ch| - 1 {
            assert fat[ch[i]] == ch[i + 1] && IsCluster(fat, ch[i + 1]);
          }
        }
        var fat' := fat[last := n][n := EOC];
        var new' := ch + [n];
        forall i | 0 <= i < |new'| - 1
          ensures fat'[new'[i]] == new'[i + 1]
        {
          if i < |ch| - 1 {
            assert fat[ch[i]] == ch[i + 1] && ch[i] != last;
          }
        }
        assert IsPath(fat', new');
      }
    }
  }
}
