/** Searching the root directory, and walking and copying along a chain. */
module Fat32Search {
  import opened Basics
  import opened Fat32Layout
  import opened FatChains
  import opened Fat32Disk
  import opened Fat32Volume
  import opened Fat32Steps
  import opened Fat32Changes

  // ----- Slots

  /** The scan of `fat32_open_root` from slot `k` on: it stops at the end mark. */
  function FindSlot(dir: seq<Slot32>, name: seq<byte>, k: nat): (r: Option<nat>)
    decreases |dir| - k
  {
    if k >= |dir| || dir[k][0] == 0 then None
    else if IsFile(dir[k]) && Name(dir[k]) == name then Some(k)
    else FindSlot(dir, name, k + 1)
  }

  /** The scan finds the file of that name, wherever it is, and nothing else. */
  lemma {:induction false} FindSlotOk(dir: seq<Slot32>, name: seq<byte>, k: nat)
    requires UniqueNames(dir) && FreeTail(dir)
    ensures FindSlot(dir, name, k).Some? ==>
              var n := FindSlot(dir, name, k).value; k <= n < |dir| && IsFile(dir[n]) && Name(dir[n]) == name
    ensures FindSlot(dir, name, k).None? ==>
              forall n :: k <= n < |dir| && IsFile(dir[n]) ==> Name(dir[n]) != name
    decreases |dir| - k
  {
    if k < |dir| && dir[k][0] != 0 && !(IsFile(dir[k]) && Name(dir[k]) == name) {
      FindSlotOk(dir, name, k + 1);
    }
  }

  /** The scan of `find_free_dir_entry`. */
  function FindFreeSlot(dir: seq<Slot32>, k: nat): (r: Option<nat>)
    ensures r.Some? ==> k <= r.value < |dir| && IsFree(dir[r.value]) && forall m :: k <= m < r.value ==> !IsFree(dir[m])
    ensures r.None? ==> forall m :: k <= m < |dir| ==> !IsFree(dir[m])
    decreases |dir| - k
  {
    if k >= |dir| then None else if IsFree(dir[k]) then Some(k) else FindFreeSlot(dir, k + 1)
  }

  // ----- Walking

  /** Following a chain from its `i`-th cluster leads to the next one, or to the end mark. */
  lemma WalkStep(fat: Fat, ch: seq<nat>, i: nat)
    requires SmallFat(fat) && IsPath(fat, ch) && i < |ch|
    ensures ReadEntry(fat, ch[i], true).Some?
    ensures i + 1 < |ch| ==> ReadEntry(fat, ch[i], true) == Some(ch[i + 1]) && ch[i + 1] < EOC
    ensures i + 1 == |ch| ==> ReadEntry(fat, ch[i], true).value >= EOC
  {
    assert IsCluster(fat, ch[i]);
    if i + 1 < |ch| {
      assert fat[ch[i]] == ch[i + 1] && IsCluster(fat, ch[i + 1]);
    }
  }

  // ----- Copying

  /** Part of a sector of a chain is that part of its content. */
  lemma ReadChunk(disk: Disk, lbas: seq<nat>, size: nat, j: nat, o: nat, count: nat)
    requires j < |lbas| && lbas[j] < |disk| && o + count <= 512 && 512 * j + o + count <= size
    ensures disk[lbas[j]][o..o + count] == Content(disk, lbas, size)[512 * j + o..512 * j + o + count]
  {
    var a, b := disk[lbas[j]][o..o + count], Content(disk, lbas, size)[512 * j + o..512 * j + o + count];
    forall i | 0 <= i < count
      ensures a[i] == b[i]
    {
      assert (512 * j + o + i) / 512 == j && (512 * j + o + i) % 512 == o + i;
    }
  }

  function Min(a: nat, b: nat): nat {
    if a <= b then a else b
  }

  /**
   * The state of the sector loop after `s` sectors of a cluster that starts at byte `start` of `whole`:
   * `data` has been copied from `skip` on, and `within` bytes are still to be skipped.
   */
  ghost predicate Copying(spc: nat, whole: seq<byte>, start: nat, skip: nat, count: nat, s: nat, within: nat, data: seq<byte>) {
    && s <= spc && |data| <= count && skip < 512 * spc
    && skip + |data| <= 512 * spc
    && start + skip + |data| <= |whole| && data == whole[start + skip..start + skip + |data|]
    && (|data| < count ==> skip + |data| == 512 * s + within)
    && (within > 0 ==> |data| == 0)
  }

  lemma CopyingStart(spc: nat, whole: seq<byte>, start: nat, skip: nat, count: nat)
    requires skip < 512 * spc && start + skip <= |whole|
    ensures Copying(spc, whole, start, skip, count, 0, skip, [])
  {
  }

  lemma CopyingSkip(spc: nat, whole: seq<byte>, start: nat, skip: nat, count: nat, s: nat, within: nat, data: seq<byte>)
    requires Copying(spc, whole, start, skip, count, s, within, data) && s < spc && |data| < count && within >= 512
    ensures Copying(spc, whole, start, skip, count, s + 1, within - 512, data)
  {
  }

  lemma CopyingStep(spc: nat, whole: seq<byte>, start: nat, skip: nat, count: nat, s: nat, within: nat, data: seq<byte>, n: nat)
    requires Copying(spc, whole, start, skip, count, s, within, data) && s < spc && |data| < count && within < 512
    requires n == Min(512 - within, count - |data|)
    requires start + skip + Min(count, 512 * spc - skip) <= |whole|
    ensures start + 512 * s + within + n <= |whole|
    ensures Copying(spc, whole, start, skip, count, s + 1, 0, data + whole[start + 512 * s + within..start + 512 * s + within + n])
  {
    var a, b, c := start + skip, start + skip + |data|, start + skip + |data| + n;
    assert whole[a..b] + whole[b..c] == whole[a..c];
  }

  lemma CopyingDone(spc: nat, whole: seq<byte>, start: nat, skip: nat, count: nat, s: nat, within: nat, data: seq<byte>)
    requires Copying(spc, whole, start, skip, count, s, within, data) && (s == spc || |data| == count)
    ensures |data| == Min(count, 512 * spc - skip)
    ensures start + skip + |data| <= |whole| && data == whole[start + skip..start + skip + |data|]
  {
  }

  /** `part` laid over `s` at `o`. */
  function Overlay(s: Sector, o: nat, part: seq<byte>): Sector
    requires o + |part| <= 512
  {
    s[..o] + part + s[o + |part|..]
  }

  /** The first `k` bytes of `buf` are in place at `offset`; what lay before them is as it was. */
  ghost predicate Written(disk0: Disk, lbas0: seq<nat>, disk: Disk, lbas: seq<nat>, offset: nat, buf: seq<byte>, k: nat) {
    && k <= |buf|
    && (forall p: nat :: p < offset ==> ByteAt(disk, lbas, p) == ByteAt(disk0, lbas0, p))
    && (forall i: nat :: i < k ==> ByteAt(disk, lbas, offset + i) == buf[i])
  }

  /** Laying the next piece of the buffer over the sector it falls in. */
  lemma WriteChunk(disk0: Disk, lbas0: seq<nat>, disk: Disk, lbas: seq<nat>, offset: nat, buf: seq<byte>, k: nat,
                   j: nat, o: nat, count: nat)
    requires Written(disk0, lbas0, disk, lbas, offset, buf, k) && Distinct(lbas)
    requires j < |lbas| && lbas[j] < |disk| && o + count <= 512 && offset + k == 512 * j + o && k + count <= |buf|
    ensures Written(disk0, lbas0, disk[lbas[j] := Overlay(disk[lbas[j]], o, buf[k..k + count])], lbas, offset, buf, k + count)
  {
    var s := Overlay(disk[lbas[j]], o, buf[k..k + count]);
    var disk' := disk[lbas[j] := s];
    hide ByteAt, Distinct;
    forall p: nat | p < offset
      ensures ByteAt(disk', lbas, p) == ByteAt(disk0, lbas0, p)
    {
      ChunkByte(disk, lbas, j, o, buf[k..k + count], p);
    }
    forall i: nat | i < k + count
      ensures ByteAt(disk', lbas, offset + i) == buf[i]
    {
      ChunkByte(disk, lbas, j, o, buf[k..k + count], offset + i);
    }
  }

  lemma ChunkByte(disk: Disk, lbas: seq<nat>, j: nat, o: nat, part: seq<byte>, p: nat)
    requires Distinct(lbas) && j < |lbas| && lbas[j] < |disk| && o + |part| <= 512
    ensures ByteAt(disk[lbas[j] := Overlay(disk[lbas[j]], o, part)], lbas, p)
         == if 512 * j + o <= p < 512 * j + o + |part| then part[p - (512 * j + o)] else ByteAt(disk, lbas, p)
  {
    ByteStep(disk, lbas, j, Overlay(disk[lbas[j]], o, part), p);
    assert p == 512 * (p / 512) + p % 512;
  }

  /** Bytes already in place stay so when the chain grows. */
  lemma WrittenGrown(disk0: Disk, lbas0: seq<nat>, disk: Disk, lbas: seq<nat>, disk': Disk, lbas': seq<nat>,
                     offset: nat, buf: seq<byte>, k: nat)
    requires Written(disk0, lbas0, disk, lbas, offset, buf, k) && lbas <= lbas' && Agree(disk, disk', lbas)
    requires offset + k <= 512 * |lbas|
    ensures Written(disk0, lbas0, disk', lbas', offset, buf, k)
  {
    hide ByteAt;
    forall p: nat | p < offset
      ensures ByteAt(disk', lbas', p) == ByteAt(disk0, lbas0, p)
    {
      GrownByte(disk, lbas, disk', lbas', p);
    }
    forall i: nat | i < k
      ensures ByteAt(disk', lbas', offset + i) == buf[i]
    {
      GrownByte(disk, lbas, disk', lbas', offset + i);
    }
  }

  lemma GrownByte(disk: Disk, lbas: seq<nat>, disk': Disk, lbas': seq<nat>, p: nat)
    requires lbas <= lbas' && Agree(disk, disk', lbas) && p < 512 * |lbas|
    ensures ByteAt(disk', lbas', p) == ByteAt(disk, lbas, p)
  {
    assert p / 512 < |lbas|;
    assert lbas'[p / 512] == lbas[p / 512];
  }

  /** When all is in place, the content up to the new end is the old start and then the buffer. */
  lemma WrittenContent(disk0: Disk, lbas0: seq<nat>, size0: nat, disk: Disk, lbas: seq<nat>, offset: nat, buf: seq<byte>)
    requires Written(disk0, lbas0, disk, lbas, offset, buf, |buf|) && offset <= size0
    ensures Content(disk, lbas, offset + |buf|) == Content(disk0, lbas0, size0)[..offset] + buf
  {
    hide ByteAt;
    var a, b := Content(disk, lbas, offset + |buf|), Content(disk0, lbas0, size0)[..offset] + buf;
    forall p: nat | p < offset + |buf|
      ensures a[p] == b[p]
    {
      if p >= offset {
        assert ByteAt(disk, lbas, offset + (p - offset)) == buf[p - offset];
      }
    }
  }
}
