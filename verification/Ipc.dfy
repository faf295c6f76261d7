/** Messages between processes: one queue per target over a few shared slots. */
module Ipc {
  import opened Basics

  const MAX_MESSAGES: nat := 8
  const MAX_SIZE: nat := 16

  datatype Message = Message(sender: nat, target: nat, size: nat, data: seq<byte>)

  datatype Slot = Unused | Used(message: Message, sequence: nat)

  /** The payload as it is stored and delivered: its bytes, then zeros. */
  function Padded(data: seq<byte>): (r: seq<byte>)
    requires |data| <= MAX_SIZE
    ensures |r| == MAX_SIZE && forall i :: 0 <= i < MAX_SIZE ==> r[i] == if i < |data| then data[i] else 0
  {
    data + seq(MAX_SIZE - |data|, _ => 0)
  }

  // ----- Queues

  /** The undelivered messages for a process, oldest first. */
  function QueueFor(q: seq<Message>, pid: nat): seq<Message> {
    if |q| == 0 then [] else QueueFor(q[..|q| - 1], pid) + if q[|q| - 1].target == pid then [q[|q| - 1]] else []
  }

  function Without(q: seq<Message>, k: nat): seq<Message>
    requires k < |q|
  {
    q[..k] + q[k + 1..]
  }

  lemma QueuePush(q: seq<Message>, m: Message, pid: nat)
    ensures QueueFor(q + [m], pid) == QueueFor(q, pid) + if m.target == pid then [m] else []
  {
    assert (q + [m])[..|q|] == q;
  }

  lemma {:induction false} QueueConcat(a: seq<Message>, b: seq<Message>, pid: nat)
    ensures QueueFor(a + b, pid) == QueueFor(a, pid) + QueueFor(b, pid)
    decreases |b|
  {
    if |b| == 0 {
      assert a + b == a;
    } else {
      QueueConcat(a, b[..|b| - 1], pid);
      assert (a + b)[..|a + b| - 1] == a + b[..|b| - 1];
    }
  }

  lemma {:induction false} NoneFor(q: seq<Message>, pid: nat)
    ensures QueueFor(q, pid) == [] <==> forall i :: 0 <= i < |q| ==> q[i].target != pid
    decreases |q|
  {
    if |q| > 0 {
      NoneFor(q[..|q| - 1], pid);
    }
  }

  /** Taking out the first message for a process takes the head of its queue and touches no other queue. */
  lemma QueueTake(q: seq<Message>, k: nat, pid: nat)
    requires k < |q| && forall i :: 0 <= i < k ==> q[i].target != q[k].target
    ensures if pid == q[k].target then QueueFor(q, pid) == [q[k]] + QueueFor(Without(q, k), pid)
            else QueueFor(q, pid) == QueueFor(Without(q, k), pid)
  {
    var a, m, b := q[..k], q[k], q[k + 1..];
    assert q == a + ([m] + b);
    QueueConcat(a, [m] + b, pid);
    QueueConcat([m], b, pid);
    QueueConcat(a, b, pid);
    NoneFor(a, m.target);
    assert QueueFor([m], pid) == if m.target == pid then [m] else [] by { QueuePush([], m, pid); assert [] + [m] == [m]; }
    assert [] + QueueFor(b, pid) == QueueFor(b, pid);
  }

  // ----- Slots

  /** Queue entry `k` lies in slot `at[k]`; sequence numbers follow the order of the queue. */
  ghost predicate Stored(slots: seq<Slot>, next: nat, q: seq<Message>, at: seq<nat>) {
    && |slots| == MAX_MESSAGES && |at| == |q|
    && (forall k: nat :: k < |at| ==> EntryAt(slots, next, q, at, k))
    && (forall j: nat, k: nat :: j < k < |at| ==> Ordered(slots, at, j, k))
    && (forall i: nat :: i < MAX_MESSAGES && slots[i].Used? ==> i in at)
  }

  ghost predicate EntryAt(slots: seq<Slot>, next: nat, q: seq<Message>, at: seq<nat>, k: nat)
    requires k < |at| == |q|
  {
    at[k] < |slots| && slots[at[k]].Used? && slots[at[k]].message == q[k] && slots[at[k]].sequence < next
  }

  ghost predicate Ordered(slots: seq<Slot>, at: seq<nat>, j: nat, k: nat)
    requires j < |at| && k < |at|
  {
    && at[j] < |slots| && at[k] < |slots| && slots[at[j]].Used? && slots[at[k]].Used?
    && at[j] != at[k] && slots[at[j]].sequence < slots[at[k]].sequence
  }

  ghost predicate Sound(q: seq<Message>) {
    forall k :: 0 <= k < |q| ==> SoundMessage(q[k])
  }

  predicate SoundMessage(m: Message) {
    0 < m.size <= MAX_SIZE && |m.data| == MAX_SIZE && forall i :: m.size <= i < MAX_SIZE ==> m.data[i] == 0
  }

  ghost predicate Distinct(at: seq<nat>) {
    forall j, k :: 0 <= j < k < |at| ==> at[j] != at[k]
  }

  function Head(at: seq<nat>): nat {
    if |at| > 0 then at[0] else 0
  }

  lemma {:induction false} AtMost(at: seq<nat>, n: nat)
    requires Distinct(at) && forall k :: 0 <= k < |at| ==> 0 <= at[k] < n
    ensures |at| <= n
    decreases n
  {
    if n == 0 {
      assert Head(at) >= 0;
    } else if exists k :: 0 <= k < |at| && at[k] == n - 1 {
      var k :| 0 <= k < |at| && at[k] == n - 1;
      var rest := at[..k] + at[k + 1..];
      assert forall i :: 0 <= i < |rest| ==> rest[i] == at[if i < k then i else i + 1];
      AtMost(rest, n - 1);
    } else {
      AtMost(at, n - 1);
    }
  }

  lemma {:induction false} AtLeast(at: seq<nat>, n: nat)
    requires forall i: nat :: i < n ==> i in at
    ensures |at| >= n
    decreases n
  {
    if n > 0 {
      assert n - 1 in at;
      var k :| 0 <= k < |at| && at[k] == n - 1;
      var rest := at[..k] + at[k + 1..];
      forall i: nat | i < n - 1
        ensures i in rest
      {
        assert i in at;
        var j :| 0 <= j < |at| && at[j] == i;
        assert rest[if j < k then j else j - 1] == i;
      }
      AtLeast(rest, n - 1);
    }
  }

  lemma StoredDistinct(slots: seq<Slot>, next: nat, q: seq<Message>, at: seq<nat>)
    requires Stored(slots, next, q, at)
    ensures Distinct(at) && forall k :: 0 <= k < |at| ==> 0 <= at[k] < MAX_MESSAGES && slots[at[k]].Used?
  {
    forall k: nat | k < |at|
      ensures at[k] < MAX_MESSAGES && slots[at[k]].Used?
    {
      assert EntryAt(slots, next, q, at, k);
    }
    forall j: nat, k: nat | j < k < |at|
      ensures at[j] != at[k]
    {
      assert Ordered(slots, at, j, k);
    }
  }

  /** A slot is free exactly when fewer than eight messages are outstanding. */
  lemma RoomIff(slots: seq<Slot>, next: nat, q: seq<Message>, at: seq<nat>)
    requires Stored(slots, next, q, at)
    ensures |q| <= MAX_MESSAGES
    ensures (exists i: nat :: i < MAX_MESSAGES && slots[i].Unused?) <==> |q| < MAX_MESSAGES
  {
    StoredDistinct(slots, next, q, at);
    AtMost(at, MAX_MESSAGES);
    if i: nat :| i < MAX_MESSAGES && slots[i].Unused? {
      AtMost(at + [i], MAX_MESSAGES);
    } else {
      AtLeast(at, MAX_MESSAGES);
    }
  }

  lemma SendStored(slots: seq<Slot>, next: nat, q: seq<Message>, at: seq<nat>, i: nat, m: Message)
    requires Stored(slots, next, q, at) && i < MAX_MESSAGES && slots[i].Unused?
    ensures Stored(slots[i := Used(m, next)], next + 1, q + [m], at + [i])
  {
    var slots', q', at', next' := slots[i := Used(m, next)], q + [m], at + [i], next + 1;
    forall k: nat | k < |at'|
      ensures EntryAt(slots', next', q', at', k)
    {
      assert k < |at| ==> EntryAt(slots, next, q, at, k);
    }
    forall j: nat, k: nat | j < k < |at'|
      ensures Ordered(slots', at', j, k)
    {
      assert EntryAt(slots, next, q, at, j);
      assert k < |at| ==> Ordered(slots, at, j, k);
    }
    forall j: nat | j < MAX_MESSAGES && slots'[j].Used?
      ensures j in at'
    {
      assert j == i ==> at'[|at|] == j;
      if j != i {
        var k :| 0 <= k < |at| && at[k] == j;
        assert at'[k] == j;
      }
    }
  }

  /** The used slot with the lowest sequence number among those for `pid` holds the first message for `pid`. */
  lemma OldestIsFirst(slots: seq<Slot>, next: nat, q: seq<Message>, at: seq<nat>, i: nat, pid: nat) returns (k: nat)
    requires Stored(slots, next, q, at) && i < MAX_MESSAGES && slots[i].Used? && slots[i].message.target == pid
    requires forall j: nat :: j < MAX_MESSAGES && slots[j].Used? && slots[j].message.target == pid ==> slots[i].sequence <= slots[j].sequence
    ensures k < |q| == |at| && at[k] == i && q[k] == slots[i].message && forall j :: 0 <= j < k ==> q[j].target != pid
  {
    k :| 0 <= k < |at| && at[k] == i;
    assert EntryAt(slots, next, q, at, k);
    forall j: nat | j < k
      ensures q[j].target != pid
    {
      assert EntryAt(slots, next, q, at, j) && Ordered(slots, at, j, k);
    }
  }

  /** The place in a sequence of what was at `p` once item `k` is gone. */
  function Shifted(p: nat, k: nat): nat {
    if p < k then p else p + 1
  }

  lemma ReceiveStored(slots: seq<Slot>, next: nat, q: seq<Message>, at: seq<nat>, k: nat)
    requires Stored(slots, next, q, at) && k < |q|
    ensures k < |at| && at[k] < |slots|
    ensures Stored(slots[at[k] := Unused], next, Without(q, k), at[..k] + at[k + 1..])
  {
    assert EntryAt(slots, next, q, at, k);
    var slots', q', at' := slots[at[k] := Unused], Without(q, k), at[..k] + at[k + 1..];
    forall p: nat | p < |at'|
      ensures EntryAt(slots', next, q', at', p) && at'[p] == at[Shifted(p, k)] && at'[p] != at[k]
    {
      var o := Shifted(p, k);
      assert EntryAt(slots, next, q, at, o);
      assert if o < k then Ordered(slots, at, o, k) else Ordered(slots, at, k, o);
    }
    forall i: nat, j: nat | i < j < |at'|
      ensures Ordered(slots', at', i, j)
    {
      assert Ordered(slots, at, Shifted(i, k), Shifted(j, k));
    }
    forall j: nat | j < MAX_MESSAGES && slots'[j].Used?
      ensures j in at'
    {
      var p :| 0 <= p < |at| && at[p] == j;
      assert at'[if p < k then p else p - 1] == j;
    }
  }

  // ----- The queue in memory

  class Mailboxes {
    const slots: array<Slot>
    var next: nat
    /** The undelivered messages in the order they were sent, and where they lie. */
    ghost var queue: seq<Message>
    ghost var at: seq<nat>

    ghost predicate Valid()
      reads this, slots
    {
      slots.Length == MAX_MESSAGES && Stored(slots[..], next, queue, at) && Sound(queue)
    }

    /** `ipc_init`. */
    constructor ()
      ensures Valid() && fresh(slots) && queue == []
    {
      slots, next, queue, at := new Slot[MAX_MESSAGES](_ => Unused), 1, [], [];
    }

    method FindFree() returns (r: Option<nat>)
      requires slots.Length == MAX_MESSAGES
      ensures r.Some? ==> r.value < MAX_MESSAGES && slots[r.value].Unused?
      ensures r.None? ==> forall i: nat :: i < MAX_MESSAGES ==> slots[i].Used?
    {
      for i := 0 to MAX_MESSAGES
        invariant forall k :: 0 <= k < i ==> slots[k].Used?
      {
        if slots[i].Unused? {
          return Some(i);
        }
      }
      return None;
    }

    /** The slot of the oldest message for `pid`. */
    method FindOldest(pid: nat) returns (r: Option<nat>)
      requires slots.Length == MAX_MESSAGES
      ensures r.None? ==> forall i: nat :: i < MAX_MESSAGES && slots[i].Used? ==> slots[i].message.target != pid
      ensures r.Some? ==> r.value < MAX_MESSAGES && slots[r.value].Used? && slots[r.value].message.target == pid
      ensures r.Some? ==> forall j: nat :: j < MAX_MESSAGES && slots[j].Used? && slots[j].message.target == pid ==>
                            slots[r.value].sequence <= slots[j].sequence
    {
      r := None;
      for i := 0 to MAX_MESSAGES
        invariant r.None? ==> forall k :: 0 <= k < i && slots[k].Used? ==> slots[k].message.target != pid
        invariant r.Some? ==> r.value < i && slots[r.value].Used? && slots[r.value].message.target == pid
        invariant r.Some? ==> forall k :: 0 <= k < i && slots[k].Used? && slots[k].message.target == pid ==>
                                slots[r.value].sequence <= slots[k].sequence
      {
        if slots[i].Unused? || slots[i].message.target != pid {
          continue;
        }
        if r.None? || slots[i].sequence < slots[r.value].sequence {
          r := Some(i);
        }
      }
    }

    /** Adds to the target's queue; a valid message is refused only when eight are outstanding. */
    method Send(sender: nat, target: nat, data: seq<byte>) returns (ok: bool)
      requires Valid()
      modifies this, slots
      ensures Valid()
      ensures ok <==> sender != 0 && target != 0 && 0 < |data| <= MAX_SIZE && |old(queue)| < MAX_MESSAGES
      ensures !ok ==> queue == old(queue)
      ensures ok ==> forall pid :: QueueFor(queue, pid)
                       == QueueFor(old(queue), pid) + if pid == target then [Message(sender, target, |data|, Padded(data))] else []
    {
      hide Stored, QueueFor;
      if sender == 0 || target == 0 || |data| == 0 || |data| > MAX_SIZE {
        return false;
      }
      RoomIff(slots[..], next, queue, at);
      var slot := FindFree();
      if slot.None? {
        assert forall i: nat :: i < MAX_MESSAGES ==> slots[..][i].Used?;
        return false;
      }
      var i := slot.value;
      assert slots[..][i].Unused?;
      var payload := CopyPayload(data, |data|);
      ghost var m, old0 := Message(sender, target, |data|, payload), slots[..];
      slots[i] := Used(Message(sender, target, |data|, payload), next);
      assert slots[..] == old0[i := Used(m, next)];
      SendStored(old0, next, queue, at, i, m);
      SoundPush(queue, sender, target, data);
      assert data[..|data|] == data;
      next := next + 1;
      queue, at := queue + [m], at + [i];
      forall pid: nat
        ensures QueueFor(queue, pid) == QueueFor(old(queue), pid) + if pid == target then [m] else []
      {
        QueuePush(old(queue), m, pid);
      }
      return true;
    }

    /** Takes the oldest message of the target's queue; fails only when that queue is empty. */
    method Receive(target: nat) returns (r: Option<Message>)
      requires Valid()
      modifies this, slots
      ensures Valid()
      ensures r.Some? <==> target != 0 && QueueFor(old(queue), target) != []
      ensures r.None? ==> queue == old(queue)
      ensures r.Some? ==> QueueFor(old(queue), target) == [r.value] + QueueFor(queue, target) && SoundMessage(r.value)
      ensures r.Some? ==> forall pid: nat :: pid != target ==> QueueFor(queue, pid) == QueueFor(old(queue), pid)
    {
      hide QueueFor;
      if target == 0 {
        return None;
      }
      NoneFor(queue, target);
      var slot := FindOldest(target);
      if slot.None? {
        forall k: nat | k < |queue|
          ensures queue[k].target != target
        {
          assert EntryAt(slots[..], next, queue, at, k);
        }
        return None;
      }
      var i := slot.value;
      ghost var old0 := slots[..];
      ghost var k := OldestIsFirst(old0, next, queue, at, i, target);
      hide Stored, Sound;
      SoundAt(queue, k);
      var m := slots[i].message;
      var data := CopyPayload(m.data, m.size);
      PaddedSame(m);
      slots[i] := Unused;
      assert slots[..] == old0[i := Unused];
      ReceiveStored(old0, next, queue, at, k);
      forall pid: nat
        ensures if pid == target then QueueFor(queue, pid) == [m] + QueueFor(Without(queue, k), pid)
                else QueueFor(queue, pid) == QueueFor(Without(queue, k), pid)
      {
        QueueTake(queue, k, pid);
      }
      queue, at := Without(queue, k), at[..k] + at[k + 1..];
      return Some(m.(data := data));
    }

    /** `ipc_copy_payload`: `size` bytes of `src`, then zeros. */
    method CopyPayload(src: seq<byte>, size: nat) returns (dest: seq<byte>)
      requires size <= |src| && size <= MAX_SIZE
      ensures dest == Padded(src[..size])
    {
      dest := [];
      for i := 0 to size
        invariant dest == src[..i]
      {
        dest := dest + [src[i]];
      }
      for i := size to MAX_SIZE
        invariant |dest| == i && dest == src[..size] + seq(i - size, _ => 0)
      {
        dest := dest + [0];
      }
    }
  }

  lemma SoundAt(q: seq<Message>, k: nat)
    requires Sound(q) && k < |q|
    ensures SoundMessage(q[k]) && Sound(Without(q, k))
  {
  }

  lemma SoundPush(q: seq<Message>, sender: nat, target: nat, data: seq<byte>)
    requires Sound(q) && 0 < |data| <= MAX_SIZE
    ensures Sound(q + [Message(sender, target, |data|, Padded(data))])
  {
  }

  lemma PaddedSame(m: Message)
    requires SoundMessage(m)
    ensures Padded(m.data[..m.size]) == m.data
  {
  }
}
