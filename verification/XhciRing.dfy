/**
 * The cycle-bit rings shared with a USB host controller (xHCI specification, sections 4.9.2 to 4.9.4).
 * One side produces transfer request blocks, the other consumes them, and only the cycle bit tells how far the producer is.
 */
module XhciRing {
  import opened Basics

  const LINK: nat := 6

  /** A transfer request block. Bit 0 of `control` is the cycle bit, bit 1 the toggle bit of a link, bits 10 to 15 the type. */
  datatype Trb = Trb(parameter: nat, status: nat, control: nat)

  function Bit(t: Trb): nat {
    t.control % 2
  }

  predicate IsLink(t: Trb) {
    t.control / 1024 % 64 == LINK
  }

  predicate Toggles(t: Trb) {
    t.control / 2 % 2 == 1
  }

  /** What a block says apart from its cycle bit. */
  function Payload(t: Trb): Trb {
    t.(control := t.control - t.control % 2)
  }

  /** Something the driver may push: no cycle bit of its own, and not a link. */
  predicate Plain(d: Trb) {
    d.control % 2 == 0 && !IsLink(d)
  }

  function LinkTrb(base: nat, cycle: nat): Trb {
    Trb(base, 0, LINK * 1024 + 2 + cycle)
  }

  /** The producer's side: the blocks, the slot to write next and the cycle bit to write there. The last block is the link. */
  datatype Ring = Ring(base: nat, trbs: seq<Trb>, enqueue: nat, cycle: nat)

  /** The consumer's side. */
  datatype Consumer = Consumer(dequeue: nat, cycle: nat)

  /** How far `ring_push` has come with the block in hand: each field is a separate store, the control word last. */
  datatype Phase = Idle | Parameter(d: Trb) | Status(d: Trb) | Published

  datatype System = System(ring: Ring, phase: Phase, consumer: Consumer)

  // ----- The producer, store by store

  /** The control word with the cycle bit or-ed in. */
  function WithCycle(control: nat, bit: nat): nat {
    if control % 2 == 1 then control else control + bit
  }

  function Begin(s: System, d: Trb): System
    requires s.ring.enqueue < |s.ring.trbs|
  {
    var r := s.ring;
    s.(ring := r.(trbs := r.trbs[r.enqueue := r.trbs[r.enqueue].(parameter := d.parameter)]), phase := Parameter(d))
  }

  function Continue(s: System): System
    requires s.ring.enqueue + 1 < |s.ring.trbs| && s.ring.cycle <= 1
  {
    var r := s.ring;
    match s.phase
    case Idle => s
    case Parameter(d) => s.(ring := r.(trbs := r.trbs[r.enqueue := r.trbs[r.enqueue].(status := d.status)]), phase := Status(d))
    case Status(d) => s.(ring := r.(trbs := r.trbs[r.enqueue := r.trbs[r.enqueue].(control := WithCycle(d.control, r.cycle))]), phase := Published)
    case Published =>
      if r.enqueue + 1 == |r.trbs| - 1
      then s.(ring := Ring(r.base, r.trbs[r.enqueue + 1 := LinkTrb(r.base, r.cycle)], 0, 1 - r.cycle), phase := Idle)
      else s.(ring := r.(enqueue := r.enqueue + 1), phase := Idle)
  }

  // ----- The consumer

  /** The block at an address, 16 bytes each; an address outside the ring leads nowhere, which is modelled as staying put. */
  function Target(r: Ring, address: nat, here: nat): nat {
    if address >= r.base && (address - r.base) % 16 == 0 && (address - r.base) / 16 < |r.trbs| then (address - r.base) / 16 else here
  }

  /** One look at the block at the dequeue position: take it, follow the link to the address it holds, or wait. */
  function Look(s: System): (System, Option<Trb>)
    requires s.consumer.dequeue < |s.ring.trbs| && s.consumer.cycle <= 1
  {
    var t, c := s.ring.trbs[s.consumer.dequeue], s.consumer;
    if Bit(t) != c.cycle then (s, None)
    else if IsLink(t)
    then (s.(consumer := Consumer(Target(s.ring, t.parameter, c.dequeue), if Toggles(t) then 1 - c.cycle else c.cycle)), None)
    else (s.(consumer := c.(dequeue := c.dequeue + 1)), Some(Payload(t)))
  }

  // ----- The invariant

  /** Slots of the ring that hold data. */
  function Slots(r: Ring): int {
    |r.trbs| - 1
  }

  /** The last slot of a lap is published and the link is still to be written. */
  predicate Wrapping(s: System) {
    s.phase.Published? && s.ring.enqueue + 1 == Slots(s.ring)
  }

  /** Where the next block will go, counting a published one as done. */
  function Next(s: System): nat {
    if Wrapping(s) then 0 else if s.phase.Published? then s.ring.enqueue + 1 else s.ring.enqueue
  }

  function Lap(s: System): int {
    if Wrapping(s) then 1 - s.ring.cycle else s.ring.cycle
  }

  function Payloads(ts: seq<Trb>): (ps: seq<Trb>)
    ensures |ps| == |ts|
  {
    seq(|ts|, i requires 0 <= i < |ts| => Payload(ts[i]))
  }

  /** The blocks published and not yet consumed, oldest first. */
  function Outstanding(s: System): seq<Trb>
    requires s.consumer.dequeue < |s.ring.trbs| && Next(s) < |s.ring.trbs|
    requires s.consumer.cycle == Lap(s) ==> s.consumer.dequeue <= Next(s)
  {
    if s.consumer.cycle == Lap(s) then s.ring.trbs[s.consumer.dequeue..Next(s)]
    else s.ring.trbs[s.consumer.dequeue..|s.ring.trbs| - 1] + s.ring.trbs[..Next(s)]
  }

  ghost predicate Shape(s: System) {
    && Slots(s.ring) >= 1 && s.ring.enqueue < Slots(s.ring) && s.ring.cycle <= 1 && s.consumer.cycle <= 1
    && (if s.consumer.cycle == Lap(s) then s.consumer.dequeue <= Next(s) else Next(s) <= s.consumer.dequeue <= Slots(s.ring))
  }

  /** Slots before the next position carry this lap's cycle bit, the others the last lap's. */
  ghost predicate Bits(s: System)
    requires Shape(s)
  {
    forall i: nat :: i < Slots(s.ring) ==> BitAt(s, i)
  }

  ghost predicate BitAt(s: System, i: nat)
    requires Shape(s) && i < Slots(s.ring)
  {
    Bit(s.ring.trbs[i]) == if i < Next(s) then Lap(s) else 1 - Lap(s)
  }

  ghost predicate LinkOk(s: System)
    requires Shape(s)
  {
    var t := s.ring.trbs[Slots(s.ring)];
    IsLink(t) && Toggles(t) && t.parameter == s.ring.base && (s.consumer.cycle != Lap(s) && !Wrapping(s) ==> Bit(t) == s.consumer.cycle)
  }

  ghost predicate AllPlain(q: seq<Trb>) {
    forall i :: 0 <= i < |q| ==> Plain(q[i])
  }

  /**
   * There is room for one more block: a slot is free and, if it is the last of the lap, the consumer is already on this lap.
   * A consumer still waiting at the link of the lap before would find the link rewritten under it.
   */
  ghost predicate Room(s: System)
    requires Shape(s)
  {
    |Outstanding(s)| < Slots(s.ring) && (s.ring.enqueue + 1 == Slots(s.ring) ==> s.consumer.cycle == Lap(s))
  }

  /** The block in hand has room, and what is already stored of it is right. */
  ghost predicate InHand(s: System)
    requires Shape(s)
  {
    match s.phase
    case Parameter(d) =>
      Plain(d) && Room(s) && s.ring.trbs[s.ring.enqueue].parameter == d.parameter
    case Status(d) =>
      Plain(d) && Room(s) && s.ring.trbs[s.ring.enqueue].parameter == d.parameter
      && s.ring.trbs[s.ring.enqueue].status == d.status
    case _ => true
  }

  /** The ring holds the queue `q`. */
  ghost predicate Inv(s: System, q: seq<Trb>) {
    Shape(s) && Bits(s) && LinkOk(s) && InHand(s) && AllPlain(q) && Payloads(Outstanding(s)) == q
  }

  // ----- Steps

  lemma PayloadsSplit(a: seq<Trb>, b: seq<Trb>)
    ensures Payloads(a + b) == Payloads(a) + Payloads(b)
  {
  }

  lemma PlainPayload(d: Trb, t: Trb, cycle: nat)
    requires Plain(d) && cycle <= 1 && t == d.(control := d.control + cycle)
    ensures Payload(t) == d && Bit(t) == cycle && !IsLink(t)
  {
  }

  /** Stores to the slot in hand are invisible before its control word. */
  lemma HiddenStore(s: System, s': System, q: seq<Trb>)
    requires Inv(s, q) && |q| < Slots(s.ring) && !s.phase.Published?
    requires var t := s'.ring.trbs;
             && |t| == |s.ring.trbs| && (forall i :: 0 <= i < |t| && i != s.ring.enqueue ==> t[i] == s.ring.trbs[i])
             && t[s.ring.enqueue].control == s.ring.trbs[s.ring.enqueue].control
             && s' == s.(ring := s.ring.(trbs := t), phase := s'.phase) && !s'.phase.Published?
    ensures Shape(s') && Bits(s') && LinkOk(s') && Outstanding(s') == Outstanding(s) && (Room(s') <==> Room(s))
  {
    forall i: nat | i < Slots(s'.ring)
      ensures BitAt(s', i)
    {
      assert BitAt(s, i);
    }
  }

  lemma BeginOk(s: System, d: Trb, q: seq<Trb>)
    requires Inv(s, q) && s.phase.Idle? && Plain(d) && Room(s)
    ensures Inv(Begin(s, d), q)
  {
    hide Bits, LinkOk, IsLink;
    HiddenStore(s, Begin(s, d), q);
  }

  lemma StatusOk(s: System, q: seq<Trb>)
    requires Inv(s, q) && s.phase.Parameter?
    ensures Inv(Continue(s), q)
  {
    hide Bits, LinkOk, Plain;
    HiddenStore(s, Continue(s), q);
  }

  /** The control word publishes the block: it joins the queue. */
  lemma PublishOk(s: System, q: seq<Trb>)
    requires Inv(s, q) && s.phase.Status?
    ensures Inv(Continue(s), q + [s.phase.d])
  {
    var s', d, e := Continue(s), s.phase.d, s.ring.enqueue;
    var t := s'.ring.trbs[e];
    PlainPayload(d, t, s.ring.cycle);
    hide IsLink, Toggles, Payload, Bit, Plain;
    forall i: nat | i < Slots(s'.ring)
      ensures BitAt(s', i)
    {
      assert BitAt(s, i);
    }
    assert LinkOk(s');
    assert Outstanding(s') == Outstanding(s) + [t];
    PayloadsSplit(Outstanding(s), [t]);
    assert Payloads([t]) == [d];
  }

  /** The last store: the enqueue position moves on, through the link at the end of a lap. */
  lemma FinishOk(s: System, q: seq<Trb>)
    requires Inv(s, q) && s.phase.Published?
    ensures Inv(Continue(s), q)
  {
    var s', n := Continue(s), Slots(s.ring);
    assert s.ring.enqueue + 1 == n ==> Bit(s'.ring.trbs[n]) == s.ring.cycle && IsLink(s'.ring.trbs[n]) && Toggles(s'.ring.trbs[n]);
    hide IsLink, Toggles, Payload, Bit, Plain;
    forall i: nat | i < Slots(s'.ring)
      ensures BitAt(s', i)
    {
      assert BitAt(s, i);
    }
    assert Outstanding(s') == Outstanding(s);
  }

  /** The consumer takes the oldest block, or follows the link; it waits only when nothing is outstanding. */
  lemma LookOk(s: System, q: seq<Trb>)
    requires Inv(s, q)
    ensures var (s', got) := Look(s);
            if got.Some? then |q| > 0 && got.value == q[0] && Inv(s', q[1..])
            else Inv(s', q) && (s' == s ==> q == [])
  {
    var (s', got) := Look(s);
    var c, n := s.consumer.dequeue, Slots(s.ring);
    if c < n {
      assert BitAt(s, c);
      if Bit(s.ring.trbs[c]) == s.consumer.cycle {
        LookTakes(s, q);
      }
    } else {
      hide Payload, Plain;
      if Bit(s.ring.trbs[c]) == s.consumer.cycle {
        forall i: nat | i < Slots(s'.ring)
          ensures BitAt(s', i)
        {
          assert BitAt(s, i);
        }
        assert Outstanding(s') == Outstanding(s);
      }
    }
  }

  lemma HeadOf(s: System, q: seq<Trb>)
    requires Inv(s, q) && s.consumer.dequeue < Slots(s.ring) && Bit(s.ring.trbs[s.consumer.dequeue]) == s.consumer.cycle
    ensures |q| > 0 && Payload(s.ring.trbs[s.consumer.dequeue]) == q[0] && !IsLink(s.ring.trbs[s.consumer.dequeue])
    ensures |Outstanding(s)| > 0
  {
    var c := s.consumer.dequeue;
    var t, o := s.ring.trbs[c], Outstanding(s);
    assert BitAt(s, c);
    assert |o| > 0 && o[0] == t;
    assert Payloads(o)[0] == Payload(t) && Plain(q[0]);
    assert t.control / 1024 == (t.control - t.control % 2) / 1024;
  }

  lemma LookTakes(s: System, q: seq<Trb>)
    requires Inv(s, q) && s.consumer.dequeue < Slots(s.ring) && Bit(s.ring.trbs[s.consumer.dequeue]) == s.consumer.cycle
    ensures var (s', got) := Look(s); got.Some? && |q| > 0 && got.value == q[0] && Inv(s', q[1..])
  {
    HeadOf(s, q);
    hide IsLink, Toggles, Payload, Bit, Plain;
    var s', o := Look(s).0, Outstanding(s);
    forall i: nat | i < Slots(s'.ring)
      ensures BitAt(s', i)
    {
      assert BitAt(s, i);
    }
    assert Outstanding(s') == o[1..];
    PayloadsTail(o);
  }

  lemma PayloadsTail(o: seq<Trb>)
    requires |o| > 0
    ensures Payloads(o[1..]) == Payloads(o)[1..]
  {
  }

  // ----- Whole pushes

  /** All stores of one `ring_push`. */
  function PushAll(s: System, d: Trb): System
    requires s.ring.enqueue + 1 < |s.ring.trbs| && s.ring.cycle <= 1
  {
    Continue(Continue(Continue(Begin(s, d))))
  }

  lemma PushOk(s: System, d: Trb, q: seq<Trb>)
    requires Inv(s, q) && s.phase.Idle? && Plain(d) && Room(s)
    ensures Inv(PushAll(s, d), q + [d]) && PushAll(s, d).phase.Idle?
  {
    hide Bits, LinkOk, InHand, Room, Plain, Payloads, Outstanding;
    var s1 := Begin(s, d);
    BeginOk(s, d, q);
    PhaseKept(s1);
    StatusOk(s1, q);
    var s2 := Continue(s1);
    PhaseKept(s2);
    PublishOk(s2, q);
    var s3 := Continue(s2);
    PhaseKept(s3);
    FinishOk(s3, q + [d]);
  }

  lemma PhaseKept(s: System)
    requires s.ring.enqueue + 1 < |s.ring.trbs| && s.ring.cycle <= 1
    ensures match s.phase
            case Idle => Continue(s) == s
            case Parameter(d) => Continue(s).phase == Status(d) && Continue(s).ring.enqueue == s.ring.enqueue
            case Status(d) => Continue(s).phase == Published && Continue(s).ring.enqueue == s.ring.enqueue
            case Published => Continue(s).phase == Idle
    ensures |Continue(s).ring.trbs| == |s.ring.trbs| && Continue(s).ring.cycle <= 1
  {
  }

  /** Fewer than `size - 2` blocks outstanding always leave room. */
  lemma RoomEnough(s: System, q: seq<Trb>)
    requires Inv(s, q) && |q| < Slots(s.ring) - 1 && !s.phase.Published?
    ensures Room(s)
  {
    hide Payload;
  }

  /** Without room, a push leaves the consumer waiting although blocks are outstanding. */
  lemma NoRoomStuck(s: System, d: Trb, q: seq<Trb>)
    requires Inv(s, q) && s.phase.Idle? && Plain(d) && !Room(s)
    ensures Look(PushAll(s, d)) == (PushAll(s, d), None)
    ensures |q| >= Slots(s.ring) - 1
  {
    var n, e := Slots(s.ring), s.ring.enqueue;
    var s' := PushAll(s, d);
    assert s'.ring.trbs[e].control == d.control + s.ring.cycle;
    assert e + 1 == n ==> s'.ring.trbs[n] == LinkTrb(s.ring.base, s.ring.cycle);
  }

  /** A ring of three: two blocks pushed and taken, the consumer still to follow the link, and one more block pushed. */
  function Parked(base: nat, d: Trb): System {
    var s := PushAll(PushAll(Fresh(base, 3), d), d);
    PushAll(s.(consumer := Consumer(2, 1)), d)
  }

  /** A free slot is not enough: with one block outstanding in a ring with two slots, the next push leaves the consumer waiting. */
  lemma LinkParked(base: nat, d: Trb)
    requires Plain(d)
    ensures var s := PushAll(PushAll(Fresh(base, 3), d), d); Look(Look(s).0).0 == s.(consumer := Consumer(2, 1))
    ensures Inv(Parked(base, d), [d]) && Slots(Parked(base, d).ring) == 2 && !Room(Parked(base, d))
    ensures Look(PushAll(Parked(base, d), d)) == (PushAll(Parked(base, d), d), None)
  {
    FreshOk(base, 3);
    var s0 := Fresh(base, 3);
    PushOk(s0, d, []);
    var s1 := PushAll(s0, d);
    PushOk(s1, d, [d]);
    var s2 := PushAll(s1, d);
    LookOk(s2, [d, d]);
    var s3 := Look(s2).0;
    LookOk(s3, [d]);
    var s4 := Look(s3).0;
    PushOk(s4, d, []);
    NoRoomStuck(Parked(base, d), d, [d]);
  }

  // ----- Runs

  /** What happens next: the driver starts a push or makes its next store, or the controller looks at the ring. */
  datatype Event = Start(d: Trb) | Store | Looks

  ghost predicate Steady(s: System) {
    && s.ring.enqueue + 1 < |s.ring.trbs| && s.ring.cycle <= 1
    && s.consumer.dequeue < |s.ring.trbs| && s.consumer.cycle <= 1
  }

  ghost function Step(s: System, e: Event): System
    requires Steady(s)
  {
    match e
    case Start(d) => if s.phase.Idle? then Begin(s, d) else s
    case Store => Continue(s)
    case Looks => Look(s).0
  }

  /** What the event adds to the blocks published, and to those the controller got. */
  ghost function Publishes(s: System, e: Event): seq<Trb> {
    if e.Store? && s.phase.Status? then [s.phase.d] else []
  }

  ghost function Delivers(s: System, e: Event): seq<Trb>
    requires Steady(s)
  {
    if e.Looks? && Look(s).1.Some? then [Look(s).1.value] else []
  }

  /** Every push in the run starts with a block that may be pushed and with room for it. */
  ghost predicate Calm(s: System, events: seq<Event>)
    decreases |events|
  {
    |events| > 0 ==>
      Steady(s)
      && (events[0].Start? && s.phase.Idle? ==> Plain(events[0].d) && Shape(s) && Room(s))
      && Calm(Step(s, events[0]), events[1..])
  }

  ghost function AllPublished(s: System, events: seq<Event>): seq<Trb>
    decreases |events|
  {
    if |events| == 0 || !Steady(s) then [] else Publishes(s, events[0]) + AllPublished(Step(s, events[0]), events[1..])
  }

  ghost function AllDelivered(s: System, events: seq<Event>): seq<Trb>
    decreases |events|
  {
    if |events| == 0 || !Steady(s) then [] else Delivers(s, events[0]) + AllDelivered(Step(s, events[0]), events[1..])
  }

  /** The system after a run. */
  ghost function Final(s: System, events: seq<Event>): System
    decreases |events|
  {
    if |events| == 0 || !Steady(s) then s else Final(Step(s, events[0]), events[1..])
  }

  lemma StepOk(s: System, e: Event, q: seq<Trb>) returns (q': seq<Trb>)
    requires Inv(s, q) && (e.Start? && s.phase.Idle? ==> Plain(e.d) && Room(s))
    ensures Steady(s) && Inv(Step(s, e), q') && Delivers(s, e) + q' == q + Publishes(s, e)
  {
    hide Bits, LinkOk, InHand, Room, Plain, Payloads, Outstanding, Begin, Continue, Look;
    match e
    case Start(d) =>
      if s.phase.Idle? {
        BeginOk(s, d, q);
      }
      q' := q;
    case Store =>
      q' := q + Publishes(s, e);
      match s.phase {
        case Idle => PhaseKept(s);
        case Parameter(d) => StatusOk(s, q);
        case Status(d) => PublishOk(s, q);
        case Published => FinishOk(s, q);
      }
    case Looks =>
      LookOk(s, q);
      q' := if Look(s).1.Some? then q[1..] else q;
  }

  /**
   * Over any interleaving, what the controller got and what the ring holds at the end is what it held at the start
   * and what was published, once each and in order.
   */
  lemma {:induction false} RingIsFifo(s: System, events: seq<Event>, q: seq<Trb>) returns (q': seq<Trb>)
    requires Inv(s, q) && Calm(s, events)
    ensures Inv(Final(s, events), q') && AllDelivered(s, events) + q' == q + AllPublished(s, events)
    decreases |events|
  {
    hide Inv, Step, Delivers, Publishes, Room, Plain, Shape;
    if |events| == 0 {
      q' := q;
    } else {
      var q1 := StepOk(s, events[0], q);
      q' := RingIsFifo(Step(s, events[0]), events[1..], q1);
      var a, b, c, d := Delivers(s, events[0]), AllDelivered(Step(s, events[0]), events[1..]), Publishes(s, events[0]),
                        AllPublished(Step(s, events[0]), events[1..]);
      assert (a + b) + q' == a + (b + q') == a + (q1 + d) == (a + q1) + d == (q + c) + d == q + (c + d);
    }
  }

  /** The controller looks `n` times. */
  function Looking(n: nat): seq<Event> {
    seq(n, _ => Looks)
  }

  lemma LookingTail(n: nat)
    requires n > 0
    ensures Looking(n)[0] == Looks && Looking(n)[1..] == Looking(n - 1)
  {
  }

  /** The looks it takes to get all of `q`: one a block, and one more while the link is still to be followed. */
  function Effort(s: System, q: seq<Trb>): nat {
    if |q| == 0 then 0 else |q| + if s.consumer.cycle != Lap(s) then 1 else 0
  }

  /** A look makes progress as long as anything is outstanding. */
  lemma LookAdvances(s: System, q: seq<Trb>) returns (q': seq<Trb>)
    requires Inv(s, q)
    ensures Steady(s) && Inv(Look(s).0, q') && q == Delivers(s, Looks) + q'
    ensures q != [] ==> Effort(Look(s).0, q') < Effort(s, q)
  {
    hide Inv, Lap;
    LookOk(s, q);
    LookLap(s, q);
    q' := if Look(s).1.Some? then q[1..] else q;
  }

  /** Only a look at the link yields no block and moves, and it moves to the producer's lap. */
  lemma LookLap(s: System, q: seq<Trb>)
    requires Inv(s, q)
    ensures Steady(s) && Lap(Look(s).0) == Lap(s)
    ensures var (s', got) := Look(s); got.None? && s' != s ==> s.consumer.cycle != Lap(s) && s'.consumer.cycle == Lap(s)
  {
    hide InHand, Payloads, Payload, IsLink;
    if s.consumer.dequeue < Slots(s.ring) && Bit(s.ring.trbs[s.consumer.dequeue]) == s.consumer.cycle {
      HeadOf(s, q);
    }
  }

  /**
   * Nothing outstanding is lost: however the ring stands, in the middle of a push or not, a controller that keeps looking
   * gets all of it, in order, and leaves the ring empty.
   */
  lemma {:induction false} LooksDeliver(s: System, q: seq<Trb>, n: nat)
    requires Inv(s, q) && n >= Effort(s, q)
    ensures AllDelivered(s, Looking(n)) == q && Inv(Final(s, Looking(n)), [])
    decreases n
  {
    hide Inv, Look, Effort;
    EffortNone(s, q);
    if n > 0 {
      LookingTail(n);
      var q' := LookAdvances(s, q);
      EffortNone(Look(s).0, q');
      LooksDeliver(Look(s).0, q', n - 1);
    }
  }

  lemma EffortNone(s: System, q: seq<Trb>)
    ensures q == [] <==> Effort(s, q) == 0
  {
  }

  // ----- The ring in memory

  const CYCLE: nat := 1

  function ZeroTrb(): Trb {
    Trb(0, 0, 0)
  }

  /** The state `ring_init` leaves, with a consumer at the start that expects cycle bit 1. */
  function Fresh(base: nat, size: nat): System
    requires size > 0
  {
    System(Ring(base, seq(size, _ => ZeroTrb())[size - 1 := LinkTrb(base, 1)], 0, 1), Idle, Consumer(0, 1))
  }

  lemma FreshOk(base: nat, size: nat)
    requires size >= 2
    ensures Inv(Fresh(base, size), [])
  {
    var s := Fresh(base, size);
    assert Outstanding(s) == [];
    forall i: nat | i < Slots(s.ring)
      ensures BitAt(s, i)
    {
    }
  }

  /** Every block published in a run on a fresh ring arrives, once and in order, if the controller goes on looking afterwards. */
  lemma AllArrive(base: nat, size: nat, events: seq<Event>) returns (n: nat)
    requires size >= 2 && Calm(Fresh(base, size), events)
    ensures var s := Fresh(base, size);
            AllDelivered(s, events) + AllDelivered(Final(s, events), Looking(n)) == AllPublished(s, events)
  {
    hide Calm, AllDelivered, AllPublished, Final, Fresh, Inv;
    var s := Fresh(base, size);
    FreshOk(base, size);
    var q := RingIsFifo(s, events, []);
    n := Effort(Final(s, events), q);
    LooksDeliver(Final(s, events), q, n);
    assert [] + AllPublished(s, events) == AllPublished(s, events);
  }

  class ProducerRing {
    const base: nat
    const trbs: array<Trb>
    var enqueue: nat
    var cycle: nat

    ghost predicate Valid()
      reads this
    {
      trbs.Length >= 1 && (trbs.Length >= 2 ==> enqueue < trbs.Length - 1) && cycle <= 1
    }

    ghost function State(): Ring
      reads this, trbs
    {
      Ring(base, trbs[..], enqueue, cycle)
    }

    /** `ring_init`. */
    constructor (address: nat, size: nat)
      requires size >= 1
      ensures Valid() && fresh(trbs) && trbs.Length == size && State() == Fresh(address, size).ring
    {
      base, trbs, enqueue, cycle := address, new Trb[size](_ => ZeroTrb()), 0, 1;
      new;
      trbs[size - 1] := LinkTrb(address, 1);
    }

    /** `ring_push`: the slot the block went to, or nothing in a ring with no slot besides the link. */
    method Push(parameter: nat, status: nat, control: nat, ghost c: Consumer) returns (r: Option<nat>)
      requires Valid()
      modifies this`enqueue, this`cycle, trbs
      ensures Valid() && r == if trbs.Length == 1 then None else Some(old(enqueue))
      ensures State() == if trbs.Length == 1 then old(State())
                         else PushAll(System(old(State()), Idle, c), Trb(parameter, status, control)).ring
    {
      if enqueue >= trbs.Length - 1 {
        return None;
      }
      var slot := enqueue;
      ghost var old0 := trbs[..];
      var bit := if cycle != 0 then CYCLE else 0;
      trbs[slot] := trbs[slot].(parameter := parameter);
      trbs[slot] := trbs[slot].(status := status);
      trbs[slot] := trbs[slot].(control := WithCycle(control, bit));
      assert trbs[..] == old0[slot := Trb(parameter, status, WithCycle(control, bit))];
      enqueue := enqueue + 1;
      if enqueue == trbs.Length - 1 {
        trbs[trbs.Length - 1] := LinkTrb(base, bit);
        enqueue := 0;
        cycle := 1 - cycle;
      }
      return Some(slot);
    }
  }
}
