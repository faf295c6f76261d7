/** The event ring: the controller produces, the driver consumes by cycle bit. One segment, no link. */
module XhciEvents {
  import opened Basics
  import opened XhciRing

  /** The ring, the driver's dequeue position and cycle, and the controller's position and cycle. */
  datatype Events = Events(trbs: seq<Trb>, dequeue: nat, cycle: nat, produce: nat, lap: nat)

  ghost predicate EventShape(s: Events) {
    && 0 < |s.trbs| && s.dequeue < |s.trbs| && s.produce < |s.trbs| && s.cycle <= 1 && s.lap <= 1
    && (if s.cycle == s.lap then s.dequeue <= s.produce else s.produce <= s.dequeue)
  }

  ghost predicate EventBit(s: Events, i: nat)
    requires i < |s.trbs|
  {
    Bit(s.trbs[i]) == if i < s.produce then s.lap else 1 - s.lap
  }

  /** The events written and not yet taken, oldest first. */
  ghost function Waiting(s: Events): seq<Trb>
    requires EventShape(s)
  {
    if s.cycle == s.lap then s.trbs[s.dequeue..s.produce] else s.trbs[s.dequeue..] + s.trbs[..s.produce]
  }

  ghost predicate EventsOk(s: Events) {
    EventShape(s) && forall i: nat :: i < |s.trbs| ==> EventBit(s, i)
  }

  /** The controller writes an event with its current cycle bit. */
  function Post(s: Events, d: Trb): Events
    requires s.produce < |s.trbs| && s.lap <= 1
  {
    var trbs := s.trbs[s.produce := d.(control := d.control - d.control % 2 + s.lap)];
    if s.produce + 1 == |s.trbs| then s.(trbs := trbs, produce := 0, lap := 1 - s.lap)
    else s.(trbs := trbs, produce := s.produce + 1)
  }

  /** `event_next`: the event at the dequeue position, if its cycle bit is the expected one. */
  function NextEvent(s: Events): (Events, Option<Trb>)
    requires s.dequeue < |s.trbs| && s.cycle <= 1
  {
    var t := s.trbs[s.dequeue];
    if Bit(t) != s.cycle then (s, None)
    else if s.dequeue + 1 >= |s.trbs| then (s.(dequeue := 0, cycle := 1 - s.cycle), Some(t))
    else (s.(dequeue := s.dequeue + 1), Some(t))
  }

  lemma PostOk(s: Events, d: Trb)
    requires EventsOk(s) && |Waiting(s)| < |s.trbs|
    ensures EventsOk(Post(s, d))
    ensures exists t :: Payload(t) == Payload(d) && Waiting(Post(s, d)) == Waiting(s) + [t]
  {
    var s' := Post(s, d);
    var t := s'.trbs[s.produce];
    assert Bit(t) == s.lap && Payload(t) == Payload(d);
    hide Bit, Payload;
    forall i: nat | i < |s'.trbs|
      ensures EventBit(s', i)
    {
      assert EventBit(s, i);
    }
    assert Waiting(s') == Waiting(s) + [t];
  }

  /** The driver takes the oldest event, and none only when none is waiting. */
  lemma NextOk(s: Events)
    requires EventsOk(s)
    ensures var (s', got) := NextEvent(s);
            EventsOk(s') && if got.Some? then Waiting(s) == [got.value] + Waiting(s') else s' == s && Waiting(s) == []
  {
    var (s', got) := NextEvent(s);
    assert EventBit(s, s.dequeue);
    hide Bit;
    forall i: nat | i < |s'.trbs|
      ensures EventBit(s', i)
    {
      assert EventBit(s, i);
    }
    if got.Some? {
      assert Waiting(s) == [got.value] + Waiting(s');
    }
  }

  // ----- Runs

  datatype Act = Posts(d: Trb) | Takes

  /** The controller never writes more events than the ring can hold. */
  ghost predicate Fair(s: Events, events: seq<Act>)
    decreases |events|
  {
    |events| > 0 ==>
      EventShape(s)
      && match events[0]
         case Posts(d) => |Waiting(s)| < |s.trbs| && Fair(Post(s, d), events[1..])
         case Takes => Fair(NextEvent(s).0, events[1..])
  }

  /** The events of a run, as the controller means them. */
  function Posted(events: seq<Act>): seq<Trb>
    decreases |events|
  {
    if |events| == 0 then [] else (if events[0].Posts? then [Payload(events[0].d)] else []) + Posted(events[1..])
  }

  ghost function Taken(s: Events, events: seq<Act>): seq<Trb>
    decreases |events|
  {
    if |events| == 0 || !EventShape(s) then []
    else
      match events[0]
      case Posts(d) => Taken(Post(s, d), events[1..])
      case Takes => (if NextEvent(s).1.Some? then [NextEvent(s).1.value] else []) + Taken(NextEvent(s).0, events[1..])
  }

  /** The ring after a run. */
  ghost function Final(s: Events, events: seq<Act>): Events
    decreases |events|
  {
    if |events| == 0 || !EventShape(s) then s
    else
      match events[0]
      case Posts(d) => Final(Post(s, d), events[1..])
      case Takes => Final(NextEvent(s).0, events[1..])
  }

  /**
   * Over any interleaving, what the driver took and what waits in the ring at the end is what waited at the start and
   * what was posted, once each and in order.
   */
  lemma {:induction false} EventsAreFifo(s: Events, events: seq<Act>)
    requires EventsOk(s) && Fair(s, events)
    ensures EventsOk(Final(s, events))
    ensures Payloads(Taken(s, events) + Waiting(Final(s, events))) == Payloads(Waiting(s)) + Posted(events)
    decreases |events|
  {
    hide Payload, Bit, Waiting, Payloads, EventBit, Post, NextEvent;
    if |events| == 0 {
      assert [] + Waiting(s) == Waiting(s) && Payloads(Waiting(s)) + [] == Payloads(Waiting(s));
    } else {
      match events[0]
      case Posts(d) =>
        PostOk(s, d);
        var t :| Payload(t) == Payload(d) && Waiting(Post(s, d)) == Waiting(s) + [t];
        EventsAreFifo(Post(s, d), events[1..]);
        PostedFirst(Waiting(s), t, Taken(Post(s, d), events[1..]) + Waiting(Final(s, events)), Posted(events[1..]));
      case Takes =>
        NextOk(s);
        var (s', got) := NextEvent(s);
        EventsAreFifo(s', events[1..]);
        assert [] + Taken(s', events[1..]) == Taken(s', events[1..]) && [] + Posted(events[1..]) == Posted(events[1..]);
        if got.Some? {
          TakenFirst(got.value, Waiting(s'), Taken(s', events[1..]), Waiting(Final(s, events)), Posted(events[1..]));
        }
    }
  }

  /** The driver asks `n` times. */
  function Taking(n: nat): seq<Act> {
    seq(n, _ => Takes)
  }

  lemma TakingTail(n: nat)
    requires n > 0
    ensures Taking(n)[0] == Takes && Taking(n)[1..] == Taking(n - 1)
  {
  }

  /** A driver that asks as often as events wait gets exactly these, and leaves the ring empty. */
  lemma {:induction false} TakesAll(s: Events, n: nat)
    requires EventsOk(s) && n == |Waiting(s)|
    ensures Taken(s, Taking(n)) == Waiting(s) && EventsOk(Final(s, Taking(n))) && Waiting(Final(s, Taking(n))) == []
    decreases n
  {
    hide Waiting, EventBit, NextEvent, Bit;
    if n > 0 {
      TakingTail(n);
      NextOk(s);
      TakesAll(NextEvent(s).0, n - 1);
    }
  }

  lemma PostedFirst(w: seq<Trb>, t: Trb, all: seq<Trb>, posted: seq<Trb>)
    requires Payloads(all) == Payloads(w + [t]) + posted
    ensures Payloads(all) == Payloads(w) + ([Payload(t)] + posted)
  {
    PayloadsSplit(w, [t]);
    assert Payloads([t]) == [Payload(t)];
    hide Payloads;
  }

  lemma TakenFirst(g: Trb, w: seq<Trb>, taken: seq<Trb>, waiting: seq<Trb>, posted: seq<Trb>)
    requires Payloads(taken + waiting) == Payloads(w) + posted
    ensures Payloads(([g] + taken) + waiting) == Payloads([g] + w) + posted
  {
    hide Payloads;
    PayloadsSplit([g], taken + waiting);
    PayloadsSplit([g], w);
    assert ([g] + taken) + waiting == [g] + (taken + waiting);
    assert Payloads([g]) + (Payloads(w) + posted) == Payloads([g]) + Payloads(w) + posted;
  }

  /** The ring as the driver holds it. */
  class EventRing {
    const trbs: array<Trb>
    var dequeue: nat
    var cycle: nat

    ghost predicate Valid()
      reads this
    {
      dequeue < trbs.Length && cycle <= 1
    }

    ghost function State(produce: nat, lap: nat): Events
      reads this, trbs
    {
      Events(trbs[..], dequeue, cycle, produce, lap)
    }

    constructor (size: nat)
      requires size > 0
      ensures Valid() && fresh(trbs) && trbs.Length == size && dequeue == 0 && cycle == 1 && EventsOk(State(0, 1)) && Waiting(State(0, 1)) == []
    {
      trbs, dequeue, cycle := new Trb[size](_ => ZeroTrb()), 0, 1;
      new;
      assert forall i: nat :: i < |trbs[..]| ==> trbs[..][i] == ZeroTrb();
      assert forall i: nat :: i < |trbs[..]| ==> EventBit(State(0, 1), i);
    }

    method TakeNext(ghost produce: nat, ghost lap: nat) returns (event: Option<Trb>)
      requires Valid()
      modifies this`dequeue, this`cycle
      ensures Valid() && (State(produce, lap), event) == NextEvent(old(State(produce, lap)))
    {
      var t := trbs[dequeue];
      if t.control % 2 != cycle {
        return None;
      }
      dequeue := dequeue + 1;
      if dequeue >= trbs.Length {
        dequeue := 0;
        cycle := 1 - cycle;
      }
      return Some(t);
    }
  }
}
