/** The key dispatcher: one event queue and one table for all keys. */
module Keyboard {
  import opened Memory
  import opened KeyTiming

  datatype Event = Event(down: bool, scancode: nat)

  /** A delivered code with the key it belongs to. */
  datatype Delivery = Delivery(scancode: nat, code: Code)

  function ByteOf(d: Delivery): nat {
    if d.code.Make? then d.scancode else d.scancode + 0x80
  }

  function EventsOf(events: seq<Event>, sc: nat): seq<bool> {
    if events == [] then []
    else if events[0].scancode == sc then [events[0].down] + EventsOf(events[1..], sc)
    else EventsOf(events[1..], sc)
  }

  function LogOf(log: seq<Delivery>, sc: nat): seq<Code> {
    if log == [] then []
    else
      var rest := LogOf(log[..|log| - 1], sc);
      if log[|log| - 1].scancode == sc then rest + [log[|log| - 1].code] else rest
  }

  /** The dispatcher's fields, with the deliveries as codes. */
  datatype Board = Board(events: seq<Event>, down: map<nat, nat>, release: set<nat>, log: seq<Delivery>, boundaries: nat)

  /** One key's share of the board. */
  function KeyOf(b: Board, sc: nat): Key {
    Key(EventsOf(b.events, sc), if sc in b.down then Some(b.down[sc]) else None, sc in b.release, LogOf(b.log, sc), b.boundaries)
  }

  /** The front event applied. */
  function Handle(b: Board, e: Event): Board {
    if !e.down then b.(release := b.release + {e.scancode})
    else if e.scancode in b.down then b.(release := b.release - {e.scancode})
    else b.(release := b.release - {e.scancode}, down := b.down[e.scancode := 0],
            log := b.log + [Delivery(e.scancode, Make(b.boundaries))])
  }

  lemma LogSnoc(log: seq<Delivery>, d: Delivery, sc: nat)
    ensures LogOf(log + [d], sc) == if d.scancode == sc then LogOf(log, sc) + [d.code] else LogOf(log, sc)
  {
    assert (log + [d])[..|log|] == log;
  }

  lemma {:induction false} EventsSnoc(events: seq<Event>, e: Event, sc: nat)
    ensures EventsOf(events + [e], sc) == if e.scancode == sc then EventsOf(events, sc) + [e.down] else EventsOf(events, sc)
  {
    if events == [] {
      assert [] + [e] == [e] && [e][1..] == [];
    } else {
      assert (events + [e])[1..] == events[1..] + [e];
      EventsSnoc(events[1..], e, sc);
    }
  }

  /** Handling an event is applying it to its key and nothing to any other. */
  lemma HandleOne(b: Board, sc: nat)
    requires b.events != []
    ensures var (e, rest) := (b.events[0], b.(events := b.events[1..]));
            KeyOf(Handle(rest, e), sc)
            == if e.scancode == sc then Apply(KeyOf(b, sc).(queue := KeyOf(b, sc).queue[1..]), KeyOf(b, sc).queue[0])
               else KeyOf(b, sc)
    ensures b.events[0].scancode == sc ==> KeyOf(b, sc).queue != [] && KeyOf(b, sc).queue[0] == b.events[0].down
  {
    LogSnoc(b.log, Delivery(b.events[0].scancode, Make(b.boundaries)), sc);
    hide LogOf;
  }

  lemma DrainSame(b: Board, sc: nat)
    requires b.events != []
    ensures Drain(KeyOf(Handle(b.(events := b.events[1..]), b.events[0]), sc)) == Drain(KeyOf(b, sc))
  {
    HandleOne(b, sc);
    hide Handle, KeyOf, Apply;
  }

  lemma DrainNone(b: Board, sc: nat)
    requires b.events == []
    ensures Drain(KeyOf(b, sc)) == KeyOf(b, sc)
  {
    hide LogOf;
  }

  /** The break for one ready key. */
  function ReleaseOne(b: Board, sc: nat, hold: bool): Board {
    if sc in b.release && ((sc in b.down && b.down[sc] >= 1) || !hold) then
      b.(log := b.log + [Delivery(sc, Break(b.boundaries, hold))], down := b.down - {sc}, release := b.release - {sc})
    else b
  }

  lemma ReleaseOneIs(b: Board, sc: nat, hold: bool, other: nat)
    ensures KeyOf(ReleaseOne(b, sc, hold), other) == if other == sc then Release(KeyOf(b, sc), hold) else KeyOf(b, other)
  {
    LogSnoc(b.log, Delivery(sc, Break(b.boundaries, hold)), other);
    hide LogOf, EventsOf;
  }

  lemma NotPending(k: Key, hold: bool)
    requires !k.release
    ensures Release(k, hold) == k
  {
  }

  function Older(b: Board): Board {
    b.(down := map sc | sc in b.down :: b.down[sc] + 1, boundaries := b.boundaries + 1)
  }

  lemma OlderIs(b: Board, sc: nat)
    ensures KeyOf(Older(b), sc) == Aged(KeyOf(b, sc))
  {
    hide LogOf, EventsOf;
  }

  class KeyDispatcher {
    var delivered: seq<nat>
    var events: seq<Event>
    var down: map<nat, nat>
    var release: set<nat>
    ghost var log: seq<Delivery>
    ghost var boundaries: nat

    constructor ()
      ensures Valid() && forall sc :: KeyOf(State(), sc) == IDLE
    {
      delivered, events, down, release, log, boundaries := [], [], map[], {}, [], 0;
    }

    /** The bytes delivered are the codes logged. */
    ghost predicate Valid()
      reads this
    {
      |delivered| == |log| && forall i :: 0 <= i < |log| ==> delivered[i] == ByteOf(log[i])
    }

    ghost function State(): Board
      reads this
    {
      Board.Board(events, down, release, log, boundaries)
    }

    method Deliver(code: nat, ghost d: Delivery)
      requires Valid() && code == ByteOf(d)
      modifies this`delivered, this`log
      ensures Valid() && log == old(log) + [d] && delivered == old(delivered) + [ByteOf(d)]
    {
      delivered := delivered + [code];
      log := log + [d];
    }

    method PostDown(sc: nat)
      requires Valid() && sc < 0x80
      modifies this`events
      ensures Valid() && forall k :: KeyOf(State(), k) == if k == sc then Act(KeyOf(old(State()), k), Action.PostDown) else KeyOf(old(State()), k)
    {
      PostedAll(State(), Event.Event(true, sc));
      hide KeyOf;
      events := events + [Event.Event(true, sc)];
    }

    method PostUp(sc: nat)
      requires Valid() && sc < 0x80
      modifies this`events
      ensures Valid() && forall k :: KeyOf(State(), k) == if k == sc then Act(KeyOf(old(State()), k), Action.PostUp) else KeyOf(old(State()), k)
    {
      PostedAll(State(), Event.Event(false, sc));
      hide KeyOf;
      events := events + [Event.Event(false, sc)];
    }

    method HandleEvent(e: Event)
      requires Valid()
      modifies this`release, this`down, this`delivered, this`log
      ensures Valid() && State() == Handle(old(State()), e)
    {
      if e.down {
        release := release - {e.scancode};
        if e.scancode !in down {
          Deliver(e.scancode, Delivery(e.scancode, Make(boundaries)));
          down := down[e.scancode := 0];
        }
      } else {
        release := release + {e.scancode};
      }
    }

    method DrainEvents()
      requires Valid()
      modifies this`events, this`release, this`down, this`delivered, this`log
      ensures Valid() && forall k :: KeyOf(State(), k) == Drain(KeyOf(old(State()), k))
    {
      hide KeyOf, Handle, Drain;
      while events != []
        invariant Valid() && boundaries == old(boundaries)
        invariant forall k :: Drain(KeyOf(State(), k)) == Drain(KeyOf(old(State()), k))
        decreases |events|
      {
        ghost var b := State();
        DrainSameAll(b);
        var e := events[0];
        events := events[1..];
        HandleEvent(e);
      }
      DrainNoneAll(State());
    }

    /** Deliver the breaks that are due. */
    method ReleaseReady(hold: bool)
      requires Valid()
      modifies this`release, this`down, this`delivered, this`log
      ensures Valid() && forall k :: KeyOf(State(), k) == Release(KeyOf(old(State()), k), hold)
    {
      hide KeyOf, Release, ReleaseOne;
      var todo := release;
      ghost var b := State();
      ghost var done: set<nat> := {};
      while todo != {}
        invariant Valid() && done + todo == b.release && done !! todo
        invariant forall k :: KeyOf(State(), k) == if k in done then Release(KeyOf(b, k), hold) else KeyOf(b, k)
        decreases |todo|
      {
        var sc :| sc in todo;
        ReleaseOneAll(State(), sc, hold);
        ReleaseKey(sc, hold);
        todo, done := todo - {sc}, done + {sc};
      }
      NotPendingAll(b, hold);
    }

    method ReleaseKey(sc: nat, hold: bool)
      requires Valid()
      modifies this`release, this`down, this`delivered, this`log
      ensures Valid() && State() == ReleaseOne(old(State()), sc, hold)
    {
      if sc in release && ((sc in down && down[sc] >= 1) || !hold) {
        Deliver(sc + 0x80, Delivery(sc, Break(boundaries, hold)));
        down := down - {sc};
        release := release - {sc};
      }
    }

    /** Queued events without a frame boundary. */
    method PumpEvents()
      requires Valid()
      modifies this
      ensures Valid() && forall k :: KeyOf(State(), k) == PumpEventsKey(KeyOf(old(State()), k))
      ensures forall k :: Flushed(KeyOf(old(State()), k), KeyOf(State(), k))
    {
      FlushesAll();
      hide KeyOf, Drain, Release, Flushed;
      DrainEvents();
      ReleaseReady(false);
    }

    /** Queued events for one boundary; held keys grow older. */
    method Pump(allowRelease: bool)
      requires Valid()
      modifies this
      ensures Valid() && forall k :: KeyOf(State(), k) == PumpKey(KeyOf(old(State()), k), allowRelease)
      ensures forall k :: Pumped(KeyOf(old(State()), k), allowRelease, KeyOf(State(), k))
    {
      PumpsAll(allowRelease);
      hide KeyOf, Drain, Release, Aged, Pumped;
      DrainEvents();
      if allowRelease {
        ReleaseReady(true);
      }
      OlderAll(State());
      down := map sc | sc in down :: down[sc] + 1;
      boundaries := boundaries + 1;
    }
  }

  lemma PumpsAll(allow: bool)
    ensures forall k :: Pumped(k, allow, PumpKey(k, allow))
  {
    hide *;
    forall k
      ensures Pumped(k, allow, PumpKey(k, allow))
    {
      PumpMeans(k, allow);
    }
  }

  lemma FlushesAll()
    ensures forall k :: Flushed(k, PumpEventsKey(k))
  {
    hide *;
    forall k
      ensures Flushed(k, PumpEventsKey(k))
    {
      PumpEventsMeans(k);
    }
  }

  /** Below 80h a make is the scan code itself and a break the scan code with its high bit set. */
  lemma BytesTell(d: Delivery)
    requires d.scancode < 0x80
    ensures ByteOf(d) % 0x80 == d.scancode && (ByteOf(d) >= 0x80 <==> d.code.Break?) && ByteOf(d) < 0x100
  {
  }

  lemma PostedAll(b: Board, e: Event)
    ensures forall k :: KeyOf(b.(events := b.events + [e]), k)
                        == if k == e.scancode then KeyOf(b, k).(queue := KeyOf(b, k).queue + [e.down]) else KeyOf(b, k)
  {
    forall k: nat
      ensures KeyOf(b.(events := b.events + [e]), k)
              == if k == e.scancode then KeyOf(b, k).(queue := KeyOf(b, k).queue + [e.down]) else KeyOf(b, k)
    {
      EventsSnoc(b.events, e, k);
    }
  }

  lemma DrainSameAll(b: Board)
    requires b.events != []
    ensures forall k :: Drain(KeyOf(Handle(b.(events := b.events[1..]), b.events[0]), k)) == Drain(KeyOf(b, k))
  {
    hide Drain, KeyOf, Handle;
    forall k: nat
      ensures Drain(KeyOf(Handle(b.(events := b.events[1..]), b.events[0]), k)) == Drain(KeyOf(b, k))
    {
      DrainSame(b, k);
    }
  }

  lemma DrainNoneAll(b: Board)
    requires b.events == []
    ensures forall k :: Drain(KeyOf(b, k)) == KeyOf(b, k)
  {
    hide Drain, KeyOf;
    forall k: nat
      ensures Drain(KeyOf(b, k)) == KeyOf(b, k)
    {
      DrainNone(b, k);
    }
  }

  lemma ReleaseOneAll(b: Board, sc: nat, hold: bool)
    ensures forall k :: KeyOf(ReleaseOne(b, sc, hold), k) == if k == sc then Release(KeyOf(b, sc), hold) else KeyOf(b, k)
  {
    hide Release, KeyOf, ReleaseOne;
    forall k: nat
      ensures KeyOf(ReleaseOne(b, sc, hold), k) == if k == sc then Release(KeyOf(b, sc), hold) else KeyOf(b, k)
    {
      ReleaseOneIs(b, sc, hold, k);
    }
  }

  lemma NotPendingAll(b: Board, hold: bool)
    ensures forall k :: k !in b.release ==> Release(KeyOf(b, k), hold) == KeyOf(b, k)
  {
    forall k: nat | k !in b.release
      ensures Release(KeyOf(b, k), hold) == KeyOf(b, k)
    {
      NotPending(KeyOf(b, k), hold);
    }
  }

  lemma OlderAll(b: Board)
    ensures forall k :: KeyOf(Older(b), k) == Aged(KeyOf(b, k))
  {
    hide Aged, KeyOf, Older;
    forall k: nat
      ensures KeyOf(Older(b), k) == Aged(KeyOf(b, k))
    {
      OlderIs(b, k);
    }
  }
}
