/** The 8259 interrupt controller's registers and bit tricks, and the protected-mode host's delivery path. */
module Pic {
  import opened Memory

  type Register = bv8

  datatype Pic = Pic(imr: Register, irr: Register, isr: Register)

  /** `1 << n` */
  function Line(n: nat): Register
    requires n < 8
  {
    match n
    case 0 => 1
    case 1 => 2
    case 2 => 4
    case 3 => 8
    case 4 => 16
    case 5 => 32
    case 6 => 64
    case _ => 128
  }

  predicate Has(r: Register, n: nat)
    requires n < 8
  {
    r & Line(n) != 0
  }

  /** `a | b` */
  function Or(a: Register, b: Register): Register {
    a | b
  }

  /** `a & ~b` */
  function AndNot(a: Register, b: Register): Register {
    a & !b
  }

  /** `bit_length() - 1` of a single bit. */
  function Index(bit: Register): (n: nat)
    ensures n < 8
  {
    if bit == 1 then 0
    else if bit == 2 then 1
    else if bit == 4 then 2
    else if bit == 8 then 3
    else if bit == 16 then 4
    else if bit == 32 then 5
    else if bit == 64 then 6
    else 7
  }

  function RaiseIrq(p: Pic, n: nat): Pic {
    p.(irr := Or(p.irr, Line(n % 8)))
  }

  function SetMask(p: Pic, value: Register): Pic {
    p.(imr := value)
  }

  /** `x & (x - 1)` */
  function ClearLowest(x: Register): Register
    requires x != 0
  {
    x & (x - 1)
  }

  /** `self.isr &= self.isr - 1` */
  function Eoi(p: Pic): Pic {
    if p.isr != 0 then p.(isr := ClearLowest(p.isr)) else p
  }

  function Pending(p: Pic): Register {
    AndNot(p.irr, p.imr)
  }

  /** `pending & -pending` */
  function LowestBit(x: Register): Register {
    x & (0 - x)
  }

  function Acknowledge(p: Pic): (Pic, Option<nat>) {
    if p.isr != 0 || Pending(p) == 0 then (p, None)
    else
      var cand := LowestBit(Pending(p));
      (p.(irr := AndNot(p.irr, cand), isr := Or(p.isr, cand)), Some(Index(cand)))
  }

  // ---- what the bit tricks mean ----------------------------------------------------

  /** The lowest-numbered line present. */
  ghost predicate IsLowest(r: Register, n: nat) {
    n < 8 && Has(r, n) && forall m: nat :: m < n ==> !Has(r, m)
  }

  ghost predicate AtMostOne(r: Register) {
    forall m: nat, n: nat :: m < 8 && n < 8 && Has(r, m) && Has(r, n) ==> m == n
  }

  lemma LowestBitIsLine(x: Register)
    requires x != 0
    ensures LowestBit(x) == Line(Index(LowestBit(x)))
  {
  }

  lemma LowestBitPresent(x: Register)
    requires x != 0
    ensures Has(x, Index(LowestBit(x)))
  {
  }

  lemma BelowLowest(x: Register, m: nat)
    requires x != 0 && m < Index(LowestBit(x))
    ensures !Has(x, m)
  {
  }

  lemma LineBits(m: nat, n: nat)
    requires m < 8 && n < 8
    ensures Has(Line(n), m) <==> m == n
  {
  }

  lemma HasOr(a: Register, b: Register, m: nat)
    requires m < 8
    ensures Has(Or(a, b), m) <==> Has(a, m) || Has(b, m)
  {
  }

  lemma HasAndNot(a: Register, b: Register, m: nat)
    requires m < 8
    ensures Has(AndNot(a, b), m) <==> Has(a, m) && !Has(b, m)
  {
  }

  lemma NothingHas(m: nat)
    requires m < 8
    ensures !Has(0, m)
  {
  }

  lemma SomeLine(x: Register)
    requires x != 0
    ensures exists n: nat :: n < 8 && Has(x, n)
  {
    LowestBitPresent(x);
  }

  lemma PendingHas(p: Pic, m: nat)
    requires m < 8
    ensures Has(Pending(p), m) <==> Has(p.irr, m) && !Has(p.imr, m)
  {
    HasAndNot(p.irr, p.imr, m);
  }

  ghost predicate Waiting(p: Pic, m: nat)
    requires m < 8
  {
    Has(p.irr, m) && !Has(p.imr, m)
  }

  lemma NonePending(p: Pic)
    ensures Pending(p) == 0 <==> forall m: nat :: m < 8 ==> !Waiting(p, m)
  {
    hide Has, Pending;
    forall m: nat | m < 8
      ensures Has(Pending(p), m) <==> Waiting(p, m)
    {
      PendingHas(p, m);
    }
    if Pending(p) == 0 {
      forall m: nat | m < 8
        ensures !Has(0, m)
      {
        NothingHas(m);
      }
    } else {
      SomeLine(Pending(p));
    }
  }

  lemma LowestIs(x: Register)
    requires x != 0
    ensures IsLowest(x, Index(LowestBit(x)))
  {
    hide Has, LowestBit, Index;
    var n := Index(LowestBit(x));
    LowestBitPresent(x);
    forall m: nat | m < n
      ensures !Has(x, m)
    {
      BelowLowest(x, m);
    }
  }

  /** A register with one line taken out. */
  ghost predicate Without(before: Register, after: Register, n: nat) {
    forall m: nat :: m < 8 ==> (Has(after, m) <==> Has(before, m) && m != n)
  }

  lemma TakenOut(r: Register, n: nat)
    requires n < 8
    ensures Without(r, AndNot(r, Line(n)), n)
  {
    hide Has, Line, AndNot;
    forall m: nat | m < 8
      ensures Has(AndNot(r, Line(n)), m) <==> Has(r, m) && m != n
    {
      HasAndNot(r, Line(n), m);
      LineBits(m, n);
    }
  }

  /** What an acknowledge does: None changes nothing; an answer is the lowest waiting line, now alone in service. */
  ghost predicate Acknowledged(p: Pic, q: Pic, r: Option<nat>) {
    match r
    case None => q == p && (p.isr != 0 || forall m: nat :: m < 8 ==> !Waiting(p, m))
    case Some(n) =>
      p.isr == 0 && IsLowest(Pending(p), n) && q.isr == Line(n) && q.imr == p.imr && Without(p.irr, q.irr, n)
  }

  lemma AcknowledgeMeans(p: Pic)
    ensures Acknowledged(p, Acknowledge(p).0, Acknowledge(p).1)
  {
    hide Has, Line, Index, LowestBit, Or, AndNot, Pending, IsLowest, Without, Waiting;
    NonePending(p);
    var x := Pending(p);
    if x != 0 {
      LowestIs(x);
      LowestBitIsLine(x);
      LowestInRange(x);
      OrNothing(LowestBit(x));
      TakenOut(p.irr, Index(LowestBit(x)));
    }
  }

  lemma LowestInRange(x: Register)
    ensures Index(LowestBit(x)) < 8
  {
  }

  lemma OrNothing(x: Register)
    ensures Or(0, x) == x
  {
  }

  lemma ClearsLowest(x: Register, m: nat)
    requires x != 0 && m < 8
    ensures Has(ClearLowest(x), m) <==> Has(x, m) && m != Index(LowestBit(x))
  {
  }

  /** What an EOI does: the lowest line in service leaves it. */
  ghost predicate Ended(p: Pic, q: Pic) {
    q.imr == p.imr && q.irr == p.irr
    && if p.isr == 0 then q.isr == 0
       else exists n: nat :: IsLowest(p.isr, n) && Without(p.isr, q.isr, n)
  }

  lemma EoiMeans(p: Pic)
    ensures Ended(p, Eoi(p))
  {
    hide Has, Index, LowestBit, IsLowest, ClearLowest;
    if p.isr != 0 {
      LowestIs(p.isr);
      forall m: nat | m < 8
        ensures Has(ClearLowest(p.isr), m) <==> Has(p.isr, m) && m != Index(LowestBit(p.isr))
      {
        ClearsLowest(p.isr, m);
      }
      var n: nat := Index(LowestBit(p.isr));
      assert IsLowest(p.isr, n) && Without(p.isr, Eoi(p).isr, n);
    }
  }

  /** What raising a line does. */
  ghost predicate Raised(p: Pic, q: Pic, n: nat) {
    q.imr == p.imr && q.isr == p.isr && forall m: nat :: m < 8 ==> (Has(q.irr, m) <==> Has(p.irr, m) || m == n % 8)
  }

  lemma RaiseMeans(p: Pic, n: nat)
    ensures Raised(p, RaiseIrq(p, n), n)
  {
    hide Has, Line, Or;
    forall m: nat | m < 8
      ensures Has(Or(p.irr, Line(n % 8)), m) <==> Has(p.irr, m) || m == n % 8
    {
      HasOr(p.irr, Line(n % 8), m);
      LineBits(m, n % 8);
    }
  }

  // ---- runs ----------------------------------------------------------------------

  datatype Event = Raise(n: nat) | Mask(value: Register) | EndOfInterrupt | Poll

  /** At most the one line that was last acknowledged is in service. */
  ghost predicate OneInService(p: Pic) {
    p.isr == 0 || exists n: nat :: n < 8 && p.isr == Line(n)
  }

  function Step(p: Pic, e: Event): Pic {
    match e
    case Raise(n) => RaiseIrq(p, n)
    case Mask(value) => SetMask(p, value)
    case EndOfInterrupt => Eoi(p)
    case Poll => Acknowledge(p).0
  }

  lemma EoiClears(n: nat)
    requires n < 8
    ensures Line(n) & (Line(n) - 1) == 0 && Line(n) != 0
  {
  }

  lemma StepKeeps(p: Pic, e: Event)
    requires OneInService(p)
    ensures OneInService(Step(p, e))
    ensures e.EndOfInterrupt? ==> Step(p, e).isr == 0
  {
    AcknowledgeMeans(p);
    if p.isr != 0 {
      var n: nat :| n < 8 && p.isr == Line(n);
      EoiClears(n);
    }
    hide Line, Acknowledge, Has, Or, AndNot, Pending, Waiting, Without;
  }

  function Run(p: Pic, events: seq<Event>): Pic
    decreases |events|
  {
    if events == [] then p else Run(Step(p, events[0]), events[1..])
  }

  const RESET := Pic(0xFF, 0, 0)

  lemma {:induction false} RunKeeps(p: Pic, events: seq<Event>)
    requires OneInService(p)
    ensures OneInService(Run(p, events))
    decreases |events|
  {
    if events != [] {
      hide OneInService, Step;
      StepKeeps(p, events[0]);
      RunKeeps(Step(p, events[0]), events[1..]);
    }
  }

  lemma OneMeansAtMostOne(p: Pic)
    requires OneInService(p)
    ensures AtMostOne(p.isr)
  {
    hide Line, Has;
    forall m: nat, n: nat | m < 8 && n < 8 && Has(p.isr, m) && Has(p.isr, n)
      ensures m == n
    {
      NothingHas(m);
      var k: nat :| k < 8 && p.isr == Line(k);
      LineBits(m, k);
      LineBits(n, k);
    }
  }

  /** Over every interleaving of raise, mask, EOI and acknowledge from reset, at most one line is in service. */
  lemma AtMostOneInService(events: seq<Event>)
    ensures AtMostOne(Run(RESET, events).isr)
  {
    RunKeeps(RESET, events);
    OneMeansAtMostOne(Run(RESET, events));
  }

  /** No poll of the run answered line `n`. */
  ghost predicate NeverAnswered(p: Pic, events: seq<Event>, n: nat)
    decreases |events|
  {
    events == []
    || ((events[0].Poll? ==> Acknowledge(p).1 != Some(n)) && NeverAnswered(Step(p, events[0]), events[1..], n))
  }

  lemma StepKeepsRequest(p: Pic, e: Event, n: nat)
    requires n < 8 && Has(p.irr, n) && (e.Poll? ==> Acknowledge(p).1 != Some(n))
    ensures Has(Step(p, e).irr, n)
  {
    AcknowledgeMeans(p);
    hide Has, Line, Acknowledge, Or, AndNot, Pending, Waiting, IsLowest;
    if e.Raise? {
      HasOr(p.irr, Line(e.n % 8), n);
    }
  }

  /** A request, masked or not, stays pending until it is acknowledged. */
  lemma {:induction false} RequestsWait(p: Pic, events: seq<Event>, n: nat)
    requires n < 8 && Has(p.irr, n) && NeverAnswered(p, events, n)
    ensures Has(Run(p, events).irr, n)
    decreases |events|
  {
    if events != [] {
      StepKeepsRequest(p, events[0], n);
      hide Has, Acknowledge, Step;
      RequestsWait(Step(p, events[0]), events[1..], n);
    }
  }

  // ---- delivery --------------------------------------------------------------------

  /** The timer's next due count, and the controller. */
  datatype Host = Host(pic: Pic, timerNext: Option<int>)

  /** What a poll finds: lines other devices raised, a waiting scan code, the timer's period, the clock, the hooked vectors. */
  datatype World = World(raised: seq<nat>, scanCode: bool, period: Option<int>, clock: int, vectors: map<nat, nat>)

  function RaiseAll(p: Pic, lines: seq<nat>): Pic {
    if lines == [] then p else RaiseIrq(RaiseAll(p, lines[..|lines| - 1]), lines[|lines| - 1])
  }

  /** The timer raises line 0 when its count is due. */
  function Tick(h: Host, w: World): Host {
    match w.period
    case None => h
    case Some(t) =>
      var next := if h.timerNext.Some? then h.timerNext.value else w.clock + t;
      if w.clock >= next then Host(RaiseIrq(h.pic, 0), Some(next + t)) else h.(timerNext := Some(next))
  }

  /** Everything that raises lines, before the acknowledge. */
  function Gather(h: Host, w: World): Host {
    var p := RaiseAll(h.pic, w.raised);
    Tick(h.(pic := if w.scanCode then RaiseIrq(p, 1) else p), w)
  }

  /** No handler, or the bare return stub. */
  predicate Unhooked(w: World, irq: nat) {
    0x08 + irq !in w.vectors || w.vectors[0x08 + irq] % 0x10_0000 == 0xF_FF53
  }

  /** `pending_irq` */
  function PendingIrq(h: Host, w: World): (Host, Option<nat>) {
    var g := Gather(h, w);
    var (p, irq) := Acknowledge(g.pic);
    if irq.Some? && Unhooked(w, irq.value) then (g.(pic := Eoi(p)), None) else (g.(pic := p), irq)
  }

  lemma {:induction false} RaiseAllService(p: Pic, lines: seq<nat>)
    ensures RaiseAll(p, lines).isr == p.isr && RaiseAll(p, lines).imr == p.imr
  {
    if lines != [] {
      RaiseAllService(p, lines[..|lines| - 1]);
    }
  }

  lemma GatherService(h: Host, w: World)
    ensures Gather(h, w).pic.isr == h.pic.isr && Gather(h, w).pic.imr == h.pic.imr
  {
    RaiseAllService(h.pic, w.raised);
    hide RaiseAll, Line;
  }

  /** The timer's line is due: its count is reached, or it starts with a period that is no time at all. */
  predicate Due(h: Host, w: World) {
    w.period.Some? && if h.timerNext.Some? then w.clock >= h.timerNext.value else w.period.value <= 0
  }

  /** When the timer is due next: a period after it was, or after it started. */
  function NextDue(h: Host, w: World): Option<int> {
    if w.period.None? then h.timerNext
    else
      var start := if h.timerNext.Some? then h.timerNext.value else w.clock + w.period.value;
      Some(if Due(h, w) then start + w.period.value else start)
  }

  /** Line `m` is requested at this poll: it was, a device raised it, a scan code waits (line 1) or the timer is due (line 0). */
  ghost predicate Asked(h: Host, w: World, m: nat)
    requires m < 8
  {
    Has(h.pic.irr, m) || (exists i :: 0 <= i < |w.raised| && w.raised[i] % 8 == m) || (m == 1 && w.scanCode) || (m == 0 && Due(h, w))
  }

  lemma RaisedAsks(p: Pic, n: nat, m: nat)
    requires m < 8
    ensures Has(RaiseIrq(p, n).irr, m) <==> Has(p.irr, m) || n % 8 == m
  {
    RaiseMeans(p, n);
    hide Has, Line, Or;
  }

  lemma {:induction false} RaiseAllAsks(p: Pic, lines: seq<nat>, m: nat)
    requires m < 8
    ensures Has(RaiseAll(p, lines).irr, m) <==> Has(p.irr, m) || exists i :: 0 <= i < |lines| && lines[i] % 8 == m
  {
    if lines != [] {
      var k := |lines| - 1;
      RaiseAllAsks(p, lines[..k], m);
      RaisedAsks(RaiseAll(p, lines[..k]), lines[k], m);
      hide Has, RaiseIrq;
      assert forall i :: 0 <= i < k ==> lines[..k][i] == lines[i];
    }
  }

  lemma GatherAsks(h: Host, w: World, m: nat)
    requires m < 8
    ensures Has(Gather(h, w).pic.irr, m) <==> Asked(h, w, m)
    ensures Gather(h, w).timerNext == NextDue(h, w)
  {
    var p := RaiseAll(h.pic, w.raised);
    var q := if w.scanCode then RaiseIrq(p, 1) else p;
    RaiseAllAsks(h.pic, w.raised, m);
    RaisedAsks(p, 1, m);
    RaisedAsks(q, 0, m);
    hide Has, RaiseIrq, RaiseAll;
  }

  /** The lowest line that is asked for and not masked. */
  ghost predicate Lowest(h: Host, w: World, n: nat) {
    n < 8 && Asked(h, w, n) && !Has(h.pic.imr, n) && forall m: nat :: m < n ==> !(Asked(h, w, m) && !Has(h.pic.imr, m))
  }

  /** A handler is installed at the line's vector and it is not the bare return stub. */
  predicate Handled(w: World, n: nat) {
    8 + n in w.vectors && w.vectors[8 + n] % 0x10_0000 != 0xFFF53
  }

  /**
   The delivery path never orphans an in-service bit. While a line is in service a poll
   answers None and only collects requests. While none is, the lowest line asked for and
   not masked is delivered to its handler and is then alone in service, or without a handler
   is consumed with nothing in service; and with no such line nothing happens.
   */
  ghost predicate Delivered(h: Host, w: World, h': Host, r: Option<nat>) {
    h'.pic.imr == h.pic.imr && h'.timerNext == NextDue(h, w)
    && if h.pic.isr != 0 || forall n: nat :: !Lowest(h, w, n) then
         r == None && h'.pic.isr == h.pic.isr && forall m: nat :: m < 8 ==> (Has(h'.pic.irr, m) <==> Asked(h, w, m))
       else
         exists n: nat ::
           Lowest(h, w, n) && (forall m: nat :: m < 8 ==> (Has(h'.pic.irr, m) <==> Asked(h, w, m) && m != n))
           && if Handled(w, n) then r == Some(n) && forall m: nat :: m < 8 ==> (Has(h'.pic.isr, m) <==> m == n)
              else r == None && h'.pic.isr == 0
  }

  lemma LowestAsked(h: Host, w: World, n: nat)
    ensures IsLowest(Pending(Gather(h, w).pic), n) <==> Lowest(h, w, n)
  {
    GatherService(h, w);
    var g := Gather(h, w).pic;
    forall m: nat | m < 8
      ensures Has(Pending(g), m) <==> Asked(h, w, m) && !Has(h.pic.imr, m)
    {
      GatherAsks(h, w, m);
      PendingHas(g, m);
    }
    hide Has, Gather, Pending, Asked;
  }

  lemma HandledIs(w: World, n: nat)
    ensures Handled(w, n) <==> !Unhooked(w, n)
  {
  }

  /** What `Acknowledge` answers, on the lines asked for. */
  lemma AcknowledgeAsked(h: Host, w: World)
    requires h.pic.isr == 0
    ensures var (p, irq) := Acknowledge(Gather(h, w).pic);
            p.imr == h.pic.imr
            && match irq
               case None => p.isr == 0 && p.irr == Gather(h, w).pic.irr && forall n: nat :: !Lowest(h, w, n)
               case Some(n) =>
                 Lowest(h, w, n) && p.isr == Line(n) && forall m: nat :: m < 8 ==> (Has(p.irr, m) <==> Asked(h, w, m) && m != n)
  {
    GatherService(h, w);
    var g := Gather(h, w).pic;
    AcknowledgeMeans(g);
    forall n: nat
      ensures IsLowest(Pending(g), n) <==> Lowest(h, w, n)
    {
      LowestAsked(h, w, n);
    }
    forall m: nat | m < 8
      ensures Has(g.irr, m) <==> Asked(h, w, m)
      ensures Has(Pending(g), m) <==> Waiting(g, m)
    {
      GatherAsks(h, w, m);
      PendingHas(g, m);
    }
    hide Has, Gather, Acknowledge, Pending, Asked, Lowest, Line, Waiting;
  }

  lemma PendingIrqMeans(h: Host, w: World)
    ensures Delivered(h, w, PendingIrq(h, w).0, PendingIrq(h, w).1)
  {
    GatherService(h, w);
    GatherAsks(h, w, 0);
    forall m: nat | m < 8
      ensures Has(Gather(h, w).pic.irr, m) <==> Asked(h, w, m)
    {
      GatherAsks(h, w, m);
    }
    if h.pic.isr != 0 {
      AcknowledgeMeans(Gather(h, w).pic);
    } else {
      AcknowledgeAsked(h, w);
    }
    var (p, irq) := Acknowledge(Gather(h, w).pic);
    if irq.Some? {
      var n := irq.value;
      HandledIs(w, n);
      if n < 8 {
        EoiClears(n);
        forall m: nat | m < 8
          ensures Has(Line(n), m) <==> m == n
        {
          LineBits(m, n);
        }
      }
    }
    hide Has, Gather, Acknowledge, Asked, Lowest, Line, Waiting, Without, IsLowest, Pending, NextDue, Handled, Unhooked;
  }

  /** An unhooked request is consumed, so the next poll can reach the line below it. */
  lemma UnhookedIsConsumed(h: Host, w: World)
    requires h.pic.isr == 0 && PendingIrq(h, w).1.None? && Pending(Gather(h, w).pic) != 0
    ensures exists n: nat :: n < 8 && Unhooked(w, n) && IsLowest(Pending(Gather(h, w).pic), n)
                             && !Has(PendingIrq(h, w).0.pic.irr, n)
  {
    GatherService(h, w);
    var g := Gather(h, w).pic;
    AcknowledgeMeans(g);
    NonePending(g);
    hide Gather, Acknowledge, Line, Has, Pending, Waiting;
    var (p, irq) := Acknowledge(g);
    if irq.Some? {
      EoiClears(irq.value);
      LowestHas(Pending(g), irq.value);
    }
  }

  lemma LowestHas(x: Register, n: nat)
    requires IsLowest(x, n)
    ensures n < 8 && Has(x, n)
  {
  }
}
