/**
 Key events to scan codes, one key at a time: make as soon as the key goes down, break no
 sooner than one full frame later.
 */
module KeyTiming {
  import opened Memory

  /** A delivered code: make or break, and how many frame boundaries had been completed. */
  datatype Code = Make(at: nat) | Break(at: nat, atBoundary: bool)

  /** Queued physical events (true for down), frames held, pending release, and everything delivered. */
  datatype Key = Key(queue: seq<bool>, age: Option<nat>, release: bool, log: seq<Code>, boundaries: nat)

  function Apply(k: Key, down: bool): Key {
    if !down then k.(release := true)
    else if k.age.Some? then k.(release := false)
    else k.(release := false, age := Some(0), log := k.log + [Make(k.boundaries)])
  }

  /** `_drain_events` */
  function Drain(k: Key): Key
    decreases |k.queue|
  {
    if k.queue == [] then k else Drain(Apply(k.(queue := k.queue[1..]), k.queue[0]))
  }

  /** `_release_ready`: a key that is not down counts as never old enough. */
  function Release(k: Key, hold: bool): Key {
    if k.release && ((k.age.Some? && k.age.value >= 1) || !hold) then
      k.(log := k.log + [Break(k.boundaries, hold)], age := None, release := false)
    else k
  }

  function Aged(k: Key): Key {
    k.(age := if k.age.Some? then Some(k.age.value + 1) else None, boundaries := k.boundaries + 1)
  }

  function PumpKey(k: Key, allowRelease: bool): Key {
    var d := Drain(k);
    Aged(if allowRelease then Release(d, true) else d)
  }

  function PumpEventsKey(k: Key): Key {
    Release(Drain(k), false)
  }

  // ---- what a pump does ----------------------------------------------------------------

  /** The last event decides whether a release is pending. */
  predicate Up(k: Key) {
    if k.queue == [] then k.release else !k.queue[|k.queue| - 1]
  }

  /** A key that was up goes down if any event is a press. */
  predicate Pressed(k: Key) {
    k.age.None? && true in k.queue
  }

  function Makes(k: Key): seq<Code> {
    if Pressed(k) then [Make(k.boundaries)] else []
  }

  function HeldFor(k: Key): Option<nat> {
    if k.age.Some? then k.age else if true in k.queue then Some(0) else None
  }

  /** The key once its queue has been applied. */
  function Applied(k: Key): Key {
    Key([], HeldFor(k), Up(k), k.log + Makes(k), k.boundaries)
  }

  lemma QueueParts(q: seq<bool>)
    requires q != []
    ensures (true in q <==> q[0] || true in q[1..]) && (|q| > 1 ==> q[1..][|q| - 2] == q[|q| - 1])
  {
    assert q == [q[0]] + q[1..];
  }

  lemma ApplyFirst(k: Key)
    requires k.queue != []
    ensures Applied(Apply(k.(queue := k.queue[1..]), k.queue[0])) == Applied(k)
  {
    QueueParts(k.queue);
  }

  lemma DrainFirst(k: Key)
    ensures k.queue != [] ==> Drain(k) == Drain(Apply(k.(queue := k.queue[1..]), k.queue[0]))
    ensures k.queue == [] ==> Drain(k) == k == Applied(k)
  {
    hide Apply;
  }

  /** Whatever is queued: one make at most, and the last event counts. */
  lemma {:induction false} DrainMeans(k: Key)
    ensures Drain(k) == Applied(k)
    decreases |k.queue|
  {
    DrainFirst(k);
    if k.queue != [] {
      ApplyFirst(k);
      hide Drain, Applied;
      DrainMeans(Apply(k.(queue := k.queue[1..]), k.queue[0]));
    }
  }

  /**
   A pump delivers the make of a key newly pressed, then, where releases are allowed, the
   break of a key that is up again and was held for a frame; and every key still down has
   been held for one frame more.
   */
  predicate Pumped(k: Key, allow: bool, r: Key) {
    var breaks := allow && Up(k) && k.age.Some? && k.age.value >= 1;
    r.queue == [] && r.boundaries == k.boundaries + 1 && r.release == (Up(k) && !breaks)
    && r.log == k.log + Makes(k) + (if breaks then [Break(k.boundaries, true)] else [])
    && r.age == if breaks then None
                else if k.age.Some? then Some(k.age.value + 1) else if true in k.queue then Some(1) else None
  }

  lemma PumpMeans(k: Key, allow: bool)
    ensures Pumped(k, allow, PumpKey(k, allow))
  {
    DrainMeans(k);
    hide Drain, Up;
    assert k.log + Makes(k) + [] == k.log + Makes(k);
  }

  /** Without a frame a key that is up is released at once, however briefly it was held. */
  predicate Flushed(k: Key, r: Key) {
    r.queue == [] && r.boundaries == k.boundaries && !r.release
    && r.log == k.log + Makes(k) + (if Up(k) then [Break(k.boundaries, false)] else [])
    && r.age == if Up(k) then None else HeldFor(k)
  }

  lemma PumpEventsMeans(k: Key)
    ensures Flushed(k, PumpEventsKey(k))
  {
    DrainMeans(k);
    hide Drain, Up;
    assert k.log + Makes(k) + [] == k.log + Makes(k);
  }

  /** A key that went down and up again is broken off by the second pump that may release it. */
  lemma ReleaseArrives(k: Key)
    requires Up(k) && (k.age.Some? || true in k.queue)
    ensures var r := PumpKey(PumpKey(k, true), true);
            r.age.None? && !r.release && r.log != [] && r.log[|r.log| - 1].Break?
  {
    PumpMeans(k, true);
    PumpMeans(PumpKey(k, true), true);
    hide PumpKey;
  }

  // ---- what the log says -------------------------------------------------------------

  /** Make, break, make, break, ... */
  ghost predicate Alternating(log: seq<Code>) {
    forall i :: 0 <= i < |log| ==> log[i].Make? == (i % 2 == 0)
  }

  /** A break delivered at a frame boundary follows its make by at least one completed boundary. */
  ghost predicate HeldAFrame(log: seq<Code>) {
    forall i :: 0 < i < |log| && log[i].Break? && log[i].atBoundary && log[i - 1].Make? ==> log[i - 1].at + 1 <= log[i].at
  }

  /** The key is down exactly after a make, and its age counts the boundaries since. */
  ghost predicate InPhase(k: Key) {
    Alternating(k.log) && (k.age.Some? <==> |k.log| % 2 == 1)
  }

  ghost predicate Timed(k: Key) {
    HeldAFrame(k.log)
    && (k.age.Some? ==> k.log != [] && k.log[|k.log| - 1].Make? && k.log[|k.log| - 1].at + k.age.value == k.boundaries)
  }

  /** Releasing now would send a break for a key that is not down. */
  predicate Stray(k: Key) {
    k.release && k.age.None?
  }

  lemma ApplyInPhase(k: Key, down: bool)
    requires InPhase(k)
    ensures InPhase(Apply(k, down))
  {
  }

  lemma {:induction false} DrainInPhase(k: Key)
    requires InPhase(k)
    ensures InPhase(Drain(k))
    decreases |k.queue|
  {
    if k.queue != [] {
      var d := k.(queue := k.queue[1..]);
      assert InPhase(d);
      ApplyInPhase(d, k.queue[0]);
      hide Apply, InPhase;
      DrainInPhase(Apply(d, k.queue[0]));
    }
  }

  lemma ApplyTimed(k: Key, down: bool)
    requires Timed(k)
    ensures Timed(Apply(k, down)) && Apply(k, down).boundaries == k.boundaries
  {
  }

  lemma {:induction false} DrainTimed(k: Key)
    requires Timed(k)
    ensures Timed(Drain(k)) && Drain(k).boundaries == k.boundaries
    decreases |k.queue|
  {
    if k.queue != [] {
      var d := k.(queue := k.queue[1..]);
      assert Timed(d);
      ApplyTimed(d, k.queue[0]);
      hide Apply, Timed;
      DrainTimed(Apply(d, k.queue[0]));
    }
  }

  /** A release keeps the phase exactly when it is not stray. */
  lemma ReleaseInPhase(k: Key, hold: bool)
    requires InPhase(k)
    ensures InPhase(Release(k, hold)) <==> hold || !Stray(k)
    ensures !hold && Stray(k) ==> !Alternating(Release(k, hold).log)
  {
    var r := Release(k, hold);
    if !hold && Stray(k) {
      assert r.log[|k.log|].Break? && |k.log| % 2 == 0;
    }
  }

  lemma ReleaseTimed(k: Key, hold: bool)
    requires Timed(k)
    ensures Timed(Release(k, hold))
  {
  }

  lemma AgedTimed(k: Key)
    requires Timed(k)
    ensures Timed(Aged(k))
  {
  }

  // ---- runs ------------------------------------------------------------------------

  datatype Action = PostDown | PostUp | Pump(allowRelease: bool) | PumpEvents

  function Act(k: Key, a: Action): Key {
    match a
    case PostDown => k.(queue := k.queue + [true])
    case PostUp => k.(queue := k.queue + [false])
    case Pump(allow) => PumpKey(k, allow)
    case PumpEvents => PumpEventsKey(k)
  }

  function Run(k: Key, actions: seq<Action>): Key
    decreases |actions|
  {
    if actions == [] then k else Act(Run(k, actions[..|actions| - 1]), actions[|actions| - 1])
  }

  const IDLE := Key([], None, false, [], 0)

  /** Some no-frame pump met a pending release of a key that was not down. */
  ghost predicate MeetsStray(k: Key, actions: seq<Action>) {
    exists i :: 0 <= i < |actions| && actions[i].PumpEvents? && Stray(Drain(Run(k, actions[..i])))
  }

  lemma PumpInPhase(k: Key, allow: bool)
    requires InPhase(k)
    ensures InPhase(PumpKey(k, allow))
  {
    DrainInPhase(k);
    ReleaseInPhase(Drain(k), true);
    hide Drain, Release, Alternating;
  }

  lemma ActInPhase(k: Key, a: Action)
    requires InPhase(k)
    ensures InPhase(Act(k, a)) <==> !(a.PumpEvents? && Stray(Drain(k)))
    ensures !InPhase(Act(k, a)) ==> !Alternating(Act(k, a).log)
  {
    hide Drain, Release, PumpKey, Alternating;
    match a {
      case PostDown =>
      case PostUp =>
      case Pump(allow) => PumpInPhase(k, allow);
      case PumpEvents =>
        DrainInPhase(k);
        ReleaseInPhase(Drain(k), false);
    }
  }

  /** Nothing already delivered is taken back. */
  lemma {:induction false} DrainAppends(k: Key)
    ensures k.log <= Drain(k).log
    decreases |k.queue|
  {
    if k.queue != [] {
      DrainAppends(Apply(k.(queue := k.queue[1..]), k.queue[0]));
    }
  }

  lemma ActAppends(k: Key, a: Action)
    ensures k.log <= Act(k, a).log
  {
    DrainAppends(k);
    hide Drain;
  }

  lemma PrefixAlternates(a: seq<Code>, b: seq<Code>)
    requires a <= b && Alternating(b)
    ensures Alternating(a)
  {
  }

  lemma MeetsStrayNext(k: Key, actions: seq<Action>)
    requires actions != []
    ensures var n := |actions| - 1;
            MeetsStray(k, actions) <==> MeetsStray(k, actions[..n]) || (actions[n].PumpEvents? && Stray(Drain(Run(k, actions[..n]))))
  {
    hide Run, Drain, Stray;
    var n := |actions| - 1;
    forall i | 0 <= i < n
      ensures actions[..n][..i] == actions[..i] && actions[..n][i] == actions[i]
    {
    }
    if actions[n].PumpEvents? && Stray(Drain(Run(k, actions[..n]))) {
      assert MeetsStray(k, actions);
    }
    if MeetsStray(k, actions[..n]) {
      var i :| 0 <= i < |actions[..n]| && actions[..n][i].PumpEvents? && Stray(Drain(Run(k, actions[..n][..i])));
      assert actions[i].PumpEvents? && Stray(Drain(Run(k, actions[..i])));
    }
    if MeetsStray(k, actions) {
      var i :| 0 <= i < |actions| && actions[i].PumpEvents? && Stray(Drain(Run(k, actions[..i])));
      assert i < n ==> actions[..n][i].PumpEvents? && Stray(Drain(Run(k, actions[..n][..i])));
    }
  }

  /**
   The codes of a key alternate, make first, exactly when no no-frame pump ever met a
   pending release of that key while it was up.
   */
  lemma {:induction false} AlternatesExactly(actions: seq<Action>)
    ensures Alternating(Run(IDLE, actions).log) <==> !MeetsStray(IDLE, actions)
    ensures !MeetsStray(IDLE, actions) ==> InPhase(Run(IDLE, actions))
    decreases |actions|
  {
    if actions != [] {
      var n := |actions| - 1;
      var k := Run(IDLE, actions[..n]);
      AlternatesExactly(actions[..n]);
      MeetsStrayNext(IDLE, actions);
      ActAppends(k, actions[n]);
      hide Act, Drain, Alternating, Stray, MeetsStray, InPhase;
      if MeetsStray(IDLE, actions[..n]) {
        if Alternating(Act(k, actions[n]).log) {
          PrefixAlternates(k.log, Act(k, actions[n]).log);
        }
      } else {
        ActInPhase(k, actions[n]);
        PhaseAlternates(Act(k, actions[n]));
      }
    }
  }

  lemma PhaseAlternates(k: Key)
    ensures InPhase(k) ==> Alternating(k.log)
  {
  }

  lemma ActTimed(k: Key, a: Action)
    requires Timed(k)
    ensures Timed(Act(k, a))
  {
    DrainTimed(k);
    ReleaseTimed(Drain(k), true);
    ReleaseTimed(Drain(k), false);
    hide Drain, Release, Aged, HeldAFrame;
    match a {
      case Pump(allow) => AgedTimed(if allow then Release(Drain(k), true) else Drain(k));
      case _ =>
    }
  }

  /** Whatever is posted and however pumps are mixed, a break at a boundary comes a full frame after its make. */
  lemma {:induction false} BreaksWaitAFrame(actions: seq<Action>)
    ensures Timed(Run(IDLE, actions)) && HeldAFrame(Run(IDLE, actions).log)
    decreases |actions|
  {
    if actions != [] {
      BreaksWaitAFrame(actions[..|actions| - 1]);
      hide Act, HeldAFrame;
      ActTimed(Run(IDLE, actions[..|actions| - 1]), actions[|actions| - 1]);
    }
  }

  // ---- well-behaved posting -----------------------------------------------------------

  /** An up may come: the key is down and not being released. */
  predicate Ready(k: Key) {
    k.age.Some? && !k.release
  }

  /** Every queued up follows a down directly; whether one may come next. */
  function Legal(queue: seq<bool>, ready: bool): (r: (bool, bool))
    decreases |queue|
  {
    if queue == [] then (true, ready)
    else if queue[0] then Legal(queue[1..], true)
    else if ready then Legal(queue[1..], false)
    else (false, false)
  }

  /** Each up posted follows a down of the key; and whether the last post was a down. */
  function Posts(actions: seq<Action>): (r: (bool, bool))
    decreases |actions|
  {
    if actions == [] then (true, false)
    else
      var (ok, down) := Posts(actions[..|actions| - 1]);
      match actions[|actions| - 1]
      case PostDown => (ok, true)
      case PostUp => (ok && down, false)
      case _ => (ok, down)
  }

  /** Pending releases are releases of keys that are down, and stay so while the queue is worked off. */
  predicate Behaved(k: Key, last: bool) {
    !Stray(k) && Legal(k.queue, Ready(k)).0 && (last ==> Legal(k.queue, Ready(k)).1)
  }

  lemma {:induction false} LegalSnoc(queue: seq<bool>, ready: bool, down: bool)
    requires Legal(queue, ready).0
    ensures Legal(queue + [down], ready) == if down then (true, true) else if Legal(queue, ready).1 then (true, false) else (false, false)
    decreases |queue|
  {
    if queue == [] {
      assert [] + [down] == [down] && [down][1..] == [];
    } else {
      assert (queue + [down])[1..] == queue[1..] + [down];
      LegalSnoc(queue[1..], queue[0], down);
    }
  }

  lemma {:induction false} DrainBehaved(k: Key, last: bool)
    requires Behaved(k, last)
    ensures Behaved(Drain(k), last) && Drain(k).queue == []
    decreases |k.queue|
  {
    if k.queue != [] {
      DrainBehaved(Apply(k.(queue := k.queue[1..]), k.queue[0]), last);
    }
  }

  lemma ActBehaved(k: Key, a: Action, last: bool)
    requires Behaved(k, last) && (a.PostUp? ==> last)
    ensures Behaved(Act(k, a), if a.PostDown? then true else if a.PostUp? then false else last)
    ensures !Stray(Drain(k))
  {
    DrainBehaved(k, last);
    hide Drain;
    if a.PostDown? || a.PostUp? {
      LegalSnoc(k.queue, Ready(k), a.PostDown?);
    }
  }

  lemma {:induction false} RunBehaved(actions: seq<Action>)
    requires Posts(actions).0
    ensures Behaved(Run(IDLE, actions), Posts(actions).1)
    decreases |actions|
  {
    if actions != [] {
      var n := |actions| - 1;
      RunBehaved(actions[..n]);
      hide Act, Behaved;
      ActBehaved(Run(IDLE, actions[..n]), actions[n], Posts(actions[..n]).1);
    } else {
      assert Behaved(IDLE, false);
    }
  }

  lemma {:induction false} NeverStray(actions: seq<Action>, i: nat)
    requires Posts(actions).0 && i < |actions|
    ensures !Stray(Drain(Run(IDLE, actions[..i])))
    decreases |actions|
  {
    var n := |actions| - 1;
    if i == n {
      RunBehaved(actions[..n]);
      ActBehaved(Run(IDLE, actions[..n]), Pump(true), Posts(actions[..n]).1);
    } else {
      assert actions[..n][..i] == actions[..i];
      NeverStray(actions[..n], i);
    }
    hide Run, Drain;
  }

  /** When every up posted follows a down of the same key, the codes of that key alternate, make first. */
  lemma OrderlyKeysAlternate(actions: seq<Action>)
    requires Posts(actions).0
    ensures Alternating(Run(IDLE, actions).log)
  {
    hide Run, Drain, Posts, Alternating, Stray;
    AlternatesExactly(actions);
    forall i | 0 <= i < |actions|
      ensures !Stray(Drain(Run(IDLE, actions[..i])))
    {
      NeverStray(actions, i);
    }
  }

  /** One up without a down, drained by a no-frame pump, breaks the alternation. */
  lemma StrayUpBreaks()
    ensures !Alternating(Run(IDLE, [PostUp, PumpEvents]).log)
  {
    var k := Act(IDLE, PostUp);
    assert [PostUp, PumpEvents][..1] == [PostUp] && [PostUp][..0] == [];
    assert Run(IDLE, []) == IDLE && Run(IDLE, [PostUp]) == k && k.queue == [false];
    assert Drain(k) == Apply(k.(queue := []), false) by { assert k.queue[1..] == []; }
    ActInPhase(k, PumpEvents);
    assert InPhase(k);
  }
}
