/** The audio ring: a queue of samples kept in a circular buffer between a producer and a callback. */
module AudioQueue {
  const RING := 22050
  const CUSHION := 1764
  const MAX_FILL := 4410

  /** Buffered samples, oldest first, and whether playback has started. */
  datatype Sink = Sink(queue: seq<int>, primed: bool)

  function Last(x: seq<int>, n: nat): (r: seq<int>)
    ensures |r| <= n
  {
    if |x| <= n then x else x[|x| - n..]
  }

  function Silence(n: nat): (r: seq<int>)
    ensures |r| == n && forall i :: 0 <= i < n ==> r[i] == 0
  {
    seq(n, _ => 0)
  }

  /** A pump keeps the newest samples of what was buffered and what arrives. */
  function Pumped(s: Sink, input: seq<int>): Sink {
    s.(queue := Last(s.queue + input, MAX_FILL))
  }

  predicate Waits(s: Sink) {
    !s.primed && |s.queue| < CUSHION
  }

  /** How many buffered samples a callback takes. */
  function Taken(s: Sink, frames: nat): (n: nat)
    ensures n <= frames && n <= |s.queue|
  {
    if Waits(s) then 0 else if frames < |s.queue| then frames else |s.queue|
  }

  /** A callback emits the oldest samples in order and pads with silence. */
  function Played(s: Sink, frames: nat): (r: (Sink, seq<int>))
    ensures |r.1| == frames
  {
    var n := Taken(s, frames);
    if Waits(s) then (s, Silence(frames))
    else (Sink(s.queue[n..], n < |s.queue|), s.queue[..n] + Silence(frames - n))
  }

  /** A pump leaves the newest 4410 samples, in order. */
  predicate Keeps(s: Sink, input: seq<int>, t: Sink) {
    var all := s.queue + input;
    t.primed == s.primed && |t.queue| == (if |all| < 4410 then |all| else 4410)
    && forall i :: 0 <= i < |t.queue| ==> t.queue[i] == all[|all| - |t.queue| + i]
  }

  lemma PumpKeeps(s: Sink, input: seq<int>)
    ensures Keeps(s, input, Pumped(s, input))
  {
  }

  /**
   A callback that has started, or finds 1764 samples, plays the oldest samples there are
   and silence after them, and goes on if any are left; before that it plays silence alone.
   */
  predicate Plays(s: Sink, frames: nat, t: Sink, out: seq<int>) {
    |out| == frames
    && if s.primed || |s.queue| >= 1764 then
         (forall i :: 0 <= i < frames ==> out[i] == if i < |s.queue| then s.queue[i] else 0)
         && t.queue == (if frames < |s.queue| then s.queue[frames..] else []) && t.primed == (frames < |s.queue|)
       else t == s && forall i :: 0 <= i < frames ==> out[i] == 0
  }

  lemma CallbackPlays(s: Sink, frames: nat)
    ensures Plays(s, frames, Played(s, frames).0, Played(s, frames).1)
  {
  }

  // ---- runs ------------------------------------------------------------------------

  datatype Event = Pump(input: seq<int>) | Callback(frames: nat)

  /** The sink, everything ever produced, and how much of it has been played or dropped. */
  datatype World = World(sink: Sink, produced: seq<int>, at: int)

  function Step(w: World, e: Event): World {
    match e
    case Pump(input) =>
      var s := Pumped(w.sink, input);
      World(s, w.produced + input, |w.produced| + |input| - |s.queue|)
    case Callback(frames) => World(Played(w.sink, frames).0, w.produced, w.at + Taken(w.sink, frames))
  }

  /** The queue is the unplayed end of what was produced, and within the latency bound. */
  ghost predicate Tail(w: World) {
    0 <= w.at <= |w.produced| && w.sink.queue == w.produced[w.at..] && |w.sink.queue| <= MAX_FILL < RING
  }

  lemma PumpTail(w: World, input: seq<int>)
    requires Tail(w)
    ensures Tail(Step(w, Pump(input))) && Step(w, Pump(input)).at >= w.at
  {
    var all := w.produced + input;
    assert w.sink.queue + input == all[w.at..];
    var q := w.sink.queue + input;
    if |q| > MAX_FILL {
      assert q[|q| - MAX_FILL..] == all[|all| - MAX_FILL..];
    }
  }

  lemma CallbackTail(w: World, frames: nat)
    requires Tail(w)
    ensures Tail(Step(w, Callback(frames)))
  {
    var n := Taken(w.sink, frames);
    assert w.produced[w.at..][n..] == w.produced[w.at + n..];
    if Waits(w.sink) {
      assert w.produced[w.at + n..] == w.sink.queue;
    }
  }

  /** What a callback emits: the next samples produced, in order, then silence. */
  lemma EmitsNext(w: World, frames: nat)
    requires Tail(w)
    ensures var n := Taken(w.sink, frames);
            Played(w.sink, frames).1 == w.produced[w.at..w.at + n] + Silence(frames - n)
            && Step(w, Callback(frames)).at == w.at + n
  {
    var n := Taken(w.sink, frames);
    assert w.produced[w.at..][..n] == w.produced[w.at..w.at + n];
    if Waits(w.sink) {
      assert w.produced[w.at..w.at + n] + Silence(frames) == Silence(frames);
    }
  }

  function Run(w: World, events: seq<Event>): World
    decreases |events|
  {
    if events == [] then w else Run(Step(w, events[0]), events[1..])
  }

  function Fresh(): World {
    World(Sink([], false), [], 0)
  }

  lemma {:induction false} RunTail(w: World, events: seq<Event>)
    requires Tail(w)
    ensures Tail(Run(w, events)) && Run(w, events).at >= w.at
    decreases |events|
  {
    if events != [] {
      hide Step, Tail;
      match events[0] {
        case Pump(input) => PumpTail(w, input);
        case Callback(frames) =>
          CallbackTail(w, frames);
          EmitsNext(w, frames);
      }
      RunTail(Step(w, events[0]), events[1..]);
    }
  }

  /**
   For any interleaving of pumps and callbacks the buffer holds the newest unplayed samples,
   never a ring full of them, and playback moves through what was produced without
   repeating or reordering a sample.
   */
  lemma PlaybackMovesForward(events: seq<Event>, more: seq<Event>)
    ensures var (w, v) := (Run(Fresh(), events), Run(Run(Fresh(), events), more));
            Tail(w) && Tail(v) && w.at <= v.at
  {
    assert Tail(Fresh());
    RunTail(Fresh(), events);
    RunTail(Run(Fresh(), events), more);
  }
}
