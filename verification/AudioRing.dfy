/** The circular buffer that carries the audio queue. */
module AudioRing {
  import opened AudioQueue

  /** The `n` samples that start at `r` and wrap at the end of the ring. */
  function Window(ring: seq<int>, r: nat, n: nat): (x: seq<int>)
    requires |ring| == RING && r < RING && n <= RING
    ensures |x| == n
  {
    seq(n, i requires 0 <= i < n => ring[(r + i) % RING])
  }

  function Fill(r: nat, w: nat): (n: nat)
    requires r < RING && w < RING
    ensures n < RING
  {
    (w - r) % RING
  }

  /** Two slices, or one when the window does not wrap. */
  lemma WindowSlices(ring: seq<int>, r: nat, n: nat)
    requires |ring| == RING && r < RING && n <= RING
    ensures r + n <= RING ==> Window(ring, r, n) == ring[r..r + n]
    ensures r + n > RING ==> Window(ring, r, n) == ring[r..] + ring[..n - (RING - r)]
  {
  }

  lemma TwoSteps(r: nat, k: nat, i: nat)
    requires r < RING && k <= RING && i <= RING
    ensures ((r + k) % RING + i) % RING == (r + (k + i)) % RING
  {
    var a := if r + k < RING then r + k else r + k - RING;
    assert (r + k) % RING == a;
    assert r + (k + i) == a + i || r + (k + i) == a + i + RING;
  }

  lemma WindowDrop(ring: seq<int>, r: nat, n: nat, k: nat)
    requires |ring| == RING && r < RING && k <= n <= RING
    ensures Window(ring, (r + k) % RING, n - k) == Window(ring, r, n)[k..]
    ensures Window(ring, r, k) == Window(ring, r, n)[..k]
  {
    forall i | 0 <= i < n - k
      ensures Window(ring, (r + k) % RING, n - k)[i] == Window(ring, r, n)[k..][i]
    {
      TwoSteps(r, k, i);
    }
  }

  /** The ring after storing `x` at `w`, wrapping. */
  predicate StoredAt(before: seq<int>, after: seq<int>, w: nat, x: seq<int>) {
    |before| == |after| == RING && w < RING && |x| <= RING
    && forall j :: 0 <= j < RING ==> after[j] == if (j - w) % RING < |x| then x[(j - w) % RING] else before[j]
  }

  lemma StoredLength(before: seq<int>, after: seq<int>, w: nat, x: seq<int>)
    requires StoredAt(before, after, w, x)
    ensures |before| == |after| == RING
  {
  }

  /** The place `i` after `r`, counted from the place `n` after `r`. */
  lemma PlaceFrom(r: nat, n: nat, i: nat)
    requires r < RING && n <= RING && i < RING
    ensures ((r + i) % RING - (r + n) % RING) % RING == if n <= i then i - n else if n - i < RING then RING + i - n else 0
  {
    var (a, b) := (if r + i < RING then r + i else r + i - RING, if r + n < RING then r + n else r + n - RING);
    assert (r + i) % RING == a && (r + n) % RING == b;
  }

  lemma WindowAppendAt(before: seq<int>, after: seq<int>, r: nat, n: nat, x: seq<int>, i: nat)
    requires r < RING && n + |x| <= RING && StoredAt(before, after, (r + n) % RING, x) && i < n + |x|
    ensures Window(after, r, n + |x|)[i] == (Window(before, r, n) + x)[i]
  {
    PlaceFrom(r, n, i);
    assert after[(r + i) % RING] == if i < n then before[(r + i) % RING] else x[i - n];
  }

  /** Storing right after a window appends to it. */
  lemma WindowAppend(before: seq<int>, after: seq<int>, r: nat, n: nat, x: seq<int>)
    requires r < RING && n + |x| <= RING && StoredAt(before, after, (r + n) % RING, x)
    ensures Window(after, r, n + |x|) == Window(before, r, n) + x
  {
    hide Window, StoredAt;
    StoredLength(before, after, (r + n) % RING, x);
    var a, b := Window(after, r, n + |x|), Window(before, r, n) + x;
    forall i | 0 <= i < n + |x|
      ensures a[i] == b[i]
    {
      WindowAppendAt(before, after, r, n, x, i);
    }
  }

  lemma Advance(r: nat, w: nat, n: nat)
    requires r < RING && w < RING && n <= Fill(r, w)
    ensures Fill((r + n) % RING, w) == Fill(r, w) - n
  {
  }

  lemma WhereNext(r: nat, w: nat)
    requires r < RING && w < RING
    ensures (r + Fill(r, w)) % RING == w
  {
  }

  /** Dropping the excess from the front and appending the newest samples keeps the newest of both. */
  lemma NewestOf(q: seq<int>, samples: seq<int>)
    requires |q| <= MAX_FILL
    ensures var x := Last(samples, MAX_FILL);
            var drop := if |q| + |x| > MAX_FILL then |q| + |x| - MAX_FILL else 0;
            drop <= |q| && Last(q + samples, MAX_FILL) == q[drop..] + x
  {
  }

  lemma Extend(r: nat, w: nat, n: nat, m: nat)
    requires r < RING && w < RING && n == Fill(r, w) && n + m < RING
    ensures Fill(r, (w + m) % RING) == n + m
  {
  }

  /** The two cursors after a pump. */
  predicate Pumps(r: nat, w: nat, m: nat, r1: nat, w1: nat)
    requires r < RING && w < RING
  {
    var used := Fill(r, w);
    var drop := if used + m > MAX_FILL then used + m - MAX_FILL else 0;
    r1 == (r + drop) % RING && w1 == (w + m) % RING
  }

  /** Dropping from the front and storing at the write position does what the queue's pump does. */
  lemma PumpedWindow(before: seq<int>, after: seq<int>, r: nat, w: nat, samples: seq<int>, r1: nat, w1: nat)
    requires r < RING && w < RING && Fill(r, w) <= MAX_FILL
    requires StoredAt(before, after, w, Last(samples, MAX_FILL)) && Pumps(r, w, |Last(samples, MAX_FILL)|, r1, w1)
    ensures r1 < RING && w1 < RING && Fill(r1, w1) <= MAX_FILL
    ensures Window(after, r1, Fill(r1, w1)) == Last(Window(before, r, Fill(r, w)) + samples, MAX_FILL)
  {
    hide Window, Fill, StoredAt, Last;
    var x, used := Last(samples, MAX_FILL), Fill(r, w);
    var drop := if used + |x| > MAX_FILL then used + |x| - MAX_FILL else 0;
    StoredLength(before, after, w, x);
    NewestOf(Window(before, r, used), samples);
    WindowDrop(before, r, used, drop);
    Advance(r, w, drop);
    WhereNext(r1, w);
    WindowAppend(before, after, r1, used - drop, x);
    Extend(r1, w, used - drop, |x|);
  }

  class SoundDeviceSink {
    const ring: array<int>
    var w: nat
    var r: nat
    var primed: bool

    constructor ()
      ensures Valid() && fresh(ring) && State() == Fresh().sink
    {
      ring := new int[RING](_ => 0);
      w, r, primed := 0, 0, false;
    }

    ghost predicate Valid()
      reads this
    {
      ring.Length == RING && w < RING && r < RING
    }

    ghost function State(): Sink
      reads this, ring
      requires Valid()
    {
      Sink(Window(ring[..], r, Fill(r, w)), primed)
    }

    /** The `n` samples at the read position, in one slice or two. */
    method Front(n: nat) returns (out: seq<int>)
      requires Valid() && n <= RING
      ensures out == Window(ring[..], r, n)
    {
      WindowSlices(ring[..], r, n);
      hide Window;
      if r + n <= RING {
        out := ring[r..r + n];
      } else {
        out := ring[r..] + ring[..n - (RING - r)];
      }
    }

    /** The audio thread takes `frames` samples. */
    method Callback(frames: nat) returns (out: seq<int>)
      requires Valid()
      modifies this`r, this`primed
      ensures Valid() && (State(), out) == Played(old(State()), frames)
      ensures Plays(old(State()), frames, State(), out)
    {
      hide Plays, Window;
      CallbackPlays(State(), frames);
      var avail := Fill(r, w);
      if !primed {
        if avail < CUSHION {
          return Silence(frames);
        }
        primed := true;
      }
      var n := if frames < avail then frames else avail;
      WindowDrop(ring[..], r, avail, n);
      out := Front(n);
      Advance(r, w, n);
      hide Fill;
      r := (r + n) % RING;
      primed := n < avail;
      out := out + Silence(frames - n);
    }

    /** The resampled block goes into the ring; whatever exceeds the latency bound is dropped from the old end. */
    method Pump(samples: seq<int>)
      requires Valid() && Fill(r, w) <= MAX_FILL
      modifies this`w, this`r, ring
      ensures Valid() && Fill(r, w) <= MAX_FILL && State() == Pumped(old(State()), samples)
      ensures Keeps(old(State()), samples, State())
    {
      PumpKeeps(State(), samples);
      hide Keeps;
      hide Window, Fill, StoredAt, Last;
      var x := Last(samples, MAX_FILL);
      var m := |x|;
      var used := Fill(r, w);
      var drop := if used + m > MAX_FILL then used + m - MAX_FILL else 0;
      ghost var (r0, w0) := (r, w);
      Store(x);
      r, w := (r + drop) % RING, (w + m) % RING;
      PumpedWindow(old(ring[..]), ring[..], r0, w0, samples, r, w);
    }

    /** Store at the write position, in one slice or two. */
    method Store(x: seq<int>)
      requires Valid() && |x| <= RING
      modifies ring
      ensures StoredAt(old(ring[..]), ring[..], w, x)
    {
      var m := |x|;
      if w + m <= RING {
        forall i | 0 <= i < m {
          ring[w + i] := x[i];
        }
      } else {
        var k := RING - w;
        forall i | 0 <= i < k {
          ring[w + i] := x[i];
        }
        forall i | 0 <= i < m - k {
          ring[i] := x[k + i];
        }
      }
    }
  }
}
