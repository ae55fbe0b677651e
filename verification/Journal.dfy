/** The video journal: status reads and palette writes, coalesced into runs as they happen. */
module Journal {
  import opened Memory

  const RETAINED := 512

  datatype Rgb = Rgb(r: nat, g: nat, b: nat)

  /** What the hardware sees: one status read, or one completed palette write. */
  datatype Op = Read(now: int) | Write(index: nat, rgb: Rgb, now: int)

  /** A run of status reads, or palette writes to consecutive entries, with the times of its first and last. */
  datatype Entry = St(count: nat, first: int, last: int) | Dac(start: nat, values: seq<Rgb>, first: int, last: int)

  /** The journal (its newest 512 entries), the open runs, and the DAC's protocol state. */
  datatype Device = Device(journal: seq<Entry>, st: Option<Entry>, dac: Option<Entry>, palette: map<nat, Rgb>,
                           writeIndex: nat, readIndex: nat, component: nat, latch: seq<nat>)

  /** `_dac8`: six bits to eight, the high bits repeated below. */
  function Dac8(v: nat): nat {
    4 * (v % 64) + v % 64 / 16
  }

  /** `deque(maxlen=512).append` */
  function Append(journal: seq<Entry>, e: Entry): seq<Entry> {
    Newest(journal + [e])
  }

  function Newest(entries: seq<Entry>): (r: seq<Entry>)
    ensures |r| <= RETAINED
  {
    if |entries| <= RETAINED then entries else entries[|entries| - RETAINED..]
  }

  function CloseDac(d: Device): Device {
    match d.dac
    case None => d
    case Some(e) => d.(journal := Append(d.journal, e), dac := None)
  }

  function CloseSt(d: Device): Device {
    match d.st
    case None => d
    case Some(e) => d.(journal := Append(d.journal, e), st := None)
  }

  /** A read of the status register. */
  function Status(d: Device, now: int): Device {
    var d := CloseDac(d);
    d.(st := match d.st
             case Some(St(n, first, _)) => Some(St(n + 1, first, now))
             case _ => Some(St(1, now, now)))
  }

  /** A completed triple for palette entry `idx`. */
  function Triple(d: Device, idx: nat, rgb: Rgb, now: int): Device {
    var d := CloseSt(d.(palette := d.palette[idx := rgb]));
    match d.dac
    case Some(Dac(start, values, first, _)) =>
      if (start + |values|) % 256 == idx then d.(dac := Some(Dac(start, values + [rgb], first, now)))
      else CloseDac(d).(dac := Some(Dac(idx, [rgb], now, now)))
    case _ => d.(dac := Some(Dac(idx, [rgb], now, now)))
  }

  /** A byte written to the DAC data port. */
  function DataWrite(d: Device, value: nat, now: int): Device {
    var latch := d.latch + [Dac8(value % 256)];
    if d.component + 1 < 3 then d.(latch := latch, component := d.component + 1)
    else
      var idx := d.writeIndex % 256;
      Triple(d, idx, Latched(latch), now).(writeIndex := (idx + 1) % 256, component := 0, latch := [])
  }

  /** The first three bytes latched, padded with zeros. */
  function Latched(latch: seq<nat>): Rgb {
    var t := latch + [0, 0, 0];
    Rgb(t[0], t[1], t[2])
  }

  /** What the program does to the ports. */
  datatype Port = StatusRead(now: int) | WriteIndex(value: nat) | ReadIndex(value: nat) | Data(value: nat, now: int) | DataRead

  function Access(d: Device, p: Port): Device {
    match p
    case StatusRead(now) => Status(d, now)
    case WriteIndex(value) => d.(writeIndex := value % 256, component := 0, latch := [])
    case ReadIndex(value) => d.(readIndex := value % 256, component := 0)
    case Data(value, now) => DataWrite(d, value, now)
    case DataRead =>
      d.(component := (d.component + 1) % 3,
         readIndex := if (d.component + 1) % 3 == 0 then (d.readIndex + 1) % 256 else d.readIndex)
  }

  /** The hardware event an access completes, if any. */
  function OpOf(d: Device, p: Port): seq<Op> {
    match p
    case StatusRead(now) => [Read(now)]
    case Data(value, now) =>
      if d.component + 1 < 3 then []
      else [Write(d.writeIndex % 256, Latched(d.latch + [Dac8(value % 256)]), now)]
    case _ => []
  }

  // ---- what the journal says ----------------------------------------------------------

  /** The run `ops` is the one the entry stands for. */
  ghost predicate Summarises(e: Entry, ops: seq<Op>) {
    ops != [] && ops[0].now == e.first && ops[|ops| - 1].now == e.last
    && match e
       case St(count, _, _) => |ops| == count && forall i :: 0 <= i < |ops| ==> ops[i].Read?
       case Dac(start, values, _, _) =>
         |ops| == |values| && forall i :: 0 <= i < |ops| ==> ops[i] == Write((start + i) % 256, values[i], ops[i].now)
  }

  function Flat(runs: seq<seq<Op>>): seq<Op> {
    if runs == [] then [] else Flat(runs[..|runs| - 1]) + runs[|runs| - 1]
  }

  /** Two neighbouring runs that would have been one. */
  predicate Mergeable(a: Entry, b: Entry) {
    (a.St? && b.St?) || (a.Dac? && b.Dac? && (a.start + |a.values|) % 256 == b.start)
  }

  ghost predicate Canonical(entries: seq<Entry>) {
    forall i :: 0 <= i < |entries| - 1 ==> !Mergeable(entries[i], entries[i + 1])
  }

  /** All entries ever closed with their runs, and the open run. */
  datatype History = History(closed: seq<Entry>, runs: seq<seq<Op>>, tail: seq<Op>)

  function Open(d: Device): Option<Entry> {
    if d.st.Some? then d.st else d.dac
  }

  ghost predicate Matches(closed: seq<Entry>, runs: seq<seq<Op>>) {
    |closed| == |runs| && forall i :: 0 <= i < |closed| ==> Summarises(closed[i], runs[i])
  }

  /** The last 512 entries are kept, or all there are. */
  predicate Retained(closed: seq<Entry>, journal: seq<Entry>) {
    journal == closed[if |closed| <= 512 then 0 else |closed| - 512..]
  }

  /** At most one run is open; the journal keeps the newest entries; nothing is lost, reordered or split. */
  ghost predicate Lossless(d: Device, h: History) {
    !(d.st.Some? && d.dac.Some?) && (d.st.Some? ==> d.st.value.St?) && (d.dac.Some? ==> d.dac.value.Dac?)
    && Retained(h.closed, d.journal) && Matches(h.closed, h.runs)
    && (match Open(d)
        case None => h.tail == [] && h.closed == []
        case Some(e) => Summarises(e, h.tail) && Canonical(h.closed + [e]))
  }

  lemma RetainedAppend(closed: seq<Entry>, journal: seq<Entry>, e: Entry)
    requires Retained(closed, journal)
    ensures Retained(closed + [e], Append(journal, e))
  {
  }

  /** The open run is closed. */
  function Closed(h: History, e: Entry): History {
    History(h.closed + [e], h.runs + [h.tail], [])
  }

  lemma ClosedFlat(h: History, e: Entry)
    ensures Flat(Closed(h, e).runs) + Closed(h, e).tail == Flat(h.runs) + h.tail
  {
    assert (h.runs + [h.tail])[..|h.runs|] == h.runs;
  }

  lemma MatchesSnoc(closed: seq<Entry>, runs: seq<seq<Op>>, e: Entry, run: seq<Op>)
    requires Matches(closed, runs) && Summarises(e, run)
    ensures Matches(closed + [e], runs + [run])
  {
    hide Summarises;
  }

  lemma CanonicalSnoc(closed: seq<Entry>, e: Entry, f: Entry)
    requires Canonical(closed + [e]) && !Mergeable(e, f)
    ensures Canonical(closed + [e] + [f])
  {
    hide Mergeable;
    var t := closed + [e] + [f];
    forall i | 0 <= i < |t| - 1
      ensures !Mergeable(t[i], t[i + 1])
    {
      assert i < |closed| ==> t[i] == (closed + [e])[i] && t[i + 1] == (closed + [e])[i + 1];
    }
  }

  /** Growing the open run by one event keeps its place in the order. */
  lemma CanonicalGrow(closed: seq<Entry>, e: Entry, f: Entry)
    requires Canonical(closed + [e])
    requires forall c :: Mergeable(c, f) == Mergeable(c, e)
    ensures Canonical(closed + [f])
  {
    hide Mergeable;
    var (t, u) := (closed + [e], closed + [f]);
    forall i | 0 <= i < |u| - 1
      ensures !Mergeable(u[i], u[i + 1])
    {
      assert !Mergeable(t[i], t[i + 1]);
    }
  }

  lemma CanonicalFirst(e: Entry)
    ensures Canonical([] + [e])
  {
  }

  // ---- every event ------------------------------------------------------------------------

  /** The event extends the open run. */
  predicate Continues(d: Device, op: Op) {
    match op
    case Read(_) => d.st.Some?
    case Write(index, _, _) => d.st.None? && d.dac.Some? && d.dac.value.Dac? && (d.dac.value.start + |d.dac.value.values|) % 256 == index
  }

  /** Extend the open run, or close it and open a new one. */
  function Follow(d: Device, h: History, op: Op): History {
    if Continues(d, op) then h.(tail := h.tail + [op])
    else
      match Open(d)
      case None => h.(tail := [op])
      case Some(e) => Closed(h, e).(tail := [op])
  }

  /** The open run after the event. */
  function Extended(e: Entry, op: Op): Entry {
    match e
    case St(count, first, _) => St(count + 1, first, op.now)
    case Dac(start, values, first, _) => Dac(start, values + [if op.Write? then op.rgb else Rgb(0, 0, 0)], first, op.now)
  }

  function Opened(op: Op): Entry {
    match op
    case Read(now) => St(1, now, now)
    case Write(index, rgb, now) => Dac(index, [rgb], now, now)
  }

  /** What the event does to journal and open run, in one line. */
  ghost predicate Recorded(d: Device, op: Op, d': Device) {
    !(d'.st.Some? && d'.dac.Some?) && (d'.st.Some? <==> op.Read?) && (d'.dac.Some? <==> op.Write?)
    && if Continues(d, op) then Open(d).Some? && Open(d') == Some(Extended(Open(d).value, op)) && d'.journal == d.journal
       else Open(d') == Some(Opened(op))
            && d'.journal == if Open(d).Some? then Append(d.journal, Open(d).value) else d.journal
  }

  lemma StatusRecords(d: Device, now: int)
    requires !(d.st.Some? && d.dac.Some?) && (d.st.Some? ==> d.st.value.St?)
    ensures Recorded(d, Read(now), Status(d, now))
  {
    hide Append;
  }

  lemma TripleRecords(d: Device, idx: nat, rgb: Rgb, now: int)
    requires !(d.st.Some? && d.dac.Some?) && (d.dac.Some? ==> d.dac.value.Dac?)
    ensures Recorded(d, Write(idx, rgb, now), Triple(d, idx, rgb, now))
  {
    hide Append;
  }

  lemma ExtendedSummarises(d: Device, ops: seq<Op>, op: Op)
    requires Open(d).Some? && !(d.st.Some? && d.dac.Some?) && (d.st.Some? ==> d.st.value.St?) && Continues(d, op)
    requires op.Write? ==> op.index < 256
    requires Summarises(Open(d).value, ops)
    ensures Summarises(Extended(Open(d).value, op), ops + [op])
  {
  }

  lemma ExtendedKind(d: Device, op: Op, c: Entry)
    requires Open(d).Some? && (d.st.Some? ==> d.st.value.St?) && (d.dac.Some? ==> d.dac.value.Dac?)
    ensures Mergeable(c, Extended(Open(d).value, op)) == Mergeable(c, Open(d).value)
  {
  }

  lemma OpenedSummarises(op: Op)
    requires op.Write? ==> op.index < 256
    ensures Summarises(Opened(op), [op])
  {
  }

  lemma OpenedDiffers(d: Device, op: Op)
    requires Open(d).Some? && !(d.st.Some? && d.dac.Some?) && (d.st.Some? ==> d.st.value.St?) && (d.dac.Some? ==> d.dac.value.Dac?)
    requires !Continues(d, op)
    ensures !Mergeable(Open(d).value, Opened(op))
  {
  }

  /** Which entry kinds may be open. */
  ghost predicate OneOpen(d: Device) {
    !(d.st.Some? && d.dac.Some?) && (d.st.Some? ==> d.st.value.St?) && (d.dac.Some? ==> d.dac.value.Dac?)
  }

  lemma RecordedOpen(d: Device, op: Op, d': Device)
    requires OneOpen(d) && Recorded(d, op, d')
    ensures OneOpen(d')
  {
  }

  lemma FollowContinues(d: Device, h: History, op: Op, d': Device)
    requires Lossless(d, h) && Recorded(d, op, d') && Continues(d, op) && (op.Write? ==> op.index < 256)
    ensures Lossless(d', Follow(d, h, op))
  {
    var e := Open(d).value;
    RecordedOpen(d, op, d');
    ExtendedSummarises(d, h.tail, op);
    forall c
      ensures Mergeable(c, Extended(e, op)) == Mergeable(c, e)
    {
      ExtendedKind(d, op, c);
    }
    hide Summarises, Mergeable, Matches, Canonical, Retained;
    CanonicalGrow(h.closed, e, Extended(e, op));
  }

  lemma FollowOpens(d: Device, h: History, op: Op, d': Device)
    requires Lossless(d, h) && Recorded(d, op, d') && !Continues(d, op) && (op.Write? ==> op.index < 256)
    ensures Lossless(d', Follow(d, h, op))
  {
    RecordedOpen(d, op, d');
    OpenedSummarises(op);
    hide Summarises, Mergeable, Matches, Canonical, Retained, Append;
    match Open(d) {
      case None =>
        CanonicalFirst(Opened(op));
      case Some(e) =>
        OpenedDiffers(d, op);
        RetainedAppend(h.closed, d.journal, e);
        MatchesSnoc(h.closed, h.runs, e, h.tail);
        CanonicalSnoc(h.closed, e, Opened(op));
    }
  }

  lemma FollowKeeps(d: Device, h: History, op: Op, d': Device)
    requires Lossless(d, h) && Recorded(d, op, d') && (op.Write? ==> op.index < 256)
    ensures Lossless(d', Follow(d, h, op))
  {
    hide *;
    if Continues(d, op) {
      FollowContinues(d, h, op, d');
    } else {
      FollowOpens(d, h, op, d');
    }
  }

  lemma FollowFlat(d: Device, h: History, op: Op)
    requires Open(d).None? ==> h.tail == []
    ensures Flat(Follow(d, h, op).runs) + Follow(d, h, op).tail == Flat(h.runs) + h.tail + [op]
  {
    hide Flat;
    var all := Flat(h.runs) + h.tail;
    if Continues(d, op) {
      assert Flat(h.runs) + (h.tail + [op]) == all + [op];
    } else if Open(d).Some? {
      var e := Open(d).value;
      ClosedFlat(h, e);
      assert Flat(Closed(h, e).runs) + [] == all;
    }
  }

  // ---- accesses ------------------------------------------------------------------------

  /** An access that completes no event leaves the journal alone. */
  lemma SilentAccess(d: Device, h: History, p: Port)
    requires Lossless(d, h) && OpOf(d, p) == []
    ensures Lossless(Access(d, p), h)
  {
    hide Summarises, Matches, Canonical, Retained, Latched;
    var d' := Access(d, p);
    assert d'.journal == d.journal && d'.st == d.st && d'.dac == d.dac;
  }

  lemma AccessRecords(d: Device, p: Port)
    requires OneOpen(d) && OpOf(d, p) != []
    ensures |OpOf(d, p)| == 1 && Recorded(d, OpOf(d, p)[0], Access(d, p))
    ensures OpOf(d, p)[0].Write? ==> OpOf(d, p)[0].index < 256
  {
    hide Status, Triple, Latched, Append, Continues, Dac8;
    match p {
      case StatusRead(now) => StatusRecords(d, now);
      case Data(value, now) =>
        TripleRecords(d, d.writeIndex % 256, Latched(d.latch + [Dac8(value % 256)]), now);
        hide Open;
      case _ =>
    }
  }

  function FollowAll(d: Device, h: History, ops: seq<Op>): History {
    if ops == [] then h else Follow(d, h, ops[0])
  }

  lemma LosslessOpen(d: Device, h: History)
    requires Lossless(d, h)
    ensures OneOpen(d) && (Open(d).None? ==> h.tail == [])
  {
  }

  lemma AccessKeeps(d: Device, h: History, p: Port)
    requires Lossless(d, h)
    ensures var h' := FollowAll(d, h, OpOf(d, p));
            Lossless(Access(d, p), h') && Flat(h'.runs) + h'.tail == Flat(h.runs) + h.tail + OpOf(d, p)
  {
    hide Lossless, Access, OpOf, Follow, Flat, Recorded;
    LosslessOpen(d, h);
    if OpOf(d, p) == [] {
      SilentAccess(d, h, p);
      assert Flat(h.runs) + h.tail + [] == Flat(h.runs) + h.tail;
    } else {
      AccessRecords(d, p);
      var op := OpOf(d, p)[0];
      assert OpOf(d, p) == [op];
      FollowKeeps(d, h, op, Access(d, p));
      FollowFlat(d, h, op);
    }
  }

  // ---- one access -------------------------------------------------------------------------

  /** Whatever was recorded so far, `d'` records the same and then `ops`. */
  ghost predicate Tracks(d: Device, ops: seq<Op>, d': Device) {
    forall h :: Lossless(d, h) ==>
      exists h' :: Lossless(d', h') && Flat(h'.runs) + h'.tail == Flat(h.runs) + h.tail + ops
  }

  lemma TracksNothing(d: Device)
    ensures Tracks(d, [], d)
  {
    hide Lossless, Flat;
    forall h | Lossless(d, h)
      ensures exists h' :: Lossless(d, h') && Flat(h'.runs) + h'.tail == Flat(h.runs) + h.tail + []
    {
      assert Flat(h.runs) + h.tail == Flat(h.runs) + h.tail + [];
    }
  }

  lemma TracksThen(d: Device, a: seq<Op>, d': Device, b: seq<Op>, d'': Device)
    requires Tracks(d, a, d') && Tracks(d', b, d'')
    ensures Tracks(d, a + b, d'')
  {
    hide Lossless, Flat;
    forall h | Lossless(d, h)
      ensures exists h'' :: Lossless(d'', h'') && Flat(h''.runs) + h''.tail == Flat(h.runs) + h.tail + (a + b)
    {
      var h' :| Lossless(d', h') && Flat(h'.runs) + h'.tail == Flat(h.runs) + h.tail + a;
      var h'' :| Lossless(d'', h'') && Flat(h''.runs) + h''.tail == Flat(h'.runs) + h'.tail + b;
      assert Flat(h.runs) + h.tail + a + b == Flat(h.runs) + h.tail + (a + b);
    }
  }

  lemma AccessTracks(d: Device, p: Port)
    ensures Tracks(d, OpOf(d, p), Access(d, p))
  {
    hide *;
    forall h | Lossless(d, h)
      ensures exists h' :: Lossless(Access(d, p), h') && Flat(h'.runs) + h'.tail == Flat(h.runs) + h.tail + OpOf(d, p)
    {
      AccessKeeps(d, h, p);
    }
    TracksIs(d, OpOf(d, p), Access(d, p));
  }

  lemma TracksIs(d: Device, ops: seq<Op>, d': Device)
    requires forall h :: Lossless(d, h) ==>
               exists h' :: Lossless(d', h') && Flat(h'.runs) + h'.tail == Flat(h.runs) + h.tail + ops
    ensures Tracks(d, ops, d')
  {
    hide Lossless, Flat;
  }

  lemma TripleTracks(d: Device, idx: nat, rgb: Rgb, now: int)
    requires idx < 256
    ensures Tracks(d, [Write(idx, rgb, now)], Triple(d, idx, rgb, now))
  {
    hide *;
    var op := Write(idx, rgb, now);
    forall h | Lossless(d, h)
      ensures exists h' :: Lossless(Triple(d, idx, rgb, now), h')
                           && Flat(h'.runs) + h'.tail == Flat(h.runs) + h.tail + [op]
    {
      LosslessOpen(d, h);
      OpenKinds(d);
      TripleRecords(d, idx, rgb, now);
      FollowKeeps(d, h, op, Triple(d, idx, rgb, now));
      FollowFlat(d, h, op);
    }
    TracksIs(d, [op], Triple(d, idx, rgb, now));
  }

  lemma OpenKinds(d: Device)
    requires OneOpen(d)
    ensures !(d.st.Some? && d.dac.Some?) && (d.dac.Some? ==> d.dac.value.Dac?)
  {
  }

  // ---- runs of accesses ------------------------------------------------------------------

  function Device0(palette: map<nat, Rgb>): Device {
    Device([], None, None, palette, 0, 0, 0, [])
  }

  function Accesses(d: Device, ps: seq<Port>): Device
    decreases |ps|
  {
    if ps == [] then d else Access(Accesses(d, ps[..|ps| - 1]), ps[|ps| - 1])
  }

  /** Everything the hardware saw, in order. */
  function Events(d: Device, ps: seq<Port>): seq<Op>
    decreases |ps|
  {
    if ps == [] then [] else Events(d, ps[..|ps| - 1]) + OpOf(Accesses(d, ps[..|ps| - 1]), ps[|ps| - 1])
  }

  /** The runs the events fall into. */
  function Runs(d: Device, ps: seq<Port>): History
    decreases |ps|
  {
    if ps == [] then History([], [], [])
    else
      var before := Accesses(d, ps[..|ps| - 1]);
      FollowAll(before, Runs(d, ps[..|ps| - 1]), OpOf(before, ps[|ps| - 1]))
  }

  lemma Reset(palette: map<nat, Rgb>)
    ensures Lossless(Device0(palette), History([], [], []))
  {
  }

  /**
   For every sequence of port accesses: the closed runs followed by the open one are the
   status reads and palette writes in their exact order, each run has its true length,
   contents and first and last times, no two neighbouring runs could have been one, at
   most one is open, and the journal holds the newest 512 of those closed.
   */
  lemma {:induction false} JournalIsLossless(palette: map<nat, Rgb>, ps: seq<Port>)
    ensures var (d, h) := (Accesses(Device0(palette), ps), Runs(Device0(palette), ps));
            Lossless(d, h) && Flat(h.runs) + h.tail == Events(Device0(palette), ps)
    decreases |ps|
  {
    if ps == [] {
      Reset(palette);
      assert Flat([]) + [] == [];
    } else {
      hide Lossless, Access, OpOf, Flat, FollowAll;
      JournalIsLossless(palette, ps[..|ps| - 1]);
      AccessKeeps(Accesses(Device0(palette), ps[..|ps| - 1]), Runs(Device0(palette), ps[..|ps| - 1]), ps[|ps| - 1]);
    }
  }

  /** The palette is the events' writes applied in order. */
  function Replay(palette: map<nat, Rgb>, ops: seq<Op>): map<nat, Rgb> {
    if ops == [] then palette
    else
      var p := Replay(palette, ops[..|ops| - 1]);
      match ops[|ops| - 1]
      case Read(_) => p
      case Write(index, rgb, _) => p[index := rgb]
  }

  lemma AccessPalette(d: Device, p: Port)
    ensures Access(d, p).palette
            == if OpOf(d, p) != [] && OpOf(d, p)[0].Write? then d.palette[OpOf(d, p)[0].index := OpOf(d, p)[0].rgb] else d.palette
  {
    hide Append, Latched, Dac8;
  }

  lemma {:induction false} PaletteIsReplay(palette: map<nat, Rgb>, ps: seq<Port>)
    ensures Accesses(Device0(palette), ps).palette == Replay(palette, Events(Device0(palette), ps))
    decreases |ps|
  {
    if ps != [] {
      var d := Accesses(Device0(palette), ps[..|ps| - 1]);
      var before, op := Events(Device0(palette), ps[..|ps| - 1]), OpOf(d, ps[|ps| - 1]);
      PaletteIsReplay(palette, ps[..|ps| - 1]);
      AccessPalette(d, ps[|ps| - 1]);
      OpOfShort(d, ps[|ps| - 1]);
      hide Access, OpOf;
      if op == [] {
        assert before + op == before;
      } else {
        assert (before + op)[..|before|] == before;
      }
    }
  }

  lemma OpOfShort(d: Device, p: Port)
    ensures |OpOf(d, p)| <= 1
  {
    hide Latched, Dac8;
  }
}
