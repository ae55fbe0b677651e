/** The DOS object's video half: journal, open runs and DAC state updated field by field. */
module JournalDevice {
  import opened Memory
  import opened Journal

  /** What an 8-bit write means to the DAC. */
  function DacPort(port: nat, value: nat, now: int): Option<Port> {
    if port == 0x03C8 then Some(WriteIndex(value))
    else if port == 0x03C7 then Some(ReadIndex(value))
    else if port == 0x03C9 then Some(Data(value, now))
    else None
  }

  function Write8(d: Device, port: nat, value: nat, now: int): Device {
    match DacPort(port, value, now)
    case None => d
    case Some(p) => Access(d, p)
  }

  /** The event an 8-bit write completes, if any. */
  function OpsOf8(d: Device, port: nat, value: nat, now: int): seq<Op> {
    match DacPort(port, value, now)
    case None => []
    case Some(p) => OpOf(d, p)
  }

  lemma Write8Tracks(d: Device, port: nat, value: nat, now: int)
    ensures Tracks(d, OpsOf8(d, port, value, now), Write8(d, port, value, now))
  {
    hide Tracks, Access, OpOf;
    match DacPort(port, value, now) {
      case None => TracksNothing(d);
      case Some(p) => AccessTracks(d, p);
    }
  }

  // ---- a palette upload --------------------------------------------------------------------

  /** Six bits spread over eight: shifted up by two, the high two repeated below. */
  function Spread(v: nat): nat {
    v % 64 * 4 + v % 64 / 16
  }

  /** Red, green and blue of successive entries from `i` on, the last one being followed by the first. */
  function Painted(palette: map<nat, Rgb>, i: nat, rgbs: seq<Rgb>): map<nat, Rgb>
    decreases |rgbs|
  {
    if rgbs == [] then palette
    else Painted(palette[i % 256 := Rgb(Spread(rgbs[0].r), Spread(rgbs[0].g), Spread(rgbs[0].b))], i + 1, rgbs[1..])
  }

  /** The data port written with red, green and blue of each entry. */
  function DataBytes(rgbs: seq<Rgb>): seq<nat> {
    if rgbs == [] then [] else [rgbs[0].r, rgbs[0].g, rgbs[0].b] + DataBytes(rgbs[1..])
  }

  /** Byte writes to the DAC data port, one after another. */
  function Data8(d: Device, bytes: seq<nat>, now: int): Device
    decreases |bytes|
  {
    if bytes == [] then d else Data8(Write8(d, 0x3C9, bytes[0], now), bytes[1..], now)
  }

  lemma FirstTwo(d: Device, v: nat, now: int)
    requires d.component < 2 && v < 256
    ensures Write8(d, 0x3C9, v, now) == d.(component := d.component + 1, latch := d.latch + [Spread(v)])
  {
    hide Triple;
  }

  lemma ThirdWrites(d: Device, v: nat, now: int)
    requires d.component == 2 && |d.latch| == 2 && v < 256
    ensures var w := Write8(d, 0x3C9, v, now);
            w.palette == d.palette[d.writeIndex % 256 := Rgb(d.latch[0], d.latch[1], Spread(v))]
            && w.writeIndex == (d.writeIndex % 256 + 1) % 256 && w.component == 0 && w.latch == []
  {
    TripleWrites(d, d.writeIndex % 256, Latched(d.latch + [Spread(v)]), now);
    hide Triple;
  }

  lemma TripleWrites(d: Device, idx: nat, rgb: Rgb, now: int)
    ensures Triple(d, idx, rgb, now).palette == d.palette[idx := rgb]
  {
    hide Append;
  }

  /** Three byte writes for one entry. */
  function Entry3(d: Device, rgb: Rgb, now: int): Device {
    Write8(Write8(Write8(d, 0x3C9, rgb.r, now), 0x3C9, rgb.g, now), 0x3C9, rgb.b, now)
  }

  predicate Bytes3(rgb: Rgb) {
    rgb.r < 256 && rgb.g < 256 && rgb.b < 256
  }

  function Colour(rgb: Rgb): Rgb {
    Rgb(Spread(rgb.r), Spread(rgb.g), Spread(rgb.b))
  }

  lemma OneEntry(d: Device, rgb: Rgb, now: int)
    requires d.component == 0 && d.latch == [] && Bytes3(rgb)
    ensures var w := Entry3(d, rgb, now);
            w.palette == d.palette[d.writeIndex % 256 := Colour(rgb)]
            && w.writeIndex == (d.writeIndex % 256 + 1) % 256 && w.component == 0 && w.latch == []
  {
    hide Write8, Spread;
    var d1 := Write8(d, 0x3C9, rgb.r, now);
    FirstTwo(d, rgb.r, now);
    FirstTwo(d1, rgb.g, now);
    ThirdWrites(Write8(d1, 0x3C9, rgb.g, now), rgb.b, now);
  }

  lemma DataCons(d: Device, b: nat, rest: seq<nat>, now: int)
    ensures Data8(d, [b] + rest, now) == Data8(Write8(d, 0x3C9, b, now), rest, now)
  {
    hide Write8;
    assert ([b] + rest)[1..] == rest;
  }

  lemma DataNext(d: Device, rgbs: seq<Rgb>, now: int)
    requires rgbs != []
    ensures Data8(d, DataBytes(rgbs), now) == Data8(Entry3(d, rgbs[0], now), DataBytes(rgbs[1..]), now)
  {
    var (a, b, c, rest) := (rgbs[0].r, rgbs[0].g, rgbs[0].b, DataBytes(rgbs[1..]));
    assert DataBytes(rgbs) == [a] + ([b] + ([c] + rest));
    hide Write8, Data8;
    DataCons(d, a, [b] + ([c] + rest), now);
    DataCons(Write8(d, 0x3C9, a, now), b, [c] + rest, now);
    DataCons(Write8(Write8(d, 0x3C9, a, now), 0x3C9, b, now), c, rest, now);
  }

  lemma PaintedNext(palette: map<nat, Rgb>, i: nat, rgbs: seq<Rgb>)
    requires rgbs != []
    ensures Painted(palette, i, rgbs) == Painted(palette[i % 256 := Colour(rgbs[0])], (i % 256 + 1) % 256, rgbs[1..])
  {
    hide Spread;
    PaintedModulo(palette[i % 256 := Colour(rgbs[0])], i + 1, (i % 256 + 1) % 256, rgbs[1..]);
  }

  lemma {:induction false} PaintedModulo(palette: map<nat, Rgb>, i: nat, j: nat, rgbs: seq<Rgb>)
    requires i % 256 == j % 256
    ensures Painted(palette, i, rgbs) == Painted(palette, j, rgbs)
    decreases |rgbs|
  {
    if rgbs != [] {
      hide Spread;
      PaintedModulo(palette[i % 256 := Rgb(Spread(rgbs[0].r), Spread(rgbs[0].g), Spread(rgbs[0].b))], i + 1, j + 1, rgbs[1..]);
    }
  }

  ghost predicate AllBytes(rgbs: seq<Rgb>) {
    forall k :: 0 <= k < |rgbs| ==> Bytes3(rgbs[k])
  }

  lemma FirstBytes(rgbs: seq<Rgb>)
    requires AllBytes(rgbs) && rgbs != []
    ensures Bytes3(rgbs[0]) && AllBytes(rgbs[1..])
  {
  }

  lemma NothingPaints(d: Device, rgbs: seq<Rgb>, now: int)
    requires rgbs == []
    ensures Data8(d, DataBytes(rgbs), now).palette == Painted(d.palette, d.writeIndex, rgbs)
  {
  }

  lemma {:induction false} DataPaints(d: Device, rgbs: seq<Rgb>, now: int)
    requires d.component == 0 && d.latch == [] && AllBytes(rgbs)
    ensures Data8(d, DataBytes(rgbs), now).palette == Painted(d.palette, d.writeIndex, rgbs)
    decreases |rgbs|
  {
    hide *;
    if rgbs == [] {
      NothingPaints(d, rgbs, now);
    } else {
      FirstBytes(rgbs);
      DataNext(d, rgbs, now);
      OneEntry(d, rgbs[0], now);
      DataPaints(Entry3(d, rgbs[0], now), rgbs[1..], now);
      PaintedNext(d.palette, d.writeIndex, rgbs);
    }
  }

  lemma IndexSets(d: Device, v: nat, now: int)
    requires v < 256
    ensures Write8(d, 0x3C8, v, now) == d.(writeIndex := v, component := 0, latch := [])
  {
  }

  /** An index and then the bytes of as many entries as one likes paint those entries and no other. */
  lemma UploadPaints(d: Device, i: nat, rgbs: seq<Rgb>, now: int)
    requires i < 256 && AllBytes(rgbs)
    ensures Data8(Write8(d, 0x3C8, i, now), DataBytes(rgbs), now).palette == Painted(d.palette, i, rgbs)
  {
    hide *;
    IndexSets(d, i, now);
    DataPaints(Write8(d, 0x3C8, i, now), rgbs, now);
  }

  // ---- reading the palette back --------------------------------------------------------------

  ghost predicate Full(palette: map<nat, Rgb>) {
    forall i :: 0 <= i < 256 ==> i in palette
  }

  /** What a read of the data port answers: the high six bits of the component that is next. */
  function Answer(d: Device): nat
    requires Full(d.palette)
  {
    var c := d.palette[d.readIndex % 256];
    (if d.component % 3 == 0 then c.r else if d.component % 3 == 1 then c.g else c.b) / 4 % 64
  }

  /** Three reads of the data port for each of `n` entries. */
  function Entries(d: Device, n: nat): (r: seq<Rgb>)
    requires Full(d.palette)
    ensures |r| == n
    decreases n
  {
    if n == 0 then []
    else
      var d1 := Access(d, DataRead);
      var d2 := Access(d1, DataRead);
      [Rgb(Answer(d), Answer(d1), Answer(d2))] + Entries(Access(d2, DataRead), n - 1)
  }

  /** The high six bits of each component. */
  function Narrowed(c: Rgb): Rgb {
    Rgb(c.r / 4 % 64, c.g / 4 % 64, c.b / 4 % 64)
  }

  lemma ThreeReads(d: Device)
    requires Full(d.palette) && d.component == 0 && d.readIndex < 256
    ensures var d1 := Access(d, DataRead);
            var d2 := Access(d1, DataRead);
            Rgb(Answer(d), Answer(d1), Answer(d2)) == Narrowed(d.palette[d.readIndex])
            && Access(d2, DataRead) == d.(readIndex := (d.readIndex + 1) % 256)
  {
  }

  lemma EntriesNext(d: Device, n: nat)
    requires Full(d.palette) && d.component == 0 && d.readIndex < 256 && n > 0
    ensures Entries(d, n) == [Narrowed(d.palette[d.readIndex])] + Entries(d.(readIndex := (d.readIndex + 1) % 256), n - 1)
  {
    ThreeReads(d);
    hide Access, Narrowed, Answer, Full;
  }

  lemma Around(i: nat, k: nat)
    requires i < 256
    ensures (i + k) % 256 < 256 && (k > 0 ==> ((i + 1) % 256 + (k - 1)) % 256 == (i + k) % 256) && (k == 0 ==> (i + k) % 256 == i)
  {
    assert (i + 1) % 256 == if i == 255 then 0 else i + 1;
  }

  lemma Present(palette: map<nat, Rgb>, i: nat)
    requires Full(palette) && i < 256
    ensures i in palette
  {
  }

  lemma {:induction false} EntriesAt(d: Device, n: nat, k: nat)
    requires Full(d.palette) && d.component == 0 && d.readIndex < 256 && k < n
    ensures (d.readIndex + k) % 256 in d.palette && Entries(d, n)[k] == Narrowed(d.palette[(d.readIndex + k) % 256])
    decreases n
  {
    hide *;
    EntriesNext(d, n);
    Around(d.readIndex, k);
    Present(d.palette, (d.readIndex + k) % 256);
    if k > 0 {
      EntriesAt(d.(readIndex := (d.readIndex + 1) % 256), n - 1, k - 1);
    }
  }

  lemma BehindNext(i: nat, x: nat)
    requires x < 256 && (x - i) % 256 >= 1
    ensures i % 256 != x && (x - (i + 1)) % 256 == (x - i) % 256 - 1
  {
  }

  /** Entries that are not among those painted stay. */
  lemma {:induction false} PaintedElsewhere(palette: map<nat, Rgb>, i: nat, rgbs: seq<Rgb>, x: nat)
    requires x < 256 && (x - i) % 256 >= |rgbs|
    ensures x in Painted(palette, i, rgbs) <==> x in palette
    ensures x in palette ==> Painted(palette, i, rgbs)[x] == palette[x]
    decreases |rgbs|
  {
    hide Spread;
    if rgbs != [] {
      BehindNext(i, x);
      PaintedElsewhere(palette[i % 256 := Rgb(Spread(rgbs[0].r), Spread(rgbs[0].g), Spread(rgbs[0].b))], i + 1, rgbs[1..], x);
    }
  }

  /** Up to 256 entries, each painted once. */
  lemma {:induction false} PaintedAt(palette: map<nat, Rgb>, i: nat, rgbs: seq<Rgb>, k: nat)
    requires k < |rgbs| <= 256
    ensures (i + k) % 256 in Painted(palette, i, rgbs) && Painted(palette, i, rgbs)[(i + k) % 256] == Colour(rgbs[k])
    decreases |rgbs|
  {
    hide Spread;
    var next := palette[i % 256 := Colour(rgbs[0])];
    if k == 0 {
      assert (i % 256 - (i + 1)) % 256 == 255;
      PaintedElsewhere(next, i + 1, rgbs[1..], i % 256);
    } else {
      PaintedAt(next, i + 1, rgbs[1..], k - 1);
    }
  }

  lemma {:induction false} PaintedFull(palette: map<nat, Rgb>, i: nat, rgbs: seq<Rgb>)
    requires Full(palette)
    ensures Full(Painted(palette, i, rgbs))
    decreases |rgbs|
  {
    hide Spread;
    if rgbs != [] {
      PaintedFull(palette[i % 256 := Colour(rgbs[0])], i + 1, rgbs[1..]);
    }
  }

  lemma SpreadBack(v: nat)
    ensures Spread(v) / 4 % 64 == v % 64
  {
    var x := v % 64;
    assert (x * 4 + x / 16) / 4 == x;
  }

  lemma SpreadNarrows(c: Rgb)
    ensures Narrowed(Colour(c)) == Rgb(c.r % 64, c.g % 64, c.b % 64)
  {
    SpreadBack(c.r);
    SpreadBack(c.g);
    SpreadBack(c.b);
    hide Spread;
  }

  lemma ReadIndexSets(d: Device, v: nat, now: int)
    requires v < 256
    ensures Write8(d, 0x3C7, v, now) == d.(readIndex := v, component := 0)
  {
  }

  lemma OtherPorts(d: Device, port: nat, v: nat, now: int)
    requires port !in {0x3C7, 0x3C8, 0x3C9}
    ensures Write8(d, port, v, now) == d
  {
  }

  /** What was uploaded reads back: the six bits of every component of up to 256 entries. */
  lemma UploadReadsBack(d: Device, i: nat, rgbs: seq<Rgb>, now: int, k: nat)
    requires i < 256 && AllBytes(rgbs) && k < |rgbs| <= 256 && Full(d.palette)
    ensures var w := Write8(Data8(Write8(d, 0x3C8, i, now), DataBytes(rgbs), now), 0x3C7, i, now);
            Full(w.palette) && Entries(w, |rgbs|)[k] == Rgb(rgbs[k].r % 64, rgbs[k].g % 64, rgbs[k].b % 64)
  {
    hide *;
    var u := Data8(Write8(d, 0x3C8, i, now), DataBytes(rgbs), now);
    UploadPaints(d, i, rgbs, now);
    PaintedFull(d.palette, i, rgbs);
    ReadIndexSets(u, i, now);
    EntriesAt(Write8(u, 0x3C7, i, now), |rgbs|, k);
    PaintedAt(d.palette, i, rgbs, k);
    SpreadNarrows(rgbs[k]);
  }

  class DOSVideo {
    var videoJournal: seq<Entry>
    var vjSt: Option<Entry>
    var vjDac: Option<Entry>
    var vgaPalette: map<nat, Rgb>
    var dacWriteIndex: nat
    var dacReadIndex: nat
    var dacComponent: nat
    var dacLatch: seq<nat>

    constructor (palette: map<nat, Rgb>)
      ensures State() == Device0(palette)
    {
      videoJournal, vjSt, vjDac, vgaPalette := [], None, None, palette;
      dacWriteIndex, dacReadIndex, dacComponent, dacLatch := 0, 0, 0, [];
    }

    ghost function State(): Device
      reads this
    {
      Device.Device(videoJournal, vjSt, vjDac, vgaPalette, dacWriteIndex, dacReadIndex, dacComponent, dacLatch)
    }

    method VjCloseDac()
      modifies this`videoJournal, this`vjDac
      ensures State() == CloseDac(old(State()))
    {
      if vjDac.Some? {
        videoJournal := Append(videoJournal, vjDac.value);
        vjDac := None;
      }
    }

    method VjCloseSt()
      modifies this`videoJournal, this`vjSt
      ensures State() == CloseSt(old(State()))
    {
      if vjSt.Some? {
        videoJournal := Append(videoJournal, vjSt.value);
        vjSt := None;
      }
    }

    /** The journal's part of a status-register read. */
    method VgaStatus(now: int)
      modifies this
      ensures State() == Status(old(State()), now) && Tracks(old(State()), [Read(now)], State())
    {
      AccessTracks(State(), StatusRead(now));
      hide Append, Tracks;
      VjCloseDac();
      if vjSt.Some? && vjSt.value.St? {
        vjSt := Some(St(vjSt.value.count + 1, vjSt.value.first, now));
      } else {
        vjSt := Some(St(1, now, now));
      }
    }

    /** A completed triple: the palette entry, then the group it extends or opens. */
    method CompleteTriple(idx: nat, rgb: Rgb, now: int)
      requires idx < 256
      modifies this
      ensures State() == Triple(old(State()), idx, rgb, now) && Tracks(old(State()), [Write(idx, rgb, now)], State())
      ensures vgaPalette == old(vgaPalette)[idx := rgb]
    {
      TripleTracks(State(), idx, rgb, now);
      hide Append, Tracks;
      vgaPalette := vgaPalette[idx := rgb];
      VjCloseSt();
      if vjDac.Some? && vjDac.value.Dac? && (vjDac.value.start + |vjDac.value.values|) % 256 == idx {
        vjDac := Some(vjDac.value.(values := vjDac.value.values + [rgb], last := now));
      } else {
        if vjDac.Some? && vjDac.value.Dac? {
          VjCloseDac();
        }
        vjDac := Some(Dac(idx, [rgb], now, now));
      }
    }

    method TrackByte(port: nat, value: nat, now: int)
      modifies this
      ensures State() == Write8(old(State()), port, value, now)
      ensures Tracks(old(State()), OpsOf8(old(State()), port, value, now), State())
    {
      Write8Tracks(State(), port, value, now);
      hide Triple, Dac8, Latched, Tracks, OpsOf8;
      if port == 0x03C8 {
        dacWriteIndex, dacComponent, dacLatch := value % 256, 0, [];
      } else if port == 0x03C7 {
        dacReadIndex, dacComponent := value % 256, 0;
      } else if port == 0x03C9 {
        if dacComponent + 1 < 3 {
          dacLatch := dacLatch + [Dac8(value % 256)];
          dacComponent := dacComponent + 1;
        } else {
          var idx := dacWriteIndex % 256;
          CompleteTriple(idx, Latched(dacLatch + [Dac8(value % 256)]), now);
          dacWriteIndex, dacComponent, dacLatch := (idx + 1) % 256, 0, [];
        }
      }
    }

    /** A 16-bit write is two byte writes to neighbouring ports. */
    method TrackVgaDacPorts(port: nat, value: nat, bits: nat, now: int)
      requires value < 0x1_0000
      modifies this
      ensures State() == if bits == 16 then
                           Write8(Write8(old(State()), port, value % 256, now), (port + 1) % 0x1_0000, value / 256, now)
                         else if bits == 8 then Write8(old(State()), port, value % 256, now)
                         else old(State())
      ensures bits == 16 ==>
                Tracks(old(State()), OpsOf8(old(State()), port, value % 256, now)
                                     + OpsOf8(Write8(old(State()), port, value % 256, now), (port + 1) % 0x1_0000, value / 256, now), State())
      ensures bits == 8 ==> Tracks(old(State()), OpsOf8(old(State()), port, value % 256, now), State())
      ensures bits == 8 && port == 0x3C8 ==> dacWriteIndex == value % 256 && dacComponent == 0 && dacLatch == [] && vgaPalette == old(vgaPalette)
      ensures bits == 8 && port == 0x3C7 ==> State() == old(State()).(readIndex := value % 256, component := 0)
      ensures bits == 8 && port !in {0x3C7, 0x3C8, 0x3C9} ==> State() == old(State())
      ensures bits == 8 && port == 0x3C9 && old(dacComponent) == 2 && |old(dacLatch)| == 2 ==>
                vgaPalette == old(vgaPalette)[old(dacWriteIndex) % 256 := Rgb(old(dacLatch)[0], old(dacLatch)[1], Spread(value % 256))]
    {
      if port == 0x3C9 && dacComponent == 2 && |dacLatch| == 2 {
        ThirdWrites(State(), value % 256, now);
      }
      IndexSets(State(), value % 256, now);
      ReadIndexSets(State(), value % 256, now);
      if port !in {0x3C7, 0x3C8, 0x3C9} {
        OtherPorts(State(), port, value % 256, now);
      }
      hide Write8, Tracks, OpsOf8;
      if bits == 16 {
        var high := (port + 1) % 0x1_0000;
        TrackByte(port, value % 256, now);
        ghost var between := State();
        TrackByte(high, value / 256, now);
        TracksThen(old(State()), OpsOf8(old(State()), port, value % 256, now), between,
                   OpsOf8(between, high, value / 256, now), State());
      } else if bits == 8 {
        TrackByte(port, value % 256, now);
      }
    }

    /** A read of the data port: red, green and blue in turn, then the next entry. */
    method ReadDacData() returns (value: nat)
      requires Full(vgaPalette)
      modifies this`dacComponent, this`dacReadIndex
      ensures value == Answer(old(State())) && State() == Access(old(State()), DataRead)
    {
      var idx, comp := dacReadIndex % 256, dacComponent % 3;
      var c := vgaPalette[idx];
      value := (if comp == 0 then c.r else if comp == 1 then c.g else c.b) / 4 % 64;
      dacComponent := (dacComponent + 1) % 3;
      if dacComponent == 0 {
        dacReadIndex := (idx + 1) % 256;
      }
    }
  }
}
