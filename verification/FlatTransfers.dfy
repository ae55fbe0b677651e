/** What the slices leave behind is what the unit loop leaves behind, for each kind of transfer. */
module FlatTransfers {
  import opened Blocks
  import opened Memory
  import opened PlanarVga
  import opened FlatString

  // ---- the five kinds of transfer -----------------------------------------------------------

  /** Every byte of the range is on the same side of the aperture boundary as its first. */
  predicate Uniform(m: Flat, a: nat, n: nat) {
    (m.Planar(a) ==> a + n <= APERTURE_END) && (!m.Planar(a) && m.vga.Some? ==> a + n <= APERTURE || a >= APERTURE_END)
  }

  lemma UniformAt(m: Flat, a: nat, n: nat, i: nat)
    requires Uniform(m, a, n) && i < n
    ensures m.Planar(a + i) == m.Planar(a)
  {
  }

  /** RAM to RAM. */
  predicate RamRamCase(m: Flat, op: Op, src: nat, dst: nat, n: nat) {
    m.Valid() && op.Valid() && op.Movs? && src + n <= |m.data| && dst + n <= |m.data| && SafeForward(src, dst, n)
    && Uniform(m, src, n) && Uniform(m, dst, n) && !m.Planar(src) && !m.Planar(dst)
  }

  function Moved(m: Flat, src: nat, dst: nat, n: nat): (r: Flat)
    requires m.Valid() && src + n <= |m.data| && dst + n <= |m.data|
    ensures r.Valid()
  {
    m.(data := Move(m.data, src, dst, n))
  }

  lemma RamRamLess(m: Flat, op: Op, src: nat, dst: nat, n: nat, k: nat)
    requires RamRamCase(m, op, src, dst, n + k)
    ensures RamRamCase(m, op, src, dst, n) && m.Valid() && src + n + k <= |m.data| && dst + n + k <= |m.data|
  {
  }

  lemma MovedNone(m: Flat, src: nat, dst: nat)
    requires m.Valid() && src <= |m.data| && dst <= |m.data|
    ensures Moved(m, src, dst, 0) == m
  {
    MoveNothing(m.data, src, dst);
  }

  lemma {:induction false} RamToRam(m: Flat, op: Op, src: nat, dst: nat, eax: nat, k: nat)
    requires RamRamCase(m, op, src, dst, Span(op.sz, k))
    ensures m.Valid() && src + Span(op.sz, k) <= |m.data| && dst + Span(op.sz, k) <= |m.data|
    ensures LoopMemory(m, op, src, dst, eax, k) == (Moved(m, src, dst, Span(op.sz, k)), NoError)
  {
    hide *;
    RamRamLess(m, op, src, dst, Span(op.sz, k), 0);
    if k == 0 {
      SpanNone(op.sz);
      LoopMemoryNone(m, op, src, dst, eax);
      MovedNone(m, src, dst);
    } else {
      var i: nat := k - 1;
      SpanNext(op.sz, i);
      RamRamLess(m, op, src, dst, Span(op.sz, i), op.sz);
      RamToRam(m, op, src, dst, eax, i);
      LoopMemoryNext(m, op, src, dst, eax, i);
      RamUnit(m, op, src, dst, eax, Span(op.sz, i));
    }
  }

  lemma RamUnit(m: Flat, op: Op, src: nat, dst: nat, eax: nat, n: nat)
    requires RamRamCase(m, op, src, dst, n + op.sz)
    ensures Transfer(Moved(m, src, dst, n), op, src + n, dst + n, eax) == (Moved(m, src, dst, n + op.sz), NoError)
  {
    MoveAfterMove(m.data, src, dst, n, op.sz);
    UniformAt(m, src, n + op.sz, n);
    UniformAt(m, dst, n + op.sz, n);
    hide Put, SafeForward;
  }

  lemma {:induction false} RepeatSnoc<T>(p: seq<T>, k: nat)
    ensures Repeat(p, k + 1) == Repeat(p, k) + p
  {
    if k > 0 {
      RepeatSnoc(p, k - 1);
      assert p + (Repeat(p, k - 1) + p) == p + Repeat(p, k - 1) + p;
    } else {
      assert p + [] == [] + p;
    }
  }

  lemma RepeatSpan(op: Op, eax: nat, k: nat)
    ensures |Repeat(LowBytes(eax, op.sz), k)| == Span(op.sz, k)
  {
    SpanIsProduct(op.sz, k);
  }

  /** The memory after `x` went to RAM at `dst`. */
  function Filled(m: Flat, dst: nat, x: seq<Byte>): (r: Flat)
    requires m.Valid() && dst + |x| <= |m.data|
    ensures r.Valid()
  {
    m.(data := Put(m.data, dst, x))
  }

  predicate RamFillCase(m: Flat, op: Op, dst: nat, n: nat) {
    m.Valid() && op.Valid() && op.Stos? && dst + n <= |m.data| && Uniform(m, dst, n) && !m.Planar(dst)
  }

  lemma RamFillLess(m: Flat, op: Op, dst: nat, n: nat, k: nat)
    requires RamFillCase(m, op, dst, n + k)
    ensures RamFillCase(m, op, dst, n) && m.Valid() && dst + n + k <= |m.data|
  {
  }

  lemma FilledNone(m: Flat, dst: nat)
    requires m.Valid() && dst <= |m.data|
    ensures Filled(m, dst, []) == m
  {
    PutNothing(m.data, dst);
  }

  lemma RamFillUnit(m: Flat, op: Op, src: nat, dst: nat, eax: nat, x: seq<Byte>)
    requires RamFillCase(m, op, dst, |x| + op.sz)
    ensures Transfer(Filled(m, dst, x), op, src, dst + |x|, eax) == (Filled(m, dst, x + LowBytes(eax, op.sz)), NoError)
  {
    PutAfterPut(m.data, dst, x, LowBytes(eax, op.sz));
    UniformAt(m, dst, |x| + op.sz, |x|);
    hide Put, LowBytes, Uniform;
  }

  /** A fill of RAM. */
  lemma {:induction false} FillRam(m: Flat, op: Op, src: nat, dst: nat, eax: nat, k: nat)
    requires RamFillCase(m, op, dst, Span(op.sz, k))
    ensures |Repeat(LowBytes(eax, op.sz), k)| == Span(op.sz, k)
    ensures m.Valid() && dst + Span(op.sz, k) <= |m.data|
    ensures LoopMemory(m, op, src, dst, eax, k) == (Filled(m, dst, Repeat(LowBytes(eax, op.sz), k)), NoError)
  {
    hide *;
    RamFillLess(m, op, dst, Span(op.sz, k), 0);
    RepeatSpan(op, eax, k);
    var p := LowBytes(eax, op.sz);
    if k == 0 {
      SpanNone(op.sz);
      LoopMemoryNone(m, op, src, dst, eax);
      RepeatNone(p);
      FilledNone(m, dst);
    } else {
      var i: nat := k - 1;
      SpanNext(op.sz, i);
      RamFillLess(m, op, dst, Span(op.sz, i), op.sz);
      FillRam(m, op, src, dst, eax, i);
      LoopMemoryNext(m, op, src, dst, eax, i);
      RepeatSnoc(p, i);
      RamFillUnit(m, op, src + Span(op.sz, i), dst, eax, Repeat(p, i));
    }
  }

  lemma RepeatNone<T>(p: seq<T>)
    ensures Repeat(p, 0) == []
  {
  }

  lemma PutNothing<T>(d: seq<T>, at: nat)
    requires at <= |d|
    ensures Put(d, at, []) == d
  {
  }

  /** The memory after `x` went to the planes at `dst`. */
  function Stored(m: Flat, dst: nat, x: seq<Byte>): (r: Flat)
    requires m.Valid() && m.Planar(dst) && dst - APERTURE + |x| <= PLANE
    ensures r.Valid()
  {
    m.(vga := Some(StoreRange(m.vga.value, dst - APERTURE, x)))
  }

  /** `n` bytes for the planes in write mode 0. */
  predicate Storable(m: Flat, dst: nat, n: nat) {
    m.Valid() && m.Planar(dst) && Uniform(m, dst, n) && dst - APERTURE + n <= PLANE
    && m.vga.value.writeMode == 0 && m.vga.value.bitMask == 0xFF
  }

  lemma StorableLess(m: Flat, dst: nat, n: nat, k: nat)
    requires Storable(m, dst, n + k)
    ensures Storable(m, dst, n) && m.Valid() && m.Planar(dst) && dst - APERTURE + n + k <= PLANE
  {
  }

  lemma StoredNone(m: Flat, dst: nat)
    requires m.Valid() && m.Planar(dst)
    ensures Stored(m, dst, []) == m
  {
    StoreNothing(m.vga.value, dst - APERTURE);
  }

  lemma StoredTwice(m: Flat, dst: nat, x: seq<Byte>, y: seq<Byte>)
    requires Storable(m, dst, |x| + |y|)
    ensures StoreRange(Stored(m, dst, x).vga.value, dst - APERTURE + |x|, y) == Stored(m, dst, x + y).vga.value
    ensures Stored(m, dst, x).vga.value.writeMode == 0 && Stored(m, dst, x).vga.value.bitMask == 0xFF
  {
    StoreAfterStore(m.vga.value, dst - APERTURE, x, y);
    StoreKeepsModes(m.vga.value, dst - APERTURE, x);
    hide StoreRange;
  }

  /** The next unit stored in the planes after `x` has been. */
  lemma StoreUnit(m: Flat, dst: nat, x: seq<Byte>, y: seq<Byte>)
    requires Storable(m, dst, |x| + |y|) && |y| > 0
    ensures WriteUnit(Stored(m, dst, x), dst + |x|, y) == (Stored(m, dst, x + y), NoError)
  {
    StoredTwice(m, dst, x, y);
    hide StoreRange, WriteRun;
    var w := Stored(m, dst, x).vga.value;
    assert Stored(m, dst, x).Planar(dst + |x|);
    WriteRunClosed(w, dst - APERTURE + |x|, y, |y|);
    assert y[..|y|] == y;
  }

  lemma FillUnit(m: Flat, op: Op, src: nat, dst: nat, eax: nat, x: seq<Byte>)
    requires op.Valid() && op.Stos? && Storable(m, dst, |x| + op.sz)
    ensures Transfer(Stored(m, dst, x), op, src, dst + |x|, eax) == (Stored(m, dst, x + LowBytes(eax, op.sz)), NoError)
  {
    StoreUnit(m, dst, x, LowBytes(eax, op.sz));
    hide Stored, WriteUnit, LowBytes, Uniform, Vga.CanWrite;
  }

  /** A fill of the planes in write mode 0. */
  lemma {:induction false} FillPlanes(m: Flat, op: Op, src: nat, dst: nat, eax: nat, k: nat)
    requires op.Valid() && op.Stos? && Storable(m, dst, Span(op.sz, k))
    ensures |Repeat(LowBytes(eax, op.sz), k)| == Span(op.sz, k)
    ensures m.Valid() && m.Planar(dst) && dst - APERTURE + Span(op.sz, k) <= PLANE
    ensures LoopMemory(m, op, src, dst, eax, k) == (Stored(m, dst, Repeat(LowBytes(eax, op.sz), k)), NoError)
  {
    hide *;
    StorableLess(m, dst, Span(op.sz, k), 0);
    RepeatSpan(op, eax, k);
    var p := LowBytes(eax, op.sz);
    if k == 0 {
      SpanNone(op.sz);
      LoopMemoryNone(m, op, src, dst, eax);
      RepeatNone(p);
      StoredNone(m, dst);
    } else {
      var i: nat := k - 1;
      SpanNext(op.sz, i);
      StorableLess(m, dst, Span(op.sz, i), op.sz);
      FillPlanes(m, op, src, dst, eax, i);
      LoopMemoryNext(m, op, src, dst, eax, i);
      RepeatSnoc(p, i);
      FillUnit(m, op, src + Span(op.sz, i), dst, eax, Repeat(p, i));
    }
  }

  /** RAM to the planes in write mode 0. */
  predicate RamPlanesCase(m: Flat, op: Op, src: nat, dst: nat, n: nat) {
    op.Valid() && op.Movs? && src + n <= |m.data| && !m.Planar(src) && Uniform(m, src, n) && Storable(m, dst, n)
  }

  function ToPlanes(m: Flat, src: nat, dst: nat, n: nat): (r: Flat)
    requires m.Valid() && m.Planar(dst) && src + n <= |m.data| && dst - APERTURE + n <= PLANE
    ensures r.Valid()
  {
    Stored(m, dst, m.data[src..src + n])
  }

  lemma ToPlanesNone(m: Flat, src: nat, dst: nat)
    requires m.Valid() && m.Planar(dst) && src <= |m.data|
    ensures ToPlanes(m, src, dst, 0) == m
  {
    assert m.data[src..src] == [];
    StoredNone(m, dst);
    hide Stored;
  }

  /** The next unit of a RAM source, unaffected by what went to the planes. */
  lemma ReadRamUnit(m: Flat, op: Op, src: nat, dst: nat, n: nat)
    requires RamPlanesCase(m, op, src, dst, n + op.sz)
    ensures ReadUnit(ToPlanes(m, src, dst, n), src + n, op.sz)
            == (ToPlanes(m, src, dst, n), NoError, m.data[src + n..src + n + op.sz])
  {
    UniformAt(m, src, n + op.sz, n);
    hide StoreRange, Uniform;
  }

  lemma StoreRamUnit(m: Flat, op: Op, src: nat, dst: nat, n: nat)
    requires RamPlanesCase(m, op, src, dst, n + op.sz)
    ensures WriteUnit(ToPlanes(m, src, dst, n), dst + n, m.data[src + n..src + n + op.sz])
            == (ToPlanes(m, src, dst, n + op.sz), NoError)
  {
    hide WriteUnit, Uniform, Stored;
    var x, y := m.data[src..src + n], m.data[src + n..src + n + op.sz];
    StoreUnit(m, dst, x, y);
    assert x + y == m.data[src..src + n + op.sz];
  }

  lemma ToPlanesUnit(m: Flat, op: Op, src: nat, dst: nat, eax: nat, n: nat)
    requires RamPlanesCase(m, op, src, dst, n + op.sz)
    ensures Transfer(ToPlanes(m, src, dst, n), op, src + n, dst + n, eax) == (ToPlanes(m, src, dst, n + op.sz), NoError)
  {
    ReadRamUnit(m, op, src, dst, n);
    StoreRamUnit(m, op, src, dst, n);
    hide ToPlanes, ReadUnit, WriteUnit, Uniform, Flat.Valid, Vga.CanWrite;
  }

  lemma RamPlanesLess(m: Flat, op: Op, src: nat, dst: nat, n: nat, k: nat)
    requires RamPlanesCase(m, op, src, dst, n + k)
    ensures RamPlanesCase(m, op, src, dst, n)
    ensures m.Valid() && m.Planar(dst) && src + n + k <= |m.data| && dst - APERTURE + n + k <= PLANE
  {
  }

  lemma {:induction false} RamToPlanes(m: Flat, op: Op, src: nat, dst: nat, eax: nat, k: nat)
    requires RamPlanesCase(m, op, src, dst, Span(op.sz, k))
    ensures LoopMemory(m, op, src, dst, eax, k) == (ToPlanes(m, src, dst, Span(op.sz, k)), NoError)
  {
    hide *;
    RamPlanesLess(m, op, src, dst, Span(op.sz, k), 0);
    if k == 0 {
      SpanNone(op.sz);
      LoopMemoryNone(m, op, src, dst, eax);
      ToPlanesNone(m, src, dst);
    } else {
      var i: nat := k - 1;
      var n := Span(op.sz, i);
      SpanNext(op.sz, i);
      RamPlanesLess(m, op, src, dst, n, op.sz);
      RamToPlanes(m, op, src, dst, eax, i);
      LoopMemoryNext(m, op, src, dst, eax, i);
      ToPlanesUnit(m, op, src, dst, eax, n);
    }
  }

  lemma SpanNone(sz: nat)
    ensures Span(sz, 0) == 0
  {
  }

  lemma SpanNext(sz: nat, k: nat)
    ensures Span(sz, k + 1) == Span(sz, k) + sz
  {
  }

  /** The planes to RAM, in either read position and any write mode. */
  predicate PlanesRamCase(m: Flat, op: Op, src: nat, dst: nat, n: nat) {
    m.Valid() && op.Valid() && op.Movs? && dst + n <= |m.data|
    && m.Planar(src) && Uniform(m, src, n) && src - APERTURE + n <= PLANE && !m.Planar(dst) && Uniform(m, dst, n)
  }

  /** The memory after `n` bytes have been read from the planes into RAM. */
  function FromPlanes(m: Flat, src: nat, dst: nat, n: nat): (r: Flat)
    requires m.Valid() && m.Planar(src) && src - APERTURE + n <= PLANE && dst + n <= |m.data|
    ensures r.Valid()
  {
    Flat(Put(m.data, dst, MapBytes(m.vga.value, src - APERTURE, n)), Some(Latched(m.vga.value, src - APERTURE, n)))
  }

  lemma FromPlanesNone(m: Flat, src: nat, dst: nat)
    requires m.Valid() && m.Planar(src) && dst <= |m.data|
    ensures FromPlanes(m, src, dst, 0) == m
  {
    PutNothing(m.data, dst);
    assert MapBytes(m.vga.value, src - APERTURE, 0) == [];
  }

  lemma MapBytesJoin(v: Vga, off: nat, n: nat, k: nat)
    requires v.Valid() && off + n + k <= PLANE
    ensures MapBytes(v, off, n) + MapBytes(Latched(v, off, n), off + n, k) == MapBytes(v, off, n + k)
  {
  }

  lemma LatchedTwice(v: Vga, off: nat, n: nat, k: nat)
    requires v.Valid() && k > 0 && off + n + k <= PLANE
    ensures Latched(Latched(v, off, n), off + n, k) == Latched(v, off, n + k)
  {
  }

  /** What reading the next unit does to the planar side. */
  lemma ReadNextUnit(m: Flat, op: Op, src: nat, dst: nat, n: nat)
    requires PlanesRamCase(m, op, src, dst, n + op.sz)
    ensures var (v, off) := (m.vga.value, src - APERTURE);
            var x := MapBytes(Latched(v, off, n), off + n, op.sz);
            ReadUnit(FromPlanes(m, src, dst, n), src + n, op.sz)
            == (FromPlanes(m, src, dst, n).(vga := Some(Latched(v, off, n + op.sz))), NoError, x)
  {
    var v, off := m.vga.value, src - APERTURE;
    ReadRunClosed(Latched(v, off, n), off + n, op.sz);
    LatchedTwice(v, off, n, op.sz);
    UniformAt(m, src, n + op.sz, n);
    hide Latched, MapBytes, Put, ReadRun, Uniform;
  }

  /** What writing it does to RAM. */
  lemma WriteNextUnit(m: Flat, op: Op, src: nat, dst: nat, n: nat)
    requires PlanesRamCase(m, op, src, dst, n + op.sz)
    ensures var (v, off) := (m.vga.value, src - APERTURE);
            WriteUnit(FromPlanes(m, src, dst, n).(vga := Some(Latched(v, off, n + op.sz))), dst + n,
                      MapBytes(Latched(v, off, n), off + n, op.sz))
            == (FromPlanes(m, src, dst, n + op.sz), NoError)
  {
    var v, off := m.vga.value, src - APERTURE;
    MapBytesJoin(v, off, n, op.sz);
    UniformAt(m, dst, n + op.sz, n);
    MapBytesLength(v, off, n);
    MapBytesLength(Latched(v, off, n), off + n, op.sz);
    hide Latched, MapBytes, Put, Uniform;
    PutAfterPut(m.data, dst, MapBytes(v, off, n), MapBytes(Latched(v, off, n), off + n, op.sz));
  }

  lemma MapBytesLength(v: Vga, off: nat, n: nat)
    requires v.Valid() && off + n <= PLANE
    ensures |MapBytes(v, off, n)| == n
  {
  }

  lemma FromPlanesUnit(m: Flat, op: Op, src: nat, dst: nat, eax: nat, n: nat)
    requires PlanesRamCase(m, op, src, dst, n + op.sz)
    ensures Transfer(FromPlanes(m, src, dst, n), op, src + n, dst + n, eax) == (FromPlanes(m, src, dst, n + op.sz), NoError)
  {
    ReadNextUnit(m, op, src, dst, n);
    WriteNextUnit(m, op, src, dst, n);
    hide FromPlanes, ReadUnit, WriteUnit, Latched, MapBytes, Uniform;
  }

  lemma PlanesRamLess(m: Flat, op: Op, src: nat, dst: nat, n: nat, k: nat)
    requires PlanesRamCase(m, op, src, dst, n + k)
    ensures PlanesRamCase(m, op, src, dst, n)
    ensures m.Valid() && m.Planar(src) && dst + n + k <= |m.data| && src - APERTURE + n + k <= PLANE
  {
  }

  lemma {:induction false} PlanesToRam(m: Flat, op: Op, src: nat, dst: nat, eax: nat, k: nat)
    requires PlanesRamCase(m, op, src, dst, Span(op.sz, k))
    ensures LoopMemory(m, op, src, dst, eax, k) == (FromPlanes(m, src, dst, Span(op.sz, k)), NoError)
  {
    hide *;
    PlanesRamLess(m, op, src, dst, Span(op.sz, k), 0);
    if k == 0 {
      SpanNone(op.sz);
      LoopMemoryNone(m, op, src, dst, eax);
      FromPlanesNone(m, src, dst);
    } else {
      var i: nat := k - 1;
      var n := Span(op.sz, i);
      SpanNext(op.sz, i);
      PlanesRamLess(m, op, src, dst, n, op.sz);
      PlanesToRam(m, op, src, dst, eax, i);
      LoopMemoryNext(m, op, src, dst, eax, i);
      FromPlanesUnit(m, op, src, dst, eax, n);
    }
  }

  // ---- planes to planes ---------------------------------------------------------------------

  /** One unit between planes: read every byte of it, then write them. */
  function PlaneUnit(v: Vga, src: nat, dst: nat, sz: nat): (r: Effect)
    requires v.Valid()
    ensures r.v.Valid()
  {
    ReadRunLength(v, src, sz);
    var (e, x) := ReadRun(v, src, sz);
    if e.error.NoError? then WriteRun(e.v, dst, x, |x|) else e
  }

  /** Bytes move one by one, or none is stored, or the unit does not overtake its own bytes and ignores the latches. */
  predicate UnitIsBytes(v: Vga, src: nat, dst: nat, sz: nat) {
    sz == 1 || v.NoPlane() || (v.writeMode == 0 && SafeForward(src, dst, sz))
  }

  lemma WriteNowhere(v: Vga, off: nat, b: Byte)
    requires v.Valid() && v.CanWrite() && v.NoPlane()
    ensures Write(v, off, b) == Effect(v, NoError)
  {
    if off < PLANE {
      assert Write(v, off, b).v.planes == v.planes;
    }
  }

  lemma WriteRunOfNone(v: Vga, off: nat, x: seq<Byte>)
    requires v.Valid()
    ensures WriteRun(v, off, x, 0) == Effect(v, NoError)
  {
  }

  lemma WriteRunMore(v: Vga, off: nat, x: seq<Byte>, k: nat, w: Vga)
    requires v.Valid() && k < |x| && WriteRun(v, off, x, k) == Effect(w, NoError)
    ensures w.Valid() && WriteRun(v, off, x, k + 1) == Write(w, off + k, x[k])
  {
    hide Write;
  }

  lemma {:induction false} WriteRunNowhere(v: Vga, off: nat, x: seq<Byte>, k: nat)
    requires v.Valid() && v.CanWrite() && v.NoPlane() && k <= |x|
    ensures WriteRun(v, off, x, k) == Effect(v, NoError)
  {
    hide *;
    if k == 0 {
      WriteRunOfNone(v, off, x);
    } else {
      WriteRunNowhere(v, off, x, k - 1);
      WriteRunMore(v, off, x, k - 1, v);
      WriteNowhere(v, off + k - 1, x[k - 1]);
    }
  }

  lemma CopyNowhere(v: Vga, w: Vga, src: nat, dst: nat)
    requires v.Valid() && w.Valid() && v.CanWrite() && v.NoPlane() && src < PLANE && w == v.(latches := w.latches)
    ensures CopyElement(w, src, dst) == Effect(v.(latches := Column(v, src)), NoError)
  {
    ReadOnce(v, w, src);
    WriteNowhere(v.(latches := Column(v, src)), dst, v.planes[v.readMap % 4][src]);
    hide Read, Write;
  }

  lemma {:induction false} LoopNowhere(v: Vga, src: nat, dst: nat, n: nat)
    requires v.Valid() && v.CanWrite() && v.NoPlane() && src + n <= PLANE
    ensures CopyLoop(v, src, dst, n) == Effect(Latched(v, src, n), NoError)
  {
    hide *;
    if n == 0 {
      CopyLoopNone(v, src, dst);
      LatchedNone(v, src);
    } else {
      var k: nat := n - 1;
      LoopNowhere(v, src, dst, k);
      CopyLoopNext(v, src, dst, k);
      LatchedNext(v, src, n);
      CopyNowhere(v, Latched(v, src, k), src + k, dst + k);
    }
  }

  lemma LatchedNone(v: Vga, off: nat)
    requires v.Valid() && off <= PLANE
    ensures Latched(v, off, 0) == v
  {
  }

  lemma UnitNowhere(v: Vga, src: nat, dst: nat, sz: nat)
    requires v.Valid() && v.CanWrite() && v.NoPlane() && src + sz <= PLANE
    ensures PlaneUnit(v, src, dst, sz) == CopyLoop(v, src, dst, sz)
  {
    ReadRunClosed(v, src, sz);
    LoopNowhere(v, src, dst, sz);
    WriteRunNowhere(Latched(v, src, sz), dst, MapBytes(v, src, sz), |MapBytes(v, src, sz)|);
    hide ReadRun, WriteRun, CopyLoop, MapBytes;
  }

  lemma OneByteUnit(v: Vga, src: nat, dst: nat)
    requires v.Valid()
    ensures PlaneUnit(v, src, dst, 1) == CopyLoop(v, src, dst, 1)
  {
    hide Write, Read;
    assert ReadRun(v, src, 0) == (Effect(v, NoError), []);
    var (e, b) := Read(v, src);
    var none: seq<Byte> := [];
    assert none + [b] == [b];
    assert ReadRun(v, src, 1) == (e, [b]);
    assert WriteRun(e.v, dst, [b], 0) == Effect(e.v, NoError);
    CopyLoopNone(v, src, dst);
    CopyLoopNext(v, src, dst, 0);
  }

  lemma StoredIsCopied(v: Vga, src: nat, dst: nat, sz: nat)
    requires v.Valid() && v.writeMode == 0 && sz > 0 && src + sz <= PLANE && dst + sz <= PLANE
    ensures |MapBytes(v, src, sz)| == sz
    ensures StoreRange(Latched(v, src, sz), dst, MapBytes(v, src, sz)) == Copied(v, src, dst, sz)
  {
    hide Put;
    var a, b := StoreRange(Latched(v, src, sz), dst, MapBytes(v, src, sz)), Copied(v, src, dst, sz);
    forall p | 0 <= p < 4
      ensures a.planes[p] == b.planes[p]
    {
    }
    assert a.planes == b.planes;
  }

  lemma WideUnit(v: Vga, src: nat, dst: nat, sz: nat)
    requires v.Valid() && v.writeMode == 0 && v.bitMask == 0xFF && sz > 0 && InStep(src, dst, sz)
    ensures PlaneUnit(v, src, dst, sz) == CopyLoop(v, src, dst, sz)
  {
    var w, x := Latched(v, src, sz), MapBytes(v, src, sz);
    ReadRunClosed(v, src, sz);
    WriteRunClosed(w, dst, x, sz);
    assert x[..sz] == x;
    LoopIsCopied(v, src, dst, sz);
    StoredIsCopied(v, src, dst, sz);
    hide StoreRange, Copied, Latched, MapBytes, ReadRun, WriteRun, CopyLoop;
  }

  predicate PlanesCase(m: Flat, op: Op, src: nat, dst: nat, n: nat) {
    m.Valid() && op.Valid() && op.Movs? && m.Planar(src) && m.Planar(dst)
    && src - APERTURE + n <= PLANE && dst - APERTURE + n <= PLANE
    && m.vga.value.CanWrite() && UnitIsBytes(m.vga.value, src, dst, op.sz)
  }

  /** The memory after `n` elements of the device's byte copy. */
  function AcrossPlanes(m: Flat, src: nat, dst: nat, n: nat): (r: Flat)
    requires m.Valid() && m.Planar(src) && m.Planar(dst)
    ensures r.Valid()
  {
    m.(vga := Some(CopyLoop(m.vga.value, src - APERTURE, dst - APERTURE, n).v))
  }

  lemma AcrossPlanesNone(m: Flat, src: nat, dst: nat)
    requires m.Valid() && m.Planar(src) && m.Planar(dst)
    ensures AcrossPlanes(m, src, dst, 0) == m
  {
  }

  lemma PlaneUnitIsLoop(v: Vga, src: nat, dst: nat, sz: nat)
    requires v.Valid() && v.CanWrite() && sz > 0 && UnitIsBytes(v, src, dst, sz) && src + sz <= PLANE && dst + sz <= PLANE
    ensures PlaneUnit(v, src, dst, sz) == CopyLoop(v, src, dst, sz)
  {
    hide PlaneUnit, CopyLoop;
    if sz == 1 {
      OneByteUnit(v, src, dst);
    } else if v.NoPlane() {
      UnitNowhere(v, src, dst, sz);
    } else {
      WideUnit(v, src, dst, sz);
    }
  }

  lemma FineUnit(v: Vga, e: Effect, src: nat, dst: nat, n: nat, sz: nat)
    requires v.CanWrite() && UnitIsBytes(v, src, dst, sz) && Fine(v, e)
    ensures e.v.CanWrite() && UnitIsBytes(e.v, src + n, dst + n, sz) && e.error.NoError?
  {
  }

  lemma NoErrorLeft(e: Effect)
    requires e.error.NoError?
    ensures e == Effect(e.v, NoError)
  {
  }

  /** A unit in the middle of the byte copy continues it. */
  lemma PlaneUnitContinues(v: Vga, src: nat, dst: nat, n: nat, sz: nat)
    requires v.Valid() && v.CanWrite() && sz > 0 && UnitIsBytes(v, src, dst, sz)
    requires src + n + sz <= PLANE && dst + n + sz <= PLANE
    ensures PlaneUnit(CopyLoop(v, src, dst, n).v, src + n, dst + n, sz) == Effect(CopyLoop(v, src, dst, n + sz).v, NoError)
  {
    hide *;
    CopyLoopFine(v, src, dst, n);
    CopyLoopFine(v, src, dst, n + sz);
    var w := CopyLoop(v, src, dst, n).v;
    FineUnit(v, CopyLoop(v, src, dst, n), src, dst, n, sz);
    FineOnce(v, CopyLoop(v, src, dst, n + sz), CopyLoop(v, src, dst, n + sz));
    CopyLoopSplit(v, src, dst, n, sz);
    PlaneUnitIsLoop(w, src + n, dst + n, sz);
    NoErrorLeft(CopyLoop(v, src, dst, n + sz));
  }

  lemma TransferIsPlaneUnit(m: Flat, op: Op, src: nat, dst: nat, eax: nat)
    requires m.Valid() && op.Movs? && m.Planar(src) && m.Planar(dst)
    ensures var e := PlaneUnit(m.vga.value, src - APERTURE, dst - APERTURE, op.sz);
            Transfer(m, op, src, dst, eax) == (m.(vga := Some(e.v)), e.error)
  {
    hide ReadRun, WriteRun;
  }

  lemma AcrossPlanesUnit(m: Flat, op: Op, src: nat, dst: nat, eax: nat, n: nat)
    requires PlanesCase(m, op, src, dst, n + op.sz)
    ensures Transfer(AcrossPlanes(m, src, dst, n), op, src + n, dst + n, eax)
            == (AcrossPlanes(m, src, dst, n + op.sz), NoError)
  {
    hide Transfer, CopyLoop, PlaneUnit;
    var v := m.vga.value;
    assert UnitIsBytes(v, src - APERTURE, dst - APERTURE, op.sz);
    PlaneUnitContinues(v, src - APERTURE, dst - APERTURE, n, op.sz);
    TransferIsPlaneUnit(AcrossPlanes(m, src, dst, n), op, src + n, dst + n, eax);
  }

  lemma PlanesLess(m: Flat, op: Op, src: nat, dst: nat, n: nat, k: nat)
    requires PlanesCase(m, op, src, dst, n + k)
    ensures PlanesCase(m, op, src, dst, n)
    ensures m.Valid() && m.Planar(src) && m.Planar(dst)
  {
  }

  /** Planes to planes. */
  lemma {:induction false} PlanesToPlanes(m: Flat, op: Op, src: nat, dst: nat, eax: nat, k: nat)
    requires PlanesCase(m, op, src, dst, Span(op.sz, k))
    ensures m.Valid() && m.Planar(src) && m.Planar(dst)
    ensures LoopMemory(m, op, src, dst, eax, k) == (AcrossPlanes(m, src, dst, Span(op.sz, k)), NoError)
  {
    hide *;
    PlanesLess(m, op, src, dst, Span(op.sz, k), 0);
    if k == 0 {
      SpanNone(op.sz);
      LoopMemoryNone(m, op, src, dst, eax);
      AcrossPlanesNone(m, src, dst);
    } else {
      var i: nat := k - 1;
      var n := Span(op.sz, i);
      SpanNext(op.sz, i);
      PlanesLess(m, op, src, dst, n, op.sz);
      PlanesToPlanes(m, op, src, dst, eax, i);
      LoopMemoryNext(m, op, src, dst, eax, i);
      AcrossPlanesUnit(m, op, src, dst, eax, n);
    }
  }
}
