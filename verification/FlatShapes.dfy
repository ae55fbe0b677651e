/**
 Which instructions `_bulk_string` gets right whatever memory holds: an exact condition on
 registers, modes and ranges, with contents that tell the difference for every other one.
 */
module FlatShapes {
  import opened Blocks
  import opened Memory
  import opened PlanarVga
  import opened FlatString
  import opened FlatTransfers
  import opened FlatExact

  /** The same instruction on other contents: RAM, planes and latches may differ, nothing else. */
  predicate SameShape(c: Cpu, b: Cpu) {
    b.Valid() && |b.mem.data| == |c.mem.data| && b == c.(mem := b.mem)
    && match (c.mem.vga, b.mem.vga)
       case (None, None) => true
       case (Some(v), Some(w)) => w == v.(planes := w.planes, latches := w.latches)
       case _ => false
  }

  /** The slices are taken and leave what the unit loop leaves. */
  predicate Agrees(b: Cpu, op: Op) {
    b.Valid() && op.Valid() && InMemory(b, op) && BulkString(b, op) == Some(Units(b, op, b.ecx))
  }

  /** Some plane other than the read-map plane takes stores. */
  predicate StoresElsewhere(v: Vga) {
    exists p :: 0 <= p < 4 && v.Enabled(p) && p != v.readMap % 4
  }

  /** What can be read off the registers and modes before the call. */
  predicate ShapeSafe(c: Cpu, op: Op)
    requires c.Valid()
  {
    var (src, dst, n) := (op.sbase + c.esi, op.dbase + c.edi, op.sz * c.ecx);
    c.ecx == 0
    || (Reproducible(c.mem, op, src, dst, n)
        && (op.Movs? && c.mem.Planar(src) && src == dst ==>
              c.mem.vga.value.writeMode == 1 || !StoresElsewhere(c.mem.vga.value)))
  }

  // ---- from a safe shape to agreement --------------------------------------------------------

  lemma SomethingMoves(op: Op, k: nat)
    requires op.Valid() && k > 0
    ensures op.sz * k > 0
  {
    MulSucc(op.sz, k - 1);
  }

  /** A fill has no source. */
  lemma BulkGuard(c: Cpu, op: Op)
    requires c.Valid() && op.Valid() && InMemory(c, op) && c.ecx > 0
    ensures op.sz * c.ecx > 0
    ensures BulkString(c, op).Some? == Accepts(c, op, Source(c, op), op.dbase + c.edi, op.sz * c.ecx)
  {
    SomethingMoves(op, c.ecx);
    hide Accepts, Sliced, Repeat, LowBytes, Progress, InMemory;
  }

  lemma BulkOfNothing(c: Cpu, op: Op)
    requires c.Valid() && op.Valid() && InMemory(c, op) && c.ecx == 0
    ensures BulkString(c, op).Some?
  {
  }

  lemma SameSizes(c: Cpu, b: Cpu, op: Op)
    requires c.Valid() && op.Valid() && InMemory(c, op) && c.error.NoError? && SameShape(c, b)
    ensures b.Valid() && InMemory(b, op) && b.error.NoError? && b.ecx == c.ecx
    ensures Source(b, op) == Source(c, op) && op.dbase + b.edi == op.dbase + c.edi
  {
    hide Flat.Valid;
  }

  lemma ShapeKeeps(c: Cpu, b: Cpu, op: Op)
    requires c.Valid() && op.Valid() && InMemory(c, op) && c.error.NoError? && SameShape(c, b)
    ensures b.Valid() && InMemory(b, op) && b.error.NoError? && BulkString(b, op).Some? == BulkString(c, op).Some?
  {
    hide *;
    SameSizes(c, b, op);
    if c.ecx > 0 {
      BulkGuard(c, op);
      BulkGuard(b, op);
      SameGuards(c, b, op, Source(c, op), op.dbase + c.edi, op.sz * c.ecx);
    } else {
      BulkOfNothing(c, op);
      BulkOfNothing(b, op);
    }
  }

  lemma SameGuards(c: Cpu, b: Cpu, op: Op, src: nat, dst: nat, n: nat)
    requires c.Valid() && n > 0 && SameShape(c, b)
    ensures b.Valid() && Accepts(b, op, src, dst, n) == Accepts(c, op, src, dst, n)
  {
    hide Vga.Valid, SafeForward;
  }

  lemma SameMasks(v: Vga, w: Vga)
    requires w == v.(planes := w.planes, latches := w.latches)
    ensures w.NoPlane() == v.NoPlane() && StoresElsewhere(w) == StoresElsewhere(v)
  {
    assert forall p :: 0 <= p < 4 ==> w.Enabled(p) == v.Enabled(p);
  }

  lemma ShapeInStep(c: Cpu, b: Cpu, op: Op)
    requires c.Valid() && SameShape(c, b) && ShapeSafe(c, op)
    ensures b.Valid() && InStep386(b, op) && ShapeSafe(b, op)
  {
    if c.mem.vga.Some? {
      SameMasks(c.mem.vga.value, b.mem.vga.value);
    }
    hide Vga.Valid, SafeForward, StoresElsewhere, Vga.NoPlane;
  }

  lemma PlanarModes(c: Cpu, op: Op)
    requires c.Valid() && op.Valid() && InMemory(c, op) && c.ecx > 0 && BulkString(c, op).Some?
    requires op.Movs? && c.mem.Planar(op.sbase + c.esi) && c.mem.Planar(op.dbase + c.edi)
    ensures c.mem.vga.value.CanWrite()
  {
    BulkGuard(c, op);
    hide BulkString, SafeForward, InMemory;
  }

  lemma SelfShown(b: Cpu, op: Op)
    requires b.Valid() && ShowsSelfCopy(b, op)
    ensures op.Movs? && b.ecx > 0 && b.mem.Planar(op.sbase + b.esi) && b.mem.Planar(op.dbase + b.edi)
    ensures Diverges(b.mem.vga.value, op.sbase + b.esi - APERTURE, op.dbase + b.edi - APERTURE, op.sz * b.ecx)
  {
    hide Diverges;
  }

  lemma SelfUnsafe(b: Cpu, op: Op)
    requires b.Valid() && b.ecx > 0 && op.Movs? && b.mem.Planar(op.sbase + b.esi) && op.sbase + b.esi == op.dbase + b.edi
    requires b.mem.vga.value.writeMode != 1 && StoresElsewhere(b.mem.vga.value)
    ensures !ShapeSafe(b, op)
  {
    hide StoresElsewhere, Reproducible;
  }

  /** Onto itself, only another plane's byte can change under the latches. */
  lemma SafeShowsNothing(b: Cpu, op: Op)
    requires b.Valid() && op.Valid() && InMemory(b, op) && BulkString(b, op).Some? && ShapeSafe(b, op)
    ensures !ShowsSelfCopy(b, op)
  {
    hide *;
    if ShowsSelfCopy(b, op) {
      SelfShown(b, op);
      PlanarModes(b, op);
      PlanarSide(b, op);
      OntoItself(b.mem.vga.value, op.sbase + b.esi - APERTURE, op.dbase + b.edi - APERTURE, op.sz * b.ecx);
      SelfUnsafe(b, op);
    }
  }

  lemma PlanarSide(b: Cpu, op: Op)
    requires b.Valid() && b.mem.Planar(op.sbase + b.esi) && b.mem.Planar(op.dbase + b.edi)
    ensures b.mem.vga.Some? && b.mem.vga.value.Valid() && op.sbase + b.esi >= APERTURE && op.dbase + b.edi >= APERTURE
  {
  }

  lemma OntoItself(v: Vga, s: nat, d: nat, n: nat)
    requires v.Valid() && Diverges(v, s, d, n) && v.CanWrite()
    ensures s == d && v.writeMode != 1 && StoresElsewhere(v)
  {
    var p :| 0 <= p < 4 && LastByteChanges(v, s, d, n, p);
  }

  lemma SafeAgrees(c: Cpu, b: Cpu, op: Op)
    requires c.Valid() && op.Valid() && InMemory(c, op) && c.error.NoError? && BulkString(c, op).Some?
    requires ShapeSafe(c, op) && SameShape(c, b)
    ensures Agrees(b, op)
  {
    ShapeKeeps(c, b, op);
    ShapeInStep(c, b, op);
    hide BulkString, Units, InMemory, ShapeSafe, SameShape, InStep386, ShowsSelfCopy;
    SafeShowsNothing(b, op);
    InStepExact(b, op);
  }

  // ---- contents that tell the difference -----------------------------------------------------

  /** Agreement means the loop raises nothing and its memory is what the slices leave. */
  lemma AgreesMeans(b: Cpu, op: Op)
    requires b.Valid() && op.Valid() && InMemory(b, op) && b.error.NoError? && Agrees(b, op)
    ensures Memories(b, op, b.ecx).1.NoError? && BulkString(b, op).Some?
    ensures BulkString(b, op).value.mem == Memories(b, op, b.ecx).0
  {
    UnitsIsLoopMemory(b, op, b.ecx);
    BulkKeepsError(b, op);
    hide BulkString, Units, Memories, InMemory;
  }

  lemma BulkKeepsError(b: Cpu, op: Op)
    requires b.Valid() && op.Valid() && InMemory(b, op) && BulkString(b, op).Some?
    ensures BulkString(b, op).value.error == b.error
  {
    hide Accepts, Sliced, Repeat, LowBytes;
  }

  // A range that swallows the aperture: the slices store to the RAM below it, the loop never does.

  lemma WriteSparesRam(m: Flat, a: nat, x: seq<Byte>, at: nat)
    requires m.Valid() && m.vga.Some? && |x| <= 4 && APERTURE + 4 <= at < APERTURE_END && at < |m.data|
    ensures var r := WriteUnit(m, a, x).0; r.vga.Some? && |r.data| == |m.data| && r.data[at] == m.data[at]
  {
    hide WriteRun;
  }

  lemma TransferSparesRam(m: Flat, op: Op, src: nat, dst: nat, eax: nat, at: nat)
    requires m.Valid() && op.Valid() && m.vga.Some? && APERTURE + 4 <= at < APERTURE_END && at < |m.data|
    ensures var r := Transfer(m, op, src, dst, eax).0; r.vga.Some? && |r.data| == |m.data| && r.data[at] == m.data[at]
  {
    hide WriteUnit, ReadRun, LowBytes;
    if op.Movs? {
      var (m', e, x) := ReadUnit(m, src, op.sz);
      if e.NoError? {
        WriteSparesRam(m', dst, x, at);
      }
    } else {
      WriteSparesRam(m, dst, LowBytes(eax, op.sz), at);
    }
  }

  lemma {:induction false} LoopSparesRam(m: Flat, op: Op, src: nat, dst: nat, eax: nat, k: nat, at: nat)
    requires m.Valid() && op.Valid() && m.vga.Some? && APERTURE + 4 <= at < APERTURE_END && at < |m.data|
    ensures var r := LoopMemory(m, op, src, dst, eax, k).0; r.vga.Some? && |r.data| == |m.data| && r.data[at] == m.data[at]
  {
    hide Transfer;
    if k > 0 {
      LoopSparesRam(m, op, src, dst, eax, k - 1, at);
      var r := LoopMemory(m, op, src, dst, eax, k - 1);
      if r.1.NoError? {
        TransferSparesRam(r.0, op, src + Span(op.sz, k - 1), dst + Span(op.sz, k - 1), eax, at);
      }
    }
  }

  /** What the slices store when both sides look like RAM. */
  function RamSource(c: Cpu, op: Op): (x: seq<Byte>)
    requires InMemory(c, op)
    ensures |x| == op.sz * c.ecx
  {
    RepeatLength(op, c.eax, c.ecx);
    if op.Movs? then c.mem.data[op.sbase + c.esi..op.sbase + c.esi + op.sz * c.ecx]
    else Repeat(LowBytes(c.eax, op.sz), c.ecx)
  }

  /** The byte they store at `at`. */
  function SliceByte(c: Cpu, op: Op, at: nat): Byte
    requires InMemory(c, op) && op.dbase + c.edi <= at < op.dbase + c.edi + op.sz * c.ecx
  {
    RamSource(c, op)[at - (op.dbase + c.edi)]
  }

  /** A swallowing destination looks like RAM, and so does the source of so long a transfer. */
  lemma SwallowedSides(c: Cpu, op: Op)
    requires c.Valid() && op.Valid() && InMemory(c, op) && c.ecx > 0 && BulkString(c, op).Some?
    requires op.sz * c.ecx > PLANE
    ensures !c.mem.Planar(op.dbase + c.edi) && (op.Movs? ==> !c.mem.Planar(op.sbase + c.esi))
    ensures !c.mem.Planar(op.dbase + c.edi + op.sz * c.ecx - 1)
    ensures op.Movs? ==> !c.mem.Planar(op.sbase + c.esi + op.sz * c.ecx - 1)
  {
    BulkGuard(c, op);
    hide BulkString, SafeForward;
  }

  lemma SlicedBothRam(m: Flat, op: Op, src: nat, dst: nat, n: nat, fill: seq<Byte>)
    requires m.Valid() && |fill| == n && dst + n <= |m.data| && !m.Planar(dst)
    requires op.Movs? ==> src + n <= |m.data| && !m.Planar(src)
    ensures Sliced(m, op, src, dst, n, fill) == m.(data := Put(m.data, dst, if op.Movs? then m.data[src..src + n] else fill))
  {
    hide Put;
  }

  lemma SourceIs(c: Cpu, op: Op)
    requires InMemory(c, op)
    ensures op.Movs? ==> Source(c, op) == op.sbase + c.esi && Source(c, op) + op.sz * c.ecx <= |c.mem.data|
    ensures op.dbase + c.edi + op.sz * c.ecx <= |c.mem.data| && |Repeat(LowBytes(c.eax, op.sz), c.ecx)| == op.sz * c.ecx
    ensures RamSource(c, op) == if op.Movs? then c.mem.data[Source(c, op)..Source(c, op) + op.sz * c.ecx]
                                else Repeat(LowBytes(c.eax, op.sz), c.ecx)
  {
    RepeatLength(op, c.eax, c.ecx);
    hide Repeat, LowBytes;
  }

  lemma ProgressMemory(c: Cpu, op: Op, m: Flat, n: nat, k: nat)
    ensures Progress(c, op, m, n, k).mem == m
  {
  }

  lemma SlicedRam(c: Cpu, op: Op)
    requires c.Valid() && op.Valid() && InMemory(c, op) && c.ecx > 0 && BulkString(c, op).Some?
    requires !c.mem.Planar(op.dbase + c.edi) && (op.Movs? ==> !c.mem.Planar(op.sbase + c.esi))
    ensures op.dbase + c.edi + |RamSource(c, op)| <= |c.mem.data|
    ensures BulkString(c, op).value.mem == c.mem.(data := Put(c.mem.data, op.dbase + c.edi, RamSource(c, op)))
  {
    hide *;
    MemoryValid(c);
    SourceIs(c, op);
    BulkCut(c, op);
    var n, fill := op.sz * c.ecx, Repeat(LowBytes(c.eax, op.sz), c.ecx);
    SlicedBothRam(c.mem, op, Source(c, op), op.dbase + c.edi, n, fill);
    AcceptedShape(c, op, Source(c, op), op.dbase + c.edi, n);
    ProgressMemory(c, op, Sliced(c.mem, op, Source(c, op), op.dbase + c.edi, n, fill), n, c.ecx);
  }

  lemma SlicedByte(c: Cpu, op: Op, at: nat)
    requires c.Valid() && op.Valid() && InMemory(c, op) && c.ecx > 0 && BulkString(c, op).Some?
    requires !c.mem.Planar(op.dbase + c.edi) && (op.Movs? ==> !c.mem.Planar(op.sbase + c.esi))
    requires op.dbase + c.edi <= at < op.dbase + c.edi + op.sz * c.ecx
    ensures var r := BulkString(c, op).value.mem;
            r.vga == c.mem.vga && at < |r.data| && r.data[at] == SliceByte(c, op, at)
  {
    hide BulkString, RamSource, InMemory;
    SlicedRam(c, op);
  }

  lemma SwallowsMuch(m: Flat, a: nat, n: nat)
    requires Swallows(m, a, n)
    ensures n > PLANE && m.vga.Some? && a < APERTURE && APERTURE_END < a + n
  {
  }

  /**
   A destination that swallows the aperture: the slices store there what the loop would send
   to the planes, which shows wherever the RAM did not hold the byte already.
   */
  lemma SwallowedStoreShows(c: Cpu, op: Op, at: nat)
    requires c.Valid() && op.Valid() && InMemory(c, op) && c.error.NoError? && c.ecx > 0
    requires Swallows(c.mem, op.dbase + c.edi, op.sz * c.ecx) && APERTURE + 4 <= at < APERTURE_END
    requires at < |c.mem.data| && c.mem.data[at] != SliceByte(c, op, at)
    ensures !Agrees(c, op)
  {
    hide *;
    SwallowsMuch(c.mem, op.dbase + c.edi, op.sz * c.ecx);
    MemoryValid(c);
    if Agrees(c, op) {
      AgreesMeans(c, op);
      SwallowedSides(c, op);
      SlicedByte(c, op, at);
      LoopSparesRam(c.mem, op, op.sbase + c.esi, op.dbase + c.edi, c.eax, c.ecx, at);
      MemoriesIs(c, op);
    }
  }

  lemma MemoriesIs(c: Cpu, op: Op)
    requires c.Valid()
    ensures Memories(c, op, c.ecx) == LoopMemory(c.mem, op, op.sbase + c.esi, op.dbase + c.edi, c.eax, c.ecx)
  {
  }

  function WithRam(c: Cpu, data: seq<Byte>): Cpu {
    c.(mem := c.mem.(data := data))
  }

  lemma RamShape(c: Cpu, data: seq<Byte>)
    requires c.Valid() && |data| == |c.mem.data|
    ensures SameShape(c, WithRam(c, data))
  {
    hide Vga.Valid;
  }

  lemma SliceByteIn(c: Cpu, op: Op, data: seq<Byte>, at: nat)
    requires c.Valid() && InMemory(c, op) && op.dbase + c.edi <= at < op.dbase + c.edi + op.sz * c.ecx
    requires |data| == |c.mem.data|
    ensures InMemory(WithRam(c, data), op)
    ensures op.Movs? ==> op.sbase + c.esi + (at - (op.dbase + c.edi)) < |data|
    ensures SliceByte(WithRam(c, data), op, at)
            == if op.Movs? then data[op.sbase + c.esi + (at - (op.dbase + c.edi))] else SliceByte(c, op, at)
  {
    hide Repeat, LowBytes;
  }

  /** RAM contents that make the byte at `at` differ from what the slices put there. */
  function Clashing(c: Cpu, op: Op, at: nat): (data: seq<Byte>)
    requires c.Valid() && InMemory(c, op) && op.dbase + c.edi <= at < op.dbase + c.edi + op.sz * c.ecx
    ensures |data| == |c.mem.data|
  {
    SliceByteIn(c, op, c.mem.data, at);
    if op.Movs? then c.mem.data[at := 0][op.sbase + c.esi + (at - (op.dbase + c.edi)) := 1]
    else c.mem.data[at := (SliceByte(c, op, at) + 1) % 256]
  }

  lemma ClashingClashes(c: Cpu, op: Op, at: nat)
    requires c.Valid() && InMemory(c, op) && op.dbase + c.edi <= at < op.dbase + c.edi + op.sz * c.ecx
    requires op.Movs? ==> op.sbase + c.esi != op.dbase + c.edi
    ensures var b := WithRam(c, Clashing(c, op, at));
            InMemory(b, op) && at < |b.mem.data| && b.mem.data[at] != SliceByte(b, op, at)
  {
    SliceByteIn(c, op, Clashing(c, op, at), at);
    hide SliceByte;
  }

  /** Such contents exist unless the range is copied onto itself. */
  lemma SwallowedStoreWitness(c: Cpu, op: Op) returns (b: Cpu)
    requires c.Valid() && op.Valid() && InMemory(c, op) && c.error.NoError? && c.ecx > 0
    requires Swallows(c.mem, op.dbase + c.edi, op.sz * c.ecx)
    requires op.Movs? ==> op.sbase + c.esi != op.dbase + c.edi
    ensures SameShape(c, b) && !Agrees(b, op)
  {
    var at := APERTURE + 4;
    SwallowsMuch(c.mem, op.dbase + c.edi, op.sz * c.ecx);
    ClashingClashes(c, op, at);
    b := WithRam(c, Clashing(c, op, at));
    RamShape(c, Clashing(c, op, at));
    hide Vga.Valid, InMemory, Clashing, SliceByte, Agrees;
    SwallowedStoreShows(b, op, at);
  }

  // A source that swallows the aperture: only the loop loads the latches.

  predicate Zero(v: Vga)
    requires v.Valid()
  {
    forall p, i :: 0 <= p < 4 && 0 <= i < PLANE ==> v.planes[p][i] == 0
  }

  predicate Zeros(x: seq<Byte>) {
    forall i :: 0 <= i < |x| ==> x[i] == 0
  }

  lemma {:induction false} ReadZero(v: Vga, off: nat, k: nat)
    requires v.Valid() && Zero(v) && ReadRun(v, off, k).0.error.NoError?
    ensures var (e, x) := ReadRun(v, off, k);
            Zero(e.v) && Zeros(x) && (k > 0 ==> Zeros(e.v.latches)) && e.v.Valid()
  {
    if k > 0 {
      ReadZero(v, off, k - 1);
    }
  }

  lemma WriteZeroOnce(v: Vga, off: nat)
    requires v.Valid() && Zero(v) && Zeros(v.latches)
    ensures var e := Write(v, off, 0); Zero(e.v) && Zeros(e.v.latches)
  {
    hide Put;
    var w := Write(v, off, 0).v;
    forall p, i | 0 <= p < 4 && 0 <= i < PLANE
      ensures w.planes[p][i] == 0
    {
      if off < PLANE {
        PutZero(v.planes[p], off, if v.writeMode == 1 then v.latches[p] else 0, i);
      }
    }
  }

  lemma PutZero(d: seq<Byte>, off: nat, b: Byte, i: nat)
    requires off < |d| && i < |d| && b == 0 && d[i] == 0
    ensures Put(d, off, [b])[i] == 0
  {
  }

  lemma {:induction false} WriteZero(v: Vga, off: nat, x: seq<Byte>, k: nat)
    requires v.Valid() && Zero(v) && Zeros(v.latches) && Zeros(x) && k <= |x|
    ensures var e := WriteRun(v, off, x, k); Zero(e.v) && Zeros(e.v.latches)
  {
    if k > 0 {
      hide Write, Zero;
      WriteZero(v, off, x, k - 1);
      WriteZeroOnce(WriteRun(v, off, x, k - 1).v, off + k - 1);
    }
  }

  /** Planes of zeros, and latches that are zeros once anything was read from them. */
  predicate Drained(m: Flat, loaded: bool) {
    m.Valid() && m.vga.Some? && Zero(m.vga.value)
    && if loaded then Zeros(m.vga.value.latches) else m.vga.value.latches == [1, 1, 1, 1]
  }

  lemma PlanarReadDrains(m: Flat, loaded: bool, src: nat, sz: nat)
    requires Drained(m, loaded) && m.Planar(src) && sz > 0 && ReadUnit(m, src, sz).1.NoError?
    ensures var (m', e, x) := ReadUnit(m, src, sz); Drained(m', true) && Zeros(x)
  {
    hide ReadRun, Zero, Zeros;
    ReadZero(m.vga.value, src - APERTURE, sz);
  }

  lemma RamReadKeeps(m: Flat, loaded: bool, src: nat, sz: nat)
    requires Drained(m, loaded) && !m.Planar(src)
    ensures ReadUnit(m, src, sz).0 == m
  {
    hide Zero, Zeros;
  }

  lemma PlanarWriteDrains(m: Flat, dst: nat, x: seq<Byte>)
    requires Drained(m, true) && m.Planar(dst) && Zeros(x)
    ensures Drained(WriteUnit(m, dst, x).0, true)
  {
    hide WriteRun, Zero, Zeros;
    WriteZero(m.vga.value, dst - APERTURE, x, |x|);
  }

  lemma RamWriteKeeps(m: Flat, loaded: bool, dst: nat, x: seq<Byte>)
    requires Drained(m, loaded) && !m.Planar(dst)
    ensures Drained(WriteUnit(m, dst, x).0, loaded)
  {
    hide Zero, Zeros, Put;
  }

  lemma DrainedUnit(m: Flat, op: Op, loaded: bool, src: nat, dst: nat, eax: nat)
    requires op.Valid() && op.Movs? && Drained(m, loaded) && Transfer(m, op, src, dst, eax).1.NoError?
    requires m.Planar(dst) ==> m.Planar(src)
    ensures Drained(Transfer(m, op, src, dst, eax).0, loaded || m.Planar(src))
  {
    hide Drained, ReadUnit, WriteUnit, Zeros;
    DrainedValid(m, loaded);
    var (m', e, x) := ReadUnit(m, src, op.sz);
    if m.Planar(src) {
      PlanarReadDrains(m, loaded, src, op.sz);
      ReadKeepsSides(m, src, op.sz, dst);
      if m.Planar(dst) {
        PlanarWriteDrains(m', dst, x);
      } else {
        RamWriteKeeps(m', true, dst, x);
      }
    } else {
      RamReadKeeps(m, loaded, src, op.sz);
      RamWriteKeeps(m, loaded, dst, x);
    }
  }

  lemma DrainedValid(m: Flat, loaded: bool)
    requires Drained(m, loaded)
    ensures m.Valid() && m.vga.Some?
  {
  }

  lemma ReadKeepsSides(m: Flat, src: nat, sz: nat, a: nat)
    requires m.Valid()
    ensures var m' := ReadUnit(m, src, sz).0; m'.Planar(a) == m.Planar(a)
  {
    hide ReadRun;
  }

  /** Where the copy goes relative to where it comes from: nowhere near the aperture, or exactly there. */
  predicate Beside(src: nat, dst: nat, n: nat) {
    src == dst || dst + n <= APERTURE || dst >= APERTURE_END
  }

  lemma BesideAt(m: Flat, src: nat, dst: nat, n: nat, i: nat)
    requires Beside(src, dst, n) && i < n
    ensures m.Planar(dst + i) ==> m.Planar(src + i)
  {
  }

  lemma {:induction false} DrainedLoop(m: Flat, op: Op, src: nat, dst: nat, eax: nat, i: nat, k: nat)
    requires op.Valid() && op.Movs? && Drained(m, false) && Beside(src, dst, Span(op.sz, k))
    requires LoopMemory(m, op, src, dst, eax, k).1.NoError?
    requires i < k ==> APERTURE <= src + Span(op.sz, i) < APERTURE_END
    ensures exists loaded :: (i < k ==> loaded) && Drained(LoopMemory(m, op, src, dst, eax, k).0, loaded)
  {
    hide Transfer, Drained, Beside, Span;
    DrainedValid(m, false);
    if k == 0 {
      assert LoopMemory(m, op, src, dst, eax, 0).0 == m;
    } else {
      var r := LoopMemory(m, op, src, dst, eax, k - 1);
      SpanNext(op.sz, k - 1);
      BesideLess(src, dst, Span(op.sz, k - 1), op.sz);
      DrainedLoop(m, op, src, dst, eax, i, k - 1);
      var loaded :| (i < k - 1 ==> loaded) && Drained(r.0, loaded);
      DrainedValid(r.0, loaded);
      var n := Span(op.sz, k - 1);
      BesideAt(r.0, src, dst, Span(op.sz, k), n);
      DrainedUnit(r.0, op, loaded, src + n, dst + n, eax);
      assert Drained(LoopMemory(m, op, src, dst, eax, k).0, loaded || r.0.Planar(src + n));
      assert i < k ==> loaded || r.0.Planar(src + n);
    }
  }

  lemma BesideLess(src: nat, dst: nat, n: nat, k: nat)
    requires Beside(src, dst, n + k)
    ensures Beside(src, dst, n)
  {
  }

  /** Some unit of a source that swallows the aperture starts inside it. */
  lemma {:induction false} UnitInside(src: nat, sz: nat, k: nat) returns (i: nat)
    requires src < APERTURE && sz <= 4 && APERTURE_END <= src + Span(sz, k)
    ensures i < k && APERTURE <= src + Span(sz, i) < APERTURE_END
  {
    if src + Span(sz, k - 1) >= APERTURE_END {
      i := UnitInside(src, sz, k - 1);
    } else {
      i := k - 1;
    }
  }

  /** Zeros in the planes, ones in the latches. */
  function Primed(v: Vga): (r: Vga)
    ensures r.Valid() && Zero(r) && r.latches == [1, 1, 1, 1] && r == v.(planes := r.planes, latches := r.latches)
  {
    var zero: seq<Byte> := seq(PLANE, _ => 0);
    v.(planes := [zero, zero, zero, zero], latches := [1, 1, 1, 1])
  }

  function WithPlanes(c: Cpu, v: Vga): Cpu {
    c.(mem := c.mem.(vga := Some(v)))
  }

  lemma PlanesShape(c: Cpu, v: Vga)
    requires c.Valid() && v.Valid() && c.mem.vga.Some?
    requires v == c.mem.vga.value.(planes := v.planes, latches := v.latches)
    ensures SameShape(c, WithPlanes(c, v))
  {
    hide Vga.Valid;
  }

  lemma PrimedDrained(c: Cpu)
    requires c.Valid() && c.mem.vga.Some?
    ensures Drained(WithPlanes(c, Primed(c.mem.vga.value)).mem, false)
  {
    hide Primed, Zero;
  }

  lemma OnesNotZeros(x: seq<Byte>)
    requires |x| == 4 && Zeros(x)
    ensures x != [1, 1, 1, 1]
  {
    assert x[0] == 0;
  }

  lemma LoadedOnes(m: Flat, loaded: bool)
    requires Drained(m, loaded) && loaded
    ensures m.vga.Some? && m.vga.value.latches != [1, 1, 1, 1]
  {
    OnesNotZeros(m.vga.value.latches);
    hide Zeros, Zero;
  }

  lemma SwallowedReadShows(b: Cpu, op: Op)
    requires b.Valid() && op.Valid() && op.Movs? && InMemory(b, op) && b.error.NoError? && b.ecx > 0
    requires Swallows(b.mem, op.sbase + b.esi, op.sz * b.ecx) && Drained(b.mem, false)
    requires op.sbase + b.esi == op.dbase + b.edi || !Swallows(b.mem, op.dbase + b.edi, op.sz * b.ecx)
    ensures !Agrees(b, op)
  {
    hide *;
    var (src, dst, n) := (op.sbase + b.esi, op.dbase + b.edi, op.sz * b.ecx);
    MemoryValid(b);
    SwallowsMuch(b.mem, src, n);
    DrainedOnes(b.mem);
    if Agrees(b, op) {
      AgreesMeans(b, op);
      SwallowedSides(b, op);
      SlicedRam(b, op);
      MemoriesIs(b, op);
      SpanIsProduct(op.sz, b.ecx);
      BesideRam(b.mem, src, dst, n);
      UnitSize(op);
      var i := UnitInside(src, op.sz, b.ecx);
      DrainedLoop(b.mem, op, src, dst, b.eax, i, b.ecx);
      var loaded :| (i < b.ecx ==> loaded) && Drained(Memories(b, op, b.ecx).0, loaded);
      LoadedOnes(Memories(b, op, b.ecx).0, loaded);
    }
  }

  lemma UnitSize(op: Op)
    requires op.Valid()
    ensures 0 < op.sz <= 4
  {
  }

  lemma DrainedOnes(m: Flat)
    requires Drained(m, false)
    ensures m.vga.Some? && m.vga.value.latches == [1, 1, 1, 1]
  {
    hide Zero;
  }

  lemma BesideRam(m: Flat, src: nat, dst: nat, n: nat)
    requires m.vga.Some? && n > PLANE && !m.Planar(dst) && !m.Planar(dst + n - 1) && (src == dst || !Swallows(m, dst, n))
    ensures Beside(src, dst, n)
  {
  }

  lemma SwallowedReadWitness(c: Cpu, op: Op) returns (b: Cpu)
    requires c.Valid() && op.Valid() && op.Movs? && InMemory(c, op) && c.error.NoError? && c.ecx > 0
    requires Swallows(c.mem, op.sbase + c.esi, op.sz * c.ecx)
    requires op.sbase + c.esi == op.dbase + c.edi || !Swallows(c.mem, op.dbase + c.edi, op.sz * c.ecx)
    ensures SameShape(c, b) && !Agrees(b, op)
  {
    hide Primed, Vga.Valid, Drained, Agrees;
    b := WithPlanes(c, Primed(c.mem.vga.value));
    PlanesShape(c, Primed(c.mem.vga.value));
    PrimedDrained(c);
    SwallowedReadShows(b, op);
  }

  // Between planes: units of several bytes read all of them first.

  /** `k` units between planes. */
  function PlaneLoop(v: Vga, s: nat, d: nat, sz: nat, k: nat): (r: Effect)
    requires v.Valid()
    ensures r.v.Valid()
  {
    if k == 0 then Effect(v, NoError)
    else
      var e := PlaneLoop(v, s, d, sz, k - 1);
      if e.error.NoError? then PlaneUnit(e.v, s + Span(sz, k - 1), d + Span(sz, k - 1), sz) else e
  }

  /** Both ranges lie in the aperture. */
  predicate InPlanes(m: Flat, op: Op, src: nat, dst: nat, n: nat) {
    m.Valid() && op.Valid() && op.Movs? && m.vga.Some?
    && APERTURE <= src && src + n <= APERTURE_END && APERTURE <= dst && dst + n <= APERTURE_END
  }

  lemma InPlanesLess(m: Flat, op: Op, src: nat, dst: nat, n: nat, k: nat)
    requires InPlanes(m, op, src, dst, n + k)
    ensures InPlanes(m, op, src, dst, n) && m.Valid() && m.vga.Some? && src >= APERTURE && dst >= APERTURE
    ensures k > 0 ==> m.Planar(src + n) && m.Planar(dst + n)
  {
  }

  lemma {:induction false} LoopIsPlaneLoop(m: Flat, op: Op, src: nat, dst: nat, eax: nat, k: nat)
    requires InPlanes(m, op, src, dst, Span(op.sz, k))
    ensures m.Valid() && m.vga.Some? && src >= APERTURE && dst >= APERTURE
    ensures var e := PlaneLoop(m.vga.value, src - APERTURE, dst - APERTURE, op.sz, k);
            LoopMemory(m, op, src, dst, eax, k) == (m.(vga := Some(e.v)), e.error)
  {
    hide Transfer, PlaneUnit, InPlanes, Span;
    InPlanesLess(m, op, src, dst, Span(op.sz, k), 0);
    if k > 0 {
      SpanNext(op.sz, k - 1);
      UnitOf(m, op, src, dst, Span(op.sz, k));
      InPlanesLess(m, op, src, dst, Span(op.sz, k - 1), op.sz);
      LoopIsPlaneLoop(m, op, src, dst, eax, k - 1);
      var e := PlaneLoop(m.vga.value, src - APERTURE, dst - APERTURE, op.sz, k - 1);
      TransferIsPlaneUnit(m.(vga := Some(e.v)), op, src + Span(op.sz, k - 1), dst + Span(op.sz, k - 1), eax);
    }
  }

  lemma UnitOf(m: Flat, op: Op, src: nat, dst: nat, n: nat)
    requires InPlanes(m, op, src, dst, n)
    ensures op.Movs? && 0 < op.sz <= 4
  {
  }

  // ---- what each access leaves alone

  predicate SameModes(v: Vga, w: Vga) {
    w == v.(planes := w.planes, latches := w.latches)
  }

  /** The byte at `a` of plane `p` and the modes are as before. */
  predicate Kept(v: Vga, w: Vga, p: nat, a: nat) {
    v.Valid() && w.Valid() && p < 4 && a < PLANE && SameModes(v, w) && w.planes[p][a] == v.planes[p][a]
  }

  lemma KeptSelf(v: Vga, p: nat, a: nat)
    requires v.Valid() && p < 4 && a < PLANE
    ensures Kept(v, v, p, a)
  {
  }

  lemma KeptTwice(u: Vga, v: Vga, w: Vga, p: nat, a: nat)
    requires Kept(u, v, p, a) && Kept(v, w, p, a)
    ensures Kept(u, w, p, a)
  {
    hide Vga.Valid;
  }

  lemma {:induction false} ReadRunKeeps(v: Vga, off: nat, k: nat)
    requires v.Valid()
    ensures var w := ReadRun(v, off, k).0.v; w == v.(latches := w.latches)
  {
    if k > 0 {
      ReadRunKeeps(v, off, k - 1);
    }
  }

  lemma WriteKeeps(v: Vga, off: nat, b: Byte, p: nat, a: nat)
    requires v.Valid() && p < 4 && a < PLANE && a != off
    ensures var w := Write(v, off, b).v; SameModes(v, w) && w.latches == v.latches && w.planes[p][a] == v.planes[p][a]
  {
  }

  /** After the first `i` bytes of a run only the rest of it changes. */
  lemma {:induction false} WriteRunKeeps(v: Vga, off: nat, x: seq<Byte>, i: nat, k: nat, p: nat, a: nat)
    requires v.Valid() && i <= k <= |x| && p < 4 && a < PLANE && (a < off + i || a >= off + k)
    ensures var (w, r) := (WriteRun(v, off, x, i).v, WriteRun(v, off, x, k).v);
            SameModes(w, r) && r.latches == w.latches && r.planes[p][a] == w.planes[p][a]
  {
    if i < k {
      hide Write;
      WriteRunKeeps(v, off, x, i, k - 1, p, a);
      WriteKeeps(WriteRun(v, off, x, k - 1).v, off + k - 1, x[k - 1], p, a);
    }
  }

  lemma UnitKeeps(v: Vga, s: nat, d: nat, sz: nat, p: nat, a: nat)
    requires v.Valid() && p < 4 && a < PLANE && (a < d || a >= d + sz)
    ensures Kept(v, PlaneUnit(v, s, d, sz).v, p, a)
  {
    ReadRunKeeps(v, s, sz);
    ReadRunLength(v, s, sz);
    var (e, x) := ReadRun(v, s, sz);
    if e.error.NoError? {
      WriteRunKeeps(e.v, d, x, 0, |x|, p, a);
    }
    hide ReadRun, WriteRun;
  }

  lemma {:induction false} SpanMono(sz: nat, i: nat, k: nat)
    requires i <= k
    ensures Span(sz, i) <= Span(sz, k)
    decreases k
  {
    if i < k {
      SpanMono(sz, i, k - 1);
    }
  }

  lemma PlaneLoopNext(v: Vga, s: nat, d: nat, sz: nat, k: nat)
    requires v.Valid()
    ensures var e := PlaneLoop(v, s, d, sz, k);
            PlaneLoop(v, s, d, sz, k + 1)
            == if e.error.NoError? then PlaneUnit(e.v, s + Span(sz, k), d + Span(sz, k), sz) else e
  {
    hide PlaneUnit;
  }

  /** After the first `i` units only the destinations of the rest change. */
  lemma {:induction false} PlaneLoopKeeps(v: Vga, s: nat, d: nat, sz: nat, i: nat, k: nat, p: nat, a: nat)
    requires v.Valid() && i <= k && p < 4 && a < PLANE && (a < d + Span(sz, i) || a >= d + Span(sz, k))
    ensures Kept(PlaneLoop(v, s, d, sz, i).v, PlaneLoop(v, s, d, sz, k).v, p, a)
  {
    hide *;
    if i == k {
      KeptSelf(PlaneLoop(v, s, d, sz, i).v, p, a);
    } else {
      SpanNext(sz, k - 1);
      SpanMono(sz, i, k - 1);
      PlaneLoopKeeps(v, s, d, sz, i, k - 1, p, a);
      PlaneLoopNext(v, s, d, sz, k - 1);
      var e := PlaneLoop(v, s, d, sz, k - 1);
      if e.error.NoError? {
        UnitKeeps(e.v, s + Span(sz, k - 1), d + Span(sz, k - 1), sz, p, a);
        KeptTwice(PlaneLoop(v, s, d, sz, i).v, e.v, PlaneLoop(v, s, d, sz, k).v, p, a);
      }
    }
  }

  lemma ElementKeeps(v: Vga, s: nat, d: nat, p: nat, a: nat)
    requires v.Valid() && p < 4 && a < PLANE && a != d
    ensures Kept(v, CopyElement(v, s, d).v, p, a)
  {
  }

  lemma {:induction false} CopyLoopKeeps(v: Vga, s: nat, d: nat, i: nat, k: nat, p: nat, a: nat)
    requires v.Valid() && i <= k && p < 4 && a < PLANE && (a < d + i || a >= d + k)
    ensures Kept(CopyLoop(v, s, d, i).v, CopyLoop(v, s, d, k).v, p, a)
  {
    hide *;
    if i == k {
      KeptSelf(CopyLoop(v, s, d, i).v, p, a);
    } else {
      var j: nat := k - 1;
      var e := CopyLoop(v, s, d, j);
      CopyLoopKeeps(v, s, d, i, j, p, a);
      if e.error.NoError? {
        CopyLoopNext(v, s, d, j);
        ElementKeeps(e.v, s + j, d + j, p, a);
        KeptTwice(CopyLoop(v, s, d, i).v, e.v, CopyLoop(v, s, d, k).v, p, a);
      } else {
        CopyLoopFailed(v, s, d, j);
      }
    }
  }

  // ---- one unit's bytes

  /** The unit's last column is what its reads leave in the latches. */
  lemma UnitLatches(v: Vga, s: nat, d: nat, sz: nat)
    requires v.Valid() && sz > 0 && s + sz <= PLANE
    ensures PlaneUnit(v, s, d, sz).v.latches == Column(v, s + sz - 1)
  {
    var (w, x) := (Latched(v, s, sz), MapBytes(v, s, sz));
    ReadRunClosed(v, s, sz);
    hide ReadRun, MapBytes;
    WriteRunKeepsLatches(w, d, x, |x|);
    hide WriteRun;
  }

  lemma {:induction false} WriteRunKeepsLatches(v: Vga, off: nat, x: seq<Byte>, k: nat)
    requires v.Valid() && k <= |x|
    ensures WriteRun(v, off, x, k).v.latches == v.latches
  {
    if k > 0 {
      WriteRunKeepsLatches(v, off, x, k - 1);
    }
  }

  /** In write mode 1 the unit stores its last column at its first byte. */
  lemma UnitStoresLast(v: Vga, s: nat, d: nat, sz: nat, p: nat)
    requires v.Valid() && v.writeMode == 1 && sz > 0 && s + sz <= PLANE && d + sz <= PLANE && p < 4 && v.Enabled(p)
    ensures PlaneUnit(v, s, d, sz).v.planes[p][d] == v.planes[p][s + sz - 1]
  {
    var w, x := Latched(v, s, sz), MapBytes(v, s, sz);
    ReadRunClosed(v, s, sz);
    MapBytesLength(v, s, sz);
    WriteFirst(w, d, x, p);
    hide ReadRun, WriteRun, MapBytes;
    WriteRunKeeps(w, d, x, 1, |x|, p, d);
  }

  lemma WriteFirst(w: Vga, d: nat, x: seq<Byte>, p: nat)
    requires w.Valid() && w.writeMode == 1 && d < PLANE && |x| > 0 && p < 4 && w.Enabled(p)
    ensures WriteRun(w, d, x, 1).v.planes[p][d] == w.latches[p]
  {
    assert WriteRun(w, d, x, 0) == Effect(w, NoError);
  }

  /** One element in write mode 1. */
  lemma ElementStores(v: Vga, s: nat, d: nat, p: nat)
    requires v.Valid() && v.writeMode == 1 && s < PLANE && d < PLANE && p < 4 && v.Enabled(p)
    ensures CopyElement(v, s, d).v.planes[p][d] == v.planes[p][s]
  {
  }

  // ---- write mode 1

  lemma LoopStoresLast(v: Vga, s: nat, d: nat, sz: nat, k: nat, p: nat)
    requires v.Valid() && v.writeMode == 1 && sz > 0 && k > 0 && s + sz <= PLANE && d + sz <= PLANE && p < 4 && v.Enabled(p)
    ensures PlaneLoop(v, s, d, sz, k).v.planes[p][d] == v.planes[p][s + sz - 1]
  {
    assert PlaneLoop(v, s, d, sz, 0) == Effect(v, NoError) && Span(sz, 0) == 0 && Span(sz, 1) == sz;
    PlaneLoopNext(v, s, d, sz, 0);
    hide PlaneLoop, PlaneUnit, Span;
    UnitStoresLast(v, s, d, sz, p);
    PlaneLoopKeeps(v, s, d, sz, 1, k, p, d);
  }

  lemma BytesStoreFirst(v: Vga, s: nat, d: nat, n: nat, p: nat)
    requires v.Valid() && v.writeMode == 1 && n > 0 && s + n <= PLANE && d + n <= PLANE && p < 4 && v.Enabled(p)
    ensures BulkCopy(v, s, d, n).v.planes[p][d] == v.planes[p][s]
  {
    BulkCopyIsLoop(v, s, d, n);
    hide BulkCopy;
    CopyLoopNone(v, s, d);
    CopyLoopNext(v, s, d, 0);
    hide CopyLoop, CopyElement;
    ElementStores(v, s, d, p);
    CopyLoopKeeps(v, s, d, 1, n, p, d);
  }

  /** A transfer between planes that the guards accept. */
  predicate Across(c: Cpu, op: Op, s: nat, d: nat) {
    c.Valid() && op.Valid() && op.Movs? && InMemory(c, op) && c.error.NoError? && c.ecx > 0 && c.mem.vga.Some?
    && op.sbase + c.esi == APERTURE + s && op.dbase + c.edi == APERTURE + d
    && s + Span(op.sz, c.ecx) <= PLANE && d + Span(op.sz, c.ecx) <= PLANE && BulkString(c, op).Some?
  }

  lemma AcrossParts(c: Cpu, op: Op, s: nat, d: nat)
    requires Across(c, op, s, d)
    ensures c.Valid() && op.Valid() && op.Movs? && InMemory(c, op) && c.error.NoError? && c.ecx > 0 && BulkString(c, op).Some?
    ensures c.mem.vga.Some? && c.mem.vga.value.Valid() && c.mem.vga.value.CanWrite()
    ensures s + Span(op.sz, c.ecx) <= PLANE && d + Span(op.sz, c.ecx) <= PLANE
    ensures 0 < op.sz <= 4 && op.sz <= Span(op.sz, c.ecx) && Span(op.sz, c.ecx) == op.sz * c.ecx
    ensures Source(c, op) == APERTURE + s && op.dbase + c.edi == APERTURE + d
    ensures InPlanes(c.mem, op, op.sbase + c.esi, op.dbase + c.edi, Span(op.sz, c.ecx))
  {
    SpanIsProduct(op.sz, c.ecx);
    SpanGrows(op.sz, 0, c.ecx);
    hide Span, BulkString;
    PlanarModes(c, op);
  }

  lemma AcrossBulk(c: Cpu, op: Op, s: nat, d: nat)
    requires Across(c, op, s, d)
    ensures c.mem.vga.Some? && c.mem.vga.value.Valid() && BulkString(c, op).Some?
    ensures BulkString(c, op).value.mem.vga == Some(BulkCopy(c.mem.vga.value, s, d, Span(op.sz, c.ecx)).v)
  {
    hide *;
    AcrossParts(c, op, s, d);
    MemoryValid(c);
    SourceIs(c, op);
    BulkCut(c, op);
    var n, fill := op.sz * c.ecx, Repeat(LowBytes(c.eax, op.sz), c.ecx);
    AcceptedShape(c, op, Source(c, op), op.dbase + c.edi, n);
    SlicedAcross(c.mem, op, s, d, n, fill);
    ProgressMemory(c, op, Sliced(c.mem, op, Source(c, op), op.dbase + c.edi, n, fill), n, c.ecx);
  }

  lemma SlicedAcross(m: Flat, op: Op, s: nat, d: nat, n: nat, fill: seq<Byte>)
    requires m.Valid() && |fill| == n && APERTURE + d + n <= |m.data| && APERTURE + s + n <= |m.data|
    requires op.Movs? && m.vga.Some? && n > 0 && s + n <= PLANE && d + n <= PLANE
    ensures Sliced(m, op, APERTURE + s, APERTURE + d, n, fill).vga == Some(BulkCopy(m.vga.value, s, d, n).v)
  {
    hide BulkCopy;
  }

  /** Agreement means the planes after the units are those after the block copy. */
  lemma AcrossAgrees(c: Cpu, op: Op, s: nat, d: nat)
    requires Across(c, op, s, d) && Agrees(c, op)
    ensures c.mem.vga.Some? && c.mem.vga.value.Valid()
    ensures PlaneLoop(c.mem.vga.value, s, d, op.sz, c.ecx)
            == Effect(BulkCopy(c.mem.vga.value, s, d, Span(op.sz, c.ecx)).v, NoError)
  {
    hide *;
    AcrossParts(c, op, s, d);
    AgreesMeans(c, op);
    AcrossBulk(c, op, s, d);
    MemoriesIs(c, op);
    LoopIsPlaneLoop(c.mem, op, op.sbase + c.esi, op.dbase + c.edi, c.eax, c.ecx);
    SourceIs(c, op);
    SourceOf(c, op);
  }

  lemma SourceOf(c: Cpu, op: Op)
    requires op.Movs?
    ensures Source(c, op) == op.sbase + c.esi
  {
  }

  /** Wide units in write mode 1: every byte of the first one becomes its last column. */
  lemma WideLatchShows(c: Cpu, op: Op, s: nat, d: nat, p: nat)
    requires Across(c, op, s, d) && 0 < op.sz && s + op.sz <= PLANE
    requires c.mem.vga.value.writeMode == 1 && p < 4 && c.mem.vga.value.Enabled(p)
    requires c.mem.vga.value.planes[p][s] != c.mem.vga.value.planes[p][s + op.sz - 1]
    ensures !Agrees(c, op)
  {
    hide *;
    AcrossParts(c, op, s, d);
    var v := c.mem.vga.value;
    if Agrees(c, op) {
      AcrossAgrees(c, op, s, d);
      LoopStoresLast(v, s, d, op.sz, c.ecx, p);
      BytesStoreFirst(v, s, d, Span(op.sz, c.ecx), p);
    }
  }

  // ---- write mode 0, destination inside the unit

  /** Nothing but zeros in the planes, except perhaps at `x`. */
  predicate OnlyAt(v: Vga, x: nat)
    requires v.Valid()
  {
    forall p, a :: 0 <= p < 4 && 0 <= a < PLANE && a != x ==> v.planes[p][a] == 0
  }

  /** A byte copy that has not reached `x` yet, in write mode 0. */
  predicate Sweeping(v: Vga, x: nat) {
    v.Valid() && v.writeMode == 0 && v.bitMask == 0xFF && OnlyAt(v, x)
  }

  lemma ElementSweeps(v: Vga, s: nat, d: nat, x: nat)
    requires Sweeping(v, x) && s < PLANE && d < PLANE && s != x
    ensures var e := CopyElement(v, s, d);
            e.error.NoError? && Sweeping(e.v, x) && SameModes(v, e.v)
            && forall p :: 0 <= p < 4 && v.Enabled(p) ==> e.v.planes[p][d] == 0
  {
    hide Put;
    var w := CopyElement(v, s, d).v;
    assert v.planes[v.readMap % 4][s] == 0;
    forall p, a | 0 <= p < 4 && 0 <= a < PLANE && a != x
      ensures w.planes[p][a] == 0
    {
      PutZero(v.planes[p], d, 0, a);
    }
    forall p | 0 <= p < 4 && v.Enabled(p)
      ensures w.planes[p][d] == 0
    {
      PutThere(v.planes[p], d, 0);
    }
  }

  lemma PutThere(d: seq<Byte>, off: nat, b: Byte)
    requires off < |d|
    ensures Put(d, off, [b])[off] == b
  {
  }

  lemma {:induction false} LoopSweeps(v: Vga, s: nat, d: nat, n: nat, x: nat)
    requires Sweeping(v, x) && s + n <= PLANE && d + n <= PLANE && s + n <= x
    ensures var e := CopyLoop(v, s, d, n); e.error.NoError? && Sweeping(e.v, x) && SameModes(v, e.v)
  {
    hide *;
    SweepingValid(v, x);
    if n == 0 {
      CopyLoopNone(v, s, d);
      SameModesSelf(v);
    } else {
      var k: nat := n - 1;
      LoopSweeps(v, s, d, k, x);
      CopyLoopNext(v, s, d, k);
      ElementSweeps(CopyLoop(v, s, d, k).v, s + k, d + k, x);
      SameModesTwice(v, CopyLoop(v, s, d, k).v, CopyLoop(v, s, d, n).v);
    }
  }

  lemma SweepingValid(v: Vga, x: nat)
    requires Sweeping(v, x)
    ensures v.Valid() && v.CanWrite() && v.writeMode == 0
  {
  }

  lemma SameModesSelf(v: Vga)
    ensures SameModes(v, v)
  {
  }

  lemma SameModesTwice(u: Vga, v: Vga, w: Vga)
    requires SameModes(u, v) && SameModes(v, w)
    ensures SameModes(u, w) && forall p :: 0 <= p < 4 ==> w.Enabled(p) == u.Enabled(p)
  {
  }

  /** When element `e` stores at `x`, it stores a zero. */
  lemma SweptOnce(v: Vga, s: nat, d: nat, e: nat, x: nat, p: nat)
    requires Sweeping(v, x) && s < d && x == d + e && x < PLANE && p < 4 && v.Enabled(p)
    ensures v.Valid() && CopyLoop(v, s, d, e + 1).v.planes[p][x] == 0
  {
    hide *;
    SweepingValid(v, x);
    LoopSweeps(v, s, d, e, x);
    var w := CopyLoop(v, s, d, e);
    CopyLoopNext(v, s, d, e);
    SameModesEnabled(v, w.v, p);
    ElementSweeps(w.v, s + e, x, x);
  }

  lemma SameModesEnabled(v: Vga, w: Vga, p: nat)
    requires SameModes(v, w) && p < 4
    ensures w.Enabled(p) == v.Enabled(p)
  {
  }

  /** The last element then loads it. */
  lemma SweptLast(v: Vga, s: nat, d: nat, n: nat, p: nat)
    requires Sweeping(v, s + n) && s + n < PLANE && d + n < PLANE && p < 4
    ensures v.Valid() && CopyLoop(v, s, d, n + 1).v.latches[p] == CopyLoop(v, s, d, n).v.planes[p][s + n]
  {
    hide *;
    SweepingValid(v, s + n);
    LoopSweeps(v, s, d, n, s + n);
    var w := CopyLoop(v, s, d, n);
    SweepingValid(w.v, s + n);
    CopyLoopNext(v, s, d, n);
    ElementLatches(w.v, s + n, d + n, p);
  }

  /** The byte copy has overwritten the last source byte by the time it reads it. */
  lemma BytesSweep(v: Vga, s: nat, d: nat, n: nat, p: nat)
    requires s < d <= s + n && s + n < PLANE && d + n < PLANE && p < 4 && Sweeping(v, s + n) && v.Enabled(p)
    ensures v.Valid() && BulkCopy(v, s, d, n + 1).v.latches[p] == 0
  {
    hide *;
    var e: nat := s + n - d;
    SweepingValid(v, s + n);
    BulkCopyIsLoop(v, s, d, n + 1);
    SweptOnce(v, s, d, e, s + n, p);
    CopyLoopKeeps(v, s, d, e + 1, n, p, s + n);
    KeptByte(CopyLoop(v, s, d, e + 1).v, CopyLoop(v, s, d, n).v, p, s + n);
    SweptLast(v, s, d, n, p);
  }

  lemma KeptByte(v: Vga, w: Vga, p: nat, a: nat)
    requires Kept(v, w, p, a)
    ensures p < 4 && a < PLANE && v.Valid() && w.Valid() && w.planes[p][a] == v.planes[p][a]
  {
  }

  lemma ElementLatches(v: Vga, s: nat, d: nat, p: nat)
    requires v.Valid() && s < PLANE && d < PLANE && p < 4 && v.CanWrite()
    ensures CopyElement(v, s, d).v.latches[p] == v.planes[p][s]
  {
  }

  /** The last unit reads its last byte before any of its stores, so it is still there. */
  lemma UnitsSeeLast(v: Vga, s: nat, d: nat, sz: nat, k: nat, x: nat, p: nat)
    requires v.Valid() && sz > 0 && k > 0 && s < d < s + sz && x + 1 == s + Span(sz, k) && x < PLANE && p < 4
    requires PlaneLoop(v, s, d, sz, k).error.NoError?
    ensures PlaneLoop(v, s, d, sz, k).v.latches[p] == v.planes[p][x]
  {
    hide *;
    var j: nat := k - 1;
    SpanNext(sz, j);
    SpanNone(sz);
    PlaneLoopNext(v, s, d, sz, j);
    PlaneLoopNothing(v, s, d, sz);
    PlaneLoopKeeps(v, s, d, sz, 0, j, p, x);
    var w := PlaneLoop(v, s, d, sz, j).v;
    KeptByte(v, w, p, x);
    UnitLatches(w, s + Span(sz, j), d + Span(sz, j), sz);
    ColumnAt(w, x, p);
  }

  lemma ColumnAt(v: Vga, x: nat, p: nat)
    requires v.Valid() && x < PLANE && p < 4
    ensures Column(v, x)[p] == v.planes[p][x]
  {
  }

  lemma PlaneLoopNothing(v: Vga, s: nat, d: nat, sz: nat)
    requires v.Valid()
    ensures PlaneLoop(v, s, d, sz, 0) == Effect(v, NoError)
  {
  }

  /** Wide units in write mode 0 that overtake themselves: the latches tell what the last byte was. */
  lemma StaggeredShows(c: Cpu, op: Op, s: nat, d: nat, p: nat)
    requires Across(c, op, s, d) && s < d < s + op.sz && p < 4 && c.mem.vga.value.Enabled(p) && Span(op.sz, c.ecx) > 0
    requires Sweeping(c.mem.vga.value, s + Span(op.sz, c.ecx) - 1)
    requires c.mem.vga.value.planes[p][s + Span(op.sz, c.ecx) - 1] != 0
    ensures !Agrees(c, op)
  {
    hide *;
    AcrossParts(c, op, s, d);
    var v, n := c.mem.vga.value, Span(op.sz, c.ecx);
    if Agrees(c, op) {
      AcrossAgrees(c, op, s, d);
      UnitsSeeLast(v, s, d, op.sz, c.ecx, s + n - 1, p);
      BytesSweep(v, s, d, n - 1, p);
    }
  }

  // ---- contents for every unsafe shape

  /** Zeros everywhere but for a one at `x` of plane `p`. */
  function Spot(v: Vga, p: nat, x: nat): (r: Vga)
    requires p < 4 && x < PLANE
    ensures r.Valid() && SameModes(v, r) && OnlyAt(r, x) && r.planes[p][x] == 1
  {
    var zero: seq<Byte> := seq(PLANE, _ => 0);
    v.(planes := seq(4, q => if q == p then zero[x := 1] else zero), latches := [0, 0, 0, 0])
  }

  lemma EnabledPlane(v: Vga) returns (p: nat)
    requires !v.NoPlane()
    ensures p < 4 && v.Enabled(p)
  {
    p := if v.Enabled(0) then 0 else if v.Enabled(1) then 1 else if v.Enabled(2) then 2 else 3;
  }

  lemma AcrossShape(c: Cpu, op: Op, s: nat, d: nat, v: Vga)
    requires Across(c, op, s, d) && v.Valid() && SameModes(c.mem.vga.value, v)
    ensures SameShape(c, WithPlanes(c, v)) && Across(WithPlanes(c, v), op, s, d) && WithPlanes(c, v).mem.vga == Some(v)
  {
    PlanesShape(c, v);
    ShapeKeeps(c, WithPlanes(c, v), op);
    hide BulkString, Span, Vga.Valid;
  }

  lemma WideLatchWitness(c: Cpu, op: Op, s: nat, d: nat) returns (b: Cpu)
    requires Across(c, op, s, d) && op.sz > 1 && c.mem.vga.value.writeMode == 1 && !c.mem.vga.value.NoPlane()
    ensures SameShape(c, b) && !Agrees(b, op)
  {
    hide *;
    AcrossParts(c, op, s, d);
    var p := EnabledPlane(c.mem.vga.value);
    var v := Spot(c.mem.vga.value, p, s + op.sz - 1);
    b := WithPlanes(c, v);
    AcrossShape(c, op, s, d, v);
    SpotElsewhere(v, p, s + op.sz - 1, s);
    SameModesTwice(c.mem.vga.value, c.mem.vga.value, v) by { SameModesSelf(c.mem.vga.value); }
    ModeKept(c.mem.vga.value, v);
    PlanesOp(c, op, v);
    WideLatchShows(b, op, s, d, p);
  }

  lemma SpotElsewhere(v: Vga, p: nat, x: nat, a: nat)
    requires v.Valid() && OnlyAt(v, x) && p < 4 && a < PLANE && a != x
    ensures v.planes[p][a] == 0
  {
  }

  lemma ModeKept(v: Vga, w: Vga)
    requires SameModes(v, w)
    ensures w.writeMode == v.writeMode && w.bitMask == v.bitMask && w.readMap == v.readMap
  {
  }

  lemma PlanesOp(c: Cpu, op: Op, v: Vga)
    ensures WithPlanes(c, v).ecx == c.ecx
  {
  }

  lemma SweepingSpot(v: Vga, x: nat)
    requires v.Valid() && v.writeMode == 0 && v.bitMask == 0xFF && OnlyAt(v, x)
    ensures Sweeping(v, x)
  {
  }

  lemma StaggeredWitness(c: Cpu, op: Op, s: nat, d: nat) returns (b: Cpu)
    requires Across(c, op, s, d) && s < d < s + op.sz && c.mem.vga.value.writeMode == 0 && c.mem.vga.value.bitMask == 0xFF
    requires !c.mem.vga.value.NoPlane()
    ensures SameShape(c, b) && !Agrees(b, op)
  {
    hide *;
    AcrossParts(c, op, s, d);
    var p := EnabledPlane(c.mem.vga.value);
    var x: nat := s + Span(op.sz, c.ecx) - 1;
    var v := Spot(c.mem.vga.value, p, x);
    b := WithPlanes(c, v);
    AcrossShape(c, op, s, d, v);
    SameModesTwice(c.mem.vga.value, c.mem.vga.value, v) by { SameModesSelf(c.mem.vga.value); }
    ModeKept(c.mem.vga.value, v);
    SweepingSpot(v, x);
    PlanesOp(c, op, v);
    StaggeredShows(b, op, s, d, p);
  }

  /** Ones in the read-map plane, zeros in the others. */
  function Striped(v: Vga): (r: Vga)
    ensures r.Valid() && SameModes(v, r)
    ensures forall p, a :: 0 <= p < 4 && 0 <= a < PLANE ==> r.planes[p][a] == if p == v.readMap % 4 then 1 else 0
  {
    var zero: seq<Byte> := seq(PLANE, _ => 0);
    var one: seq<Byte> := seq(PLANE, _ => 1);
    v.(planes := seq(4, q => if q == v.readMap % 4 then one else zero), latches := [0, 0, 0, 0])
  }

  lemma StripedDiverges(v: Vga, s: nat, n: nat)
    requires v.CanWrite() && v.writeMode == 0 && StoresElsewhere(v) && n > 0 && s + n <= PLANE
    ensures Diverges(Striped(v), s, s, n)
  {
    var w := Striped(v);
    hide Striped;
    SameMasks(v, w);
    var p :| 0 <= p < 4 && w.Enabled(p) && p != w.readMap % 4;
    assert LastByteChanges(w, s, s, n, p);
  }

  lemma SelfCopyWitness(c: Cpu, op: Op, s: nat) returns (b: Cpu)
    requires Across(c, op, s, s) && c.mem.vga.value.writeMode == 0 && StoresElsewhere(c.mem.vga.value)
    requires InStep386(c, op)
    ensures SameShape(c, b) && !Agrees(b, op)
  {
    hide *;
    AcrossParts(c, op, s, s);
    var v := Striped(c.mem.vga.value);
    b := WithPlanes(c, v);
    AcrossShape(c, op, s, s, v);
    AcrossParts(b, op, s, s);
    InStepShape(c, b, op);
    StripedDiverges(c.mem.vga.value, s, Span(op.sz, c.ecx));
    PlanesOp(c, op, v);
    ShowsIt(b, op, s);
    InStepExact(b, op);
    AgreesValue(b, op);
  }

  lemma AgreesValue(b: Cpu, op: Op)
    requires b.Valid() && op.Valid() && InMemory(b, op) && BulkString(b, op).Some?
    requires BulkString(b, op).value != Units(b, op, b.ecx)
    ensures !Agrees(b, op)
  {
    hide BulkString, Units, InMemory;
  }

  lemma ShowsIt(b: Cpu, op: Op, s: nat)
    requires Across(b, op, s, s) && b.mem.vga.value.Valid() && Diverges(b.mem.vga.value, s, s, Span(op.sz, b.ecx))
    ensures ShowsSelfCopy(b, op)
  {
    AcrossParts(b, op, s, s);
    hide Diverges, Span, BulkString;
  }

  lemma InStepShape(c: Cpu, b: Cpu, op: Op)
    requires c.Valid() && SameShape(c, b) && InStep386(c, op)
    ensures b.Valid() && InStep386(b, op)
  {
    if c.mem.vga.Some? {
      SameMasks(c.mem.vga.value, b.mem.vga.value);
    }
    hide Vga.Valid, SafeForward, Vga.NoPlane;
  }

  // ---- the exact condition

  /** How a shape can be unsafe. */
  lemma UnsafeShape(c: Cpu, op: Op)
    requires c.Valid() && op.Valid() && InMemory(c, op) && c.error.NoError? && BulkString(c, op).Some? && !ShapeSafe(c, op)
    ensures c.ecx > 0 && c.mem.vga.Some?
    ensures var (src, dst, n) := (op.sbase + c.esi, op.dbase + c.edi, op.sz * c.ecx);
            || (Swallows(c.mem, dst, n) && (op.Movs? ==> src != dst))
            || (op.Movs? && Swallows(c.mem, src, n) && (src == dst || !Swallows(c.mem, dst, n)))
            || (op.Movs? && c.mem.Planar(src) && c.mem.Planar(dst) && !Swallows(c.mem, src, n) && !Swallows(c.mem, dst, n)
                && !UnitIsBytes(c.mem.vga.value, src, dst, op.sz))
            || (op.Movs? && c.mem.Planar(src) && src == dst && InStep386(c, op) && !Swallows(c.mem, src, n)
                && c.mem.vga.value.writeMode != 1 && StoresElsewhere(c.mem.vga.value))
  {
    hide UnitIsBytes, StoresElsewhere, InMemory, BulkString, Vga.Valid;
  }

  lemma PlanarAcross(c: Cpu, op: Op)
    requires c.Valid() && op.Valid() && InMemory(c, op) && c.error.NoError? && BulkString(c, op).Some? && c.ecx > 0
    requires op.Movs? && c.mem.Planar(op.sbase + c.esi) && c.mem.Planar(op.dbase + c.edi)
    ensures op.sbase + c.esi >= APERTURE && op.dbase + c.edi >= APERTURE
    ensures Across(c, op, op.sbase + c.esi - APERTURE, op.dbase + c.edi - APERTURE)
  {
    SpanIsProduct(op.sz, c.ecx);
    BulkGuard(c, op);
    hide BulkString, Span, SafeForward;
  }

  lemma PlanarWitness(c: Cpu, op: Op) returns (b: Cpu)
    requires c.Valid() && op.Valid() && InMemory(c, op) && c.error.NoError? && BulkString(c, op).Some? && c.ecx > 0
    requires op.Movs? && c.mem.Planar(op.sbase + c.esi) && c.mem.Planar(op.dbase + c.edi)
    requires !UnitIsBytes(c.mem.vga.value, op.sbase + c.esi, op.dbase + c.edi, op.sz)
    ensures SameShape(c, b) && !Agrees(b, op)
  {
    PlanarAcross(c, op);
    PlanarModes(c, op);
    hide Across, InMemory, BulkString, Agrees, SameShape, Vga.NoPlane, Vga.Valid;
    var s, d := op.sbase + c.esi - APERTURE, op.dbase + c.edi - APERTURE;
    if c.mem.vga.value.writeMode == 1 {
      b := WideLatchWitness(c, op, s, d);
    } else {
      b := StaggeredWitness(c, op, s, d);
    }
  }

  lemma UnsafeWitness(c: Cpu, op: Op) returns (b: Cpu)
    requires c.Valid() && op.Valid() && InMemory(c, op) && c.error.NoError? && BulkString(c, op).Some? && !ShapeSafe(c, op)
    ensures SameShape(c, b) && !Agrees(b, op)
  {
    hide *;
    UnsafeShape(c, op);
    MemoryValid(c);
    var src, dst, n := op.sbase + c.esi, op.dbase + c.edi, op.sz * c.ecx;
    if Swallows(c.mem, dst, n) && (op.Movs? ==> src != dst) {
      b := SwallowedStoreWitness(c, op);
    } else if op.Movs? && Swallows(c.mem, src, n) && (src == dst || !Swallows(c.mem, dst, n)) {
      b := SwallowedReadWitness(c, op);
    } else if op.Movs? && c.mem.Planar(src) && c.mem.Planar(dst) && !UnitIsBytes(c.mem.vga.value, src, dst, op.sz) {
      b := PlanarWitness(c, op);
    } else {
      PlanarAcross(c, op);
      PlanarModes(c, op);
      ModesOf(c.mem.vga.value);
      b := SelfCopyWitness(c, op, src - APERTURE);
    }
  }

  lemma ModesOf(v: Vga)
    requires v.CanWrite() && v.writeMode != 1
    ensures v.writeMode == 0
  {
  }

  /**
   The exact condition. Among the instructions `_bulk_string` takes, those of a safe shape
   leave RAM, planes, latches and registers as the unit loop does whatever the contents, and
   every other shape has contents on which the two differ.
   */
  lemma BulkStringExact(c: Cpu, op: Op)
    requires c.Valid() && op.Valid() && InMemory(c, op) && c.error.NoError? && BulkString(c, op).Some?
    ensures ShapeSafe(c, op) <==> forall b :: SameShape(c, b) ==> Agrees(b, op)
  {
    hide *;
    if ShapeSafe(c, op) {
      forall b | SameShape(c, b)
        ensures Agrees(b, op)
      {
        SafeAgrees(c, b, op);
      }
    } else {
      var b := UnsafeWitness(c, op);
    }
  }
}
