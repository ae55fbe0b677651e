/**
 REP MOVS and REP STOS on the flat 386 core: slices against the per-unit loop, with RAM
 and the planar aperture on either side.
 */
module FlatString {
  import opened Blocks
  import opened Memory
  import opened PlanarVga

  const APERTURE := 0xA_0000
  const APERTURE_END := 0xB_0000
  const WORD32 := 0x1_0000_0000

  /** Flat memory with the planar device attached while the aperture is unchained. */
  datatype Flat = Flat(data: seq<Byte>, vga: Option<Vga>) {
    predicate Valid() {
      vga.Some? ==> vga.value.Valid()
    }

    predicate Planar(a: nat) {
      vga.Some? && APERTURE <= a < APERTURE_END
    }
  }

  datatype Cpu = Cpu(mem: Flat, eax: nat, ecx: nat, esi: nat, edi: nat, error: Error) {
    predicate Valid() {
      mem.Valid() && eax < WORD32 && ecx < WORD32 && esi < WORD32 && edi < WORD32
    }
  }

  /** One string instruction: operand size and resolved segment bases. */
  datatype Op = Movs(sz: nat, sbase: nat, dbase: nat) | Stos(sz: nat, sbase: nat, dbase: nat) {
    predicate Valid() {
      sz == 1 || sz == 2 || sz == 4
    }
  }

  // ---- one unit ----------------------------------------------------------------------

  /** `k` consecutive aperture reads. */
  function ReadRun(v: Vga, off: nat, k: nat): (r: (Effect, seq<Byte>))
    requires v.Valid()
    ensures r.0.v.Valid()
  {
    if k == 0 then (Effect(v, NoError), [])
    else
      var (e, bytes) := ReadRun(v, off, k - 1);
      if !e.error.NoError? then (e, bytes)
      else
        var (e', b) := Read(e.v, off + k - 1);
        (e', bytes + [b])
  }

  /** Consecutive aperture writes of the first `k` bytes of `x`. */
  function WriteRun(v: Vga, off: nat, x: seq<Byte>, k: nat): (r: Effect)
    requires v.Valid() && k <= |x|
    ensures r.v.Valid()
  {
    if k == 0 then Effect(v, NoError)
    else
      var e := WriteRun(v, off, x, k - 1);
      if !e.error.NoError? then e else Write(e.v, off + k - 1, x[k - 1])
  }

  /** `read(a, sz)`: the aperture is chosen by the first byte's address. */
  function ReadUnit(m: Flat, a: nat, sz: nat): (r: (Flat, Error, seq<Byte>))
    requires m.Valid()
    ensures r.0.Valid() && (r.1.NoError? ==> |r.2| == sz)
  {
    if m.Planar(a) then
      ReadRunLength(m.vga.value, a - APERTURE, sz);
      var (e, x) := ReadRun(m.vga.value, a - APERTURE, sz);
      (m.(vga := Some(e.v)), e.error, x)
    else if a + sz <= |m.data| then (m, NoError, m.data[a..a + sz])
    else (m, IndexError, [])
  }

  lemma {:induction false} ReadRunLength(v: Vga, off: nat, k: nat)
    requires v.Valid()
    ensures ReadRun(v, off, k).0.error.NoError? ==> |ReadRun(v, off, k).1| == k
  {
    if k > 0 {
      ReadRunLength(v, off, k - 1);
    }
  }

  function WriteUnit(m: Flat, a: nat, x: seq<Byte>): (r: (Flat, Error))
    requires m.Valid()
    ensures r.0.Valid()
  {
    if m.Planar(a) then
      var e := WriteRun(m.vga.value, a - APERTURE, x, |x|);
      (m.(vga := Some(e.v)), e.error)
    else if a + |x| <= |m.data| then (m.(data := Put(m.data, a, x)), NoError)
    else (m, IndexError)
  }

  /** The low `sz` bytes of EAX, low byte first. */
  function LowBytes(eax: nat, sz: nat): (x: seq<Byte>)
    ensures |x| == sz
    decreases sz
  {
    if sz == 0 then [] else [eax % 256] + LowBytes(eax / 256, sz - 1)
  }

  /** The memory effect of one unit. */
  function Transfer(m: Flat, op: Op, src: nat, dst: nat, eax: nat): (r: (Flat, Error))
    requires m.Valid()
    ensures r.0.Valid()
  {
    if op.Movs? then
      var (m', e, x) := ReadUnit(m, src, op.sz);
      if e.NoError? then WriteUnit(m', dst, x) else (m', e)
    else WriteUnit(m, dst, LowBytes(eax, op.sz))
  }

  /** One unit of the instruction, forward. */
  function Unit(c: Cpu, op: Op): (r: Cpu)
    requires c.Valid()
    ensures r.Valid()
  {
    var (m, e) := Transfer(c.mem, op, op.sbase + c.esi, op.dbase + c.edi, c.eax);
    if !e.NoError? then c.(mem := m, error := e)
    else c.(mem := m, esi := if op.Movs? then (c.esi + op.sz) % WORD32 else c.esi, edi := (c.edi + op.sz) % WORD32)
  }

  /** The state after `k` units of the REP loop; ECX counts down after each. */
  function Units(c: Cpu, op: Op, k: nat): (r: Cpu)
    requires c.Valid()
    ensures r.Valid()
  {
    if k == 0 then c
    else
      var r := Units(c, op, k - 1);
      if !r.error.NoError? then r
      else
        var r' := Unit(r, op);
        if r'.error.NoError? then r'.(ecx := (r'.ecx - 1) % WORD32) else r'
  }

  // ---- the bulk form ---------------------------------------------------------------------

  /** Both transfer ranges lie in flat memory, below 4 GB. */
  predicate InMemory(c: Cpu, op: Op) {
    var n := op.sz * c.ecx;
    |c.mem.data| <= WORD32 && op.dbase + c.edi + n <= |c.mem.data|
    && (op.Movs? ==> op.sbase + c.esi + n <= |c.mem.data|)
  }

  /** The guards of `_bulk_string`: false sends the caller to the per-unit loop. */
  predicate Accepts(c: Cpu, op: Op, src: nat, dst: nat, n: nat)
    requires c.Valid() && n > 0
  {
    var m := c.mem;
    var (from, to) := (op.Movs? && m.Planar(src), m.Planar(dst));
    m.Planar(dst) == m.Planar(dst + n - 1)
    && (op.Movs? ==> m.Planar(src) == m.Planar(src + n - 1))
    && (from || to ==> m.vga.value.bitMask == 0xFF)
    && (to ==> m.vga.value.writeMode == 0 || m.vga.value.writeMode == 1)
    && if from && to then true
       else (op.Movs? && !from && !to ==> SafeForward(src, dst, n))
            && (from ==> src - APERTURE + n <= PLANE)
            && (to ==> m.vga.value.writeMode != 1 && dst - APERTURE + n <= PLANE)
  }

  /** `x` into every enabled plane at `off`. */
  function StoreRange(v: Vga, off: nat, x: seq<Byte>): (r: Vga)
    requires v.Valid() && off + |x| <= PLANE
    ensures r.Valid()
  {
    v.(planes := seq(4, p requires 0 <= p < 4 => if v.Enabled(p) then Put(v.planes[p], off, x) else v.planes[p]))
  }

  /** The latches after reading `n` aperture bytes from `off`. */
  function Latched(v: Vga, off: nat, n: nat): (r: Vga)
    requires v.Valid() && off + n <= PLANE
    ensures r.Valid()
  {
    v.(latches := if n == 0 then v.latches else Column(v, off + n - 1))
  }

  /** The bytes gathered from the source. */
  function Gathered(m: Flat, op: Op, src: nat, n: nat, fill: seq<Byte>): seq<Byte>
    requires m.Valid() && (op.Movs? ==> src + n <= |m.data|)
    requires op.Movs? && m.Planar(src) ==> src - APERTURE + n <= PLANE
  {
    if op.Stos? then fill
    else if m.Planar(src) then m.vga.value.planes[m.vga.value.readMap % 4][src - APERTURE..src - APERTURE + n]
    else m.data[src..src + n]
  }

  /** The memory after the slices; both ranges planar goes through the device's own block copy. */
  function Sliced(m: Flat, op: Op, src: nat, dst: nat, n: nat, fill: seq<Byte>): (r: Flat)
    requires m.Valid() && |fill| == n && dst + n <= |m.data| && (op.Movs? ==> src + n <= |m.data|)
    requires op.Movs? && m.Planar(src) ==> src - APERTURE + n <= PLANE
    requires m.Planar(dst) ==> dst - APERTURE + n <= PLANE
    ensures r.Valid()
  {
    if op.Movs? && m.Planar(src) && m.Planar(dst) then
      m.(vga := Some(BulkCopy(m.vga.value, src - APERTURE, dst - APERTURE, n).v))
    else
      var x := Gathered(m, op, src, n, fill);
      var m1 := if op.Movs? && m.Planar(src) then m.(vga := Some(Latched(m.vga.value, src - APERTURE, n))) else m;
      if m.Planar(dst) then m1.(vga := Some(StoreRange(m1.vga.value, dst - APERTURE, x)))
      else m1.(data := Put(m1.data, dst, x))
  }

  /** Registers after the whole transfer of `n` bytes in `k` units. */
  function Progress(c: Cpu, op: Op, m: Flat, n: nat, k: nat): Cpu {
    c.(mem := m, esi := if op.Movs? then (c.esi + n) % WORD32 else c.esi, edi := (c.edi + n) % WORD32,
       ecx := (c.ecx - k) % WORD32)
  }

  /** Slices, or None when the caller must run the loop. */
  function BulkString(c: Cpu, op: Op): (r: Option<Cpu>)
    requires c.Valid() && op.Valid() && InMemory(c, op)
  {
    if c.ecx == 0 then Some(c)
    else
      var n := op.sz * c.ecx;
      MulSucc(op.sz, c.ecx - 1);
      var src := if op.Movs? then op.sbase + c.esi else 0;
      var dst := op.dbase + c.edi;
      if !Accepts(c, op, src, dst, n) then None
      else
        RepeatLength(op, c.eax, c.ecx);
        Some(Progress(c, op, Sliced(c.mem, op, src, dst, n, Repeat(LowBytes(c.eax, op.sz), c.ecx)), n, c.ecx))
  }

  lemma RepeatLength(op: Op, eax: nat, k: nat)
    ensures |Repeat(LowBytes(eax, op.sz), k)| == op.sz * k
  {
  }

  // ---- runs of aperture accesses -------------------------------------------------------

  /** The bytes of the read-map plane in [off, off + k). */
  function MapBytes(v: Vga, off: nat, k: nat): seq<Byte>
    requires v.Valid() && off + k <= PLANE
  {
    v.planes[v.readMap % 4][off..off + k]
  }

  lemma {:induction false} ReadRunClosed(v: Vga, off: nat, k: nat)
    requires v.Valid() && off + k <= PLANE
    ensures ReadRun(v, off, k) == (Effect(Latched(v, off, k), NoError), MapBytes(v, off, k))
  {
    hide Read, Column;
    if k == 0 {
      assert MapBytes(v, off, 0) == [];
    } else {
      hide Latched, MapBytes;
      var w := Latched(v, off, k - 1);
      ReadRunClosed(v, off, k - 1);
      LatchedNext(v, off, k);
      ReadOnce(v, w, off + k - 1);
      assert ReadRun(v, off, k) == (Read(w, off + k - 1).0, MapBytes(v, off, k - 1) + [Read(w, off + k - 1).1]);
      MapBytesGrow(v, off, k);
    }
  }

  lemma MapBytesGrow(v: Vga, off: nat, k: nat)
    requires v.Valid() && k > 0 && off + k <= PLANE
    ensures MapBytes(v, off, k) == MapBytes(v, off, k - 1) + [v.planes[v.readMap % 4][off + k - 1]]
  {
  }

  lemma LatchedNext(v: Vga, off: nat, k: nat)
    requires v.Valid() && k > 0 && off + k <= PLANE
    ensures Latched(v, off, k) == v.(latches := Column(v, off + k - 1))
    ensures Latched(v, off, k - 1) == v.(latches := Latched(v, off, k - 1).latches)
  {
  }

  lemma ReadOnce(v: Vga, w: Vga, at: nat)
    requires v.Valid() && w.Valid() && at < PLANE && w == v.(latches := w.latches)
    ensures Read(w, at) == (Effect(v.(latches := Column(v, at)), NoError), v.planes[v.readMap % 4][at])
  {
  }

  lemma StoreNothing(v: Vga, off: nat)
    requires v.Valid() && off <= PLANE
    ensures StoreRange(v, off, []) == v
  {
    forall p | 0 <= p < 4
      ensures StoreRange(v, off, []).planes[p] == v.planes[p]
    {
    }
    assert StoreRange(v, off, []).planes == v.planes;
  }

  /** Storing a range, then the bytes right after it. */
  lemma StoreAfterStore(v: Vga, off: nat, x: seq<Byte>, y: seq<Byte>)
    requires v.Valid() && off + |x| + |y| <= PLANE
    ensures StoreRange(StoreRange(v, off, x), off + |x|, y) == StoreRange(v, off, x + y)
  {
    hide Put;
    var a, b := StoreRange(StoreRange(v, off, x), off + |x|, y), StoreRange(v, off, x + y);
    forall p | 0 <= p < 4
      ensures a.planes[p] == b.planes[p]
    {
      PutAfterPut(v.planes[p], off, x, y);
    }
    assert a.planes == b.planes;
  }

  lemma WriteIsStore(v: Vga, off: nat, b: Byte)
    requires v.Valid() && v.writeMode == 0 && v.bitMask == 0xFF && off < PLANE
    ensures Write(v, off, b) == Effect(StoreRange(v, off, [b]), NoError)
  {
    hide Put;
    var w := Write(v, off, b).v;
    forall p | 0 <= p < 4
      ensures w.planes[p] == StoreRange(v, off, [b]).planes[p]
    {
    }
    assert w.planes == StoreRange(v, off, [b]).planes;
  }

  /** One more byte after a run of stores. */
  lemma StoreOneMore(v: Vga, off: nat, x: seq<Byte>, b: Byte)
    requires v.Valid() && v.writeMode == 0 && v.bitMask == 0xFF && off + |x| < PLANE
    ensures Write(StoreRange(v, off, x), off + |x|, b) == Effect(StoreRange(v, off, x + [b]), NoError)
  {
    hide *;
    StoreKeepsModes(v, off, x);
    StoreAfterStore(v, off, x, [b]);
    WriteIsStore(StoreRange(v, off, x), off + |x|, b);
  }

  lemma WriteRunStep(v: Vga, off: nat, x: seq<Byte>, k: nat)
    requires v.Valid() && v.writeMode == 0 && v.bitMask == 0xFF && k < |x| && off + k < PLANE
    ensures Write(StoreRange(v, off, x[..k]), off + k, x[k]) == Effect(StoreRange(v, off, x[..k + 1]), NoError)
  {
    hide *;
    StoreOneMore(v, off, x[..k], x[k]);
    assert x[..k + 1] == x[..k] + [x[k]];
  }

  lemma {:induction false} WriteRunClosed(v: Vga, off: nat, x: seq<Byte>, k: nat)
    requires v.Valid() && v.writeMode == 0 && v.bitMask == 0xFF && k <= |x| && off + k <= PLANE
    ensures WriteRun(v, off, x, k) == Effect(StoreRange(v, off, x[..k]), NoError)
  {
    hide StoreRange, Write;
    if k == 0 {
      StoreNothing(v, off);
      assert x[..0] == [];
    } else {
      WriteRunClosed(v, off, x, k - 1);
      WriteRunStep(v, off, x, k - 1);
    }
  }

  lemma StoreKeepsModes(v: Vga, off: nat, x: seq<Byte>)
    requires v.Valid() && off + |x| <= PLANE
    ensures var w := StoreRange(v, off, x);
            w.writeMode == v.writeMode && w.bitMask == v.bitMask && w.readMap == v.readMap && w.mapMask == v.mapMask
            && w.latches == v.latches
  {
  }

  // ---- the loop's registers and the loop's memory --------------------------------------------

  /** `sz * k`, one unit at a time. */
  function Span(sz: nat, k: nat): nat {
    if k == 0 then 0 else Span(sz, k - 1) + sz
  }

  lemma {:induction false} SpanIsProduct(sz: nat, k: nat)
    ensures Span(sz, k) == sz * k
  {
    if k > 0 {
      SpanIsProduct(sz, k - 1);
      MulSucc(sz, k - 1);
    }
  }

  lemma {:induction false} SpanGrows(sz: nat, i: nat, k: nat)
    requires i < k
    ensures Span(sz, i) + sz <= Span(sz, k)
    decreases k
  {
    if i + 1 < k {
      SpanGrows(sz, i, k - 1);
    }
  }

  /** The memory after `k` transfers starting at fixed addresses. */
  function LoopMemory(m: Flat, op: Op, src: nat, dst: nat, eax: nat, k: nat): (r: (Flat, Error))
    requires m.Valid()
    ensures r.0.Valid()
  {
    if k == 0 then (m, NoError)
    else
      var r := LoopMemory(m, op, src, dst, eax, k - 1);
      if r.1.NoError? then Transfer(r.0, op, src + Span(op.sz, k - 1), dst + Span(op.sz, k - 1), eax) else r
  }

  lemma LoopMemoryNone(m: Flat, op: Op, src: nat, dst: nat, eax: nat)
    requires m.Valid()
    ensures LoopMemory(m, op, src, dst, eax, 0) == (m, NoError)
  {
  }

  lemma LoopMemoryNext(m: Flat, op: Op, src: nat, dst: nat, eax: nat, k: nat)
    requires m.Valid() && LoopMemory(m, op, src, dst, eax, k).1.NoError?
    ensures Span(op.sz, k + 1) == Span(op.sz, k) + op.sz
    ensures LoopMemory(m, op, src, dst, eax, k + 1)
            == Transfer(LoopMemory(m, op, src, dst, eax, k).0, op, src + Span(op.sz, k), dst + Span(op.sz, k), eax)
  {
    hide Transfer;
  }

  /** The transfers the whole instruction makes. */
  function Memories(c: Cpu, op: Op, k: nat): (r: (Flat, Error))
    requires c.Valid()
    ensures r.0.Valid()
  {
    LoopMemory(c.mem, op, op.sbase + c.esi, op.dbase + c.edi, c.eax, k)
  }

  /** Registers do not wrap before the transfer is over. */
  lemma NoWrap(c: Cpu, op: Op, i: nat)
    requires c.Valid() && op.Valid() && InMemory(c, op) && i < c.ecx
    ensures (c.edi + Span(op.sz, i)) % WORD32 == c.edi + Span(op.sz, i)
    ensures op.Movs? ==> (c.esi + Span(op.sz, i)) % WORD32 == c.esi + Span(op.sz, i)
  {
    SpanIsProduct(op.sz, c.ecx);
    SpanGrows(op.sz, i, c.ecx);
  }

  /** The state after `i` units with memory `m`. */
  function After(c: Cpu, op: Op, m: Flat, i: nat): Cpu {
    Progress(c, op, m, Span(op.sz, i), i)
  }

  lemma SameTransfer(op: Op, m: Flat, s1: nat, s2: nat, d1: nat, d2: nat, eax: nat)
    requires m.Valid() && d1 == d2 && (op.Movs? ==> s1 == s2)
    ensures Transfer(m, op, s1, d1, eax) == Transfer(m, op, s2, d2, eax)
  {
    hide ReadUnit, WriteUnit;
  }

  /** Where the next transfer of the loop reads and writes. */
  lemma TransferAt(c: Cpu, op: Op, m: Flat, i: nat)
    requires c.Valid() && op.Valid() && InMemory(c, op) && i < c.ecx && m.Valid()
    ensures var p := After(c, op, m, i);
            Transfer(m, op, op.sbase + p.esi, op.dbase + p.edi, c.eax)
            == Transfer(m, op, op.sbase + c.esi + Span(op.sz, i), op.dbase + c.edi + Span(op.sz, i), c.eax)
  {
    NoWrap(c, op, i);
    hide Transfer, Span, InMemory;
    var (n, p) := (Span(op.sz, i), After(c, op, m, i));
    SameTransfer(op, m, op.sbase + p.esi, op.sbase + c.esi + n, op.dbase + p.edi, op.dbase + c.edi + n, c.eax);
  }

  lemma ModAdd32(x: int, a: int, b: int)
    ensures ((x + a) % WORD32 + b) % WORD32 == (x + a + b) % WORD32
  {
  }

  /** A unit whose transfer succeeds, followed by the count-down. */
  function Counted(p: Cpu, op: Op, m': Flat): Cpu {
    p.(mem := m', esi := if op.Movs? then (p.esi + op.sz) % WORD32 else p.esi,
       edi := (p.edi + op.sz) % WORD32, ecx := (p.ecx - 1) % WORD32)
  }

  lemma AfterNext(c: Cpu, op: Op, m: Flat, m': Flat, i: nat)
    ensures After(c, op, m', i + 1) == Counted(After(c, op, m, i), op, m')
  {
    var n := Span(op.sz, i);
    assert Span(op.sz, i + 1) == n + op.sz;
    hide Span;
    ModAdd32(c.esi, n, op.sz);
    ModAdd32(c.edi, n, op.sz);
    ModAdd32(c.ecx, 0 - i, -1);
  }

  lemma UnitsNext(c: Cpu, op: Op, k: nat)
    requires c.Valid() && Units(c, op, k).error.NoError?
    ensures var p := Units(c, op, k);
            var (m', e) := Transfer(p.mem, op, op.sbase + p.esi, op.dbase + p.edi, p.eax);
            Units(c, op, k + 1) == if e.NoError? then Counted(p, op, m') else p.(mem := m', error := e)
  {
    hide Transfer;
  }

  lemma AfterKeeps(c: Cpu, op: Op, m: Flat, k: nat)
    ensures var p := After(c, op, m, k); p.mem == m && p.eax == c.eax && p.error == c.error
  {
    hide Span;
  }

  /** The loop's next memory and exception, at the addresses of the transfer. */
  lemma UnitsStep(c: Cpu, op: Op, k: nat)
    requires c.Valid() && op.Valid() && InMemory(c, op) && k < c.ecx
    requires Units(c, op, k).error.NoError? && Units(c, op, k) == After(c, op, Units(c, op, k).mem, k)
    ensures var (m', e) := Transfer(Units(c, op, k).mem, op, op.sbase + c.esi + Span(op.sz, k),
                                    op.dbase + c.edi + Span(op.sz, k), c.eax);
            var r := Units(c, op, k + 1);
            r.mem == m' && r.error == e && (e.NoError? ==> r == After(c, op, m', k + 1))
  {
    hide Transfer, Units, Span, InMemory, After, Op.Valid, Flat.Valid;
    var p := Units(c, op, k);
    UnitsNext(c, op, k);
    TransferAt(c, op, p.mem, k);
    AfterKeeps(c, op, p.mem, k);
    AfterNext(c, op, p.mem, Transfer(p.mem, op, op.sbase + p.esi, op.dbase + p.edi, p.eax).0, k);
  }

  lemma UnitsStuck(c: Cpu, op: Op, k: nat)
    requires c.Valid() && !Units(c, op, k).error.NoError?
    ensures Units(c, op, k + 1) == Units(c, op, k)
  {
    hide Unit;
  }

  lemma MemoriesStep(c: Cpu, op: Op, k: nat)
    requires c.Valid()
    ensures var r := Memories(c, op, k);
            Memories(c, op, k + 1)
            == if r.1.NoError? then
                 Transfer(r.0, op, op.sbase + c.esi + Span(op.sz, k), op.dbase + c.edi + Span(op.sz, k), c.eax)
               else r
  {
    hide Transfer;
  }

  /** Memory and exception of the loop, whether or not an access raises. */
  lemma {:induction false} UnitsIsLoopMemory(c: Cpu, op: Op, k: nat)
    requires c.Valid() && op.Valid() && InMemory(c, op) && k <= c.ecx && c.error.NoError?
    ensures var r := Units(c, op, k);
            (r.mem, r.error) == Memories(c, op, k) && (r.error.NoError? ==> r == After(c, op, r.mem, k))
  {
    hide *;
    if k == 0 {
      UnitsBegin(c, op);
    } else {
      UnitsIsLoopMemory(c, op, k - 1);
      MemoriesStep(c, op, k - 1);
      if Units(c, op, k - 1).error.NoError? {
        UnitsStep(c, op, k - 1);
      } else {
        UnitsStuck(c, op, k - 1);
      }
    }
  }

  lemma UnitsBegin(c: Cpu, op: Op)
    requires c.Valid() && c.error.NoError?
    ensures Units(c, op, 0) == After(c, op, c.mem, 0) == c && Memories(c, op, 0) == (c.mem, NoError)
  {
  }
}
