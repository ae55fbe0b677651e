/**
 What MOVS and STOS leave on the flat machine, byte by byte and register by register, where
 no range straddles an edge of the aperture and no byte is read after it was overwritten.
 */
module FlatBytes {
  import opened Blocks
  import opened Memory
  import opened PlanarVga
  import opened FlatString
  import opened FlatTransfers
  import opened FlatExact

  /** Byte `j` of EAX, the lowest first. */
  function EaxByte(eax: nat, j: nat): Byte {
    if j == 0 then eax % 256
    else if j == 1 then eax / 0x100 % 256
    else if j == 2 then eax / 0x1_0000 % 256
    else eax / 0x100_0000 % 256
  }

  /** An address the video device answers. */
  predicate OnScreen(m: Flat, a: nat) {
    m.vga.Some? && 0xA_0000 <= a < 0xB_0000
  }

  /** The range lies on one side of the aperture's edges, inside memory. */
  predicate OneSided(m: Flat, a: nat, n: nat) {
    a + n <= |m.data| && (m.vga.None? || a + n <= 0xA_0000 || a >= 0xB_0000 || (0xA_0000 <= a && a + n <= 0xB_0000))
  }

  /** `n` bytes go straight across: to RAM, or to the planes in write mode 0 with every bit enabled. */
  predicate Straight(m: Flat, op: Op, src: nat, dst: nat, n: nat) {
    m.Valid() && op.Valid() && n > 0 && OneSided(m, dst, n) && (op.Movs? ==> OneSided(m, src, n))
    && (OnScreen(m, dst) ==> m.vga.value.writeMode == 0 && m.vga.value.bitMask == 0xFF && (op.Movs? ==> !OnScreen(m, src)))
    && (op.Movs? && !OnScreen(m, src) && !OnScreen(m, dst) ==> !(src < dst < src + n))
  }

  /** The bytes that go across: those of EAX over and over, RAM, or the read-map plane. */
  function Payload(m: Flat, op: Op, src: nat, dst: nat, eax: nat, n: nat): (x: seq<Byte>)
    requires Straight(m, op, src, dst, n)
    ensures |x| == n
  {
    seq(n, i requires 0 <= i < n =>
      if op.Stos? then EaxByte(eax, i % op.sz)
      else if OnScreen(m, src) then m.vga.value.planes[m.vga.value.readMap % 4][src - 0xA_0000 + i]
      else m.data[src + i])
  }

  /** The video device afterwards: a planar source leaves its last column in the latches. */
  ghost predicate ScreenKept(m: Flat, r: Flat, op: Op, src: nat, n: nat) {
    m.Valid() && n > 0
    && if op.Movs? && OnScreen(m, src) && src + n <= 0xB_0000 then
         var (v, at) := (m.vga.value, src - 0xA_0000 + n - 1);
         r.vga == Some(v.(latches := [v.planes[0][at], v.planes[1][at], v.planes[2][at], v.planes[3][at]]))
       else r.vga == m.vga
  }

  /** RAM and planes afterwards. */
  ghost predicate Arrives(m: Flat, r: Flat, op: Op, src: nat, dst: nat, x: seq<Byte>) {
    if OnScreen(m, dst) then
      r.data == m.data && r.vga.Some? && r.vga.value == m.vga.value.(planes := r.vga.value.planes)
      && StoredUnderMask(m.vga.value, r.vga.value, dst - 0xA_0000, x, x, x, x)
    else
      |r.data| == |m.data| && ScreenKept(m, r, op, src, |x|)
      && forall i :: 0 <= i < |m.data| ==> r.data[i] == if dst <= i < dst + |x| then x[i - dst] else m.data[i]
  }

  // ---- the bytes of EAX ----------------------------------------------------------------------

  lemma LowByteAt(eax: nat, sz: nat, j: nat)
    requires j < sz <= 4
    ensures LowBytes(eax, sz)[j] == EaxByte(eax, j)
  {
    assert eax / 256 / 256 == eax / 0x1_0000;
    assert eax / 0x1_0000 / 256 == eax / 0x100_0000;
    assert LowBytes(eax, sz) == [eax % 256] + LowBytes(eax / 256, sz - 1);
  }

  lemma FillIsPayload(m: Flat, op: Op, src: nat, dst: nat, eax: nat, k: nat)
    requires op.Stos? && Straight(m, op, src, dst, Span(op.sz, k))
    ensures Repeat(LowBytes(eax, op.sz), k) == Payload(m, op, src, dst, eax, Span(op.sz, k))
  {
    RepeatSpan(op, eax, k);
    var x, y := Repeat(LowBytes(eax, op.sz), k), Payload(m, op, src, dst, eax, Span(op.sz, k));
    forall i | 0 <= i < |x|
      ensures x[i] == y[i]
    {
      RepeatAt(LowBytes(eax, op.sz), k, i);
      LowByteAt(eax, op.sz, i % op.sz);
    }
  }

  // ---- case by case --------------------------------------------------------------------------

  lemma StraightSides(m: Flat, op: Op, src: nat, dst: nat, n: nat)
    requires Straight(m, op, src, dst, n)
    ensures m.Planar(dst) == OnScreen(m, dst) && Uniform(m, dst, n) && (op.Movs? ==> Uniform(m, src, n))
    ensures op.Movs? ==> m.Planar(src) == OnScreen(m, src)
  {
  }

  lemma FilledArrives(m: Flat, op: Op, src: nat, dst: nat, x: seq<Byte>)
    requires Straight(m, op, src, dst, |x|) && !OnScreen(m, dst) && !(op.Movs? && OnScreen(m, src))
    ensures Arrives(m, Filled(m, dst, x), op, src, dst, x)
  {
  }

  lemma StoredArrives(m: Flat, op: Op, src: nat, dst: nat, x: seq<Byte>)
    requires Straight(m, op, src, dst, |x|) && OnScreen(m, dst)
    ensures m.Planar(dst) && dst - APERTURE + |x| <= PLANE && Arrives(m, Stored(m, dst, x), op, src, dst, x)
  {
    hide Put;
  }

  lemma RamPayload(m: Flat, op: Op, src: nat, dst: nat, eax: nat, n: nat)
    requires Straight(m, op, src, dst, n) && op.Movs? && !OnScreen(m, src)
    ensures src + n <= |m.data| && Payload(m, op, src, dst, eax, n) == m.data[src..src + n]
  {
  }

  lemma StosArrives(m: Flat, op: Op, src: nat, dst: nat, eax: nat, k: nat)
    requires op.Stos? && Straight(m, op, src, dst, Span(op.sz, k))
    ensures Carried(m, op, src, dst, eax, k)
  {
    var x := Payload(m, op, src, dst, eax, Span(op.sz, k));
    StraightSides(m, op, src, dst, Span(op.sz, k));
    FillIsPayload(m, op, src, dst, eax, k);
    hide LoopMemory, Payload, Repeat, LowBytes, Arrives, Uniform, Put, StoreRange, Span;
    if OnScreen(m, dst) {
      FillPlanes(m, op, src, dst, eax, k);
      StoredArrives(m, op, src, dst, x);
    } else {
      FillRam(m, op, src, dst, eax, k);
      FilledArrives(m, op, src, dst, x);
    }
  }

  lemma MapPayload(m: Flat, op: Op, src: nat, dst: nat, eax: nat, n: nat)
    requires Straight(m, op, src, dst, n) && op.Movs? && OnScreen(m, src)
    ensures m.Planar(src) && src - APERTURE + n <= PLANE && MapBytes(m.vga.value, src - APERTURE, n) == Payload(m, op, src, dst, eax, n)
  {
  }

  lemma FromPlanesArrives(m: Flat, op: Op, src: nat, dst: nat, n: nat)
    requires Straight(m, op, src, dst, n) && op.Movs? && m.Planar(src) && OnScreen(m, src) && src - APERTURE + n <= PLANE
    ensures Arrives(m, FromPlanes(m, src, dst, n), op, src, dst, MapBytes(m.vga.value, src - APERTURE, n))
  {
    var x := MapBytes(m.vga.value, src - APERTURE, n);
    assert |x| == n;
    assert ScreenKept(m, FromPlanes(m, src, dst, n), op, src, n);
  }

  lemma ReadsArrive(m: Flat, op: Op, src: nat, dst: nat, eax: nat, k: nat)
    requires op.Movs? && Straight(m, op, src, dst, Span(op.sz, k)) && OnScreen(m, src)
    ensures Carried(m, op, src, dst, eax, k)
  {
    var n := Span(op.sz, k);
    StraightSides(m, op, src, dst, n);
    MapPayload(m, op, src, dst, eax, n);
    FromPlanesArrives(m, op, src, dst, n);
    hide LoopMemory, Payload, Uniform, Span, Arrives, FromPlanes, MapBytes;
    PlanesToRam(m, op, src, dst, eax, k);
  }

  lemma StraightToPlanes(m: Flat, op: Op, src: nat, dst: nat, n: nat)
    requires op.Movs? && Straight(m, op, src, dst, n) && !OnScreen(m, src) && OnScreen(m, dst)
    ensures RamPlanesCase(m, op, src, dst, n) && src + n <= |m.data| && m.Valid() && m.Planar(dst) && dst - APERTURE + n <= PLANE
    ensures ToPlanes(m, src, dst, n) == Stored(m, dst, m.data[src..src + n])
  {
    StraightSides(m, op, src, dst, n);
    hide Stored, Vga.Valid;
  }

  lemma CarriedBy(m: Flat, op: Op, src: nat, dst: nat, eax: nat, k: nat, n: nat, x: seq<Byte>)
    requires Straight(m, op, src, dst, n) && n == Span(op.sz, k) && x == Payload(m, op, src, dst, eax, n) && m.Valid()
    requires var (r, e) := LoopMemory(m, op, src, dst, eax, k); e.NoError? && Arrives(m, r, op, src, dst, x)
    ensures Carried(m, op, src, dst, eax, k)
  {
    hide Straight, LoopMemory, Arrives, Payload, Span;
  }

  lemma RamToPlanesArrives(m: Flat, op: Op, src: nat, dst: nat, eax: nat, k: nat)
    requires op.Movs? && Straight(m, op, src, dst, Span(op.sz, k)) && !OnScreen(m, src) && OnScreen(m, dst)
    ensures Carried(m, op, src, dst, eax, k)
  {
    hide *;
    var n := Span(op.sz, k);
    StraightToPlanes(m, op, src, dst, n);
    RamPayload(m, op, src, dst, eax, n);
    var x := m.data[src..src + n];
    StoredArrives(m, op, src, dst, x);
    RamToPlanes(m, op, src, dst, eax, k);
    CarriedBy(m, op, src, dst, eax, k, n, x);
  }

  lemma RamToRamArrives(m: Flat, op: Op, src: nat, dst: nat, eax: nat, k: nat)
    requires op.Movs? && Straight(m, op, src, dst, Span(op.sz, k)) && !OnScreen(m, src) && !OnScreen(m, dst)
    ensures Carried(m, op, src, dst, eax, k)
  {
    var n := Span(op.sz, k);
    StraightSides(m, op, src, dst, n);
    RamPayload(m, op, src, dst, eax, n);
    FilledArrives(m, op, src, dst, m.data[src..src + n]);
    hide LoopMemory, Payload, Arrives, Uniform, Put, Span;
    RamToRam(m, op, src, dst, eax, k);
  }

  /** `k` units carry the payload across and raise nothing. */
  ghost predicate Carried(m: Flat, op: Op, src: nat, dst: nat, eax: nat, k: nat) {
    Straight(m, op, src, dst, Span(op.sz, k))
    && var (r, e) := LoopMemory(m, op, src, dst, eax, k);
       e.NoError? && Arrives(m, r, op, src, dst, Payload(m, op, src, dst, eax, Span(op.sz, k)))
  }

  lemma LoopArrives(m: Flat, op: Op, src: nat, dst: nat, eax: nat, k: nat)
    requires Straight(m, op, src, dst, Span(op.sz, k))
    ensures Carried(m, op, src, dst, eax, k)
  {
    hide *;
    if op.Stos? {
      StosArrives(m, op, src, dst, eax, k);
    } else if OnScreen(m, src) {
      ReadsArrive(m, op, src, dst, eax, k);
    } else if OnScreen(m, dst) {
      RamToPlanesArrives(m, op, src, dst, eax, k);
    } else {
      RamToRamArrives(m, op, src, dst, eax, k);
    }
  }

  // ---- the instruction -----------------------------------------------------------------------

  /** `n` bytes from ESI to EDI, or from EAX, go straight across. */
  predicate StraightString(c: Cpu, op: Op, n: nat) {
    c.Valid() && c.error.NoError? && |c.mem.data| <= 0x1_0000_0000
    && Straight(c.mem, op, op.sbase + c.esi, op.dbase + c.edi, n)
  }

  /** Registers and memory after `n` bytes; `left` is what ECX holds then. */
  ghost predicate StringLeaves(c: Cpu, op: Op, n: nat, left: nat, r: Cpu) {
    StraightString(c, op, n)
    && r.error.NoError? && r.eax == c.eax && r.ecx == left
    && r.edi == (c.edi + n) % 0x1_0000_0000 && r.esi == (if op.Movs? then (c.esi + n) % 0x1_0000_0000 else c.esi)
    && Arrives(c.mem, r.mem, op, op.sbase + c.esi, op.dbase + c.edi,
               Payload(c.mem, op, op.sbase + c.esi, op.dbase + c.edi, c.eax, n))
  }

  lemma OneUnit(m: Flat, op: Op, src: nat, dst: nat, eax: nat)
    requires m.Valid()
    ensures Span(op.sz, 1) == op.sz && LoopMemory(m, op, src, dst, eax, 1) == Transfer(m, op, src, dst, eax)
  {
    LoopMemoryNone(m, op, src, dst, eax);
    assert Span(op.sz, 0) == 0;
    LoopMemoryNext(m, op, src, dst, eax, 0);
    hide LoopMemory, Transfer;
  }

  lemma CarriedParts(m: Flat, op: Op, src: nat, dst: nat, eax: nat, k: nat, n: nat)
    requires Straight(m, op, src, dst, n) && n == Span(op.sz, k)
    ensures m.Valid() && var (r, e) := LoopMemory(m, op, src, dst, eax, k);
            e.NoError? && Arrives(m, r, op, src, dst, Payload(m, op, src, dst, eax, n))
  {
    hide Straight, LoopMemory, Arrives, Payload, Span;
    LoopArrives(m, op, src, dst, eax, k);
    StraightValid(m, op, src, dst, n);
  }

  lemma StraightValid(m: Flat, op: Op, src: nat, dst: nat, n: nat)
    requires Straight(m, op, src, dst, n)
    ensures m.Valid()
  {
  }

  lemma UnitArrives(c: Cpu, op: Op) returns (m: Flat)
    requires StraightString(c, op, op.sz)
    ensures c.Valid() && Transfer(c.mem, op, op.sbase + c.esi, op.dbase + c.edi, c.eax) == (m, NoError)
    ensures Arrives(c.mem, m, op, op.sbase + c.esi, op.dbase + c.edi,
                    Payload(c.mem, op, op.sbase + c.esi, op.dbase + c.edi, c.eax, op.sz))
  {
    hide Straight, Payload, Arrives, Transfer, Span, LoopMemory;
    OneUnit(c.mem, op, op.sbase + c.esi, op.dbase + c.edi, c.eax);
    CarriedParts(c.mem, op, op.sbase + c.esi, op.dbase + c.edi, c.eax, 1, op.sz);
    m := Transfer(c.mem, op, op.sbase + c.esi, op.dbase + c.edi, c.eax).0;
  }

  lemma UnitRegisters(c: Cpu, op: Op, m: Flat)
    requires c.Valid() && c.error.NoError? && Transfer(c.mem, op, op.sbase + c.esi, op.dbase + c.edi, c.eax) == (m, NoError)
    ensures Unit(c, op) == Cpu(m, c.eax, c.ecx, if op.Movs? then (c.esi + op.sz) % 0x1_0000_0000 else c.esi,
                               (c.edi + op.sz) % 0x1_0000_0000, NoError)
  {
    hide Transfer;
  }

  lemma LeavesFrom(c: Cpu, op: Op, n: nat, left: nat, m: Flat)
    requires StraightString(c, op, n)
    requires Arrives(c.mem, m, op, op.sbase + c.esi, op.dbase + c.edi,
                     Payload(c.mem, op, op.sbase + c.esi, op.dbase + c.edi, c.eax, n))
    ensures StringLeaves(c, op, n, left, Cpu(m, c.eax, left, if op.Movs? then (c.esi + n) % 0x1_0000_0000 else c.esi,
                                             (c.edi + n) % 0x1_0000_0000, NoError))
  {
    hide Straight, Payload, Arrives;
  }

  lemma StringValid(c: Cpu, op: Op, n: nat)
    requires StraightString(c, op, n)
    ensures c.Valid() && c.error.NoError? && Straight(c.mem, op, op.sbase + c.esi, op.dbase + c.edi, n)
  {
    hide Straight;
  }

  /** One unit. */
  lemma UnitLeaves(c: Cpu, op: Op)
    requires StraightString(c, op, op.sz)
    ensures c.Valid() && StringLeaves(c, op, op.sz, c.ecx, Unit(c, op))
  {
    hide *;
    StringValid(c, op, op.sz);
    var m := UnitArrives(c, op);
    UnitRegisters(c, op, m);
    LeavesFrom(c, op, op.sz, c.ecx, m);
  }

  /** The registers of a loop that raised nothing. */
  lemma AfterLeaves(c: Cpu, op: Op, m: Flat, n: nat)
    requires StraightString(c, op, n) && n == Span(op.sz, c.ecx)
    requires Arrives(c.mem, m, op, op.sbase + c.esi, op.dbase + c.edi,
                     Payload(c.mem, op, op.sbase + c.esi, op.dbase + c.edi, c.eax, n))
    ensures StringLeaves(c, op, n, 0, After(c, op, m, c.ecx))
  {
    hide Straight, Payload, Arrives, Span;
  }

  lemma StraightIsInMemory(c: Cpu, op: Op)
    requires StraightString(c, op, op.sz * c.ecx)
    ensures op.Valid() && InMemory(c, op) && BulkSafe(c, op)
  {
    hide Diverges, UnitIsBytes, Vga.Valid;
  }

  lemma StringCarried(c: Cpu, op: Op, n: nat)
    requires StraightString(c, op, n) && n == Span(op.sz, c.ecx)
    ensures c.Valid() && c.error.NoError? && Memories(c, op, c.ecx).1.NoError?
    ensures Arrives(c.mem, Memories(c, op, c.ecx).0, op, op.sbase + c.esi, op.dbase + c.edi,
                    Payload(c.mem, op, op.sbase + c.esi, op.dbase + c.edi, c.eax, n))
  {
    hide Straight, Payload, Arrives, LoopMemory, Span;
    CarriedParts(c.mem, op, op.sbase + c.esi, op.dbase + c.edi, c.eax, c.ecx, n);
  }

  /** The REP loop. */
  lemma UnitsLeave(c: Cpu, op: Op)
    requires StraightString(c, op, op.sz * c.ecx)
    ensures StringLeaves(c, op, op.sz * c.ecx, 0, Units(c, op, c.ecx))
  {
    hide *;
    var n := op.sz * c.ecx;
    SpanIsProduct(op.sz, c.ecx);
    StraightIsInMemory(c, op);
    StringCarried(c, op, n);
    UnitsIsLoopMemory(c, op, c.ecx);
    AfterLeaves(c, op, Memories(c, op, c.ecx).0, n);
  }

  /** The instruction as it runs, slices or loop. */
  lemma RepLeaves(c: Cpu, op: Op)
    requires StraightString(c, op, op.sz * c.ecx)
    ensures op.Valid() && InMemory(c, op) && StringLeaves(c, op, op.sz * c.ecx, 0, RepString(c, op))
  {
    StraightIsInMemory(c, op);
    hide StringLeaves, Straight, Units, BulkString, InMemory, BulkSafe;
    UnitsLeave(c, op);
    BulkStringIsLoop(c, op);
  }

  // ---- from planes to planes -----------------------------------------------------------------

  /** Both ranges inside the aperture, the same or apart, in a mode the device writes. */
  predicate AcrossScreen(c: Cpu, op: Op) {
    var (src, dst, n) := (op.sbase + c.esi, op.dbase + c.edi, op.sz * c.ecx);
    c.Valid() && c.error.NoError? && op.Valid() && op.Movs? && c.ecx > 0 && n > 0
    && OnScreen(c.mem, src) && OnScreen(c.mem, dst) && src + n <= 0xB_0000 && dst + n <= 0xB_0000
    && |c.mem.data| <= 0x1_0000_0000 && src + n <= |c.mem.data| && dst + n <= |c.mem.data|
    && (src == dst || src + n <= dst || dst + n <= src)
    && c.mem.vga.value.bitMask == 0xFF && (c.mem.vga.value.writeMode == 0 || c.mem.vga.value.writeMode == 1)
  }

  /** The device's block copy carries the range across; RAM stays. */
  ghost predicate ScreenCopied(c: Cpu, op: Op, n: nat, s: nat, d: nat, r: Cpu) {
    c.mem.vga.Some? && op.sbase + c.esi == 0xA_0000 + s && op.dbase + c.edi == 0xA_0000 + d && n == op.sz * c.ecx
    && r.error.NoError? && r.eax == c.eax && r.ecx == 0 && r.mem.data == c.mem.data && r.mem.vga.Some?
    && r.edi == (c.edi + n) % 0x1_0000_0000 && r.esi == (c.esi + n) % 0x1_0000_0000
    && BlockCopied(c.mem.vga.value, s, d, n, Effect(r.mem.vga.value, NoError))
  }

  lemma ScreenBlock(v: Vga, s: nat, d: nat, n: nat)
    requires v.Valid() && v.CanWrite() && n > 0 && s + n <= 0x1_0000 && d + n <= 0x1_0000 && (s == d || s + n <= d || d + n <= s)
    ensures BlockCopied(v, s, d, n, Effect(BulkCopy(v, s, d, n).v, NoError))
  {
    BulkCopyStores(v, s, d, n);
    assert BulkCopy(v, s, d, n).error.NoError? by {
      hide SlicePlanes, Column;
    }
    hide BlockCopied, BulkCopy, Vga.Valid;
  }

  lemma ScreenAccepted(c: Cpu, op: Op, n: nat)
    requires AcrossScreen(c, op) && n == op.sz * c.ecx
    ensures c.Valid() && op.Valid() && InMemory(c, op) && n > 0 && Source(c, op) == op.sbase + c.esi
    ensures Accepts(c, op, Source(c, op), op.dbase + c.edi, n)
  {
    hide Vga.Valid;
  }

  lemma ScreenSliced(c: Cpu, op: Op, n: nat, fill: seq<Byte>)
    requires AcrossScreen(c, op) && n == op.sz * c.ecx && |fill| == n
    ensures c.mem.Planar(op.sbase + c.esi) && c.mem.Planar(op.dbase + c.edi)
    ensures Sliced(c.mem, op, op.sbase + c.esi, op.dbase + c.edi, n, fill)
            == c.mem.(vga := Some(BulkCopy(c.mem.vga.value, op.sbase + c.esi - 0xA_0000, op.dbase + c.edi - 0xA_0000, n).v))
  {
    hide BulkCopy, Vga.Valid;
  }

  lemma ScreenProgress(c: Cpu, op: Op, n: nat, s: nat, d: nat, v: Vga)
    requires c.mem.vga.Some? && op.sbase + c.esi == 0xA_0000 + s && op.dbase + c.edi == 0xA_0000 + d && n == op.sz * c.ecx
    requires c.error.NoError? && op.Movs? && 0 < c.ecx && BlockCopied(c.mem.vga.value, s, d, n, Effect(v, NoError))
    ensures ScreenCopied(c, op, n, s, d, Progress(c, op, c.mem.(vga := Some(v)), n, c.ecx))
  {
    hide BlockCopied;
  }

  lemma RepTakes(c: Cpu, op: Op, r: Cpu)
    requires c.Valid() && op.Valid() && InMemory(c, op) && BulkString(c, op) == Some(r)
    ensures RepString(c, op) == r
  {
    hide BulkString, InMemory;
  }

  lemma ScreenParts(c: Cpu, op: Op)
    requires AcrossScreen(c, op)
    ensures c.error.NoError? && op.Movs? && c.ecx > 0 && c.mem.vga.Some? && c.mem.vga.value.Valid() && c.mem.vga.value.CanWrite()
    ensures 0xA_0000 <= op.sbase + c.esi && op.sbase + c.esi + op.sz * c.ecx <= 0xB_0000
    ensures 0xA_0000 <= op.dbase + c.edi && op.dbase + c.edi + op.sz * c.ecx <= 0xB_0000
    ensures var (src, dst, n) := (op.sbase + c.esi, op.dbase + c.edi, op.sz * c.ecx);
            n > 0 && (src == dst || src + n <= dst || dst + n <= src)
  {
    hide Vga.Valid;
  }

  lemma ScreenLeaves(c: Cpu, op: Op)
    requires AcrossScreen(c, op)
    ensures op.Valid() && InMemory(c, op) && op.sbase + c.esi >= 0xA_0000 && op.dbase + c.edi >= 0xA_0000
    ensures ScreenCopied(c, op, op.sz * c.ecx, op.sbase + c.esi - 0xA_0000, op.dbase + c.edi - 0xA_0000, RepString(c, op))
  {
    hide *;
    ScreenParts(c, op);
    var n, s, d := op.sz * c.ecx, op.sbase + c.esi - 0xA_0000, op.dbase + c.edi - 0xA_0000;
    var fill := Repeat(LowBytes(c.eax, op.sz), c.ecx);
    ScreenAccepted(c, op, n);
    BulkCut(c, op);
    ScreenSliced(c, op, n, fill);
    var v := BulkCopy(c.mem.vga.value, s, d, n).v;
    ScreenBlock(c.mem.vga.value, s, d, n);
    ScreenProgress(c, op, n, s, d, v);
    RepTakes(c, op, Progress(c, op, c.mem.(vga := Some(v)), n, c.ecx));
  }

  /** What the instruction leaves in all these cases. */
  ghost predicate Executed(c: Cpu, op: Op, r: Cpu) {
    (StraightString(c, op, op.sz * c.ecx) ==> StringLeaves(c, op, op.sz * c.ecx, 0, r))
    && (AcrossScreen(c, op) ==>
          op.sbase + c.esi >= 0xA_0000 && op.dbase + c.edi >= 0xA_0000
          && ScreenCopied(c, op, op.sz * c.ecx, op.sbase + c.esi - 0xA_0000, op.dbase + c.edi - 0xA_0000, r))
  }

  lemma RepExecuted(c: Cpu, op: Op)
    requires c.Valid() && op.Valid() && InMemory(c, op)
    ensures Executed(c, op, RepString(c, op))
  {
    hide StraightString, StringLeaves, AcrossScreen, ScreenCopied, RepString, InMemory;
    if StraightString(c, op, op.sz * c.ecx) {
      RepLeaves(c, op);
    }
    if AcrossScreen(c, op) {
      ScreenLeaves(c, op);
    }
  }
}
