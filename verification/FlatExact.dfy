/** `_bulk_string` against the per-unit REP loop, content by content, where the slices can follow the units. */
module FlatExact {
  import opened Blocks
  import opened Memory
  import opened PlanarVga
  import opened FlatString
  import opened FlatTransfers

  /** A range that starts below the aperture and ends above it; its end points both look like RAM. */
  predicate Swallows(m: Flat, a: nat, n: nat) {
    m.vga.Some? && a < APERTURE && APERTURE_END < a + n
  }

  /** Testing the two end points decides the whole range unless it swallows the aperture. */
  lemma EndPointsDecide(m: Flat, a: nat, n: nat)
    requires n > 0 && m.Planar(a) == m.Planar(a + n - 1) && !Swallows(m, a, n)
    ensures Uniform(m, a, n) && (m.Planar(a) ==> a - APERTURE + n <= PLANE)
  {
  }

  /** What slices can reproduce among the transfers the guards let through. */
  predicate Reproducible(m: Flat, op: Op, src: nat, dst: nat, n: nat)
    requires m.Valid()
  {
    !Swallows(m, dst, n) && (op.Movs? ==> !Swallows(m, src, n))
    && (op.Movs? && m.Planar(src) && m.Planar(dst) ==> UnitIsBytes(m.vga.value, src, dst, op.sz))
  }

  /** A planar range copied onto itself, with the difference showing in the latches. */
  predicate SelfCopyShows(m: Flat, op: Op, src: nat, dst: nat, n: nat)
    requires m.Valid()
  {
    op.Movs? && m.Planar(src) && m.Planar(dst) && Diverges(m.vga.value, src - APERTURE, dst - APERTURE, n)
  }

  /** What the guards and the domain give for one transfer of `n` bytes. */
  predicate Ready(m: Flat, op: Op, src: nat, dst: nat, n: nat) {
    m.Valid() && op.Valid() && n > 0 && dst + n <= |m.data| && (op.Movs? ==> src + n <= |m.data|)
    && Uniform(m, dst, n) && (op.Movs? ==> Uniform(m, src, n))
    && (m.Planar(dst) ==> dst - APERTURE + n <= PLANE) && (op.Movs? && m.Planar(src) ==> src - APERTURE + n <= PLANE)
    && Supported(m, op, src, dst, n)
  }

  predicate Supported(m: Flat, op: Op, src: nat, dst: nat, n: nat)
    requires m.Valid()
  {
    var (from, to) := (op.Movs? && m.Planar(src), m.Planar(dst));
    if from && to then
      m.vga.value.CanWrite() && UnitIsBytes(m.vga.value, src, dst, op.sz)
    else
      (to ==> m.vga.value.writeMode == 0 && m.vga.value.bitMask == 0xFF)
      && (op.Movs? && !from && !to ==> SafeForward(src, dst, n))
  }

  lemma AcceptedIsReady(c: Cpu, op: Op, src: nat, dst: nat, n: nat)
    requires c.Valid() && op.Valid() && n > 0 && dst + n <= |c.mem.data| && (op.Movs? ==> src + n <= |c.mem.data|)
    requires Accepts(c, op, src, dst, n) && Reproducible(c.mem, op, src, dst, n)
    ensures Ready(c.mem, op, src, dst, n)
  {
    EndPointsDecide(c.mem, dst, n);
    if op.Movs? {
      EndPointsDecide(c.mem, src, n);
    }
    hide Uniform, Diverges, UnitIsBytes, SafeForward, Swallows, Vga.Valid;
  }

  /** The loop raises nothing in `k` units, and the slices leave its memory unless a self-copy shows. */
  predicate SlicesAreLoop(m: Flat, op: Op, src: nat, dst: nat, eax: nat, k: nat)
    requires m.Valid()
  {
    var (n, fill) := (Span(op.sz, k), Repeat(LowBytes(eax, op.sz), k));
    |fill| == n && Fits(m, op, src, dst, n)
    && LoopMemory(m, op, src, dst, eax, k).1.NoError?
    && (LoopMemory(m, op, src, dst, eax, k).0 == Sliced(m, op, src, dst, n, fill) <==> !SelfCopyShows(m, op, src, dst, n))
  }

  predicate Fits(m: Flat, op: Op, src: nat, dst: nat, n: nat) {
    dst + n <= |m.data| && (op.Movs? ==> src + n <= |m.data|)
    && (op.Movs? && m.Planar(src) ==> src - APERTURE + n <= PLANE) && (m.Planar(dst) ==> dst - APERTURE + n <= PLANE)
  }

  lemma FillCase(m: Flat, op: Op, src: nat, dst: nat, eax: nat, k: nat)
    requires Ready(m, op, src, dst, Span(op.sz, k)) && op.Stos?
    ensures SlicesAreLoop(m, op, src, dst, eax, k)
  {
    RepeatSpan(op, eax, k);
    if m.Planar(dst) {
      FillPlanes(m, op, src, dst, eax, k);
    } else {
      FillRam(m, op, src, dst, eax, k);
    }
    hide LoopMemory, StoreRange, Put, Repeat, LowBytes, Span, Uniform;
  }

  lemma RamCase(m: Flat, op: Op, src: nat, dst: nat, eax: nat, k: nat)
    requires Ready(m, op, src, dst, Span(op.sz, k)) && op.Movs? && !m.Planar(src) && !m.Planar(dst)
    ensures SlicesAreLoop(m, op, src, dst, eax, k)
  {
    RepeatSpan(op, eax, k);
    RamToRam(m, op, src, dst, eax, k);
    hide LoopMemory, StoreRange, Put, Repeat, LowBytes, Span, Uniform;
  }

  lemma ToPlanesCase(m: Flat, op: Op, src: nat, dst: nat, eax: nat, k: nat)
    requires Ready(m, op, src, dst, Span(op.sz, k)) && op.Movs? && !m.Planar(src) && m.Planar(dst)
    ensures SlicesAreLoop(m, op, src, dst, eax, k)
  {
    RepeatSpan(op, eax, k);
    hide LoopMemory, StoreRange, Put, Repeat, LowBytes, Span, Uniform;
    RamToPlanes(m, op, src, dst, eax, k);
  }

  lemma FromPlanesCase(m: Flat, op: Op, src: nat, dst: nat, eax: nat, k: nat)
    requires Ready(m, op, src, dst, Span(op.sz, k)) && op.Movs? && m.Planar(src) && !m.Planar(dst)
    ensures SlicesAreLoop(m, op, src, dst, eax, k)
  {
    RepeatSpan(op, eax, k);
    hide LoopMemory, StoreRange, Latched, Put, Repeat, LowBytes, Span, Uniform;
    PlanesToRam(m, op, src, dst, eax, k);
  }

  lemma AcrossCase(m: Flat, op: Op, src: nat, dst: nat, eax: nat, k: nat)
    requires Ready(m, op, src, dst, Span(op.sz, k)) && op.Movs? && m.Planar(src) && m.Planar(dst)
    ensures SlicesAreLoop(m, op, src, dst, eax, k)
  {
    RepeatSpan(op, eax, k);
    hide LoopMemory, CopyLoop, BulkCopy, Repeat, LowBytes, Span, Uniform, Diverges;
    PlanesToPlanes(m, op, src, dst, eax, k);
    BulkCopyExact(m.vga.value, src - APERTURE, dst - APERTURE, Span(op.sz, k));
    BulkCopyFine(m.vga.value, src - APERTURE, dst - APERTURE, Span(op.sz, k));
  }

  lemma BulkCopyFine(v: Vga, s: nat, d: nat, n: nat)
    requires v.Valid() && v.CanWrite() && s + n <= PLANE && d + n <= PLANE
    ensures BulkCopy(v, s, d, n).error.NoError? && CopyLoop(v, s, d, n).error.NoError?
  {
    CopyLoopFine(v, s, d, n);
    hide CopyLoop;
  }

  lemma ReadyValid(m: Flat, op: Op, src: nat, dst: nat, n: nat)
    requires Ready(m, op, src, dst, n)
    ensures m.Valid()
  {
  }

  lemma ReadyCase(m: Flat, op: Op, src: nat, dst: nat, eax: nat, k: nat)
    requires Ready(m, op, src, dst, Span(op.sz, k))
    ensures m.Valid() && SlicesAreLoop(m, op, src, dst, eax, k)
  {
    hide *;
    ReadyValid(m, op, src, dst, Span(op.sz, k));
    if op.Stos? {
      FillCase(m, op, src, dst, eax, k);
    } else if m.Planar(src) {
      if m.Planar(dst) {
        AcrossCase(m, op, src, dst, eax, k);
      } else {
        FromPlanesCase(m, op, src, dst, eax, k);
      }
    } else if m.Planar(dst) {
      ToPlanesCase(m, op, src, dst, eax, k);
    } else {
      RamCase(m, op, src, dst, eax, k);
    }
  }

  lemma FillLength(op: Op, eax: nat, k: nat)
    ensures |Repeat(LowBytes(eax, op.sz), k)| == op.sz * k == Span(op.sz, k)
  {
    RepeatSpan(op, eax, k);
    SpanIsProduct(op.sz, k);
  }

  /** A fill has no source; the slices pass 0 for it. */
  function Source(c: Cpu, op: Op): nat {
    if op.Movs? then op.sbase + c.esi else 0
  }

  lemma BulkAccepts(c: Cpu, op: Op)
    requires c.Valid() && op.Valid() && InMemory(c, op) && c.ecx > 0 && BulkString(c, op).Some?
    ensures Span(op.sz, c.ecx) > 0 && Accepts(c, op, Source(c, op), op.dbase + c.edi, Span(op.sz, c.ecx))
  {
    MulSucc(op.sz, c.ecx - 1);
    SpanIsProduct(op.sz, c.ecx);
    hide Span, Accepts, Sliced, Repeat, LowBytes, Progress;
  }

  lemma NoSource(m: Flat, op: Op, s1: nat, s2: nat, dst: nat, n: nat)
    requires m.Valid() && op.Stos?
    ensures Reproducible(m, op, s1, dst, n) == Reproducible(m, op, s2, dst, n)
    ensures Ready(m, op, s1, dst, n) == Ready(m, op, s2, dst, n)
  {
    hide Vga.Valid;
  }

  lemma MemoryValid(c: Cpu)
    requires c.Valid()
    ensures c.mem.Valid()
  {
  }

  lemma BoundsOf(c: Cpu, op: Op)
    requires InMemory(c, op)
    ensures op.dbase + c.edi + Span(op.sz, c.ecx) <= |c.mem.data|
    ensures op.Movs? ==> Source(c, op) + Span(op.sz, c.ecx) <= |c.mem.data| && Source(c, op) == op.sbase + c.esi
  {
    SpanIsProduct(op.sz, c.ecx);
    hide Span;
  }

  lemma AcceptedShape(c: Cpu, op: Op, src: nat, dst: nat, n: nat)
    requires c.Valid() && n > 0 && Accepts(c, op, src, dst, n)
    ensures op.Movs? && c.mem.Planar(src) ==> src - APERTURE + n <= PLANE
    ensures c.mem.Planar(dst) ==> dst - APERTURE + n <= PLANE
    ensures op.Movs? && c.mem.Planar(src) && c.mem.Planar(dst) ==> c.mem.vga.value.CanWrite()
  {
  }

  lemma BulkCut(c: Cpu, op: Op)
    requires c.Valid() && op.Valid() && InMemory(c, op) && c.ecx > 0
    ensures var (n, src, dst, fill) := (op.sz * c.ecx, Source(c, op), op.dbase + c.edi, Repeat(LowBytes(c.eax, op.sz), c.ecx));
            n > 0 && |fill| == n && dst + n <= |c.mem.data| && (op.Movs? ==> src + n <= |c.mem.data|)
            && BulkString(c, op)
               == if Accepts(c, op, src, dst, n) then
                    AcceptedShape(c, op, src, dst, n);
                    Some(Progress(c, op, Sliced(c.mem, op, src, dst, n, fill), n, c.ecx))
                  else None
  {
    MulSucc(op.sz, c.ecx - 1);
    RepeatLength(op, c.eax, c.ecx);
    hide Accepts, Sliced, Repeat, LowBytes, Progress;
  }

  /** The slices follow the units. */
  predicate InStep386(c: Cpu, op: Op)
    requires c.Valid()
  {
    c.ecx == 0 || Reproducible(c.mem, op, op.sbase + c.esi, op.dbase + c.edi, op.sz * c.ecx)
  }

  /** The instruction copies an aperture range onto itself and the latches tell. */
  predicate ShowsSelfCopy(c: Cpu, op: Op)
    requires c.Valid()
  {
    c.ecx > 0 && SelfCopyShows(c.mem, op, op.sbase + c.esi, op.dbase + c.edi, op.sz * c.ecx)
  }

  /** Where the slices are as good as the loop. */
  predicate BulkSafe(c: Cpu, op: Op)
    requires c.Valid()
  {
    InStep386(c, op) && !ShowsSelfCopy(c, op)
  }

  lemma SafeTransfer(c: Cpu, op: Op)
    requires c.Valid() && c.ecx > 0 && InStep386(c, op)
    ensures c.mem.Valid() && Reproducible(c.mem, op, op.sbase + c.esi, op.dbase + c.edi, Span(op.sz, c.ecx))
    ensures ShowsSelfCopy(c, op) == SelfCopyShows(c.mem, op, op.sbase + c.esi, op.dbase + c.edi, Span(op.sz, c.ecx))
  {
    SpanIsProduct(op.sz, c.ecx);
    hide Span, Reproducible, SelfCopyShows;
  }

  lemma ReadyTransfer(c: Cpu, op: Op)
    requires c.Valid() && op.Valid() && InMemory(c, op) && c.ecx > 0 && BulkString(c, op).Some?
    requires Reproducible(c.mem, op, op.sbase + c.esi, op.dbase + c.edi, Span(op.sz, c.ecx))
    ensures Ready(c.mem, op, op.sbase + c.esi, op.dbase + c.edi, Span(op.sz, c.ecx))
  {
    hide *;
    MemoryValid(c);
    BulkAccepts(c, op);
    BoundsOf(c, op);
    if op.Stos? {
      NoSource(c.mem, op, Source(c, op), op.sbase + c.esi, op.dbase + c.edi, Span(op.sz, c.ecx));
    }
    AcceptedIsReady(c, op, Source(c, op), op.dbase + c.edi, Span(op.sz, c.ecx));
  }

  lemma BulkValue(c: Cpu, op: Op)
    requires c.Valid() && op.Valid() && InMemory(c, op) && c.ecx > 0 && BulkString(c, op).Some?
    requires SlicesAreLoop(c.mem, op, op.sbase + c.esi, op.dbase + c.edi, c.eax, c.ecx)
    ensures Memories(c, op, c.ecx).1.NoError?
    ensures BulkString(c, op).value == After(c, op, Memories(c, op, c.ecx).0, c.ecx)
            <==> !SelfCopyShows(c.mem, op, op.sbase + c.esi, op.dbase + c.edi, Span(op.sz, c.ecx))
  {
    FillLength(op, c.eax, c.ecx);
    hide Accepts, Repeat, LowBytes, Put, StoreRange, Latched, BulkCopy, LoopMemory, Span, SelfCopyShows;
  }

  lemma UnitsZero(c: Cpu, op: Op)
    requires c.Valid() && op.Valid() && InMemory(c, op) && c.ecx == 0
    ensures BulkString(c, op) == Some(Units(c, op, 0)) && !ShowsSelfCopy(c, op)
  {
  }

  /**
   Wherever the slices can follow the units, whatever memory, planes and latches hold: RAM,
   the four planes, the latches, ESI, EDI and ECX are what the REP loop leaves, and the loop
   raises nothing, if and only if no self-copy shows.
   */
  lemma InStepExact(c: Cpu, op: Op)
    requires c.Valid() && op.Valid() && InMemory(c, op) && c.error.NoError? && InStep386(c, op) && BulkString(c, op).Some?
    ensures BulkString(c, op).value == Units(c, op, c.ecx) <==> !ShowsSelfCopy(c, op)
  {
    hide *;
    if c.ecx == 0 {
      UnitsZero(c, op);
    } else {
      MemoryValid(c);
      var src, dst := op.sbase + c.esi, op.dbase + c.edi;
      SafeTransfer(c, op);
      ReadyTransfer(c, op);
      ReadyCase(c.mem, op, src, dst, c.eax, c.ecx);
      BulkValue(c, op);
      UnitsIsLoopMemory(c, op, c.ecx);
    }
  }

  /** So the fast path is exact on the safe instructions. */
  lemma BulkStringIsLoop(c: Cpu, op: Op)
    requires c.Valid() && op.Valid() && InMemory(c, op) && c.error.NoError? && BulkSafe(c, op)
    ensures BulkString(c, op).Some? ==> BulkString(c, op).value == Units(c, op, c.ecx)
  {
    hide BulkString, Units, InStep386, ShowsSelfCopy, InMemory;
    if BulkString(c, op).Some? {
      InStepExact(c, op);
    }
  }

  /** The whole instruction: slices when `_bulk_string` takes it, the loop otherwise. */
  function RepString(c: Cpu, op: Op): (r: Cpu)
    requires c.Valid() && op.Valid() && InMemory(c, op)
  {
    match BulkString(c, op)
    case Some(r) => r
    case None => Units(c, op, c.ecx)
  }
}
