/**
 REP MOVS and REP STOS on the 8086: the bulk fast path against the element loop.
 */
module StringOps {
  import opened Blocks
  import opened Memory
  import opened EgaPlanes
  import opened RealModeMemory

  datatype Op = Movs | Stos

  /** The machine state a string instruction can touch; `src` is DS or its override. */
  datatype Cpu = Cpu(mem: Mem, ax: nat, cx: nat, si: nat, di: nat, es: nat, src: nat, df: bool) {
    predicate Valid() {
      mem.Valid() && ax < 0x1_0000 && cx < 0x1_0000 && si < 0x1_0000 && di < 0x1_0000
    }
  }

  function Delta(df: bool, w: nat): int {
    if df then 0 - w else w
  }

  /** AX or AL as the bytes a STOS element stores. */
  function Accumulator(ax: nat, w: nat): (p: seq<Byte>)
    requires w == 1 || w == 2
    ensures |p| == w
  {
    if w == 1 then [ax % 256] else [ax % 256, ax / 256 % 256]
  }

  function StoreElement(m: Mem, seg: nat, off: nat, p: seq<Byte>): (r: Mem)
    requires m.Valid() && (|p| == 1 || |p| == 2)
    ensures r.Valid()
  {
    if |p| == 1 then Wb(m, seg, off, p[0]) else Ww(m, seg, off, (p[0], p[1]))
  }

  function LoadElement(m: Mem, seg: nat, off: nat, w: nat): (r: (seq<Byte>, Mem))
    requires m.Valid() && (w == 1 || w == 2)
    ensures r.1.Valid() && |r.0| == w
  {
    if w == 1 then var (b, m') := Rb(m, seg, off); ([b], m')
    else var (v, m') := Rw(m, seg, off); ([v.0, v.1], m')
  }

  /** One MOVS or STOS element. A refused EGA write leaves SI and DI where they were. */
  function Element(c: Cpu, op: Op, w: nat): (r: Cpu)
    requires c.Valid() && (w == 1 || w == 2)
    ensures r.Valid() && r.cx == c.cx
  {
    match op
    case Movs =>
      var (p, m) := LoadElement(c.mem, c.src, c.si, w);
      var m' := StoreElement(m, c.es, c.di, p);
      if m'.raised then c.(mem := m')
      else c.(mem := m', si := (c.si + Delta(c.df, w)) % 0x1_0000, di := (c.di + Delta(c.df, w)) % 0x1_0000)
    case Stos =>
      var m' := StoreElement(c.mem, c.es, c.di, Accumulator(c.ax, w));
      if m'.raised then c.(mem := m') else c.(mem := m', di := (c.di + Delta(c.df, w)) % 0x1_0000)
  }

  /** The element loop of a repeated instruction. */
  function RepLoop(c: Cpu, op: Op, w: nat, count: nat): (r: Cpu)
    requires c.Valid() && (w == 1 || w == 2)
    ensures r.Valid()
    decreases count
  {
    if count == 0 then c
    else
      var c' := Element(c, op, w);
      if c'.mem.raised then c' else RepLoop(c'.(cx := (c'.cx - 1) % 0x1_0000), op, w, count - 1)
  }

  /** What the instruction means: no fast path anywhere. */
  function Exact(c: Cpu, op: Op, w: nat, rep: bool): (r: Cpu)
    requires c.Valid() && (w == 1 || w == 2)
    ensures r.Valid()
  {
    if rep then RepLoop(c, op, w, c.cx) else Element(c, op, w)
  }

  // ---- elements inside an ordinary range --------------------------------------------

  lemma LoadOrdinary(m: Mem, seg: nat, off: nat, n: nat, w: nat, writable: bool)
    requires m.Valid() && w <= n && (w == 1 || w == 2) && OrdinaryRange(m, seg, off, n, writable).Some?
    ensures var a := Linear(seg, off); LoadElement(m, seg, off, w) == (m.data[a..a + w], m)
  {
    hide Linear, OrdinaryRange, Rb, Rw;
    var a := Linear(seg, off);
    if w == 1 {
      ReadByteOrdinary(m, seg, off, n, writable);
      assert m.data[a..a + 1] == [m.data[a]];
    } else {
      ReadWordOrdinary(m, seg, off, n, writable);
      assert m.data[a..a + 2] == [m.data[a], m.data[a + 1]];
    }
  }

  lemma StoreOrdinary(m: Mem, seg: nat, off: nat, n: nat, p: seq<Byte>)
    requires m.Valid() && |p| <= n && (|p| == 1 || |p| == 2) && OrdinaryRange(m, seg, off, n, true).Some?
    ensures StoreElement(m, seg, off, p) == m.(data := Put(m.data, Linear(seg, off), p))
  {
    hide Linear, OrdinaryRange, Wb, Ww, Put;
    if |p| == 1 {
      WriteByteOrdinary(m, seg, off, n, p[0]);
      assert p == [p[0]];
    } else {
      WriteWordOrdinary(m, seg, off, n, p[0], p[1]);
      assert p == [p[0], p[1]];
    }
  }

  /** The ranges of a copy of `n` bytes are both ordinary. */
  predicate CopyRanges(c: Cpu, n: nat)
    requires c.Valid()
  {
    OrdinaryRange(c.mem, c.src, c.si, n, false).Some? && OrdinaryRange(c.mem, c.es, c.di, n, true).Some?
  }

  /** The state after `k` elements, `n` bytes in all, have gone by upwards, leaving memory `data`. */
  function Advanced(c: Cpu, op: Op, data: seq<Byte>, n: nat, k: nat): Cpu {
    Cpu(c.mem.(data := data), c.ax, (c.cx - k) % 0x1_0000,
        if op.Movs? then (c.si + n) % 0x1_0000 else c.si, (c.di + n) % 0x1_0000, c.es, c.src, c.df)
  }

  lemma CopyElement(c: Cpu, w: nat, n: nat)
    requires c.Valid() && (w == 1 || w == 2) && w <= n && CopyRanges(c, n) && !c.df && !c.mem.raised
    ensures var d := Move(c.mem.data, Linear(c.src, c.si), Linear(c.es, c.di), w);
            Element(c, Movs, w)
            == c.(mem := c.mem.(data := d), si := (c.si + w) % 0x1_0000, di := (c.di + w) % 0x1_0000)
  {
    hide Linear, OrdinaryRange, LoadElement, StoreElement, Put;
    LoadOrdinary(c.mem, c.src, c.si, n, w, false);
    StoreOrdinary(c.mem, c.es, c.di, n, c.mem.data[Linear(c.src, c.si)..Linear(c.src, c.si) + w]);
  }

  lemma FillElement(c: Cpu, w: nat, n: nat)
    requires c.Valid() && (w == 1 || w == 2) && w <= n && !c.df && !c.mem.raised
    requires OrdinaryRange(c.mem, c.es, c.di, n, true).Some?
    ensures var d := Put(c.mem.data, Linear(c.es, c.di), Accumulator(c.ax, w));
            Element(c, Stos, w) == c.(mem := c.mem.(data := d), di := (c.di + w) % 0x1_0000)
  {
    hide Linear, OrdinaryRange, StoreElement, Put;
    StoreOrdinary(c.mem, c.es, c.di, n, Accumulator(c.ax, w));
  }

  lemma RangeNext(m: Mem, seg: nat, off: nat, n: nat, writable: bool, w: nat, data: seq<Byte>)
    requires m.Valid() && OrdinaryRange(m, seg, off, n, writable).Some? && w < n && |data| == MEM_SIZE
    ensures var off' := (off + w) % 0x1_0000;
            Linear(seg, off') == Linear(seg, off) + w
            && OrdinaryRange(m.(data := data), seg, off', n - w, writable).Some?
  {
    hide Linear;
    RangeTail(m, seg, off, n, writable, w, data);
    LinearMod(seg, off + w);
    LinearMod(seg, (off + w) % 0x1_0000);
  }

  lemma AdvanceOnce(c: Cpu, op: Op, d: seq<Byte>, e: seq<Byte>, w: nat, n: nat, k: nat)
    requires k > 0
    ensures Advanced(Advanced(c, op, d, w, 1), op, e, n, k - 1) == Advanced(c, op, e, w + n, k)
  {
    ModAdd(c.si, w, n);
    ModAdd(c.di, w, n);
    ModAdd(c.cx, -1, 1 - k);
  }

  lemma ModAdd(x: int, a: int, b: int)
    ensures ((x + a) % 0x1_0000 + b) % 0x1_0000 == (x + a + b) % 0x1_0000
  {
  }

  lemma {:induction false} CopyLoop(c: Cpu, w: nat, count: nat)
    requires c.Valid() && (w == 1 || w == 2) && CopyRanges(c, w * count) && !c.df && !c.mem.raised && count > 0
    ensures var (src, dst) := (Linear(c.src, c.si), Linear(c.es, c.di));
            RepLoop(c, Movs, w, count)
            == Advanced(c, Movs, MoveUnits(c.mem.data, src, dst, w, count), w * count, count)
    decreases count
  {
    hide Linear, OrdinaryRange, Element, Move;
    var (src, dst) := (Linear(c.src, c.si), Linear(c.es, c.di));
    var d := Move(c.mem.data, src, dst, w);
    var c1 := Advanced(c, Movs, d, w, 1);
    MulSucc(w, count - 1);
    CopyElement(c, w, w * count);
    if count > 1 {
      RangeNext(c.mem, c.src, c.si, w * count, false, w, d);
      RangeNext(c.mem, c.es, c.di, w * count, true, w, d);
      CopyLoop(c1, w, count - 1);
      AdvanceOnce(c, Movs, d, MoveUnits(d, src + w, dst + w, w, count - 1), w, w * (count - 1), count);
    }
  }

  lemma {:induction false} FillLoop(c: Cpu, w: nat, count: nat)
    requires c.Valid() && (w == 1 || w == 2) && !c.df && !c.mem.raised && count > 0
    requires OrdinaryRange(c.mem, c.es, c.di, w * count, true).Some?
    ensures RepLoop(c, Stos, w, count)
            == Advanced(c, Stos, FillUnits(c.mem.data, Linear(c.es, c.di), Accumulator(c.ax, w), count), w * count, count)
    decreases count
  {
    hide Linear, OrdinaryRange, Element, Put, Accumulator;
    var (dst, p) := (Linear(c.es, c.di), Accumulator(c.ax, w));
    var d := Put(c.mem.data, dst, p);
    var c1 := Advanced(c, Stos, d, w, 1);
    MulSucc(w, count - 1);
    FillElement(c, w, w * count);
    if count > 1 {
      RangeNext(c.mem, c.es, c.di, w * count, true, w, d);
      FillLoop(c1, w, count - 1);
      AdvanceOnce(c, Stos, d, FillUnits(d, dst + w, p, count - 1), w, w * (count - 1), count);
    }
  }

  // ---- the instruction, in place ---------------------------------------------------

  // ---- byte by byte --------------------------------------------------------------------------

  /** Where a pointer goes: up, or down when DF is set. */
  predicate Stepped(before: nat, after: nat, df: bool, w: nat) {
    after == (before + if df then 0 - w else w) % 0x1_0000
  }

  /** Memory, pointers and registers after one element; an unsupported write leaves the pointers. */
  ghost predicate ElementLeaves(c: Cpu, op: Op, w: nat, r: Cpu) {
    c.Valid() && r == c.(mem := r.mem, si := r.si, di := r.di)
    && (if r.mem.raised then r.si == c.si && r.di == c.di
        else Stepped(c.di, r.di, c.df, w) && if op.Movs? then Stepped(c.si, r.si, c.df, w) else r.si == c.si)
    && match op
       case Stos =>
         if w == 1 then ByteWritten(c.mem, c.es, c.di, c.ax % 0x100, r.mem)
         else WordWritten(c.mem, c.es, c.di, c.ax % 0x100, c.ax / 0x100 % 0x100, r.mem)
       case Movs =>
         if w == 1 then exists v: Byte, m :: ByteRead(c.mem, c.src, c.si, v, m) && ByteWritten(m, c.es, c.di, v, r.mem)
         else exists lo: Byte, hi: Byte, m :: WordRead(c.mem, c.src, c.si, lo, hi, m) && WordWritten(m, c.es, c.di, lo, hi, r.mem)
  }

  lemma StosMemory(c: Cpu, w: nat)
    requires c.Valid() && (w == 1 || w == 2)
    ensures var m := StoreElement(c.mem, c.es, c.di, Accumulator(c.ax, w));
            if w == 1 then ByteWritten(c.mem, c.es, c.di, c.ax % 0x100, m)
            else WordWritten(c.mem, c.es, c.di, c.ax % 0x100, c.ax / 0x100 % 0x100, m)
  {
    WbMeans(c.mem, c.es, c.di, c.ax % 0x100);
    WwMeans(c.mem, c.es, c.di, c.ax % 0x100, c.ax / 0x100 % 0x100);
    hide Wb, Ww, ByteWritten, WordWritten;
  }

  lemma MovsMemory(c: Cpu, w: nat)
    requires c.Valid() && (w == 1 || w == 2)
    ensures var (p, m) := LoadElement(c.mem, c.src, c.si, w);
            if w == 1 then
              ByteRead(c.mem, c.src, c.si, p[0], m) && ByteWritten(m, c.es, c.di, p[0], StoreElement(m, c.es, c.di, p))
            else WordRead(c.mem, c.src, c.si, p[0], p[1], m) && WordWritten(m, c.es, c.di, p[0], p[1], StoreElement(m, c.es, c.di, p))
  {
    var (p, m) := LoadElement(c.mem, c.src, c.si, w);
    if w == 1 {
      RbMeans(c.mem, c.src, c.si);
      WbMeans(m, c.es, c.di, p[0]);
    } else {
      RwMeans(c.mem, c.src, c.si);
      WwMeans(m, c.es, c.di, p[0], p[1]);
    }
    hide Rb, Rw, Wb, Ww, ByteWritten, WordWritten, ByteRead, WordRead;
  }

  lemma ElementMeans(c: Cpu, op: Op, w: nat)
    requires c.Valid() && (w == 1 || w == 2)
    ensures ElementLeaves(c, op, w, Element(c, op, w))
  {
    hide LoadElement, StoreElement, Accumulator, ByteWritten, WordWritten, ByteRead, WordRead;
    if op.Stos? {
      StosMemory(c, w);
    } else {
      MovsMemory(c, w);
    }
  }

  /** A forward repetition over `n` bytes that are all ordinary and, for a copy, read before they are overwritten. */
  ghost predicate Straight(c: Cpu, op: Op, n: nat) {
    c.Valid() && !c.df && !c.mem.raised && c.cx > 0
    && (forall i: nat :: i < n ==> Ordinary(c.mem, c.es, c.di, i, true))
    && (op.Movs? ==> (forall i: nat :: i < n ==> Ordinary(c.mem, c.src, c.si, i, false))
                     && !(Address(c.src, c.si) < Address(c.es, c.di) < Address(c.src, c.si) + n))
  }

  /** Every byte in [dst, dst + n) is the source's, or the low and the high byte of AX in turn; no other changes. */
  ghost predicate Landed(d: seq<Byte>, r: seq<Byte>, op: Op, src: nat, dst: nat, n: nat, ax: nat, w: nat) {
    (w == 1 || w == 2) && |r| == |d|
    && forall i :: 0 <= i < |d| ==>
         r[i] == if !(dst <= i < dst + n) then d[i]
                 else if op.Movs? then (if src + i - dst < |d| then d[src + i - dst] else 0)
                 else if (i - dst) % w == 0 then ax % 0x100 else ax / 0x100 % 0x100
  }

  /** The bytes have landed, the pointers have moved on and CX is used up. */
  ghost predicate RepLeaves(c: Cpu, op: Op, w: nat, n: nat, r: Cpu) {
    r == c.(mem := c.mem.(data := r.mem.data), cx := 0, di := (c.di + n) % 0x1_0000,
            si := if op.Movs? then (c.si + n) % 0x1_0000 else c.si)
    && Landed(c.mem.data, r.mem.data, op, Address(c.src, c.si), Address(c.es, c.di), n, c.ax, w)
  }

  lemma StraightRanges(c: Cpu, op: Op, n: nat)
    requires Straight(c, op, n) && n > 0
    ensures OrdinaryRange(c.mem, c.es, c.di, n, true).Some? && Address(c.es, c.di) == Linear(c.es, c.di)
    ensures Address(c.src, c.si) == Linear(c.src, c.si)
    ensures op.Movs? ==> CopyRanges(c, n) && SafeForward(Linear(c.src, c.si), Linear(c.es, c.di), n)
  {
    AddressIs(c.es, c.di);
    AddressIs(c.src, c.si);
    OrdinaryExactly(c.mem, c.es, c.di, n, true);
    OrdinaryExactly(c.mem, c.src, c.si, n, false);
    hide Ordinary, OrdinaryRange, Linear, Address;
  }

  lemma StraightValid(c: Cpu, op: Op, n: nat)
    requires Straight(c, op, n)
    ensures c.Valid() && !c.df && !c.mem.raised && c.cx > 0
  {
  }

  lemma FillBytes(d: seq<Byte>, src: nat, dst: nat, ax: nat, w: nat, k: nat, n: nat)
    requires (w == 1 || w == 2) && n == |Repeat(Accumulator(ax, w), k)| && dst + n <= |d|
    ensures Landed(d, Put(d, dst, Repeat(Accumulator(ax, w), k)), Stos, src, dst, n, ax, w)
  {
    var r := Put(d, dst, Repeat(Accumulator(ax, w), k));
    forall i | 0 <= i < |d|
      ensures r[i] == if !(dst <= i < dst + n) then d[i] else if (i - dst) % w == 0 then ax % 0x100 else ax / 0x100 % 0x100
    {
      if dst <= i < dst + n {
        RepeatAt(Accumulator(ax, w), k, i - dst);
      }
    }
    hide Repeat, Accumulator;
  }

  lemma FillLoopIs(c: Cpu, w: nat, n: nat)
    requires c.Valid() && (w == 1 || w == 2) && !c.df && !c.mem.raised && c.cx > 0 && n == w * c.cx
    requires OrdinaryRange(c.mem, c.es, c.di, n, true).Some?
    ensures var (dst, x) := (Linear(c.es, c.di), Repeat(Accumulator(c.ax, w), c.cx));
            |x| == n && dst + n <= |c.mem.data| && RepLoop(c, Stos, w, c.cx) == Advanced(c, Stos, Put(c.mem.data, dst, x), n, c.cx)
  {
    FillLoop(c, w, c.cx);
    FillUnitsIsPut(c.mem.data, Linear(c.es, c.di), Accumulator(c.ax, w), c.cx);
    hide Linear, OrdinaryRange, RepLoop, FillUnits, Put, Advanced, Accumulator, Repeat;
  }

  /** A forward repetition that left `data`. */
  lemma AdvancedLeaves(c: Cpu, op: Op, w: nat, n: nat, data: seq<Byte>)
    requires c.Valid() && Landed(c.mem.data, data, op, Address(c.src, c.si), Address(c.es, c.di), n, c.ax, w)
    ensures RepLeaves(c, op, w, n, Advanced(c, op, data, n, c.cx))
  {
    hide Address, Landed;
  }

  lemma FillLeaves(c: Cpu, w: nat, n: nat)
    requires (w == 1 || w == 2) && n == w * c.cx && n > 0 && Straight(c, Stos, n)
    ensures RepLeaves(c, Stos, w, n, RepLoop(c, Stos, w, c.cx))
  {
    hide *;
    StraightValid(c, Stos, n);
    StraightRanges(c, Stos, n);
    FillLoopIs(c, w, n);
    FillBytes(c.mem.data, Linear(c.src, c.si), Linear(c.es, c.di), c.ax, w, c.cx, n);
    AdvancedLeaves(c, Stos, w, n, Put(c.mem.data, Linear(c.es, c.di), Repeat(Accumulator(c.ax, w), c.cx)));
  }

  lemma CopyLoopIs(c: Cpu, w: nat, n: nat)
    requires c.Valid() && (w == 1 || w == 2) && !c.df && !c.mem.raised && c.cx > 0 && n == w * c.cx
    requires CopyRanges(c, n) && SafeForward(Linear(c.src, c.si), Linear(c.es, c.di), n)
    ensures var (src, dst) := (Linear(c.src, c.si), Linear(c.es, c.di));
            src + n <= |c.mem.data| && dst + n <= |c.mem.data|
            && RepLoop(c, Movs, w, c.cx) == Advanced(c, Movs, Move(c.mem.data, src, dst, n), n, c.cx)
  {
    CopyLoop(c, w, c.cx);
    UnitsAreMove(c.mem.data, Linear(c.src, c.si), Linear(c.es, c.di), w, c.cx);
    hide Linear, OrdinaryRange, RepLoop, MoveUnits, Move, Advanced, SafeForward;
  }

  lemma MovedBytes(d: seq<Byte>, src: nat, dst: nat, n: nat, ax: nat, w: nat)
    requires src + n <= |d| && dst + n <= |d| && (w == 1 || w == 2)
    ensures Landed(d, Move(d, src, dst, n), Movs, src, dst, n, ax, w)
  {
  }

  lemma CopyLeaves(c: Cpu, w: nat, n: nat)
    requires (w == 1 || w == 2) && n == w * c.cx && n > 0 && Straight(c, Movs, n)
    ensures RepLeaves(c, Movs, w, n, RepLoop(c, Movs, w, c.cx))
  {
    hide *;
    StraightValid(c, Movs, n);
    StraightRanges(c, Movs, n);
    CopyLoopIs(c, w, n);
    MovedBytes(c.mem.data, Linear(c.src, c.si), Linear(c.es, c.di), n, c.ax, w);
    AdvancedLeaves(c, Movs, w, n, Move(c.mem.data, Linear(c.src, c.si), Linear(c.es, c.di), n));
  }

  /** What the instruction leaves, element or repetition. */
  ghost predicate Executed(c: Cpu, op: Op, w: nat, rep: bool, r: Cpu) {
    (!rep ==> ElementLeaves(c, op, w, r)) && (rep && Straight(c, op, w * c.cx) ==> RepLeaves(c, op, w, w * c.cx, r))
  }

  lemma ExactExecutes(c: Cpu, op: Op, w: nat, rep: bool)
    requires c.Valid() && (w == 1 || w == 2)
    ensures Executed(c, op, w, rep, Exact(c, op, w, rep))
  {
    hide ElementLeaves, RepLeaves, Straight, Element, RepLoop;
    ElementMeans(c, op, w);
    if rep && Straight(c, op, w * c.cx) {
      StraightValid(c, op, w * c.cx);
      MulSucc(w, c.cx - 1);
      if op.Stos? {
        FillLeaves(c, w, w * c.cx);
      } else {
        CopyLeaves(c, w, w * c.cx);
      }
    }
  }

  class Cpu8086 {
    const mem: RealMemory
    var ax: nat
    var cx: nat
    var si: nat
    var di: nat
    var es: nat
    var src: nat
    var df: bool

    constructor (mem: RealMemory, c: Cpu)
      ensures this.mem == mem && ax == c.ax && cx == c.cx && si == c.si && di == c.di
      ensures es == c.es && src == c.src && df == c.df
    {
      this.mem := mem;
      ax, cx, si, di, es, src, df := c.ax, c.cx, c.si, c.di, c.es, c.src, c.df;
    }

    ghost predicate Valid()
      reads this, mem, mem.data
    {
      mem.Valid() && ax < 0x1_0000 && cx < 0x1_0000 && si < 0x1_0000 && di < 0x1_0000
    }

    ghost function State(): (c: Cpu)
      reads this, mem, mem.data
      requires Valid()
      ensures c.Valid()
    {
      Cpu(mem.State(), ax, cx, si, di, es, src, df)
    }

    /** One element of MOVS or STOS. */
    method Step(op: Op, w: nat)
      requires Valid() && (w == 1 || w == 2) && !mem.raised
      modifies this, mem, mem.data
      ensures Valid() && State() == Element(old(State()), op, w)
    {
      hide ByteRead, WordRead, ByteWritten, WordWritten;
      hide Linear, Memory.Rb, Memory.Rw, Memory.Wb, Memory.Ww, Delta;
      var delta := Delta(df, w);
      if op.Movs? {
        if w == 1 {
          var v := mem.Rb(src, si);
          mem.Wb(es, di, v);
        } else {
          var lo, hi := mem.Rw(src, si);
          mem.Ww(es, di, lo, hi);
        }
      } else if w == 1 {
        mem.Wb(es, di, ax % 256);
      } else {
        mem.Ww(es, di, ax % 256, ax / 256 % 256);
      }
      if !mem.raised {
        if op.Movs? {
          si := (si + delta) % 0x1_0000;
        }
        di := (di + delta) % 0x1_0000;
      }
    }

    /** The bulk attempt for a long forward REP; `done` says the whole instruction is finished. */
    method TryBulk(op: Op, w: nat) returns (done: bool)
      requires Valid() && (w == 1 || w == 2) && !mem.raised && !df && cx > 0
      modifies this, mem.data
      ensures Valid() && State() == if done then RepLoop(old(State()), op, w, old(cx)) else old(State())
    {
      hide RepLoop, TryFill, TryCopy, Accumulator;
      ghost var c := State();
      var n := w * cx;
      MulSucc(w, cx - 1);
      if op.Stos? {
        done := mem.TryForwardBulkFill(es, di, Accumulator(ax, w), cx);
        if done {
          BulkFillIsLoop(c, w);
        }
      } else {
        done := mem.TryForwardBulkCopy(src, si, es, di, n);
        if done {
          BulkCopyIsLoop(c, w);
          si := (si + n) % 0x1_0000;
        }
      }
      if done {
        di := (di + n) % 0x1_0000;
        cx := 0;
      }
    }

    /** A forward REP of more than eight elements tries a slice first. */
    method Repeat(op: Op, w: nat)
      requires Valid() && (w == 1 || w == 2) && !mem.raised
      modifies this, mem, mem.data
      ensures Valid() && State() == RepLoop(old(State()), op, w, old(cx))
    {
      hide Element;
      ghost var c := State();
      var count := cx;
      if count > 8 && !df {
        var done := TryBulk(op, w);
        if done {
          return;
        }
      }
      while count > 0
        invariant Valid() && count >= 0 && !mem.raised
        invariant RepLoop(State(), op, w, count) == RepLoop(c, op, w, c.cx)
      {
        Step(op, w);
        if mem.raised {
          return;
        }
        cx := (cx - 1) % 0x1_0000;
        count := count - 1;
      }
    }

    method StringOp(op: Op, w: nat, rep: bool)
      requires Valid() && (w == 1 || w == 2) && !mem.raised
      modifies this, mem, mem.data
      ensures Valid() && State() == Exact(old(State()), op, w, rep)
      ensures Executed(old(State()), op, w, rep, State())
    {
      ExactExecutes(State(), op, w, rep);
      hide Element, RepLoop, Executed;
      if rep {
        Repeat(op, w);
      } else {
        Step(op, w);
      }
    }
  }

  /** The guarded slice copy is the element loop, for either width and any count. */
  lemma BulkCopyIsLoop(c: Cpu, w: nat)
    requires c.Valid() && (w == 1 || w == 2) && !c.df && !c.mem.raised && c.cx > 0
    requires TryCopy(c.mem, c.src, c.si, c.es, c.di, w * c.cx).Some?
    ensures var n := w * c.cx;
            RepLoop(c, Movs, w, c.cx)
            == c.(mem := TryCopy(c.mem, c.src, c.si, c.es, c.di, n).value, cx := 0,
                  si := (c.si + n) % 0x1_0000, di := (c.di + n) % 0x1_0000)
  {
    hide Linear, OrdinaryRange, RepLoop, Move, MoveUnits;
    MulSucc(w, c.cx - 1);
    CopyLoop(c, w, c.cx);
    UnitsAreMove(c.mem.data, Linear(c.src, c.si), Linear(c.es, c.di), w, c.cx);
  }

  lemma BulkFillIsLoop(c: Cpu, w: nat)
    requires c.Valid() && (w == 1 || w == 2) && !c.df && !c.mem.raised && c.cx > 0
    requires TryFill(c.mem, c.es, c.di, Accumulator(c.ax, w), c.cx).Some?
    ensures RepLoop(c, Stos, w, c.cx)
            == c.(mem := TryFill(c.mem, c.es, c.di, Accumulator(c.ax, w), c.cx).value, cx := 0,
                  di := (c.di + w * c.cx) % 0x1_0000)
  {
    hide Linear, OrdinaryRange, RepLoop, Put, FillUnits, Repeat, Accumulator;
    MulSucc(w, c.cx - 1);
    FillLoop(c, w, c.cx);
    FillUnitsIsPut(c.mem.data, Linear(c.es, c.di), Accumulator(c.ax, w), c.cx);
  }
}
