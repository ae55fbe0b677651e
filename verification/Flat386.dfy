/** The 386's registers and the REP forms of MOVS and STOS over flat memory. */
module Flat386 {
  import opened Blocks
  import opened Memory
  import opened PlanarVga
  import opened VgaDevice
  import opened FlatString
  import opened FlatExact
  import opened FlatBytes
  import opened FlatMachine

  class CPU386 {
    const mem: FlatMemory
    var eax: nat
    var ecx: nat
    var esi: nat
    var edi: nat

    constructor (memory: FlatMemory)
      ensures mem == memory && eax == 0 && ecx == 0 && esi == 0 && edi == 0
    {
      mem := memory;
      eax, ecx, esi, edi := 0, 0, 0, 0;
    }

    ghost predicate Valid()
      reads this, mem.Repr()
    {
      this !in mem.Repr() && mem.Valid() && eax < WORD32 && ecx < WORD32 && esi < WORD32 && edi < WORD32
    }

    /** The abstract state, with the exception in flight. */
    ghost function State(error: Error): (c: Cpu)
      reads this, mem.Repr()
      requires Valid()
      ensures c.Valid()
    {
      Cpu.Cpu(mem.State(), eax, ecx, esi, edi, error)
    }

    method Transfer(op: Op, src: nat, dst: nat) returns (error: Error)
      requires Valid()
      modifies mem.Repr()
      ensures Valid() && (mem.State(), error) == old(FlatString.Transfer(mem.State(), op, src, dst, eax))
    {
      hide ReadUnit, WriteUnit;
      var x: seq<Byte>;
      if op.Movs? {
        error, x := mem.Read(src, op.sz);
        if error != NoError {
          return;
        }
      } else {
        x := LowBytes(eax, op.sz);
      }
      error := mem.Write(dst, x);
    }

    /** One unit. */
    method Once(op: Op) returns (error: Error)
      requires Valid()
      modifies this`esi, this`edi, mem.Repr()
      ensures Valid() && State(error) == Unit(old(State(NoError)), op)
      ensures StraightString(old(State(NoError)), op, op.sz) ==> StringLeaves(old(State(NoError)), op, op.sz, ecx, State(error))
    {
      hide FlatString.Transfer, StraightString, StringLeaves;
      UnitLeavesIf(State(NoError), op);
      error := Transfer(op, op.sbase + esi, op.dbase + edi);
      if error != NoError {
        return;
      }
      if op.Movs? {
        esi := (esi + op.sz) % WORD32;
      }
      edi := (edi + op.sz) % WORD32;
    }

    /** `while ecx != 0: once(); ecx -= 1` */
    method Loop(op: Op) returns (error: Error)
      requires Valid()
      modifies this`esi, this`edi, this`ecx, mem.Repr()
      ensures Valid() && State(error) == old(Units(State(NoError), op, ecx))
    {
      hide Unit, Units, Vga.Valid, StraightString, StringLeaves;
      error := NoError;
      ghost var k := 0;
      assert Units(State(NoError), op, 0) == State(NoError) by { UnitsStart(State(NoError), op); }
      while ecx != 0
        invariant Valid() && error == NoError && ecx + k == old(ecx)
        invariant State(NoError) == old(Units(State(NoError), op, k))
      {
        ghost var before := State(NoError);
        error := Once(op);
        UnitsOnce(old(State(NoError)), op, k);
        if error != NoError {
          UnitsStop(old(State(NoError)), op, k + 1, old(ecx));
          return;
        }
        UnitKeepsCount(before, op);
        ecx := ecx - 1;
        k := k + 1;
      }
    }

    /** The source range as one slice; a planar source also leaves its last column in the latches. */
    method Gather(src: nat, n: nat) returns (x: seq<Byte>)
      requires Valid() && n > 0 && src + n <= mem.data.Length && (mem.Planar(src) ==> src - APERTURE + n <= PLANE)
      modifies mem.Repr()
      ensures Valid() && |x| == n
      ensures (mem.State(), x) == old(GatheredFrom(mem.State(), src, n))
    {
      if mem.Planar(src) {
        x := mem.vga.Slice(mem.vga.readMap % 4, src - APERTURE, n);
        mem.vga.LoadLatches(src - APERTURE + n - 1);
      } else {
        x := mem.data[src..src + n];
      }
    }

    method Scatter(dst: nat, x: seq<Byte>)
      requires Valid() && dst + |x| <= mem.data.Length && (mem.Planar(dst) ==> dst - APERTURE + |x| <= PLANE)
      modifies mem.Repr()
      ensures Valid() && mem.State() == old(ScatteredTo(mem.State(), dst, x))
    {
      hide Put, StoreRange;
      if mem.Planar(dst) {
        mem.StorePlanes(dst - APERTURE, x);
      } else {
        mem.StoreRam(dst, x);
      }
    }

    /** The transfer itself, once the guards have passed. */
    method Slices(op: Op, src: nat, dst: nat, n: nat, fill: seq<Byte>)
      requires Valid() && n > 0 && |fill| == n && dst + n <= mem.data.Length
      requires op.Movs? ==> src + n <= mem.data.Length
      requires op.Movs? && mem.Planar(src) ==> src - APERTURE + n <= PLANE
      requires mem.Planar(dst) ==> dst - APERTURE + n <= PLANE
      requires op.Movs? && mem.Planar(src) && mem.Planar(dst) ==> mem.vga.State().CanWrite()
      modifies mem.Repr()
      ensures Valid() && mem.State() == old(Sliced(mem.State(), op, src, dst, n, fill))
    {
      hide BulkCopy, GatheredFrom, ScatteredTo, Sliced;
      SlicedInSteps(mem.State(), op, src, dst, n, fill);
      if op.Movs? && mem.Planar(src) && mem.Planar(dst) {
        var error := mem.vga.BulkCopy(src - APERTURE, dst - APERTURE, n);
      } else {
        var x := fill;
        if op.Movs? {
          GatheredShape(mem.State(), src, n);
          x := Gather(src, n);
        }
        Scatter(dst, x);
      }
    }

    /** Take the slices if every guard passes; otherwise touch nothing. */
    method BulkString(op: Op) returns (done: bool)
      requires Valid() && op.Valid() && InMemory(State(NoError), op)
      modifies this`esi, this`edi, this`ecx, mem.Repr()
      ensures Valid() && done == old(FlatString.BulkString(State(NoError), op)).Some?
      ensures State(NoError) == old(match FlatString.BulkString(State(NoError), op) case Some(r) => r case None => State(NoError))
    {
      hide FlatString.BulkString, InMemory, Accepts, Sliced, Repeat, LowBytes;
      ghost var before := State(NoError);
      BulkNothing(before, op);
      if ecx == 0 {
        return true;
      }
      BulkCut(before, op);
      var n := op.sz * ecx;
      var dst := op.dbase + edi;
      var src := if op.Movs? then op.sbase + esi else 0;
      done := Guards(op, src, dst, n);
      if !done {
        return;
      }
      AcceptedShape(before, op, src, dst, n);
      Slices(op, src, dst, n, Repeat(LowBytes(eax, op.sz), ecx));
      if op.Movs? {
        esi := (esi + n) % WORD32;
      }
      edi := (edi + n) % WORD32;
      ecx := 0;
    }

    /** The guards, in order. */
    method Guards(op: Op, src: nat, dst: nat, n: nat) returns (ok: bool)
      requires Valid() && n > 0
      ensures ok == Accepts(State(NoError), op, src, dst, n)
    {
      if mem.Planar(dst) != mem.Planar(dst + n - 1) {
        return false;
      }
      var to, from := mem.Planar(dst), false;
      if op.Movs? {
        if mem.Planar(src) != mem.Planar(src + n - 1) {
          return false;
        }
        from := mem.Planar(src);
      }
      if to || from {
        if mem.vga.bitMask != 0xFF {
          return false;
        }
        if to && mem.vga.writeMode != 0 && mem.vga.writeMode != 1 {
          return false;
        }
      }
      if op.Movs? && from && to {
        return true;
      }
      if op.Movs? && !from && !to && src < dst < src + n {
        return false;
      }
      if from && src - APERTURE + n > PLANE {
        return false;
      }
      if to && (mem.vga.writeMode == 1 || dst - APERTURE + n > PLANE) {
        return false;
      }
      return true;
    }

    /** Forward REP MOVS or STOS with 32-bit addressing. */
    method StringOp(op: Op) returns (error: Error)
      requires Valid() && op.Valid() && InMemory(State(NoError), op)
      modifies this`esi, this`edi, this`ecx, mem.Repr()
      ensures Valid() && State(error) == old(RepString(State(NoError), op))
      ensures old(BulkSafe(State(NoError), op)) ==> State(error) == old(Units(State(NoError), op, ecx))
      ensures Executed(old(State(NoError)), op, State(error))
    {
      BulkStringIsLoopIf(State(NoError), op);
      RepExecuted(State(NoError), op);
      hide FlatString.BulkString, Units, InMemory, BulkSafe, Executed;
      var done := BulkString(op);
      if done {
        error := NoError;
      } else {
        error := Loop(op);
      }
    }
  }

  lemma BulkStringIsLoopIf(c: Cpu, op: Op)
    requires c.Valid() && op.Valid() && InMemory(c, op) && c.error.NoError?
    ensures BulkSafe(c, op) && BulkString(c, op).Some? ==> BulkString(c, op).value == Units(c, op, c.ecx)
  {
    hide *;
    if BulkSafe(c, op) {
      BulkStringIsLoop(c, op);
    }
  }

  lemma UnitLeavesIf(c: Cpu, op: Op)
    requires c.Valid()
    ensures StraightString(c, op, op.sz) ==> StringLeaves(c, op, op.sz, c.ecx, Unit(c, op))
  {
    hide *;
    if StraightString(c, op, op.sz) {
      UnitLeaves(c, op);
    }
  }

  lemma BulkNothing(c: Cpu, op: Op)
    requires c.Valid() && op.Valid() && InMemory(c, op)
    ensures c.ecx == 0 ==> BulkString(c, op) == Some(c)
  {
  }

  function GatheredFrom(m: Flat, src: nat, n: nat): (r: (Flat, seq<Byte>))
    requires m.Valid() && n > 0 && src + n <= |m.data| && (m.Planar(src) ==> src - APERTURE + n <= PLANE)
    ensures r.0.Valid()
  {
    (if m.Planar(src) then m.(vga := Some(Latched(m.vga.value, src - APERTURE, n))) else m,
     Gathered(m, Movs(1, 0, 0), src, n, []))
  }

  function ScatteredTo(m: Flat, dst: nat, x: seq<Byte>): (r: Flat)
    requires m.Valid() && dst + |x| <= |m.data| && (m.Planar(dst) ==> dst - APERTURE + |x| <= PLANE)
    ensures r.Valid()
  {
    if m.Planar(dst) then m.(vga := Some(StoreRange(m.vga.value, dst - APERTURE, x)))
    else m.(data := Put(m.data, dst, x))
  }

  lemma GatheredShape(m: Flat, src: nat, n: nat)
    requires m.Valid() && n > 0 && src + n <= |m.data| && (m.Planar(src) ==> src - APERTURE + n <= PLANE)
    ensures var (m', x) := GatheredFrom(m, src, n);
            |x| == n && |m'.data| == |m.data| && forall a: nat {:trigger m'.Planar(a)} :: m'.Planar(a) == m.Planar(a)
  {
  }

  /** Gather, then scatter, is what the slices leave. */
  lemma SlicedInSteps(m: Flat, op: Op, src: nat, dst: nat, n: nat, fill: seq<Byte>)
    requires m.Valid() && n > 0 && |fill| == n && dst + n <= |m.data| && (op.Movs? ==> src + n <= |m.data|)
    requires op.Movs? && m.Planar(src) ==> src - APERTURE + n <= PLANE
    requires m.Planar(dst) ==> dst - APERTURE + n <= PLANE
    ensures op.Movs? && m.Planar(src) && m.Planar(dst) ==>
              Sliced(m, op, src, dst, n, fill) == m.(vga := Some(BulkCopy(m.vga.value, src - APERTURE, dst - APERTURE, n).v))
    ensures op.Movs? && !(m.Planar(src) && m.Planar(dst)) ==>
              var (m', x) := GatheredFrom(m, src, n);
              |x| == n && |m'.data| == |m.data| && m'.Planar(dst) == m.Planar(dst)
              && Sliced(m, op, src, dst, n, fill) == ScatteredTo(m', dst, x)
    ensures op.Stos? ==> Sliced(m, op, src, dst, n, fill) == ScatteredTo(m, dst, fill)
  {
    hide Put, StoreRange, Latched, BulkCopy;
  }

  lemma UnitsStart(c: Cpu, op: Op)
    requires c.Valid()
    ensures Units(c, op, 0) == c
  {
  }

  lemma UnitsOnce(c: Cpu, op: Op, k: nat)
    requires c.Valid() && Units(c, op, k).error.NoError?
    ensures var r := Unit(Units(c, op, k), op);
            Units(c, op, k + 1) == if r.error.NoError? then r.(ecx := (r.ecx - 1) % WORD32) else r
  {
    hide Unit;
  }

  lemma UnitKeepsCount(c: Cpu, op: Op)
    requires c.Valid()
    ensures Unit(c, op).ecx == c.ecx
  {
    hide Transfer;
  }

  lemma {:induction false} UnitsStop(c: Cpu, op: Op, i: nat, k: nat)
    requires c.Valid() && i <= k && !Units(c, op, i).error.NoError?
    ensures Units(c, op, k) == Units(c, op, i)
  {
    if i < k {
      hide Unit;
      UnitsStop(c, op, i, k - 1);
    }
  }
}
