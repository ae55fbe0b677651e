/** The native main loop itself: local registers, memory changed in place, one operation per trip. */
module LzexeLoop {
  import opened X86Flags
  import opened Memory
  import opened RealModeMemory
  import opened LzexeCode
  import opened Lzexe
  import opened EgaPlanes

  /** The loop's local variables. */
  datatype Locals = Locals(ds: nat, es: nat, si: nat, di: nat, bp: nat, dx: nat, bx: nat, af: bool) {
    predicate Valid() {
      ds < 0x1_0000 && es < 0x1_0000 && si < 0x1_0000 && di < 0x1_0000
      && bp < 0x1_0000 && dx < 0x1_0000 && bx < 0x1_0000
    }
  }

  function With(m: Mem, l: Locals): State {
    State(m, l.ds, l.es, l.si, l.di, l.bp, l.dx, l.bx, l.af)
  }

  method TakeBit(mem: RealMemory, l: Locals) returns (bit: bool, r: Locals)
    requires mem.Valid() && l.Valid()
    modifies mem
    ensures mem.Valid() && r.Valid()
    ensures (bit, With(mem.State(), r)) == NextBit(With(old(mem.State()), l))
  {
    hide Rw, WordRead;
    bit := l.bp % 2 == 1;
    r := l.(bp := l.bp / 2, af := l.dx % 16 == 0, dx := (l.dx - 1) % 0x1_0000);
    if r.dx == 0 {
      var lo, hi := mem.Rw(l.ds, l.si);
      r := r.(bp := WordOf(lo, hi), si := (l.si + 2) % 0x1_0000, dx := 16);
    }
  }

  method TakeByte(mem: RealMemory, l: Locals) returns (v: Byte, r: Locals)
    requires mem.Valid() && l.Valid()
    modifies mem
    ensures mem.Valid() && r.Valid()
    ensures (v, With(mem.State(), r)) == LoadByte(With(old(mem.State()), l))
  {
    hide Rb, ByteRead;
    v := mem.Rb(l.ds, l.si);
    r := l.(si := (l.si + 1) % 0x1_0000);
  }

  method TakeWord(mem: RealMemory, l: Locals) returns (lo: Byte, hi: Byte, r: Locals)
    requires mem.Valid() && l.Valid()
    modifies mem
    ensures mem.Valid() && r.Valid()
    ensures ((lo, hi), With(mem.State(), r)) == LoadWord(With(old(mem.State()), l))
  {
    hide Rw, WordRead;
    lo, hi := mem.Rw(l.ds, l.si);
    r := l.(si := (l.si + 2) % 0x1_0000);
  }

  lemma CopyNext(m: Mem, es: nat, bx: nat, di: nat, cx: nat)
    requires m.Valid() && cx > 0 && !m.raised
    ensures var (v, m1) := Rb(m, es, bx + di);
            CopyBytes(m, es, bx, di, cx) == CopyBytes(Wb(m1, es, di, v), es, bx, (di + 1) % 0x1_0000, cx - 1)
  {
    hide Rb, Wb, Mem.Valid;
  }

  lemma CopyStops(m: Mem, es: nat, bx: nat, di: nat, cx: nat)
    requires m.Valid() && (cx == 0 || m.raised)
    ensures CopyBytes(m, es, bx, di, cx) == m
  {
  }

  /** The copy at the bottom of the loop. */
  method CopyDown(mem: RealMemory, l: Locals, cx: nat) returns (ok: bool, r: Locals)
    requires mem.Valid() && l.Valid()
    modifies mem, mem.data
    ensures mem.Valid() && r.Valid()
    ensures CopyOp(With(old(mem.State()), l), cx)
            == if ok then Again(With(mem.State(), r)) else Raised(With(mem.State(), r))
  {
    hide Rb, Wb, CopyBytes, Mem.Valid, ByteRead, ByteWritten;
    var i, di := 0, l.di;
    while i < cx && !mem.raised
      invariant i <= cx && mem.Valid() && di == (l.di + i) % 0x1_0000
      invariant CopyBytes(mem.State(), l.es, l.bx, di, cx - i) == CopyBytes(old(mem.State()), l.es, l.bx, l.di, cx)
    {
      CopyNext(mem.State(), l.es, l.bx, di, cx - i);
      var v := mem.Rb(l.es, l.bx + di);
      mem.Wb(l.es, di, v);
      i, di := i + 1, (di + 1) % 0x1_0000;
    }
    CopyStops(mem.State(), l.es, l.bx, di, cx - i);
    ok := !mem.raised;
    r := if ok then l.(di := di) else l;
  }

  /** How one trip ends: with the next trip, or with an exit. */
  datatype Trip = Next | AtEnd | Fault

  function Ended(t: Trip, s: State): Outcome {
    match t
    case Next => Again(s)
    case AtEnd => Finished(s)
    case Fault => Raised(s)
  }

  method LiteralTrip(mem: RealMemory, l: Locals) returns (t: Trip, r: Locals)
    requires mem.Valid() && l.Valid()
    modifies mem, mem.data
    ensures mem.Valid() && r.Valid()
    ensures Ended(t, With(mem.State(), r)) == LiteralOp(With(old(mem.State()), l))
  {
    hide LoadByte, Wb, ByteWritten;
    var al, l1 := TakeByte(mem, l);
    mem.Wb(l.es, l.di, al);
    if mem.raised {
      return Fault, l;
    }
    t, r := Next, l1.(di := (l.di + 1) % 0x1_0000);
  }

  method ShortTrip(mem: RealMemory, l: Locals) returns (t: Trip, r: Locals)
    requires mem.Valid() && l.Valid()
    modifies mem, mem.data
    ensures mem.Valid() && r.Valid()
    ensures Ended(t, With(mem.State(), r)) == ShortOp(With(old(mem.State()), l))
  {
    hide NextBit, LoadByte, CopyOp;
    var high, l1 := TakeBit(mem, l);
    var low, l2 := TakeBit(mem, l1);
    var cx := 2 * BoolNat(high) + BoolNat(low) + 2;
    var al: nat, l3 := TakeByte(mem, l2);
    var ok;
    ok, r := CopyDown(mem, l3.(bx := 0xFF00 + al), cx);
    t := if ok then Next else Fault;
  }

  method LongTrip(mem: RealMemory, l: Locals) returns (t: Trip, r: Locals)
    requires mem.Valid() && l.Valid()
    modifies mem, mem.data
    ensures mem.Valid() && r.Valid()
    ensures Ended(t, With(mem.State(), r)) == LongOp(With(old(mem.State()), l))
  {
    hide LoadWord, LoadByte, CopyOp;
    var lo: nat, hi: nat, l1 := TakeWord(mem, l);
    var l2 := l1.(bx := (hi / 8 + 0xE0) * 256 + lo);
    var cx := hi % 8 + 2;
    if hi % 8 == 0 {
      var al: nat, l3 := TakeByte(mem, l2);
      if al == 0 {
        return AtEnd, l3;
      }
      if al == 1 {
        return Next, l3.(es := (l3.es + l3.di / 16 - 0x200) % 0x1_0000, di := l3.di % 16 + 0x2000,
                         ds := (l3.ds + l3.si / 16) % 0x1_0000, si := l3.si % 16, bx := l3.si);
      }
      cx, l2 := al + 1, l3;
    }
    var ok;
    ok, r := CopyDown(mem, l2, cx);
    t := if ok then Next else Fault;
  }

  /** One trip round the loop. */
  method OneTrip(mem: RealMemory, l: Locals) returns (t: Trip, r: Locals)
    requires mem.Valid() && l.Valid()
    modifies mem, mem.data
    ensures mem.Valid() && r.Valid()
    ensures Ended(t, With(mem.State(), r)) == Op(With(old(mem.State()), l))
  {
    hide NextBit, LiteralOp, ShortOp, LongOp;
    var bit, l0 := TakeBit(mem, l);
    if bit {
      t, r := LiteralTrip(mem, l0);
      return;
    }
    var long, l1 := TakeBit(mem, l0);
    if long {
      t, r := LongTrip(mem, l1);
    } else {
      t, r := ShortTrip(mem, l1);
    }
  }

  datatype Exit = AtEndMarker | UnsupportedWrite | OutOfOperations

  /** The flags `set_logic_flags(0, 8)` leaves, with AF put back from the bit reader. */
  function EndFlags(f: Flags, af: bool): Flags {
    f.(cf := false, of := false, zf := true, sf := false, pf := true, af := af)
  }

  /** The processor as the loop's caller sees it. */
  class Stub {
    const mem: RealMemory
    var regs: Locals
    var ax: nat
    var cx: nat
    var ip: nat
    var flags: Flags

    constructor (mem: RealMemory, regs: Locals, flags: Flags)
      ensures this.mem == mem && this.regs == regs && this.flags == flags && ip == 0x69
    {
      this.mem, this.regs, this.flags := mem, regs, flags;
      ax, cx, ip := 0, 0, 0x69;
    }

    ghost predicate Valid()
      reads this, mem, mem.data
    {
      mem.Valid() && regs.Valid()
    }

    /**
     Runs the loop from offset 0069h. Registers are stored back only at the end marker,
     where execution resumes at 00FCh; the other exits are exceptions.
     */
    method RunMainLoop(maxOps: nat) returns (exit: Exit)
      requires Valid() && !mem.raised
      modifies this, mem, mem.data
      ensures Valid()
      ensures var r := Run(With(old(mem.State()), old(regs)), maxOps);
              mem.State() == r.s.mem
              && (exit.AtEndMarker? <==> r.Finished?) && (exit.OutOfOperations? <==> r.TooManyOps?)
              && (r.Finished? ==> With(r.s.mem, regs) == r.s && ax == 0 && cx == 3 && ip == 0xFC
                                  && flags == old(flags).(cf := false, pf := true, af := r.s.af, zf := true, sf := false, of := false))
              && (!r.Finished? ==> regs == old(regs) && ax == old(ax) && cx == old(cx) && ip == old(ip)
                                   && flags == old(flags))
    {
      hide Op;
      var l, ops := regs, 0;
      while ops < maxOps
        invariant ops <= maxOps && Valid() && l.Valid()
        invariant regs == old(regs) && ax == old(ax) && cx == old(cx) && ip == old(ip) && flags == old(flags)
        invariant Run(With(mem.State(), l), maxOps - ops) == Run(With(old(mem.State()), old(regs)), maxOps)
      {
        ops := ops + 1;
        var t;
        t, l := OneTrip(mem, l);
        if t.AtEnd? {
          regs, ax, cx, ip, flags := l, 0, 3, 0xFC, EndFlags(flags, l.af);
          return AtEndMarker;
        }
        if t.Fault? {
          return UnsupportedWrite;
        }
      }
      exit := OutOfOperations;
    }
  }
}
