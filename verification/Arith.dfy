/** Addition and subtraction with flags, for any operand width. */
module Arith {
  import opened Bits
  import opened X86Flags

  datatype AluOp = Add | Adc | Sbb | Sub | Cmp

  /** The flags every arithmetic result sets from its `bits`-wide value. */
  function ResultFlags(f: Flags, r: nat, bits: nat): Flags
    requires bits >= 1
  {
    f.(zf := r == 0, sf := Msb(r, bits), pf := EvenParity(r))
  }

  /** `set_add_flags`: `result` is the unmasked sum, `carry` the incoming carry. */
  function AddFlags(f: Flags, a: nat, b: nat, result: nat, bits: nat, carry: nat): Flags
    requires bits >= 1
  {
    var r := Mask(result, bits);
    ResultFlags(f, r, bits).(cf := result > Pow2(bits) - 1, af := a % 16 + b % 16 + carry > 15,
      of := Msb(a, bits) == Msb(b, bits) && Msb(a, bits) != Msb(r, bits))
  }

  /** `set_sub_flags`: `result` is the unmasked difference, negative on a borrow. */
  function SubFlags(f: Flags, a: nat, b: nat, result: int, bits: nat, carry: nat): Flags
    requires bits >= 1
  {
    var r := Mask(result, bits);
    ResultFlags(f, r, bits).(cf := result < 0, af := a % 16 - b % 16 - carry < 0,
      of := Msb(a, bits) != Msb(b, bits) && Msb(a, bits) != Msb(r, bits))
  }

  /** `set_incdec_flags`: CF is kept. */
  function IncDecFlags(f: Flags, old_: nat, res: nat, bits: nat, dec: bool): Flags
    requires bits >= 1
  {
    ResultFlags(f, res, bits).(af := if dec then old_ % 16 == 0 else old_ % 16 == 15,
      of := if dec then old_ == Pow2(bits - 1) else res == Pow2(bits - 1))
  }

  function Subtracts(op: AluOp): bool {
    op.Sbb? || op.Sub? || op.Cmp?
  }

  function CarryIn(f: Flags, op: AluOp): (c: nat)
    ensures c <= 1
  {
    if (op.Adc? || op.Sbb?) && f.cf then 1 else 0
  }

  /** The arithmetic groups of `alu`. */
  function Alu(f: Flags, op: AluOp, a: nat, b: nat, bits: nat): (r: (nat, Flags))
    requires bits >= 1
  {
    var c := CarryIn(f, op);
    if Subtracts(op) then (Mask(a - b - c, bits), SubFlags(f, a, b, a - b - c, bits, c))
    else (Mask(a + b + c, bits), AddFlags(f, a, b, a + b + c, bits, c))
  }

  /** Half the range of a `bits`-wide number: the weight of its sign bit. */
  function Half(bits: nat): (h: nat)
    requires bits >= 1
    ensures h >= 1 && 2 * h == Pow2(bits)
  {
    Pow2(bits - 1)
  }

  /** Two's complement reading of a number below 2h. */
  function AsSigned(v: nat, h: nat): int {
    v - if v >= h then 2 * h else 0
  }

  predicate Representable(x: int, h: nat) {
    0 - h <= x < h
  }

  // ---- one operation -------------------------------------------------------------

  lemma MsbIsHalf(v: nat, bits: nat)
    requires bits >= 1 && v < Pow2(bits)
    ensures Msb(v, bits) == (v >= Half(bits))
  {
    MsbIsUpperHalf(v, bits);
  }

  /** The residue of a sum or difference of two numbers and a carry below p. */
  function Wrapped(v: int, p: nat): int {
    if v < 0 then v + p else if v < p then v else v - p
  }

  lemma MaskCarried(v: int, bits: nat)
    requires 0 - Pow2(bits) <= v < 2 * Pow2(bits)
    ensures Mask(v, bits) == Wrapped(v, Pow2(bits))
  {
    if v < 0 {
      MaskShift(v, bits);
      MaskSmall(v + Pow2(bits), bits);
    } else if v < Pow2(bits) {
      MaskSmall(v, bits);
    } else {
      MaskShift(v - Pow2(bits), bits);
      MaskSmall(v - Pow2(bits), bits);
    }
  }

  /** The unmasked result. */
  function Total(sub: bool, a: int, b: int, c: int): int {
    if sub then a - b - c else a + b + c
  }

  /** The result and CF, OF, SF, ZF of an operation on numbers below 2h. */
  predicate Outcome(sub: bool, a: nat, b: nat, c: nat, h: nat, r: nat, g: Flags) {
    var v := Total(sub, a, b, c);
    r == Wrapped(v, 2 * h) && g.zf == (r == 0) && g.sf == (r >= h) && g.cf == (v < 0 || v >= 2 * h)
    && g.of == ((a >= h) == (sub != (b >= h)) && (a >= h) != (r >= h))
  }

  /** What `alu` leaves, with the sign bits read as halves. */
  lemma AluFields(f: Flags, op: AluOp, a: nat, b: nat, bits: nat, r: nat, g: Flags)
    requires bits >= 1 && a < Pow2(bits) && b < Pow2(bits) && Alu(f, op, a, b, bits) == (r, g)
    ensures var v := Total(Subtracts(op), a, b, CarryIn(f, op));
            r == Mask(v, bits) && g.zf == (r == 0) && g.sf == Msb(r, bits) && g.cf == (v < 0 || v > Pow2(bits) - 1)
    ensures g.of == ((Msb(a, bits) == (Subtracts(op) != Msb(b, bits))) && Msb(a, bits) != Msb(r, bits))
  {
    hide Pow2, Mask, Msb, EvenParity;
  }

  lemma AluOutcome(f: Flags, op: AluOp, a: nat, b: nat, bits: nat, r: nat, g: Flags)
    requires bits >= 1 && a < Pow2(bits) && b < Pow2(bits) && Alu(f, op, a, b, bits) == (r, g)
    ensures Outcome(Subtracts(op), a, b, CarryIn(f, op), Half(bits), r, g)
  {
    AluFields(f, op, a, b, bits, r, g);
    MaskCarried(Total(Subtracts(op), a, b, CarryIn(f, op)), bits);
    MsbIsHalf(a, bits);
    MsbIsHalf(b, bits);
    MsbIsHalf(r, bits);
    hide Alu, Pow2, Half, Mask, Msb;
  }

  /** ADD and ADC: CF is the carry out and OF says exactly when the signed sum does not fit. */
  predicate AddedUp(a: nat, b: nat, c: nat, h: nat, r: nat, g: Flags) {
    var exact := AsSigned(a, h) + AsSigned(b, h) + c;
    r < 2 * h && r + (if g.cf then 2 * h else 0) == a + b + c
    && g.of == !Representable(exact, h) && (!g.of ==> AsSigned(r, h) == exact)
  }

  /** SUB, CMP and SBB: CF is the borrow, and SF != OF says exactly that the signed difference is negative. */
  predicate TakenAway(a: nat, b: nat, c: nat, h: nat, r: nat, g: Flags) {
    var exact := AsSigned(a, h) - AsSigned(b, h) - c;
    r < 2 * h && r == a - b - c + (if g.cf then 2 * h else 0)
    && g.of == !Representable(exact, h) && (!g.of ==> AsSigned(r, h) == exact)
    && (g.sf != g.of) == (exact < 0)
  }

  lemma OutcomeAdds(a: nat, b: nat, c: nat, h: nat, r: nat, g: Flags)
    requires a < 2 * h && b < 2 * h && c <= 1 && Outcome(false, a, b, c, h, r, g)
    ensures AddedUp(a, b, c, h, r, g)
  {
  }

  lemma OutcomeTakes(a: nat, b: nat, c: nat, h: nat, r: nat, g: Flags)
    requires a < 2 * h && b < 2 * h && c <= 1 && Outcome(true, a, b, c, h, r, g)
    ensures TakenAway(a, b, c, h, r, g)
  {
  }

  lemma AddMeans(f: Flags, op: AluOp, a: nat, b: nat, bits: nat, r: nat, g: Flags)
    requires bits >= 1 && !Subtracts(op) && a < Pow2(bits) && b < Pow2(bits) && Alu(f, op, a, b, bits) == (r, g)
    ensures AddedUp(a, b, CarryIn(f, op), Half(bits), r, g)
  {
    var c, h := CarryIn(f, op), Half(bits);
    AluOutcome(f, op, a, b, bits, r, g);
    hide Alu, Half, Pow2, CarryIn;
    OutcomeAdds(a, b, c, h, r, g);
  }

  lemma SubMeans(f: Flags, op: AluOp, a: nat, b: nat, bits: nat, r: nat, g: Flags)
    requires bits >= 1 && Subtracts(op) && a < Pow2(bits) && b < Pow2(bits) && Alu(f, op, a, b, bits) == (r, g)
    ensures TakenAway(a, b, CarryIn(f, op), Half(bits), r, g)
  {
    var c, h := CarryIn(f, op), Half(bits);
    AluOutcome(f, op, a, b, bits, r, g);
    hide Alu, Half, Pow2, CarryIn;
    OutcomeTakes(a, b, c, h, r, g);
  }

  /** AF is the carry or borrow between the low nibbles; ZF, SF and PF speak of `r`; TF, IF and DF are kept. */
  predicate Marked(f: Flags, sub: bool, a: nat, b: nat, c: nat, h: nat, r: nat, g: Flags) {
    Shows(r, h, g) && ControlKept(f, g) && g.af == if sub then a % 16 < b % 16 + c else a % 16 + b % 16 + c >= 16
  }

  /** `g` are right flags for the unmasked sum `sum` of `a`, `b` and `carry`. */
  predicate AddsRight(f: Flags, a: nat, b: nat, carry: nat, bits: nat, sum: int, g: Flags)
    requires bits >= 1
  {
    Marked(f, false, a, b, carry, Half(bits), Mask(sum, bits), g)
    && (a < Pow2(bits) && b < Pow2(bits) && carry <= 1 && sum == a + b + carry ==>
          AddedUp(a, b, carry, Half(bits), Mask(sum, bits), g))
  }

  /** `g` are right flags for the unmasked difference. */
  predicate TakesRight(f: Flags, a: nat, b: nat, carry: nat, bits: nat, difference: int, g: Flags)
    requires bits >= 1
  {
    Marked(f, true, a, b, carry, Half(bits), Mask(difference, bits), g)
    && (a < Pow2(bits) && b < Pow2(bits) && carry <= 1 && difference == a - b - carry ==>
          TakenAway(a, b, carry, Half(bits), Mask(difference, bits), g))
  }

  lemma ResultShows(f: Flags, r: nat, bits: nat)
    requires bits >= 1 && r < Pow2(bits)
    ensures Shows(r, Half(bits), ResultFlags(f, r, bits)) && ControlKept(f, ResultFlags(f, r, bits))
  {
    MsbIsHalf(r, bits);
    ParityCounts(r);
    hide Msb, EvenParity, EvenOnes, Half, Pow2;
  }

  lemma MaskBelow(v: int, bits: nat)
    ensures Mask(v, bits) < Pow2(bits)
  {
    ValBound(Bin(v, bits));
  }

  lemma AddFlagsMark(f: Flags, a: nat, b: nat, bits: nat, carry: nat, sum: nat)
    requires bits >= 1
    ensures Marked(f, false, a, b, carry, Half(bits), Mask(sum, bits), AddFlags(f, a, b, sum, bits, carry))
  {
    hide Mask, Msb, EvenParity, EvenOnes, Half, Pow2;
    MaskBelow(sum, bits);
    ResultShows(f, Mask(sum, bits), bits);
  }

  lemma SubFlagsMark(f: Flags, a: nat, b: nat, bits: nat, carry: nat, difference: int)
    requires bits >= 1
    ensures Marked(f, true, a, b, carry, Half(bits), Mask(difference, bits), SubFlags(f, a, b, difference, bits, carry))
  {
    hide Mask, Msb, EvenParity, EvenOnes, Half, Pow2;
    MaskBelow(difference, bits);
    ResultShows(f, Mask(difference, bits), bits);
  }

  /** CF is set whatever it was. */
  lemma AddFlagsSetCarry(f: Flags, c: bool, a: nat, b: nat, sum: nat, bits: nat, carry: nat)
    requires bits >= 1
    ensures AddFlags(f.(cf := c), a, b, sum, bits, carry) == AddFlags(f, a, b, sum, bits, carry)
  {
    hide Mask, Msb, EvenParity, Pow2;
  }

  lemma SubFlagsSetCarry(f: Flags, c: bool, a: nat, b: nat, difference: int, bits: nat, carry: nat)
    requires bits >= 1
    ensures SubFlags(f.(cf := c), a, b, difference, bits, carry) == SubFlags(f, a, b, difference, bits, carry)
  {
    hide Mask, Msb, EvenParity, Pow2;
  }

  lemma AdcIs(g: Flags, a: nat, b: nat, bits: nat, carry: nat)
    requires bits >= 1 && carry <= 1 && g.cf == (carry == 1)
    ensures CarryIn(g, Adc) == carry && !Subtracts(Adc)
    ensures Alu(g, Adc, a, b, bits) == (Mask(a + b + carry, bits), AddFlags(g, a, b, a + b + carry, bits, carry))
  {
    hide Mask, AddFlags, SubFlags;
  }

  lemma SbbIs(g: Flags, a: nat, b: nat, bits: nat, carry: nat)
    requires bits >= 1 && carry <= 1 && g.cf == (carry == 1)
    ensures CarryIn(g, Sbb) == carry && Subtracts(Sbb)
    ensures Alu(g, Sbb, a, b, bits) == (Mask(a - b - carry, bits), SubFlags(g, a, b, a - b - carry, bits, carry))
  {
    hide Mask, AddFlags, SubFlags;
  }

  /** So the flag helpers are right by themselves. */
  lemma AddFlagsMean(f: Flags, a: nat, b: nat, bits: nat, carry: nat, sum: nat)
    requires bits >= 1
    ensures AddsRight(f, a, b, carry, bits, sum, AddFlags(f, a, b, sum, bits, carry))
  {
    hide Mask, Pow2, AddFlags, AddedUp, Alu, CarryIn, Subtracts, Half, Marked;
    AddFlagsMark(f, a, b, bits, carry, sum);
    if a < Pow2(bits) && b < Pow2(bits) && carry <= 1 && sum == a + b + carry {
      AddFlagsSetCarry(f, carry == 1, a, b, sum, bits, carry);
      AdcIs(f.(cf := carry == 1), a, b, bits, carry);
      AddMeans(f.(cf := carry == 1), Adc, a, b, bits, Mask(sum, bits), AddFlags(f, a, b, sum, bits, carry));
    }
  }

  lemma SubFlagsMean(f: Flags, a: nat, b: nat, bits: nat, carry: nat, difference: int)
    requires bits >= 1
    ensures TakesRight(f, a, b, carry, bits, difference, SubFlags(f, a, b, difference, bits, carry))
  {
    hide Mask, Pow2, SubFlags, TakenAway, Alu, CarryIn, Subtracts, Half, Marked;
    SubFlagsMark(f, a, b, bits, carry, difference);
    if a < Pow2(bits) && b < Pow2(bits) && carry <= 1 && difference == a - b - carry {
      SubFlagsSetCarry(f, carry == 1, a, b, difference, bits, carry);
      SbbIs(f.(cf := carry == 1), a, b, bits, carry);
      SubMeans(f.(cf := carry == 1), Sbb, a, b, bits, Mask(difference, bits), SubFlags(f, a, b, difference, bits, carry));
    }
  }

  /** The result and flags of an operation on operands that fit. */
  predicate Computes(f: Flags, op: AluOp, a: nat, b: nat, bits: nat, r: nat, g: Flags)
    requires bits >= 1
  {
    a < Pow2(bits) && b < Pow2(bits) ==>
      var c := if f.cf then 1 else 0;
      match op
      case Add => AddedUp(a, b, 0, Half(bits), r, g) && Marked(f, false, a, b, 0, Half(bits), r, g)
      case Adc => AddedUp(a, b, c, Half(bits), r, g) && Marked(f, false, a, b, c, Half(bits), r, g)
      case Sbb => TakenAway(a, b, c, Half(bits), r, g) && Marked(f, true, a, b, c, Half(bits), r, g)
      case Sub => TakenAway(a, b, 0, Half(bits), r, g) && Marked(f, true, a, b, 0, Half(bits), r, g)
      case Cmp => TakenAway(a, b, 0, Half(bits), r, g) && Marked(f, true, a, b, 0, Half(bits), r, g)
  }

  lemma AluMarks(f: Flags, op: AluOp, a: nat, b: nat, bits: nat)
    requires bits >= 1
    ensures Marked(f, Subtracts(op), a, b, CarryIn(f, op), Half(bits), Alu(f, op, a, b, bits).0, Alu(f, op, a, b, bits).1)
  {
    hide AddFlags, SubFlags, Mask, Half, Marked, CarryIn, Subtracts;
    var c := CarryIn(f, op);
    if Subtracts(op) {
      SubFlagsMark(f, a, b, bits, c, a - b - c);
    } else {
      AddFlagsMark(f, a, b, bits, c, a + b + c);
    }
  }

  lemma AluMeans(f: Flags, op: AluOp, a: nat, b: nat, bits: nat)
    requires bits >= 1
    ensures Computes(f, op, a, b, bits, Alu(f, op, a, b, bits).0, Alu(f, op, a, b, bits).1)
  {
    hide Alu, Pow2, Half, AddedUp, TakenAway, Marked;
    AluMarks(f, op, a, b, bits);
    if a < Pow2(bits) && b < Pow2(bits) {
      var (r, g) := Alu(f, op, a, b, bits);
      if Subtracts(op) {
        SubMeans(f, op, a, b, bits, r, g);
      } else {
        AddMeans(f, op, a, b, bits, r, g);
      }
    }
  }

  /** AF is the carry or borrow between the low two nibbles, so the low nibble of the result is exact. */
  lemma NibbleCarry(f: Flags, op: AluOp, a: nat, b: nat, bits: nat, r: nat, g: Flags)
    requires bits >= 4 && Alu(f, op, a, b, bits) == (r, g)
    ensures var n := Total(Subtracts(op), a % 16, b % 16, CarryIn(f, op));
            g.af == (n < 0 || n > 15) && r % 16 == n + if !g.af then 0 else if Subtracts(op) then 16 else -16
  {
    AluNibble(f, op, a, b, bits, r, g);
    hide Alu, Mask, Total;
    var c := CarryIn(f, op);
    MaskLowNibble(Total(Subtracts(op), a, b, c), bits);
    hide CarryIn, Subtracts;
    NibbleTotal(Subtracts(op), a, b, c, g.af);
  }

  lemma AluNibble(f: Flags, op: AluOp, a: nat, b: nat, bits: nat, r: nat, g: Flags)
    requires bits >= 1 && Alu(f, op, a, b, bits) == (r, g)
    ensures r == Mask(Total(Subtracts(op), a, b, CarryIn(f, op)), bits)
    ensures var n := Total(Subtracts(op), a % 16, b % 16, CarryIn(f, op)); g.af == (n < 0 || n > 15)
  {
    hide Pow2, Mask, Msb, EvenParity;
  }

  lemma NibbleTotal(sub: bool, a: nat, b: nat, c: nat, carry: bool)
    requires c <= 1 && carry == (var n := Total(sub, a % 16, b % 16, c); n < 0 || n > 15)
    ensures Total(sub, a, b, c) % 16
            == Total(sub, a % 16, b % 16, c) + if !carry then 0 else if sub then 16 else -16
  {
    var x, y := a % 16, b % 16;
    var n := Total(sub, x, y, c) + if !carry then 0 else if sub then 16 else -16;
    var q := Total(sub, a / 16, b / 16, if !carry then 0 else 1);
    assert a == 16 * (a / 16) + x && b == 16 * (b / 16) + y;
    assert Total(sub, a, b, c) == n + 16 * q;
    ModSixteen(n, q);
  }

  lemma MaskLowNibble(v: int, bits: nat)
    requires bits >= 4
    ensures Mask(v, bits) % 16 == v % 16
  {
    MaskTwo(v, bits);
    MaskTwo(v / 4, bits - 2);
    hide Mask;
    ModSixteen(v % 4 + 4 * (v / 4 % 4), Mask(v / 4 / 4, bits - 4));
    ModSixteen(v % 4 + 4 * (v / 4 % 4), v / 4 / 4);
  }

  lemma ModSixteen(t: nat, m: int)
    requires t < 16
    ensures (t + 16 * m) % 16 == t
  {
  }

  lemma MaskTwo(v: int, bits: nat)
    requires bits >= 2
    ensures Mask(v, bits) == v % 4 + 4 * Mask(v / 4, bits - 2)
  {
    assert Mask(v, bits) == v % 2 + 2 * Mask(v / 2, bits - 1);
    assert Mask(v / 2, bits - 1) == v / 2 % 2 + 2 * Mask(v / 2 / 2, bits - 2);
    hide Mask;
  }

  /** INC is ADD 1 and DEC is SUB 1 in every flag but CF, which they keep. */
  lemma IncDecKeepsCarry(f: Flags, a: nat, bits: nat, dec: bool, r: nat, g: Flags)
    requires bits >= 2 && a < Pow2(bits) && Alu(f, if dec then Sub else Add, a, 1, bits) == (r, g)
    ensures IncDecFlags(f, a, r, bits, dec) == g.(cf := f.cf)
  {
    hide *;
    HalfTwice(bits);
    AluOutcome(f, if dec then Sub else Add, a, 1, bits, r, g);
    OpOf(f, dec);
    IncDecOther(f, a, bits, dec, r, g);
    IncDecOverflow(dec, a, Half(bits), r, g);
    SameOverflow(IncDecFlags(f, a, r, bits, dec), g, g.(cf := f.cf));
  }

  /** `g` are the flags of adding or subtracting one, with CF as it was. */
  predicate StepsRight(f: Flags, a: nat, bits: nat, dec: bool, r: nat, g: Flags)
    requires bits >= 1
  {
    g.cf == f.cf && (r < Pow2(bits) ==> Shows(r, Half(bits), g) && ControlKept(f, g))
    && g.af == (if dec then a % 16 == 0 else a % 16 == 15)
    && (bits >= 2 && a < Pow2(bits) && Alu(f, if dec then Sub else Add, a, 1, bits).0 == r ==>
          g == Alu(f, if dec then Sub else Add, a, 1, bits).1.(cf := f.cf))
  }

  lemma IncDecShows(f: Flags, a: nat, bits: nat, dec: bool, r: nat)
    requires bits >= 1
    ensures var g := IncDecFlags(f, a, r, bits, dec);
            g.cf == f.cf && (r < Pow2(bits) ==> Shows(r, Half(bits), g) && ControlKept(f, g))
            && g.af == (if dec then a % 16 == 0 else a % 16 == 15)
  {
    hide Pow2, Half, Msb, EvenParity, EvenOnes;
    if r < Pow2(bits) {
      ResultShows(f, r, bits);
    }
  }

  lemma IncDecMeans(f: Flags, a: nat, bits: nat, dec: bool, r: nat)
    requires bits >= 1
    ensures StepsRight(f, a, bits, dec, r, IncDecFlags(f, a, r, bits, dec))
  {
    IncDecShows(f, a, bits, dec, r);
    hide Alu, IncDecFlags, Pow2, Shows, Half;
    var (r', g) := Alu(f, if dec then Sub else Add, a, 1, bits);
    if bits >= 2 && a < Pow2(bits) && r' == r {
      IncDecKeepsCarry(f, a, bits, dec, r, g);
    }
  }

  lemma HalfTwice(bits: nat)
    requires bits >= 2
    ensures Half(bits) == 2 * Half(bits - 1)
  {
  }

  lemma OpOf(f: Flags, dec: bool)
    ensures var op := if dec then Sub else Add; Subtracts(op) == dec && CarryIn(f, op) == 0
  {
  }

  lemma SameOverflow(k: Flags, g: Flags, h: Flags)
    requires k.of == g.of && k.(of := g.of) == h
    ensures k == h
  {
  }

  lemma IncDecOverflow(dec: bool, a: nat, h: nat, r: nat, g: Flags)
    requires h >= 2 && a < 2 * h && Outcome(dec, a, 1, 0, h, r, g)
    ensures g.of == if dec then a == h else r == h
  {
  }

  /** Everything but OF, where the two are computed by different tests. */
  lemma IncDecOther(f: Flags, a: nat, bits: nat, dec: bool, r: nat, g: Flags)
    requires bits >= 2 && Alu(f, if dec then Sub else Add, a, 1, bits) == (r, g)
    ensures var k := IncDecFlags(f, a, r, bits, dec);
            k.of == (if dec then a == Half(bits) else r == Half(bits)) && k.(of := g.of) == g.(cf := f.cf)
  {
    hide Pow2, Mask, Msb, EvenParity;
  }

  // ---- conditions -------------------------------------------------------------------

  /** The sixteen Jcc conditions. */
  function Condition(f: Flags, cond: nat): bool
    requires cond < 16
  {
    match cond
    case 0x0 => f.of
    case 0x1 => !f.of
    case 0x2 => f.cf
    case 0x3 => !f.cf
    case 0x4 => f.zf
    case 0x5 => !f.zf
    case 0x6 => f.cf || f.zf
    case 0x7 => !(f.cf || f.zf)
    case 0x8 => f.sf
    case 0x9 => !f.sf
    case 0xA => f.pf
    case 0xB => !f.pf
    case 0xC => f.sf != f.of
    case 0xD => f.sf == f.of
    case 0xE => f.zf || f.sf != f.of
    case _ => !f.zf && f.sf == f.of
  }

  /** After CMP or SUB every order condition decides the comparison it is named for. */
  predicate Decides(g: Flags, a: nat, b: nat, x: int, y: int) {
    Condition(g, 0x2) == (a < b) && Condition(g, 0x3) == (a >= b)
    && Condition(g, 0x4) == (a == b) && Condition(g, 0x5) == (a != b)
    && Condition(g, 0x6) == (a <= b) && Condition(g, 0x7) == (a > b)
    && Condition(g, 0xC) == (x < y) && Condition(g, 0xD) == (x >= y)
    && Condition(g, 0xE) == (x <= y) && Condition(g, 0xF) == (x > y)
  }

  lemma CompareDecides(f: Flags, op: AluOp, a: nat, b: nat, bits: nat)
    requires bits >= 1 && (op.Cmp? || op.Sub?) && a < Pow2(bits) && b < Pow2(bits)
    ensures Decides(Alu(f, op, a, b, bits).1, a, b, AsSigned(a, Half(bits)), AsSigned(b, Half(bits)))
  {
    var (r, g) := Alu(f, op, a, b, bits);
    AluOutcome(f, op, a, b, bits, r, g);
    OutcomeDecides(a, b, Half(bits), r, g);
    hide Alu, Half, Pow2, Outcome, Decides;
  }

  lemma OutcomeDecides(a: nat, b: nat, h: nat, r: nat, g: Flags)
    requires a < 2 * h && b < 2 * h && Outcome(true, a, b, 0, h, r, g)
    ensures Decides(g, a, b, AsSigned(a, h), AsSigned(b, h))
  {
    assert TakenAway(a, b, 0, h, r, g);
    assert g.cf == (a < b) && g.zf == (a == b);
    hide Outcome, Condition;
    ConditionsOf(g);
  }

  lemma ConditionsOf(g: Flags)
    ensures Condition(g, 0x2) == g.cf == !Condition(g, 0x3) && Condition(g, 0x4) == g.zf == !Condition(g, 0x5)
    ensures Condition(g, 0x6) == (g.cf || g.zf) == !Condition(g, 0x7) && Condition(g, 0xC) == (g.sf != g.of) == !Condition(g, 0xD)
    ensures Condition(g, 0xE) == (g.zf || g.sf != g.of) == !Condition(g, 0xF)
  {
  }

  /** The six conditions that test one flag, after any operation on operands that fit. */
  lemma SingleConditions(f: Flags, op: AluOp, a: nat, b: nat, bits: nat)
    requires bits >= 1 && a < Pow2(bits) && b < Pow2(bits)
    ensures var (r, g, h) := (Alu(f, op, a, b, bits).0, Alu(f, op, a, b, bits).1, Half(bits));
            var c := if (op.Adc? || op.Sbb?) && f.cf then 1 else 0;
            var exact := if op.Add? || op.Adc? then AsSigned(a, h) + AsSigned(b, h) + c else AsSigned(a, h) - AsSigned(b, h) - c;
            Condition(g, 0x0) == !(0 - h <= exact < h) && Condition(g, 0x1) == (0 - h <= exact < h)
            && Condition(g, 0x8) == (r >= h) && Condition(g, 0x9) == (r < h)
            && Condition(g, 0xA) == EvenOnes(r) && Condition(g, 0xB) == !EvenOnes(r)
  {
    AluMeans(f, op, a, b, bits);
    hide Alu, Half, Pow2, EvenOnes, AsSigned;
  }
}
