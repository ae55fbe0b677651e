/** The flag helpers, the ALU and DAA as methods that rewrite the CPU's flags and AL. */
module ArithUnit {
  import opened Bits
  import opened X86Flags
  import opened Arith
  import PackedDecimal

  class CPU8086 {
    var flags: Flags
    var al: nat

    constructor (f: Flags)
      ensures flags == f && al == 0
    {
      flags, al := f, 0;
    }

    /** ZF, SF and PF of a result. */
    method SetResult(r: nat, bits: nat)
      requires bits >= 1
      modifies this`flags
      ensures flags == ResultFlags(old(flags), r, bits)
    {
      hide Msb, EvenParity;
      flags := flags.(zf := r == 0, sf := Msb(r, bits), pf := EvenParity(r));
    }

    /** Clears CF, PF, AF, ZF, SF and OF, then sets those the sum calls for. */
    method SetAddFlags(a: nat, b: nat, result: nat, bits: nat, carry: nat)
      requires bits >= 1
      modifies this`flags
      ensures flags == AddFlags(old(flags), a, b, result, bits, carry)
      ensures AddsRight(old(flags), a, b, carry, bits, result, flags)
    {
      hide Mask, Msb, EvenParity, AddsRight;
      AddFlagsMean(flags, a, b, bits, carry, result);
      var r := Mask(result, bits);
      SetResult(r, bits);
      flags := flags.(cf := result > Pow2(bits) - 1, af := a % 16 + b % 16 + carry > 15,
                      of := Msb(a, bits) == Msb(b, bits) && Msb(a, bits) != Msb(r, bits));
    }

    method SetSubFlags(a: nat, b: nat, result: int, bits: nat, carry: nat)
      requires bits >= 1
      modifies this`flags
      ensures flags == SubFlags(old(flags), a, b, result, bits, carry)
      ensures TakesRight(old(flags), a, b, carry, bits, result, flags)
    {
      hide Mask, Msb, EvenParity, TakesRight;
      SubFlagsMean(flags, a, b, bits, carry, result);
      var r := Mask(result, bits);
      SetResult(r, bits);
      flags := flags.(cf := result < 0, af := a % 16 - b % 16 - carry < 0,
                      of := Msb(a, bits) != Msb(b, bits) && Msb(a, bits) != Msb(r, bits));
    }

    /** CF is left alone. */
    method SetIncDecFlags(before: nat, res: nat, bits: nat, dec: bool)
      requires bits >= 1
      modifies this`flags
      ensures flags == IncDecFlags(old(flags), before, res, bits, dec)
      ensures StepsRight(old(flags), before, bits, dec, res, flags)
    {
      hide Msb, EvenParity, StepsRight;
      IncDecMeans(flags, before, bits, dec, res);
      SetResult(res, bits);
      if dec {
        flags := flags.(af := before % 16 == 0, of := before == Pow2(bits - 1));
      } else {
        flags := flags.(af := before % 16 == 15, of := res == Pow2(bits - 1));
      }
    }

    /** The arithmetic groups of `alu`. */
    method Alu(op: AluOp, a: nat, b: nat, bits: nat) returns (res: nat)
      requires bits >= 1
      modifies this`flags
      ensures (res, flags) == Arith.Alu(old(flags), op, a, b, bits)
      ensures Computes(old(flags), op, a, b, bits, res, flags)
    {
      hide Mask, AddFlags, SubFlags, Computes, AddsRight, TakesRight;
      AluMeans(flags, op, a, b, bits);
      var carry := if (op.Adc? || op.Sbb?) && flags.cf then 1 else 0;
      if op.Add? || op.Adc? {
        SetAddFlags(a, b, a + b + carry, bits, carry);
        res := Mask(a + b + carry, bits);
      } else {
        SetSubFlags(a, b, a - b - carry, bits, carry);
        res := Mask(a - b - carry, bits);
      }
    }

    /** Decimal adjust AL after an addition. */
    method Daa()
      requires al < 256
      modifies this
      ensures (al, flags) == PackedDecimal.Daa(old(al), old(flags)) && al < 256
      ensures PackedDecimal.Adjusts(old(al), old(flags), al, flags)
    {
      PackedDecimal.DaaAdjusts(al, flags);
      hide *;
      ghost var f := flags;
      var before := al;
      var oldCf := flags.cf;
      var adjustLow := al % 16 > 9 || flags.af;
      if adjustLow {
        al := (al + 0x06) % 256;
      }
      PackedDecimal.AdjustedIs(before, adjustLow, 0x06);
      ghost var between := al;
      var adjustHigh := before > 0x99 || oldCf;
      if adjustHigh {
        al := (al + 0x60) % 256;
      }
      PackedDecimal.AdjustedIs(between, adjustHigh, 0x60);
      PackedDecimal.DaaParts(before, f, adjustLow, adjustHigh, al);
      SetResult(al, 8);
      flags := flags.(af := adjustLow, cf := adjustHigh);
    }
  }
}
