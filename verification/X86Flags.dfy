/** The x86 status word as a record of its flag bits. */
module X86Flags {
  import opened Bits

  datatype Flags = Flags(cf: bool, pf: bool, af: bool, zf: bool, sf: bool,
                         tf: bool, intf: bool, df: bool, of: bool)

  /** The sign bit of a `bits`-wide number, as the code tests it: `r & (1 << (bits - 1))`. */
  predicate Msb(v: nat, bits: nat)
    requires bits >= 1
  {
    RShift(v, bits - 1) % 2 == 1
  }

  lemma MsbOfWord(s: Word)
    requires s != []
    ensures Msb(Val(s), |s|) == Last(s)
  {
    BitOfWord(s, |s| - 1);
  }

  /** The sign bit is set from half the range on. */
  lemma {:induction false} MsbIsUpperHalf(v: nat, bits: nat)
    requires bits >= 1 && v < Pow2(bits)
    ensures Msb(v, bits) == (v >= Pow2(bits - 1))
  {
    if bits > 1 {
      MsbIsUpperHalf(v / 2, bits - 1);
    }
  }

  /** The low eight bits of `v` hold an even number of ones. */
  predicate EvenOnes(v: nat) {
    (v % 2 + v / 2 % 2 + v / 4 % 2 + v / 8 % 2 + v / 16 % 2 + v / 32 % 2 + v / 64 % 2 + v / 128 % 2) % 2 == 0
  }

  /** ZF, SF and PF speak of `r`, a number below `2 * h`. */
  predicate Shows(r: nat, h: nat, g: Flags) {
    g.zf == (r == 0) && g.sf == (r >= h) && g.pf == EvenOnes(r)
  }

  /** TF, IF and DF are as they were. */
  predicate ControlKept(f: Flags, g: Flags) {
    g.tf == f.tf && g.intf == f.intf && g.df == f.df
  }

  lemma OnesOf(v: nat, w: nat)
    requires w > 0
    ensures Ones(Bin(v, w)) == v % 2 + Ones(Bin(v / 2, w - 1))
  {
    assert Bin(v, w) == [v % 2 == 1] + Bin(v / 2, w - 1);
    assert Bin(v, w)[1..] == Bin(v / 2, w - 1);
  }

  function LowOnes(v: nat): nat {
    v % 2 + v / 2 % 2 + v / 4 % 2 + v / 8 % 2
  }

  lemma OnesOfFour(v: nat, w: nat)
    requires w >= 4
    ensures Ones(Bin(v, w)) == LowOnes(v) + Ones(Bin(v / 16, w - 4))
  {
    hide Ones, Bin;
    OnesOf(v, w);
    OnesOf(v / 2, w - 1);
    assert v / 2 / 2 == v / 4;
    OnesOf(v / 4, w - 2);
    assert v / 4 / 2 == v / 8;
    OnesOf(v / 8, w - 3);
    assert v / 8 / 2 == v / 16;
  }

  lemma NoOnes(v: nat)
    ensures Ones(Bin(v, 0)) == 0
  {
  }

  lemma HighOnes(v: nat)
    ensures LowOnes(v / 16) == v / 16 % 2 + v / 32 % 2 + v / 64 % 2 + v / 128 % 2
  {
    assert v / 16 / 2 == v / 32;
    assert v / 16 / 4 == v / 64;
    assert v / 16 / 8 == v / 128;
  }

  lemma EvenOnesIs(v: nat)
    ensures EvenOnes(v) == ((LowOnes(v) + LowOnes(v / 16)) % 2 == 0)
  {
    HighOnes(v);
  }

  lemma EvenParityIs(v: nat)
    ensures EvenParity(v) == (Ones(Bin(v, 8)) % 2 == 0)
  {
    hide Ones, Bin;
  }

  /** The parity test counts the ones of the low byte. */
  lemma ParityCounts(v: nat)
    ensures EvenParity(v) == EvenOnes(v)
  {
    hide *;
    EvenParityIs(v);
    OnesOfFour(v, 8);
    OnesOfFour(v / 16, 4);
    NoOnes(v / 16 / 16);
    EvenOnesIs(v);
  }
}
