/** Numbers of any length, little end first, and what chains of one-word operations compute on them. */
module MultiWord {
  import opened Bits
  import opened X86Flags
  import opened Arith

  /** What one place of a number is worth relative to the place below. */
  datatype Radix = Binary(bits: nat) | Hundred

  function Up(v: int, radix: Radix): int {
    match radix
    case Binary(bits) => LShift(v, bits)
    case Hundred => 100 * v
  }

  /** `v` in place `k`. */
  function Scale(v: int, radix: Radix, k: nat): int
    decreases k
  {
    if k == 0 then v else Scale(Up(v, radix), radix, k - 1)
  }

  /** The number of values `k` places can hold. */
  function Capacity(radix: Radix, k: nat): int {
    Scale(1, radix, k)
  }

  function NumVal(xs: seq<nat>, radix: Radix): int {
    if xs == [] then 0
    else
      var k := |xs| - 1;
      NumVal(xs[..k], radix) + Scale(xs[k], radix, k)
  }

  lemma {:induction false} LShiftLinear(x: int, y: int, n: nat)
    ensures LShift(x + y, n) == LShift(x, n) + LShift(y, n)
  {
    if n > 0 {
      LShiftLinear(x, y, n - 1);
    }
  }

  lemma {:induction false} LShiftOne(n: nat)
    ensures LShift(1, n) == Pow2(n)
  {
    if n > 0 {
      LShiftOne(n - 1);
    }
  }

  lemma {:induction false} ScaleSum(x: int, y: int, radix: Radix, k: nat)
    ensures Scale(x + y, radix, k) == Scale(x, radix, k) + Scale(y, radix, k)
    decreases k
  {
    if k > 0 {
      match radix {
        case Binary(bits) => LShiftLinear(x, y, bits);
        case Hundred =>
      }
      ScaleSum(Up(x, radix), Up(y, radix), radix, k - 1);
    }
  }

  lemma {:induction false} ScalePositive(x: nat, radix: Radix, k: nat)
    ensures Scale(x, radix, k) >= 0
    decreases k
  {
    if k > 0 {
      ScalePositive(Up(x, radix), radix, k - 1);
    }
  }

  lemma ScaleMonotone(x: int, y: int, radix: Radix, k: nat)
    requires x <= y
    ensures Scale(x, radix, k) <= Scale(y, radix, k)
  {
    ScaleSum(x, y - x, radix, k);
    ScalePositive(y - x, radix, k);
  }

  function Base(radix: Radix): int {
    match radix
    case Binary(bits) => Pow2(bits)
    case Hundred => 100
  }

  lemma CapacityNext(radix: Radix, k: nat)
    ensures Scale(Base(radix), radix, k) == Capacity(radix, k + 1)
  {
    match radix {
      case Binary(bits) => LShiftOne(bits);
      case Hundred =>
    }
  }

  ghost predicate Digits(xs: seq<nat>, radix: Radix) {
    forall i :: 0 <= i < |xs| ==> xs[i] < Base(radix)
  }

  lemma DigitsInit(xs: seq<nat>, radix: Radix)
    requires Digits(xs, radix) && xs != []
    ensures Digits(xs[..|xs| - 1], radix) && xs[|xs| - 1] < Base(radix)
  {
  }

  lemma DigitsSnoc(xs: seq<nat>, d: nat, radix: Radix)
    requires Digits(xs, radix) && d < Base(radix)
    ensures Digits(xs + [d], radix)
  {
  }

  lemma NumValSnoc(xs: seq<nat>, d: nat, radix: Radix)
    ensures NumVal(xs + [d], radix) == NumVal(xs, radix) + Scale(d, radix, |xs|)
  {
    assert (xs + [d])[..|xs|] == xs;
  }

  lemma NumValInit(xs: seq<nat>, radix: Radix)
    requires xs != []
    ensures NumVal(xs, radix) == NumVal(xs[..|xs| - 1], radix) + Scale(xs[|xs| - 1], radix, |xs| - 1)
  {
  }

  lemma NumValNone(radix: Radix)
    ensures NumVal([], radix) == 0 && Capacity(radix, 0) == 1
  {
  }

  /** A number fits its places. */
  lemma {:induction false} NumBound(xs: seq<nat>, radix: Radix)
    requires Digits(xs, radix)
    ensures 0 <= NumVal(xs, radix) < Capacity(radix, |xs|)
  {
    hide *;
    if xs == [] {
      NumValNone(radix);
    } else {
      var k: nat := |xs| - 1;
      DigitsInit(xs, radix);
      NumBound(xs[..k], radix);
      NumValInit(xs, radix);
      ScaleMonotone(0, xs[k], radix, k);
      ScaleMonotone(xs[k] + 1, Base(radix), radix, k);
      ScaleSum(xs[k], 1, radix, k);
      ScaleSum(0, 0, radix, k);
      CapacityNext(radix, k);
      CapacityIs(radix, k);
    }
  }

  lemma CapacityIs(radix: Radix, k: nat)
    ensures Capacity(radix, k) == Scale(1, radix, k)
  {
  }

  // ---- carries between places -----------------------------------------------------

  function Carry(c: bool, n: int): (r: int)
    ensures n >= 0 ==> 0 <= r <= n
  {
    if c then n else 0
  }

  /** One more place of a sum: the carry out of each place is worth one of the next. */
  lemma PlaceAdded(radix: Radix, k: nat, lo: int, x0: int, y0: int, c: bool, x: int, y: int, d: int, c': bool)
    requires lo + Carry(c, Capacity(radix, k)) == x0 + y0
    requires d + Carry(c', Base(radix)) == x + y + Carry(c, 1)
    ensures lo + Scale(d, radix, k) + Carry(c', Capacity(radix, k + 1))
            == x0 + Scale(x, radix, k) + (y0 + Scale(y, radix, k))
  {
    hide *;
    ScaledPlace(radix, k, x, y, c, d, c');
  }

  /** The equation of one place, scaled. */
  lemma ScaledPlace(radix: Radix, k: nat, x: int, y: int, c: bool, d: int, c': bool)
    requires d + Carry(c', Base(radix)) == x + y + Carry(c, 1)
    ensures Scale(d, radix, k) + Carry(c', Capacity(radix, k + 1))
            == Scale(x, radix, k) + Scale(y, radix, k) + Carry(c, Capacity(radix, k))
  {
    hide *;
    CarryUp(c, c', radix, k);
    ScaleSum(d, Carry(c', Base(radix)), radix, k);
    ScaleEqual(d + Carry(c', Base(radix)), x + y + Carry(c, 1), radix, k);
    ScaleThree(x, y, Carry(c, 1), radix, k);
  }

  lemma ScaleThree(x: int, y: int, z: int, radix: Radix, k: nat)
    ensures Scale(x + y + z, radix, k) == Scale(x, radix, k) + Scale(y, radix, k) + Scale(z, radix, k)
  {
    hide *;
    ScaleSum(x + y, z, radix, k);
    ScaleSum(x, y, radix, k);
  }

  lemma ScaleEqual(u: int, v: int, radix: Radix, k: nat)
    requires u == v
    ensures Scale(u, radix, k) == Scale(v, radix, k)
  {
  }

  lemma CarryUp(c: bool, c': bool, radix: Radix, k: nat)
    ensures Scale(Carry(c, 1), radix, k) == Carry(c, Capacity(radix, k))
    ensures Scale(Carry(c', Base(radix)), radix, k) == Carry(c', Capacity(radix, k + 1))
  {
    hide Scale, Carry, Base;
    ScaleCarry(c', Base(radix), radix, k);
    ScaleCarry(c, 1, radix, k);
    CapacityNext(radix, k);
  }

  lemma ScaleCarry(c: bool, v: int, radix: Radix, k: nat)
    ensures Scale(Carry(c, v), radix, k) == Carry(c, Scale(v, radix, k))
  {
    ScaleSum(0, 0, radix, k);
    hide Scale;
  }

  // ---- chains --------------------------------------------------------------------

  /** Between two words a loop steps its pointer with INC and its counter with DEC. */
  function Advance(f: Flags, pointer: nat, counter: nat): Flags {
    var g := IncDecFlags(f, pointer, Mask(pointer + 1, 16), 16, false);
    IncDecFlags(g, counter, Mask(counter - 1, 16), 16, true)
  }

  lemma AdvanceKeepsCarry(f: Flags, pointer: nat, counter: nat)
    ensures Advance(f, pointer, counter).cf == f.cf
  {
    hide Mask, Pow2, Msb, EvenParity;
  }

  function WordOp(sub: bool, k: nat): AluOp {
    if k == 0 then if sub then Sub else Add
    else if sub then Sbb else Adc
  }

  /** The flags word `k` starts from, after the step that follows word `k - 1`. */
  function Stepped(g: Flags, k: nat, pointer: nat, counter: nat): Flags {
    if k == 0 then g else Advance(g, Mask(pointer + k - 1, 16), Mask(counter - (k - 1), 16))
  }

  /** Word `k` of a chain. */
  function ChainWord(sub: bool, g: Flags, k: nat, x: nat, y: nat, bits: nat, pointer: nat, counter: nat): (nat, Flags)
    requires bits >= 1
  {
    Alu(Stepped(g, k, pointer, counter), WordOp(sub, k), x, y, bits)
  }

  /** ADD or SUB on the lowest words, then ADC or SBB upwards, stepping pointer and counter in between. */
  function Chain(sub: bool, f: Flags, xs: seq<nat>, ys: seq<nat>, bits: nat, pointer: nat, counter: nat): (r: (seq<nat>, Flags))
    requires bits >= 1 && |xs| == |ys|
    decreases |xs|
  {
    if xs == [] then ([], f)
    else
      var k := |xs| - 1;
      var (ds, g) := Chain(sub, f, xs[..k], ys[..k], bits, pointer, counter);
      var (d, g') := ChainWord(sub, g, k, xs[k], ys[k], bits, pointer, counter);
      (ds + [d], g')
  }

  /** The carry that enters word `k`. */
  function Entering(g: Flags, k: nat): bool {
    k > 0 && g.cf
  }

  lemma SteppedCarry(g: Flags, k: nat, pointer: nat, counter: nat)
    ensures Stepped(g, k, pointer, counter).cf == g.cf
  {
    hide Advance, IncDecFlags, ResultFlags, Mask;
    if k > 0 {
      AdvanceKeepsCarry(g, Mask(pointer + k - 1, 16), Mask(counter - (k - 1), 16));
    }
  }

  lemma WordOpCarry(sub: bool, h: Flags, k: nat)
    ensures CarryIn(h, WordOp(sub, k)) == Carry(k > 0 && h.cf, 1) && Subtracts(WordOp(sub, k)) == sub
  {
  }

  lemma EnteringIs(g: Flags, k: nat)
    ensures Entering(g, k) == (k > 0 && g.cf)
  {
  }

  lemma WordCarry(sub: bool, g: Flags, k: nat, pointer: nat, counter: nat)
    ensures CarryIn(Stepped(g, k, pointer, counter), WordOp(sub, k)) == Carry(Entering(g, k), 1)
    ensures Subtracts(WordOp(sub, k)) == sub
  {
    hide *;
    SteppedCarry(g, k, pointer, counter);
    WordOpCarry(sub, Stepped(g, k, pointer, counter), k);
    EnteringIs(g, k);
  }

  lemma WordAdds(g: Flags, k: nat, x: nat, y: nat, bits: nat, pointer: nat, counter: nat, d: nat, g': Flags)
    requires bits >= 1 && x < Pow2(bits) && y < Pow2(bits)
    requires ChainWord(false, g, k, x, y, bits, pointer, counter) == (d, g')
    ensures d < Pow2(bits) && d + Carry(g'.cf, Pow2(bits)) == x + y + Carry(Entering(g, k), 1)
  {
    var h := Stepped(g, k, pointer, counter);
    WordCarry(false, g, k, pointer, counter);
    hide Alu, Stepped, WordOp, Subtracts, CarryIn, Pow2;
    AddMeans(h, WordOp(false, k), x, y, bits, d, g');
  }

  lemma WordSubtracts(g: Flags, k: nat, x: nat, y: nat, bits: nat, pointer: nat, counter: nat, d: nat, g': Flags)
    requires bits >= 1 && x < Pow2(bits) && y < Pow2(bits)
    requires ChainWord(true, g, k, x, y, bits, pointer, counter) == (d, g')
    ensures d < Pow2(bits) && d + y + Carry(Entering(g, k), 1) == x + Carry(g'.cf, Pow2(bits))
    ensures g'.zf == (d == 0)
    ensures (g'.sf != g'.of)
            == (AsSigned(x, Half(bits)) - AsSigned(y, Half(bits)) - Carry(Entering(g, k), 1) < 0)
  {
    var h := Stepped(g, k, pointer, counter);
    WordCarry(true, g, k, pointer, counter);
    hide Alu, Stepped, WordOp, Subtracts, CarryIn, Pow2, AsSigned;
    SubMeans(h, WordOp(true, k), x, y, bits, d, g');
    AluOutcome(h, WordOp(true, k), x, y, bits, d, g');
  }

  /** What a chain of additions leaves: the exact sum with the first carry, and CF as the carry out. */
  ghost predicate SumOf(xs: seq<nat>, ys: seq<nat>, first: bool, radix: Radix, ds: seq<nat>, carry: bool) {
    |ds| == |xs| && Digits(ds, radix)
    && NumVal(ds, radix) + Carry(carry, Capacity(radix, |xs|)) == NumVal(xs, radix) + NumVal(ys, radix) + Carry(first, 1)
  }

  /** What a chain of subtractions leaves: the exact difference, with CF as the borrow. */
  ghost predicate DifferenceOf(xs: seq<nat>, ys: seq<nat>, radix: Radix, ds: seq<nat>, borrow: bool) {
    |ds| == |xs| && Digits(ds, radix)
    && NumVal(ds, radix) + NumVal(ys, radix) == NumVal(xs, radix) + Carry(borrow, Capacity(radix, |xs|))
  }

  lemma SumOfNone(first: bool, radix: Radix)
    ensures SumOf([], [], first, radix, [], first) && DifferenceOf([], [], radix, [], false)
  {
  }

  lemma SumOfSnoc(xs: seq<nat>, ys: seq<nat>, first: bool, radix: Radix, ds: seq<nat>, c: bool, x: nat, y: nat, d: nat, c': bool)
    requires |xs| == |ys| && SumOf(xs, ys, first, radix, ds, c)
    requires d < Base(radix) && d + Carry(c', Base(radix)) == x + y + Carry(c, 1)
    ensures SumOf(xs + [x], ys + [y], first, radix, ds + [d], c')
  {
    var k := |xs|;
    NumValSnoc(xs, x, radix);
    NumValSnoc(ys, y, radix);
    NumValSnoc(ds, d, radix);
    DigitsSnoc(ds, d, radix);
    hide Carry, NumVal, Scale, Digits, Base, Capacity;
    PlaceAdded(radix, k, NumVal(ds, radix), NumVal(xs, radix) + Carry(first, 1), NumVal(ys, radix), c, x, y, d, c');
  }

  lemma DifferenceOfSnoc(xs: seq<nat>, ys: seq<nat>, radix: Radix, ds: seq<nat>, c: bool, x: nat, y: nat, d: nat, c': bool)
    requires |xs| == |ys| && DifferenceOf(xs, ys, radix, ds, c)
    requires d < Base(radix) && d + y + Carry(c, 1) == x + Carry(c', Base(radix))
    ensures DifferenceOf(xs + [x], ys + [y], radix, ds + [d], c')
  {
    var k := |xs|;
    NumValSnoc(xs, x, radix);
    NumValSnoc(ys, y, radix);
    NumValSnoc(ds, d, radix);
    DigitsSnoc(ds, d, radix);
    hide Carry, NumVal, Scale, Digits, Base, Capacity;
    PlaceTaken(radix, k, NumVal(ds, radix), NumVal(xs, radix), NumVal(ys, radix), c, x, y, d, c');
  }

  lemma PlaceTaken(radix: Radix, k: nat, lo: int, x0: int, y0: int, c: bool, x: int, y: int, d: int, c': bool)
    requires lo + y0 == x0 + Carry(c, Capacity(radix, k))
    requires d + y + Carry(c, 1) == x + Carry(c', Base(radix))
    ensures lo + Scale(d, radix, k) + (y0 + Scale(y, radix, k))
            == x0 + Scale(x, radix, k) + Carry(c', Capacity(radix, k + 1))
  {
    hide *;
    ScaledPlace(radix, k, d, y, c, x, c');
  }

  lemma ChainNext(sub: bool, f: Flags, xs: seq<nat>, ys: seq<nat>, bits: nat, pointer: nat, counter: nat)
    requires bits >= 1 && |xs| == |ys| && xs != []
    ensures var k := |xs| - 1;
            var t := Chain(sub, f, xs[..k], ys[..k], bits, pointer, counter);
            var w := ChainWord(sub, t.1, k, xs[k], ys[k], bits, pointer, counter);
            Chain(sub, f, xs, ys, bits, pointer, counter) == (t.0 + [w.0], w.1)
  {
    hide ChainWord;
  }

  lemma ChainNone(sub: bool, f: Flags, bits: nat, pointer: nat, counter: nat)
    requires bits >= 1
    ensures Chain(sub, f, [], [], bits, pointer, counter) == ([], f)
  {
  }

  lemma SplitLast(xs: seq<nat>)
    requires xs != []
    ensures xs == xs[..|xs| - 1] + [xs[|xs| - 1]]
  {
  }

  lemma EnteringNone(g: Flags, n: nat)
    ensures n == 0 ==> !Entering(g, n)
    ensures n > 0 ==> Entering(g, n) == g.cf
  {
  }

  lemma BinaryBase(bits: nat)
    ensures Base(Binary(bits)) == Pow2(bits)
  {
  }

  /** ADD then ADC compute the exact sum of two n-word numbers, with CF as the carry out. */
  lemma {:induction false} ChainAdds(f: Flags, xs: seq<nat>, ys: seq<nat>, bits: nat, pointer: nat, counter: nat)
    requires bits >= 1 && |xs| == |ys| && Digits(xs, Binary(bits)) && Digits(ys, Binary(bits))
    ensures var (ds, g) := Chain(false, f, xs, ys, bits, pointer, counter);
            SumOf(xs, ys, false, Binary(bits), ds, Entering(g, |xs|))
    decreases |xs|
  {
    hide *;
    var radix := Binary(bits);
    if |xs| == 0 {
      assert xs == [] && ys == [];
      ChainNone(false, f, bits, pointer, counter);
      SumOfNone(false, radix);
      EnteringNone(f, 0);
    } else {
      var k: nat := |xs| - 1;
      var x, y, xs', ys' := xs[k], ys[k], xs[..k], ys[..k];
      DigitsInit(xs, radix);
      DigitsInit(ys, radix);
      ChainAdds(f, xs', ys', bits, pointer, counter);
      ChainNext(false, f, xs, ys, bits, pointer, counter);
      var t := Chain(false, f, xs', ys', bits, pointer, counter);
      var w := ChainWord(false, t.1, k, x, y, bits, pointer, counter);
      BinaryBase(bits);
      WordAdds(t.1, k, x, y, bits, pointer, counter, w.0, w.1);
      SumOfSnoc(xs', ys', false, radix, t.0, Entering(t.1, k), x, y, w.0, w.1.cf);
      SplitLast(xs);
      SplitLast(ys);
      EnteringNone(w.1, |xs|);
    }
  }

  /** SUB then SBB compute the exact difference, with CF as the borrow. */
  lemma {:induction false} ChainSubtracts(f: Flags, xs: seq<nat>, ys: seq<nat>, bits: nat, pointer: nat, counter: nat)
    requires bits >= 1 && |xs| == |ys| && Digits(xs, Binary(bits)) && Digits(ys, Binary(bits))
    ensures var (ds, g) := Chain(true, f, xs, ys, bits, pointer, counter);
            DifferenceOf(xs, ys, Binary(bits), ds, Entering(g, |xs|))
    decreases |xs|
  {
    hide *;
    var radix := Binary(bits);
    if |xs| == 0 {
      assert xs == [] && ys == [];
      ChainNone(true, f, bits, pointer, counter);
      SumOfNone(false, radix);
      EnteringNone(f, 0);
    } else {
      var k: nat := |xs| - 1;
      var x, y, xs', ys' := xs[k], ys[k], xs[..k], ys[..k];
      DigitsInit(xs, radix);
      DigitsInit(ys, radix);
      ChainSubtracts(f, xs', ys', bits, pointer, counter);
      ChainNext(true, f, xs, ys, bits, pointer, counter);
      var t := Chain(true, f, xs', ys', bits, pointer, counter);
      var w := ChainWord(true, t.1, k, x, y, bits, pointer, counter);
      BinaryBase(bits);
      WordSubtracts(t.1, k, x, y, bits, pointer, counter, w.0, w.1);
      DifferenceOfSnoc(xs', ys', radix, t.0, Entering(t.1, k), x, y, w.0, w.1.cf);
      SplitLast(xs);
      SplitLast(ys);
      EnteringNone(w.1, |xs|);
    }
  }

  // ---- comparison ------------------------------------------------------------------

  /** Two's complement reading of an n-word number: its sign is the sign of the top word. */
  function SignedNum(xs: seq<nat>, bits: nat): int
    requires bits >= 1 && xs != []
  {
    NumVal(xs, Binary(bits)) - Carry(xs[|xs| - 1] >= Half(bits), Capacity(Binary(bits), |xs|))
  }

  lemma SignedTop(xs: seq<nat>, bits: nat)
    requires bits >= 1 && xs != []
    ensures var k := |xs| - 1;
            SignedNum(xs, bits) == NumVal(xs[..k], Binary(bits)) + Scale(AsSigned(xs[k], Half(bits)), Binary(bits), k)
  {
    var k, r := |xs| - 1, Binary(bits);
    var n := Carry(xs[k] >= Half(bits), Pow2(bits));
    NumValInit(xs, r);
    ScaleSum(AsSigned(xs[k], Half(bits)), n, r, k);
    ScaleCarry(xs[k] >= Half(bits), Pow2(bits), r, k);
    CapacityNext(r, k);
    BinaryBase(bits);
    hide Scale, NumVal, Pow2, Half, Capacity;
  }

  /** Comparing top words with the borrow from below compares the whole numbers. */
  lemma TopDecides(radix: Radix, k: nat, x0: int, y0: int, c: bool, sx: int, sy: int)
    requires 0 <= x0 < Capacity(radix, k) && 0 <= y0 < Capacity(radix, k) && c == (x0 < y0)
    ensures (x0 + Scale(sx, radix, k) < y0 + Scale(sy, radix, k)) == (sx - sy - Carry(c, 1) < 0)
  {
    if sx < sy {
      ScaleMonotone(sx + 1, sy, radix, k);
      ScaleSum(sx, 1, radix, k);
    } else if sx > sy {
      ScaleMonotone(sy + 1, sx, radix, k);
      ScaleSum(sy, 1, radix, k);
    }
    hide Scale;
  }

  /** What the borrow of a difference says. */
  lemma BorrowMeansLess(xs: seq<nat>, ys: seq<nat>, radix: Radix, ds: seq<nat>, c: bool)
    requires |xs| == |ys| && Digits(xs, radix) && Digits(ys, radix) && DifferenceOf(xs, ys, radix, ds, c)
    ensures c == (NumVal(xs, radix) < NumVal(ys, radix))
  {
    NumBound(xs, radix);
    NumBound(ys, radix);
    NumBound(ds, radix);
    hide NumVal, Capacity, Digits;
  }

  /** After SUB/SBB on n words JB decides the unsigned comparison of the whole numbers and JL the signed one. */
  lemma ChainCompares(f: Flags, xs: seq<nat>, ys: seq<nat>, bits: nat, pointer: nat, counter: nat)
    requires bits >= 1 && |xs| == |ys| && xs != [] && Digits(xs, Binary(bits)) && Digits(ys, Binary(bits))
    ensures var g := Chain(true, f, xs, ys, bits, pointer, counter).1;
            Condition(g, 0x2) == (NumVal(xs, Binary(bits)) < NumVal(ys, Binary(bits))) == !Condition(g, 0x3)
            && Condition(g, 0xC) == (SignedNum(xs, bits) < SignedNum(ys, bits)) == !Condition(g, 0xD)
  {
    hide *;
    var radix, k: nat := Binary(bits), |xs| - 1;
    var x, y, xs', ys' := xs[k], ys[k], xs[..k], ys[..k];
    var t := Chain(true, f, xs', ys', bits, pointer, counter);
    var w := ChainWord(true, t.1, k, x, y, bits, pointer, counter);
    DigitsInit(xs, radix);
    DigitsInit(ys, radix);
    ChainNext(true, f, xs, ys, bits, pointer, counter);
    ChainSubtracts(f, xs, ys, bits, pointer, counter);
    EnteringNone(w.1, |xs|);
    BorrowMeansLess(xs, ys, radix, t.0 + [w.0], w.1.cf);
    ChainSubtracts(f, xs', ys', bits, pointer, counter);
    BorrowMeansLess(xs', ys', radix, t.0, Entering(t.1, k));
    BinaryBase(bits);
    WordSubtracts(t.1, k, x, y, bits, pointer, counter, w.0, w.1);
    SignedTop(xs, bits);
    SignedTop(ys, bits);
    NumBound(xs', radix);
    NumBound(ys', radix);
    TopDecides(radix, k, NumVal(xs', radix), NumVal(ys', radix), Entering(t.1, k), AsSigned(x, Half(bits)), AsSigned(y, Half(bits)));
    ConditionsOf(w.1);
  }

  /** The top word of the minuend is the subtrahend's plus the borrow from below, modulo the word. */
  predicate TopsMeet(x: nat, y: nat, borrow: bool, bits: nat) {
    x == y + Carry(borrow, 1) || (x == 0 && y + Carry(borrow, 1) == Pow2(bits))
  }

  lemma TopVanishes(x: nat, y: nat, borrow: bool, bits: nat, d: nat, c: bool)
    requires bits >= 1 && x < Pow2(bits) && y < Pow2(bits) && d < Pow2(bits)
    requires d + y + Carry(borrow, 1) == x + Carry(c, Pow2(bits))
    ensures d == 0 <==> TopsMeet(x, y, borrow, bits)
  {
    hide Pow2;
  }

  /** JE after the chain speaks of the top word and the borrow that enters it. */
  lemma JeMeans(f: Flags, xs: seq<nat>, ys: seq<nat>, bits: nat, pointer: nat, counter: nat)
    requires bits >= 1 && |xs| == |ys| && xs != [] && Digits(xs, Binary(bits)) && Digits(ys, Binary(bits))
    ensures var k := |xs| - 1;
            Condition(Chain(true, f, xs, ys, bits, pointer, counter).1, 0x4)
            <==> TopsMeet(xs[k], ys[k], NumVal(xs[..k], Binary(bits)) < NumVal(ys[..k], Binary(bits)), bits)
  {
    hide *;
    var radix, k: nat := Binary(bits), |xs| - 1;
    var x, y, xs', ys' := xs[k], ys[k], xs[..k], ys[..k];
    var t := Chain(true, f, xs', ys', bits, pointer, counter);
    var w := ChainWord(true, t.1, k, x, y, bits, pointer, counter);
    DigitsInit(xs, radix);
    DigitsInit(ys, radix);
    ChainNext(true, f, xs, ys, bits, pointer, counter);
    ChainSubtracts(f, xs', ys', bits, pointer, counter);
    BorrowMeansLess(xs', ys', radix, t.0, Entering(t.1, k));
    BinaryBase(bits);
    WordSubtracts(t.1, k, x, y, bits, pointer, counter, w.0, w.1);
    TopVanishes(x, y, Entering(t.1, k), bits, w.0, w.1.cf);
    ConditionsOf(w.1);
  }

  /** Numbers are equal when their tops and what is below are. */
  lemma EqualByParts(xs: seq<nat>, ys: seq<nat>, radix: Radix)
    requires |xs| == |ys| && xs != [] && Digits(xs, radix) && Digits(ys, radix)
    ensures var k := |xs| - 1;
            NumVal(xs, radix) == NumVal(ys, radix) <==> xs[k] == ys[k] && NumVal(xs[..k], radix) == NumVal(ys[..k], radix)
  {
    hide *;
    var k: nat := |xs| - 1;
    DigitsInit(xs, radix);
    DigitsInit(ys, radix);
    NumBound(xs[..k], radix);
    NumBound(ys[..k], radix);
    NumValInit(xs, radix);
    NumValInit(ys, radix);
    var x0, y0 := NumVal(xs[..k], radix), NumVal(ys[..k], radix);
    TopDecides(radix, k, x0, y0, x0 < y0, xs[k], ys[k]);
    TopDecides(radix, k, y0, x0, y0 < x0, ys[k], xs[k]);
    EitherWay(xs[k], ys[k], x0, y0, NumVal(xs, radix), NumVal(ys, radix));
  }

  lemma EitherWay(x: int, y: int, x0: int, y0: int, a: int, b: int)
    requires (a < b) == (x - y - Carry(x0 < y0, 1) < 0) && (b < a) == (y - x - Carry(y0 < x0, 1) < 0)
    ensures a == b <==> x == y && x0 == y0
  {
  }

  /** JE decides equality of the whole numbers exactly when the parts below are equal or the tops do not meet. */
  lemma JeExact(f: Flags, xs: seq<nat>, ys: seq<nat>, bits: nat, pointer: nat, counter: nat)
    requires bits >= 1 && |xs| == |ys| && xs != [] && Digits(xs, Binary(bits)) && Digits(ys, Binary(bits))
    ensures var (r, k) := (Binary(bits), |xs| - 1);
            var (x0, y0) := (NumVal(xs[..k], r), NumVal(ys[..k], r));
            Condition(Chain(true, f, xs, ys, bits, pointer, counter).1, 0x4) == (NumVal(xs, r) == NumVal(ys, r))
            <==> x0 == y0 || !TopsMeet(xs[k], ys[k], x0 < y0, bits)
  {
    hide *;
    JeMeans(f, xs, ys, bits, pointer, counter);
    EqualByParts(xs, ys, Binary(bits));
    var k := |xs| - 1;
    if NumVal(xs[..k], Binary(bits)) == NumVal(ys[..k], Binary(bits)) {
      DigitsInit(xs, Binary(bits));
      DigitsInit(ys, Binary(bits));
      BinaryBase(bits);
      NoBorrow(xs[k], ys[k], bits);
    }
  }

  lemma NoBorrow(x: nat, y: nat, bits: nat)
    requires bits >= 1 && x < Pow2(bits) && y < Pow2(bits)
    ensures TopsMeet(x, y, false, bits) <==> x == y
  {
    hide Pow2;
  }

  /** So with equal tops and more below JE is taken although the numbers differ. */
  lemma EqualTopsLookEqual(f: Flags, xs: seq<nat>, ys: seq<nat>, bits: nat, pointer: nat, counter: nat)
    requires bits >= 1 && |xs| == |ys| && xs != [] && Digits(xs, Binary(bits)) && Digits(ys, Binary(bits))
    requires xs[|xs| - 1] == ys[|xs| - 1]
    requires NumVal(xs[..|xs| - 1], Binary(bits)) > NumVal(ys[..|xs| - 1], Binary(bits))
    ensures Condition(Chain(true, f, xs, ys, bits, pointer, counter).1, 0x4)
    ensures NumVal(xs, Binary(bits)) != NumVal(ys, Binary(bits))
  {
    JeMeans(f, xs, ys, bits, pointer, counter);
    EqualByParts(xs, ys, Binary(bits));
    hide Chain, Condition, NumVal, Pow2;
  }
}
