/** Packed decimal: ADC followed by DAA, byte by byte. */
module PackedDecimal {
  import opened Bits
  import opened X86Flags
  import opened Arith
  import opened MultiWord

  /** `(al + n) & 0xFF` when `adjust` */
  function Adjusted(al: nat, adjust: bool, n: nat): (r: nat)
    requires al < 256
    ensures r < 256
  {
    if adjust then (al + n) % 256 else al
  }

  /** `daa` on AL: AL before it, CF and AF decide both corrections. */
  function Daa(al: nat, f: Flags): (r: (nat, Flags))
    requires al < 256
    ensures r.0 < 256
  {
    var low := al % 16 > 9 || f.af;
    var high := al > 0x99 || f.cf;
    var r := Adjusted(Adjusted(al, low, 0x06), high, 0x60);
    (r, ResultFlags(f, r, 8).(af := low, cf := high))
  }

  /** 6 is added for a low digit above 9 or AF, 60h for a byte above 99h or CF; AF and CF say which; ZF, SF and PF speak of the result. */
  predicate Adjusts(al: nat, f: Flags, r: nat, g: Flags) {
    g.af == (al % 16 >= 10 || f.af) && g.cf == (al >= 0x9A || f.cf)
    && r == (al + (if g.af then 6 else 0) + (if g.cf then 96 else 0)) % 256
    && Shows(r, 128, g) && ControlKept(f, g) && g.of == f.of
  }

  lemma AdjustedIs(al: nat, adjust: bool, n: nat)
    requires al < 256
    ensures Adjusted(al, adjust, n) == if adjust then (al + n) % 256 else al
  {
  }

  lemma AdjustedTwice(al: nat, low: bool, high: bool)
    requires al < 256
    ensures Adjusted(Adjusted(al, low, 0x06), high, 0x60) == (al + (if low then 6 else 0) + (if high then 96 else 0)) % 256
  {
  }

  lemma DaaFlags(f: Flags, r: nat, low: bool, high: bool)
    requires r < 256
    ensures var g := ResultFlags(f, r, 8).(af := low, cf := high); Shows(r, 128, g) && ControlKept(f, g) && g.of == f.of
  {
    assert Pow2(4) == 16;
    assert Pow2(8) == 256;
    ResultShows(f, r, 8);
    hide EvenOnes, EvenParity, Msb, Pow2;
  }

  lemma AdjustsIntro(al: nat, f: Flags, low: bool, high: bool, r: nat, g: Flags)
    requires low == (al % 16 >= 10 || f.af) && high == (al >= 0x9A || f.cf) && g.af == low && g.cf == high
    requires r == (al + (if low then 6 else 0) + (if high then 96 else 0)) % 256
    requires Shows(r, 128, g) && ControlKept(f, g) && g.of == f.of
    ensures Adjusts(al, f, r, g)
  {
    hide Shows, ControlKept;
  }

  lemma DaaParts(al: nat, f: Flags, low: bool, high: bool, r: nat)
    requires al < 256 && low == (al % 16 > 9 || f.af) && high == (al > 0x99 || f.cf) && r == Adjusted(Adjusted(al, low, 0x06), high, 0x60)
    ensures Daa(al, f) == (r, ResultFlags(f, r, 8).(af := low, cf := high))
  {
    hide Adjusted, ResultFlags;
  }

  lemma DaaAdjusts(al: nat, f: Flags)
    requires al < 256
    ensures Adjusts(al, f, Daa(al, f).0, Daa(al, f).1)
  {
    hide *;
    var low, high := al % 16 > 9 || f.af, al > 0x99 || f.cf;
    var r := Adjusted(Adjusted(al, low, 0x06), high, 0x60);
    var g := ResultFlags(f, r, 8).(af := low, cf := high);
    DaaParts(al, f, low, high, r);
    AdjustedTwice(al, low, high);
    DaaFlags(f, r, low, high);
    AdjustsIntro(al, f, low, high, r, g);
  }

  /** Two decimal digits in the nibbles of a byte. */
  predicate Packed(b: nat) {
    b < 256 && b / 16 <= 9 && b % 16 <= 9
  }

  function BcdVal(b: nat): nat {
    10 * (b / 16) + b % 16
  }

  /** A binary sum of digit sums `h` and `l` as ADC leaves it. */
  predicate RawSum(h: nat, l: nat, w: nat, f: Flags) {
    h <= 18 && l <= 19 && w == Wrapped(16 * h + l, 256) && f.cf == (16 * h + l >= 256) && f.af == (l > 15)
  }

  function High(h: nat, l: nat): nat {
    h + if l > 9 then 1 else 0
  }

  function Digit(n: nat): nat {
    if n > 9 then n - 10 else n
  }

  function LowAdjusted(h: nat, l: nat): int {
    Wrapped(16 * High(h, l) + Digit(l), 256)
  }

  lemma ByteWrap(x: nat)
    requires x < 512
    ensures x % 256 == Wrapped(x, 256)
  {
  }

  /** The low correction brings the low digit into range and carries into the high one. */
  lemma AdjustLow(h: nat, l: nat, w: nat, f: Flags)
    requires RawSum(h, l, w, f)
    ensures w < 256 && (w % 16 > 9 || f.af) == (l > 9)
    ensures 0 <= LowAdjusted(h, l) < 256 && Adjusted(w, l > 9, 0x06) == LowAdjusted(h, l)
  {
    LowNibble(h, l, w);
    hide Adjusted;
    AdjustedWraps(w, l > 9, 0x06);
  }

  lemma LowNibble(h: nat, l: nat, w: nat)
    requires h <= 18 && l <= 19 && w == Wrapped(16 * h + l, 256)
    ensures w % 16 == if l > 15 then l - 16 else l
  {
  }

  lemma AdjustedWraps(x: nat, adjust: bool, n: nat)
    requires x < 256 && n < 256
    ensures Adjusted(x, adjust, n) == if adjust then Wrapped(x + n, 256) else x
  {
    ByteWrap(x + n);
  }

  /** The high correction fires exactly when the decimal sum passes 99. */
  lemma AdjustHigh(h: nat, l: nat, w: nat, f: Flags)
    requires RawSum(h, l, w, f)
    ensures (w > 0x99 || f.cf) == (High(h, l) > 9)
  {
  }

  lemma AdjustBoth(h: nat, l: nat)
    requires h <= 18 && l <= 19 && 0 <= LowAdjusted(h, l) < 256
    ensures Adjusted(LowAdjusted(h, l), High(h, l) > 9, 0x60) == 16 * Digit(High(h, l)) + Digit(l)
    ensures Digit(High(h, l)) <= 9 && Digit(l) <= 9
  {
    hide Adjusted;
    AdjustedWraps(LowAdjusted(h, l), High(h, l) > 9, 0x60);
  }

  lemma DaaIs(w: nat, f: Flags, low: bool, high: bool)
    requires w < 256 && low == (w % 16 > 9 || f.af) && high == (w > 0x99 || f.cf)
    ensures Daa(w, f).0 == Adjusted(Adjusted(w, low, 0x06), high, 0x60) && Daa(w, f).1.cf == high
  {
    hide Adjusted, EvenParity, Msb;
  }

  /** A valid packed byte and a carry that together stand for `n`. */
  predicate Decimal(r: nat, cf: bool, n: nat) {
    Packed(r) && BcdVal(r) + Carry(cf, 100) == n
  }

  /** Digits of the two operands, and the adjusted sum. */
  lemma Adjust(h: nat, l: nat, w: nat, f: Flags)
    requires RawSum(h, l, w, f)
    ensures w < 256 && Decimal(Daa(w, f).0, Daa(w, f).1.cf, 10 * h + l)
  {
    RawBounds(h, l, w, f);
    hide *;
    AdjustLow(h, l, w, f);
    AdjustHigh(h, l, w, f);
    AdjustBoth(h, l);
    DaaIs(w, f, l > 9, High(h, l) > 9);
    DecimalFrom(Daa(w, f).0, h, l);
  }

  lemma RawBounds(h: nat, l: nat, w: nat, f: Flags)
    requires RawSum(h, l, w, f)
    ensures h <= 18 && l <= 19
  {
  }

  lemma DecimalFrom(r: nat, h: nat, l: nat)
    requires h <= 18 && l <= 19 && r == 16 * Digit(High(h, l)) + Digit(l)
    ensures Decimal(r, High(h, l) > 9, 10 * h + l)
  {
    PackedFrom(r, Digit(High(h, l)), Digit(l));
    hide Packed, BcdVal;
  }

  lemma PackedFrom(r: nat, h: nat, l: nat)
    requires h <= 9 && l <= 9 && r == 16 * h + l
    ensures Packed(r) && BcdVal(r) == 10 * h + l
  {
    assert r / 16 == h && r % 16 == l;
  }

  /** ADC then DAA on one byte each, after the loop has stepped its pointer and counter. */
  function BcdByte(g: Flags, k: nat, x: nat, y: nat, pointer: nat, counter: nat): (r: (nat, Flags)) {
    var (s, h) := Alu(Stepped(g, k, pointer, counter), Adc, x, y, 8);
    if s < 256 then Daa(s, h) else (s, h)
  }

  lemma EightBits()
    ensures Pow2(8) == 256 && Half(8) == 128
  {
    assert Pow2(4) == 16;
    assert Pow2(8) == 16 * Pow2(4);
  }

  /** The sums of the high and of the low digits. */
  function Tens(x: nat, y: nat): nat {
    x / 16 + y / 16
  }

  function Ones(x: nat, y: nat, c: bool): nat {
    x % 16 + y % 16 + Carry(c, 1)
  }

  lemma NibblesOf(x: nat, y: nat, c: bool)
    requires Packed(x) && Packed(y)
    ensures x + y + Carry(c, 1) == 16 * Tens(x, y) + Ones(x, y, c)
    ensures Tens(x, y) <= 18 && Ones(x, y, c) <= 19
  {
  }

  lemma AdcCarry(h: Flags)
    ensures CarryIn(h, Adc) == Carry(h.cf, 1) && !Subtracts(Adc)
  {
  }

  lemma AdcByte(h: Flags, x: nat, y: nat, s: nat, h': Flags)
    requires Packed(x) && Packed(y) && Alu(h, Adc, x, y, 8) == (s, h')
    ensures RawSum(Tens(x, y), Ones(x, y, h.cf), s, h')
  {
    hide Alu, Pow2, Half, Mask, CarryIn, Subtracts, Packed;
    EightBits();
    AdcCarry(h);
    PackedByte(x);
    PackedByte(y);
    AluOutcome(h, Adc, x, y, 8, s, h');
    AluNibble(h, Adc, x, y, 8, s, h');
    NibblesOf(x, y, h.cf);
  }

  lemma PackedByte(x: nat)
    requires Packed(x)
    ensures x < 256
  {
  }

  lemma BcdByteIs(g: Flags, k: nat, x: nat, y: nat, pointer: nat, counter: nat, s: nat, h: Flags)
    requires Alu(Stepped(g, k, pointer, counter), Adc, x, y, 8) == (s, h) && s < 256
    ensures BcdByte(g, k, x, y, pointer, counter) == Daa(s, h)
  {
    hide Alu, Stepped, Daa;
  }

  lemma DigitSum(x: nat, y: nat, c: bool)
    ensures 10 * Tens(x, y) + Ones(x, y, c) == BcdVal(x) + BcdVal(y) + Carry(c, 1)
  {
  }

  /** One byte: the two digits of the decimal sum, with CF as the decimal carry. */
  lemma BcdByteAdds(g: Flags, k: nat, x: nat, y: nat, pointer: nat, counter: nat)
    requires Packed(x) && Packed(y)
    ensures var w := BcdByte(g, k, x, y, pointer, counter);
            Decimal(w.0, w.1.cf, BcdVal(x) + BcdVal(y) + Carry(g.cf, 1))
  {
    hide *;
    var h := Stepped(g, k, pointer, counter);
    var w := Alu(h, Adc, x, y, 8);
    SteppedCarry(g, k, pointer, counter);
    AdcByte(h, x, y, w.0, w.1);
    Adjust(Tens(x, y), Ones(x, y, h.cf), w.0, w.1);
    BcdByteIs(g, k, x, y, pointer, counter, w.0, w.1);
    DigitSum(x, y, h.cf);
  }

  lemma DecimalIs(r: nat, cf: bool, n: nat)
    requires Decimal(r, cf, n)
    ensures Packed(r) && BcdVal(r) + Carry(cf, 100) == n
  {
  }

  /** The whole loop. */
  function BcdChain(f: Flags, xs: seq<nat>, ys: seq<nat>, pointer: nat, counter: nat): (r: (seq<nat>, Flags))
    requires |xs| == |ys|
    ensures |r.0| == |xs|
    decreases |xs|
  {
    if xs == [] then ([], f)
    else
      var k := |xs| - 1;
      var (ds, g) := BcdChain(f, xs[..k], ys[..k], pointer, counter);
      var (d, g') := BcdByte(g, k, xs[k], ys[k], pointer, counter);
      (ds + [d], g')
  }

  lemma BcdChainNext(f: Flags, xs: seq<nat>, ys: seq<nat>, pointer: nat, counter: nat)
    requires |xs| == |ys| && xs != []
    ensures var k := |xs| - 1;
            var t := BcdChain(f, xs[..k], ys[..k], pointer, counter);
            var w := BcdByte(t.1, k, xs[k], ys[k], pointer, counter);
            BcdChain(f, xs, ys, pointer, counter) == (t.0 + [w.0], w.1)
  {
    hide BcdByte;
  }

  lemma BcdChainNone(f: Flags, pointer: nat, counter: nat)
    ensures BcdChain(f, [], [], pointer, counter) == ([], f)
  {
  }

  predicate AllPacked(xs: seq<nat>) {
    forall i :: 0 <= i < |xs| ==> Packed(xs[i])
  }

  /** The two-digit groups of a packed number. */
  function Decoded(xs: seq<nat>): (r: seq<nat>)
    ensures |r| == |xs|
  {
    if xs == [] then [] else Decoded(xs[..|xs| - 1]) + [BcdVal(xs[|xs| - 1])]
  }

  lemma DecodedSnoc(xs: seq<nat>, b: nat)
    ensures Decoded(xs + [b]) == Decoded(xs) + [BcdVal(b)]
  {
    assert (xs + [b])[..|xs|] == xs;
  }

  lemma DecodedNone()
    ensures Decoded([]) == [] && AllPacked([])
  {
  }

  lemma PackedInit(xs: seq<nat>)
    requires AllPacked(xs) && xs != []
    ensures AllPacked(xs[..|xs| - 1]) && Packed(xs[|xs| - 1])
  {
  }

  lemma PackedSnoc(xs: seq<nat>, b: nat)
    requires AllPacked(xs) && Packed(b)
    ensures AllPacked(xs + [b])
  {
  }

  lemma PackedBelow(b: nat)
    requires Packed(b)
    ensures BcdVal(b) < Base(Hundred) == 100
  {
  }

  /**
   Repeating ADC and DAA from the low byte adds packed decimal numbers of any length: the
   result is valid packed decimal, its digits are those of the sum, and CF is the decimal
   carry out.
   */
  lemma {:induction false} BcdChainAdds(f: Flags, xs: seq<nat>, ys: seq<nat>, pointer: nat, counter: nat)
    requires |xs| == |ys| && AllPacked(xs) && AllPacked(ys)
    ensures var (ds, g) := BcdChain(f, xs, ys, pointer, counter);
            AllPacked(ds) && SumOf(Decoded(xs), Decoded(ys), f.cf, Hundred, Decoded(ds), g.cf)
    decreases |xs|
  {
    hide *;
    if |xs| == 0 {
      assert xs == [] && ys == [];
      BcdChainNone(f, pointer, counter);
      DecodedNone();
      SumOfNone(f.cf, Hundred);
    } else {
      var k: nat := |xs| - 1;
      var x, y, xs', ys' := xs[k], ys[k], xs[..k], ys[..k];
      PackedInit(xs);
      PackedInit(ys);
      BcdChainAdds(f, xs', ys', pointer, counter);
      BcdChainNext(f, xs, ys, pointer, counter);
      var t := BcdChain(f, xs', ys', pointer, counter);
      var w := BcdByte(t.1, k, x, y, pointer, counter);
      BcdByteAdds(t.1, k, x, y, pointer, counter);
      DecimalIs(w.0, w.1.cf, BcdVal(x) + BcdVal(y) + Carry(t.1.cf, 1));
      PackedBelow(w.0);
      SumOfSnoc(Decoded(xs'), Decoded(ys'), f.cf, Hundred, Decoded(t.0), t.1.cf, BcdVal(x), BcdVal(y), BcdVal(w.0), w.1.cf);
      PackedSnoc(t.0, w.0);
      DecodedSnoc(xs', x);
      DecodedSnoc(ys', y);
      DecodedSnoc(t.0, w.0);
      SplitLast(xs);
      SplitLast(ys);
    }
  }
}
