/**
 The integer operations `<<`, `>>`, `& mask` and `|` that the emulator's code performs,
 one bit at a time, and fixed-width words as bit sequences, least significant bit first.
 */
module Bits {

  type Word = seq<bool>

  /** `1 << n` */
  function Pow2(n: nat): (p: nat)
    ensures p >= 1
  {
    if n == 0 then 1 else 2 * Pow2(n - 1)
  }

  /** `x << n` */
  function LShift(x: int, n: nat): (r: int)
    ensures x >= 0 ==> r >= 0
  {
    if n == 0 then x else 2 * LShift(x, n - 1)
  }

  /** `x >> n`: floors, like Python's, because `/ 2` does. */
  function RShift(x: int, n: nat): (r: int)
    ensures x >= 0 ==> r >= 0
    decreases n
  {
    if n == 0 then x else RShift(x / 2, n - 1)
  }

  /** `x & ((1 << n) - 1)` */
  function Mask(x: int, n: nat): (r: nat)
    decreases n
  {
    if n == 0 then 0 else x % 2 + 2 * Mask(x / 2, n - 1)
  }

  /** `x | y` */
  function BitOr(x: nat, y: nat): nat
    decreases x + y
  {
    if x == 0 then y
    else if y == 0 then x
    else 2 * BitOr(x / 2, y / 2) + BoolBit(x % 2 == 1 || y % 2 == 1)
  }

  function BoolBit(b: bool): nat {
    if b then 1 else 0
  }

  // ---- words ------------------------------------------------------------------

  /** The number a word stands for. */
  function Val(s: Word): (v: nat)
  {
    if s == [] then 0 else BoolBit(s[0]) + 2 * Val(s[1..])
  }

  /** The `w` low bits of `v`. */
  function Bin(v: int, w: nat): (s: Word)
    ensures |s| == w && Val(s) == Mask(v, w)
    decreases w
  {
    if w == 0 then [] else [v % 2 == 1] + Bin(v / 2, w - 1)
  }

  function Last(s: Word): bool
    requires s != []
  {
    s[|s| - 1]
  }

  function Fill(b: bool, n: nat): (s: Word)
    ensures |s| == n && forall i :: 0 <= i < n ==> s[i] == b
  {
    seq(n, _ => b)
  }

  function Ones(s: Word): nat {
    if s == [] then 0 else BoolBit(s[0]) + Ones(s[1..])
  }

  /** x86 PF: the low byte holds an even number of ones. */
  predicate EvenParity(v: nat) {
    Ones(Bin(v, 8)) % 2 == 0
  }

  // ---- the operations on words --------------------------------------------------

  lemma {:induction false} LShiftWord(s: Word, n: nat)
    ensures LShift(Val(s), n) == Val(Fill(false, n) + s)
  {
    if n == 0 {
      assert Fill(false, 0) + s == s;
    } else {
      LShiftWord(s, n - 1);
      assert (Fill(false, n) + s)[1..] == Fill(false, n - 1) + s;
    }
  }

  /** Halving a word drops its low bit. */
  lemma Halve(s: Word)
    requires s != []
    ensures Val(s) / 2 == Val(s[1..]) && Val(s) % 2 == BoolBit(s[0])
  {
    var b, t := BoolBit(s[0]), Val(s[1..]);
    assert Val(s) == b + 2 * t;
    hide *;
    assert BoolBit(s[0]) < 2;
  }

  lemma {:induction false} RShiftWord(s: Word, n: nat)
    requires n <= |s|
    ensures RShift(Val(s), n) == Val(s[n..])
  {
    hide Val;
    if n > 0 {
      Halve(s);
      RShiftWord(s[1..], n - 1);
      assert s[1..][n - 1..] == s[n..];
    } else {
      assert s[0..] == s;
    }
  }

  lemma HalveDifference(b: nat, t: int, p: int)
    requires b < 2
    ensures (b + 2 * t - 2 * p) / 2 == t - p && (b + 2 * t - 2 * p) % 2 == b
  {
    assert b + 2 * t - 2 * p == b + 2 * (t - p);
  }

  /** The negative reading of a word, halved. */
  lemma HalveNegative(s: Word)
    requires s != []
    ensures (Val(s) - Pow2(|s|)) / 2 == Val(s[1..]) - Pow2(|s| - 1)
    ensures (Val(s) - Pow2(|s|)) % 2 == BoolBit(s[0])
  {
    HalveDifference(BoolBit(s[0]), Val(s[1..]), Pow2(|s| - 1));
  }

  /** Shifting the negative reading of a word. */
  lemma {:induction false} RShiftNegative(s: Word, n: nat)
    requires n <= |s|
    ensures RShift(Val(s) - Pow2(|s|), n) == Val(s[n..]) - Pow2(|s| - n)
  {
    if n > 0 {
      hide Val, Pow2;
      HalveNegative(s);
      RShiftNegative(s[1..], n - 1);
      assert s[1..][n - 1..] == s[n..];
    } else {
      assert s[0..] == s;
    }
  }

  lemma {:induction false} MaskWord(s: Word, n: nat)
    requires n <= |s|
    ensures Mask(Val(s), n) == Val(s[..n])
  {
    if n > 0 {
      Halve(s);
      Halve(s[..n]);
      MaskWord(s[1..], n - 1);
      assert s[..n][1..] == s[1..][..n - 1];
      hide Val;
    }
  }

  lemma {:induction false} MaskMinusOne(n: nat)
    ensures Mask(-1, n) == Val(Fill(true, n))
  {
    if n > 0 {
      MaskMinusOne(n - 1);
      assert Fill(true, n)[1..] == Fill(true, n - 1);
    }
  }

  /** The last bit weighs half the range. */
  lemma {:induction false} TopBit(s: Word)
    requires s != []
    ensures Val(s) == Val(s[..|s| - 1]) + if Last(s) then Pow2(|s| - 1) else 0
  {
    Halve(s);
    if |s| > 1 {
      Halve(s[..|s| - 1]);
      TopBit(s[1..]);
      assert s[..|s| - 1][1..] == s[1..][..|s| - 2];
    }
  }

  /** Masking a negative number extends its word with ones. */
  lemma {:induction false} MaskNegative(s: Word, n: nat)
    ensures Mask(Val(s) - Pow2(|s|), |s| + n) == Val(s + Fill(true, n))
  {
    if s == [] {
      MaskMinusOne(n);
      assert [] + Fill(true, n) == Fill(true, n);
    } else {
      hide Val, Pow2;
      HalveNegative(s);
      MaskNegative(s[1..], n);
      assert (s + Fill(true, n))[1..] == s[1..] + Fill(true, n);
    }
  }

  /** Zeros on top change nothing. */
  lemma {:induction false} ZeroExtend(s: Word, n: nat)
    ensures Val(s + Fill(false, n)) == Val(s)
  {
    if s != [] {
      ZeroExtend(s[1..], n);
      assert (s + Fill(false, n))[1..] == s[1..] + Fill(false, n);
    } else if n > 0 {
      ZeroExtend([], n - 1);
      assert ([] + Fill(false, n))[1..] == [] + Fill(false, n - 1);
    }
  }

  lemma {:induction false} ValFill(n: nat)
    ensures Val(Fill(false, n)) == 0 && Val(Fill(true, n)) == Pow2(n) - 1
  {
    if n > 0 {
      ValFill(n - 1);
      assert Fill(false, n)[1..] == Fill(false, n - 1);
      assert Fill(true, n)[1..] == Fill(true, n - 1);
    }
  }

  /** OR of a value with |lo| zero low bits and a |lo|-bit value is concatenation. */
  lemma {:induction false} OrConcat(lo: Word, hi: Word)
    ensures BitOr(Val(Fill(false, |lo|) + hi), Val(lo)) == Val(lo + hi)
  {
    var x := Fill(false, |lo|) + hi;
    if lo == [] {
      assert x == hi == lo + hi;
    } else {
      var x' := Fill(false, |lo| - 1) + hi;
      assert x[1..] == x';
      OrConcat(lo[1..], hi);
      assert (lo + hi)[1..] == lo[1..] + hi;
      OrStep(x, lo);
    }
  }

  lemma OrStep(a: Word, b: Word)
    requires a != [] && b != []
    ensures BitOr(Val(a), Val(b)) == BoolBit(a[0] || b[0]) + 2 * BitOr(Val(a[1..]), Val(b[1..]))
  {
    Halve(a);
    Halve(b);
    hide Val;
    BitOrZero(Val(a[1..]));
    BitOrZero(Val(b[1..]));
  }

  lemma BitOrZero(x: nat)
    ensures BitOr(x, 0) == x == BitOr(0, x)
  {
  }

  lemma {:induction false} OrCommutes(x: nat, y: nat)
    ensures BitOr(x, y) == BitOr(y, x)
    decreases x + y
  {
    if x != 0 && y != 0 {
      OrCommutes(x / 2, y / 2);
    }
  }

  /** `(x >> i) & 1` is bit i. */
  lemma BitOfWord(s: Word, i: nat)
    requires i < |s|
    ensures RShift(Val(s), i) % 2 == BoolBit(s[i])
  {
    hide *;
    RShiftWord(s, i);
    Halve(s[i..]);
    assert s[i..][0] == s[i];
  }

  lemma {:induction false} ValBound(s: Word)
    ensures Val(s) < Pow2(|s|)
  {
    if s != [] {
      ValBound(s[1..]);
    }
  }

  lemma {:induction false} ValInjective(a: Word, b: Word)
    requires |a| == |b| && Val(a) == Val(b)
    ensures a == b
  {
    if a != [] {
      ValInjective(a[1..], b[1..]);
      assert a == [a[0]] + a[1..] && b == [b[0]] + b[1..];
    }
  }

  // ---- the same operations as arithmetic -----------------------------------------

  /** A number that fits is its own masked value. */
  lemma {:induction false} MaskSmall(v: nat, w: nat)
    requires v < Pow2(w)
    ensures Mask(v, w) == v
  {
    if w > 0 {
      MaskSmall(v / 2, w - 1);
    }
  }

  /** Masking drops one multiple of 2^w, in either direction. */
  lemma {:induction false} MaskShift(v: int, w: nat)
    ensures Mask(v + Pow2(w), w) == Mask(v, w)
    decreases w
  {
    if w > 0 {
      MaskShift(v / 2, w - 1);
      assert (v + 2 * Pow2(w - 1)) / 2 == v / 2 + Pow2(w - 1);
    }
  }

  lemma ModUnique(x: int, w: int, q: int, r: int)
    requires 0 <= r < w && x == q * w + r
    ensures x % w == r
  {
    var e := x / w - q;
    assert x == w * (x / w) + x % w;
    assert w * e == r - x % w by {
      assert w * e == w * (x / w) - w * q;
      assert w * q == q * w;
    }
    if e >= 1 {
      MulMono(w, 1, e);
    } else if e <= -1 {
      MulMono(w, e, -1);
    }
  }

  lemma MulMono(d: int, a: int, b: int)
    requires d >= 0 && a <= b
    ensures d * a <= d * b
  {
  }
}
