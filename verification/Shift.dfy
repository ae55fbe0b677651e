/**
 The shifts and rotates of both processor cores against one-bit steps.

 The 8086 core computes every shift and rotate in one expression; the 386 core rotates
 through carry with a loop. `Step` is what the processor does for a count of one, on a
 word of any width, and `Iterate` repeats it.
 */
module Shift {
  import opened Bits
  import opened X86Flags

  /** The /reg field of the D0-D3 opcode group, in encoding order. */
  datatype Group = Rol | Ror | Rcl | Rcr | Shl | Shr | Undefined6 | Sar

  datatype Carried = Carried(s: Word, cf: bool)

  function Step(g: Group, x: Carried): (r: Carried)
    requires x.s != []
    ensures |r.s| == |x.s|
  {
    var (s, w) := (x.s, |x.s|);
    match g
    case Rol => Carried([Last(s)] + s[..w - 1], Last(s))
    case Rcl => Carried([x.cf] + s[..w - 1], Last(s))
    case Shl => Carried([false] + s[..w - 1], Last(s))
    case Ror => Carried(s[1..] + [s[0]], s[0])
    case Rcr => Carried(s[1..] + [x.cf], s[0])
    case Shr => Carried(s[1..] + [false], s[0])
    case Sar => Carried(s[1..] + [Last(s)], s[0])
    case Undefined6 => x
  }

  function Iterate(g: Group, x: Carried, n: nat): (r: Carried)
    requires x.s != []
    ensures |r.s| == |x.s|
  {
    if n == 0 then x else Step(g, Iterate(g, x, n - 1))
  }

  /**
   The step in arithmetic, `h` being the weight of the sign bit: to the left it doubles and
   the sign falls into CF, to the right it halves and the odd one does. What comes in on the
   other side is the bit that fell out, CF, the sign or nothing.
   */
  predicate Steps(g: Group, v: nat, cf: bool, h: nat, w: nat, out: bool) {
    match g
    case Shl => w == 2 * v - (if v >= h then 2 * h else 0) && out == (v >= h)
    case Rol => w == 2 * v - (if v >= h then 2 * h else 0) + (if v >= h then 1 else 0) && out == (v >= h)
    case Rcl => w == 2 * v - (if v >= h then 2 * h else 0) + (if cf then 1 else 0) && out == (v >= h)
    case Shr => w == v / 2 && out == (v % 2 == 1)
    case Ror => w == v / 2 + (if v % 2 == 1 then h else 0) && out == (v % 2 == 1)
    case Rcr => w == v / 2 + (if cf then h else 0) && out == (v % 2 == 1)
    case Sar => w == v / 2 + (if v >= h then h else 0) && out == (v % 2 == 1)
    case Undefined6 => w == v && out == cf
  }

  lemma UpperHalf(s: Word)
    requires s != []
    ensures Last(s) == (Val(s) >= Pow2(|s| - 1))
  {
    TopBit(s);
    ValBound(s[..|s| - 1]);
    hide Val, Pow2;
  }

  lemma StepLeft(x: Carried, b: bool)
    requires x.s != []
    ensures Val([b] + x.s[..|x.s| - 1]) == BoolBit(b) + 2 * (Val(x.s) - if Last(x.s) then Pow2(|x.s| - 1) else 0)
  {
    TopBit(x.s);
    assert ([b] + x.s[..|x.s| - 1])[1..] == x.s[..|x.s| - 1];
    hide Pow2, Last;
  }

  lemma StepRightOnto(x: Carried, b: bool)
    requires x.s != []
    ensures Val(x.s[1..] + [b]) == Val(x.s) / 2 + if b then Pow2(|x.s| - 1) else 0
    ensures x.s[0] == (Val(x.s) % 2 == 1)
  {
    TopBit(x.s[1..] + [b]);
    assert (x.s[1..] + [b])[..|x.s| - 1] == x.s[1..];
    Halve(x.s);
    hide Val, Pow2;
  }

  lemma StepMeans(g: Group, x: Carried)
    requires x.s != []
    ensures Steps(g, Val(x.s), x.cf, Pow2(|x.s| - 1), Val(Step(g, x).s), Step(g, x).cf)
  {
    UpperHalf(x.s);
    StepLeft(x, match g case Rol => Last(x.s) case Rcl => x.cf case _ => false);
    StepRightOnto(x, match g case Ror => x.s[0] case Rcr => x.cf case Sar => Last(x.s) case _ => false);
    hide Val, Pow2, Last;
  }

  /** Which flags are stored: CF always, ZF/SF/PF by the shifts only, OF for a count of one only. */
  function Stored(g: Group, f: Flags, count: nat, cf: bool, zf: bool, sf: bool, pf: bool, of: bool): Flags {
    var shifts := g.Shl? || g.Shr? || g.Sar?;
    Flags(cf, if shifts then pf else f.pf, f.af, if shifts then zf else f.zf, if shifts then sf else f.sf,
          f.tf, f.intf, f.df, if count == 1 then of else f.of)
  }

  /**
   The reference result: the low five bits of the count choose how many one-bit steps
   run; shifts also report the result in ZF/SF/PF; OF says that the sign bit changed.
   */
  function Reference(g: Group, f: Flags, s: Word, count: nat): (Word, Flags)
    requires |s| >= 2
  {
    var c := count % 32;
    if c == 0 then (s, f)
    else
      var r := Iterate(g, Carried(s, f.cf), c);
      (r.s, Stored(g, f, c, r.cf, Val(r.s) == 0, Last(r.s), EvenParity(Val(r.s)), Last(r.s) != Last(s)))
  }

  // ---- iterated steps in closed form ----------------------------------------

  /** `s` turned left by `n`: the n top bits come back at the bottom. */
  function RotL(s: Word, n: nat): (r: Word)
    requires n <= |s|
    ensures |r| == |s|
  {
    s[|s| - n..] + s[..|s| - n]
  }

  function RotR(s: Word, n: nat): (r: Word)
    requires n <= |s|
    ensures |r| == |s|
  {
    s[n..] + s[..n]
  }

  lemma RotLStep(s: Word, m: nat)
    requires m < |s|
    ensures var y := RotL(s, m); RotL(s, m + 1) == [Last(y)] + y[..|s| - 1]
  {
    var y, k := RotL(s, m), |s| - m - 1;
    assert Last(y) == s[k];
    assert s[k..] == [s[k]] + s[k + 1..];
    assert y[..|s| - 1] == s[k + 1..] + s[..k];
  }

  lemma RotRStep(s: Word, m: nat)
    requires m < |s|
    ensures var y := RotR(s, m); RotR(s, m + 1) == y[1..] + [y[0]]
  {
    var y := RotR(s, m);
    assert y[0] == s[m];
    assert s[..m + 1] == s[..m] + [s[m]];
    assert y[1..] == s[m + 1..] + s[..m];
  }

  lemma RotLFull(s: Word)
    ensures RotL(s, |s|) == s == RotL(s, 0)
  {
  }

  lemma RotRFull(s: Word)
    ensures RotR(s, |s|) == s == RotR(s, 0)
  {
  }

  /** `n % w` (see WrapIsMod), counted up one turn at a time. */
  function Wrap(n: nat, w: nat): (m: nat)
    requires w > 0
    ensures m < w
  {
    if n == 0 then 0 else Next(Wrap(n - 1, w), w)
  }

  function Next(m: nat, w: nat): nat
    requires m < w
  {
    if m == w - 1 then 0 else m + 1
  }

  lemma {:induction false} WrapQuotient(n: nat, w: nat) returns (q: nat)
    requires w > 0
    ensures n == q * w + Wrap(n, w)
  {
    if n == 0 {
      q := 0;
    } else {
      q := WrapQuotient(n - 1, w);
      if Wrap(n, w) == 0 {
        assert (q + 1) * w == q * w + w;
        q := q + 1;
      }
    }
  }

  lemma WrapIsMod(n: nat, w: nat)
    requires w > 0
    ensures n % w == Wrap(n, w)
  {
    var q := WrapQuotient(n, w);
    ModUnique(n, w, q, Wrap(n, w));
  }

  lemma {:induction false} IterateRol(x: Carried, n: nat)
    requires x.s != [] && n > 0
    ensures var r := Iterate(Rol, x, n);
            r.s == RotL(x.s, Wrap(n, |x.s|)) && r.cf == r.s[0]
  {
    hide RotL;
    RotLStep(x.s, Wrap(n - 1, |x.s|));
    RotLFull(x.s);
    if n > 1 {
      IterateRol(x, n - 1);
    }
  }

  lemma {:induction false} IterateRor(x: Carried, n: nat)
    requires x.s != [] && n > 0
    ensures var r := Iterate(Ror, x, n);
            r.s == RotR(x.s, Wrap(n, |x.s|)) && r.cf == Last(r.s)
  {
    hide RotR;
    RotRStep(x.s, Wrap(n - 1, |x.s|));
    RotRFull(x.s);
    if n > 1 {
      IterateRor(x, n - 1);
    }
  }

  /** One step through carry turns the word with the carry on top by one. */
  lemma RclStep(x: Carried, y: Word, m: nat)
    requires x.s != [] && m < |y| && x.s + [x.cf] == RotL(y, m)
    ensures var r := Step(Rcl, x); r.s + [r.cf] == RotL(y, Next(m, |y|))
  {
    hide RotL;
    RotLStep(y, m);
    RotLFull(y);
    var r := Step(Rcl, x);
    assert r.s + [r.cf] == [x.cf] + x.s;
    assert (x.s + [x.cf])[..|x.s|] == x.s;
  }

  lemma RcrStep(x: Carried, y: Word, m: nat)
    requires x.s != [] && m < |y| && x.s + [x.cf] == RotR(y, m)
    ensures var r := Step(Rcr, x); r.s + [r.cf] == RotR(y, Next(m, |y|))
  {
    hide RotR;
    RotRStep(y, m);
    RotRFull(y);
    var r := Step(Rcr, x);
    assert r.s + [r.cf] == x.s[1..] + [x.cf] + [x.s[0]];
    assert (x.s + [x.cf])[1..] == x.s[1..] + [x.cf];
  }

  /** Rotating left through carry is turning the word with the carry on top. */
  lemma {:induction false} IterateRcl(x: Carried, n: nat)
    requires x.s != []
    ensures var (r, y) := (Iterate(Rcl, x, n), x.s + [x.cf]);
            r.s + [r.cf] == RotL(y, Wrap(n, |y|))
  {
    hide Step, RotL;
    if n == 0 {
      RotLFull(x.s + [x.cf]);
    } else {
      IterateRcl(x, n - 1);
      RclStep(Iterate(Rcl, x, n - 1), x.s + [x.cf], Wrap(n - 1, |x.s| + 1));
    }
  }

  lemma {:induction false} IterateRcr(x: Carried, n: nat)
    requires x.s != []
    ensures var (r, y) := (Iterate(Rcr, x, n), x.s + [x.cf]);
            r.s + [r.cf] == RotR(y, Wrap(n, |y|))
  {
    hide Step, RotR;
    if n == 0 {
      RotRFull(x.s + [x.cf]);
    } else {
      IterateRcr(x, n - 1);
      RcrStep(Iterate(Rcr, x, n - 1), x.s + [x.cf], Wrap(n - 1, |x.s| + 1));
    }
  }

  /** `n` left shifts: zeros come in below. */
  function ShlBy(s: Word, n: nat): (r: Word)
    ensures |r| == |s|
  {
    if n <= |s| then Fill(false, n) + s[..|s| - n] else Fill(false, |s|)
  }

  lemma ShlByStep(s: Word, n: nat)
    requires s != []
    ensures ShlBy(s, n + 1) == [false] + ShlBy(s, n)[..|s| - 1]
  {
  }

  lemma {:induction false} IterateShl(x: Carried, n: nat)
    requires x.s != [] && n > 0
    ensures Iterate(Shl, x, n)
            == Carried(ShlBy(x.s, n), if n <= |x.s| then x.s[|x.s| - n] else false)
  {
    ShlByStep(x.s, n - 1);
    if n == 1 {
      assert ShlBy(x.s, 0) == x.s;
    } else {
      IterateShl(x, n - 1);
      assert Last(ShlBy(x.s, n - 1)) == if n <= |x.s| then x.s[|x.s| - n] else false;
    }
  }

  /** `n` right shifts bringing in copies of `b`. */
  function RightBy(s: Word, b: bool, n: nat): (r: Word)
    ensures |r| == |s|
  {
    if n <= |s| then s[n..] + Fill(b, n) else Fill(b, |s|)
  }

  lemma RightByStep(s: Word, b: bool, n: nat)
    requires s != []
    ensures RightBy(s, b, n + 1) == RightBy(s, b, n)[1..] + [b]
    ensures RightBy(s, b, n)[0] == if n < |s| then s[n] else b
  {
  }

  lemma StepRight(g: Group, x: Carried)
    requires x.s != [] && (g.Shr? || g.Sar?)
    ensures Step(g, x) == Carried(x.s[1..] + [g.Sar? && Last(x.s)], x.s[0])
  {
  }

  lemma LastRight(s: Word, b: bool, n: nat)
    requires s != [] && n > 0
    ensures Last(RightBy(s, b, n)) == b
  {
  }

  lemma RightAgain(g: Group, x: Carried, b: bool, n: nat, cf: bool)
    requires x.s != [] && (g.Shr? || g.Sar?) && b == (g.Sar? && Last(x.s))
    ensures Step(g, Carried(RightBy(x.s, b, n), cf))
            == Carried(RightBy(x.s, b, n + 1), if n < |x.s| then x.s[n] else b)
  {
    RightByStep(x.s, b, n);
    assert RightBy(x.s, b, 0) == x.s;
    hide Step, RightBy, Last;
    StepRight(g, Carried(RightBy(x.s, b, n), cf));
    if n > 0 {
      LastRight(x.s, b, n);
    }
  }

  lemma RightOnce(g: Group, x: Carried)
    requires x.s != [] && (g.Shr? || g.Sar?)
    ensures Iterate(g, x, 1) == Step(g, Carried(RightBy(x.s, g.Sar? && Last(x.s), 0), x.cf))
  {
    IterateOnce(g, x);
    hide Step, Iterate;
    assert RightBy(x.s, g.Sar? && Last(x.s), 0) == x.s;
  }

  lemma IterateNext(g: Group, x: Carried, n: nat)
    requires x.s != []
    ensures Iterate(g, x, n + 1) == Step(g, Iterate(g, x, n))
  {
  }

  lemma {:induction false} IterateRight(g: Group, x: Carried, n: nat)
    requires x.s != [] && n > 0 && (g.Shr? || g.Sar?)
    ensures var b := g.Sar? && Last(x.s);
            Iterate(g, x, n)
            == Carried(RightBy(x.s, b, n), if n <= |x.s| then x.s[n - 1] else b)
  {
    hide *;
    var b := g.Sar? && Last(x.s);
    if n == 1 {
      RightOnce(g, x);
      RightAgain(g, x, b, 0, x.cf);
    } else {
      IterateRight(g, x, n - 1);
      IterateNext(g, x, n - 1);
      RightAgain(g, x, b, n - 1, if n - 1 <= |x.s| then x.s[n - 2] else b);
    }
  }

  // ---- the expressions of the code --------------------------------------------

  /** `((x << n) | (x >> (w - n))) & mask` is a left turn. */
  lemma RotLExpression(s: Word, n: nat)
    requires n <= |s|
    ensures Mask(BitOr(LShift(Val(s), n), RShift(Val(s), |s| - n)), |s|) == Val(RotL(s, n))
  {
    var hi := s[|s| - n..];
    LShiftWord(s, n);
    RShiftWord(s, |s| - n);
    OrConcat(hi, s);
    MaskWord(hi + s, |s|);
    assert (hi + s)[..|s|] == RotL(s, n);
  }

  /** `((x >> n) | (x << (w - n))) & mask` is a right turn. */
  lemma RotRExpression(s: Word, n: nat)
    requires n <= |s|
    ensures Mask(BitOr(RShift(Val(s), n), LShift(Val(s), |s| - n)), |s|) == Val(RotR(s, n))
  {
    var hi := s[n..];
    LShiftWord(s, |s| - n);
    RShiftWord(s, n);
    OrConcat(hi, s);
    OrCommutes(Val(hi), Val(Fill(false, |s| - n) + s));
    MaskWord(hi + s, |s|);
    assert (hi + s)[..|s|] == RotR(s, n);
  }

  lemma ShlExpression(s: Word, n: nat)
    requires n <= |s|
    ensures Mask(LShift(Val(s), n), |s|) == Val(ShlBy(s, n))
  {
    LShiftWord(s, n);
    MaskWord(Fill(false, n) + s, |s|);
    assert (Fill(false, n) + s)[..|s|] == ShlBy(s, n);
  }

  lemma ShrExpression(s: Word, n: nat)
    requires n <= |s|
    ensures RShift(Val(s), n) == Val(RightBy(s, false, n))
  {
    RShiftWord(s, n);
    ZeroExtend(s[n..], n);
  }

  /** Python's `>>` floors, so shifting the negative reading right brings in ones. */
  lemma SarNegative(s: Word, n: nat)
    requires n <= |s|
    ensures Mask(RShift(Val(s) - Pow2(|s|), n), |s|) == Val(RightBy(s, true, n))
  {
    hide RShift, Mask, Val, Pow2;
    var hi := s[n..];
    RShiftNegative(s, n);
    assert RShift(Val(s) - Pow2(|s|), n) == Val(hi) - Pow2(|hi|);
    MaskNegative(hi, n);
    assert |hi| + n == |s|;
  }

  lemma SarPositive(s: Word, n: nat)
    requires n <= |s|
    ensures Mask(RShift(Val(s), n), |s|) == Val(RightBy(s, false, n))
  {
    hide RShift, Mask, Val, Pow2;
    var t := RightBy(s, false, n);
    ShrExpression(s, n);
    ValBound(t);
    MaskSmall(Val(t), |s|);
  }

  // Result and carry of the code's closed forms, for a count already reduced to 1..31.

  function ClosedShl(orig: nat, count: nat, bits: nat): (nat, bool) {
    if count <= bits then (Mask(LShift(orig, count), bits), RShift(orig, bits - count) % 2 == 1)
    else (0, false)
  }

  function ClosedShr(orig: nat, count: nat, bits: nat): (nat, bool)
    requires count >= 1
  {
    if count <= bits then (RShift(orig, count), RShift(orig, count - 1) % 2 == 1)
    else (0, false)
  }

  function ClosedSar(orig: nat, count: nat, bits: nat): (nat, bool)
    requires bits >= 1 && count >= 1
  {
    var sign := RShift(orig, bits - 1) % 2 == 1;
    if count >= bits then (if sign then Pow2(bits) - 1 else 0, sign)
    else
      var sval := if sign then orig - Pow2(bits) else orig;
      (Mask(RShift(sval, count), bits), RShift(orig, count - 1) % 2 == 1)
  }

  function ClosedRol(orig: nat, count: nat, bits: nat): (nat, bool)
    requires bits >= 1
  {
    var n := Wrap(count, bits);
    var res := if n != 0 then Mask(BitOr(LShift(orig, n), RShift(orig, bits - n)), bits) else orig;
    (res, res % 2 == 1)
  }

  function ClosedRor(orig: nat, count: nat, bits: nat): (nat, bool)
    requires bits >= 1
  {
    var n := Wrap(count, bits);
    var res := if n != 0 then Mask(BitOr(RShift(orig, n), LShift(orig, bits - n)), bits) else orig;
    (res, RShift(res, bits - 1) % 2 == 1)
  }

  function ClosedRcl(orig: nat, cf: bool, count: nat, bits: nat): (nat, bool)
    requires bits >= 1
  {
    var width := bits + 1;
    var n := Wrap(count, width);
    var all := BitOr(LShift(BoolBit(cf), bits), orig);
    var turned := if n != 0 then Mask(BitOr(LShift(all, n), RShift(all, width - n)), width) else all;
    (Mask(turned, bits), RShift(turned, bits) % 2 == 1)
  }

  function ClosedRcr(orig: nat, cf: bool, count: nat, bits: nat): (nat, bool)
    requires bits >= 1
  {
    var width := bits + 1;
    var n := Wrap(count, width);
    var all := BitOr(LShift(BoolBit(cf), bits), orig);
    var turned := if n != 0 then Mask(BitOr(RShift(all, n), LShift(all, width - n)), width) else all;
    (Mask(turned, bits), RShift(turned, bits) % 2 == 1)
  }

  // Every closed form is its one-bit step repeated, in result and in carry, at any width.

  lemma ShlIsIterated(s: Word, cf: bool, count: nat)
    requires s != [] && count > 0
    ensures var r := Iterate(Shl, Carried(s, cf), count);
            ClosedShl(Val(s), count, |s|) == (Val(r.s), r.cf)
  {
    hide Iterate, Mask, LShift, RShift, Val, Wrap;
    IterateShl(Carried(s, cf), count);
    if count <= |s| {
      ShlExpression(s, count);
      BitOfWord(s, |s| - count);
    } else {
      ValFill(|s|);
    }
  }

  lemma ShrIsIterated(s: Word, cf: bool, count: nat)
    requires s != [] && count > 0
    ensures var r := Iterate(Shr, Carried(s, cf), count);
            ClosedShr(Val(s), count, |s|) == (Val(r.s), r.cf)
  {
    hide Iterate, Mask, LShift, RShift, Val, Wrap;
    IterateRight(Shr, Carried(s, cf), count);
    if count <= |s| {
      ShrExpression(s, count);
      BitOfWord(s, count - 1);
    } else {
      ValFill(|s|);
    }
  }

  lemma SarIsIterated(s: Word, cf: bool, count: nat)
    requires s != [] && count > 0
    ensures var r := Iterate(Sar, Carried(s, cf), count);
            ClosedSar(Val(s), count, |s|) == (Val(r.s), r.cf)
  {
    hide Iterate, Mask, RShift, Val, Pow2, Wrap;
    var r := Iterate(Sar, Carried(s, cf), count);
    IterateRight(Sar, Carried(s, cf), count);
    BitOfWord(s, |s| - 1);
    if count < |s| {
      SarNegative(s, count);
      SarPositive(s, count);
      BitOfWord(s, count - 1);
    } else {
      assert r.s == Fill(Last(s), |s|);
      ValFill(|s|);
    }
  }

  lemma RolIsIterated(s: Word, cf: bool, count: nat)
    requires s != [] && count > 0
    ensures var r := Iterate(Rol, Carried(s, cf), count);
            ClosedRol(Val(s), count, |s|) == (Val(r.s), r.cf)
  {
    hide Iterate, Mask, LShift, RShift, BitOr, Wrap, RotL, Val;
    var n, r := Wrap(count, |s|), Iterate(Rol, Carried(s, cf), count);
    var res := if n != 0 then Mask(BitOr(LShift(Val(s), n), RShift(Val(s), |s| - n)), |s|) else Val(s);
    IterateRol(Carried(s, cf), count);
    assert res == Val(r.s) by {
      if n == 0 { RotLFull(s); } else { RotLExpression(s, n); }
    }
    Halve(r.s);
  }

  lemma RorIsIterated(s: Word, cf: bool, count: nat)
    requires s != [] && count > 0
    ensures var r := Iterate(Ror, Carried(s, cf), count);
            ClosedRor(Val(s), count, |s|) == (Val(r.s), r.cf)
  {
    hide Iterate, Mask, LShift, RShift, BitOr, Wrap, RotR, Val;
    var n, r := Wrap(count, |s|), Iterate(Ror, Carried(s, cf), count);
    var res := if n != 0 then Mask(BitOr(RShift(Val(s), n), LShift(Val(s), |s| - n)), |s|) else Val(s);
    IterateRor(Carried(s, cf), count);
    assert res == Val(r.s) by {
      if n == 0 { RotRFull(s); } else { RotRExpression(s, n); }
    }
    BitOfWord(r.s, |s| - 1);
  }

  /** `(cf << bits) | orig`, and taking it apart again. */
  lemma CarryOnTop(s: Word, cf: bool)
    ensures BitOr(LShift(BoolBit(cf), |s|), Val(s)) == Val(s + [cf])
    ensures Mask(Val(s + [cf]), |s|) == Val(s)
    ensures RShift(Val(s + [cf]), |s|) % 2 == BoolBit(cf)
  {
    assert Val([cf]) == BoolBit(cf);
    LShiftWord([cf], |s|);
    OrConcat(s, [cf]);
    MaskWord(s + [cf], |s|);
    BitOfWord(s + [cf], |s|);
  }

  lemma RclIsIterated(s: Word, cf: bool, count: nat)
    requires s != [] && count > 0
    ensures var r := Iterate(Rcl, Carried(s, cf), count);
            ClosedRcl(Val(s), cf, count, |s|) == (Val(r.s), r.cf)
  {
    hide Iterate, Mask, LShift, RShift, BitOr, Wrap, RotL, RotR, Val;
    var y, w, r := s + [cf], |s| + 1, Iterate(Rcl, Carried(s, cf), count);
    var n := Wrap(count, w);
    CarryOnTop(s, cf);
    CarryOnTop(r.s, r.cf);
    var all := BitOr(LShift(BoolBit(cf), |s|), Val(s));
    var turned := if n != 0 then Mask(BitOr(LShift(all, n), RShift(all, w - n)), w) else all;
    IterateRcl(Carried(s, cf), count);
    assert turned == Val(r.s + [r.cf]) by {
      if n == 0 { RotLFull(y); } else { RotLExpression(y, n); }
    }
  }

  lemma RcrIsIterated(s: Word, cf: bool, count: nat)
    requires s != [] && count > 0
    ensures var r := Iterate(Rcr, Carried(s, cf), count);
            ClosedRcr(Val(s), cf, count, |s|) == (Val(r.s), r.cf)
  {
    hide Iterate, Mask, LShift, RShift, BitOr, Wrap, RotL, RotR, Val;
    var y, w, r := s + [cf], |s| + 1, Iterate(Rcr, Carried(s, cf), count);
    var n := Wrap(count, w);
    CarryOnTop(s, cf);
    CarryOnTop(r.s, r.cf);
    var all := BitOr(LShift(BoolBit(cf), |s|), Val(s));
    var turned := if n != 0 then Mask(BitOr(RShift(all, n), LShift(all, w - n)), w) else all;
    IterateRcr(Carried(s, cf), count);
    assert turned == Val(r.s + [r.cf]) by {
      if n == 0 { RotRFull(y); } else { RotRExpression(y, n); }
    }
  }

  lemma SplitCarry(a: Carried, b: Carried)
    requires a.s + [a.cf] == b.s + [b.cf]
    ensures a == b
  {
    var (y, z) := (a.s + [a.cf], b.s + [b.cf]);
    assert |y| == |a.s| + 1 && |z| == |b.s| + 1;
    assert y[..|a.s|] == a.s && z[..|b.s|] == b.s;
    assert y[|a.s|] == a.cf && z[|b.s|] == b.cf;
  }

  /** A rotation through carry repeats after `bits + 1` steps. */
  lemma ThroughCarryPeriod(g: Group, x: Carried, n: nat)
    requires x.s != [] && (g.Rcl? || g.Rcr?)
    ensures Iterate(g, x, Wrap(n, |x.s| + 1)) == Iterate(g, x, n)
  {
    hide Iterate, RotL, RotR;
    var m := Wrap(n, |x.s| + 1);
    WrapSmall(m, |x.s| + 1);
    if g.Rcl? {
      IterateRcl(x, n);
      IterateRcl(x, m);
    } else {
      IterateRcr(x, n);
      IterateRcr(x, m);
    }
    SplitCarry(Iterate(g, x, m), Iterate(g, x, n));
  }

  lemma {:induction false} WrapSmall(n: nat, w: nat)
    requires n < w
    ensures Wrap(n, w) == n
  {
    if n > 0 {
      WrapSmall(n - 1, w);
    }
  }

  /** The code's OF after a count of one, case by case. */
  function Overflow(g: Group, orig: nat, res: nat, cf: bool, bits: nat): bool
    requires bits >= 2
  {
    var msb := Msb(res, bits);
    match g
    case Shl => Msb(orig, bits) != msb
    case Shr => Msb(orig, bits)
    case Sar => false
    case Rol => msb != (res % 2 == 1)
    case Rcl => msb != cf
    case _ => msb != (RShift(res, bits - 2) % 2 == 1)
  }

  lemma TopBitRotates(g: Group, x: Carried)
    requires |x.s| >= 2
    ensures var r := Step(g, x);
            (g.Ror? || g.Rcr? ==> r.s[|r.s| - 2] == Last(x.s)) && (g.Rol? ==> r.s[0] == Last(x.s))
  {
  }

  lemma LowBit(s: Word)
    requires s != []
    ensures Val(s) % 2 == BoolBit(s[0])
  {
  }

  /** What the step does to the sign bit, the carry and the bit that fell below the sign. */
  lemma TopBitSteps(g: Group, x: Carried)
    requires |x.s| >= 2 && !g.Undefined6?
    ensures var r := Step(g, x);
            |r.s| == |x.s| && (g.Shr? ==> !Last(r.s)) && (g.Sar? ==> Last(r.s) == Last(x.s))
            && (g.Rcl? ==> r.cf == Last(x.s))
  {
  }

  /** The seven formulas are one: the sign bit changed. */
  lemma OverflowIsSignChange(g: Group, x: Carried)
    requires |x.s| >= 2 && !g.Undefined6?
    ensures var r := Step(g, x);
            Overflow(g, Val(x.s), Val(r.s), r.cf, |x.s|) <==> Last(r.s) != Last(x.s)
  {
    hide Msb, RShift, Step, Val, Last;
    var r := Step(g, x);
    TopBitSteps(g, x);
    TopBitRotates(g, x);
    MsbOfWord(x.s);
    MsbOfWord(r.s);
    LowBit(r.s);
    BitOfWord(r.s, |r.s| - 2);
  }

  /** The status word the code stores. */
  function Status(g: Group, f: Flags, orig: nat, res: nat, cf: bool, count: nat, bits: nat): Flags
    requires bits >= 2
  {
    Stored(g, f, count, cf, res == 0, Msb(res, bits), EvenParity(res), count == 1 && Overflow(g, orig, res, cf, bits))
  }

  lemma IterateOnce(g: Group, x: Carried)
    requires x.s != []
    ensures Iterate(g, x, 1) == Step(g, x)
  {
    assert Iterate(g, x, 0) == x;
  }

  lemma ReferenceOfZero(g: Group, f: Flags, s: Word, count: nat)
    requires |s| >= 2 && count % 32 == 0
    ensures Reference(g, f, s, count) == (s, f)
  {
  }

  lemma OverflowOfOne(g: Group, x: Carried, r: Carried)
    requires |x.s| >= 2 && !g.Undefined6? && r == Iterate(g, x, 1)
    ensures Overflow(g, Val(x.s), Val(r.s), r.cf, |x.s|) == (Last(r.s) != Last(x.s))
  {
    hide Overflow, Step, Iterate, Val, Last;
    IterateOnce(g, x);
    OverflowIsSignChange(g, x);
  }

  /** The stored status word and result are the reference's. */
  lemma StatusIsReference(g: Group, f: Flags, s: Word, count: nat)
    requires |s| >= 2 && !g.Undefined6? && count % 32 > 0
    ensures var c := count % 32;
            var r := Iterate(g, Carried(s, f.cf), c);
            Reference(g, f, s, count) == (r.s, Status(g, f, Val(s), Val(r.s), r.cf, c, |s|))
  {
    hide Overflow, Step, Iterate, Val, EvenParity, Msb, Last, Stored;
    var c, x := count % 32, Carried(s, f.cf);
    var r := Iterate(g, x, c);
    MsbOfWord(r.s);
    if c == 1 {
      OverflowOfOne(g, x, r);
    } else {
      OnlyOneStoresOverflow(g, f, c, r.cf, Val(r.s) == 0, Last(r.s), EvenParity(Val(r.s)), Last(r.s) != Last(s));
    }
  }

  /**
   What the instruction leaves of a `bits`-wide operand: the one-bit step, count mod 32 times;
   ZF, SF and PF of the result after a shift; and OF, after a count of one, if the sign changed.
   */
  predicate Shifted(g: Group, f: Flags, v: nat, count: nat, bits: nat, r: nat, k: Flags)
    requires bits >= 2
  {
    if count % 32 == 0 then r == v && k == f
    else
      var x := Iterate(g, Carried(Bin(v, bits), f.cf), count % 32);
      r == Val(x.s) && k.cf == x.cf && k.af == f.af && ControlKept(f, k)
      && (if g.Shl? || g.Shr? || g.Sar? then Shows(r, Pow2(bits - 1), k) else k.zf == f.zf && k.sf == f.sf && k.pf == f.pf)
      && k.of == if count % 32 == 1 then (r >= Pow2(bits - 1)) != (v >= Pow2(bits - 1)) else f.of
  }

  lemma ReferenceTurned(g: Group, f: Flags, s: Word, count: nat, x: Carried)
    requires |s| >= 2 && count % 32 != 0 && x == Iterate(g, Carried(s, f.cf), count % 32)
    ensures Reference(g, f, s, count)
            == (x.s, Stored(g, f, count % 32, x.cf, Val(x.s) == 0, Last(x.s), EvenParity(Val(x.s)), Last(x.s) != Last(s)))
  {
    hide Iterate, Stored, Val, EvenParity, Last;
  }

  lemma StoredMeans(g: Group, f: Flags, v: nat, count: nat, bits: nat, x: Carried)
    requires bits >= 2 && count % 32 != 0 && x == Iterate(g, Carried(Bin(v, bits), f.cf), count % 32)
    ensures var (r, h) := (Val(x.s), Pow2(bits - 1));
            Shifted(g, f, v, count, bits, r, Stored(g, f, count % 32, x.cf, r == 0, r >= h, EvenOnes(r), (r >= h) != (v >= h)))
  {
    hide Iterate, Val, EvenOnes, Pow2, Bin;
  }

  lemma ReferenceMeans(g: Group, f: Flags, v: nat, count: nat, bits: nat)
    requires bits >= 2 && v < Pow2(bits)
    ensures var (s, k) := Reference(g, f, Bin(v, bits), count); Shifted(g, f, v, count, bits, Val(s), k)
  {
    hide *;
    MaskSmall(v, bits);
    var s := Bin(v, bits);
    if count % 32 == 0 {
      ReferenceOfZero(g, f, s, count);
      ShiftedNot(g, f, v, count, bits);
    } else {
      var x := Iterate(g, Carried(s, f.cf), count % 32);
      ReferenceTurned(g, f, s, count, x);
      UpperHalf(x.s);
      UpperHalf(s);
      ParityCounts(Val(x.s));
      StoredMeans(g, f, v, count, bits, x);
    }
  }

  lemma ShiftedNot(g: Group, f: Flags, v: nat, count: nat, bits: nat)
    requires bits >= 2 && count % 32 == 0
    ensures Shifted(g, f, v, count, bits, v, f)
  {
  }

  lemma OnlyOneStoresOverflow(g: Group, f: Flags, count: nat, cf: bool, zf: bool, sf: bool, pf: bool, of: bool)
    requires count != 1
    ensures Stored(g, f, count, cf, zf, sf, pf, of) == Stored(g, f, count, cf, zf, sf, pf, false)
  {
  }

  // ---- the two cores ---------------------------------------------------------------

  /** Result and carry for a reduced count, by closed form; the contract is the iteration. */
  method ShiftResult(g: Group, orig: nat, carry: bool, count: nat, bits: nat) returns (res: nat, cf: bool)
    requires bits >= 1 && count >= 1 && !g.Undefined6? && orig < Pow2(bits)
    ensures var r := Iterate(g, Carried(Bin(orig, bits), carry), count);
            res == Val(r.s) && cf == r.cf
  {
    ghost var s := Bin(orig, bits);
    MaskSmall(orig, bits);
    var r: (nat, bool);
    match g {
      case Shl => r := ClosedShl(orig, count, bits); ShlIsIterated(s, carry, count);
      case Shr => r := ClosedShr(orig, count, bits); ShrIsIterated(s, carry, count);
      case Sar => r := ClosedSar(orig, count, bits); SarIsIterated(s, carry, count);
      case Rol => r := ClosedRol(orig, count, bits); RolIsIterated(s, carry, count);
      case Ror => r := ClosedRor(orig, count, bits); RorIsIterated(s, carry, count);
      case Rcl => r := ClosedRcl(orig, carry, count, bits); RclIsIterated(s, carry, count);
      case Rcr => r := ClosedRcr(orig, carry, count, bits); RcrIsIterated(s, carry, count);
    }
    res, cf := r.0, r.1;
  }

  /** The operand the instruction sees is the low bits of `v`. */
  lemma SameBits(v: nat, bits: nat)
    ensures Mask(v, bits) < Pow2(bits) && Bin(Mask(v, bits), bits) == Bin(v, bits)
  {
    ValBound(Bin(v, bits));
    MaskSmall(Mask(v, bits), bits);
    ValInjective(Bin(Mask(v, bits), bits), Bin(v, bits));
  }

  class Cpu8086 {
    var flags: Flags

    constructor (f: Flags)
      ensures flags == f
    {
      flags := f;
    }

    /**
     The D0-D3 group. `ok` is false for the undefined /6 encoding, which the interpreter
     refuses without touching the flags.
     */
    method Shift(g: Group, val: nat, count: nat, bits: nat) returns (ok: bool, res: nat)
      requires bits >= 2
      modifies this
      ensures ok <==> count % 32 == 0 || !g.Undefined6?
      ensures !ok ==> flags == old(flags)
      ensures ok ==> var (s, f) := Reference(g, old(flags), Bin(val, bits), count);
                     res == Val(s) && flags == f
      ensures ok ==> Shifted(g, old(flags), Mask(val, bits), count, bits, res, flags)
    {
      hide *;
      var c := count % 32;
      var orig := Mask(val, bits);
      ghost var s := Bin(val, bits);
      SameBits(val, bits);
      ReferenceMeans(g, flags, orig, count, bits);
      if c == 0 {
        ReferenceOfZero(g, flags, s, count);
        return true, orig;
      }
      if g.Undefined6? {
        return false, orig;
      }
      StatusIsReference(g, flags, s, count);
      var cf;
      res, cf := ShiftResult(g, orig, flags.cf, c, bits);
      flags := Status(g, flags, orig, res, cf, c, bits);
      ok := true;
    }
  }
}
