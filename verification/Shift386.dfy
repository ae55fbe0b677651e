/** The 386 core's shifts and rotates against the same one-bit steps. */
module Shift386 {
  import opened Bits
  import opened Memory
  import opened Shift

  // ---- rotates through carry: a loop of one-bit turns ---------------------------------

  /** One turn of the 386 core's loop. */
  function Turn386(left: bool, v: nat, cf: bool, bits: nat): (nat, bool)
    requires bits >= 1
  {
    if left then (Mask(BitOr(LShift(v, 1), BoolBit(cf)), bits), RShift(v, bits - 1) % 2 == 1)
    else (BitOr(RShift(v, 1), LShift(BoolBit(cf), bits - 1)), v % 2 == 1)
  }

  /** `((v << 1) | cf) & mask` */
  lemma LeftTurn(y: Carried)
    requires y.s != []
    ensures Mask(BitOr(LShift(Val(y.s), 1), BoolBit(y.cf)), |y.s|) == Val(Step(Rcl, y).s)
    ensures RShift(Val(y.s), |y.s| - 1) % 2 == BoolBit(Last(y.s))
  {
    LShiftWord(y.s, 1);
    assert Val([y.cf]) == BoolBit(y.cf);
    OrConcat([y.cf], y.s);
    MaskWord([y.cf] + y.s, |y.s|);
    assert ([y.cf] + y.s)[..|y.s|] == Step(Rcl, y).s;
    BitOfWord(y.s, |y.s| - 1);
  }

  /** `(v >> 1) | (cf << (bits - 1))` */
  lemma RightTurn(y: Carried)
    requires y.s != []
    ensures BitOr(RShift(Val(y.s), 1), LShift(BoolBit(y.cf), |y.s| - 1)) == Val(Step(Rcr, y).s)
  {
    RShiftWord(y.s, 1);
    assert Val([y.cf]) == BoolBit(y.cf);
    LShiftWord([y.cf], |y.s| - 1);
    OrConcat(y.s[1..], [y.cf]);
    OrCommutes(Val(y.s[1..]), Val(Fill(false, |y.s| - 1) + [y.cf]));
  }

  lemma TurnIsStep(left: bool, y: Carried)
    requires y.s != []
    ensures var r := Step(if left then Rcl else Rcr, y);
            Turn386(left, Val(y.s), y.cf, |y.s|) == (Val(r.s), r.cf)
  {
    if left { LeftTurn(y); } else { RightTurn(y); }
  }

  /** The 386 core's rotate through carry: an explicit loop of `cnt % (bits + 1)` one-bit turns. */
  method RotateThroughCarry386(left: bool, val: nat, carry: bool, count: nat, bits: nat)
    returns (v: nat, cf: bool)
    requires bits >= 1 && val < Pow2(bits)
    ensures var r := Iterate(if left then Rcl else Rcr, Carried(Bin(val, bits), carry), count % 32);
            v == Val(r.s) && cf == r.cf
  {
    hide Step, Turn386, Wrap, Val, Mask, Pow2;
    ghost var g := if left then Rcl else Rcr;
    ghost var x := Carried(Bin(val, bits), carry);
    MaskSmall(val, bits);
    var cnt := count % 32;
    var turns := Wrap(cnt, bits + 1);
    v, cf := val, carry;
    for i := 0 to turns
      invariant v == Val(Iterate(g, x, i).s) && cf == Iterate(g, x, i).cf
    {
      TurnIsStep(left, Iterate(g, x, i));
      var t := Turn386(left, v, cf, bits);
      v, cf := t.0, t.1;
    }
    ThroughCarryPeriod(g, x, cnt);
  }

  // ---- the closed forms -----------------------------------------------------------------

  /** The 386 core's ROL: a whole number of turns returns before CF is written. */
  function Rol386(v: nat, cf: bool, count: nat, bits: nat): (nat, bool)
    requires bits >= 1
  {
    var rc := Wrap(count % 32, bits);
    if rc == 0 then (v, cf)
    else
      var res := Mask(BitOr(LShift(v, rc), RShift(v, bits - rc)), bits);
      (res, res % 2 == 1)
  }

  /** It matches the one-bit steps exactly when the turn is partial, absent, or CF already agrees. */
  lemma Rol386Exact(s: Word, cf: bool, count: nat)
    requires s != []
    ensures var r := Iterate(Rol, Carried(s, cf), count % 32);
            Rol386(Val(s), cf, count, |s|) == (Val(r.s), r.cf)
            <==> count % 32 == 0 || Wrap(count % 32, |s|) != 0 || cf == s[0]
  {
    var c := count % 32;
    if c > 0 {
      RolIsIterated(s, cf, c);
      var r := Iterate(Rol, Carried(s, cf), c);
      IterateRol(Carried(s, cf), c);
      RotLFull(s);
    }
  }

  /** The 386 core's ROR returns early in the same way. */
  function Ror386(v: nat, cf: bool, count: nat, bits: nat): (nat, bool)
    requires bits >= 1
  {
    var rc := Wrap(count % 32, bits);
    if rc == 0 then (v, cf)
    else
      var res := Mask(BitOr(RShift(v, rc), LShift(v, bits - rc)), bits);
      (res, RShift(res, bits - 1) % 2 == 1)
  }

  /** It matches the one-bit steps exactly when the turn is partial, absent, or CF already is the top bit. */
  lemma Ror386Exact(s: Word, cf: bool, count: nat)
    requires s != []
    ensures var r := Iterate(Ror, Carried(s, cf), count % 32);
            Ror386(Val(s), cf, count, |s|) == (Val(r.s), r.cf)
            <==> count % 32 == 0 || Wrap(count % 32, |s|) != 0 || cf == Last(s)
  {
    var c := count % 32;
    if c > 0 {
      RorIsIterated(s, cf, c);
      var r := Iterate(Ror, Carried(s, cf), c);
      IterateRor(Carried(s, cf), c);
      RotRFull(s);
    }
  }

  /** The 386 core's SHL takes the carry from bit `bits - count`; a count above the width asks for a negative shift and raises. */
  function Shl386(v: nat, cf: bool, count: nat, bits: nat): Option<(nat, bool)> {
    var cnt := count % 32;
    if cnt == 0 then Some((v, cf))
    else if cnt > bits then None
    else Some((Mask(LShift(v, cnt), bits), RShift(v, bits - cnt) % 2 == 1))
  }

  /** It gives the one-bit steps' result and carry exactly for counts up to the width. */
  lemma Shl386Exact(s: Word, cf: bool, count: nat)
    requires s != []
    ensures var r := Iterate(Shl, Carried(s, cf), count % 32);
            Shl386(Val(s), cf, count, |s|) == Some((Val(r.s), r.cf)) <==> count % 32 <= |s|
  {
    var c := count % 32;
    if 0 < c <= |s| {
      ShlIsIterated(s, cf, c);
      hide Iterate, Mask, LShift, RShift, Val;
    }
  }

  lemma {:induction false} RShiftTwice(x: int, a: nat, b: nat)
    ensures RShift(x, a + b) == RShift(RShift(x, a), b)
    decreases a
  {
    if a > 0 {
      RShiftTwice(x / 2, a - 1, b);
    }
  }

  lemma {:induction false} RShiftSign(n: nat)
    ensures RShift(0, n) == 0 && RShift(-1, n) == -1
  {
    if n > 0 {
      RShiftSign(n - 1);
    }
  }

  /** SHR: nothing special beyond the width. */
  function Shr386(v: nat, cf: bool, count: nat, bits: nat): (nat, bool) {
    var cnt := count % 32;
    if cnt == 0 then (v, cf) else (RShift(Mask(v, bits), cnt), RShift(v, cnt - 1) % 2 == 1)
  }

  lemma ShiftedOut(s: Word, n: nat)
    requires n >= |s|
    ensures RShift(Val(s), n) == 0
  {
    RShiftWord(s, |s|);
    assert s[|s|..] == [];
    RShiftTwice(Val(s), |s|, n - |s|);
    RShiftSign(n - |s|);
    hide RShift;
  }

  /** It is the one-bit step repeated, for every count. */
  lemma Shr386IsIterated(s: Word, cf: bool, count: nat)
    requires s != []
    ensures var r := Iterate(Shr, Carried(s, cf), count % 32);
            Shr386(Val(s), cf, count, |s|) == (Val(r.s), r.cf)
  {
    hide Iterate, Mask, RShift, Val;
    var c := count % 32;
    if c > 0 {
      ShrIsIterated(s, cf, c);
      ValBound(s);
      MaskSmall(Val(s), |s|);
      if c > |s| {
        ShiftedOut(s, c);
        ShiftedOut(s, c - 1);
      }
    } else {
      assert Iterate(Shr, Carried(s, cf), 0) == Carried(s, cf) by { NoSteps(Shr, Carried(s, cf)); }
    }
  }

  // ---- SAR: Python's `>>` on the signed reading ---------------------------------------

  /** `_sign` */
  function Signed(v: nat, bits: nat): int
    requires bits >= 1
  {
    Mask(v, bits - 1) - if RShift(v, bits - 1) % 2 == 1 then Pow2(bits - 1) else 0
  }

  lemma SignedWord(s: Word)
    requires s != []
    ensures Signed(Val(s), |s|) == Val(s) - if Last(s) then Pow2(|s|) else 0
  {
    MaskWord(s, |s| - 1);
    BitOfWord(s, |s| - 1);
    TopBit(s);
    hide Mask, RShift, Val;
  }

  /** Beyond the width only copies of the sign are left. */
  lemma SignedRest(s: Word, n: nat)
    requires s != [] && n >= |s|
    ensures RShift(Signed(Val(s), |s|), n) == if Last(s) then -1 else 0
  {
    SignedWord(s);
    RShiftTwice(Signed(Val(s), |s|), |s|, n - |s|);
    RShiftSign(n - |s|);
    RShiftNegative(s, |s|);
    RShiftWord(s, |s|);
    assert s[|s|..] == [];
    assert Val([]) == 0 && Pow2(0) == 1;
    hide RShift, Signed, Val, Pow2;
  }

  lemma SignedShift(s: Word, n: nat)
    requires s != []
    ensures Mask(RShift(Signed(Val(s), |s|), n), |s|) == Val(RightBy(s, Last(s), n))
  {
    var k := if n <= |s| then n else |s|;
    SignedWord(s);
    SarNegative(s, k);
    SarPositive(s, k);
    if n > |s| {
      SignedRest(s, n);
      SignedRest(s, |s|);
      assert RightBy(s, Last(s), n) == RightBy(s, Last(s), |s|);
    }
    hide RShift, Mask, Signed, Val, RightBy;
  }

  lemma EvenLess(x: int, n: nat)
    requires n > 0
    ensures (x - Pow2(n)) % 2 == x % 2
  {
    assert Pow2(n) == 2 * Pow2(n - 1);
    hide Pow2;
  }

  lemma SignedBitInside(s: Word, n: nat)
    requires n < |s|
    ensures RShift(Signed(Val(s), |s|), n) % 2 == BoolBit(s[n])
  {
    hide *;
    SignedWord(s);
    RShiftNegative(s, n);
    RShiftWord(s, n);
    BitOfWord(s, n);
    EvenLess(Val(s[n..]), |s| - n);
  }

  lemma SignedBitBeyond(s: Word, n: nat)
    requires s != [] && n >= |s|
    ensures RShift(Signed(Val(s), |s|), n) % 2 == BoolBit(Last(s))
  {
    SignedRest(s, n);
    hide RShift, Signed, Val, Last;
  }

  lemma SignedBit(s: Word, n: nat)
    requires s != []
    ensures RShift(Signed(Val(s), |s|), n) % 2 == BoolBit(if n < |s| then s[n] else Last(s))
  {
    hide *;
    if n < |s| {
      SignedBitInside(s, n);
    } else {
      SignedBitBeyond(s, n);
    }
  }

  function Sar386(v: nat, cf: bool, count: nat, bits: nat): (nat, bool)
    requires bits >= 1
  {
    var cnt := count % 32;
    if cnt == 0 then (v, cf)
    else
      var sv := Signed(v, bits);
      (Mask(RShift(sv, cnt), bits), RShift(sv, cnt - 1) % 2 == 1)
  }

  /** SAR too is the one-bit step repeated, for every count. */
  lemma Sar386IsIterated(s: Word, cf: bool, count: nat)
    requires s != []
    ensures var r := Iterate(Sar, Carried(s, cf), count % 32);
            Sar386(Val(s), cf, count, |s|) == (Val(r.s), r.cf)
  {
    hide Iterate, Mask, RShift, Val, Signed, RightBy, Last;
    var c := count % 32;
    if c > 0 {
      IterateRight(Sar, Carried(s, cf), c);
      SignedShift(s, c);
      SignedBit(s, c - 1);
    } else {
      NoSteps(Sar, Carried(s, cf));
    }
  }

  lemma NoSteps(g: Group, x: Carried)
    requires x.s != []
    ensures Iterate(g, x, 0) == x
  {
  }
}
