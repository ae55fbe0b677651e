/** Slice assignment on a byte buffer against the same transfer done one unit at a time. */
module Blocks {

  /** `d[dst:dst+|x|] = x` */
  function Put<T>(d: seq<T>, dst: nat, x: seq<T>): (r: seq<T>)
    requires dst + |x| <= |d|
    ensures |r| == |d|
    ensures forall i :: 0 <= i < |d| ==> r[i] == if dst <= i < dst + |x| then x[i - dst] else d[i]
  {
    d[..dst] + x + d[dst + |x|..]
  }

  /** `d[dst:dst+n] = d[src:src+n]` */
  function Move<T>(d: seq<T>, src: nat, dst: nat, n: nat): (r: seq<T>)
    requires src + n <= |d| && dst + n <= |d|
    ensures |r| == |d|
  {
    Put(d, dst, d[src..src + n])
  }

  /** The same bytes moved in `count` units of `w`: each unit is read whole, then written. */
  function MoveUnits<T>(d: seq<T>, src: nat, dst: nat, w: nat, count: nat): (r: seq<T>)
    requires src + w * count <= |d| && dst + w * count <= |d|
    ensures |r| == |d|
    decreases count
  {
    if count == 0 then d
    else
      MulSucc(w, count - 1);
      MoveUnits(Move(d, src, dst, w), src + w, dst + w, w, count - 1)
  }

  lemma MulSucc(w: nat, k: nat)
    ensures w * (k + 1) == w * k + w
    ensures w * k >= 0
  {
  }

  /** No byte is read after the transfer itself has overwritten it. */
  predicate SafeForward(src: nat, dst: nat, n: nat) {
    !(src < dst < src + n)
  }

  lemma PutAfterPut<T>(d: seq<T>, dst: nat, x: seq<T>, y: seq<T>)
    requires dst + |x| + |y| <= |d|
    ensures Put(Put(d, dst, x), dst + |x|, y) == Put(d, dst, x + y)
  {
  }

  /** The first part of a safe move leaves the source of the rest alone. */
  lemma RestIsUntouched<T>(d: seq<T>, src: nat, dst: nat, w: nat, n: nat)
    requires src + w + n <= |d| && dst + w + n <= |d| && SafeForward(src, dst, w + n)
    ensures Move(d, src, dst, w)[src + w..src + w + n] == d[src + w..src + w + n]
  {
  }

  lemma SliceInTwo<T>(d: seq<T>, a: nat, b: nat, c: nat)
    requires a <= b <= c <= |d|
    ensures d[a..b] + d[b..c] == d[a..c]
  {
  }

  lemma MoveAfterMove<T>(d: seq<T>, src: nat, dst: nat, w: nat, n: nat)
    requires src + w + n <= |d| && dst + w + n <= |d| && SafeForward(src, dst, w + n)
    ensures Move(Move(d, src, dst, w), src + w, dst + w, n) == Move(d, src, dst, w + n)
  {
    hide Put, SafeForward;
    RestIsUntouched(d, src, dst, w, n);
    PutAfterPut(d, dst, d[src..src + w], d[src + w..src + w + n]);
    SliceInTwo(d, src, src + w, src + w + n);
  }

  /** Unit order is invisible to a copy that never reads what it wrote. */
  lemma {:induction false} UnitsAreMove<T>(d: seq<T>, src: nat, dst: nat, w: nat, count: nat)
    requires src + w * count <= |d| && dst + w * count <= |d|
    requires SafeForward(src, dst, w * count)
    ensures MoveUnits(d, src, dst, w, count) == Move(d, src, dst, w * count)
    decreases count
  {
    hide Move;
    if count == 0 {
      MoveNothing(d, src, dst);
    } else {
      MulSucc(w, count - 1);
      UnitsAreMove(Move(d, src, dst, w), src + w, dst + w, w, count - 1);
      MoveAfterMove(d, src, dst, w, w * (count - 1));
    }
  }

  lemma MoveNothing<T>(d: seq<T>, src: nat, dst: nat)
    requires src <= |d| && dst <= |d|
    ensures Move(d, src, dst, 0) == d
  {
  }

  /**
   With a forward overlap the unit loop replicates instead: every byte of the
   destination equals the byte `dst - src` before it in the result.
   */
  lemma {:induction false} OverlapReplicates<T>(d: seq<T>, src: nat, dst: nat, count: nat, i: nat)
    requires src < dst && dst + count <= |d| && dst <= i < dst + count
    ensures var r := MoveUnits(d, src, dst, 1, count); r[i] == r[i - (dst - src)]
    decreases count
  {
    var e := Move(d, src, dst, 1);
    assert MoveUnits(d, src, dst, 1, count) == MoveUnits(e, src + 1, dst + 1, 1, count - 1);
    if i == dst {
      UnitsFrame(e, src + 1, dst + 1, 1, count - 1, dst);
      UnitsFrame(e, src + 1, dst + 1, 1, count - 1, src);
    } else {
      OverlapReplicates(e, src + 1, dst + 1, count - 1, i);
    }
  }

  lemma {:induction false} UnitsFrame<T>(d: seq<T>, src: nat, dst: nat, w: nat, count: nat, i: nat)
    requires src + w * count <= |d| && dst + w * count <= |d| && i < |d|
    requires i < dst || i >= dst + w * count
    ensures MoveUnits(d, src, dst, w, count)[i] == d[i]
    decreases count
  {
    if count > 0 {
      MulSucc(w, count - 1);
      UnitsFrame(Move(d, src, dst, w), src + w, dst + w, w, count - 1, i);
    }
  }

  /** So the guard is needed: a snapshot copy would disagree as soon as the two range starts do. */
  lemma OverlapGuardIsNeeded<T>(d: seq<T>, src: nat, dst: nat, n: nat)
    requires src < dst < src + n && dst + n <= |d| && d[src] != d[dst]
    ensures MoveUnits(d, src, dst, 1, n) != Move(d, src, dst, n)
  {
    var i := dst + (dst - src);
    OverlapReplicates(d, src, dst, n, i);
    OverlapReplicates(d, src, dst, n, dst);
    UnitsFrame(d, src, dst, 1, n, src);
    assert Move(d, src, dst, n)[i] == d[src..src + n][dst - src];
  }

  // ---- fills ---------------------------------------------------------------------

  /** `p * count` */
  function Repeat<T>(p: seq<T>, count: nat): (r: seq<T>)
    ensures |r| == |p| * count
  {
    if count == 0 then [] else MulSucc(|p|, count - 1); p + Repeat(p, count - 1)
  }

  /** `count` stores of the pattern, one after another. */
  function FillUnits<T>(d: seq<T>, dst: nat, p: seq<T>, count: nat): (r: seq<T>)
    requires dst + |p| * count <= |d|
    ensures |r| == |d|
    decreases count
  {
    if count == 0 then d
    else
      MulSucc(|p|, count - 1);
      FillUnits(Put(d, dst, p), dst + |p|, p, count - 1)
  }

  lemma {:induction false} FillUnitsIsPut<T>(d: seq<T>, dst: nat, p: seq<T>, count: nat)
    requires dst + |p| * count <= |d|
    ensures FillUnits(d, dst, p, count) == Put(d, dst, Repeat(p, count))
    decreases count
  {
    hide Put;
    if count == 0 {
      assert Put(d, dst, []) == d;
    } else {
      MulSucc(|p|, count - 1);
      FillUnitsIsPut(Put(d, dst, p), dst + |p|, p, count - 1);
      PutAfterPut(d, dst, p, Repeat(p, count - 1));
    }
  }

  /** A repeated pattern of one, two or four elements, place by place. */
  lemma {:induction false} RepeatAt<T>(p: seq<T>, k: nat, i: nat)
    requires |p| == 1 || |p| == 2 || |p| == 4
    requires i < |Repeat(p, k)|
    ensures Repeat(p, k)[i] == p[i % |p|]
    decreases k
  {
    if k > 0 && i >= |p| {
      RepeatAt(p, k - 1, i - |p|);
      StepBack(i, |p|);
    }
  }

  lemma StepBack(i: nat, n: nat)
    requires (n == 1 || n == 2 || n == 4) && i >= n
    ensures (i - n) % n == i % n
  {
  }
}
