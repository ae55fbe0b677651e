/** What a rebased load of an LE image changes, byte by byte and field by field. */
module LeRebase {
  import opened Bits
  import opened Blocks
  import opened Memory
  import opened LeLoader

  predicate Covers(w: Write, x: nat) {
    w.at <= x < w.at + |w.bytes|
  }

  /** The store whose byte ends up at `x`. */
  function LastCover(ws: seq<Write>, x: nat): (r: Option<Write>)
    ensures r.Some? ==> Covers(r.value, x) && r.value in ws
    decreases |ws|
  {
    if ws == [] then None
    else
      var w := ws[|ws| - 1];
      if Covers(w, x) then Some(w) else LastCover(ws[..|ws| - 1], x)
  }

  /** No store counts from the end of the memory, whose size depends on where the image is loaded. */
  ghost predicate Forward(ws: seq<Write>) {
    forall i :: 0 <= i < |ws| ==> ws[i].at >= 0
  }

  /** Every store lies inside `n` bytes. */
  ghost predicate Inside(ws: seq<Write>, n: nat) {
    forall i :: 0 <= i < |ws| ==> 0 <= ws[i].at && ws[i].at + |ws[i].bytes| <= n
  }

  function ByteAt(mem: seq<Byte>, ws: seq<Write>, x: nat): Byte
    requires x < |mem|
  {
    match LastCover(ws, x)
    case None => mem[x]
    case Some(w) => w.bytes[x - w.at]
  }

  lemma ApplyNext(mem: seq<Byte>, ws: seq<Write>)
    requires ws != []
    ensures ApplyWrites(mem, ws) == match ApplyWrites(mem, ws[..|ws| - 1])
                                    case None => None
                                    case Some(m) => ApplyWrite(m, ws[|ws| - 1])
  {
    hide ApplyWrite;
  }

  lemma ForwardInit(ws: seq<Write>)
    requires Forward(ws) && ws != []
    ensures Forward(ws[..|ws| - 1]) && ws[|ws| - 1].at >= 0
  {
  }

  lemma InsideInit(ws: seq<Write>, n: nat)
    requires ws != []
    ensures Inside(ws, n) <==> Inside(ws[..|ws| - 1], n) && 0 <= ws[|ws| - 1].at && ws[|ws| - 1].at + |ws[|ws| - 1].bytes| <= n
  {
    var init, w := ws[..|ws| - 1], ws[|ws| - 1];
    assert ws == init + [w];
  }

  lemma ForwardApply(mem: seq<Byte>, w: Write)
    requires w.at >= 0
    ensures ApplyWrite(mem, w).Some? <==> w.at + |w.bytes| <= |mem|
    ensures ApplyWrite(mem, w).Some? ==> ApplyWrite(mem, w).value == Put(mem, w.at, w.bytes)
  {
    hide Put;
  }

  /** Forward stores succeed exactly when they fit. */
  lemma {:induction false} ApplyFits(mem: seq<Byte>, ws: seq<Write>)
    requires Forward(ws)
    ensures ApplyWrites(mem, ws).Some? <==> Inside(ws, |mem|)
    decreases |ws|
  {
    if ws != [] {
      ForwardInit(ws);
      ApplyFits(mem, ws[..|ws| - 1]);
      InsideInit(ws, |mem|);
      ApplyNext(mem, ws);
      hide ApplyWrites, ApplyWrite, Forward, Inside;
      match ApplyWrites(mem, ws[..|ws| - 1]) {
        case None =>
        case Some(m) =>
          ApplySize(mem, ws[..|ws| - 1]);
          ForwardApply(m, ws[|ws| - 1]);
      }
    }
  }

  lemma ApplySize(mem: seq<Byte>, ws: seq<Write>)
    ensures ApplyWrites(mem, ws).Some? ==> |ApplyWrites(mem, ws).value| == |mem|
  {
  }

  lemma ByteAtNext(mem: seq<Byte>, ws: seq<Write>, x: nat)
    requires ws != [] && x < |mem|
    ensures var w := ws[|ws| - 1];
            ByteAt(mem, ws, x) == if Covers(w, x) then w.bytes[x - w.at] else ByteAt(mem, ws[..|ws| - 1], x)
  {
  }

  /** Each byte is the one its last store put there. */
  lemma {:induction false} ApplyIsLastCover(mem: seq<Byte>, ws: seq<Write>, x: nat)
    requires Forward(ws) && ApplyWrites(mem, ws).Some? && x < |mem|
    ensures ApplyWrites(mem, ws).value[x] == ByteAt(mem, ws, x)
    decreases |ws|
  {
    if ws != [] {
      var w := ws[|ws| - 1];
      ForwardInit(ws);
      ApplyNext(mem, ws);
      ByteAtNext(mem, ws, x);
      hide ApplyWrites, ApplyWrite, Forward, ByteAt;
      ApplyIsLastCover(mem, ws[..|ws| - 1], x);
      ApplySize(mem, ws[..|ws| - 1]);
      ForwardApply(ApplyWrites(mem, ws[..|ws| - 1]).value, w);
    }
  }

  // ---- shifted stores ------------------------------------------------------------------

  lemma MovedShape(ws: seq<Write>, d: int)
    ensures Forward(ws) ==> Forward(MovedAll(ws, d))
    ensures forall n: nat :: Inside(ws, n) <==> Inside(MovedAll(ws, d), n)
  {
    forall i | 0 <= i < |ws|
      ensures MovedAll(ws, d)[i].at == ws[i].at && |MovedAll(ws, d)[i].bytes| == |ws[i].bytes|
    {
    }
  }

  lemma MovedCovers(w: Write, d: int, x: nat)
    ensures Covers(Moved(w, d), x) == Covers(w, x)
  {
  }

  lemma MovedLast(ws: seq<Write>, d: int)
    requires ws != []
    ensures MovedAll(ws, d)[..|ws| - 1] == MovedAll(ws[..|ws| - 1], d) && MovedAll(ws, d)[|ws| - 1] == Moved(ws[|ws| - 1], d)
  {
  }

  lemma LastCoverNext(ws: seq<Write>, x: nat)
    ensures ws == [] ==> LastCover(ws, x) == None
    ensures ws != [] ==>
              LastCover(ws, x) == if Covers(ws[|ws| - 1], x) then Some(ws[|ws| - 1]) else LastCover(ws[..|ws| - 1], x)
  {
  }

  function MovedCover(w: Option<Write>, d: int): Option<Write> {
    match w
    case None => None
    case Some(x) => Some(Moved(x, d))
  }

  lemma {:induction false} MovedLastCover(ws: seq<Write>, d: int, x: nat)
    ensures LastCover(MovedAll(ws, d), x) == MovedCover(LastCover(ws, x), d)
    decreases |ws|
  {
    LastCoverNext(ws, x);
    LastCoverNext(MovedAll(ws, d), x);
    hide LastCover, Covers, Moved;
    if ws != [] {
      MovedLast(ws, d);
      MovedCovers(ws[|ws| - 1], d, x);
      MovedLastCover(ws[..|ws| - 1], d, x);
    }
  }

  /** What one byte of a load shifted by `d` is, next to the same byte of the unshifted load. */
  predicate ByteMoves(ws: seq<Write>, d: int, x: nat, before: Byte, after: Byte) {
    match LastCover(ws, x)
    case None => before == after == 0
    case Some(w) =>
      before == w.bytes[x - w.at]
      && after == if w.moves then Bytes(Num(w.bytes) + d, |w.bytes|)[x - w.at] else before
  }

  lemma BytesMove(ws: seq<Write>, n0: nat, n1: nat, d: int, x: nat)
    requires Forward(ws) && ApplyWrites(Zeros(n0), ws).Some? && n0 <= n1 && x < n0
    ensures ApplyWrites(Zeros(n1), MovedAll(ws, d)).Some?
    ensures ByteMoves(ws, d, x, ApplyWrites(Zeros(n0), ws).value[x], ApplyWrites(Zeros(n1), MovedAll(ws, d)).value[x])
  {
    hide *;
    StillFits(ws, n0, n1, d);
    ApplyIsLastCover(Zeros(n0), ws, x);
    ApplyIsLastCover(Zeros(n1), MovedAll(ws, d), x);
    ByteCompare(ws, n0, n1, d, x);
  }

  lemma ByteCompare(ws: seq<Write>, n0: nat, n1: nat, d: int, x: nat)
    requires x < n0 <= n1
    ensures ByteMoves(ws, d, x, ByteAt(Zeros(n0), ws, x), ByteAt(Zeros(n1), MovedAll(ws, d), x))
  {
    hide MovedAll, LastCover, Bytes, Num;
    MovedLastCover(ws, d, x);
  }

  lemma StillFits(ws: seq<Write>, n0: nat, n1: nat, d: int)
    requires Forward(ws) && ApplyWrites(Zeros(n0), ws).Some? && n0 <= n1
    ensures Forward(MovedAll(ws, d)) && ApplyWrites(Zeros(n1), MovedAll(ws, d)).Some?
  {
    ApplyFits(Zeros(n0), ws);
    MovedShape(ws, d);
    hide ApplyWrites, MovedAll, Forward;
    ApplyFits(Zeros(n1), MovedAll(ws, d));
    assert Inside(ws, n1);
  }

  // ---- the memory's size --------------------------------------------------------------

  lemma {:induction false} TopMoves(objects: seq<LeObject>, d: int)
    requires objects != []
    ensures Shifted(objects, d) != [] && Top(Shifted(objects, d)) == Top(objects) + d
    decreases |objects|
  {
    ShiftedNext(objects, d);
    hide Shifted;
    if |objects| > 1 {
      TopMoves(objects[1..], d);
    }
  }

  /** For a power-of-two page size, rounding up keeps the order. */
  lemma {:induction false} AndNotMonotone(x: nat, y: nat, k: nat)
    requires x <= y
    ensures AndNot(x, Pow2(k) - 1) <= AndNot(y, Pow2(k) - 1)
    decreases x + y + k
  {
    if k == 0 {
      AndNotNothing(x);
      AndNotNothing(y);
    } else if x > 0 {
      assert (Pow2(k) - 1) / 2 == Pow2(k - 1) - 1 && (Pow2(k) - 1) % 2 == 1;
      AndNotMonotone(x / 2, y / 2, k - 1);
    }
  }

  lemma {:induction false} AndNotNothing(x: nat)
    ensures AndNot(x, 0) == x
  {
    if x > 0 {
      AndNotNothing(x / 2);
    }
  }

  /** The shifted image gets at least as much memory: page-aligned above a higher top, or the same limit. */
  lemma SizeGrows(top: int, k: nat, d: nat)
    requires top >= 0
    ensures Align(top, Pow2(k)) <= Align(top + d, Pow2(k))
  {
    AndNotMonotone(top + Pow2(k) - 1, top + d + Pow2(k) - 1, k);
  }

  lemma {:induction false} AndNotBelow(x: nat, k: nat)
    ensures AndNot(x, Pow2(k) - 1) > x - Pow2(k)
    decreases k
  {
    if k == 0 {
      AndNotNothing(x);
    } else if x > 0 {
      assert (Pow2(k) - 1) / 2 == Pow2(k - 1) - 1 && (Pow2(k) - 1) % 2 == 1;
      AndNotBelow(x / 2, k - 1);
    }
  }

  /** For a power-of-two page size the rounded size holds every object. */
  lemma AlignCovers(top: nat, k: nat)
    ensures Align(top, Pow2(k)) >= top
  {
    AndNotBelow(top + Pow2(k) - 1, k);
  }

  // ---- the theorem ----------------------------------------------------------------------

  /** Every store of a load goes to a non-negative index of the image. */
  ghost predicate WellPlaced(le: Le) {
    le.objects != [] && Stores(le, 0).Some? && Forward(Stores(le, 0).value)
  }

  /** How the images of an unshifted and a shifted load compare. */
  ghost predicate Rebased(le: Le, d: int, a: Image, b: Image)
    requires WellPlaced(le)
  {
    b.memBase == a.memBase + d && b.objects == Shifted(a.objects, d) && |a.mem| <= |b.mem|
    && forall x :: 0 <= x < |a.mem| ==> ByteMoves(Stores(le, 0).value, d, x, a.mem[x], b.mem[x])
  }

  /** The memory sizes of the two loads, when both are accepted. */
  ghost predicate SizesGrow(le: Le, d: int, limit: Option<int>, limit': Option<int>)
    requires le.objects != []
  {
    var (n0, n1) := (Size(Top(Shifted(le.objects, 0)), le.pageSize, limit), Size(Top(Shifted(le.objects, d)), le.pageSize, limit'));
    n0.Some? && n1.Some? && 0 <= n0.value <= n1.value
  }

  lemma LoadIs(le: Le, d: int, limit: Option<int>, n: nat, ws: seq<Write>)
    requires le.objects != [] && Size(Top(Shifted(le.objects, d)), le.pageSize, limit) == Some(n) && Stores(le, d) == Some(ws)
    ensures Load(le, d, limit) == match ApplyWrites(Zeros(n), ws)
                                  case None => None
                                  case Some(mem) => Some(Image(mem, Shifted(le.objects, d)[0].base, Shifted(le.objects, d)))
  {
    hide Size, Stores, ApplyWrites, Top;
  }

  /**
   Loading the same image shifted by `d`: it is accepted whenever the unshifted load is and
   the memory is no smaller, and the only bytes that differ are those of address fields,
   each field having grown by `d` modulo its width.
   */
  lemma RebaseLoad(le: Le, d: int, limit: Option<int>, limit': Option<int>)
    requires WellPlaced(le) && SizesGrow(le, d, limit, limit') && Load(le, 0, limit).Some?
    ensures Load(le, d, limit').Some? && Rebased(le, d, Load(le, 0, limit).value, Load(le, d, limit').value)
  {
    var ws := Stores(le, 0).value;
    var n0, n1 := Size(Top(Shifted(le.objects, 0)), le.pageSize, limit).value, Size(Top(Shifted(le.objects, d)), le.pageSize, limit').value;
    StoresMove(le, d);
    LoadIs(le, 0, limit, n0, ws);
    LoadIs(le, d, limit', n1, MovedAll(ws, d));
    StillFits(ws, n0, n1, d);
    RebaseShape(le, d);
    hide Load, Stores, Size, Top, ApplyWrites, MovedAll, Shifted, ByteMoves, Forward;
    forall x: nat | x < n0
      ensures ByteMoves(ws, d, x, ApplyWrites(Zeros(n0), ws).value[x], ApplyWrites(Zeros(n1), MovedAll(ws, d)).value[x])
    {
      BytesMove(ws, n0, n1, d, x);
    }
  }

  lemma RebaseShape(le: Le, d: int)
    requires le.objects != []
    ensures Shifted(le.objects, 0) == le.objects && |Shifted(le.objects, d)| == |le.objects|
    ensures Shifted(le.objects, d)[0].base == le.objects[0].base + d
  {
    ShiftedByNothing(le.objects);
  }

  lemma SizesGrowUp(le: Le, d: nat, k: nat)
    requires le.objects != [] && le.pageSize == Pow2(k) && Top(le.objects) >= 0
    ensures SizesGrow(le, d, None, None)
  {
    ShiftedByNothing(le.objects);
    TopMoves(le.objects, d);
    SizeGrows(Top(le.objects), k, d);
    AlignCovers(Top(le.objects), k);
    AlignCovers(Top(le.objects) + d, k);
    hide Top, Align, Shifted, Pow2;
  }

  /** Without a limit, a load above the link addresses gets at least as much memory. */
  lemma RebaseUp(le: Le, d: nat, k: nat)
    requires WellPlaced(le) && le.pageSize == Pow2(k) && Top(le.objects) >= 0 && Load(le, 0, None).Some?
    ensures Load(le, d, None).Some? && Rebased(le, d, Load(le, 0, None).value, Load(le, d, None).value)
  {
    hide *;
    PlacedShape(le);
    SizesGrowUp(le, d, k);
    RebaseLoad(le, d, None, None);
  }

  /** Under one explicit limit above both tops, the shifted load is accepted exactly when the unshifted one is. */
  lemma RebaseUnderLimit(le: Le, d: int, l: nat)
    requires WellPlaced(le) && Top(le.objects) <= l && Top(le.objects) + d <= l
    ensures Load(le, 0, Some(l)).Some? <==> Load(le, d, Some(l)).Some?
  {
    var ws := Stores(le, 0).value;
    ShiftedByNothing(le.objects);
    TopMoves(le.objects, d);
    StoresMove(le, d);
    LoadIs(le, 0, Some(l), l, ws);
    LoadIs(le, d, Some(l), l, MovedAll(ws, d));
    MovedShape(ws, d);
    hide Top, Load, Stores, Shifted, ApplyWrites, MovedAll, Forward, Inside;
    ApplyFits(Zeros(l), ws);
    ApplyFits(Zeros(l), MovedAll(ws, d));
  }

  /** Entry and stack move with the image. */
  lemma EntryMoves(le: Le, d: int, a: Image, b: Image, objNum: nat, offset: nat)
    requires WellPlaced(le) && Rebased(le, d, a, b)
    ensures LinearOf(b, objNum, offset) == match LinearOf(a, objNum, offset) case None => None case Some(x) => Some(x + d)
  {
    ShiftedTarget(a.objects, d, objNum);
    hide ByteMoves, Shifted, TargetObject;
  }

  // ---- fields --------------------------------------------------------------------------

  predicate Overlap(v: Write, w: Write) {
    v.at < w.at + |w.bytes| && w.at < v.at + |v.bytes|
  }

  /** No later store touches store `i`; identical fields count by their last store. */
  ghost predicate Settled(ws: seq<Write>, i: nat)
    requires i < |ws|
  {
    forall j :: i < j < |ws| ==> !Overlap(ws[i], ws[j])
  }

  lemma {:induction false} SettledCover(ws: seq<Write>, i: nat, x: nat)
    requires i < |ws| && Settled(ws, i) && Covers(ws[i], x)
    ensures LastCover(ws, x) == Some(ws[i])
    decreases |ws|
  {
    LastCoverNext(ws, x);
    if i < |ws| - 1 {
      var j := |ws| - 1;
      assert !Overlap(ws[i], ws[j]);
      assert ws[..j][i] == ws[i];
      SettledCover(ws[..j], i, x);
    }
  }

  /** What a settled store of the unshifted load reads after a shift by `d`. */
  function FieldAfter(w: Write, d: int): (r: seq<Byte>)
    ensures |r| == |w.bytes|
  {
    if w.moves then Bytes(Num(w.bytes) + d, |w.bytes|) else w.bytes
  }

  lemma FieldByte(ws: seq<Write>, d: int, i: nat, x: nat, before: Byte, after: Byte)
    requires i < |ws| && Settled(ws, i) && Covers(ws[i], x) && ByteMoves(ws, d, x, before, after)
    ensures before == ws[i].bytes[x - ws[i].at] && after == FieldAfter(ws[i], d)[x - ws[i].at]
  {
    SettledCover(ws, i, x);
    hide Settled, LastCover, Bytes, Num;
  }

  lemma SliceFrom(mem: seq<Byte>, at: nat, y: seq<Byte>)
    requires at + |y| <= |mem| && forall k :: 0 <= k < |y| ==> mem[at + k] == y[k]
    ensures mem[at..at + |y|] == y
  {
  }

  lemma RebasedByte(le: Le, d: int, a: Image, b: Image, x: nat)
    requires WellPlaced(le) && Rebased(le, d, a, b) && x < |a.mem|
    ensures |a.mem| <= |b.mem| && ByteMoves(Stores(le, 0).value, d, x, a.mem[x], b.mem[x])
  {
  }

  lemma PlacedShape(le: Le)
    requires WellPlaced(le)
    ensures le.objects != [] && Stores(le, 0).Some? && Forward(Stores(le, 0).value)
  {
  }

  lemma PlacedForward(le: Le, i: nat)
    requires WellPlaced(le) && i < |Stores(le, 0).value|
    ensures Stores(le, 0).value[i].at >= 0
  {
  }

  lemma CoversAt(w: Write, k: nat)
    requires w.at >= 0 && k < |w.bytes|
    ensures Covers(w, w.at + k)
  {
  }

  /** A settled address field reads `d` more after the shift, modulo its width; any other settled store reads the same. */
  lemma FieldMoves(le: Le, d: int, a: Image, b: Image, i: nat)
    requires WellPlaced(le) && Stores(le, 0).Some? && i < |Stores(le, 0).value|
    requires Rebased(le, d, a, b) && |a.mem| <= |b.mem|
    requires var w := Stores(le, 0).value[i]; Settled(Stores(le, 0).value, i) && w.at + |w.bytes| <= |a.mem|
    ensures var w := Stores(le, 0).value[i];
            w.at >= 0 && a.mem[w.at..w.at + |w.bytes|] == w.bytes && b.mem[w.at..w.at + |w.bytes|] == FieldAfter(w, d)
  {
    hide *;
    PlacedShape(le);
    PlacedForward(le, i);
    var ws := Stores(le, 0).value;
    var w := ws[i];
    forall k: nat | k < |w.bytes|
      ensures a.mem[w.at + k] == w.bytes[k] && b.mem[w.at + k] == FieldAfter(w, d)[k]
    {
      CoversAt(w, k);
      RebasedByte(le, d, a, b, w.at + k);
      FieldByte(ws, d, i, w.at + k, a.mem[w.at + k], b.mem[w.at + k]);
    }
    SliceFrom(a.mem, w.at, w.bytes);
    SliceFrom(b.mem, w.at, FieldAfter(w, d));
  }
}
