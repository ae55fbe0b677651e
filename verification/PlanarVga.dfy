/**
 The unchained VGA aperture: four planes, a map mask, a read map and the latches, with
 the block copy that replaces a loop of reads and writes.
 */
module PlanarVga {
  import opened Blocks
  import opened Memory

  const PLANE := 0x1_0000

  datatype Vga = Vga(planes: seq<seq<Byte>>, mapMask: nat, readMap: nat, writeMode: nat, bitMask: nat,
                     latches: seq<Byte>) {
    predicate Valid() {
      |planes| == 4 && (forall p :: 0 <= p < 4 ==> |planes[p]| == PLANE) && |latches| == 4
    }

    /** Bit `p` of the map mask. */
    predicate Enabled(p: nat)
      requires p < 4
    {
      (match p case 0 => mapMask case 1 => mapMask / 2 case 2 => mapMask / 4 case _ => mapMask / 8) % 2 == 1
    }

    /** The map mask lets no store through. */
    predicate NoPlane() {
      !Enabled(0) && !Enabled(1) && !Enabled(2) && !Enabled(3)
    }

    /** The modelled writes: mode 1, or mode 0 with every bit enabled. */
    predicate CanWrite() {
      writeMode == 1 || (writeMode == 0 && bitMask == 0xFF)
    }
  }

  datatype Error = NoError | UnsupportedOperation | IndexError

  /** What a call leaves behind, including when it raises. */
  datatype Effect = Effect(v: Vga, error: Error)

  function Column(v: Vga, off: nat): (r: seq<Byte>)
    requires v.Valid() && off < PLANE
    ensures |r| == 4 && forall p :: 0 <= p < 4 ==> r[p] == v.planes[p][off]
  {
    [v.planes[0][off], v.planes[1][off], v.planes[2][off], v.planes[3][off]]
  }

  /** A read loads the four latches and returns the byte of the read-map plane. */
  function Read(v: Vga, off: nat): (r: (Effect, Byte))
    requires v.Valid()
    ensures r.0.v.Valid()
  {
    if off >= PLANE then (Effect(v, IndexError), 0)
    else (Effect(v.(latches := Column(v, off)), NoError), v.planes[v.readMap % 4][off])
  }

  /** The planes after storing `bytes[p]` at `off` of every enabled plane `p`. */
  function StoreColumn(v: Vga, off: nat, bytes: seq<Byte>): (r: seq<seq<Byte>>)
    requires v.Valid() && off < PLANE && |bytes| == 4
    ensures |r| == 4
    ensures forall p :: 0 <= p < 4 ==>
              r[p] == if v.Enabled(p) then Put(v.planes[p], off, [bytes[p]]) else v.planes[p]
  {
    seq(4, p requires 0 <= p < 4 => if v.Enabled(p) then Put(v.planes[p], off, [bytes[p]]) else v.planes[p])
  }

  /** Write mode 1 stores the latches, write mode 0 the CPU byte. */
  function Write(v: Vga, off: nat, value: Byte): (r: Effect)
    requires v.Valid()
    ensures r.v.Valid()
  {
    if !v.CanWrite() then Effect(v, UnsupportedOperation)
    else if off >= PLANE then
      Effect(v, if v.Enabled(0) || v.Enabled(1) || v.Enabled(2) || v.Enabled(3) then IndexError else NoError)
    else
      var bytes := if v.writeMode == 1 then v.latches else [value, value, value, value];
      Effect(v.(planes := StoreColumn(v, off, bytes)), NoError)
  }

  /**
   `w` is `v` after a store of `a`, `b`, `c`, `d`, one for each plane, over [off, off + |a|):
   bits 0 to 3 of the map mask let planes 0 to 3 take theirs, and no other byte changes.
   */
  ghost predicate StoredUnderMask(v: Vga, w: Vga, off: nat, a: seq<Byte>, b: seq<Byte>, c: seq<Byte>, d: seq<Byte>) {
    |a| == |b| == |c| == |d| && v.Valid() && w.Valid() && off + |a| <= 0x1_0000
    && forall i :: 0 <= i < 0x1_0000 ==>
         w.planes[0][i] == (if off <= i < off + |a| && v.mapMask % 2 == 1 then a[i - off] else v.planes[0][i])
         && w.planes[1][i] == (if off <= i < off + |a| && v.mapMask / 2 % 2 == 1 then b[i - off] else v.planes[1][i])
         && w.planes[2][i] == (if off <= i < off + |a| && v.mapMask / 4 % 2 == 1 then c[i - off] else v.planes[2][i])
         && w.planes[3][i] == (if off <= i < off + |a| && v.mapMask / 8 % 2 == 1 then d[i - off] else v.planes[3][i])
  }

  /** What a write leaves, and when it raises. */
  ghost predicate Wrote(v: Vga, off: nat, value: Byte, e: Effect) {
    v.Valid() && e.v.Valid()
    && if v.writeMode != 1 && (v.writeMode != 0 || v.bitMask != 0xFF) then e == Effect(v, UnsupportedOperation)
       else if off >= 0x1_0000 then
         e == Effect(v, if v.mapMask % 2 == 1 || v.mapMask / 2 % 2 == 1 || v.mapMask / 4 % 2 == 1 || v.mapMask / 8 % 2 == 1
                        then IndexError else NoError)
       else
         e.error.NoError? && e.v == v.(planes := e.v.planes)
         && if v.writeMode == 1 then
              StoredUnderMask(v, e.v, off, [v.latches[0]], [v.latches[1]], [v.latches[2]], [v.latches[3]])
            else StoredUnderMask(v, e.v, off, [value], [value], [value], [value])
  }

  lemma WriteStores(v: Vga, off: nat, value: Byte)
    requires v.Valid()
    ensures Wrote(v, off, value, Write(v, off, value))
  {
    hide Put;
  }

  /** What a read loads and returns. */
  ghost predicate ReadBack(v: Vga, off: nat, e: Effect, value: Byte) {
    v.Valid()
    && if off >= 0x1_0000 then e == Effect(v, IndexError)
       else
         e == Effect(v.(latches := [v.planes[0][off], v.planes[1][off], v.planes[2][off], v.planes[3][off]]), NoError)
         && value == v.planes[v.readMap % 4][off]
  }

  lemma ReadLatches(v: Vga, off: nat)
    requires v.Valid()
    ensures ReadBack(v, off, Read(v, off).0, Read(v, off).1)
  {
  }

  /** `write(dst, read(src))` */
  function CopyElement(v: Vga, src: nat, dst: nat): (r: Effect)
    requires v.Valid()
    ensures r.v.Valid()
  {
    var (e, b) := Read(v, src);
    if e.error.NoError? then Write(e.v, dst, b) else e
  }

  /** `for i in range(n): write(dst + i, read(src + i))`, stopping at the first exception. */
  function CopyLoop(v: Vga, src: nat, dst: nat, n: nat): (r: Effect)
    requires v.Valid()
    ensures r.v.Valid()
  {
    if n == 0 then Effect(v, NoError)
    else
      var r := CopyLoop(v, src, dst, n - 1);
      if r.error.NoError? then CopyElement(r.v, src + n - 1, dst + n - 1) else r
  }

  lemma CopyLoopNone(v: Vga, src: nat, dst: nat)
    requires v.Valid()
    ensures CopyLoop(v, src, dst, 0) == Effect(v, NoError)
  {
  }

  lemma CopyLoopNext(v: Vga, src: nat, dst: nat, n: nat)
    requires v.Valid() && CopyLoop(v, src, dst, n).error.NoError?
    ensures CopyLoop(v, src, dst, n + 1) == CopyElement(CopyLoop(v, src, dst, n).v, src + n, dst + n)
  {
    hide CopyElement;
  }

  lemma CopyLoopFailed(v: Vga, src: nat, dst: nat, n: nat)
    requires v.Valid() && !CopyLoop(v, src, dst, n).error.NoError?
    ensures CopyLoop(v, src, dst, n + 1) == CopyLoop(v, src, dst, n)
  {
    hide CopyElement;
  }

  /** A loop without an exception is the loop over its first `a` elements and then the rest. */
  lemma {:induction false} CopyLoopSplit(v: Vga, src: nat, dst: nat, a: nat, b: nat)
    requires v.Valid() && CopyLoop(v, src, dst, a).error.NoError?
    ensures CopyLoop(v, src, dst, a + b) == CopyLoop(CopyLoop(v, src, dst, a).v, src + a, dst + a, b)
    decreases b
  {
    hide *;
    var w := CopyLoop(v, src, dst, a).v;
    if b == 0 {
      CopyLoopNone(w, src + a, dst + a);
    } else {
      var k: nat := b - 1;
      CopyLoopSplit(v, src, dst, a, k);
      if CopyLoop(v, src, dst, a + k).error.NoError? {
        CopyLoopNext(v, src, dst, a + k);
        CopyLoopNext(w, src + a, dst + a, k);
      } else {
        CopyLoopFailed(v, src, dst, a + k);
        CopyLoopFailed(w, src + a, dst + a, k);
      }
      assert a + k + 1 == a + b;
    }
  }

  lemma CopyElementFine(v: Vga, src: nat, dst: nat)
    requires v.Valid() && v.CanWrite() && src < PLANE && dst < PLANE
    ensures Fine(v, CopyElement(v, src, dst))
  {
  }

  /** No exception, and the mode registers as before. */
  predicate Fine(v: Vga, e: Effect) {
    e.error.NoError? && e.v.writeMode == v.writeMode && e.v.bitMask == v.bitMask && e.v.mapMask == v.mapMask
  }

  lemma FineNone(v: Vga)
    ensures Fine(v, Effect(v, NoError))
  {
  }

  lemma FineOnce(v: Vga, e: Effect, e': Effect)
    requires Fine(v, e)
    ensures e.error.NoError? && (v.CanWrite() ==> e.v.CanWrite()) && (Fine(e.v, e') ==> Fine(v, e'))
  {
  }

  /** In range and in a supported mode no element raises, and the modes stay. */
  lemma {:induction false} CopyLoopFine(v: Vga, src: nat, dst: nat, n: nat)
    requires v.Valid() && v.CanWrite() && src + n <= PLANE && dst + n <= PLANE
    ensures Fine(v, CopyLoop(v, src, dst, n))
  {
    hide *;
    if n == 0 {
      CopyLoopNone(v, src, dst);
      FineNone(v);
    } else {
      var k: nat := n - 1;
      CopyLoopFine(v, src, dst, k);
      FineOnce(v, CopyLoop(v, src, dst, k), CopyLoop(v, src, dst, n));
      CopyLoopNext(v, src, dst, k);
      CopyElementFine(CopyLoop(v, src, dst, k).v, src + k, dst + k);
    }
  }

  // ---- the bulk form ------------------------------------------------------------------

  predicate Overlap(src: nat, dst: nat, n: nat) {
    !(src + n <= dst || dst + n <= src)
  }

  /** The ranges the slice path handles; everything else falls back to the loop. */
  predicate TakesSlices(src: nat, dst: nat, n: nat) {
    src + n <= PLANE && dst + n <= PLANE && (Overlap(src, dst, n) ==> src == dst)
  }

  /** The plane whose bytes end up in plane `p`. */
  function Feeder(v: Vga, p: nat): nat
    requires p < 4
  {
    if v.writeMode == 1 then p else v.readMap % 4
  }

  function SlicePlanes(v: Vga, src: nat, dst: nat, n: nat): (r: seq<seq<Byte>>)
    requires v.Valid() && src + n <= PLANE && dst + n <= PLANE
    ensures |r| == 4
    ensures forall p :: 0 <= p < 4 ==> |r[p]| == PLANE
    ensures forall p :: 0 <= p < 4 ==>
              r[p] == if v.Enabled(p) then Put(v.planes[p], dst, v.planes[Feeder(v, p)][src..src + n]) else v.planes[p]
  {
    seq(4, p requires 0 <= p < 4 =>
      if v.Enabled(p) then Put(v.planes[p], dst, v.planes[Feeder(v, p)][src..src + n]) else v.planes[p])
  }

  /** `bulk_copy`: slices when the ranges allow it, the byte loop otherwise. */
  function BulkCopy(v: Vga, src: nat, dst: nat, n: int): (r: Effect)
    requires v.Valid()
    ensures r.v.Valid()
  {
    if n <= 0 then Effect(v, NoError)
    else if !TakesSlices(src, dst, n) then CopyLoop(v, src, dst, n)
    else if !v.CanWrite() then Effect(v, UnsupportedOperation)
    else
      var v' := v.(planes := SlicePlanes(v, src, dst, n));
      Effect(v'.(latches := Column(v', src + n - 1)), NoError)
  }

  /** What a block copy leaves where no byte is read after it was overwritten by another. */
  ghost predicate BlockCopied(v: Vga, src: nat, dst: nat, n: int, e: Effect) {
    v.Valid() && e.v.Valid() && n <= 0x1_0000 - src && n <= 0x1_0000 - dst
    && if n <= 0 then e == Effect(v, NoError)
       else if v.writeMode != 1 && (v.writeMode != 0 || v.bitMask != 0xFF) then e == Effect(v, UnsupportedOperation)
       else
         e.error.NoError? && e.v == v.(planes := e.v.planes, latches := e.v.latches)
         && e.v.latches == [e.v.planes[0][src + n - 1], e.v.planes[1][src + n - 1], e.v.planes[2][src + n - 1], e.v.planes[3][src + n - 1]]
         && if v.writeMode == 1 then
              StoredUnderMask(v, e.v, dst, v.planes[0][src..src + n], v.planes[1][src..src + n], v.planes[2][src..src + n],
                              v.planes[3][src..src + n])
            else
              var x := v.planes[v.readMap % 4][src..src + n];
              StoredUnderMask(v, e.v, dst, x, x, x, x)
  }

  lemma BulkCopyStores(v: Vga, src: nat, dst: nat, n: int)
    requires v.Valid() && n <= 0x1_0000 - src && n <= 0x1_0000 - dst
    requires src == dst || src + n <= dst || dst + n <= src
    ensures BlockCopied(v, src, dst, n, BulkCopy(v, src, dst, n))
  {
    if n > 0 && v.CanWrite() {
      SlicesUnderMask(v, src, dst, n);
    }
    hide SlicePlanes, StoredUnderMask;
  }

  lemma SlicesUnderMask(v: Vga, src: nat, dst: nat, n: nat)
    requires v.Valid() && src + n <= PLANE && dst + n <= PLANE
    ensures var w := v.(planes := SlicePlanes(v, src, dst, n));
            var (f, g) := (v.planes[v.readMap % 4][src..src + n], v.writeMode == 1);
            forall l :: |l| == 4 ==>
              StoredUnderMask(v, w.(latches := l), dst, if g then v.planes[0][src..src + n] else f, if g then v.planes[1][src..src + n] else f,
                              if g then v.planes[2][src..src + n] else f, if g then v.planes[3][src..src + n] else f)
  {
    hide Put;
  }

  // ---- equivalence -----------------------------------------------------------------------

  /** The state after `n` elements of a copy that the slice path would take. */
  function Copied(v: Vga, src: nat, dst: nat, n: nat): (r: Vga)
    requires v.Valid() && src + n <= PLANE && dst + n <= PLANE
    ensures r.Valid()
  {
    v.(planes := SlicePlanes(v, src, dst, n), latches := if n == 0 then v.latches else Column(v, src + n - 1))
  }

  /** Both ranges lie in the planes and no element reads what an earlier one stored. */
  predicate InStep(src: nat, dst: nat, n: nat) {
    src + n <= PLANE && dst + n <= PLANE && SafeForward(src, dst, n)
  }

  /** No element reads a byte that an earlier element stored. */
  lemma SourceUntouched(v: Vga, src: nat, dst: nat, n: nat)
    requires v.Valid() && InStep(src, dst, n + 1)
    ensures Column(Copied(v, src, dst, n), src + n) == Column(v, src + n)
  {
    var c := Copied(v, src, dst, n);
    forall p | 0 <= p < 4
      ensures c.planes[p][src + n] == v.planes[p][src + n]
    {
    }
  }

  lemma SliceGrows(v: Vga, src: nat, dst: nat, n: nat, p: nat)
    requires v.Valid() && InStep(src, dst, n + 1) && p < 4
    ensures var f := v.planes[Feeder(v, p)];
            Put(Put(v.planes[p], dst, f[src..src + n]), dst + n, [f[src + n]]) == Put(v.planes[p], dst, f[src..src + n + 1])
  {
    var f := v.planes[Feeder(v, p)];
    PutAfterPut(v.planes[p], dst, f[src..src + n], [f[src + n]]);
    assert f[src..src + n] + [f[src + n]] == f[src..src + n + 1];
  }

  lemma CopiedElement(v: Vga, src: nat, dst: nat, n: nat)
    requires v.Valid() && v.CanWrite() && InStep(src, dst, n + 1)
    ensures CopyElement(Copied(v, src, dst, n), src + n, dst + n) == Effect(Copied(v, src, dst, n + 1), NoError)
  {
    hide Put;
    var c := Copied(v, src, dst, n);
    SourceUntouched(v, src, dst, n);
    var e := CopyElement(c, src + n, dst + n);
    forall p | 0 <= p < 4
      ensures e.v.planes[p] == Copied(v, src, dst, n + 1).planes[p]
    {
      SliceGrows(v, src, dst, n, p);
    }
    assert e.v.planes == Copied(v, src, dst, n + 1).planes;
  }

  lemma {:induction false} LoopIsCopied(v: Vga, src: nat, dst: nat, n: nat)
    requires v.Valid() && v.CanWrite() && InStep(src, dst, n)
    ensures CopyLoop(v, src, dst, n) == Effect(Copied(v, src, dst, n), NoError)
  {
    hide CopyElement;
    if n == 0 {
      CopiedNothing(v, src, dst);
    } else {
      LoopIsCopied(v, src, dst, n - 1);
      CopiedElement(v, src, dst, n - 1);
    }
  }

  lemma CopiedNothing(v: Vga, src: nat, dst: nat)
    requires v.Valid() && src <= PLANE && dst <= PLANE
    ensures Copied(v, src, dst, 0) == v
  {
    forall p | 0 <= p < 4
      ensures SlicePlanes(v, src, dst, 0)[p] == v.planes[p]
    {
    }
    assert SlicePlanes(v, src, dst, 0) == v.planes;
  }

  /** An unsupported write still lets the first read load the latches. */
  lemma {:induction false} UnsupportedLoop(v: Vga, src: nat, dst: nat, n: nat)
    requires v.Valid() && !v.CanWrite() && src < PLANE && n > 0
    ensures CopyLoop(v, src, dst, n) == Effect(v.(latches := Column(v, src)), UnsupportedOperation)
  {
    if n == 1 {
      assert CopyLoop(v, src, dst, 0) == Effect(v, NoError);
    } else {
      UnsupportedLoop(v, src, dst, n - 1);
    }
  }

  /** The byte the last element reads in plane `p` is not the one the copy leaves there. */
  predicate LastByteChanges(v: Vga, src: nat, dst: nat, n: nat, p: nat)
    requires v.Valid() && n > 0 && src + n <= PLANE && p < 4
  {
    src == dst && v.Enabled(p) && v.planes[Feeder(v, p)][src + n - 1] != v.planes[p][src + n - 1]
  }

  /**
   The one family where slices and loop part: the slice path reloads the latches after the
   stores, so copying a range onto itself in write mode 0 leaves the new bytes in them; and
   it refuses an unsupported write before any read, so the latches keep their old contents.
   */
  predicate Diverges(v: Vga, src: nat, dst: nat, n: int)
    requires v.Valid()
  {
    n > 0 && TakesSlices(src, dst, n)
    && if v.CanWrite() then exists p :: 0 <= p < 4 && LastByteChanges(v, src, dst, n, p)
       else v.latches != Column(v, src)
  }

  /** The last column after the copy, plane by plane. */
  lemma LastColumn(v: Vga, src: nat, dst: nat, n: nat, p: nat)
    requires v.Valid() && n > 0 && TakesSlices(src, dst, n) && p < 4
    ensures var last := src + n - 1;
            SlicePlanes(v, src, dst, n)[p][last] == v.planes[p][last] <==> !LastByteChanges(v, src, dst, n, p)
  {
    var f := v.planes[Feeder(v, p)];
    assert f[src..src + n][n - 1] == f[src + n - 1];
  }

  lemma LatchesAgree(v: Vga, src: nat, dst: nat, n: nat)
    requires v.Valid() && v.CanWrite() && n > 0 && TakesSlices(src, dst, n)
    ensures var v' := v.(planes := SlicePlanes(v, src, dst, n));
            Column(v', src + n - 1) == Column(v, src + n - 1) <==> !Diverges(v, src, dst, n)
  {
    hide LastByteChanges;
    var v' := v.(planes := SlicePlanes(v, src, dst, n));
    var a, b := Column(v', src + n - 1), Column(v, src + n - 1);
    forall p | 0 <= p < 4
      ensures a[p] == b[p] <==> !LastByteChanges(v, src, dst, n, p)
    {
      LastColumn(v, src, dst, n, p);
    }
  }

  /**
   The bulk copy is the loop, in planes, latches and exceptions, exactly outside that
   family: for every length, overlap, map mask, read map, write mode and bit mask.
   */
  lemma BulkCopyExact(v: Vga, src: nat, dst: nat, n: int)
    requires v.Valid()
    ensures BulkCopy(v, src, dst, n) == CopyLoop(v, src, dst, if n > 0 then n else 0) <==> !Diverges(v, src, dst, n)
  {
    if n > 0 && TakesSlices(src, dst, n) {
      hide SlicePlanes, CopyLoop;
      if v.CanWrite() {
        LoopIsCopied(v, src, dst, n);
        LatchesAgree(v, src, dst, n);
      } else {
        UnsupportedLoop(v, src, dst, n);
      }
    }
  }

  /** The callers' domain: distinct ranges, or write mode 1. */
  lemma BulkCopyIsLoop(v: Vga, src: nat, dst: nat, n: int)
    requires v.Valid() && v.CanWrite() && (src != dst || v.writeMode == 1)
    ensures BulkCopy(v, src, dst, n) == CopyLoop(v, src, dst, if n > 0 then n else 0)
  {
    BulkCopyExact(v, src, dst, n);
  }

  /** A copy of one byte onto itself through another plane shows the difference. */
  lemma SelfCopyDiverges()
    ensures exists v: Vga :: v.Valid() && v.CanWrite() && BulkCopy(v, 0, 0, 1) != CopyLoop(v, 0, 0, 1)
  {
    var zero: seq<Byte> := seq(PLANE, _ => 0);
    var one: seq<Byte> := seq(PLANE, _ => 1);
    var v := Vga([one, zero, zero, zero], 2, 0, 0, 0xFF, [0, 0, 0, 0]);
    assert LastByteChanges(v, 0, 0, 1, 1);
    BulkCopyExact(v, 0, 0, 1);
  }
}
