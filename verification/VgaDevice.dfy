/** The planar VGA object: plane bytes and latches changed in place. */
module VgaDevice {
  import opened Blocks
  import opened Memory
  import opened PlanarVga

  class VGASequencer {
    const planes: array2<Byte>
    var mapMask: nat
    var readMap: nat
    var writeMode: nat
    var bitMask: nat
    var latches: seq<Byte>

    constructor ()
      ensures Valid() && fresh(planes)
      ensures mapMask == 0x0F && readMap == 0 && writeMode == 0 && bitMask == 0xFF && latches == [0, 0, 0, 0]
    {
      planes := new Byte[4, PLANE]((_, _) => 0);
      mapMask, readMap, writeMode, bitMask, latches := 0x0F, 0, 0, 0xFF, [0, 0, 0, 0];
    }

    ghost predicate Shaped() {
      planes.Length0 == 4 && planes.Length1 == PLANE
    }

    ghost predicate Valid()
      reads this`latches
    {
      Shaped() && |latches| == 4
    }

    ghost function Plane(p: nat): (r: seq<Byte>)
      reads planes
      requires Shaped() && p < 4
      ensures |r| == PLANE && forall i :: 0 <= i < PLANE ==> r[i] == planes[p, i]
    {
      seq(PLANE, i requires 0 <= i < PLANE && Shaped() reads planes => planes[p, i])
    }

    ghost function State(): (v: Vga)
      reads this, planes
      requires Valid()
      ensures v.Valid()
    {
      Vga.Vga([Plane(0), Plane(1), Plane(2), Plane(3)], mapMask, readMap, writeMode, bitMask, latches)
    }

    predicate PlaneEnabled(p: nat)
      reads this
      requires p < 4
    {
      (match p case 0 => mapMask case 1 => mapMask / 2 case 2 => mapMask / 4 case _ => mapMask / 8) % 2 == 1
    }

    /** `planes[p][off:off+|x|] = x` */
    method StorePlane(p: nat, off: nat, x: seq<Byte>)
      requires Valid() && p < 4 && off + |x| <= PLANE
      modifies planes
      ensures Plane(p) == Put(old(Plane(p)), off, x)
      ensures forall q :: 0 <= q < 4 && q != p ==> Plane(q) == old(Plane(q))
    {
      forall i | 0 <= i < |x| {
        planes[p, off + i] := x[i];
      }
    }

    /** Stores `x[p]` at `off` of every enabled plane. */
    method StoreEnabled(off: nat, x: seq<seq<Byte>>)
      requires Valid() && |x| == 4 && forall p :: 0 <= p < 4 ==> off + |x[p]| <= PLANE
      modifies planes
      ensures forall p :: 0 <= p < 4 ==>
                Plane(p) == if PlaneEnabled(p) then Put(old(Plane(p)), off, x[p]) else old(Plane(p))
    {
      hide Put;
      for p := 0 to 4
        invariant forall q :: 0 <= q < p ==>
                    Plane(q) == if PlaneEnabled(q) then Put(old(Plane(q)), off, x[q]) else old(Plane(q))
        invariant forall q :: p <= q < 4 ==> Plane(q) == old(Plane(q))
      {
        if PlaneEnabled(p) {
          StorePlane(p, off, x[p]);
        }
      }
    }

    method Read(off: nat) returns (error: Error, value: Byte)
      requires Valid()
      modifies this`latches
      ensures Valid() && (Effect(State(), error), value) == old(PlanarVga.Read(State(), off))
      ensures off < 0x1_0000 ==> value == planes[readMap % 4, off]
      ensures off < 0x1_0000 ==> latches == [planes[0, off], planes[1, off], planes[2, off], planes[3, off]]
    {
      if off >= PLANE {
        return IndexError, 0;
      }
      LoadLatches(off);
      error, value := NoError, planes[readMap % 4, off];
    }

    method Write(off: nat, value: Byte) returns (error: Error)
      requires Valid()
      modifies planes
      ensures Valid() && Effect(State(), error) == old(PlanarVga.Write(State(), off, value))
      ensures Wrote(old(State()), off, value, Effect(State(), error))
      ensures off < 0x1_0000 && (writeMode == 1 || (writeMode == 0 && bitMask == 0xFF)) ==>
                planes[0, off] == (if mapMask % 2 == 0 then old(planes[0, off]) else if writeMode == 1 then latches[0] else value)
                && planes[1, off] == (if mapMask / 2 % 2 == 0 then old(planes[1, off]) else if writeMode == 1 then latches[1] else value)
                && planes[2, off] == (if mapMask / 4 % 2 == 0 then old(planes[2, off]) else if writeMode == 1 then latches[2] else value)
                && planes[3, off] == (if mapMask / 8 % 2 == 0 then old(planes[3, off]) else if writeMode == 1 then latches[3] else value)
    {
      WriteStores(State(), off, value);
      hide Put, Wrote, StoreColumn;
      if writeMode != 1 && (writeMode != 0 || bitMask != 0xFF) {
        return UnsupportedOperation;
      }
      if off >= PLANE {
        return if PlaneEnabled(0) || PlaneEnabled(1) || PlaneEnabled(2) || PlaneEnabled(3) then IndexError else NoError;
      }
      var b: seq<Byte> := if writeMode == 1 then latches else [value, value, value, value];
      StoreBytes(off, b);
      error := NoError;
    }

    /** One byte for each plane, under the map mask. */
    method StoreBytes(off: nat, b: seq<Byte>)
      requires Valid() && off < PLANE && |b| == 4
      modifies planes
      ensures Valid() && State() == old(State()).(planes := old(StoreColumn(State(), off, b)))
      ensures planes[0, off] == (if mapMask % 2 == 1 then b[0] else old(planes[0, off]))
      ensures planes[1, off] == (if mapMask / 2 % 2 == 1 then b[1] else old(planes[1, off]))
      ensures planes[2, off] == (if mapMask / 4 % 2 == 1 then b[2] else old(planes[2, off]))
      ensures planes[3, off] == (if mapMask / 8 % 2 == 1 then b[3] else old(planes[3, off]))
    {
      hide Put;
      StoreEnabled(off, [[b[0]], [b[1]], [b[2]], [b[3]]]);
      assert Plane(0)[off] == planes[0, off] && Plane(1)[off] == planes[1, off];
      assert Plane(2)[off] == planes[2, off] && Plane(3)[off] == planes[3, off];
      assert State().planes == old(StoreColumn(State(), off, b));
    }

    /** A plane's bytes in [off, off + n). */
    function Slice(p: nat, off: nat, n: nat): (r: seq<Byte>)
      reads planes
      requires Shaped() && p < 4 && off + n <= PLANE
      ensures r == Plane(p)[off..off + n]
    {
      seq(n, i requires 0 <= i < n && Shaped() && off + n <= PLANE reads planes => planes[p, off + i])
    }

    /** The sequential fallback. */
    method ByteCopy(src: nat, dst: nat, n: nat) returns (error: Error)
      requires Valid()
      modifies this`latches, planes
      ensures Valid() && Effect(State(), error) == old(CopyLoop(State(), src, dst, n))
    {
      hide PlanarVga.Read, PlanarVga.Write;
      error := NoError;
      for i := 0 to n
        invariant Valid() && error == NoError && Effect(State(), error) == old(CopyLoop(State(), src, dst, i))
        invariant old(CopyLoop(State(), src, dst, i)).error.NoError?
      {
        var value;
        error, value := Read(src + i);
        if error == NoError {
          error := Write(dst + i, value);
        }
        if error != NoError {
          LoopStops(old(State()), src, dst, i + 1, n);
          return;
        }
      }
    }

    /** Copy `n` aperture bytes by slices, or byte by byte when the ranges forbid it. */
    method BulkCopy(src: nat, dst: nat, n: int) returns (error: Error)
      requires Valid()
      modifies this`latches, planes
      ensures Valid() && Effect(State(), error) == old(PlanarVga.BulkCopy(State(), src, dst, n))
      ensures n <= 0x1_0000 - src && n <= 0x1_0000 - dst && (src == dst || src + n <= dst || dst + n <= src) ==>
                BlockCopied(old(State()), src, dst, n, Effect(State(), error))
    {
      BulkCopyStoresIf(State(), src, dst, n);
      hide Put, CopyLoop, SlicePlanes, Column;
      error := NoError;
      if n <= 0 {
        return;
      }
      if !TakesSlices(src, dst, n) {
        error := ByteCopy(src, dst, n);
        return;
      }
      if writeMode != 1 && (writeMode != 0 || bitMask != 0xFF) {
        return UnsupportedOperation;
      }
      SliceCopy(src, dst, n);
      LoadLatches(src + n - 1);
    }

    method LoadLatches(off: nat)
      requires Valid() && off < PLANE
      modifies this`latches
      ensures Valid() && State() == old(State()).(latches := old(Column(State(), off)))
    {
      latches := [planes[0, off], planes[1, off], planes[2, off], planes[3, off]];
    }

    method SliceCopy(src: nat, dst: nat, n: nat)
      requires Valid() && src + n <= PLANE && dst + n <= PLANE
      modifies planes
      ensures Valid() && State() == old(State()).(planes := old(SlicePlanes(State(), src, dst, n)))
    {
      hide Put;
      var rm := readMap % 4;
      if writeMode == 1 {
        StoreEnabled(dst, [Slice(0, src, n), Slice(1, src, n), Slice(2, src, n), Slice(3, src, n)]);
      } else {
        var data := Slice(rm, src, n);
        StoreEnabled(dst, [data, data, data, data]);
      }
      assert State().planes == old(SlicePlanes(State(), src, dst, n));
    }
  }

  lemma BulkCopyStoresIf(v: Vga, src: nat, dst: nat, n: int)
    requires v.Valid()
    ensures n <= 0x1_0000 - src && n <= 0x1_0000 - dst && (src == dst || src + n <= dst || dst + n <= src) ==>
              BlockCopied(v, src, dst, n, PlanarVga.BulkCopy(v, src, dst, n))
  {
    hide *;
    if n <= 0x1_0000 - src && n <= 0x1_0000 - dst && (src == dst || src + n <= dst || dst + n <= src) {
      BulkCopyStores(v, src, dst, n);
    }
  }

  /** Once an element raises, the loop's outcome is fixed. */
  lemma {:induction false} LoopStops(v: Vga, src: nat, dst: nat, i: nat, n: nat)
    requires v.Valid() && i <= n && !CopyLoop(v, src, dst, i).error.NoError?
    ensures CopyLoop(v, src, dst, n) == CopyLoop(v, src, dst, i)
  {
    if i < n {
      LoopStops(v, src, dst, i, n - 1);
    }
  }
}
