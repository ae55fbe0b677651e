/** Flat memory with the video aperture, as an object changed in place. */
module FlatMachine {
  import opened Blocks
  import opened Memory
  import opened PlanarVga
  import opened VgaDevice
  import opened FlatString

  class FlatMemory {
    const data: array<Byte>
    const vga: VGASequencer?

    constructor (bytes: array<Byte>, attached: VGASequencer?)
      ensures data == bytes && vga == attached
    {
      data, vga := bytes, attached;
    }

    /** The objects a memory access may change. */
    ghost function Repr(): set<object> {
      {data} + if vga == null then {} else {vga, vga.planes}
    }

    ghost predicate Valid()
      reads Repr()
    {
      vga != null ==> vga.Valid()
    }

    ghost function State(): (m: Flat)
      reads Repr()
      requires Valid()
      ensures m.Valid()
    {
      Flat(data[..], if vga == null then None else Some(vga.State()))
    }

    predicate Planar(a: nat) {
      vga != null && APERTURE <= a < APERTURE_END
    }

    /** Aperture bytes in ascending order, or a slice of RAM. */
    method Read(a: nat, sz: nat) returns (error: Error, x: seq<Byte>)
      requires Valid()
      modifies Repr()
      ensures Valid() && (State(), error, x) == old(ReadUnit(State(), a, sz))
    {
      if Planar(a) {
        error, x := ReadAperture(a - APERTURE, sz);
      } else if a + sz <= data.Length {
        error, x := NoError, data[a..a + sz];
        assert x == data[..][a..a + sz];
      } else {
        error, x := IndexError, [];
      }
    }

    method ReadAperture(off: nat, sz: nat) returns (error: Error, x: seq<Byte>)
      requires Valid() && vga != null
      modifies Repr()
      ensures Valid() && data[..] == old(data[..])
      ensures (Effect(vga.State(), error), x) == old(ReadRun(vga.State(), off, sz))
    {
      hide PlanarVga.Read;
      error, x := NoError, [];
      for i := 0 to sz
        invariant Valid() && data[..] == old(data[..]) && error == NoError
        invariant (Effect(vga.State(), error), x) == old(ReadRun(vga.State(), off, i))
      {
        var b;
        error, b := vga.Read(off + i);
        x := x + [b];
        if error != NoError {
          ReadRunStops(old(vga.State()), off, i + 1, sz);
          return;
        }
      }
    }

    method Write(a: nat, x: seq<Byte>) returns (error: Error)
      requires Valid()
      modifies Repr()
      ensures Valid() && (State(), error) == old(WriteUnit(State(), a, x))
    {
      if Planar(a) {
        error := WriteAperture(a - APERTURE, x);
      } else if a + |x| <= data.Length {
        StoreRam(a, x);
        error := NoError;
      } else {
        error := IndexError;
      }
    }

    method WriteAperture(off: nat, x: seq<Byte>) returns (error: Error)
      requires Valid() && vga != null
      modifies Repr()
      ensures Valid() && data[..] == old(data[..])
      ensures Effect(vga.State(), error) == old(WriteRun(vga.State(), off, x, |x|))
    {
      hide PlanarVga.Write;
      error := NoError;
      for i := 0 to |x|
        invariant Valid() && data[..] == old(data[..]) && error == NoError
        invariant Effect(vga.State(), error) == old(WriteRun(vga.State(), off, x, i))
      {
        error := vga.Write(off + i, x[i]);
        if error != NoError {
          WriteRunStops(old(vga.State()), off, x, i + 1);
          return;
        }
      }
    }

    /** `data[a:a+|x|] = x` */
    method StoreRam(a: nat, x: seq<Byte>)
      requires Valid() && a + |x| <= data.Length
      modifies data
      ensures data[..] == Put(old(data[..]), a, x)
    {
      forall i | 0 <= i < |x| {
        data[a + i] := x[i];
      }
    }

    /** `planes[p][off:off+|x|] = x` for every enabled plane. */
    method StorePlanes(off: nat, x: seq<Byte>)
      requires Valid() && vga != null && off + |x| <= PLANE
      modifies vga.planes
      ensures Valid() && vga.State() == old(StoreRange(vga.State(), off, x))
    {
      hide Put;
      vga.StoreEnabled(off, [x, x, x, x]);
      assert vga.State().planes == old(StoreRange(vga.State(), off, x)).planes;
    }
  }

  lemma {:induction false} ReadRunStops(v: Vga, off: nat, i: nat, k: nat)
    requires v.Valid() && i <= k && !ReadRun(v, off, i).0.error.NoError?
    ensures ReadRun(v, off, k) == ReadRun(v, off, i)
  {
    if i < k {
      ReadRunStops(v, off, i, k - 1);
    }
  }

  lemma {:induction false} WriteRunStops(v: Vga, off: nat, x: seq<Byte>, i: nat)
    requires v.Valid() && i <= |x| && !WriteRun(v, off, x, i).error.NoError?
    ensures WriteRun(v, off, x, |x|) == WriteRun(v, off, x, i)
    decreases |x| - i
  {
    if i < |x| {
      assert WriteRun(v, off, x, i + 1) == WriteRun(v, off, x, i);
      WriteRunStops(v, off, x, i + 1);
    }
  }
}
