/** The real-mode memory object: one byte array changed in place, plus its latch registers. */
module RealModeMemory {
  import opened Blocks
  import opened Memory
  import opened EgaPlanes

  class RealMemory {
    const data: array<Byte>
    var ega: Ega
    var watched: bool
    var raised: bool

    constructor (ega: Ega)
      requires |ega.latches| == 4
      ensures Valid() && fresh(data)
      ensures State() == Mem(seq(MEM_SIZE, _ => 0), ega, false, false)
    {
      data := new Byte[MEM_SIZE](_ => 0);
      this.ega, watched, raised := ega, false, false;
    }

    ghost predicate Valid()
      reads this, data
    {
      data.Length == MEM_SIZE && |ega.latches| == 4
    }

    ghost function State(): (m: Mem)
      reads this, data
      requires Valid()
      ensures m.Valid()
    {
      Mem(data[..], ega, watched, raised)
    }

    method Rb(seg: int, off: int) returns (v: Byte)
      requires Valid()
      modifies this
      ensures Valid() && (v, State()) == old(Memory.Rb(State(), seg, off))
      ensures ByteRead(old(State()), seg, off, v, State())
    {
      RbMeans(State(), seg, off);
      hide ByteRead;
      hide Linear, ColorCompare;
      var a := Linear(seg, off);
      if ega.planar && EGA_CPU_APERTURE <= a < EGA_CPU_APERTURE + EGA_PLANE_WINDOW {
        var base := EGA_APERTURE + (a - EGA_CPU_APERTURE);
        ega := ega.(latches := [data[base], data[base + EGA_PLANE_STRIDE],
                                data[base + EGA_PLANE_STRIDE * 2], data[base + EGA_PLANE_STRIDE * 3]]);
        if ega.readMode % 2 == 1 {
          v := ColorCompare(ega, 0);
        } else {
          v := ega.latches[ega.readPlane % 4];
        }
      } else {
        v := data[a];
      }
    }

    method Rw(seg: int, off: int) returns (lo: Byte, hi: Byte)
      requires Valid()
      modifies this
      ensures Valid() && ((lo, hi), State()) == old(Memory.Rw(State(), seg, off))
      ensures WordRead(old(State()), seg, off, lo, hi, State())
    {
      RwMeans(State(), seg, off);
      hide WordRead, ByteRead;
      hide Linear, Memory.Rb;
      var a := Linear(seg, off);
      if ega.planar && EGA_CPU_APERTURE <= a < EGA_CPU_APERTURE + EGA_PLANE_WINDOW {
        lo := Rb(seg, off);
        if a - EGA_CPU_APERTURE + 1 < EGA_PLANE_WINDOW {
          hi := Rb(seg, off + 1);
        } else {
          hi := data[(a + 1) % 0x10_0000];
        }
      } else {
        lo := data[a];
        hi := if a == 0xF_FFFF then data[0] else data[a + 1];
      }
    }

    method EgaStorePlane(plane: nat, po: nat, value: int)
      requires Valid() && plane < 4 && po < EGA_PLANE_WINDOW
      modifies data
      ensures Valid() && State() == old(EgaPlaneStep(State(), plane, po, value))
    {
      hide EgaOutput, PlaneBit;
      if PlaneBit(ega.mapMask, plane) {
        var b: Byte := if ega.writeMode % 4 == 1 then ega.latches[plane] else EgaOutput(ega, plane, value);
        data[EGA_APERTURE + EGA_PLANE_STRIDE * plane + po] := b;
      }
    }

    method EgaWb(po: nat, value: int)
      requires Valid() && po < EGA_PLANE_WINDOW
      modifies this`raised, data
      ensures Valid() && State() == old(Memory.EgaWb(State(), po, value))
      ensures PlanesWritten(old(State()), po, value, State())
    {
      EgaWbMeans(State(), po, value);
      hide PlanesWritten;
      hide EgaPlaneStep;
      if ega.writeMode % 4 >= 2 {
        raised := true;
        return;
      }
      for plane := 0 to 4
        invariant Valid() && ega == old(ega) && watched == old(watched) && raised == old(raised)
        invariant EgaPlaneStore(State(), plane, po, value) == old(EgaPlaneStore(State(), 0, po, value))
      {
        EgaStorePlane(plane, po, value);
      }
    }

    method Wb(seg: int, off: int, value: int)
      requires Valid()
      modifies this`raised, data
      ensures Valid() && State() == old(Memory.Wb(State(), seg, off, value))
      ensures ByteWritten(old(State()), seg, off, value, State())
    {
      hide Linear, Memory.EgaWb, PlanesWritten, ByteWritten;
      ghost var m := State();
      var a := Linear(seg, off);
      if a >= BIOS_ROM_BASE {
      } else if ega.planar && EGA_CPU_APERTURE <= a < EGA_CPU_APERTURE + EGA_PLANE_WINDOW {
        EgaWb(a - EGA_CPU_APERTURE, value);
      } else {
        data[a] := value % 256;
      }
      WbMeans(m, seg, off, value);
    }

    method Ww(seg: int, off: int, lo: int, hi: int)
      requires Valid()
      modifies this`raised, data
      ensures Valid() && State() == old(Memory.Ww(State(), seg, off, (lo, hi)))
      ensures WordWritten(old(State()), seg, off, lo, hi, State())
    {
      hide Linear, Memory.EgaWb, PlanesWritten, WordWritten;
      ghost var m := State();
      var a := Linear(seg, off);
      if a >= BIOS_ROM_BASE {
      } else if ega.planar && EGA_CPU_APERTURE <= a < EGA_CPU_APERTURE + EGA_PLANE_WINDOW {
        var po := a - EGA_CPU_APERTURE;
        EgaWb(po, lo);
        if raised {
        } else if po + 1 < EGA_PLANE_WINDOW {
          EgaWb(po + 1, hi);
        } else {
          data[a + 1] := hi % 256;
        }
      } else {
        data[a] := lo % 256;
        data[a + 1] := hi % 256;
      }
      WwMeans(m, seg, off, lo, hi);
    }

    /** `data[at:at+|x|] = x` */
    method Store(at: nat, x: seq<Byte>)
      requires Valid() && at + |x| <= MEM_SIZE
      modifies data
      ensures data[..] == Put(old(data[..]), at, x)
    {
      forall i | 0 <= i < |x| {
        data[at + i] := x[i];
      }
    }

    method TryForwardBulkFill(seg: int, off: int, pattern: seq<Byte>, count: nat) returns (done: bool)
      requires Valid() && pattern != []
      modifies data
      ensures Valid() && done == old(TryFill(State(), seg, off, pattern, count)).Some?
      ensures State() == if done then old(TryFill(State(), seg, off, pattern, count)).value else old(State())
    {
      hide OrdinaryRange, Put, Repeat;
      var n := |pattern| * count;
      if n == 0 {
        return true;
      }
      if watched {
        return false;
      }
      var addr := OrdinaryAddress(seg, off, n, true);
      if addr.None? {
        return false;
      }
      Store(addr.value, Repeat(pattern, count));
      done := true;
    }

    method TryForwardBulkCopy(srcSeg: int, srcOff: int, dstSeg: int, dstOff: int, n: nat) returns (done: bool)
      requires Valid()
      modifies data
      ensures Valid() && done == old(TryCopy(State(), srcSeg, srcOff, dstSeg, dstOff, n)).Some?
      ensures State() == if done then old(TryCopy(State(), srcSeg, srcOff, dstSeg, dstOff, n)).value
                         else old(State())
    {
      hide OrdinaryRange, Put;
      if n == 0 {
        return true;
      }
      if watched {
        return false;
      }
      var src := OrdinaryAddress(srcSeg, srcOff, n, false);
      var dst := OrdinaryAddress(dstSeg, dstOff, n, true);
      if src.None? || dst.None? || src.value < dst.value < src.value + n {
        return false;
      }
      assert data[src.value..src.value + n] == data[..][src.value..src.value + n];
      Store(dst.value, data[src.value..src.value + n]);
      done := true;
    }

    method OrdinaryAddress(seg: int, off: int, n: nat, writable: bool) returns (addr: Option<nat>)
      requires Valid()
      ensures addr == OrdinaryRange(State(), seg, off, n, writable)
    {
      hide Linear;
      var offset := off % 0x1_0000;
      var a := Linear(seg, offset);
      LinearMod(seg, off);
      if offset + n > 0x1_0000 || a + n > CPU_MEM_SIZE || a + n > data.Length {
        return None;
      }
      if writable && a + n > BIOS_ROM_BASE {
        return None;
      }
      if ega.planar && a < EGA_CPU_APERTURE + EGA_PLANE_WINDOW && a + n > EGA_CPU_APERTURE {
        return None;
      }
      addr := Some(a);
    }

    /** Stores bytes exactly as repeated `wb` would, by one slice when that is sound. */
    method WriteExternalBlock(seg: int, off: int, payload: seq<Byte>)
      requires Valid() && !raised
      modifies this`raised, data
      ensures Valid() && State() == old(WriteAll(State(), seg, off, payload))
    {
      hide OrdinaryRange, Memory.Wb, Put;
      if payload == [] {
        return;
      }
      var addr := OrdinaryAddress(seg, off, |payload|, true);
      if !watched && addr.Some? {
        BlockWriteIsScalar(State(), seg, off, payload);
        Store(addr.value, payload);
        return;
      }
      var index := 0;
      while index < |payload| && !raised
        invariant index <= |payload| && Valid()
        invariant WriteAll(State(), seg, off + index, payload[index..]) == old(WriteAll(State(), seg, off, payload))
      {
        Wb(seg, off + index, payload[index]);
        index := index + 1;
      }
    }
  }
}
