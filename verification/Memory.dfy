/**
 Real-mode memory: 20-bit addressing, the read-only BIOS ROM, the planar EGA aperture,
 and the guarded slice operations that stand in for byte-by-byte transfers.
 */
module Memory {
  import opened Blocks

  type Byte = b: nat | b < 256

  datatype Option<T> = None | Some(value: T)

  const CPU_MEM_SIZE := 0x10_0000
  const EGA_CPU_APERTURE := 0xA_0000
  const EGA_APERTURE := 0x10_0000
  const EGA_PLANE_STRIDE := 0x1_0000
  const EGA_PLANE_WINDOW := 0x1_0000
  const BIOS_ROM_BASE := 0xF_0000
  const MEM_SIZE := CPU_MEM_SIZE + 4 * EGA_PLANE_STRIDE

  /** The graphics-controller registers that `rb`, `wb`, `rw` and `ww` consult. */
  datatype Ega = Ega(planar: bool, mapMask: Byte, readPlane: Byte, dataRotate: Byte, logicalOp: Byte,
                     writeMode: Byte, setReset: Byte, enableSetReset: Byte, bitMask: Byte,
                     readMode: Byte, colorCompare: Byte, colorDontCare: Byte, latches: seq<Byte>)

  /**
   `watched` says that write watchers are installed (they forbid slices); `raised` that an
   unsupported write mode was hit, after which nothing further executes.
   */
  datatype Mem = Mem(data: seq<Byte>, ega: Ega, watched: bool, raised: bool) {
    predicate Valid() {
      |data| == MEM_SIZE && |ega.latches| == 4
    }
  }

  function Linear(seg: int, off: int): (a: nat)
    ensures a < CPU_MEM_SIZE
  {
    (seg % 0x1_0000 * 16 + off % 0x1_0000) % 0x10_0000
  }

  predicate InAperture(m: Mem, a: int) {
    m.ega.planar && EGA_CPU_APERTURE <= a < EGA_CPU_APERTURE + EGA_PLANE_WINDOW
  }

  /** A byte as an eight-bit vector, and back. */
  function Vector(b: Byte): bv8 {
    b as bv8
  }

  function Unvector(x: bv8): Byte {
    x as Byte
  }

  function PlaneBit(mask: Byte, plane: nat): bool
    requires plane < 4
  {
    (Vector(mask) >> plane) & 1 == 1
  }

  // ---- reads ------------------------------------------------------------------

  function PlaneAt(m: Mem, plane: nat, po: nat): Byte
    requires m.Valid() && plane < 4 && po < EGA_PLANE_WINDOW
  {
    m.data[EGA_APERTURE + EGA_PLANE_STRIDE * plane + po]
  }

  /** An aperture read fills the four latches. */
  function Latch(m: Mem, po: nat): (r: Mem)
    requires m.Valid() && po < EGA_PLANE_WINDOW
    ensures r.Valid()
  {
    m.(ega := m.ega.(latches := [PlaneAt(m, 0, po), PlaneAt(m, 1, po), PlaneAt(m, 2, po), PlaneAt(m, 3, po)]))
  }

  /** Where the bits of a plane equal the compare bit, among those that matched before. */
  function Compared(want: bool, bits: bv8, rest: bv8): bv8 {
    (if want then bits else !bits) & rest
  }

  /** Read mode 1: one bit per pixel that matches the compare colour in every plane cared about. */
  function ColorCompare(e: Ega, plane: nat): Byte
    requires |e.latches| == 4 && plane <= 4
    decreases 4 - plane
  {
    if plane == 4 then 0xFF
    else if PlaneBit(e.colorDontCare, plane) then
      Unvector(Compared(PlaneBit(e.colorCompare, plane), Vector(e.latches[plane]), Vector(ColorCompare(e, plane + 1))))
    else ColorCompare(e, plane + 1)
  }

  function Rb(m: Mem, seg: int, off: int): (r: (Byte, Mem))
    requires m.Valid()
    ensures r.1.Valid()
  {
    var a := Linear(seg, off);
    if InAperture(m, a) then
      var m' := Latch(m, a - EGA_CPU_APERTURE);
      if m.ega.readMode % 2 == 1 then (ColorCompare(m'.ega, 0), m')
      else (m'.ega.latches[m.ega.readPlane % 4], m')
    else (m.data[a], m)
  }

  /** A word read returns its two bytes, low first. */
  function Rw(m: Mem, seg: int, off: int): (r: ((Byte, Byte), Mem))
    requires m.Valid()
    ensures r.1.Valid()
  {
    var a := Linear(seg, off);
    if InAperture(m, a) then
      var (lo, m1) := Rb(m, seg, off);
      if a - EGA_CPU_APERTURE + 1 < EGA_PLANE_WINDOW then
        var (hi, m2) := Rb(m1, seg, off + 1);
        ((lo, hi), m2)
      else ((lo, m1.data[(a + 1) % 0x10_0000]), m1)
    else if a == 0xF_FFFF then ((m.data[a], m.data[0]), m)
    else ((m.data[a], m.data[a + 1]), m)
  }

  // ---- writes -----------------------------------------------------------------

  /** `((v >> n) | (v << (8 - n))) & 0xFF` */
  function Rotated(v: bv8, n: nat): bv8
    requires n < 8
  {
    (v >> n) | (v << (8 - n))
  }

  /** What a write-mode-0 store combines with the latch: the set/reset bit of the plane, or the rotated byte. */
  function EgaSource(e: Ega, plane: nat, value: int): bv8
    requires plane < 4
  {
    if PlaneBit(e.enableSetReset, plane) then (if PlaneBit(e.setReset, plane) then 0xFF else 0)
    else Rotated(Vector(value % 256), e.dataRotate % 8)
  }

  function Combined(op: nat, src: bv8, latch: bv8): bv8 {
    match op
    case 0 => src
    case 1 => src & latch
    case 2 => src | latch
    case _ => src ^ latch
  }

  function Masked(alu: bv8, latch: bv8, mask: bv8): bv8 {
    (alu & mask) | (latch & !mask)
  }

  /** The byte a write-mode-0 store leaves in one enabled plane. */
  function EgaOutput(e: Ega, plane: nat, value: int): Byte
    requires |e.latches| == 4 && plane < 4
  {
    var latch := Vector(e.latches[plane]);
    Unvector(Masked(Combined(e.logicalOp % 4, EgaSource(e, plane, value), latch), latch, Vector(e.bitMask)))
  }

  function EgaPlaneStep(m: Mem, plane: nat, po: nat, value: int): (r: Mem)
    requires m.Valid() && plane < 4 && po < EGA_PLANE_WINDOW
    ensures r.Valid()
  {
    if PlaneBit(m.ega.mapMask, plane) then
      var b := if m.ega.writeMode % 4 == 1 then m.ega.latches[plane] else EgaOutput(m.ega, plane, value);
      m.(data := m.data[EGA_APERTURE + EGA_PLANE_STRIDE * plane + po := b])
    else m
  }

  function EgaPlaneStore(m: Mem, plane: nat, po: nat, value: int): (r: Mem)
    requires m.Valid() && plane <= 4 && po < EGA_PLANE_WINDOW
    ensures r.Valid()
    decreases 4 - plane
  {
    if plane == 4 then m else EgaPlaneStore(EgaPlaneStep(m, plane, po, value), plane + 1, po, value)
  }

  function EgaWb(m: Mem, po: nat, value: int): (r: Mem)
    requires m.Valid() && po < EGA_PLANE_WINDOW
    ensures r.Valid()
  {
    if m.ega.writeMode % 4 >= 2 then m.(raised := true) else EgaPlaneStore(m, 0, po, value)
  }

  function Wb(m: Mem, seg: int, off: int, value: int): (r: Mem)
    requires m.Valid()
    ensures r.Valid()
  {
    var a := Linear(seg, off);
    if a >= BIOS_ROM_BASE then m
    else if InAperture(m, a) then EgaWb(m, a - EGA_CPU_APERTURE, value)
    else m.(data := m.data[a := value % 256])
  }

  function Ww(m: Mem, seg: int, off: int, value: (int, int)): (r: Mem)
    requires m.Valid()
    ensures r.Valid()
  {
    var (lo, hi) := value;
    var a := Linear(seg, off);
    if a >= BIOS_ROM_BASE then m
    else if InAperture(m, a) then
      var po := a - EGA_CPU_APERTURE;
      var m1 := EgaWb(m, po, lo);
      if m1.raised then m1
      else if po + 1 < EGA_PLANE_WINDOW then EgaWb(m1, po + 1, hi)
      else m1.(data := m1.data[a + 1 := hi % 256])
    else m.(data := m.data[a := lo % 256][a + 1 := hi % 256])
  }

  /** `write_external_block`'s scalar path: one `wb` per byte. */
  function WriteAll(m: Mem, seg: int, off: int, payload: seq<Byte>): (r: Mem)
    requires m.Valid()
    ensures r.Valid()
    decreases |payload|
  {
    if payload == [] || m.raised then m
    else WriteAll(Wb(m, seg, off, payload[0]), seg, off + 1, payload[1..])
  }

  // ---- the guards ----------------------------------------------------------------

  /** Base address of a range where a slice means the same as its bytes, or None. */
  function OrdinaryRange(m: Mem, seg: int, off: int, n: nat, writable: bool): (r: Option<nat>)
    requires m.Valid()
    ensures r.Some? ==> r.value == Linear(seg, off) && r.value + n <= CPU_MEM_SIZE
  {
    var offset := off % 0x1_0000;
    var addr := Linear(seg, offset);
    if offset + n > 0x1_0000 || addr + n > CPU_MEM_SIZE || addr + n > |m.data| then None
    else if writable && addr + n > BIOS_ROM_BASE then None
    else if m.ega.planar && addr < EGA_CPU_APERTURE + EGA_PLANE_WINDOW && addr + n > EGA_CPU_APERTURE then None
    else Some(addr)
  }

  function TryFill(m: Mem, seg: int, off: int, pattern: seq<Byte>, count: nat): (r: Option<Mem>)
    requires m.Valid() && pattern != []
    ensures r.Some? ==> r.value.Valid()
  {
    var n := |pattern| * count;
    if n == 0 then Some(m)
    else if m.watched then None
    else
      var addr := OrdinaryRange(m, seg, off, n, true);
      if addr.None? then None
      else Some(m.(data := Put(m.data, addr.value, Repeat(pattern, count))))
  }

  function TryCopy(m: Mem, srcSeg: int, srcOff: int, dstSeg: int, dstOff: int, n: nat): (r: Option<Mem>)
    requires m.Valid()
    ensures r.Some? ==> r.value.Valid()
  {
    if n == 0 then Some(m)
    else if m.watched then None
    else
      var src := OrdinaryRange(m, srcSeg, srcOff, n, false);
      var dst := OrdinaryRange(m, dstSeg, dstOff, n, true);
      if src.None? || dst.None? || src.value < dst.value < src.value + n then None
      else Some(m.(data := Move(m.data, src.value, dst.value, n)))
  }

  // ---- inside an ordinary range every element is a plain slice access ---------------

  /** Advancing the offset advances the address while the range lasts. */
  lemma LinearAdvance(seg: int, off: int, i: nat)
    requires off % 0x1_0000 + i < 0x1_0000 && Linear(seg, off) + i < CPU_MEM_SIZE
    ensures Linear(seg, off + i) == Linear(seg, off) + i
  {
    assert (off + i) % 0x1_0000 == off % 0x1_0000 + i;
  }

  /** What a successful guard says about the tail of the range that starts `i` bytes in. */
  lemma RangeTail(m: Mem, seg: int, off: int, n: nat, writable: bool, i: nat, data: seq<Byte>)
    requires m.Valid() && OrdinaryRange(m, seg, off, n, writable).Some? && i < n && |data| == MEM_SIZE
    ensures var m' := m.(data := data);
            OrdinaryRange(m', seg, off + i, n - i, writable) == Some(Linear(seg, off) + i)
    ensures Linear(seg, off + i) == Linear(seg, off) + i
  {
    hide Linear;
    LinearMod(seg, off);
    LinearMod(seg, off + i);
    LinearAdvance(seg, off, i);
    assert (off + i) % 0x1_0000 == off % 0x1_0000 + i;
  }

  lemma LinearMod(seg: int, off: int)
    ensures Linear(seg, off % 0x1_0000) == Linear(seg, off)
  {
  }

  lemma ReadByteOrdinary(m: Mem, seg: int, off: int, n: nat, writable: bool)
    requires m.Valid() && n >= 1 && OrdinaryRange(m, seg, off, n, writable).Some?
    ensures Rb(m, seg, off) == (m.data[Linear(seg, off)], m)
  {
    hide Linear;
    LinearMod(seg, off);
  }

  lemma ReadWordOrdinary(m: Mem, seg: int, off: int, n: nat, writable: bool)
    requires m.Valid() && n >= 2 && OrdinaryRange(m, seg, off, n, writable).Some?
    ensures Rw(m, seg, off) == ((m.data[Linear(seg, off)], m.data[Linear(seg, off) + 1]), m)
  {
    hide Linear;
    LinearMod(seg, off);
  }

  lemma WriteByteOrdinary(m: Mem, seg: int, off: int, n: nat, v: Byte)
    requires m.Valid() && n >= 1 && OrdinaryRange(m, seg, off, n, true).Some?
    ensures Wb(m, seg, off, v) == m.(data := Put(m.data, Linear(seg, off), [v]))
  {
    hide Linear;
    LinearMod(seg, off);
    assert m.data[Linear(seg, off) := v] == Put(m.data, Linear(seg, off), [v]);
  }

  lemma WriteWordOrdinary(m: Mem, seg: int, off: int, n: nat, lo: Byte, hi: Byte)
    requires m.Valid() && n >= 2 && OrdinaryRange(m, seg, off, n, true).Some?
    ensures Ww(m, seg, off, (lo, hi)) == m.(data := Put(m.data, Linear(seg, off), [lo, hi]))
  {
    hide Linear;
    LinearMod(seg, off);
    var a := Linear(seg, off);
    assert m.data[a := lo][a + 1 := hi] == Put(m.data, a, [lo, hi]);
  }

  /** The slice store of `write_external_block` is the byte loop. */
  lemma {:induction false} BlockWriteIsScalar(m: Mem, seg: int, off: int, payload: seq<Byte>)
    requires m.Valid() && !m.raised && OrdinaryRange(m, seg, off, |payload|, true).Some?
    ensures WriteAll(m, seg, off, payload) == m.(data := Put(m.data, Linear(seg, off), payload))
    decreases |payload|
  {
    hide Linear, OrdinaryRange, Wb;
    if payload == [] {
      assert Put(m.data, Linear(seg, off), payload) == m.data;
    } else {
      var a, v := Linear(seg, off), payload[0];
      var m1 := m.(data := Put(m.data, a, [v]));
      WriteByteOrdinary(m, seg, off, |payload|, v);
      if |payload| == 1 {
        assert payload == [v];
      } else {
        RangeTail(m, seg, off, |payload|, true, 1, m1.data);
        BlockWriteIsScalar(m1, seg, off + 1, payload[1..]);
        PutAfterPut(m.data, a, [v], payload[1..]);
        assert payload == [v] + payload[1..];
      }
    }
  }
}
