/** What reading and writing the real-mode memory do, address by address and bit by bit. */
module EgaPlanes {
  import opened Memory

  /** Bit `k` of a byte. */
  predicate Bit(b: Byte, k: nat)
    requires k < 8
  {
    match k
    case 0 => b % 2 == 1
    case 1 => b / 2 % 2 == 1
    case 2 => b / 4 % 2 == 1
    case 3 => b / 8 % 2 == 1
    case 4 => b / 16 % 2 == 1
    case 5 => b / 32 % 2 == 1
    case 6 => b / 64 % 2 == 1
    case _ => b / 128 % 2 == 1
  }

  // ---- eight-bit vectors -------------------------------------------------------------------

  /** The vector with bit `k` alone. */
  function Line(k: nat): bv8
    requires k < 8
  {
    match k case 0 => 1 case 1 => 2 case 2 => 4 case 3 => 8 case 4 => 16 case 5 => 32 case 6 => 64 case _ => 128
  }

  predicate Single(l: bv8) {
    l == 1 || l == 2 || l == 4 || l == 8 || l == 16 || l == 32 || l == 64 || l == 128
  }

  predicate On(x: bv8, l: bv8) {
    x & l != 0
  }

  lemma LineIsSingle(k: nat)
    requires k < 8
    ensures Single(Line(k))
  {
  }

  lemma SameBit(b: Byte, k: nat)
    requires k < 8
    ensures On(Vector(b), Line(k)) == Bit(b, k)
  {
  }

  lemma BackBit(x: bv8, k: nat)
    requires k < 8
    ensures Bit(Unvector(x), k) == On(x, Line(k))
  {
    SameBit(Unvector(x), k);
    assert Vector(Unvector(x)) == x;
    hide Bit, On, Line;
  }

  lemma LowBitOn(x: bv8, plane: nat)
    requires plane < 4
    ensures ((x >> plane) & 1 == 1) == On(x, Line(plane))
  {
    match plane
    case 0 =>
    case 1 =>
    case 2 =>
    case _ =>
  }

  lemma PlaneBitIs(b: Byte, plane: nat)
    requires plane < 4
    ensures PlaneBit(b, plane) == Bit(b, plane)
  {
    SameBit(b, plane);
    LowBitOn(Vector(b), plane);
    hide Bit, On, Line, Vector;
  }

  lemma CombinedOn(op: nat, a: bv8, b: bv8, l: bv8)
    requires Single(l)
    ensures On(Combined(op, a, b), l)
            == match op case 0 => On(a, l) case 1 => On(a, l) && On(b, l) case 2 => On(a, l) || On(b, l) case _ => On(a, l) != On(b, l)
  {
  }

  lemma MaskedOn(alu: bv8, latch: bv8, mask: bv8, l: bv8)
    requires Single(l)
    ensures On(Masked(alu, latch, mask), l) == if On(mask, l) then On(alu, l) else On(latch, l)
  {
  }

  lemma FillOn(l: bv8)
    requires Single(l)
    ensures On(0xFF, l) && !On(0, l)
  {
  }

  /** A turn by one bit. */
  function TurnedRight(v: bv8): bv8 {
    (v >> 1) | (v << 7)
  }

  lemma RotatedNext(v: bv8, n: nat)
    requires n < 7
    ensures Rotated(v, n + 1) == TurnedRight(Rotated(v, n))
  {
    match n
    case 0 =>
    case 1 =>
    case 2 =>
    case 3 =>
    case 4 =>
    case 5 =>
    case _ =>
  }

  lemma TurnedOn(v: bv8, k: nat)
    requires k < 8
    ensures On(TurnedRight(v), Line(k)) == On(v, Line(if k == 7 then 0 else k + 1))
  {
    match k
    case 0 =>
    case 1 =>
    case 2 =>
    case 3 =>
    case 4 =>
    case 5 =>
    case 6 =>
    case _ =>
  }

  lemma RotatedNone(v: bv8)
    ensures Rotated(v, 0) == v
  {
  }

  lemma {:induction false} RotatedOn(v: bv8, n: nat, k: nat)
    requires n < 8 && k < 8
    ensures On(Rotated(v, n), Line(k)) == On(v, Line((k + n) % 8))
    decreases n
  {
    hide *;
    if n == 0 {
      RotatedNone(v);
    } else {
      RotatedNext(v, n - 1);
      TurnedOn(Rotated(v, n - 1), k);
      RotatedOn(v, n - 1, if k == 7 then 0 else k + 1);
      assert ((if k == 7 then 0 else k + 1) + (n - 1)) % 8 == (k + n) % 8;
    }
  }

  // ---- planar writes -----------------------------------------------------------------------

  /**
   Bit `k` of what write mode 0 stores in plane `p`: where the bit mask has a zero the latch
   stays; elsewhere the set/reset bit of the plane, or the CPU's byte rotated right, goes
   through the chosen operation with the latch.
   */
  predicate OutBit(e: Ega, p: nat, value: int, k: nat)
    requires |e.latches| == 4 && p < 4 && k < 8
  {
    var l := Bit(e.latches[p], k);
    var s := if Bit(e.enableSetReset, p) then Bit(e.setReset, p) else Bit(value % 256, (k + e.dataRotate % 8) % 8);
    if !Bit(e.bitMask, k) then l
    else
      match e.logicalOp % 4
      case 0 => s
      case 1 => s && l
      case 2 => s || l
      case _ => s != l
  }

  lemma SourceBit(e: Ega, p: nat, value: int, k: nat)
    requires p < 4 && k < 8
    ensures On(EgaSource(e, p, value), Line(k))
            == if Bit(e.enableSetReset, p) then Bit(e.setReset, p) else Bit(value % 256, (k + e.dataRotate % 8) % 8)
  {
    hide Bit, On, Line, PlaneBit, Rotated, Single, Vector;
    PlaneBitIs(e.enableSetReset, p);
    PlaneBitIs(e.setReset, p);
    LineIsSingle(k);
    FillOn(Line(k));
    RotatedOn(Vector(value % 256), e.dataRotate % 8, k);
    SameBit(value % 256, (k + e.dataRotate % 8) % 8);
  }

  lemma OutputOn(e: Ega, p: nat, value: int, k: nat)
    requires |e.latches| == 4 && p < 4 && k < 8
    ensures var (s, l, latch) := (On(EgaSource(e, p, value), Line(k)), Line(k), Vector(e.latches[p]));
            Bit(EgaOutput(e, p, value), k)
            == if !On(Vector(e.bitMask), l) then On(latch, l)
               else match e.logicalOp % 4 case 0 => s case 1 => s && On(latch, l) case 2 => s || On(latch, l) case _ => s != On(latch, l)
  {
    hide Bit, On, EgaSource, Combined, Masked, Line, Single, Vector, Unvector;
    var src, latch, mask := EgaSource(e, p, value), Vector(e.latches[p]), Vector(e.bitMask);
    LineIsSingle(k);
    CombinedOn(e.logicalOp % 4, src, latch, Line(k));
    MaskedOn(Combined(e.logicalOp % 4, src, latch), latch, mask, Line(k));
    BackBit(Masked(Combined(e.logicalOp % 4, src, latch), latch, mask), k);
  }

  lemma EgaOutputBits(e: Ega, p: nat, value: int, k: nat)
    requires |e.latches| == 4 && p < 4 && k < 8
    ensures Bit(EgaOutput(e, p, value), k) == OutBit(e, p, value, k)
  {
    hide Bit, On, EgaOutput, EgaSource, Line, Vector, Unvector;
    OutputOn(e, p, value, k);
    SourceBit(e, p, value, k);
    SameBit(e.latches[p], k);
    SameBit(e.bitMask, k);
  }

  // ---- planar reads ------------------------------------------------------------------------

  lemma ComparedOn(want: bool, bits: bv8, rest: bv8, l: bv8)
    requires Single(l)
    ensures On(Compared(want, bits, rest), l) == (On(bits, l) == want && On(rest, l))
  {
  }

  /** Plane `p` of pixel `k` does not tell the pixel from the compare colour. */
  predicate Matches(e: Ega, p: nat, k: nat)
    requires |e.latches| == 4 && p < 4 && k < 8
  {
    Bit(e.colorDontCare, p) ==> Bit(e.latches[p], k) == Bit(e.colorCompare, p)
  }

  lemma ComparedWith(e: Ega, p: nat, k: nat, rest: Byte)
    requires |e.latches| == 4 && p < 4 && k < 8
    ensures Bit(Unvector(Compared(PlaneBit(e.colorCompare, p), Vector(e.latches[p]), Vector(rest))), k)
            == ((Bit(e.latches[p], k) == Bit(e.colorCompare, p)) && Bit(rest, k))
  {
    hide Bit, On, Line, Vector, Unvector, Single, PlaneBit, Compared;
    LineIsSingle(k);
    ComparedOn(PlaneBit(e.colorCompare, p), Vector(e.latches[p]), Vector(rest), Line(k));
    PlaneBitIs(e.colorCompare, p);
    SameBit(e.latches[p], k);
    SameBit(rest, k);
    BackBit(Compared(PlaneBit(e.colorCompare, p), Vector(e.latches[p]), Vector(rest)), k);
  }

  lemma AllOnes(k: nat)
    requires k < 8
    ensures Bit(0xFF, k)
  {
  }

  lemma ComparedNext(e: Ega, p: nat, k: nat)
    requires |e.latches| == 4 && p < 4 && k < 8
    ensures Bit(ColorCompare(e, p), k) == (Matches(e, p, k) && Bit(ColorCompare(e, p + 1), k))
  {
    PlaneBitIs(e.colorDontCare, p);
    ComparedWith(e, p, k, ColorCompare(e, p + 1));
    hide Bit, Vector, Unvector, PlaneBit, Compared;
  }

  lemma ComparedLast(e: Ega, k: nat)
    requires |e.latches| == 4 && k < 8
    ensures Bit(ColorCompare(e, 4), k)
  {
    AllOnes(k);
    hide Bit;
  }

  /** Read mode 1 answers a one for each pixel that matches in all four planes. */
  lemma ComparedBits(e: Ega, k: nat)
    requires |e.latches| == 4 && k < 8
    ensures Bit(ColorCompare(e, 0), k) == (Matches(e, 0, k) && Matches(e, 1, k) && Matches(e, 2, k) && Matches(e, 3, k))
  {
    hide *;
    ComparedNext(e, 0, k);
    ComparedNext(e, 1, k);
    ComparedNext(e, 2, k);
    ComparedNext(e, 3, k);
    ComparedLast(e, k);
  }

  // ---- one byte ----------------------------------------------------------------------------

  /** The linear address: sixteen times the segment plus the offset, within a megabyte. */
  function Address(seg: int, off: int): nat {
    (16 * (seg % 0x1_0000) + off % 0x1_0000) % 0x10_0000
  }

  predicate OnScreen(m: Mem, a: nat) {
    m.ega.planar && 0xA_0000 <= a < 0xB_0000
  }

  /** The four plane bytes at offset `po`. */
  function PlaneBytes(m: Mem, po: nat): (r: seq<Byte>)
    requires m.Valid() && po < 0x1_0000
    ensures |r| == 4
  {
    [m.data[0x10_0000 + po], m.data[0x11_0000 + po], m.data[0x12_0000 + po], m.data[0x13_0000 + po]]
  }

  /** What a byte read returns and leaves. */
  ghost predicate ByteRead(m: Mem, seg: int, off: int, v: Byte, r: Mem) {
    var a := Address(seg, off);
    m.Valid()
    && if !OnScreen(m, a) then r == m && v == m.data[a]
       else
         var l := PlaneBytes(m, a - 0xA_0000);
         r == m.(ega := m.ega.(latches := l))
         && if m.ega.readMode % 2 == 0 then v == l[m.ega.readPlane % 4]
            else forall k: nat :: k < 8 ==>
                   Bit(v, k) == (Matches(r.ega, 0, k) && Matches(r.ega, 1, k) && Matches(r.ega, 2, k) && Matches(r.ega, 3, k))
  }

  lemma AddressIs(seg: int, off: int)
    ensures Linear(seg, off) == Address(seg, off)
  {
  }

  lemma RbMeans(m: Mem, seg: int, off: int)
    requires m.Valid()
    ensures ByteRead(m, seg, off, Rb(m, seg, off).0, Rb(m, seg, off).1)
  {
    AddressIs(seg, off);
    hide Linear, Address, ColorCompare, Matches, Bit;
    var r := Rb(m, seg, off).1;
    forall k: nat | k < 8
      ensures Bit(ColorCompare(r.ega, 0), k) == (Matches(r.ega, 0, k) && Matches(r.ega, 1, k) && Matches(r.ega, 2, k) && Matches(r.ega, 3, k))
    {
      ComparedBits(r.ega, k);
    }
  }

  /** Bit `k` of plane `p` at an address after a planar write of `value` there. */
  predicate StoredBit(e: Ega, p: nat, old_: Byte, value: int, k: nat)
    requires |e.latches| == 4 && p < 4 && k < 8
  {
    if !Bit(e.mapMask, p) then Bit(old_, k)
    else if e.writeMode % 4 == 1 then Bit(e.latches[p], k)
    else OutBit(e, p, value, k)
  }

  /** A planar write: refused in modes 2 and 3, else every plane gets its bits at this one address. */
  ghost predicate PlanesWritten(m: Mem, po: nat, value: int, r: Mem) {
    m.Valid() && r.Valid() && po < 0x1_0000
    && if m.ega.writeMode % 4 == 2 || m.ega.writeMode % 4 == 3 then r == m.(raised := true)
       else
         r == m.(data := r.data)
         && (forall i :: 0 <= i < |m.data| && i != 0x10_0000 + po && i != 0x11_0000 + po && i != 0x12_0000 + po && i != 0x13_0000 + po ==>
               r.data[i] == m.data[i])
         && forall p: nat, k: nat :: p < 4 && k < 8 ==>
              Bit(PlaneBytes(r, po)[p], k) == StoredBit(m.ega, p, PlaneBytes(m, po)[p], value, k)
  }

  lemma StepAt(m: Mem, p: nat, po: nat, value: int)
    requires m.Valid() && p < 4 && po < 0x1_0000
    ensures var r := EgaPlaneStep(m, p, po, value);
            r == m.(data := r.data)
            && (forall i :: 0 <= i < |m.data| && i != 0x10_0000 + 0x1_0000 * p + po ==> r.data[i] == m.data[i])
            && r.data[0x10_0000 + 0x1_0000 * p + po]
               == if !PlaneBit(m.ega.mapMask, p) then m.data[0x10_0000 + 0x1_0000 * p + po]
                  else if m.ega.writeMode % 4 == 1 then m.ega.latches[p] else EgaOutput(m.ega, p, value)
  {
    hide EgaOutput, PlaneBit;
  }

  /** The byte plane `p` gets. */
  function StoredByte(e: Ega, p: nat, old_: Byte, value: int): Byte
    requires |e.latches| == 4 && p < 4
  {
    if !PlaneBit(e.mapMask, p) then old_ else if e.writeMode % 4 == 1 then e.latches[p] else EgaOutput(e, p, value)
  }

  lemma StoreUnfolds(m: Mem, p: nat, po: nat, value: int)
    requires m.Valid() && p < 4 && po < 0x1_0000
    ensures EgaPlaneStore(m, 4, po, value) == m
    ensures EgaPlaneStore(m, p, po, value) == EgaPlaneStore(EgaPlaneStep(m, p, po, value), p + 1, po, value)
  {
    hide EgaPlaneStep;
  }

  /** The four plane stores, one after another. */
  lemma StoresAt(m: Mem, po: nat, value: int)
    requires m.Valid() && po < 0x1_0000
    ensures var (r, b) := (EgaPlaneStore(m, 0, po, value), PlaneBytes(m, po));
            r == m.(data := r.data)
            && (forall i :: 0 <= i < |m.data| && i != 0x10_0000 + po && i != 0x11_0000 + po && i != 0x12_0000 + po && i != 0x13_0000 + po ==>
                  r.data[i] == m.data[i])
            && PlaneBytes(r, po) == [StoredByte(m.ega, 0, b[0], value), StoredByte(m.ega, 1, b[1], value),
                                     StoredByte(m.ega, 2, b[2], value), StoredByte(m.ega, 3, b[3], value)]
  {
    hide EgaPlaneStep, EgaPlaneStore, EgaOutput, PlaneBit;
    var m1 := EgaPlaneStep(m, 0, po, value);
    var m2 := EgaPlaneStep(m1, 1, po, value);
    var m3 := EgaPlaneStep(m2, 2, po, value);
    var m4 := EgaPlaneStep(m3, 3, po, value);
    StoreUnfolds(m, 0, po, value);
    StoreUnfolds(m1, 1, po, value);
    StoreUnfolds(m2, 2, po, value);
    StoreUnfolds(m3, 3, po, value);
    StoreUnfolds(m4, 0, po, value);
    StepAt(m, 0, po, value);
    StepAt(m1, 1, po, value);
    StepAt(m2, 2, po, value);
    StepAt(m3, 3, po, value);
  }

  lemma StoredByteBits(e: Ega, p: nat, old_: Byte, value: int, k: nat)
    requires |e.latches| == 4 && p < 4 && k < 8
    ensures Bit(StoredByte(e, p, old_, value), k) == StoredBit(e, p, old_, value, k)
  {
    PlaneBitIs(e.mapMask, p);
    EgaOutputBits(e, p, value, k);
    hide Bit, OutBit, EgaOutput, PlaneBit;
  }

  lemma EgaWbMeans(m: Mem, po: nat, value: int)
    requires m.Valid() && po < 0x1_0000
    ensures PlanesWritten(m, po, value, EgaWb(m, po, value))
  {
    StoresAt(m, po, value);
    var r, b := EgaPlaneStore(m, 0, po, value), PlaneBytes(m, po);
    hide EgaPlaneStore, StoredByte, StoredBit, Bit, PlaneBytes;
    forall p: nat, k: nat | p < 4 && k < 8
      ensures Bit(PlaneBytes(r, po)[p], k) == StoredBit(m.ega, p, b[p], value, k)
    {
      StoredByteBits(m.ega, p, b[p], value, k);
    }
  }

  /** What a byte write leaves: nothing in the ROM, the planes under the aperture, RAM elsewhere. */
  ghost predicate ByteWritten(m: Mem, seg: int, off: int, value: int, r: Mem) {
    var a := Address(seg, off);
    m.Valid()
    && if a >= 0xF_0000 then r == m
       else if OnScreen(m, a) then PlanesWritten(m, a - 0xA_0000, value, r)
       else r == m.(data := m.data[a := value % 256])
  }

  lemma WbMeans(m: Mem, seg: int, off: int, value: int)
    requires m.Valid()
    ensures ByteWritten(m, seg, off, value, Wb(m, seg, off, value))
  {
    AddressIs(seg, off);
    hide Linear, Address, EgaWb, PlanesWritten;
    if OnScreen(m, Linear(seg, off)) {
      EgaWbMeans(m, Linear(seg, off) - 0xA_0000, value);
    }
  }

  // ---- one word ----------------------------------------------------------------------------

  /** What a word read returns off the screen: the byte there and the one after it, which after the last one is the first. */
  ghost predicate WordRead(m: Mem, seg: int, off: int, lo: Byte, hi: Byte, r: Mem) {
    var a := Address(seg, off);
    m.Valid()
    && if !OnScreen(m, a) then r == m && lo == m.data[a] && hi == m.data[if a == 0xF_FFFF then 0 else a + 1]
       else
         exists m1 :: ByteRead(m, seg, off, lo, m1)
                      && if a == 0xA_FFFF then r == m1 && hi == m1.data[0xB_0000] else ByteRead(m1, seg, off + 1, hi, r)
  }

  lemma RwMeans(m: Mem, seg: int, off: int)
    requires m.Valid()
    ensures WordRead(m, seg, off, Rw(m, seg, off).0.0, Rw(m, seg, off).0.1, Rw(m, seg, off).1)
  {
    AddressIs(seg, off);
    var m1 := Rb(m, seg, off).1;
    RbMeans(m, seg, off);
    RbMeans(m1, seg, off + 1);
    hide Linear, Address, Rb, ByteRead;
  }

  /** What a word write leaves: the low byte there and the high byte after it, in RAM or on the screen. */
  ghost predicate WordWritten(m: Mem, seg: int, off: int, lo: int, hi: int, r: Mem) {
    var a := Address(seg, off);
    m.Valid()
    && if a >= 0xF_0000 then r == m
       else if !OnScreen(m, a) then r == m.(data := m.data[a := lo % 256][a + 1 := hi % 256])
       else
         exists m1 :: PlanesWritten(m, a - 0xA_0000, lo, m1)
                      && if m1.raised then r == m1
                         else if a == 0xA_FFFF then r == m1.(data := m1.data[0xB_0000 := hi % 256])
                         else PlanesWritten(m1, a - 0xA_0000 + 1, hi, r)
  }

  lemma WwMeans(m: Mem, seg: int, off: int, lo: int, hi: int)
    requires m.Valid()
    ensures WordWritten(m, seg, off, lo, hi, Ww(m, seg, off, (lo, hi)))
  {
    AddressIs(seg, off);
    var a := Linear(seg, off);
    hide Linear, Address, EgaWb, PlanesWritten;
    if OnScreen(m, a) {
      var m1 := EgaWb(m, a - 0xA_0000, lo);
      EgaWbMeans(m, a - 0xA_0000, lo);
      if a - 0xA_0000 + 1 < 0x1_0000 {
        EgaWbMeans(m1, a - 0xA_0000 + 1, hi);
      }
    }
  }

  // ---- ranges ------------------------------------------------------------------------------

  /** Byte `i` of the range is `i` bytes further on, off the screen and, for a write, not in the ROM. */
  predicate Ordinary(m: Mem, seg: int, off: int, i: nat, writable: bool) {
    var a := Address(seg, off) + i;
    Address(seg, off + i) == a && !OnScreen(m, a) && (writable ==> a < 0xF_0000)
  }

  lemma AddressLess(seg: int, off: int)
    ensures 0 <= Address(seg, off) < 0x10_0000
  {
  }

  /** Inside its segment an offset counts up with the address, until the megabyte wraps; past its end it drops by 64 KB. */
  lemma AddressNext(seg: int, off: int, i: nat)
    requires i < 0x1_0000
    ensures off % 0x1_0000 + i < 0x1_0000 && Address(seg, off) + i < 0x10_0000 ==> Address(seg, off + i) == Address(seg, off) + i
    ensures off % 0x1_0000 + i >= 0x1_0000 ==> Address(seg, off + i) != Address(seg, off) + i
  {
    var (s, o) := (seg % 0x1_0000, off % 0x1_0000);
    OffsetNext(off, i);
    if o + i < 0x1_0000 {
      Megabyte(16 * s + o, i);
    } else {
      Megabyte(16 * s + o + i - 0x1_0000, 0x1_0000 - i);
    }
  }

  lemma OffsetNext(off: int, i: nat)
    requires i < 0x1_0000
    ensures (off + i) % 0x1_0000 == if off % 0x1_0000 + i < 0x1_0000 then off % 0x1_0000 + i else off % 0x1_0000 + i - 0x1_0000
  {
  }

  lemma Megabyte(x: nat, i: nat)
    requires i <= 0x1_0000 && x < 0x20_0000
    ensures (x + i) % 0x10_0000 == x % 0x10_0000 + i || (x + i) % 0x10_0000 == x % 0x10_0000 + i - 0x10_0000
    ensures x % 0x10_0000 + i < 0x10_0000 ==> (x + i) % 0x10_0000 == x % 0x10_0000 + i
  {
  }

  /** The guard accepts a range exactly when each of its bytes is ordinary. */
  lemma OrdinaryExactly(m: Mem, seg: int, off: int, n: nat, writable: bool)
    requires m.Valid() && n > 0
    ensures OrdinaryRange(m, seg, off, n, writable).Some? <==> forall i: nat :: i < n ==> Ordinary(m, seg, off, i, writable)
  {
    var (o, a) := (off % 0x1_0000, Address(seg, off));
    AddressIs(seg, off);
    AddressIs(seg, o);
    LinearMod(seg, off);
    AddressLess(seg, off);
    hide Linear, Address;
    if OrdinaryRange(m, seg, off, n, writable).Some? {
      forall i: nat | i < n
        ensures Ordinary(m, seg, off, i, writable)
      {
        AddressNext(seg, off, i);
      }
    } else {
      var i: nat := if o + n > 0x1_0000 then 0x1_0000 - o
                    else if a + n > 0x10_0000 then 0x10_0000 - a
                    else if writable && a + n > 0xF_0000 then (if a >= 0xF_0000 then 0 else 0xF_0000 - a)
                    else if a >= 0xA_0000 then 0 else 0xA_0000 - a;
      AddressLess(seg, off + i);
      if i < 0x1_0000 {
        AddressNext(seg, off, i);
      }
      assert i < n && !Ordinary(m, seg, off, i, writable);
    }
  }
}
