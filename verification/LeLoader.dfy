/**
 Loading an LE image: pages and fixups as writes to a flat memory, and what shifting
 every object by a constant changes.
 */
module LeLoader {
  import opened Blocks
  import opened Memory

  const FLAT_CODE_SEL := 0x000C
  const FLAT_DATA_SEL := 0x0014

  const SRC_BYTE := 0x00
  const SRC_SELECTOR16 := 0x02
  const SRC_PTR16_16 := 0x03
  const SRC_OFFSET16 := 0x05
  const SRC_PTR16_32 := 0x06
  const SRC_OFFSET32 := 0x07
  const SRC_SELF_REL32 := 0x08

  datatype LeObject = LeObject(virtualSize: nat, base: int, executable: bool, firstPage: nat, pageCount: nat)

  /** The header fields the loader uses, and the whole file. */
  datatype Le = Le(data: seq<Byte>, objects: seq<LeObject>, pageSize: nat, numPages: nat, lastPageBytes: nat,
                   entryObject: nat, entryOffset: nat, stackObject: nat, stackOffset: nat,
                   pageMap: nat, dataPages: nat, fixupPageTab: nat, fixupRecTab: nat)

  // ---- little-endian fields --------------------------------------------------------

  /** The low `w` bytes of `v`. */
  function Bytes(v: int, w: nat): (r: seq<Byte>)
    ensures |r| == w
    decreases w
  {
    if w == 0 then [] else [v % 256] + Bytes(v / 256, w - 1)
  }

  function Num(x: seq<Byte>): nat {
    if x == [] then 0 else x[0] + 256 * Num(x[1..])
  }

  function U8(d: seq<Byte>, o: nat): Option<nat> {
    if o < |d| then Some(d[o]) else None
  }

  function U16(d: seq<Byte>, o: nat): Option<nat> {
    if o + 2 <= |d| then Some(Num(d[o..o + 2])) else None
  }

  function U32(d: seq<Byte>, o: nat): Option<nat> {
    if o + 4 <= |d| then Some(Num(d[o..o + 4])) else None
  }

  /** `<h` */
  function S16(d: seq<Byte>, o: nat): Option<int> {
    match U16(d, o)
    case None => None
    case Some(v) => Some(if v >= 0x8000 then v - 0x1_0000 else v)
  }

  /** Adding to a field and truncating is adding to the number and truncating. */
  lemma {:induction false} BytesGrow(v: int, d: int, w: nat)
    ensures Bytes(Num(Bytes(v, w)) + d, w) == Bytes(v + d, w)
    decreases w
  {
    if w > 0 {
      var n := Num(Bytes(v / 256, w - 1));
      var e := (v % 256 + d) / 256;
      assert Bytes(v, w)[1..] == Bytes(v / 256, w - 1);
      assert Num(Bytes(v, w)) == v % 256 + 256 * n;
      hide Num, Bytes;
      BytesGrow(v / 256, e, w - 1);
      DigitCarry(v, d, n);
      BytesStep(v % 256 + 256 * n + d, w);
      BytesStep(v + d, w);
    }
  }

  lemma BytesStep(v: int, w: nat)
    requires w > 0
    ensures Bytes(v, w) == [v % 256] + Bytes(v / 256, w - 1)
  {
  }

  lemma DigitCarry(v: int, d: int, n: int)
    ensures (v % 256 + 256 * n + d) % 256 == (v + d) % 256
    ensures (v % 256 + 256 * n + d) / 256 == n + (v % 256 + d) / 256
    ensures (v + d) / 256 == v / 256 + (v % 256 + d) / 256
  {
  }

  // ---- fixup records -----------------------------------------------------------------

  /** One record: several source offsets may share a target. */
  datatype Record = Record(stype: nat, sources: seq<int>, objNum: nat, tgtOff: nat)

  /** `n` signed words from `o`. */
  function Sources(d: seq<Byte>, o: nat, n: nat): (r: Option<seq<int>>)
    ensures r.Some? ==> |r.value| == n && (n > 0 ==> o + 2 * n <= |d|)
    decreases n
  {
    if n == 0 then Some([])
    else
      match (S16(d, o), Sources(d, o + 2, n - 1))
      case (Some(x), Some(xs)) => Some([x] + xs)
      case _ => None
  }

  /** The source offsets, and where they end. */
  function SourceList(d: seq<Byte>, srcType: nat, o: nat): (r: Option<(seq<int>, nat)>)
    ensures r.Some? ==> o < r.value.1 <= |d|
  {
    if srcType / 0x20 % 2 == 1 then
      match U8(d, o)
      case None => None
      case Some(n) =>
        match Sources(d, o + 1, n)
        case None => None
        case Some(xs) => Some((xs, o + 1 + 2 * n))
    else
      match S16(d, o)
      case None => None
      case Some(x) => Some(([x], o + 2))
  }

  /** The width of the target offset field. */
  function OffsetWidth(stype: nat, flags: nat): nat {
    if stype == SRC_SELECTOR16 then 0
    else if stype == SRC_PTR16_32 then 4
    else if stype == SRC_PTR16_16 || stype == SRC_OFFSET16 then 2
    else if flags / 0x10 % 2 == 1 then 4
    else 2
  }

  function Field(d: seq<Byte>, o: nat, w: nat): Option<nat> {
    if w == 0 then Some(0) else if o + w <= |d| then Some(Num(d[o..o + w])) else None
  }

  /** The record at `o`, and the offset after it; None where the parse raises. */
  function ParseRecord(d: seq<Byte>, o: nat): (r: Option<(Record, nat)>)
    ensures r.Some? ==> o < r.value.1 <= |d|
  {
    if o + 2 > |d| then None
    else
      var (srcType, flags) := (d[o], d[o + 1]);
      match SourceList(d, srcType, o + 2)
      case None => None
      case Some((sources, o1)) =>
        if flags % 4 != 0 then None
        else
          var ow := if flags / 0x40 % 2 == 1 then 2 else 1;
          var w := OffsetWidth(srcType % 16, flags);
          match (Field(d, o1, ow), Field(d, o1 + ow, w))
          case (Some(objNum), Some(tgtOff)) => Some((Record(srcType % 16, sources, objNum, tgtOff), o1 + ow + w))
          case _ => None
  }

  /** The records in [o, end). */
  function Records(d: seq<Byte>, o: nat, end: nat): Option<seq<Record>>
    decreases if o < |d| then |d| - o else 0
  {
    if o >= end then Some([])
    else
      match ParseRecord(d, o)
      case None => None
      case Some((rec, o')) =>
        match Records(d, o', end)
        case None => None
        case Some(rest) => Some([rec] + rest)
  }

  // ---- writes ------------------------------------------------------------------------

  /**
   A store of bytes at an index of the image; a negative index counts from the end, as
   Python's does. `moves` marks a field that holds a linear address.
   */
  datatype Write = Write(at: int, bytes: seq<Byte>, moves: bool)

  function Resolve(at: int, len: nat): int {
    if at < 0 then at + len else at
  }

  function ApplyWrite(mem: seq<Byte>, w: Write): (r: Option<seq<Byte>>)
    ensures r.Some? ==> |r.value| == |mem|
  {
    var i := Resolve(w.at, |mem|);
    if 0 <= i && i + |w.bytes| <= |mem| then Some(Put(mem, i, w.bytes)) else None
  }

  function ApplyWrites(mem: seq<Byte>, ws: seq<Write>): (r: Option<seq<Byte>>)
    ensures r.Some? ==> |r.value| == |mem|
    decreases |ws|
  {
    if ws == [] then Some(mem)
    else
      match ApplyWrites(mem, ws[..|ws| - 1])
      case None => None
      case Some(m) => ApplyWrite(m, ws[|ws| - 1])
  }

  /** Both lists of stores, or None if either raises. */
  function Join(a: Option<seq<Write>>, b: Option<seq<Write>>): Option<seq<Write>> {
    if a.Some? && b.Some? then Some(a.value + b.value) else None
  }

  /** `_patch`: the stores one source offset causes, or None where packing or the source type raises. */
  function Patch(stype: nat, srcLinear: int, memBase: int, target: int, selector: nat): Option<seq<Write>> {
    var idx := srcLinear - memBase;
    if stype == SRC_OFFSET32 then Some([Write(idx, Bytes(target, 4), true)])
    else if stype == SRC_OFFSET16 then Some([Write(idx, Bytes(target, 2), true)])
    else if stype == SRC_BYTE then Some([Write(idx, Bytes(target, 1), true)])
    else if stype == SRC_SELF_REL32 then
      var v := (target - (srcLinear + 4)) % 0x1_0000_0000;
      if v < 0x8000_0000 then Some([Write(idx, Bytes(v, 4), false)]) else None
    else if stype == SRC_SELECTOR16 then Some([Write(idx, Bytes(selector, 2), false)])
    else if stype == SRC_PTR16_16 then Some([Write(idx, Bytes(target, 2), true), Write(idx + 2, Bytes(selector, 2), false)])
    else if stype == SRC_PTR16_32 then Some([Write(idx, Bytes(target, 4), true), Write(idx + 4, Bytes(selector, 2), false)])
    else None
  }

  /** `objects[obj_num - 1]`: number 0 picks the last object. */
  function TargetObject(objects: seq<LeObject>, objNum: nat): Option<LeObject> {
    if objNum > |objects| || objects == [] then None
    else Some(objects[if objNum == 0 then |objects| - 1 else objNum - 1])
  }

  function Selector(target: LeObject): nat {
    if target.executable then FLAT_CODE_SEL else FLAT_DATA_SEL
  }

  /** The stores of one record's sources `sources`. */
  function SourceWrites(stype: nat, sources: seq<int>, base: int, memBase: int, target: int, selector: nat): Option<seq<Write>>
    decreases |sources|
  {
    if sources == [] then Some([])
    else
      Join(Patch(stype, base + sources[0], memBase, target, selector),
           SourceWrites(stype, sources[1..], base, memBase, target, selector))
  }

  function RecordWrites(objects: seq<LeObject>, rec: Record, base: int, memBase: int): Option<seq<Write>> {
    match TargetObject(objects, rec.objNum)
    case None => None
    case Some(t) => SourceWrites(rec.stype, rec.sources, base, memBase, t.base + rec.tgtOff, Selector(t))
  }

  function RecordsWrites(objects: seq<LeObject>, recs: seq<Record>, base: int, memBase: int): Option<seq<Write>>
    decreases |recs|
  {
    if recs == [] then Some([])
    else
      Join(RecordWrites(objects, recs[0], base, memBase), RecordsWrites(objects, recs[1..], base, memBase))
  }

  /** The linear address where global page `page` (from 1) starts. */
  function PageBase(objects: seq<LeObject>, pageSize: nat, page: nat): Option<int>
    decreases |objects|
  {
    if objects == [] || page == 0 then None
    else if page <= objects[0].pageCount then Some(objects[0].base + (page - 1) * pageSize)
    else PageBase(objects[1..], pageSize, page - objects[0].pageCount)
  }

  /** The records of one page, as the cursor loop meets them from `o` on. */
  function RecordsFrom(data: seq<Byte>, objects: seq<LeObject>, o: nat, end: nat, base: int, memBase: int): Option<seq<Write>> {
    match Records(data, o, end)
    case None => None
    case Some(recs) => RecordsWrites(objects, recs, base, memBase)
  }

  function PageFixups(le: Le, objects: seq<LeObject>, memBase: int, page: nat): Option<seq<Write>>
    requires page >= 1
  {
    match (U32(le.data, le.fixupPageTab + (page - 1) * 4), U32(le.data, le.fixupPageTab + page * 4),
           PageBase(objects, le.pageSize, page))
    case (Some(start), Some(end), Some(base)) =>
      RecordsFrom(le.data, objects, le.fixupRecTab + start, le.fixupRecTab + end, base, memBase)
    case _ => None
  }

  /** The fixups of pages `page` to the last. */
  function FixupsFrom(le: Le, objects: seq<LeObject>, memBase: int, page: nat): Option<seq<Write>>
    requires page >= 1
    decreases if page <= le.numPages then le.numPages - page + 1 else 0
  {
    if page > le.numPages then Some([])
    else
      Join(PageFixups(le, objects, memBase, page), FixupsFrom(le, objects, memBase, page + 1))
  }

  // ---- pages -------------------------------------------------------------------------

  /** Page `local` of an object; None for a missing map entry, set flags, or file bytes that are not all there. */
  function PageWrite(le: Le, obj: LeObject, memBase: int, local: nat): Option<seq<Write>> {
    if obj.firstPage == 0 then None
    else
      var entry := le.pageMap + (obj.firstPage - 1 + local) * 4;
      var dst := obj.base - memBase + local * le.pageSize;
      if entry + 4 > |le.data| || le.data[entry + 3] != 0 || dst < 0 then None
      else
        var phys := Num([le.data[entry + 2], le.data[entry + 1], le.data[entry]]);
        if phys == 0 then None
        else
          var off := le.dataPages + (phys - 1) * le.pageSize;
          var n := if phys == le.numPages then le.lastPageBytes else le.pageSize;
          if off + n > |le.data| then None else Some([Write(dst, le.data[off..off + n], false)])
  }

  function ObjectPages(le: Le, obj: LeObject, memBase: int, local: nat): Option<seq<Write>>
    decreases if local < obj.pageCount then obj.pageCount - local else 0
  {
    if local >= obj.pageCount then Some([])
    else
      Join(PageWrite(le, obj, memBase, local), ObjectPages(le, obj, memBase, local + 1))
  }

  function PagesOf(le: Le, objects: seq<LeObject>, memBase: int): Option<seq<Write>>
    decreases |objects|
  {
    if objects == [] then Some([])
    else
      Join(ObjectPages(le, objects[0], memBase, 0), PagesOf(le, objects[1..], memBase))
  }

  // ---- the image ---------------------------------------------------------------------

  datatype Image = Image(mem: seq<Byte>, memBase: int, objects: seq<LeObject>)

  /** `base + rebase` for every object. */
  function Shifted(objects: seq<LeObject>, d: int): (r: seq<LeObject>)
    ensures |r| == |objects|
    ensures forall i :: 0 <= i < |objects| ==> r[i] == objects[i].(base := objects[i].base + d)
  {
    if objects == [] then []
    else [objects[0].(base := objects[0].base + d)] + Shifted(objects[1..], d)
  }

  function Top(objects: seq<LeObject>): int
    requires objects != []
    decreases |objects|
  {
    var end := objects[0].base + objects[0].virtualSize;
    if |objects| == 1 then end
    else
      var rest := Top(objects[1..]);
      if rest > end then rest else end
  }

  /** The size of the memory: the limit if one is given, else the top rounded up to a page. */
  function Size(top: int, pageSize: nat, limit: Option<int>): Option<int> {
    match limit
    case Some(l) => if l < top then None else Some(l)
    case None =>
      var size := Align(top, pageSize);
      if size < top then None else Some(size)
  }

  /** `x & ~b` */
  function AndNot(x: nat, b: nat): nat {
    if x == 0 then 0 else 2 * AndNot(x / 2, b / 2) + if x % 2 == 1 && b % 2 == 0 then 1 else 0
  }

  /** `(v + a - 1) & ~(a - 1)`; below zero the sign survives the mask and the size is refused. */
  function Align(v: int, a: nat): int {
    if a == 0 then 0 else if v + a - 1 < 0 then -1 else AndNot(v + a - 1, a - 1)
  }

  /** Every store of a load: pages first, then fixups. */
  function Stores(le: Le, d: int): Option<seq<Write>>
    requires le.objects != []
  {
    var objects := Shifted(le.objects, d);
    Join(PagesOf(le, objects, objects[0].base), FixupsFrom(le, objects, objects[0].base, 1))
  }

  function Zeros(n: nat): (r: seq<Byte>)
    ensures |r| == n && forall i :: 0 <= i < n ==> r[i] == 0
  {
    seq(n, _ => 0)
  }

  /** `load_le` with its rebase and limit arguments; None where it raises. */
  function Load(le: Le, d: int, limit: Option<int>): Option<Image> {
    if le.objects == [] then None
    else
      var objects := Shifted(le.objects, d);
      match (Size(Top(objects), le.pageSize, limit), Stores(le, d))
      case (Some(size), Some(ws)) =>
        if size < 0 then None
        else
          (match ApplyWrites(Zeros(size), ws)
           case None => None
           case Some(mem) => Some(Image(mem, objects[0].base, objects)))
      case _ => None
  }

  /** `objects[object - 1].base + offset`, for the entry and the stack. */
  function LinearOf(image: Image, objNum: nat, offset: nat): Option<int> {
    match TargetObject(image.objects, objNum)
    case None => None
    case Some(t) => Some(t.base + offset)
  }

  // ---- the same stores under a shift ---------------------------------------------------

  /** The store `w` of an unshifted load, in a load shifted by `d`. */
  function Moved(w: Write, d: int): Write {
    if w.moves then w.(bytes := Bytes(Num(w.bytes) + d, |w.bytes|)) else w
  }

  function MovedAll(ws: seq<Write>, d: int): (r: seq<Write>)
    ensures |r| == |ws| && forall i :: 0 <= i < |ws| ==> r[i] == Moved(ws[i], d)
  {
    seq(|ws|, i requires 0 <= i < |ws| => Moved(ws[i], d))
  }

  function MovedOption(ws: Option<seq<Write>>, d: int): Option<seq<Write>> {
    match ws
    case None => None
    case Some(x) => Some(MovedAll(x, d))
  }

  lemma MovedAppend(a: seq<Write>, b: seq<Write>, d: int)
    ensures MovedAll(a + b, d) == MovedAll(a, d) + MovedAll(b, d)
  {
  }

  lemma MovedJoin(a: Option<seq<Write>>, b: Option<seq<Write>>, d: int)
    ensures MovedOption(Join(a, b), d) == Join(MovedOption(a, d), MovedOption(b, d))
  {
    if a.Some? && b.Some? {
      MovedAppend(a.value, b.value, d);
    }
    hide MovedAll;
  }

  lemma MovedOne(w: Write, d: int)
    ensures MovedOption(Some([w]), d) == Some([Moved(w, d)])
  {
    assert MovedAll([w], d) == [Moved(w, d)];
  }

  lemma MovedTwo(w: Write, x: Write, d: int)
    ensures MovedOption(Some([w, x]), d) == Some([Moved(w, d), Moved(x, d)])
  {
    assert MovedAll([w, x], d) == [Moved(w, d), Moved(x, d)];
  }

  lemma OffsetMoves(at: int, v: int, n: nat, d: int)
    ensures Moved(Write(at, Bytes(v, n), true), d) == Write(at, Bytes(v + d, n), true)
  {
    BytesGrow(v, d, n);
    hide Bytes, Num;
  }

  lemma OthersStay(at: int, x: seq<Byte>, d: int)
    ensures Moved(Write(at, x, false), d) == Write(at, x, false)
  {
  }

  /** A patch under a shift: offsets grow, selectors and self-relative displacements do not. */
  lemma PatchMoves(stype: nat, src: int, memBase: int, target: int, selector: nat, d: int)
    ensures Patch(stype, src + d, memBase + d, target + d, selector)
            == MovedOption(Patch(stype, src, memBase, target, selector), d)
  {
    hide Bytes, Num, Moved, MovedOption;
    MovedNone(d);
    var idx := src - memBase;
    if stype == SRC_OFFSET32 {
      OffsetMoves(idx, target, 4, d);
      MovedOne(Write(idx, Bytes(target, 4), true), d);
    } else if stype == SRC_OFFSET16 {
      OffsetMoves(idx, target, 2, d);
      MovedOne(Write(idx, Bytes(target, 2), true), d);
    } else if stype == SRC_BYTE {
      OffsetMoves(idx, target, 1, d);
      MovedOne(Write(idx, Bytes(target, 1), true), d);
    } else if stype == SRC_SELF_REL32 {
      var v := (target - (src + 4)) % 0x1_0000_0000;
      OthersStay(idx, Bytes(v, 4), d);
      MovedOne(Write(idx, Bytes(v, 4), false), d);
    } else if stype == SRC_SELECTOR16 {
      OthersStay(idx, Bytes(selector, 2), d);
      MovedOne(Write(idx, Bytes(selector, 2), false), d);
    } else if stype == SRC_PTR16_16 {
      OffsetMoves(idx, target, 2, d);
      OthersStay(idx + 2, Bytes(selector, 2), d);
      MovedTwo(Write(idx, Bytes(target, 2), true), Write(idx + 2, Bytes(selector, 2), false), d);
    } else if stype == SRC_PTR16_32 {
      OffsetMoves(idx, target, 4, d);
      OthersStay(idx + 4, Bytes(selector, 2), d);
      MovedTwo(Write(idx, Bytes(target, 4), true), Write(idx + 4, Bytes(selector, 2), false), d);
    }
  }

  lemma ShiftedTarget(objects: seq<LeObject>, d: int, objNum: nat)
    ensures TargetObject(Shifted(objects, d), objNum)
            == match TargetObject(objects, objNum)
               case None => None
               case Some(t) => Some(t.(base := t.base + d))
  {
  }

  lemma SourcesNext(stype: nat, sources: seq<int>, base: int, memBase: int, target: int, selector: nat)
    ensures sources == [] ==> SourceWrites(stype, sources, base, memBase, target, selector) == Some([])
    ensures sources != [] ==>
              SourceWrites(stype, sources, base, memBase, target, selector)
              == Join(Patch(stype, base + sources[0], memBase, target, selector),
                      SourceWrites(stype, sources[1..], base, memBase, target, selector))
  {
    hide Patch, Join;
  }

  lemma {:induction false} SourcesMove(stype: nat, sources: seq<int>, base: int, memBase: int, target: int, selector: nat, d: int)
    ensures SourceWrites(stype, sources, base + d, memBase + d, target + d, selector)
            == MovedOption(SourceWrites(stype, sources, base, memBase, target, selector), d)
    decreases |sources|
  {
    hide *;
    MovedNone(d);
    SourcesNext(stype, sources, base, memBase, target, selector);
    SourcesNext(stype, sources, base + d, memBase + d, target + d, selector);
    if |sources| > 0 {
      SourcesMove(stype, sources[1..], base, memBase, target, selector, d);
      PatchMoves(stype, base + sources[0], memBase, target, selector, d);
      assert base + d + sources[0] == base + sources[0] + d;
      MovedJoin(Patch(stype, base + sources[0], memBase, target, selector),
                SourceWrites(stype, sources[1..], base, memBase, target, selector), d);
    }
  }

  lemma RecordMoves(objects: seq<LeObject>, rec: Record, base: int, memBase: int, d: int)
    ensures RecordWrites(Shifted(objects, d), rec, base + d, memBase + d)
            == MovedOption(RecordWrites(objects, rec, base, memBase), d)
  {
    ShiftedTarget(objects, d, rec.objNum);
    hide TargetObject, SourceWrites, MovedOption, Shifted;
    match TargetObject(objects, rec.objNum) {
      case None => assert MovedOption(None, d) == None by { MovedNone(d); }
      case Some(t) =>
        SourcesMove(rec.stype, rec.sources, base, memBase, t.base + rec.tgtOff, Selector(t), d);
        assert t.base + d + rec.tgtOff == t.base + rec.tgtOff + d;
    }
  }

  lemma MovedNone(d: int)
    ensures MovedOption(None, d) == None && MovedOption(Some([]), d) == Some([])
  {
    assert MovedAll([], d) == [];
  }

  lemma RecordsNext(objects: seq<LeObject>, recs: seq<Record>, base: int, memBase: int)
    ensures recs == [] ==> RecordsWrites(objects, recs, base, memBase) == Some([])
    ensures recs != [] ==>
              RecordsWrites(objects, recs, base, memBase)
              == Join(RecordWrites(objects, recs[0], base, memBase), RecordsWrites(objects, recs[1..], base, memBase))
  {
    hide RecordWrites, Join;
  }

  lemma {:induction false} RecordsMove(objects: seq<LeObject>, recs: seq<Record>, base: int, memBase: int, d: int)
    ensures RecordsWrites(Shifted(objects, d), recs, base + d, memBase + d)
            == MovedOption(RecordsWrites(objects, recs, base, memBase), d)
    decreases |recs|
  {
    hide *;
    MovedNone(d);
    RecordsNext(objects, recs, base, memBase);
    RecordsNext(Shifted(objects, d), recs, base + d, memBase + d);
    if |recs| > 0 {
      RecordsMove(objects, recs[1..], base, memBase, d);
      RecordMoves(objects, recs[0], base, memBase, d);
      MovedJoin(RecordWrites(objects, recs[0], base, memBase), RecordsWrites(objects, recs[1..], base, memBase), d);
    }
  }

  lemma {:induction false} PageBaseMoves(objects: seq<LeObject>, pageSize: nat, page: nat, d: int)
    ensures PageBase(Shifted(objects, d), pageSize, page)
            == match PageBase(objects, pageSize, page) case None => None case Some(b) => Some(b + d)
    decreases |objects|
  {
    if objects != [] && page != 0 && page > objects[0].pageCount {
      assert Shifted(objects, d)[1..] == Shifted(objects[1..], d);
      PageBaseMoves(objects[1..], pageSize, page - objects[0].pageCount, d);
    }
  }

  lemma RecordsFromMove(le: Le, o: nat, end: nat, base: int, memBase: int, d: int)
    ensures RecordsFrom(le.data, Shifted(le.objects, d), o, end, base + d, memBase + d)
            == MovedOption(RecordsFrom(le.data, le.objects, o, end, base, memBase), d)
  {
    MovedNone(d);
    hide Records, MovedOption, Shifted, RecordsWrites;
    match Records(le.data, o, end) {
      case None =>
      case Some(recs) => RecordsMove(le.objects, recs, base, memBase, d);
    }
  }

  lemma PageFixupsMove(le: Le, memBase: int, page: nat, d: int)
    requires page >= 1
    ensures PageFixups(le, Shifted(le.objects, d), memBase + d, page)
            == MovedOption(PageFixups(le, le.objects, memBase, page), d)
  {
    MovedNone(d);
    PageBaseMoves(le.objects, le.pageSize, page, d);
    hide U32, MovedOption, Shifted, PageBase, RecordsFrom;
    match (U32(le.data, le.fixupPageTab + (page - 1) * 4), U32(le.data, le.fixupPageTab + page * 4),
           PageBase(le.objects, le.pageSize, page)) {
      case (Some(start), Some(end), Some(base)) =>
        RecordsFromMove(le, le.fixupRecTab + start, le.fixupRecTab + end, base, memBase, d);
      case _ =>
    }
  }

  lemma FixupsNext(le: Le, objects: seq<LeObject>, memBase: int, page: nat)
    requires page >= 1
    ensures page > le.numPages ==> FixupsFrom(le, objects, memBase, page) == Some([])
    ensures page <= le.numPages ==>
              FixupsFrom(le, objects, memBase, page)
              == Join(PageFixups(le, objects, memBase, page), FixupsFrom(le, objects, memBase, page + 1))
  {
    hide PageFixups, Join;
  }

  lemma {:induction false} FixupsMove(le: Le, memBase: int, page: nat, d: int)
    requires page >= 1
    ensures FixupsFrom(le, Shifted(le.objects, d), memBase + d, page)
            == MovedOption(FixupsFrom(le, le.objects, memBase, page), d)
    decreases if page <= le.numPages then le.numPages - page + 1 else 0
  {
    hide *;
    MovedNone(d);
    FixupsNext(le, le.objects, memBase, page);
    FixupsNext(le, Shifted(le.objects, d), memBase + d, page);
    if page <= le.numPages {
      PageFixupsMove(le, memBase, page, d);
      FixupsMove(le, memBase, page + 1, d);
      MovedJoin(PageFixups(le, le.objects, memBase, page), FixupsFrom(le, le.objects, memBase, page + 1), d);
    }
  }

  /** Page contents and their places do not depend on the shift. */
  ghost predicate Still(ws: Option<seq<Write>>) {
    ws.Some? ==> forall i :: 0 <= i < |ws.value| ==> !ws.value[i].moves
  }

  lemma StillJoin(a: Option<seq<Write>>, b: Option<seq<Write>>)
    requires Still(a) && Still(b)
    ensures Still(Join(a, b))
  {
  }

  lemma StillNone()
    ensures Still(Some([]))
  {
  }

  lemma PageStays(le: Le, obj: LeObject, memBase: int, local: nat, d: int)
    ensures PageWrite(le, obj.(base := obj.base + d), memBase + d, local) == PageWrite(le, obj, memBase, local)
    ensures Still(PageWrite(le, obj, memBase, local))
  {
    hide Num;
    assert obj.base + d - (memBase + d) == obj.base - memBase;
  }

  lemma PagesNext(le: Le, obj: LeObject, memBase: int, local: nat)
    ensures local >= obj.pageCount ==> ObjectPages(le, obj, memBase, local) == Some([])
    ensures local < obj.pageCount ==>
              ObjectPages(le, obj, memBase, local)
              == Join(PageWrite(le, obj, memBase, local), ObjectPages(le, obj, memBase, local + 1))
  {
    hide PageWrite, Join;
  }

  lemma {:induction false} ObjectPagesStay(le: Le, obj: LeObject, memBase: int, local: nat, d: int)
    ensures ObjectPages(le, obj.(base := obj.base + d), memBase + d, local) == ObjectPages(le, obj, memBase, local)
    ensures Still(ObjectPages(le, obj, memBase, local))
    decreases if local < obj.pageCount then obj.pageCount - local else 0
  {
    hide *;
    StillNone();
    PagesNext(le, obj, memBase, local);
    PagesNext(le, obj.(base := obj.base + d), memBase + d, local);
    if local < obj.pageCount {
      ObjectPagesStay(le, obj, memBase, local + 1, d);
      PageStays(le, obj, memBase, local, d);
      StillJoin(PageWrite(le, obj, memBase, local), ObjectPages(le, obj, memBase, local + 1));
    }
  }

  lemma ObjectsNext(le: Le, objects: seq<LeObject>, memBase: int)
    ensures objects == [] ==> PagesOf(le, objects, memBase) == Some([])
    ensures objects != [] ==>
              PagesOf(le, objects, memBase) == Join(ObjectPages(le, objects[0], memBase, 0), PagesOf(le, objects[1..], memBase))
  {
    hide ObjectPages, Join;
  }

  lemma ShiftedNext(objects: seq<LeObject>, d: int)
    ensures |Shifted(objects, d)| == |objects|
    ensures objects != [] ==>
              Shifted(objects, d)[1..] == Shifted(objects[1..], d)
              && Shifted(objects, d)[0] == objects[0].(base := objects[0].base + d)
  {
  }

  lemma {:induction false} PagesStay(le: Le, objects: seq<LeObject>, memBase: int, d: int)
    ensures PagesOf(le, Shifted(objects, d), memBase + d) == PagesOf(le, objects, memBase)
    ensures Still(PagesOf(le, objects, memBase))
    decreases |objects|
  {
    hide *;
    StillNone();
    ShiftedNext(objects, d);
    ObjectsNext(le, objects, memBase);
    ObjectsNext(le, Shifted(objects, d), memBase + d);
    if |objects| > 0 {
      ObjectPagesStay(le, objects[0], memBase, 0, d);
      PagesStay(le, objects[1..], memBase, d);
      StillJoin(ObjectPages(le, objects[0], memBase, 0), PagesOf(le, objects[1..], memBase));
    }
  }

  lemma StillMoved(ws: seq<Write>, d: int)
    requires Still(Some(ws))
    ensures MovedAll(ws, d) == ws
  {
  }

  /** A shifted load makes the stores of the unshifted one, in the same places, with its address fields grown by `d`. */
  lemma StoresMove(le: Le, d: int)
    requires le.objects != []
    ensures Stores(le, d) == MovedOption(Stores(le, 0), d)
  {
    hide *;
    var memBase := le.objects[0].base;
    StoresIs(le, d);
    StoresIs(le, 0);
    ShiftedByNothing(le.objects);
    PagesStay(le, le.objects, memBase, d);
    FixupsMove(le, memBase, 1, d);
    StillOption(PagesOf(le, le.objects, memBase), d);
    MovedJoin(PagesOf(le, le.objects, memBase), FixupsFrom(le, le.objects, memBase, 1), d);
  }

  lemma StoresIs(le: Le, d: int)
    requires le.objects != []
    ensures var (objects, memBase) := (Shifted(le.objects, d), le.objects[0].base + d);
            Stores(le, d) == Join(PagesOf(le, objects, memBase), FixupsFrom(le, objects, memBase, 1))
  {
    hide PagesOf, FixupsFrom, Join;
  }

  lemma StillOption(ws: Option<seq<Write>>, d: int)
    requires Still(ws)
    ensures MovedOption(ws, d) == ws
  {
    if ws.Some? {
      StillMoved(ws.value, d);
    }
  }

  lemma {:induction false} ShiftedByNothing(objects: seq<LeObject>)
    ensures Shifted(objects, 0) == objects
  {
    forall i | 0 <= i < |objects|
      ensures Shifted(objects, 0)[i] == objects[i]
    {
    }
  }
}
