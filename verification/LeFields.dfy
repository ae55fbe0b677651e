/**
 What a loaded image holds, in the terms of the file: entry and stack, pages, and the fields
 its fixups patch. Objects are those of the file, counted from 1.
 */
module LeFields {
  import opened Blocks
  import opened Memory
  import opened LeLoader
  import opened LeRebase
  import opened LeLimits
  import Bits

  // ---- entry and stack ---------------------------------------------------------------------

  lemma LoadObjects(le: Le, d: int, limit: Option<int>)
    requires Load(le, d, limit).Some?
    ensures le.objects != [] && Stores(le, d).Some?
    ensures var image := Load(le, d, limit).value;
            image.objects == Shifted(le.objects, d) && image.memBase == le.objects[0].base + d
            && ApplyWrites(Zeros(|image.mem|), Stores(le, d).value) == Some(image.mem)
  {
    hide Size, Stores, ApplyWrites, Top;
  }

  /** Entry and stack lie in the object their number names, which number 0 counts from the end. */
  lemma EntryIs(le: Le, d: int, limit: Option<int>, k: nat, offset: nat)
    requires Load(le, d, limit).Some?
    ensures var e := LinearOf(Load(le, d, limit).value, k, offset);
            le.objects != []
            && if k > |le.objects| then e == None
               else e == Some((if k == 0 then le.objects[|le.objects| - 1] else le.objects[k - 1]).base + d + offset)
  {
    LoadObjects(le, d, limit);
    hide Load, Stores, ApplyWrites;
  }

  // ---- numbers in memory -------------------------------------------------------------------

  /** One, two or four bytes, the lowest first. */
  function Value(b: seq<Byte>): int {
    if |b| == 1 then b[0]
    else if |b| == 2 then b[0] as int + 0x100 * b[1] as int
    else if |b| == 4 then b[0] as int + 0x100 * b[1] as int + 0x1_0000 * b[2] as int + 0x100_0000 * b[3] as int
    else -1
  }

  lemma TwoBytes(v: int)
    ensures v % 0x1_0000 == v % 0x100 + 0x100 * (v / 0x100 % 0x100)
  {
  }

  lemma FourBytes(v: int)
    ensures v % 0x1_0000_0000 == v % 0x1_0000 + 0x1_0000 * (v / 0x1_0000 % 0x1_0000)
  {
  }

  lemma BytesTwo(v: int)
    ensures Bytes(v, 2) == [v % 0x100, v / 0x100 % 0x100]
  {
    BytesStep(v, 2);
    BytesStep(v / 0x100, 1);
    assert Bytes(v / 0x100 / 0x100, 0) == [];
  }

  lemma BytesFour(v: int)
    ensures Bytes(v, 4) == Bytes(v, 2) + Bytes(v / 0x1_0000, 2)
  {
    BytesTwo(v);
    BytesStep(v, 4);
    BytesStep(v / 0x100, 3);
    assert v / 0x100 / 0x100 == v / 0x1_0000;
    hide Bytes;
  }

  /** A field of `w` bytes holds its number modulo its width. */
  lemma BytesValue(v: int)
    ensures Value(Bytes(v, 1)) == v % 0x100
    ensures Value(Bytes(v, 2)) == v % 0x1_0000
    ensures Value(Bytes(v, 4)) == v % 0x1_0000_0000
  {
    BytesStep(v, 1);
    BytesTwo(v);
    BytesTwo(v / 0x1_0000);
    BytesFour(v);
    TwoBytes(v);
    TwoBytes(v / 0x1_0000);
    FourBytes(v);
    hide Bytes;
  }

  // ---- one fixup ---------------------------------------------------------------------------

  /** Some store puts the `n`-byte number `v` at index `at`. */
  ghost predicate Puts(ws: seq<Write>, at: int, n: nat, v: int) {
    exists i :: 0 <= i < |ws| && ws[i].at == at && |ws[i].bytes| == n && Value(ws[i].bytes) == v
  }

  /**
   What a fixup of type `stype` at linear address `src` puts there: the target modulo the
   width of the field, a displacement from its end, or a selector after or instead of it.
   */
  ghost predicate Patched(ws: seq<Write>, stype: nat, src: int, memBase: int, target: int, selector: nat) {
    (stype == 0x07 ==> Puts(ws, src - memBase, 4, target % 0x1_0000_0000))
    && (stype == 0x05 ==> Puts(ws, src - memBase, 2, target % 0x1_0000))
    && (stype == 0x00 ==> Puts(ws, src - memBase, 1, target % 0x100))
    && (stype == 0x08 ==> Puts(ws, src - memBase, 4, (target - (src + 4)) % 0x1_0000_0000))
    && (stype == 0x02 ==> Puts(ws, src - memBase, 2, selector))
    && (stype == 0x03 ==> Puts(ws, src - memBase, 2, target % 0x1_0000) && Puts(ws, src - memBase + 2, 2, selector))
    && (stype == 0x06 ==> Puts(ws, src - memBase, 4, target % 0x1_0000_0000) && Puts(ws, src - memBase + 4, 2, selector))
    && stype in {0x00, 0x02, 0x03, 0x05, 0x06, 0x07, 0x08}
  }

  lemma PutsOne(w: Write)
    ensures Puts([w], w.at, |w.bytes|, Value(w.bytes))
  {
    assert [w][0] == w;
  }

  lemma PutsTwo(w: Write, x: Write)
    ensures Puts([w, x], w.at, |w.bytes|, Value(w.bytes)) && Puts([w, x], x.at, |x.bytes|, Value(x.bytes))
  {
    assert [w, x][0] == w && [w, x][1] == x;
  }

  function Truncated(v: int, n: nat): int {
    if n == 1 then v % 0x100 else if n == 2 then v % 0x1_0000 else v % 0x1_0000_0000
  }

  lemma ValueTruncated(v: int, n: nat)
    requires n == 1 || n == 2 || n == 4
    ensures Value(Bytes(v, n)) == Truncated(v, n)
  {
    BytesValue(v);
    hide Bytes, Value;
  }

  lemma FieldPuts(at: int, v: int, n: nat, moves: bool)
    requires n == 1 || n == 2 || n == 4
    ensures Puts([Write(at, Bytes(v, n), moves)], at, n, Truncated(v, n))
  {
    hide *;
    ValueTruncated(v, n);
    PutsOne(Write(at, Bytes(v, n), moves));
  }

  lemma PointerPuts(at: int, v: int, n: nat, selector: nat)
    requires n == 2 || n == 4
    ensures var ws := [Write(at, Bytes(v, n), true), Write(at + n, Bytes(selector, 2), false)];
            Puts(ws, at, n, Truncated(v, n)) && Puts(ws, at + n, 2, Truncated(selector, 2))
  {
    hide *;
    ValueTruncated(v, n);
    ValueTruncated(selector, 2);
    PutsTwo(Write(at, Bytes(v, n), true), Write(at + n, Bytes(selector, 2), false));
  }

  lemma PatchPuts(stype: nat, src: int, memBase: int, target: int, selector: nat)
    requires selector < 0x1_0000 && Patch(stype, src, memBase, target, selector).Some?
    ensures Patched(Patch(stype, src, memBase, target, selector).value, stype, src, memBase, target, selector)
  {
    var idx := src - memBase;
    hide Bytes, Puts;
    if stype == 0x07 {
      FieldPuts(idx, target, 4, true);
    } else if stype == 0x05 {
      FieldPuts(idx, target, 2, true);
    } else if stype == 0x00 {
      FieldPuts(idx, target, 1, true);
    } else if stype == 0x08 {
      FieldPuts(idx, (target - (src + 4)) % 0x1_0000_0000, 4, false);
    } else if stype == 0x02 {
      FieldPuts(idx, selector, 2, false);
    } else if stype == 0x03 {
      PointerPuts(idx, target, 2, selector);
    } else {
      PointerPuts(idx, target, 4, selector);
    }
  }

  lemma PutsMore(a: seq<Write>, b: seq<Write>, at: int, n: nat, v: int)
    ensures Puts(a, at, n, v) || Puts(b, at, n, v) ==> Puts(a + b, at, n, v)
  {
    if Puts(a, at, n, v) {
      var i :| 0 <= i < |a| && a[i].at == at && |a[i].bytes| == n && Value(a[i].bytes) == v;
      assert (a + b)[i] == a[i];
    } else if Puts(b, at, n, v) {
      var i :| 0 <= i < |b| && b[i].at == at && |b[i].bytes| == n && Value(b[i].bytes) == v;
      assert (a + b)[|a| + i] == b[i];
    }
  }

  lemma PatchedMore(a: seq<Write>, b: seq<Write>, stype: nat, src: int, memBase: int, target: int, selector: nat)
    requires Patched(a, stype, src, memBase, target, selector) || Patched(b, stype, src, memBase, target, selector)
    ensures Patched(a + b, stype, src, memBase, target, selector)
  {
    forall at, n, v
      ensures Puts(a, at, n, v) || Puts(b, at, n, v) ==> Puts(a + b, at, n, v)
    {
      PutsMore(a, b, at, n, v);
    }
    hide Puts;
  }

  // ---- all fixups --------------------------------------------------------------------------

  lemma {:induction false} SourcesPatched(stype: nat, sources: seq<int>, base: int, memBase: int, target: int, selector: nat, s: int)
    requires selector < 0x1_0000 && s in sources && SourceWrites(stype, sources, base, memBase, target, selector).Some?
    ensures Patched(SourceWrites(stype, sources, base, memBase, target, selector).value, stype, base + s, memBase, target, selector)
    decreases |sources|
  {
    hide Patch, Patched;
    var a, b := Patch(stype, base + sources[0], memBase, target, selector),
                SourceWrites(stype, sources[1..], base, memBase, target, selector);
    if s == sources[0] {
      PatchPuts(stype, base + s, memBase, target, selector);
    } else {
      SourcesPatched(stype, sources[1..], base, memBase, target, selector, s);
    }
    PatchedMore(a.value, b.value, stype, base + s, memBase, target, selector);
  }

  /** The record's fixup at source `s`: the target is in object `objNum` of the file, or the last for number 0. */
  ghost predicate RecordPatched(ws: seq<Write>, objects: seq<LeObject>, rec: Record, base: int, memBase: int, s: int) {
    objects != [] && rec.objNum <= |objects|
    && var t := if rec.objNum == 0 then objects[|objects| - 1] else objects[rec.objNum - 1];
       Patched(ws, rec.stype, base + s, memBase, t.base + rec.tgtOff, if t.executable then 0x0C else 0x14)
  }

  lemma RecordPuts(objects: seq<LeObject>, rec: Record, base: int, memBase: int, s: int)
    requires RecordWrites(objects, rec, base, memBase).Some? && s in rec.sources
    ensures RecordPatched(RecordWrites(objects, rec, base, memBase).value, objects, rec, base, memBase, s)
  {
    var t := TargetObject(objects, rec.objNum).value;
    SourcesPatched(rec.stype, rec.sources, base, memBase, t.base + rec.tgtOff, Selector(t), s);
    hide Patched, SourceWrites;
  }

  lemma RecordPatchedMore(a: seq<Write>, b: seq<Write>, objects: seq<LeObject>, rec: Record, base: int, memBase: int, s: int)
    requires RecordPatched(a, objects, rec, base, memBase, s) || RecordPatched(b, objects, rec, base, memBase, s)
    ensures RecordPatched(a + b, objects, rec, base, memBase, s)
  {
    hide Patched;
    var t := if rec.objNum == 0 then objects[|objects| - 1] else objects[rec.objNum - 1];
    PatchedMore(a, b, rec.stype, base + s, memBase, t.base + rec.tgtOff, if t.executable then 0x0C else 0x14);
  }

  lemma {:induction false} RecordsPut(objects: seq<LeObject>, recs: seq<Record>, base: int, memBase: int, rec: Record, s: int)
    requires RecordsWrites(objects, recs, base, memBase).Some? && rec in recs && s in rec.sources
    ensures RecordPatched(RecordsWrites(objects, recs, base, memBase).value, objects, rec, base, memBase, s)
    decreases |recs|
  {
    hide RecordWrites, RecordPatched;
    var a, b := RecordWrites(objects, recs[0], base, memBase), RecordsWrites(objects, recs[1..], base, memBase);
    if rec == recs[0] {
      RecordPuts(objects, rec, base, memBase, s);
    } else {
      RecordsPut(objects, recs[1..], base, memBase, rec, s);
    }
    RecordPatchedMore(a.value, b.value, objects, rec, base, memBase, s);
  }

  lemma PagePuts(le: Le, objects: seq<LeObject>, memBase: int, page: nat, rec: Record, s: int)
    requires page >= 1 && PageFixups(le, objects, memBase, page).Some?
    requires PageRecords(le, objects, page).Some? && rec in PageRecords(le, objects, page).value.0 && s in rec.sources
    ensures RecordPatched(PageFixups(le, objects, memBase, page).value, objects, rec, PageRecords(le, objects, page).value.1, memBase, s)
  {
    var (recs, base) := PageRecords(le, objects, page).value;
    hide U32, PageBase, Records, RecordsWrites, RecordPatched;
    RecordsPut(objects, recs, base, memBase, rec, s);
  }

  lemma {:induction false} FixupsPut(le: Le, objects: seq<LeObject>, memBase: int, first: nat, page: nat, rec: Record, s: int)
    requires 1 <= first <= page <= le.numPages && FixupsFrom(le, objects, memBase, first).Some?
    requires PageRecords(le, objects, page).Some? && rec in PageRecords(le, objects, page).value.0 && s in rec.sources
    ensures RecordPatched(FixupsFrom(le, objects, memBase, first).value, objects, rec, PageRecords(le, objects, page).value.1, memBase, s)
    decreases page - first
  {
    hide PageFixups, PageRecords, RecordPatched;
    FixupsNext(le, objects, memBase, first);
    var a, b := PageFixups(le, objects, memBase, first), FixupsFrom(le, objects, memBase, first + 1);
    if first == page {
      PagePuts(le, objects, memBase, page, rec, s);
    } else {
      FixupsPut(le, objects, memBase, first + 1, page, rec, s);
    }
    hide FixupsFrom;
    RecordPatchedMore(a.value, b.value, objects, rec, PageRecords(le, objects, page).value.1, memBase, s);
  }

  /** Every source of every record of every page is patched. */
  ghost predicate AllPatched(le: Le, objects: seq<LeObject>, memBase: int, ws: seq<Write>) {
    forall page: nat, rec, s ::
      1 <= page <= le.numPages && PageRecords(le, objects, page).Some? && rec in PageRecords(le, objects, page).value.0 && s in rec.sources ==>
        RecordPatched(ws, objects, rec, PageRecords(le, objects, page).value.1, memBase, s)
  }

  lemma FixupsPatchAll(le: Le, objects: seq<LeObject>, memBase: int)
    requires FixupsFrom(le, objects, memBase, 1).Some?
    ensures AllPatched(le, objects, memBase, FixupsFrom(le, objects, memBase, 1).value)
  {
    hide FixupsFrom, PageRecords, RecordPatched;
    forall page: nat, rec, s | 1 <= page <= le.numPages && PageRecords(le, objects, page).Some?
                               && rec in PageRecords(le, objects, page).value.0 && s in rec.sources
      ensures RecordPatched(FixupsFrom(le, objects, memBase, 1).value, objects, rec, PageRecords(le, objects, page).value.1, memBase, s)
    {
      FixupsPut(le, objects, memBase, 1, page, rec, s);
    }
  }

  lemma AllPatchedMore(le: Le, objects: seq<LeObject>, memBase: int, a: seq<Write>, b: seq<Write>)
    requires AllPatched(le, objects, memBase, b)
    ensures AllPatched(le, objects, memBase, a + b)
  {
    hide PageRecords, RecordPatched;
    forall page: nat, rec, s | 1 <= page <= le.numPages && PageRecords(le, objects, page).Some?
                               && rec in PageRecords(le, objects, page).value.0 && s in rec.sources
      ensures RecordPatched(a + b, objects, rec, PageRecords(le, objects, page).value.1, memBase, s)
    {
      RecordPatchedMore(a, b, objects, rec, PageRecords(le, objects, page).value.1, memBase, s);
    }
  }

  lemma StoresParts(le: Le, d: int) returns (a: seq<Write>, b: seq<Write>)
    requires le.objects != [] && Stores(le, d).Some?
    ensures var objects := Shifted(le.objects, d);
            objects != [] && objects[0].base == le.objects[0].base + d
            && FixupsFrom(le, objects, le.objects[0].base + d, 1) == Some(b) && Stores(le, d).value == a + b
  {
    var objects := Shifted(le.objects, d);
    a, b := PagesOf(le, objects, objects[0].base).value, FixupsFrom(le, objects, objects[0].base, 1).value;
    hide PagesOf, FixupsFrom;
  }

  /** So it is with the stores of a load, whose objects lie `d` further up than those of the file. */
  lemma LoadPatchesAll(le: Le, d: int)
    requires le.objects != [] && Stores(le, d).Some?
    ensures AllPatched(le, Shifted(le.objects, d), le.objects[0].base + d, Stores(le, d).value)
  {
    hide *;
    var a, b := StoresParts(le, d);
    FixupsPatchAll(le, Shifted(le.objects, d), le.objects[0].base + d);
    AllPatchedMore(le, Shifted(le.objects, d), le.objects[0].base + d, a, b);
  }

  // ---- reading a field back ----------------------------------------------------------------

  /** A store no later one touches is what memory holds there, negative indices counted from the end. */
  ghost predicate ReadsBack(ws: seq<Write>, mem: seq<Byte>) {
    forall i :: 0 <= i < |ws| && Settled(Resolved(ws, |mem|), i) ==>
      var at := if ws[i].at < 0 then ws[i].at + |mem| else ws[i].at;
      0 <= at && at + |ws[i].bytes| <= |mem| && mem[at..at + |ws[i].bytes|] == ws[i].bytes
  }

  lemma ByteReads(before: seq<Byte>, rs: seq<Write>, i: nat, k: nat)
    requires i < |rs| && Settled(rs, i) && k < |rs[i].bytes| && 0 <= rs[i].at && rs[i].at + k < |before|
    ensures ByteAt(before, rs, rs[i].at + k) == rs[i].bytes[k]
  {
    CoversAt(rs[i], k);
    SettledCover(rs, i, rs[i].at + k);
    hide Settled, LastCover;
  }

  lemma InsideAt(rs: seq<Write>, n: nat, i: nat)
    requires Inside(rs, n) && i < |rs|
    ensures 0 <= rs[i].at && rs[i].at + |rs[i].bytes| <= n
  {
  }

  lemma StoreReads(before: seq<Byte>, ws: seq<Write>, mem: seq<Byte>, i: nat)
    requires ApplyWrites(before, ws) == Some(mem) && i < |ws| && Settled(Resolved(ws, |mem|), i)
    ensures var w := Resolved(ws, |mem|)[i];
            0 <= w.at && w.at + |w.bytes| <= |mem| && mem[w.at..w.at + |w.bytes|] == w.bytes
  {
    hide *;
    ApplySize(before, ws);
    ApplyExact(before, ws);
    var rs := Resolved(ws, |mem|);
    var w := rs[i];
    InsideAt(rs, |mem|, i);
    forall k: nat | k < |w.bytes|
      ensures mem[w.at + k] == w.bytes[k]
    {
      ByteReads(before, rs, i, k);
    }
    SliceFrom(mem, w.at, w.bytes);
  }

  lemma StoresReadBack(before: seq<Byte>, ws: seq<Write>, mem: seq<Byte>)
    requires ApplyWrites(before, ws) == Some(mem)
    ensures ReadsBack(ws, mem)
  {
    hide ApplyWrites, Settled;
    forall i | 0 <= i < |ws| && Settled(Resolved(ws, |mem|), i)
      ensures var at := if ws[i].at < 0 then ws[i].at + |mem| else ws[i].at;
              0 <= at && at + |ws[i].bytes| <= |mem| && mem[at..at + |ws[i].bytes|] == ws[i].bytes
    {
      StoreReads(before, ws, mem, i);
    }
  }

  /** A loaded image: every fixup is among its stores, and every settled store reads back. */
  lemma LoadHolds(le: Le, d: int, limit: Option<int>)
    requires Load(le, d, limit).Some?
    ensures le.objects != [] && Stores(le, d).Some?
    ensures AllPatched(le, Shifted(le.objects, d), le.objects[0].base + d, Stores(le, d).value)
    ensures ReadsBack(Stores(le, d).value, Load(le, d, limit).value.mem)
  {
    hide *;
    LoadObjects(le, d, limit);
    LoadPatchesAll(le, d);
    var mem := Load(le, d, limit).value.mem;
    StoresReadBack(Zeros(|mem|), Stores(le, d).value, mem);
  }

  // ---- pages -------------------------------------------------------------------------------

  /** How many pages the first `k` objects have. */
  function PagesBefore(objects: seq<LeObject>, k: nat): nat
    requires k <= |objects|
  {
    if k == 0 then 0 else PagesBefore(objects, k - 1) + objects[k - 1].pageCount
  }

  lemma {:induction false} PagesBeforeTail(objects: seq<LeObject>, k: nat)
    requires 0 < k <= |objects|
    ensures PagesBefore(objects, k) == objects[0].pageCount + PagesBefore(objects[1..], k - 1)
  {
    if k > 1 {
      PagesBeforeTail(objects, k - 1);
      assert objects[1..][k - 2] == objects[k - 1];
    } else {
      assert PagesBefore(objects, 0) == 0;
    }
  }

  /** Global pages count through the objects in order: page `local` of object `k` starts that many pages into it. */
  lemma {:induction false} PageStarts(objects: seq<LeObject>, pageSize: nat, k: nat, local: nat)
    requires k < |objects| && local < objects[k].pageCount
    ensures PageBase(objects, pageSize, PagesBefore(objects, k) + local + 1) == Some(objects[k].base + local * pageSize)
    decreases k
  {
    if k > 0 {
      PagesBeforeTail(objects, k);
      PageStarts(objects[1..], pageSize, k - 1, local);
    }
  }

  /**
   The store of page `local` of object `obj`: the map entry there has no flags and a
   big-endian page number of three bytes, which is not 0; the page's bytes come from the
   file, and the last page of the file may be shorter.
   */
  ghost predicate PageStored(le: Le, obj: LeObject, memBase: int, local: nat, ws: seq<Write>) {
    var entry := le.pageMap + (obj.firstPage - 1 + local) * 4;
    obj.firstPage > 0 && entry + 4 <= |le.data| && le.data[entry + 3] == 0
    && var phys := 0x1_0000 * le.data[entry] as int + 0x100 * le.data[entry + 1] as int + le.data[entry + 2] as int;
       var off := le.dataPages + (phys - 1) * le.pageSize;
       var n := if phys == le.numPages then le.lastPageBytes else le.pageSize;
       phys > 0 && 0 <= off && off + n <= |le.data|
       && exists i :: 0 <= i < |ws| && ws[i].at == obj.base - memBase + local * le.pageSize && ws[i].bytes == le.data[off..off + n]
  }

  lemma PageStores(le: Le, obj: LeObject, memBase: int, local: nat)
    requires PageWrite(le, obj, memBase, local).Some?
    ensures PageStored(le, obj, memBase, local, PageWrite(le, obj, memBase, local).value)
  {
    var entry := le.pageMap + (obj.firstPage - 1 + local) * 4;
    NumThree(le.data[entry + 2], le.data[entry + 1], le.data[entry]);
    var ws := PageWrite(le, obj, memBase, local).value;
    assert |ws| == 1 && ws[0].at == obj.base - memBase + local * le.pageSize;
    hide Num;
    NotNegative(Num([le.data[entry + 2], le.data[entry + 1], le.data[entry]]) - 1, le.pageSize);
  }

  lemma NotNegative(x: int, y: nat)
    ensures x >= 0 ==> x * y >= 0
  {
  }

  lemma NumThree(a: Byte, b: Byte, c: Byte)
    ensures Num([a, b, c]) == a as int + 0x100 * b as int + 0x1_0000 * c as int
  {
    assert [a, b, c][1..] == [b, c] && [b, c][1..] == [c] && [c][1..] == [];
    assert Num([c]) == c as int;
    assert Num([b, c]) == b as int + 0x100 * c as int;
  }

  lemma PageStoredMore(le: Le, obj: LeObject, memBase: int, local: nat, a: seq<Write>, b: seq<Write>)
    requires PageStored(le, obj, memBase, local, a) || PageStored(le, obj, memBase, local, b)
    ensures PageStored(le, obj, memBase, local, a + b)
  {
    forall i | 0 <= i < |a|
      ensures (a + b)[i] == a[i]
    {
    }
    forall i | 0 <= i < |b|
      ensures (a + b)[|a| + i] == b[i]
    {
    }
  }

  lemma {:induction false} ObjectStores(le: Le, obj: LeObject, memBase: int, first: nat, local: nat)
    requires first <= local < obj.pageCount && ObjectPages(le, obj, memBase, first).Some?
    ensures PageStored(le, obj, memBase, local, ObjectPages(le, obj, memBase, first).value)
    decreases local - first
  {
    hide PageWrite, PageStored;
    PagesNext(le, obj, memBase, first);
    var a, b := PageWrite(le, obj, memBase, first), ObjectPages(le, obj, memBase, first + 1);
    if first == local {
      PageStores(le, obj, memBase, local);
    } else {
      ObjectStores(le, obj, memBase, first + 1, local);
    }
    hide ObjectPages;
    PageStoredMore(le, obj, memBase, local, a.value, b.value);
  }

  lemma {:induction false} PagesStore(le: Le, objects: seq<LeObject>, memBase: int, k: nat, local: nat)
    requires k < |objects| && local < objects[k].pageCount && PagesOf(le, objects, memBase).Some?
    ensures PageStored(le, objects[k], memBase, local, PagesOf(le, objects, memBase).value)
    decreases k
  {
    hide ObjectPages, PageStored;
    ObjectsNext(le, objects, memBase);
    var a, b := ObjectPages(le, objects[0], memBase, 0), PagesOf(le, objects[1..], memBase);
    if k == 0 {
      ObjectStores(le, objects[0], memBase, 0, local);
    } else {
      PagesStore(le, objects[1..], memBase, k - 1, local);
    }
    hide PagesOf;
    PageStoredMore(le, objects[k], memBase, local, a.value, b.value);
  }

  /** Every page of every object is among the stores of a load. */
  lemma LoadStoresPages(le: Le, d: int, k: nat, local: nat)
    requires le.objects != [] && Stores(le, d).Some? && k < |le.objects| && local < le.objects[k].pageCount
    ensures PageStored(le, Shifted(le.objects, d)[k], le.objects[0].base + d, local, Stores(le, d).value)
  {
    var objects, memBase := Shifted(le.objects, d), le.objects[0].base + d;
    StoresIs(le, d);
    PagesStore(le, objects, memBase, k, local);
    hide PagesOf, FixupsFrom, Stores, PageStored, Shifted;
    PageStoredMore(le, objects[k], memBase, local, PagesOf(le, objects, memBase).value, FixupsFrom(le, objects, memBase, 1).value);
  }

  // ---- the size of the memory --------------------------------------------------------------

  /** The top is where the highest object ends. */
  lemma {:induction false} TopIs(objects: seq<LeObject>)
    requires objects != []
    ensures forall i :: 0 <= i < |objects| ==> objects[i].base + objects[i].virtualSize <= Top(objects)
    ensures exists i :: 0 <= i < |objects| && objects[i].base + objects[i].virtualSize == Top(objects)
    decreases |objects|
  {
    if |objects| > 1 {
      var rest := objects[1..];
      TopIs(rest);
      forall i | 0 <= i < |objects|
        ensures objects[i].base + objects[i].virtualSize <= Top(objects)
      {
        if i > 0 {
          assert rest[i - 1] == objects[i];
        }
      }
      var j :| 0 <= j < |rest| && rest[j].base + rest[j].virtualSize == Top(rest);
      assert objects[j + 1] == rest[j];
    }
    assert Top(objects) == objects[0].base + objects[0].virtualSize || (|objects| > 1 && Top(objects) == Top(objects[1..]));
  }

  /** `x & ~(2^k - 1)` is the multiple of 2^k at or below `x`. */
  lemma {:induction false} AndNotIs(x: nat, k: nat)
    ensures AndNot(x, Bits.Pow2(k) - 1) == Bits.LShift(Bits.RShift(x, k), k)
    ensures AndNot(x, Bits.Pow2(k) - 1) <= x < AndNot(x, Bits.Pow2(k) - 1) + Bits.Pow2(k)
    decreases k
  {
    if k == 0 {
      AndNotNothing(x);
    } else if x > 0 {
      assert (Bits.Pow2(k) - 1) / 2 == Bits.Pow2(k - 1) - 1 && (Bits.Pow2(k) - 1) % 2 == 1;
      AndNotIs(x / 2, k - 1);
    } else {
      RShiftNothing(k);
      LShiftNothing(k);
    }
  }

  lemma {:induction false} RShiftNothing(k: nat)
    ensures Bits.RShift(0, k) == 0
  {
    if k > 0 {
      RShiftNothing(k - 1);
    }
  }

  lemma {:induction false} LShiftNothing(k: nat)
    ensures Bits.LShift(0, k) == 0
  {
    if k > 0 {
      LShiftNothing(k - 1);
    }
  }

  /** The memory is the limit, or the first whole number of pages, a power of two in size, that holds the top. */
  lemma SizeIs(top: nat, k: nat, limit: Option<int>)
    ensures limit.Some? ==> Size(top, Bits.Pow2(k), limit) == if limit.value < top then None else Some(limit.value)
    ensures limit.None? ==>
              exists pages: nat :: Size(top, Bits.Pow2(k), None) == Some(Bits.LShift(pages, k))
                                   && top <= Bits.LShift(pages, k) < top + Bits.Pow2(k)
  {
    if limit.None? {
      var x := top + Bits.Pow2(k) - 1;
      AndNotIs(x, k);
      var pages: nat := Bits.RShift(x, k);
      hide AndNot, Bits.RShift, Bits.LShift, Bits.Pow2;
      assert Size(top, Bits.Pow2(k), None) == Some(Bits.LShift(pages, k));
    }
  }

  // ---- records -----------------------------------------------------------------------------

  /** How a record is written down: a list of sources or one, and the wide or the narrow form of either number. */
  datatype Form = Form(list: bool, wideObject: bool, wideOffset: bool)

  /** The widths of the two numbers: no offset for a selector, two or four bytes for the types that fix it, else by the flag. */
  function OffsetBytes(stype: nat, f: Form): nat {
    if stype == 0x02 then 0
    else if stype == 0x06 then 4
    else if stype == 0x03 || stype == 0x05 then 2
    else if f.wideOffset then 4
    else 2
  }

  /** The records the form can express. */
  predicate Expressible(rec: Record, f: Form) {
    rec.stype < 16 && (if f.list then |rec.sources| < 256 else |rec.sources| == 1)
    && (forall i :: 0 <= i < |rec.sources| ==> -0x8000 <= rec.sources[i] < 0x8000)
    && rec.objNum < (if f.wideObject then 0x1_0000 else 0x100)
    && rec.tgtOff < match OffsetBytes(rec.stype, f) case 0 => 1 case 2 => 0x1_0000 case _ => 0x1_0000_0000
  }

  function Sixteen(v: int): (r: seq<Byte>)
    ensures |r| == 2
  {
    [v % 0x100, v / 0x100 % 0x100]
  }

  function ThirtyTwo(v: int): (r: seq<Byte>)
    ensures |r| == 4
  {
    Sixteen(v) + Sixteen(v / 0x1_0000)
  }

  function SourceWords(sources: seq<int>): (r: seq<Byte>)
    ensures |r| == 2 * |sources|
  {
    if sources == [] then [] else Sixteen(sources[0]) + SourceWords(sources[1..])
  }

  function Numbered(v: nat, w: nat): seq<Byte> {
    if w == 0 then [] else if w == 1 then [v % 0x100] else if w == 2 then Sixteen(v) else ThirtyTwo(v)
  }

  /** The record as the linker writes it: type and flags, sources, object number, offset. */
  function Encoded(rec: Record, f: Form): seq<Byte>
    requires Expressible(rec, f)
  {
    [rec.stype + if f.list then 0x20 else 0, (if f.wideOffset then 0x10 else 0) + if f.wideObject then 0x40 else 0]
    + (if f.list then [|rec.sources|] else []) + SourceWords(rec.sources)
    + Numbered(rec.objNum, if f.wideObject then 2 else 1) + Numbered(rec.tgtOff, OffsetBytes(rec.stype, f))
  }

  predicate At(d: seq<Byte>, o: nat, x: seq<Byte>) {
    o + |x| <= |d| && d[o..o + |x|] == x
  }

  lemma AtParts(d: seq<Byte>, o: nat, x: seq<Byte>, y: seq<Byte>)
    requires At(d, o, x + y)
    ensures At(d, o, x) && At(d, o + |x|, y)
  {
    assert d[o..o + |x|] == d[o..o + |x + y|][..|x|];
    assert d[o + |x|..o + |x| + |y|] == d[o..o + |x + y|][|x|..];
  }

  lemma AtByte(d: seq<Byte>, o: nat, b: Byte)
    requires At(d, o, [b])
    ensures o < |d| && d[o] == b
  {
    assert d[o..o + 1][0] == d[o];
  }

  lemma NumOne(a: Byte)
    ensures Num([a]) == a as int
  {
    assert [a][1..] == [] && Num([]) == 0;
  }

  lemma NumTwo(a: Byte, b: Byte)
    ensures Num([a, b]) == a as int + 0x100 * b as int
  {
    assert [a, b][1..] == [b];
    NumOne(b);
  }

  lemma NumFour(a: Byte, b: Byte, c: Byte, e: Byte)
    ensures Num([a, b, c, e]) == a as int + 0x100 * b as int + 0x1_0000 * (c as int + 0x100 * e as int)
  {
    assert [a, b, c, e][1..] == [b, c, e] && [b, c, e][1..] == [c, e];
    NumTwo(c, e);
    assert Num([b, c, e]) == b as int + 0x100 * Num([c, e]);
  }

  lemma NumSixteen(v: int)
    ensures Num(Sixteen(v)) == v % 0x1_0000
  {
    NumTwo(v % 0x100, v / 0x100 % 0x100);
    TwoBytes(v);
    hide Num;
  }

  lemma NumThirtyTwo(v: int)
    ensures Num(ThirtyTwo(v)) == v % 0x1_0000_0000
  {
    var u := v / 0x1_0000;
    assert ThirtyTwo(v) == [v % 0x100, v / 0x100 % 0x100, u % 0x100, u / 0x100 % 0x100];
    NumFour(v % 0x100, v / 0x100 % 0x100, u % 0x100, u / 0x100 % 0x100);
    TwoBytes(v);
    TwoBytes(u);
    FourBytes(v);
    hide Num, ThirtyTwo, Sixteen;
  }

  lemma WordReads(d: seq<Byte>, o: nat, v: int)
    requires At(d, o, Sixteen(v)) && -0x8000 <= v < 0x8000
    ensures S16(d, o) == Some(v)
  {
    NumSixteen(v);
    hide Num, Sixteen;
  }

  lemma {:induction false} SourcesRead(d: seq<Byte>, o: nat, xs: seq<int>)
    requires At(d, o, SourceWords(xs)) && forall i :: 0 <= i < |xs| ==> -0x8000 <= xs[i] < 0x8000
    ensures Sources(d, o, |xs|) == Some(xs)
    decreases |xs|
  {
    if xs != [] {
      AtParts(d, o, Sixteen(xs[0]), SourceWords(xs[1..]));
      hide At, S16, Sixteen;
      WordReads(d, o, xs[0]);
      SourcesRead(d, o + 2, xs[1..]);
      assert [xs[0]] + xs[1..] == xs;
    }
  }

  lemma NumberReads(d: seq<Byte>, o: nat, v: nat, w: nat)
    requires w == 0 || w == 1 || w == 2 || w == 4
    requires At(d, o, Numbered(v, w)) && v < if w == 0 then 1 else if w == 1 then 0x100 else if w == 2 then 0x1_0000 else 0x1_0000_0000
    ensures |Numbered(v, w)| == w && Field(d, o, w) == Some(v)
  {
    if w == 1 {
      NumOne(v % 0x100);
    } else if w == 2 {
      NumSixteen(v);
    } else if w == 4 {
      NumThirtyTwo(v);
    }
    hide Num, Sixteen, ThirtyTwo;
  }

  lemma SourceListReads(d: seq<Byte>, o: nat, srcType: nat, rec: Record, f: Form)
    requires Expressible(rec, f) && srcType == rec.stype + if f.list then 0x20 else 0
    requires At(d, o, (if f.list then [|rec.sources|] else []) + SourceWords(rec.sources))
    ensures SourceList(d, srcType, o) == Some((rec.sources, o + |(if f.list then [|rec.sources|] else []) + SourceWords(rec.sources)|))
  {
    var n, xs := |rec.sources|, rec.sources;
    if f.list {
      AtParts(d, o, [n], SourceWords(xs));
      AtByte(d, o, n);
      SourcesRead(d, o + 1, xs);
    } else {
      assert [] + SourceWords(xs) == SourceWords(xs);
      assert SourceWords(xs) == Sixteen(xs[0]) + SourceWords(xs[1..]);
      assert SourceWords(xs) == Sixteen(xs[0]);
      WordReads(d, o, xs[0]);
      assert xs == [xs[0]];
    }
    hide Sources, SourceWords, At, S16;
  }

  lemma FlagsRead(f: Form)
    ensures var flags := (if f.wideOffset then 0x10 else 0) + if f.wideObject then 0x40 else 0;
            flags % 4 == 0 && (flags / 0x40 % 2 == 1) == f.wideObject && (flags / 0x10 % 2 == 1) == f.wideOffset
  {
  }

  function TypeByte(rec: Record, f: Form): nat {
    rec.stype + if f.list then 0x20 else 0
  }

  function FlagByte(f: Form): nat {
    (if f.wideOffset then 0x10 else 0) + if f.wideObject then 0x40 else 0
  }

  function SourcePart(rec: Record, f: Form): seq<Byte>
    requires Expressible(rec, f)
  {
    (if f.list then [|rec.sources|] else []) + SourceWords(rec.sources)
  }

  lemma EncodedIs(rec: Record, f: Form)
    requires Expressible(rec, f)
    ensures TypeByte(rec, f) < 256 && FlagByte(f) < 256
    ensures Encoded(rec, f)
            == [TypeByte(rec, f)] + ([FlagByte(f)] + (SourcePart(rec, f)
               + (Numbered(rec.objNum, if f.wideObject then 2 else 1) + Numbered(rec.tgtOff, OffsetBytes(rec.stype, f)))))
  {
    hide SourceWords, Numbered;
  }

  lemma FiveParts(d: seq<Byte>, o: nat, p: Byte, q: Byte, a: seq<Byte>, b: seq<Byte>, c: seq<Byte>)
    requires At(d, o, [p] + ([q] + (a + (b + c))))
    ensures o + 2 <= |d| && d[o] == p && d[o + 1] == q
    ensures At(d, o + 2, a) && At(d, o + 2 + |a|, b) && At(d, o + 2 + |a| + |b|, c)
  {
    hide At;
    AtParts(d, o, [p], [q] + (a + (b + c)));
    AtParts(d, o + 1, [q], a + (b + c));
    AtParts(d, o + 2, a, b + c);
    AtParts(d, o + 2 + |a|, b, c);
    AtByte(d, o, p);
    AtByte(d, o + 1, q);
  }

  /** The record stands at `o` and its sources end at `o1`; its numbers have widths `ow` and `w`. */
  predicate Laid(d: seq<Byte>, o: nat, rec: Record, f: Form, o1: nat, ow: nat, w: nat) {
    Expressible(rec, f) && o + 2 <= |d| && d[o] as int == TypeByte(rec, f) && d[o + 1] as int == FlagByte(f)
    && At(d, o + 2, SourcePart(rec, f)) && o1 == o + 2 + |SourcePart(rec, f)|
    && ow == (if f.wideObject then 2 else 1) && w == OffsetBytes(rec.stype, f)
    && At(d, o1, Numbered(rec.objNum, ow)) && At(d, o1 + ow, Numbered(rec.tgtOff, w))
  }

  lemma NumberedLength(v: nat, w: nat)
    requires w == 0 || w == 1 || w == 2 || w == 4
    ensures |Numbered(v, w)| == w
  {
  }

  lemma EncodedAt(d: seq<Byte>, o: nat, rec: Record, f: Form) returns (o1: nat, ow: nat, w: nat)
    requires Expressible(rec, f) && At(d, o, Encoded(rec, f))
    ensures Laid(d, o, rec, f, o1, ow, w) && o + |Encoded(rec, f)| == o1 + ow + w
  {
    EncodedIs(rec, f);
    hide At, Expressible, Encoded, Numbered;
    ow, w := if f.wideObject then 2 else 1, OffsetBytes(rec.stype, f);
    NumberedLength(rec.objNum, ow);
    NumberedLength(rec.tgtOff, w);
    var (a, b, c) := (SourcePart(rec, f), Numbered(rec.objNum, ow), Numbered(rec.tgtOff, w));
    hide OffsetBytes, SourcePart, TypeByte, FlagByte;
    FiveParts(d, o, TypeByte(rec, f), FlagByte(f), a, b, c);
    o1 := o + 2 + |a|;
  }

  lemma ParsesFrom(d: seq<Byte>, o: nat, rec: Record, f: Form, o1: nat, ow: nat, w: nat)
    requires Expressible(rec, f) && o + 2 <= |d| && d[o] as int == TypeByte(rec, f) && d[o + 1] as int == FlagByte(f)
    requires SourceList(d, d[o], o + 2) == Some((rec.sources, o1)) && ow == (if f.wideObject then 2 else 1)
    requires w == OffsetBytes(rec.stype, f) && Field(d, o1, ow) == Some(rec.objNum) && Field(d, o1 + ow, w) == Some(rec.tgtOff)
    ensures ParseRecord(d, o) == Some((rec, o1 + ow + w))
  {
    FlagsRead(f);
    assert d[o] as int % 16 == rec.stype;
    hide SourceList, Field;
  }

  lemma LaidSources(d: seq<Byte>, o: nat, rec: Record, f: Form, o1: nat, ow: nat, w: nat)
    requires Laid(d, o, rec, f, o1, ow, w)
    ensures o + 2 <= |d| && SourceList(d, d[o], o + 2) == Some((rec.sources, o1))
  {
    SourceListReads(d, o + 2, TypeByte(rec, f), rec, f);
    hide At, SourceList, SourceWords, Numbered;
  }

  lemma LaidNumbers(d: seq<Byte>, o: nat, rec: Record, f: Form, o1: nat, ow: nat, w: nat)
    requires Laid(d, o, rec, f, o1, ow, w)
    ensures Field(d, o1, ow) == Some(rec.objNum) && Field(d, o1 + ow, w) == Some(rec.tgtOff)
  {
    assert w == 0 || w == 2 || w == 4;
    NumberReads(d, o1, rec.objNum, ow);
    NumberReads(d, o1 + ow, rec.tgtOff, w);
    hide At, Numbered, Field;
  }

  lemma LaidParses(d: seq<Byte>, o: nat, rec: Record, f: Form, o1: nat, ow: nat, w: nat)
    requires Laid(d, o, rec, f, o1, ow, w)
    ensures ParseRecord(d, o) == Some((rec, o1 + ow + w))
  {
    LaidSources(d, o, rec, f, o1, ow, w);
    LaidNumbers(d, o, rec, f, o1, ow, w);
    hide At, Numbered, Field, SourceList, ParseRecord, Expressible, OffsetBytes, TypeByte, FlagByte, SourcePart;
    ParsesFrom(d, o, rec, f, o1, ow, w);
  }

  /** The parser takes apart what the linker put together. */
  lemma EncodedParses(d: seq<Byte>, o: nat, rec: Record, f: Form)
    requires Expressible(rec, f) && At(d, o, Encoded(rec, f))
    ensures ParseRecord(d, o) == Some((rec, o + |Encoded(rec, f)|))
  {
    hide *;
    var o1, ow, w := EncodedAt(d, o, rec, f);
    LaidParses(d, o, rec, f, o1, ow, w);
  }

  ghost predicate AllExpressible(recs: seq<Record>, forms: seq<Form>) {
    |forms| == |recs| && forall i :: 0 <= i < |recs| ==> Expressible(recs[i], forms[i])
  }

  /** The records of a page, one after another. */
  ghost function EncodedAll(recs: seq<Record>, forms: seq<Form>): seq<Byte>
    requires AllExpressible(recs, forms)
  {
    if recs == [] then [] else Encoded(recs[0], forms[0]) + EncodedAll(recs[1..], forms[1..])
  }

  lemma NextRecord(d: seq<Byte>, o: nat, end: nat, rec: Record, next: nat, rest: seq<Record>)
    requires o < end && ParseRecord(d, o) == Some((rec, next)) && o < next <= |d| && Records(d, next, end) == Some(rest)
    ensures Records(d, o, end) == Some([rec] + rest)
  {
    hide ParseRecord;
  }

  lemma AllOfNone(d: seq<Byte>, o: nat)
    ensures Records(d, o, o) == Some([])
  {
  }

  lemma EncodedFirst(recs: seq<Record>, forms: seq<Form>)
    requires recs != [] && AllExpressible(recs, forms)
    ensures |forms| == |recs| && Expressible(recs[0], forms[0]) && |Encoded(recs[0], forms[0])| >= 2 && AllExpressible(recs[1..], forms[1..])
    ensures EncodedAll(recs, forms) == Encoded(recs[0], forms[0]) + EncodedAll(recs[1..], forms[1..])
  {
    hide Expressible, Numbered, SourceWords;
  }

  lemma NoneEncoded(recs: seq<Record>, forms: seq<Form>)
    requires recs == [] && AllExpressible(recs, forms)
    ensures EncodedAll(recs, forms) == []
  {
  }

  lemma AtEnds(d: seq<Byte>, o: nat, x: seq<Byte>)
    requires At(d, o, x)
    ensures o + |x| <= |d|
  {
  }

  lemma FirstThenRest(d: seq<Byte>, o: nat, rec: Record, f: Form, rest: seq<Byte>, recs: seq<Record>)
    requires Expressible(rec, f) && |Encoded(rec, f)| >= 2 && At(d, o, Encoded(rec, f) + rest)
    requires var next := o + |Encoded(rec, f)|; At(d, next, rest) ==> Records(d, next, next + |rest|) == Some(recs)
    ensures Records(d, o, o + |Encoded(rec, f) + rest|) == Some([rec] + recs)
  {
    hide *;
    var x := Encoded(rec, f);
    AtParts(d, o, x, rest);
    AtEnds(d, o, x);
    EncodedParses(d, o, rec, f);
    NextRecord(d, o, o + |x| + |rest|, rec, o + |x|, recs);
  }

  /** The cursor loop finds exactly the records the linker wrote. */
  lemma {:induction false} EncodedRecords(d: seq<Byte>, o: nat, recs: seq<Record>, forms: seq<Form>)
    requires AllExpressible(recs, forms) && At(d, o, EncodedAll(recs, forms))
    ensures Records(d, o, o + |EncodedAll(recs, forms)|) == Some(recs)
    decreases |recs|
  {
    hide *;
    if recs == [] {
      NoneEncoded(recs, forms);
      AllOfNone(d, o);
    } else {
      EncodedFirst(recs, forms);
      var next, rest := o + |Encoded(recs[0], forms[0])|, EncodedAll(recs[1..], forms[1..]);
      if At(d, next, rest) {
        EncodedRecords(d, next, recs[1..], forms[1..]);
      }
      FirstThenRest(d, o, recs[0], forms[0], rest, recs[1..]);
      assert [recs[0]] + recs[1..] == recs;
    }
  }

  // ---- the passes over memory in place -----------------------------------------------------

  /** The slice of the fixup table parses, every source of its records is patched, and memory holds what was settled. */
  ghost predicate SliceFixed(data: seq<Byte>, start: nat, end: nat, objects: seq<LeObject>, base: int, memBase: int, mem: seq<Byte>) {
    var (recs, ws) := (Records(data, start, end), RecordsFrom(data, objects, start, end, base, memBase));
    recs.Some? && ws.Some?
    && (forall rec, s :: rec in recs.value && s in rec.sources ==> RecordPatched(ws.value, objects, rec, base, memBase, s))
    && ReadsBack(ws.value, mem)
  }

  lemma SliceHolds(data: seq<Byte>, start: nat, end: nat, objects: seq<LeObject>, base: int, memBase: int, before: seq<Byte>, mem: seq<Byte>)
    requires RecordsFrom(data, objects, start, end, base, memBase).Some?
    requires ApplyWrites(before, RecordsFrom(data, objects, start, end, base, memBase).value) == Some(mem)
    ensures SliceFixed(data, start, end, objects, base, memBase, mem)
  {
    var recs, ws := Records(data, start, end), RecordsFrom(data, objects, start, end, base, memBase);
    StoresReadBack(before, ws.value, mem);
    hide Records, RecordsWrites, RecordPatched, ReadsBack, ApplyWrites;
    forall rec, s | rec in recs.value && s in rec.sources
      ensures RecordPatched(ws.value, objects, rec, base, memBase, s)
    {
      RecordsPut(objects, recs.value, base, memBase, rec, s);
    }
  }

  /** So it is over all pages. */
  ghost predicate AllFixed(le: Le, objects: seq<LeObject>, memBase: int, mem: seq<Byte>) {
    var ws := FixupsFrom(le, objects, memBase, 1);
    ws.Some? && AllPatched(le, objects, memBase, ws.value) && ReadsBack(ws.value, mem)
  }

  lemma AllHold(le: Le, objects: seq<LeObject>, memBase: int, before: seq<Byte>, mem: seq<Byte>)
    requires FixupsFrom(le, objects, memBase, 1).Some? && ApplyWrites(before, FixupsFrom(le, objects, memBase, 1).value) == Some(mem)
    ensures AllFixed(le, objects, memBase, mem)
  {
    FixupsPatchAll(le, objects, memBase);
    StoresReadBack(before, FixupsFrom(le, objects, memBase, 1).value, mem);
    hide FixupsFrom, AllPatched, ReadsBack;
  }
}
