/** What loading refuses, and what stores before the start of the image do. */
module LeLimits {
  import opened Blocks
  import opened Memory
  import opened LeLoader
  import opened LeRebase

  // ---- which fixups can be packed -----------------------------------------------------------

  /** A source type the patcher knows and, for a self-relative field, a displacement that fits a signed word unmasked. */
  predicate Packable(stype: nat, src: int, target: int) {
    stype == SRC_OFFSET32 || stype == SRC_OFFSET16 || stype == SRC_BYTE || stype == SRC_SELECTOR16
    || stype == SRC_PTR16_16 || stype == SRC_PTR16_32
    || (stype == SRC_SELF_REL32 && (target - (src + 4)) % 0x1_0000_0000 < 0x8000_0000)
  }

  lemma PatchExact(stype: nat, src: int, memBase: int, target: int, selector: nat)
    ensures Patch(stype, src, memBase, target, selector).Some? <==> Packable(stype, src, target)
  {
    hide Bytes;
  }

  lemma {:induction false} SourcesExact(stype: nat, sources: seq<int>, base: int, memBase: int, target: int, selector: nat)
    ensures SourceWrites(stype, sources, base, memBase, target, selector).Some?
            <==> forall s :: s in sources ==> Packable(stype, base + s, target)
    decreases |sources|
  {
    if sources != [] {
      hide Packable, Patch;
      PatchExact(stype, base + sources[0], memBase, target, selector);
      SourcesExact(stype, sources[1..], base, memBase, target, selector);
      assert sources[0] in sources && forall s :: s in sources <==> s == sources[0] || s in sources[1..];
    }
  }

  /** The record's target exists and each of its sources can be packed. */
  predicate RecordPacks(objects: seq<LeObject>, rec: Record, base: int) {
    TargetObject(objects, rec.objNum).Some?
    && forall s :: s in rec.sources ==>
         Packable(rec.stype, base + s, TargetObject(objects, rec.objNum).value.base + rec.tgtOff)
  }

  lemma RecordExact(objects: seq<LeObject>, rec: Record, base: int, memBase: int)
    ensures RecordWrites(objects, rec, base, memBase).Some? <==> RecordPacks(objects, rec, base)
  {
    match TargetObject(objects, rec.objNum) {
      case None =>
      case Some(t) =>
        hide Packable, SourceWrites;
        SourcesExact(rec.stype, rec.sources, base, memBase, t.base + rec.tgtOff, Selector(t));
    }
  }

  lemma {:induction false} RecordsExact(objects: seq<LeObject>, recs: seq<Record>, base: int, memBase: int)
    ensures RecordsWrites(objects, recs, base, memBase).Some?
            <==> forall rec :: rec in recs ==> RecordPacks(objects, rec, base)
    decreases |recs|
  {
    hide RecordWrites, RecordPacks;
    if recs != [] {
      RecordExact(objects, recs[0], base, memBase);
      RecordsExact(objects, recs[1..], base, memBase);
      assert recs[0] in recs && forall rec :: rec in recs <==> rec == recs[0] || rec in recs[1..];
    }
  }

  /** The records of a page, where its table entries and its object are there and all of them parse. */
  function PageRecords(le: Le, objects: seq<LeObject>, page: nat): Option<(seq<Record>, int)>
    requires page >= 1
  {
    match (U32(le.data, le.fixupPageTab + (page - 1) * 4), U32(le.data, le.fixupPageTab + page * 4),
           PageBase(objects, le.pageSize, page))
    case (Some(start), Some(end), Some(base)) =>
      (match Records(le.data, le.fixupRecTab + start, le.fixupRecTab + end)
       case None => None
       case Some(recs) => Some((recs, base)))
    case _ => None
  }

  /** Page `page` parses and every one of its records packs. */
  predicate PagePacks(le: Le, objects: seq<LeObject>, page: nat) {
    page >= 1 && PageRecords(le, objects, page).Some?
    && forall rec :: rec in PageRecords(le, objects, page).value.0 ==>
         RecordPacks(objects, rec, PageRecords(le, objects, page).value.1)
  }

  lemma PageExact(le: Le, objects: seq<LeObject>, memBase: int, page: nat)
    requires page >= 1
    ensures PageFixups(le, objects, memBase, page).Some? <==> PagePacks(le, objects, page)
  {
    hide RecordsWrites, RecordPacks, Records, PageBase, U32;
    match PageRecords(le, objects, page) {
      case None =>
      case Some((recs, base)) => RecordsExact(objects, recs, base, memBase);
    }
  }

  lemma {:induction false} FixupsExact(le: Le, objects: seq<LeObject>, memBase: int, page: nat)
    requires page >= 1
    ensures FixupsFrom(le, objects, memBase, page).Some?
            <==> forall q :: page <= q <= le.numPages ==> PagePacks(le, objects, q)
    decreases if page <= le.numPages then le.numPages - page + 1 else 0
  {
    hide PageFixups, PagePacks;
    if page <= le.numPages {
      PageExact(le, objects, memBase, page);
      FixupsExact(le, objects, memBase, page + 1);
    }
  }

  /** A load has its stores exactly when its pages are there and every fixup of every page can be packed. */
  lemma StoresExact(le: Le, d: int)
    requires le.objects != []
    ensures Shifted(le.objects, d) != []
    ensures var objects := Shifted(le.objects, d);
            Stores(le, d).Some? <==> PagesOf(le, objects, objects[0].base).Some?
                                     && forall q :: 1 <= q <= le.numPages ==> PagePacks(le, objects, q)
  {
    var objects := Shifted(le.objects, d);
    assert |objects| == |le.objects|;
    hide PagesOf, FixupsFrom, PagePacks, Shifted;
    FixupsExact(le, objects, objects[0].base, 1);
  }

  /** Within 2 GB either way a self-relative fixup packs exactly when it does not go backward. */
  lemma SelfRelativeExact(src: int, target: int)
    requires -0x8000_0000 <= target - (src + 4) < 0x8000_0000
    ensures Packable(SRC_SELF_REL32, src, target) <==> src + 4 <= target
  {
  }

  /** So one backward self-relative fixup anywhere refuses the whole image, at every address and size. */
  lemma BackwardRefusesLoad(le: Le, d: int, limit: Option<int>, page: nat, rec: Record, s: int)
    requires le.objects != [] && 1 <= page <= le.numPages
    requires PageRecords(le, Shifted(le.objects, d), page).Some? && rec in PageRecords(le, Shifted(le.objects, d), page).value.0
    requires rec.stype == SRC_SELF_REL32 && s in rec.sources && TargetObject(Shifted(le.objects, d), rec.objNum).Some?
    requires var (src, target) := (PageRecords(le, Shifted(le.objects, d), page).value.1 + s,
                                   TargetObject(Shifted(le.objects, d), rec.objNum).value.base + rec.tgtOff);
             0 < src + 4 - target <= 0x8000_0000
    ensures Load(le, d, limit).None?
  {
    hide *;
    var objects := Shifted(le.objects, d);
    RecordRefused(objects, rec, PageRecords(le, objects, page).value.1, s);
    PageRefused(le, objects, page, rec);
    StoresExact(le, d);
    NoStoresNoLoad(le, d, limit);
  }

  lemma RecordRefused(objects: seq<LeObject>, rec: Record, base: int, s: int)
    requires rec.stype == SRC_SELF_REL32 && s in rec.sources && TargetObject(objects, rec.objNum).Some?
    requires 0 < base + s + 4 - (TargetObject(objects, rec.objNum).value.base + rec.tgtOff) <= 0x8000_0000
    ensures !RecordPacks(objects, rec, base)
  {
    SelfRelativeExact(base + s, TargetObject(objects, rec.objNum).value.base + rec.tgtOff);
    hide TargetObject, Packable;
  }

  lemma PageRefused(le: Le, objects: seq<LeObject>, page: nat, rec: Record)
    requires page >= 1 && PageRecords(le, objects, page).Some? && rec in PageRecords(le, objects, page).value.0
    requires !RecordPacks(objects, rec, PageRecords(le, objects, page).value.1)
    ensures !PagePacks(le, objects, page)
  {
    hide RecordPacks, PageRecords;
  }

  lemma NoStoresNoLoad(le: Le, d: int, limit: Option<int>)
    requires le.objects != [] && Stores(le, d).None?
    ensures Load(le, d, limit).None?
  {
    hide Stores, Top, Size;
  }

  // ---- stores at negative indices -----------------------------------------------------------

  /** The stores with indices as a memory of `n` bytes understands them. */
  function Resolved(ws: seq<Write>, n: nat): (r: seq<Write>)
    ensures |r| == |ws| && forall i :: 0 <= i < |ws| ==> r[i] == ws[i].(at := Resolve(ws[i].at, n))
  {
    seq(|ws|, i requires 0 <= i < |ws| => ws[i].(at := Resolve(ws[i].at, n)))
  }

  lemma ResolvedInit(ws: seq<Write>, n: nat)
    requires ws != []
    ensures Resolved(ws, n)[..|ws| - 1] == Resolved(ws[..|ws| - 1], n)
  {
  }

  lemma ResolvedApply(mem: seq<Byte>, w: Write)
    ensures var v := w.(at := Resolve(w.at, |mem|));
            ApplyWrite(mem, w) == if v.at >= 0 then ApplyWrite(mem, v) else None
  {
  }

  /** All stores land at or after the start. */
  lemma {:induction false} ApplyResolved(mem: seq<Byte>, ws: seq<Write>)
    ensures ApplyWrites(mem, ws) == if Forward(Resolved(ws, |mem|)) then ApplyWrites(mem, Resolved(ws, |mem|)) else None
    decreases |ws|
  {
    var rs := Resolved(ws, |mem|);
    if ws != [] {
      var init, w := ws[..|ws| - 1], ws[|ws| - 1];
      ResolvedInit(ws, |mem|);
      ApplyResolved(mem, init);
      ApplyNext(mem, ws);
      ApplyNext(mem, rs);
      ForwardSnoc(rs);
      hide ApplyWrites, ApplyWrite, Forward, Resolved;
      match ApplyWrites(mem, init) {
        case None =>
        case Some(m) =>
          ApplySize(mem, init);
          ResolvedApply(m, w);
          ResolvedLast(ws, |mem|);
      }
    }
  }

  lemma ResolvedLast(ws: seq<Write>, n: nat)
    requires ws != []
    ensures |Resolved(ws, n)| == |ws| && Resolved(ws, n)[|ws| - 1] == ws[|ws| - 1].(at := Resolve(ws[|ws| - 1].at, n))
  {
  }

  lemma ForwardSnoc(ws: seq<Write>)
    requires ws != []
    ensures Forward(ws) <==> Forward(ws[..|ws| - 1]) && ws[|ws| - 1].at >= 0
  {
    assert ws == ws[..|ws| - 1] + [ws[|ws| - 1]];
  }

  lemma InsideForward(ws: seq<Write>, n: nat)
    requires Inside(ws, n)
    ensures Forward(ws)
  {
  }

  /** Any list of stores succeeds exactly when all of them land inside, and each byte is then its last store's. */
  lemma ApplyExact(mem: seq<Byte>, ws: seq<Write>)
    ensures ApplyWrites(mem, ws).Some? <==> Inside(Resolved(ws, |mem|), |mem|)
    ensures ApplyWrites(mem, ws).Some? ==>
              |ApplyWrites(mem, ws).value| == |mem|
              && forall x :: 0 <= x < |mem| ==> ApplyWrites(mem, ws).value[x] == ByteAt(mem, Resolved(ws, |mem|), x)
  {
    hide *;
    var rs := Resolved(ws, |mem|);
    ApplyResolved(mem, ws);
    ApplySize(mem, ws);
    if Forward(rs) {
      ApplyFits(mem, rs);
      if ApplyWrites(mem, ws).Some? {
        forall x: nat | x < |mem|
          ensures ApplyWrites(mem, ws).value[x] == ByteAt(mem, rs, x)
        {
          ApplyIsLastCover(mem, rs, x);
        }
      }
    } else if Inside(rs, |mem|) {
      InsideForward(rs, |mem|);
    }
  }

  // ---- which store a byte comes from ---------------------------------------------------------

  /** The last store that covers `x`. */
  function LastIndex(ws: seq<Write>, x: nat): (r: Option<nat>)
    ensures r.Some? ==> r.value < |ws| && Covers(ws[r.value], x)
    decreases |ws|
  {
    if ws == [] then None
    else if Covers(ws[|ws| - 1], x) then Some(|ws| - 1)
    else LastIndex(ws[..|ws| - 1], x)
  }

  lemma {:induction false} IndexIsCover(ws: seq<Write>, x: nat)
    ensures LastCover(ws, x) == match LastIndex(ws, x) case None => None case Some(i) => Some(ws[i])
    decreases |ws|
  {
    if ws != [] {
      IndexIsCover(ws[..|ws| - 1], x);
    }
  }

  lemma LastIndexNext(ws: seq<Write>, x: nat)
    requires ws != []
    ensures LastIndex(ws, x) == if Covers(ws[|ws| - 1], x) then Some(|ws| - 1) else LastIndex(ws[..|ws| - 1], x)
  {
  }

  /** In a memory of `n` bytes, the store `x` comes from counts from the start, if there is one. */
  predicate FromFront(ws: seq<Write>, n: nat, x: nat) {
    match LastIndex(Resolved(ws, n), x)
    case None => true
    case Some(i) => ws[i].at >= 0
  }

  /** None of the first `m` bytes comes from a store before the image. */
  ghost predicate Buried(ws: seq<Write>, n: nat, m: nat) {
    forall x :: 0 <= x < m ==> FromFront(ws, n, x)
  }

  lemma {:induction false} SameIndex(ws: seq<Write>, n0: nat, n1: nat, x: nat)
    requires FromFront(ws, n0, x) && FromFront(ws, n1, x)
    ensures LastIndex(Resolved(ws, n0), x) == LastIndex(Resolved(ws, n1), x)
    decreases |ws|
  {
    if ws != [] {
      var init, w := ws[..|ws| - 1], ws[|ws| - 1];
      LastIndexNext(Resolved(ws, n0), x);
      LastIndexNext(Resolved(ws, n1), x);
      ResolvedInit(ws, n0);
      ResolvedInit(ws, n1);
      ResolvedLast(ws, n0);
      ResolvedLast(ws, n1);
      hide LastIndex, Resolved;
      if !Covers(Resolved(ws, n0)[|ws| - 1], x) && !Covers(Resolved(ws, n1)[|ws| - 1], x) {
        SameIndex(init, n0, n1, x);
      }
    }
  }

  lemma ResolvedMoved(ws: seq<Write>, d: int, n: nat)
    ensures Resolved(MovedAll(ws, d), n) == MovedAll(Resolved(ws, n), d)
  {
    hide Bytes, Num;
  }

  lemma FrontCover(ws: seq<Write>, n0: nat, n1: nat, x: nat)
    requires n0 == n1 || (FromFront(ws, n0, x) && FromFront(ws, n1, x))
    ensures LastCover(Resolved(ws, n0), x) == LastCover(Resolved(ws, n1), x)
  {
    if n0 != n1 {
      SameIndex(ws, n0, n1, x);
      IndexIsCover(Resolved(ws, n0), x);
      IndexIsCover(Resolved(ws, n1), x);
    }
    hide LastCover, LastIndex;
  }

  /** Only the last cover counts. */
  lemma CoverDecides(vs: seq<Write>, ws: seq<Write>, mem: seq<Byte>, d: int, x: nat, before: Byte, after: Byte)
    requires x < |mem| && LastCover(vs, x) == LastCover(ws, x)
    ensures ByteAt(mem, vs, x) == ByteAt(mem, ws, x)
    ensures ByteMoves(vs, d, x, before, after) == ByteMoves(ws, d, x, before, after)
  {
    hide LastCover, Bytes, Num;
  }

  lemma FrontByte(ws: seq<Write>, d: int, n0: nat, n1: nat, x: nat)
    requires x < n0 <= n1 && (n0 == n1 || (FromFront(ws, n0, x) && FromFront(ws, n1, x)))
    ensures ByteMoves(Resolved(ws, n0), d, x, ByteAt(Zeros(n0), Resolved(ws, n0), x), ByteAt(Zeros(n1), MovedAll(Resolved(ws, n1), d), x))
  {
    hide *;
    FrontCover(ws, n0, n1, x);
    var r := Resolved(ws, n1);
    ByteCompare(r, n0, n1, d, x);
    CoverDecides(Resolved(ws, n0), r, Zeros(n0), d, x, ByteAt(Zeros(n0), r, x), ByteAt(Zeros(n1), MovedAll(r, d), x));
  }

  lemma ResolvedFits(ws: seq<Write>, d: int, n0: nat, n1: nat)
    requires n0 <= n1 && Inside(Resolved(ws, n0), n0)
    ensures Inside(MovedAll(Resolved(ws, n1), d), n1)
  {
    MovedShape(Resolved(ws, n1), d);
    hide MovedAll;
    forall i | 0 <= i < |ws|
      ensures 0 <= Resolved(ws, n1)[i].at && Resolved(ws, n1)[i].at + |Resolved(ws, n1)[i].bytes| <= n1
    {
      assert 0 <= Resolved(ws, n0)[i].at && Resolved(ws, n0)[i].at + |Resolved(ws, n0)[i].bytes| <= n0;
    }
  }

  /** How two loads compare, with indices as the unshifted memory understands them. */
  ghost predicate RebasedBytes(ws: seq<Write>, d: int, a: seq<Byte>, b: seq<Byte>) {
    |a| <= |b| && forall x :: 0 <= x < |a| ==> ByteMoves(Resolved(ws, |a|), d, x, a[x], b[x])
  }

  /**
   Loading the image shifted by `d` into no less memory is accepted whenever the unshifted
   load is, wherever its stores go; and the only bytes that differ are those of address
   fields, each grown by `d`, as long as the sizes are the same or no byte comes from a
   store before the image.
   */
  lemma RebaseAnywhere(le: Le, d: int, limit: Option<int>, limit': Option<int>)
    requires le.objects != [] && Stores(le, 0).Some? && SizesGrow(le, d, limit, limit') && Load(le, 0, limit).Some?
    ensures Load(le, d, limit').Some?
    ensures var (ws, a, b) := (Stores(le, 0).value, Load(le, 0, limit).value.mem, Load(le, d, limit').value.mem);
            |a| == |b| || (Buried(ws, |a|, |a|) && Buried(ws, |b|, |a|)) ==> RebasedBytes(ws, d, a, b)
  {
    var ws := Stores(le, 0).value;
    var n0, n1 := Size(Top(Shifted(le.objects, 0)), le.pageSize, limit).value, Size(Top(Shifted(le.objects, d)), le.pageSize, limit').value;
    StoresMove(le, d);
    LoadIs(le, 0, limit, n0, ws);
    LoadIs(le, d, limit', n1, MovedAll(ws, d));
    hide *;
    ApplyExact(Zeros(n0), ws);
    ApplyExact(Zeros(n1), MovedAll(ws, d));
    ResolvedMoved(ws, d, n1);
    ResolvedFits(ws, d, n0, n1);
    var a, b := Load(le, 0, limit).value.mem, Load(le, d, limit').value.mem;
    if n0 == n1 || (Buried(ws, n0, n0) && Buried(ws, n1, n0)) {
      forall x: nat | x < n0
        ensures ByteMoves(Resolved(ws, n0), d, x, a[x], b[x])
      {
        if n0 != n1 {
          BuriedAt(ws, n0, n0, x);
          BuriedAt(ws, n1, n0, x);
        }
        FrontByte(ws, d, n0, n1, x);
      }
      BytesRebased(ws, d, a, b);
    }
  }

  lemma BuriedAt(ws: seq<Write>, n: nat, m: nat, x: nat)
    requires Buried(ws, n, m) && x < m
    ensures FromFront(ws, n, x)
  {
  }

  lemma BytesRebased(ws: seq<Write>, d: int, a: seq<Byte>, b: seq<Byte>)
    requires |a| <= |b| && forall x :: 0 <= x < |a| ==> ByteMoves(Resolved(ws, |a|), d, x, a[x], b[x])
    ensures RebasedBytes(ws, d, a, b)
  {
  }

  // ---- the condition is exact -----------------------------------------------------------------

  /** Stores of the same sizes in the same places. */
  predicate SameExtents(ws: seq<Write>, vs: seq<Write>) {
    |vs| == |ws| && forall i :: 0 <= i < |ws| ==> vs[i].at == ws[i].at && |vs[i].bytes| == |ws[i].bytes|
  }

  /** The first `n0` bytes do not depend on the memory's size. */
  ghost predicate SizeBlind(ws: seq<Write>, n0: nat, n1: nat) {
    forall x :: 0 <= x < n0 <= n1 ==> ByteAt(Zeros(n0), Resolved(ws, n0), x) == ByteAt(Zeros(n1), Resolved(ws, n1), x)
  }

  lemma {:induction false} ExtentsIndex(ws: seq<Write>, vs: seq<Write>, n: nat, x: nat)
    requires SameExtents(ws, vs)
    ensures LastIndex(Resolved(vs, n), x) == LastIndex(Resolved(ws, n), x)
    decreases |ws|
  {
    if ws != [] {
      LastIndexNext(Resolved(ws, n), x);
      LastIndexNext(Resolved(vs, n), x);
      ResolvedInit(ws, n);
      ResolvedInit(vs, n);
      ResolvedLast(ws, n);
      ResolvedLast(vs, n);
      hide LastIndex, Resolved;
      ExtentsIndex(ws[..|ws| - 1], vs[..|ws| - 1], n, x);
    }
  }

  lemma ByteByIndex(mem: seq<Byte>, ws: seq<Write>, x: nat)
    requires x < |mem|
    ensures ByteAt(mem, ws, x) == match LastIndex(ws, x) case None => mem[x] case Some(i) => ws[i].bytes[x - ws[i].at]
  {
    IndexIsCover(ws, x);
    hide LastIndex, LastCover;
  }

  /** Zeros but for a one at byte `k` of store `i`. */
  function Marked(ws: seq<Write>, i: nat, k: nat): (vs: seq<Write>)
    requires i < |ws| && k < |ws[i].bytes|
    ensures SameExtents(ws, vs)
    ensures forall j, l :: 0 <= j < |vs| && 0 <= l < |vs[j].bytes| ==> vs[j].bytes[l] == if j == i && l == k then 1 else 0
  {
    seq(|ws|, j requires 0 <= j < |ws| =>
      ws[j].(bytes := if j == i then Zeros(|ws[j].bytes|)[k := 1] else Zeros(|ws[j].bytes|)))
  }

  /** A byte from before the image is elsewhere in the other memory. */
  lemma MarkedShows(ws: seq<Write>, n: nat, m: nat, x: nat, i: nat)
    requires x < n && x < m && n != m && LastIndex(Resolved(ws, n), x) == Some(i) && i < |ws| && ws[i].at < 0
    ensures 0 <= x - (ws[i].at + n) < |ws[i].bytes|
    ensures var vs := Marked(ws, i, x - (ws[i].at + n));
            ByteAt(Zeros(n), Resolved(vs, n), x) == 1 && ByteAt(Zeros(m), Resolved(vs, m), x) == 0
  {
    assert Covers(Resolved(ws, n)[i], x);
    var vs := Marked(ws, i, x - (ws[i].at + n));
    ExtentsIndex(ws, vs, n, x);
    ByteByIndex(Zeros(n), Resolved(vs, n), x);
    ByteByIndex(Zeros(m), Resolved(vs, m), x);
    hide LastIndex, ByteAt, Marked;
  }

  /** Whatever is stored, the size of the memory makes no difference below `n0` exactly when no byte there comes from before the image. */
  lemma BackwardStoresWander(ws: seq<Write>, n0: nat, n1: nat)
    requires n0 < n1
    ensures (forall vs :: SameExtents(ws, vs) ==> SizeBlind(vs, n0, n1)) <==> Buried(ws, n0, n0) && Buried(ws, n1, n0)
  {
    hide *;
    if Buried(ws, n0, n0) && Buried(ws, n1, n0) {
      forall vs | SameExtents(ws, vs)
        ensures SizeBlind(vs, n0, n1)
      {
        BuriedIsBlind(ws, vs, n0, n1);
      }
    } else {
      var vs := WanderingBytes(ws, n0, n1);
    }
  }

  lemma BuriedIsBlind(ws: seq<Write>, vs: seq<Write>, n0: nat, n1: nat)
    requires n0 < n1 && SameExtents(ws, vs) && Buried(ws, n0, n0) && Buried(ws, n1, n0)
    ensures SizeBlind(vs, n0, n1)
  {
    hide LastIndex, ByteAt, Resolved;
    forall x: nat | x < n0
      ensures ByteAt(Zeros(n0), Resolved(vs, n0), x) == ByteAt(Zeros(n1), Resolved(vs, n1), x)
    {
      ExtentsIndex(ws, vs, n0, x);
      ExtentsIndex(ws, vs, n1, x);
      BuriedAt(ws, n0, n0, x);
      BuriedAt(ws, n1, n0, x);
      SameIndex(ws, n0, n1, x);
      SameByte(vs, n0, n1, x);
    }
  }

  lemma SameByte(vs: seq<Write>, n0: nat, n1: nat, x: nat)
    requires x < n0 < n1 && LastIndex(Resolved(vs, n0), x) == LastIndex(Resolved(vs, n1), x) && FromFront(vs, n0, x)
    ensures ByteAt(Zeros(n0), Resolved(vs, n0), x) == ByteAt(Zeros(n1), Resolved(vs, n1), x)
  {
    ByteByIndex(Zeros(n0), Resolved(vs, n0), x);
    ByteByIndex(Zeros(n1), Resolved(vs, n1), x);
    hide LastIndex, ByteAt;
  }

  lemma WanderingBytes(ws: seq<Write>, n0: nat, n1: nat) returns (vs: seq<Write>)
    requires n0 < n1 && !(Buried(ws, n0, n0) && Buried(ws, n1, n0))
    ensures SameExtents(ws, vs) && !SizeBlind(vs, n0, n1)
  {
    hide LastIndex, ByteAt, Resolved, Marked;
    if x :| 0 <= x < n0 && !FromFront(ws, n0, x) {
      var i := LastIndex(Resolved(ws, n0), x).value;
      MarkedShows(ws, n0, n1, x, i);
      vs := Marked(ws, i, x - (ws[i].at + n0));
    } else {
      var x :| 0 <= x < n0 && !FromFront(ws, n1, x);
      var i := LastIndex(Resolved(ws, n1), x).value;
      MarkedShows(ws, n1, n0, x, i);
      vs := Marked(ws, i, x - (ws[i].at + n1));
    }
  }

  /** For a loaded image: every byte under any limit is its last store's, with indices as that memory understands them. */
  lemma LoadBytes(le: Le, limit: nat)
    requires le.objects != [] && Stores(le, 0).Some? && Top(le.objects) <= limit
    ensures Load(le, 0, Some(limit)).Some? <==> Inside(Resolved(Stores(le, 0).value, limit), limit)
    ensures Load(le, 0, Some(limit)).Some? ==>
              var mem := Load(le, 0, Some(limit)).value.mem;
              |mem| == limit
              && forall x :: 0 <= x < limit ==> mem[x] == ByteAt(Zeros(limit), Resolved(Stores(le, 0).value, limit), x)
  {
    ShiftedByNothing(le.objects);
    LoadIs(le, 0, Some(limit), limit, Stores(le, 0).value);
    hide Load, Stores, ApplyWrites, Resolved, ByteAt, Inside, Top;
    ApplyExact(Zeros(limit), Stores(le, 0).value);
  }
}
