/** The fixup pass over an image's memory, in place. */
module LeLinker {
  import opened Blocks
  import opened Memory
  import opened LeLoader
  import opened LeRebase
  import opened LeFields

  /** Stores still to make, on memory as it is now. */
  function Rest(mem: seq<Byte>, ws: Option<seq<Write>>): Option<seq<Byte>> {
    match ws
    case None => None
    case Some(x) => ApplyWrites(mem, x)
  }

  lemma {:induction false} ApplyConcat(mem: seq<Byte>, a: seq<Write>, b: seq<Write>)
    ensures ApplyWrites(mem, a + b) == Rest2(ApplyWrites(mem, a), b)
    decreases |b|
  {
    if b == [] {
      assert a + b == a;
    } else {
      var w := b[|b| - 1];
      assert (a + b)[..|a + b| - 1] == a + b[..|b| - 1];
      ApplyConcat(mem, a, b[..|b| - 1]);
      ApplyNext(mem, a + b);
      hide ApplyWrites, ApplyWrite;
      if ApplyWrites(mem, a).Some? {
        ApplyNext(ApplyWrites(mem, a).value, b);
      }
    }
  }

  function Rest2(mem: Option<seq<Byte>>, ws: seq<Write>): Option<seq<Byte>> {
    match mem
    case None => None
    case Some(m) => ApplyWrites(m, ws)
  }

  /** Doing the first part of a job leaves the rest of it. */
  lemma RestJoin(mem: seq<Byte>, a: Option<seq<Write>>, b: Option<seq<Write>>)
    ensures Rest(mem, Join(a, b)) == match Rest(mem, a)
                                     case None => None
                                     case Some(m) => Rest(m, b)
  {
    if a.Some? && b.Some? {
      ApplyConcat(mem, a.value, b.value);
    }
    hide ApplyWrites;
  }

  class LEImage {
    const mem: array<Byte>
    const memBase: int
    const objects: seq<LeObject>

    constructor (bytes: array<Byte>, base: int, objs: seq<LeObject>)
      ensures mem == bytes && memBase == base && objects == objs
    {
      mem, memBase, objects := bytes, base, objs;
    }

    /** `pack_into` */
    method Pack(w: Write) returns (ok: bool)
      modifies mem
      ensures ApplyWrite(old(mem[..]), w) == if ok then Some(mem[..]) else None
      ensures !ok ==> mem[..] == old(mem[..])
    {
      var i := Resolve(w.at, mem.Length);
      ok := 0 <= i && i + |w.bytes| <= mem.Length;
      if ok {
        forall k | 0 <= k < |w.bytes| {
          mem[i + k] := w.bytes[k];
        }
        assert mem[..] == Put(old(mem[..]), i, w.bytes);
      }
    }

    /** A patch's stores, in order. */
    method PackAll(ws: seq<Write>) returns (ok: bool)
      modifies mem
      ensures ApplyWrites(old(mem[..]), ws) == if ok then Some(mem[..]) else None
    {
      hide ApplyWrite;
      for i := 0 to |ws|
        invariant ApplyWrites(old(mem[..]), ws[..i]) == Some(mem[..])
      {
        ApplyNext(old(mem[..]), ws[..i + 1]);
        assert ws[..i + 1][..i] == ws[..i];
        ok := Pack(ws[i]);
        if !ok {
          ApplyStops(old(mem[..]), ws, i + 1);
          return;
        }
      }
      assert ws[..|ws|] == ws;
      ok := true;
    }

    /** Every source of one record. */
    method PatchSources(stype: nat, sources: seq<int>, base: int, target: int, selector: nat) returns (ok: bool)
      modifies mem
      ensures Rest(old(mem[..]), SourceWrites(stype, sources, base, memBase, target, selector)) == if ok then Some(mem[..]) else None
    {
      hide *;
      ghost var goal := Rest(mem[..], SourceWrites(stype, sources, base, memBase, target, selector));
      assert sources[0..] == sources;
      for i := 0 to |sources|
        invariant Rest(mem[..], SourceWrites(stype, sources[i..], base, memBase, target, selector)) == goal
      {
        SourcesNext(stype, sources[i..], base, memBase, target, selector);
        assert sources[i..][0] == sources[i] && sources[i..][1..] == sources[i + 1..];
        var ws := Patch(stype, base + sources[i], memBase, target, selector);
        RestJoin(mem[..], ws, SourceWrites(stype, sources[i + 1..], base, memBase, target, selector));
        RestIs(mem[..], ws);
        if ws.None? {
          return false;
        }
        ok := PackAll(ws.value);
        if !ok {
          return;
        }
      }
      assert sources[|sources|..] == [];
      SourcesNext(stype, [], base, memBase, target, selector);
      RestNothing(mem[..]);
      ok := true;
    }

    /** The record cursor over one page's slice of the fixup table. */
    method FixRecords(data: seq<Byte>, start: nat, end: nat, base: int) returns (ok: bool)
      modifies mem
      ensures Rest(old(mem[..]), RecordsFrom(data, objects, start, end, base, memBase)) == if ok then Some(mem[..]) else None
      ensures ok ==> SliceFixed(data, start, end, objects, base, memBase, mem[..])
    {
      hide *;
      ghost var goal := Rest(mem[..], RecordsFrom(data, objects, start, end, base, memBase));
      var o := start;
      while o < end
        invariant Rest(mem[..], RecordsFrom(data, objects, o, end, base, memBase)) == goal
        decreases |data| - o
      {
        RecordsFromNext(data, objects, o, end, base, memBase);
        var r := ParseRecord(data, o);
        if r.None? {
          RestIs(mem[..], None);
          return false;
        }
        var (rec, next) := r.value;
        RestJoin(mem[..], RecordWrites(objects, rec, base, memBase), RecordsFrom(data, objects, next, end, base, memBase));
        RecordIs(objects, rec, base, memBase);
        var t := TargetObject(objects, rec.objNum);
        if t.None? {
          RestIs(mem[..], None);
          return false;
        }
        ok := PatchSources(rec.stype, rec.sources, base, t.value.base + rec.tgtOff, Selector(t.value));
        if !ok {
          return;
        }
        o := next;
      }
      RecordsFromNext(data, objects, o, end, base, memBase);
      RestNothing(mem[..]);
      SliceRest(data, start, end, objects, base, memBase, old(mem[..]), mem[..]);
      ok := true;
    }

    /** `_apply_fixups` over every page. */
    method ApplyFixups(le: Le) returns (ok: bool)
      modifies mem
      ensures Rest(old(mem[..]), FixupsFrom(le, objects, memBase, 1)) == if ok then Some(mem[..]) else None
      ensures ok ==> AllFixed(le, objects, memBase, mem[..])
    {
      hide *;
      ghost var goal := Rest(mem[..], FixupsFrom(le, objects, memBase, 1));
      var page := 1;
      while page <= le.numPages
        invariant page >= 1 && Rest(mem[..], FixupsFrom(le, objects, memBase, page)) == goal
      {
        FixupsNext(le, objects, memBase, page);
        RestJoin(mem[..], PageFixups(le, objects, memBase, page), FixupsFrom(le, objects, memBase, page + 1));
        PageIs(le, objects, memBase, page);
        var first, last := U32(le.data, le.fixupPageTab + (page - 1) * 4), U32(le.data, le.fixupPageTab + page * 4);
        var base := PageBase(objects, le.pageSize, page);
        if first.None? || last.None? || base.None? {
          RestIs(mem[..], None);
          return false;
        }
        ok := FixRecords(le.data, le.fixupRecTab + first.value, le.fixupRecTab + last.value, base.value);
        if !ok {
          return;
        }
        page := page + 1;
      }
      FixupsNext(le, objects, memBase, page);
      RestNothing(mem[..]);
      AllRest(le, objects, memBase, old(mem[..]), mem[..]);
      ok := true;
    }
  }

  lemma SliceRest(data: seq<Byte>, start: nat, end: nat, objects: seq<LeObject>, base: int, memBase: int, before: seq<Byte>, mem: seq<Byte>)
    requires Rest(before, RecordsFrom(data, objects, start, end, base, memBase)) == Some(mem)
    ensures SliceFixed(data, start, end, objects, base, memBase, mem)
  {
    hide RecordsFrom, ApplyWrites, SliceFixed;
    SliceHolds(data, start, end, objects, base, memBase, before, mem);
  }

  lemma AllRest(le: Le, objects: seq<LeObject>, memBase: int, before: seq<Byte>, mem: seq<Byte>)
    requires Rest(before, FixupsFrom(le, objects, memBase, 1)) == Some(mem)
    ensures AllFixed(le, objects, memBase, mem)
  {
    hide FixupsFrom, ApplyWrites, AllFixed;
    AllHold(le, objects, memBase, before, mem);
  }

  lemma RestIs(mem: seq<Byte>, ws: Option<seq<Write>>)
    ensures ws.None? ==> Rest(mem, ws) == None
    ensures ws.Some? ==> Rest(mem, ws) == ApplyWrites(mem, ws.value)
  {
  }

  lemma RestNothing(mem: seq<Byte>)
    ensures Rest(mem, Some([])) == Some(mem)
  {
  }

  lemma {:induction false} ApplyStops(mem: seq<Byte>, ws: seq<Write>, i: nat)
    requires i <= |ws| && ApplyWrites(mem, ws[..i]).None?
    ensures ApplyWrites(mem, ws).None?
    decreases |ws|
  {
    if i == |ws| {
      assert ws[..i] == ws;
    } else {
      assert ws[..|ws| - 1][..i] == ws[..i];
      ApplyStops(mem, ws[..|ws| - 1], i);
    }
  }

  lemma RecordIs(objects: seq<LeObject>, rec: Record, base: int, memBase: int)
    ensures RecordWrites(objects, rec, base, memBase)
            == match TargetObject(objects, rec.objNum)
               case None => None
               case Some(t) => SourceWrites(rec.stype, rec.sources, base, memBase, t.base + rec.tgtOff, Selector(t))
  {
  }

  lemma RecordsFromNext(data: seq<Byte>, objects: seq<LeObject>, o: nat, end: nat, base: int, memBase: int)
    ensures o >= end ==> RecordsFrom(data, objects, o, end, base, memBase) == Some([])
    ensures o < end ==>
              var r := ParseRecord(data, o);
              (r.None? ==> RecordsFrom(data, objects, o, end, base, memBase) == None)
              && (r.Some? ==>
                    o < r.value.1 <= |data|
                    && RecordsFrom(data, objects, o, end, base, memBase)
                       == Join(RecordWrites(objects, r.value.0, base, memBase),
                               RecordsFrom(data, objects, r.value.1, end, base, memBase)))
  {
    hide ParseRecord, RecordWrites;
    if o < end {
      var r := ParseRecord(data, o);
      if r.Some? && Records(data, r.value.1, end).Some? {
        var recs := [r.value.0] + Records(data, r.value.1, end).value;
        RecordsNext(objects, recs, base, memBase);
      }
    }
  }

  lemma PageIs(le: Le, objects: seq<LeObject>, memBase: int, page: nat)
    requires page >= 1
    ensures var (first, last) := (U32(le.data, le.fixupPageTab + (page - 1) * 4), U32(le.data, le.fixupPageTab + page * 4));
            var base := PageBase(objects, le.pageSize, page);
            PageFixups(le, objects, memBase, page)
            == if first.Some? && last.Some? && base.Some? then
                 RecordsFrom(le.data, objects, le.fixupRecTab + first.value, le.fixupRecTab + last.value, base.value, memBase)
               else None
  {
    hide U32, PageBase, Records, RecordsWrites;
  }
}
