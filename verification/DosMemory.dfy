/** The DOS paragraph allocator: INT 21h functions 48h, 49h and 4Ah over a table of live blocks. */
module DosMemory {
  import opened Memory

  const PARAGRAPHS := 0x1_0000

  /** Live blocks (segment to size in paragraphs), the end of memory and the high-water mark. */
  datatype Dos = Dos(blocks: map<nat, nat>, limit: nat, nextAlloc: nat)

  datatype Gap = Gap(start: nat, size: nat)

  /** `min(s)` */
  function Min(s: set<nat>): (m: nat)
    requires s != {}
    ensures m in s && forall x :: x in s ==> m <= x
  {
    LeastExists(s);
    LeastUnique(s);
    var m :| IsLeast(m, s);
    m
  }

  lemma LeastUnique(s: set<nat>)
    ensures forall a, b :: IsLeast(a, s) && IsLeast(b, s) ==> a == b
  {
  }

  predicate IsLeast(m: nat, s: set<nat>) {
    m in s && forall x :: x in s ==> m <= x
  }

  lemma LeastOfTwo(s: set<nat>, y: nat, m: nat)
    requires y in s && IsLeast(m, s - {y})
    ensures IsLeast(if y < m then y else m, s)
  {
    forall x | x in s
      ensures (if y < m then y else m) <= x
    {
      assert x == y || x in s - {y};
    }
  }

  lemma {:induction false} LeastExists(s: set<nat>)
    requires s != {}
    ensures exists m :: IsLeast(m, s)
    decreases |s|
  {
    var y :| y in s;
    if s - {y} == {} {
      assert s == {y};
      assert IsLeast(y, s);
    } else {
      LeastExists(s - {y});
      var m :| IsLeast(m, s - {y});
      LeastOfTwo(s, y, m);
    }
  }

  /** `sorted(s)` */
  function Sorted(s: set<nat>): (r: seq<nat>)
    ensures forall x :: x in s <==> x in r
    ensures Ascending(r)
    decreases |s|
  {
    if s == {} then []
    else
      var m := Min(s);
      var rest := Sorted(s - {m});
      AscendingCons(m, rest);
      [m] + rest
  }

  predicate Ascending(r: seq<nat>) {
    forall i, j :: 0 <= i < j < |r| ==> r[i] < r[j]
  }

  lemma AscendingCons(m: nat, r: seq<nat>)
    requires Ascending(r) && forall x :: x in r ==> m < x
    ensures Ascending([m] + r)
  {
    var t := [m] + r;
    forall i, j | 0 <= i < j < |t|
      ensures t[i] < t[j]
    {
      assert t[j] == r[j - 1] && r[j - 1] in r && (i > 0 ==> t[i] == r[i - 1]);
    }
  }

  function Larger(a: nat, b: nat): nat {
    if a > b then a else b
  }

  // ---- free space ----------------------------------------------------------------

  /** The gaps from `cursor` up, past the blocks that begin at `starts`. */
  function GapsFrom(starts: seq<nat>, blocks: map<nat, nat>, cursor: nat, limit: nat): (g: seq<Gap>)
    requires forall s :: s in starts ==> s in blocks
    decreases |starts|
  {
    if starts == [] then if cursor < limit then [Gap(cursor, limit - cursor)] else []
    else
      var seg := starts[0];
      if seg < cursor then GapsFrom(starts[1..], blocks, cursor, limit)
      else
        (if seg > cursor then [Gap(cursor, seg - cursor)] else [])
        + GapsFrom(starts[1..], blocks, Larger(cursor, seg + blocks[seg]), limit)
  }

  /** Where the scan begins. */
  function Floor(d: Dos): nat {
    if d.blocks == map[] then d.nextAlloc else Min(d.blocks.Keys)
  }

  function FreeGaps(d: Dos): seq<Gap> {
    GapsFrom(Sorted(d.blocks.Keys), d.blocks, Floor(d), d.limit)
  }

  function FirstFit(gaps: seq<Gap>, size: nat): Option<nat> {
    if gaps == [] then None
    else if gaps[0].size >= size then Some(gaps[0].start)
    else FirstFit(gaps[1..], size)
  }

  function LargestOf(gaps: seq<Gap>): nat {
    if gaps == [] then 0
    else
      var m := LargestOf(gaps[1..]);
      if gaps[0].size > m then gaps[0].size else m
  }

  // ---- the three calls ----------------------------------------------------------------

  /** CF clear with AX, CF clear and the registers as they were, or CF set with AX and BX. */
  datatype Reply = Ok(ax: nat) | Done | Fail(ax: nat, bx: nat)

  function Allocate(d: Dos, paragraphs: nat): (r: (Dos, Reply)) {
    if paragraphs == 0 then (d, Fail(8, LargestOf(FreeGaps(d)) % PARAGRAPHS))
    else
      match FirstFit(FreeGaps(d), paragraphs)
      case None => (d, Fail(8, LargestOf(FreeGaps(d)) % PARAGRAPHS))
      case Some(seg) =>
        (Dos(d.blocks[seg := paragraphs], d.limit,
             Larger(seg + paragraphs, d.nextAlloc)), Ok(seg))
  }

  /** Freeing an unknown segment succeeds and changes nothing. */
  function Free(d: Dos, seg: nat): Dos {
    d.(blocks := d.blocks - {seg})
  }

  /** The lowest block start at or above `a`, or the end of memory. */
  function NextUsed(d: Dos, a: nat): (n: nat) {
    var above := set s | s in d.blocks && s >= a;
    if above == {} then d.limit else Min(above)
  }

  function Smaller(a: nat, b: nat): nat {
    if a < b then a else b
  }

  function Resize(d: Dos, seg: nat, size: nat): (r: (Dos, Reply)) {
    if seg !in d.blocks then (d, Fail(7, size))
    else
      var oldEnd, newEnd := seg + d.blocks[seg], seg + size;
      if newEnd <= oldEnd then (d.(blocks := d.blocks[seg := size]), Done)
      else
        var nextUsed := NextUsed(d, oldEnd);
        if newEnd > nextUsed || newEnd > d.limit then (d, Fail(8, (Smaller(nextUsed, d.limit) - seg) % PARAGRAPHS))
        else
          (Dos(d.blocks[seg := size], d.limit, Larger(newEnd, d.nextAlloc)), Done)
  }

  // ---- what the table means ----------------------------------------------------------------

  /** Two extents that share no paragraph; an empty one counts as the point where it sits. */
  predicate Apart(a: nat, n: nat, b: nat, m: nat) {
    a + n <= b || b + m <= a
  }

  ghost predicate Disjoint(blocks: map<nat, nat>) {
    forall a, b :: a in blocks && b in blocks && a != b ==> Apart(a, blocks[a], b, blocks[b])
  }

  /** What every call keeps. */
  ghost predicate Valid(d: Dos, psp: nat) {
    Disjoint(d.blocks) && d.nextAlloc == d.limit < PARAGRAPHS && psp < d.limit
    && (forall b :: b in d.blocks ==> psp <= b && b + d.blocks[b] <= d.limit)
  }

  /** `size` paragraphs at `a` are free of the blocks that begin at `starts`. */
  ghost predicate Fits(starts: seq<nat>, blocks: map<nat, nat>, limit: nat, a: nat, size: nat)
    requires forall s :: s in starts ==> s in blocks
  {
    a + size <= limit && forall s :: s in starts ==> Apart(a, size, s, blocks[s])
  }

  /** The rest of a scan: blocks in address order, all at or above the cursor. */
  ghost predicate Scan(starts: seq<nat>, blocks: map<nat, nat>, cursor: nat, limit: nat) {
    (forall s :: s in starts ==> s in blocks && cursor <= s && s + blocks[s] <= limit)
    && Ascending(starts) && Disjoint(blocks) && cursor <= limit
  }

  lemma ScanNext(starts: seq<nat>, blocks: map<nat, nat>, cursor: nat, limit: nat)
    requires Scan(starts, blocks, cursor, limit) && starts != []
    ensures var c := starts[0] + blocks[starts[0]];
            cursor <= starts[0] && c <= limit && Scan(starts[1..], blocks, c, limit)
  {
    var (s0, rest) := (starts[0], starts[1..]);
    forall s | s in rest
      ensures s0 < s && s in starts && s0 + blocks[s0] <= s
    {
      assert s0 < s;
      assert Apart(s0, blocks[s0], s, blocks[s]);
    }
  }

  lemma GapsNext(starts: seq<nat>, blocks: map<nat, nat>, cursor: nat, limit: nat)
    requires Scan(starts, blocks, cursor, limit) && starts != []
    ensures GapsFrom(starts, blocks, cursor, limit)
            == (if starts[0] > cursor then [Gap(cursor, starts[0] - cursor)] else [])
               + GapsFrom(starts[1..], blocks, starts[0] + blocks[starts[0]], limit)
  {
  }

  // ---- the gaps are the free space ------------------------------------------------

  ghost predicate InBlock(starts: seq<nat>, blocks: map<nat, nat>, x: nat)
    requires forall s :: s in starts ==> s in blocks
  {
    exists s :: s in starts && s <= x < s + blocks[s]
  }

  ghost predicate InGap(gaps: seq<Gap>, x: nat) {
    exists i :: 0 <= i < |gaps| && gaps[i].start <= x < gaps[i].start + gaps[i].size
  }

  /** Non-empty gaps in address order between `lo` and `hi`. */
  ghost predicate Ordered(gaps: seq<Gap>, lo: nat, hi: nat) {
    (forall i :: 0 <= i < |gaps| ==> lo <= gaps[i].start && gaps[i].size > 0 && gaps[i].start + gaps[i].size <= hi)
    && forall i, j :: 0 <= i < j < |gaps| ==> gaps[i].start + gaps[i].size <= gaps[j].start
  }

  lemma OrderedCons(g: Gap, gaps: seq<Gap>, lo: nat, hi: nat)
    requires Ordered(gaps, g.start + g.size, hi) && lo <= g.start && g.size > 0 && g.start + g.size <= hi
    ensures Ordered([g] + gaps, lo, hi)
  {
    var t := [g] + gaps;
    forall i, j | 0 <= i < j < |t|
      ensures t[i].start + t[i].size <= t[j].start
    {
      assert t[j] == gaps[j - 1] && (i > 0 ==> t[i] == gaps[i - 1]);
    }
  }

  lemma OrderedLower(gaps: seq<Gap>, lo: nat, mid: nat, hi: nat)
    requires Ordered(gaps, mid, hi) && lo <= mid
    ensures Ordered(gaps, lo, hi)
  {
  }

  lemma GapsNone(blocks: map<nat, nat>, cursor: nat, limit: nat)
    requires cursor <= limit
    ensures Ordered(GapsFrom([], blocks, cursor, limit), cursor, limit)
    ensures forall x: nat :: InGap(GapsFrom([], blocks, cursor, limit), x) <==> cursor <= x < limit
  {
    var g := GapsFrom([], blocks, cursor, limit);
    forall x: nat | cursor <= x < limit
      ensures InGap(g, x)
    {
      assert g[0].start <= x < g[0].start + g[0].size;
    }
  }

  lemma {:induction false} GapsOrdered(starts: seq<nat>, blocks: map<nat, nat>, cursor: nat, limit: nat)
    requires Scan(starts, blocks, cursor, limit)
    ensures Ordered(GapsFrom(starts, blocks, cursor, limit), cursor, limit)
    decreases |starts|
  {
    hide *;
    ScanBound(starts, blocks, cursor, limit);
    ScanStarts(starts, blocks, cursor, limit);
    if |starts| == 0 {
      assert starts == [];
      GapsNone(blocks, cursor, limit);
    } else {
      ScanNext(starts, blocks, cursor, limit);
      GapsNext(starts, blocks, cursor, limit);
      var seg, c := starts[0], starts[0] + blocks[starts[0]];
      var rest := GapsFrom(starts[1..], blocks, c, limit);
      GapsOrdered(starts[1..], blocks, c, limit);
      OrderedLower(rest, seg, c, limit);
      if seg > cursor {
        OrderedCons(Gap(cursor, seg - cursor), rest, cursor, limit);
      } else {
        assert [] + rest == rest;
      }
    }
  }

  lemma InGapCons(g: Gap, gaps: seq<Gap>, x: nat)
    ensures InGap([g] + gaps, x) <==> g.start <= x < g.start + g.size || InGap(gaps, x)
  {
    var t := [g] + gaps;
    if g.start <= x < g.start + g.size {
      assert t[0].start <= x < t[0].start + t[0].size;
    }
    if InGap(gaps, x) {
      var i :| 0 <= i < |gaps| && gaps[i].start <= x < gaps[i].start + gaps[i].size;
      assert t[i + 1] == gaps[i];
    }
    if InGap(t, x) {
      var i :| 0 <= i < |t| && t[i].start <= x < t[i].start + t[i].size;
      assert i > 0 ==> t[i] == gaps[i - 1];
    }
  }

  lemma InBlockCons(starts: seq<nat>, blocks: map<nat, nat>, x: nat)
    requires starts != [] && forall s :: s in starts ==> s in blocks
    ensures InBlock(starts, blocks, x)
            <==> starts[0] <= x < starts[0] + blocks[starts[0]] || InBlock(starts[1..], blocks, x)
  {
    assert forall s :: s in starts <==> s == starts[0] || s in starts[1..];
  }

  lemma BlocksAbove(starts: seq<nat>, blocks: map<nat, nat>, cursor: nat, limit: nat, x: nat)
    requires Scan(starts, blocks, cursor, limit) && x < cursor
    ensures !InBlock(starts, blocks, x)
  {
  }

  lemma GapsAbove(gaps: seq<Gap>, lo: nat, hi: nat, x: nat)
    requires Ordered(gaps, lo, hi) && InGap(gaps, x)
    ensures lo <= x < hi
  {
  }

  lemma NoBlocks(blocks: map<nat, nat>, x: nat)
    ensures !InBlock([], blocks, x)
  {
  }

  lemma ScanStarts(starts: seq<nat>, blocks: map<nat, nat>, cursor: nat, limit: nat)
    requires Scan(starts, blocks, cursor, limit)
    ensures forall s :: s in starts ==> s in blocks
  {
  }

  /** From the cursor to the end of memory every paragraph is in a block or in a gap, never in both. */
  lemma {:induction false} GapsAreFree(starts: seq<nat>, blocks: map<nat, nat>, cursor: nat, limit: nat, x: nat)
    requires Scan(starts, blocks, cursor, limit) && cursor <= x < limit
    ensures InGap(GapsFrom(starts, blocks, cursor, limit), x) <==> !InBlock(starts, blocks, x)
    decreases |starts|
  {
    hide *;
    ScanStarts(starts, blocks, cursor, limit);
    if |starts| == 0 {
      assert starts == [];
      GapsNone(blocks, cursor, limit);
      NoBlocks(blocks, x);
    } else {
      ScanNext(starts, blocks, cursor, limit);
      GapsNext(starts, blocks, cursor, limit);
      var seg, c := starts[0], starts[0] + blocks[starts[0]];
      var rest := GapsFrom(starts[1..], blocks, c, limit);
      InBlockCons(starts, blocks, x);
      if seg > cursor {
        InGapCons(Gap(cursor, seg - cursor), rest, x);
      } else {
        assert [] + rest == rest;
      }
      if x >= c {
        GapsAreFree(starts[1..], blocks, c, limit, x);
      } else {
        BlocksAbove(starts[1..], blocks, c, limit, x);
        GapsOrdered(starts[1..], blocks, c, limit);
        if InGap(rest, x) {
          GapsAbove(rest, c, limit, x);
        }
      }
    }
  }

  // ---- first fit ------------------------------------------------------------------

  /** What a search for `size` paragraphs from `cursor` up must answer. */
  ghost predicate LowestFit(starts: seq<nat>, blocks: map<nat, nat>, cursor: nat, limit: nat, size: nat, r: Option<nat>)
    requires forall s :: s in starts ==> s in blocks
  {
    match r
    case None => forall a :: a >= cursor ==> !Fits(starts, blocks, limit, a, size)
    case Some(s) =>
      s >= cursor && Fits(starts, blocks, limit, s, size)
      && forall a :: cursor <= a < s ==> !Fits(starts, blocks, limit, a, size)
  }

  lemma FitsCons(starts: seq<nat>, blocks: map<nat, nat>, limit: nat, a: nat, size: nat)
    requires starts != [] && forall s :: s in starts ==> s in blocks
    ensures Fits(starts, blocks, limit, a, size)
            <==> Apart(a, size, starts[0], blocks[starts[0]]) && Fits(starts[1..], blocks, limit, a, size)
  {
    assert forall s :: s in starts <==> s == starts[0] || s in starts[1..];
  }

  lemma FirstFitNone(blocks: map<nat, nat>, cursor: nat, limit: nat, size: nat)
    requires cursor <= limit && size > 0
    ensures LowestFit([], blocks, cursor, limit, size, FirstFit(GapsFrom([], blocks, cursor, limit), size))
  {
    if cursor < limit {
      var g := Gap(cursor, limit - cursor);
      assert GapsFrom([], blocks, cursor, limit) == [g] == [g] + [];
      FirstFitCons(g, [], size);
    }
  }

  lemma FirstFitCons(g: Gap, gaps: seq<Gap>, size: nat)
    ensures FirstFit([g] + gaps, size) == if g.size >= size then Some(g.start) else FirstFit(gaps, size)
  {
    assert ([g] + gaps)[1..] == gaps;
  }

  /** The gap below the first block takes the request. */
  lemma FitsBelow(starts: seq<nat>, blocks: map<nat, nat>, cursor: nat, limit: nat, size: nat)
    requires Scan(starts, blocks, cursor, limit) && starts != [] && cursor + size <= starts[0]
    ensures Fits(starts, blocks, limit, cursor, size)
  {
    assert starts[0] in starts;
    forall s | s in starts
      ensures Apart(cursor, size, s, blocks[s])
    {
      var i :| 0 <= i < |starts| && starts[i] == s;
      assert starts[0] <= starts[i];
    }
  }

  /** Too small a gap below the first block: the search moves past that block. */
  lemma FitsOnlyAbove(starts: seq<nat>, blocks: map<nat, nat>, cursor: nat, limit: nat, size: nat, r: Option<nat>)
    requires Scan(starts, blocks, cursor, limit) && starts != [] && size > 0 && cursor + size > starts[0] >= cursor
    requires var c := starts[0] + blocks[starts[0]];
             (forall s :: s in starts[1..] ==> s in blocks) && LowestFit(starts[1..], blocks, c, limit, size, r)
    ensures LowestFit(starts, blocks, cursor, limit, size, r)
  {
    forall a: nat | a >= cursor
      ensures Fits(starts, blocks, limit, a, size)
              <==> a >= starts[0] + blocks[starts[0]] && Fits(starts[1..], blocks, limit, a, size)
    {
      FitsCons(starts, blocks, limit, a, size);
    }
    hide Fits, Scan;
  }

  lemma LowestFitHere(starts: seq<nat>, blocks: map<nat, nat>, cursor: nat, limit: nat, size: nat)
    requires (forall s :: s in starts ==> s in blocks) && Fits(starts, blocks, limit, cursor, size)
    ensures LowestFit(starts, blocks, cursor, limit, size, Some(cursor))
  {
  }

  /** The first gap that is large enough starts at the lowest address that fits; no such gap, no such address. */
  lemma {:induction false} FirstFitIsLowest(starts: seq<nat>, blocks: map<nat, nat>, cursor: nat, limit: nat, size: nat)
    requires Scan(starts, blocks, cursor, limit) && size > 0
    ensures LowestFit(starts, blocks, cursor, limit, size, FirstFit(GapsFrom(starts, blocks, cursor, limit), size))
    decreases |starts|
  {
    hide *;
    ScanStarts(starts, blocks, cursor, limit);
    if |starts| == 0 {
      assert starts == [];
      ScanBound(starts, blocks, cursor, limit);
      FirstFitNone(blocks, cursor, limit, size);
    } else {
      ScanNext(starts, blocks, cursor, limit);
      GapsNext(starts, blocks, cursor, limit);
      var seg, c := starts[0], starts[0] + blocks[starts[0]];
      var rest := GapsFrom(starts[1..], blocks, c, limit);
      FirstFitIsLowest(starts[1..], blocks, c, limit, size);
      if seg > cursor {
        FirstFitCons(Gap(cursor, seg - cursor), rest, size);
      } else {
        assert [] + rest == rest;
      }
      if cursor + size <= seg {
        FitsBelow(starts, blocks, cursor, limit, size);
        LowestFitHere(starts, blocks, cursor, limit, size);
      } else {
        FitsOnlyAbove(starts, blocks, cursor, limit, size, FirstFit(rest, size));
      }
    }
  }

  lemma ScanBound(starts: seq<nat>, blocks: map<nat, nat>, cursor: nat, limit: nat)
    requires Scan(starts, blocks, cursor, limit)
    ensures cursor <= limit
  {
  }

  /** The scan of a whole table. */
  ghost predicate WholeScan(d: Dos) {
    var starts := Sorted(d.blocks.Keys);
    (forall s :: s in starts <==> s in d.blocks) && Scan(starts, d.blocks, Floor(d), d.limit)
  }

  lemma ValidScan(d: Dos, psp: nat)
    requires Valid(d, psp)
    ensures WholeScan(d)
  {
    if d.blocks != map[] {
      assert d.blocks.Keys != {} by { var k :| k in d.blocks; assert k in d.blocks.Keys; }
      assert Floor(d) in d.blocks;
    }
  }

  /** Allocation looks from the lowest block up, or from where the next one would go if there is none. */
  lemma FloorIs(d: Dos)
    ensures d.blocks == map[] ==> Floor(d) == d.nextAlloc
    ensures d.blocks != map[] ==> Floor(d) in d.blocks && forall b :: b in d.blocks ==> Floor(d) <= b
  {
  }

  /** `size` paragraphs at `a` are free, and no empty block sits among them. */
  ghost predicate FreeAt(d: Dos, a: nat, size: nat) {
    a + size <= d.limit && forall b :: b in d.blocks ==> Apart(a, size, b, d.blocks[b])
  }

  lemma FreeIsFits(d: Dos, a: nat, size: nat)
    requires WholeScan(d)
    ensures FreeAt(d, a, size) == Fits(Sorted(d.blocks.Keys), d.blocks, d.limit, a, size)
  {
  }

  /** The lowest free place from the floor up, or none at all. */
  ghost predicate LowestFree(d: Dos, size: nat, r: Option<nat>) {
    match r
    case None => forall a :: a >= Floor(d) ==> !FreeAt(d, a, size)
    case Some(s) => s >= Floor(d) && FreeAt(d, s, size) && forall a :: Floor(d) <= a < s ==> !FreeAt(d, a, size)
  }

  lemma FindIsLowest(d: Dos, psp: nat, size: nat)
    requires Valid(d, psp) && size > 0
    ensures LowestFree(d, size, FirstFit(FreeGaps(d), size))
  {
    ValidScan(d, psp);
    var starts := Sorted(d.blocks.Keys);
    FirstFitIsLowest(starts, d.blocks, Floor(d), d.limit, size);
    forall a: nat
      ensures FreeAt(d, a, size) == Fits(starts, d.blocks, d.limit, a, size)
    {
      FreeIsFits(d, a, size);
    }
    hide Sorted, Floor, FreeAt, Fits, Scan, Valid, WholeScan, GapsFrom, FirstFit;
  }

  lemma {:induction false} LargestDecides(gaps: seq<Gap>, size: nat)
    requires size > 0
    ensures FirstFit(gaps, size).Some? == (size <= LargestOf(gaps))
  {
    if gaps != [] {
      LargestDecides(gaps[1..], size);
    }
  }

  /** Some place from the floor up has room for `n` paragraphs. */
  ghost predicate CanMeet(d: Dos, n: nat) {
    exists a :: a >= Floor(d) && FreeAt(d, a, n)
  }

  /** A request of `n` paragraphs can be met exactly when `n` is at most `m`. */
  ghost predicate TrueMaximum(d: Dos, m: nat) {
    forall n :: n > 0 ==> (n <= m <==> CanMeet(d, n))
  }

  lemma LowestFreeExists(d: Dos, n: nat, r: Option<nat>)
    requires LowestFree(d, n, r)
    ensures r.Some? == CanMeet(d, n)
  {
  }

  lemma LargestMeets(d: Dos, psp: nat, n: nat)
    requires Valid(d, psp) && n > 0
    ensures n <= LargestOf(FreeGaps(d)) <==> CanMeet(d, n)
  {
    hide *;
    FindIsLowest(d, psp, n);
    LargestDecides(FreeGaps(d), n);
    LowestFreeExists(d, n, FirstFit(FreeGaps(d), n));
  }

  lemma LargestIsMaximum(d: Dos, psp: nat)
    requires Valid(d, psp)
    ensures TrueMaximum(d, LargestOf(FreeGaps(d)))
  {
    hide LargestOf, FreeGaps, CanMeet, Valid;
    forall n: nat | n > 0
      ensures n <= LargestOf(FreeGaps(d)) <==> CanMeet(d, n)
    {
      LargestMeets(d, psp, n);
    }
  }

  /** The reported size fits BX. */
  lemma MaximumFits(d: Dos, psp: nat, m: nat)
    requires Valid(d, psp) && TrueMaximum(d, m)
    ensures m < PARAGRAPHS
  {
    if m > 0 {
      assert CanMeet(d, m);
      var a :| a >= Floor(d) && FreeAt(d, a, m);
    }
  }

  // ---- every call ----------------------------------------------------------------

  /** A block placed on free space keeps the table disjoint. */
  lemma PlaceKeeps(d: Dos, psp: nat, seg: nat, size: nat)
    requires Valid(d, psp) && psp <= seg && seg + size <= d.limit
    requires forall b :: b in d.blocks && b != seg ==> Apart(seg, size, b, d.blocks[b])
    ensures Valid(d.(blocks := d.blocks[seg := size]), psp)
  {
  }

  lemma FloorAbovePsp(d: Dos, psp: nat)
    requires Valid(d, psp)
    ensures psp <= Floor(d)
  {
    if d.blocks != map[] {
      assert d.blocks.Keys != {} by { var k :| k in d.blocks; assert k in d.blocks.Keys; }
    }
  }

  /** What AH=48h promises. */
  ghost predicate Allocated(d: Dos, paragraphs: nat, d': Dos, r: Reply) {
    match r
    case Ok(seg) =>
      paragraphs > 0 && LowestFree(d, paragraphs, Some(seg)) && d' == d.(blocks := d.blocks[seg := paragraphs])
    case Done => false
    case Fail(ax, bx) =>
      ax == 8 && d' == d && TrueMaximum(d, bx) && (paragraphs > 0 ==> LowestFree(d, paragraphs, None))
  }

  lemma SmallMod(m: nat)
    requires m < PARAGRAPHS
    ensures m % PARAGRAPHS == m
  {
  }

  lemma FailedAllocate(d: Dos, psp: nat, paragraphs: nat)
    requires Valid(d, psp) && (paragraphs > 0 ==> LowestFree(d, paragraphs, None))
    ensures Allocated(d, paragraphs, d, Fail(8, LargestOf(FreeGaps(d)) % PARAGRAPHS))
  {
    hide LargestOf, FreeGaps, TrueMaximum, LowestFree, Valid, CanMeet;
    LargestIsMaximum(d, psp);
    MaximumFits(d, psp, LargestOf(FreeGaps(d)));
    SmallMod(LargestOf(FreeGaps(d)));
  }

  lemma PlacedAllocate(d: Dos, psp: nat, paragraphs: nat, seg: nat)
    requires Valid(d, psp) && paragraphs > 0 && LowestFree(d, paragraphs, Some(seg))
    ensures Larger(seg + paragraphs, d.nextAlloc) == d.nextAlloc
    ensures Valid(d.(blocks := d.blocks[seg := paragraphs]), psp)
  {
    FloorAbovePsp(d, psp);
    hide Floor;
    PlaceKeeps(d, psp, seg, paragraphs);
  }

  /** Allocation takes the lowest unsplit free place, fails only when there is none and reports the largest size that has one. */
  lemma AllocateMeans(d: Dos, psp: nat, paragraphs: nat)
    requires Valid(d, psp)
    ensures var (d', r) := Allocate(d, paragraphs); Allocated(d, paragraphs, d', r) && Valid(d', psp)
  {
    hide FreeGaps, LargestOf, FirstFit, Valid, Allocated, LowestFree, Larger;
    if paragraphs == 0 {
      FailedAllocate(d, psp, 0);
    } else {
      FindIsLowest(d, psp, paragraphs);
      match FirstFit(FreeGaps(d), paragraphs) {
        case None => FailedAllocate(d, psp, paragraphs);
        case Some(seg) =>
          PlacedAllocate(d, psp, paragraphs, seg);
          assert Allocated(d, paragraphs, d.(blocks := d.blocks[seg := paragraphs]), Ok(seg)) by {
            AllocatedAt(d, paragraphs, seg);
          }
      }
    }
  }

  lemma AllocatedAt(d: Dos, paragraphs: nat, seg: nat)
    requires paragraphs > 0 && LowestFree(d, paragraphs, Some(seg))
    ensures Allocated(d, paragraphs, d.(blocks := d.blocks[seg := paragraphs]), Ok(seg))
  {
  }

  lemma FreeMeans(d: Dos, psp: nat, seg: nat)
    requires Valid(d, psp)
    ensures Valid(Free(d, seg), psp)
  {
  }

  /** Freeing what was just allocated restores the table, unless the block took the place of an empty one. */
  lemma FreeUndoesAllocate(d: Dos, psp: nat, paragraphs: nat)
    requires Valid(d, psp) && Allocate(d, paragraphs).1.Ok?
    ensures var (d', r) := Allocate(d, paragraphs);
            if r.ax in d.blocks then d.blocks[r.ax] == 0 && Free(d', r.ax) == Free(d, r.ax)
            else Free(d', r.ax) == d
  {
    hide *;
    AllocateMeans(d, psp, paragraphs);
    var (d', r) := Allocate(d, paragraphs);
    UndoPlaced(d, paragraphs, r.ax, d', r);
  }

  lemma UndoPlaced(d: Dos, paragraphs: nat, seg: nat, d': Dos, r: Reply)
    requires r == Ok(seg) && Allocated(d, paragraphs, d', r)
    ensures if seg in d.blocks then d.blocks[seg] == 0 && Free(d', seg) == Free(d, seg) else Free(d', seg) == d
  {
    assert FreeAt(d, seg, paragraphs);
    assert Free(d', seg).blocks == d.blocks - {seg};
  }

  // ---- resizing ------------------------------------------------------------------

  /** The block at `seg` could have `size` paragraphs. */
  ghost predicate Room(d: Dos, seg: nat, size: nat) {
    seg + size <= d.limit && forall b :: b in d.blocks && b != seg ==> Apart(seg, size, b, d.blocks[b])
  }

  lemma NextUsedIs(d: Dos, psp: nat, a: nat)
    requires Valid(d, psp)
    ensures forall b :: b in d.blocks && b >= a ==> NextUsed(d, a) <= b
    ensures NextUsed(d, a) == d.limit || (NextUsed(d, a) in d.blocks && NextUsed(d, a) >= a)
  {
    var above := set s | s in d.blocks && s >= a;
    forall b | b in d.blocks && b >= a
      ensures b in above && NextUsed(d, a) <= b
    {
      assert b in above;
    }
  }

  /** Up to the next block, or the end of memory, there is room, and no further. */
  lemma RoomIsBelowNext(d: Dos, psp: nat, seg: nat, size: nat)
    requires Valid(d, psp) && seg in d.blocks && d.blocks[seg] > 0 && size >= d.blocks[seg]
    ensures Room(d, seg, size) <==> seg + size <= NextUsed(d, seg + d.blocks[seg]) && seg + size <= d.limit
  {
    var oldEnd := seg + d.blocks[seg];
    var next := NextUsed(d, oldEnd);
    NextUsedIs(d, psp, oldEnd);
    hide NextUsed;
    forall b | b in d.blocks && b != seg
      ensures b < oldEnd ==> b + d.blocks[b] <= seg
    {
      assert Apart(seg, d.blocks[seg], b, d.blocks[b]);
    }
    if next in d.blocks && Room(d, seg, size) {
      assert Apart(seg, size, next, d.blocks[next]);
    }
  }

  lemma ShrinkKeepsRoom(d: Dos, psp: nat, seg: nat, size: nat)
    requires Valid(d, psp) && seg in d.blocks && size <= d.blocks[seg]
    ensures Room(d, seg, size) && psp <= seg
  {
    forall b | b in d.blocks && b != seg
      ensures Apart(seg, size, b, d.blocks[b])
    {
      assert Apart(seg, d.blocks[seg], b, d.blocks[b]);
    }
  }

  /** What AH=4Ah promises; a block of no paragraphs is its own neighbour and never grows. */
  ghost predicate Resized(d: Dos, seg: nat, size: nat, d': Dos, r: Reply) {
    if seg !in d.blocks then d' == d && r == Fail(7, size)
    else if size <= d.blocks[seg] || (d.blocks[seg] > 0 && Room(d, seg, size)) then
      r == Done && d' == d.(blocks := d.blocks[seg := size])
    else
      d' == d && r.Fail? && r.ax == 8
      && if d.blocks[seg] == 0 then r.bx == 0
         else d.blocks[seg] <= r.bx && forall n: nat :: Room(d, seg, n) <==> n <= r.bx
  }

  /** The reported size is the largest the block could have. */
  lemma ReportedRoom(d: Dos, psp: nat, seg: nat)
    requires Valid(d, psp) && seg in d.blocks && d.blocks[seg] > 0
    ensures var top := Smaller(NextUsed(d, seg + d.blocks[seg]), d.limit);
            seg + d.blocks[seg] <= top && (top - seg) % PARAGRAPHS == top - seg
            && forall n: nat :: Room(d, seg, n) <==> n <= top - seg
  {
    var oldEnd := seg + d.blocks[seg];
    NextUsedIs(d, psp, oldEnd);
    forall n: nat
      ensures Room(d, seg, n) <==> n <= Smaller(NextUsed(d, oldEnd), d.limit) - seg
    {
      if n >= d.blocks[seg] {
        RoomIsBelowNext(d, psp, seg, n);
      } else {
        ShrinkKeepsRoom(d, psp, seg, n);
      }
      hide Room, NextUsed;
    }
  }

  lemma GrowFailure(d: Dos, psp: nat, seg: nat, size: nat)
    requires Valid(d, psp) && seg in d.blocks && size > d.blocks[seg] > 0 && !Room(d, seg, size)
    ensures Resized(d, seg, size, d, Fail(8, (Smaller(NextUsed(d, seg + d.blocks[seg]), d.limit) - seg) % PARAGRAPHS))
  {
    ReportedRoom(d, psp, seg);
    hide NextUsed, Smaller, Room, Valid;
  }

  /** An empty block's own start is the next used segment. */
  lemma EmptyIsItsOwnNeighbour(d: Dos, psp: nat, seg: nat)
    requires Valid(d, psp) && seg in d.blocks && d.blocks[seg] == 0
    ensures NextUsed(d, seg) == seg <= d.limit
  {
    NextUsedIs(d, psp, seg);
    var above := set s | s in d.blocks && s >= seg;
    assert seg in above;
  }

  lemma GrowMeans(d: Dos, psp: nat, seg: nat, size: nat)
    requires Valid(d, psp) && seg in d.blocks && size > d.blocks[seg]
    ensures var (d', r) := Resize(d, seg, size); Resized(d, seg, size, d', r) && Valid(d', psp)
  {
    hide NextUsed;
    if d.blocks[seg] == 0 {
      EmptyIsItsOwnNeighbour(d, psp, seg);
    } else {
      RoomIsBelowNext(d, psp, seg, size);
      if Room(d, seg, size) {
        PlaceKeeps(d, psp, seg, size);
      } else {
        GrowFailure(d, psp, seg, size);
      }
    }
    hide Valid, Room, Smaller;
  }

  /**
   Shrinking always succeeds; growing a block that holds something succeeds exactly when
   there is room, and a refusal reports the largest size there is room for.
   */
  lemma ResizeMeans(d: Dos, psp: nat, seg: nat, size: nat)
    requires Valid(d, psp)
    ensures var (d', r) := Resize(d, seg, size); Resized(d, seg, size, d', r) && Valid(d', psp)
  {
    if seg in d.blocks {
      if size > d.blocks[seg] {
        hide *;
        GrowMeans(d, psp, seg, size);
      } else {
        ShrinkKeepsRoom(d, psp, seg, size);
        PlaceKeeps(d, psp, seg, size);
        hide Valid, NextUsed, Room;
      }
    }
  }

  /** So a block resized to nothing cannot be given back its space, although the space is free. */
  lemma EmptiedBlockCannotGrow(d: Dos, psp: nat, seg: nat, size: nat)
    requires Valid(d, psp) && seg in d.blocks && 0 < size <= d.blocks[seg]
    ensures var d' := Resize(d, seg, 0).0;
            Room(d', seg, size) && Resize(d', seg, size) == (d', Fail(8, 0))
  {
    var d' := Resize(d, seg, 0).0;
    ResizeMeans(d, psp, seg, 0);
    ResizeMeans(d', psp, seg, size);
    ShrinkKeepsRoom(d, psp, seg, size);
  }

  // ---- what empty blocks do ------------------------------------------------------------

  /** No block holds any of the `size` paragraphs at `a`. */
  ghost predicate Untaken(d: Dos, a: nat, size: nat) {
    a + size <= d.limit && forall x: nat :: a <= x < a + size ==> !Taken(d, x)
  }

  /** A block of no paragraphs sits strictly inside. */
  ghost predicate Split(d: Dos, a: nat, size: nat) {
    exists b :: b in d.blocks && d.blocks[b] == 0 && a < b < a + size
  }

  lemma TakenBy(d: Dos, b: nat, x: nat)
    requires b in d.blocks && b <= x < b + d.blocks[b]
    ensures Taken(d, x)
  {
  }

  lemma UntakenIsApart(d: Dos, a: nat, size: nat, b: nat)
    requires size > 0 && b in d.blocks && d.blocks[b] > 0
    ensures Untaken(d, a, size) ==> Apart(a, size, b, d.blocks[b])
  {
    if b <= a < b + d.blocks[b] {
      TakenBy(d, b, a);
    } else if a <= b < a + size {
      TakenBy(d, b, b);
    }
    hide Taken;
  }

  /** An empty block among free paragraphs is all that can keep them from being one free place. */
  lemma FreeIsUnsplit(d: Dos, a: nat, size: nat)
    requires size > 0
    ensures FreeAt(d, a, size) <==> Untaken(d, a, size) && !Split(d, a, size)
  {
    if Untaken(d, a, size) && !Split(d, a, size) {
      forall b | b in d.blocks
        ensures Apart(a, size, b, d.blocks[b])
      {
        if d.blocks[b] > 0 {
          UntakenIsApart(d, a, size, b);
        }
      }
    }
    if FreeAt(d, a, size) {
      forall b | b in d.blocks
        ensures Apart(a, size, b, d.blocks[b])
      {
      }
    }
  }

  /** So it is with the room a block can grow into. */
  lemma RoomIsUnsplit(d: Dos, seg: nat, size: nat)
    requires size > 0
    ensures Room(d, seg, size) <==> Untaken(Free(d, seg), seg, size) && !Split(Free(d, seg), seg, size)
  {
    var rest := Free(d, seg);
    FreeIsUnsplit(rest, seg, size);
    assert forall b :: b in rest.blocks <==> b in d.blocks && b != seg;
    assert Room(d, seg, size) == FreeAt(rest, seg, size);
  }

  /** Enough free paragraphs in one piece, empty blocks or not. */
  ghost predicate RoomFor(d: Dos, n: nat) {
    exists a :: a >= Floor(d) && Untaken(d, a, n)
  }

  ghost predicate EveryRunSplit(d: Dos, n: nat) {
    forall a :: a >= Floor(d) && Untaken(d, a, n) ==> Split(d, a, n)
  }

  lemma MeetableUnlessSplit(d: Dos, n: nat)
    requires n > 0
    ensures CanMeet(d, n) <==> !EveryRunSplit(d, n)
  {
    forall a: nat
      ensures FreeAt(d, a, n) <==> Untaken(d, a, n) && !Split(d, a, n)
    {
      FreeIsUnsplit(d, a, n);
    }
    hide FreeAt, Untaken, Split, Floor;
  }

  /** Allocation fails exactly when every run of free paragraphs that fits is split by an empty block. */
  lemma AllocateFailsExactly(d: Dos, psp: nat, n: nat)
    requires Valid(d, psp) && n > 0
    ensures Allocate(d, n).1.Fail? <==> EveryRunSplit(d, n)
  {
    hide *;
    AllocateMeans(d, psp, n);
    MeetableUnlessSplit(d, n);
    AllocatedDecides(d, n, Allocate(d, n).0, Allocate(d, n).1);
  }

  lemma AllocatedDecides(d: Dos, n: nat, d': Dos, r: Reply)
    requires n > 0 && Allocated(d, n, d', r)
    ensures r.Fail? <==> !CanMeet(d, n)
  {
    hide FreeAt, Floor, TrueMaximum;
  }

  /** The failure reports the longest run there is exactly when no size has all of its runs split. */
  lemma ReportsLongestExactly(d: Dos, psp: nat)
    requires Valid(d, psp)
    ensures (forall n :: n > 0 ==> (n <= LargestOf(FreeGaps(d)) <==> RoomFor(d, n)))
            <==> forall n :: n > 0 && RoomFor(d, n) ==> !EveryRunSplit(d, n)
  {
    hide *;
    forall n: nat | n > 0
      ensures n <= LargestOf(FreeGaps(d)) <==> !EveryRunSplit(d, n)
      ensures !EveryRunSplit(d, n) ==> RoomFor(d, n)
    {
      LargestMeets(d, psp, n);
      MeetableUnlessSplit(d, n);
      if !EveryRunSplit(d, n) {
        UnsplitIsRoom(d, n);
      }
    }
  }

  lemma UnsplitIsRoom(d: Dos, n: nat)
    requires !EveryRunSplit(d, n)
    ensures RoomFor(d, n)
  {
    hide Untaken, Split, Floor;
  }

  /** Without empty blocks, room is room. */
  lemma NoEmptyBlocks(d: Dos, n: nat)
    requires forall b :: b in d.blocks ==> d.blocks[b] > 0
    ensures RoomFor(d, n) <==> !EveryRunSplit(d, n)
  {
    hide Untaken, Floor;
  }

  lemma AllocatesAt(d: Dos, psp: nat, n: nat, seg: nat)
    requires Valid(d, psp) && n > 0 && seg >= Floor(d) && FreeAt(d, seg, n)
    requires forall a :: Floor(d) <= a < seg ==> !FreeAt(d, a, n)
    ensures Allocate(d, n) == (d.(blocks := d.blocks[seg := n]), Ok(seg))
  {
    hide *;
    AllocateMeans(d, psp, n);
    LowestIs(d, n, seg, Allocate(d, n).0, Allocate(d, n).1);
  }

  lemma LowestIs(d: Dos, n: nat, seg: nat, d': Dos, r: Reply)
    requires n > 0 && Allocated(d, n, d', r) && seg >= Floor(d) && FreeAt(d, seg, n)
    requires forall a :: Floor(d) <= a < seg ==> !FreeAt(d, a, n)
    ensures r == Ok(seg) && d' == d.(blocks := d.blocks[seg := n])
  {
    hide FreeAt, Floor, TrueMaximum;
  }

  // ---- runs ----------------------------------------------------------------------

  datatype Call = CallAllocate(paragraphs: nat) | CallFree(seg: nat) | CallResize(seg: nat, size: nat)

  function Step(d: Dos, c: Call): Dos {
    match c
    case CallAllocate(paragraphs) => Allocate(d, paragraphs).0
    case CallFree(seg) => Free(d, seg)
    case CallResize(seg, size) => Resize(d, seg, size).0
  }

  function Run(d: Dos, calls: seq<Call>): Dos
    decreases |calls|
  {
    if calls == [] then d else Run(Step(d, calls[0]), calls[1..])
  }

  /** The table a process starts with: one block that holds the PSP and all memory above it. */
  function Seeded(psp: nat, top: nat): Dos
    requires psp < top
  {
    Dos(map[psp := top - psp], top, top)
  }

  lemma {:induction false} RunKeepsValid(d: Dos, psp: nat, calls: seq<Call>)
    requires Valid(d, psp)
    ensures Valid(Run(d, calls), psp)
    decreases |calls|
  {
    if calls != [] {
      hide Allocate, Resize, Valid;
      match calls[0] {
        case CallAllocate(paragraphs) => AllocateMeans(d, psp, paragraphs);
        case CallFree(seg) => FreeMeans(d, psp, seg);
        case CallResize(seg, size) => ResizeMeans(d, psp, seg, size);
      }
      RunKeepsValid(Step(d, calls[0]), psp, calls[1..]);
    }
  }

  /** Live blocks and the gaps the scan yields share [lo, limit) out between them. */
  ghost predicate Tiles(d: Dos, lo: nat) {
    var gaps := FreeGaps(d);
    Disjoint(d.blocks) && Ordered(gaps, lo, d.limit)
    && (forall b :: b in d.blocks ==> lo <= b && b + d.blocks[b] <= d.limit)
    && forall x: nat :: lo <= x < d.limit ==> (InGap(gaps, x) <==> !Taken(d, x))
  }

  ghost predicate Taken(d: Dos, x: nat) {
    exists b :: b in d.blocks && b <= x < b + d.blocks[b]
  }

  lemma TakenIsInBlock(d: Dos, x: nat)
    requires WholeScan(d)
    ensures Taken(d, x) == InBlock(Sorted(d.blocks.Keys), d.blocks, x)
  {
  }

  lemma GapOrTaken(d: Dos, psp: nat, x: nat)
    requires Valid(d, psp) && Floor(d) <= x < d.limit
    ensures InGap(FreeGaps(d), x) <==> !Taken(d, x)
  {
    ValidScan(d, psp);
    TakenIsInBlock(d, x);
    hide Sorted, Floor, InGap, InBlock, Taken, Scan, Valid;
    GapsAreFree(Sorted(d.blocks.Keys), d.blocks, Floor(d), d.limit, x);
  }

  lemma FloorOf(d: Dos, psp: nat)
    requires Valid(d, psp)
    ensures Floor(d) <= d.limit && forall b :: b in d.blocks ==> Floor(d) <= b
  {
    ValidScan(d, psp);
    hide Sorted, Floor;
  }

  lemma FloorTiles(d: Dos, psp: nat)
    requires Valid(d, psp)
    ensures Tiles(d, Floor(d))
  {
    ValidScan(d, psp);
    FloorOf(d, psp);
    GapsOrdered(Sorted(d.blocks.Keys), d.blocks, Floor(d), d.limit);
    forall x: nat | Floor(d) <= x < d.limit
      ensures InGap(FreeGaps(d), x) <==> !Taken(d, x)
    {
      GapOrTaken(d, psp, x);
    }
    hide Sorted, Floor, InGap, Taken, Scan, GapsFrom;
  }

  /** The scan starts at the PSP exactly while the PSP's block is live. */
  lemma FloorIsPsp(d: Dos, psp: nat)
    requires Valid(d, psp)
    ensures Floor(d) == psp <==> psp in d.blocks
  {
    if d.blocks != map[] {
      assert d.blocks.Keys != {} by { var k :| k in d.blocks; assert k in d.blocks.Keys; }
    }
  }

  lemma TilesFromPsp(d: Dos, psp: nat)
    requires Valid(d, psp)
    ensures Tiles(d, psp) <==> psp in d.blocks
  {
    FloorTiles(d, psp);
    FloorIsPsp(d, psp);
    FloorAbovePsp(d, psp);
    if psp !in d.blocks {
      hide Floor, FreeGaps;
      if Tiles(d, psp) {
        assert !Taken(d, psp);
        assert InGap(FreeGaps(d), psp);
        GapsAbove(FreeGaps(d), Floor(d), d.limit, psp);
      }
    }
  }

  /**
   Over every run of calls from the seeded table the live blocks stay disjoint, and blocks
   and gaps tile the whole of [PSP, limit) exactly while the PSP block has not been freed.
   */
  lemma RunTiles(psp: nat, top: nat, calls: seq<Call>)
    requires psp < top < PARAGRAPHS
    ensures var d := Run(Seeded(psp, top), calls);
            Valid(d, psp) && Tiles(d, Floor(d)) && (Tiles(d, psp) <==> psp in d.blocks)
  {
    SeededValid(psp, top);
    hide *;
    RunKeepsValid(Seeded(psp, top), psp, calls);
    var d := Run(Seeded(psp, top), calls);
    FloorTiles(d, psp);
    TilesFromPsp(d, psp);
  }

  lemma SeededValid(psp: nat, top: nat)
    requires psp < top < PARAGRAPHS
    ensures Valid(Seeded(psp, top), psp)
  {
  }

  // ---- a run into that corner ------------------------------------------------------------

  /** Process memory from 0 to 40: shrink, take two blocks, empty the upper one and free the lower. */
  const SPLITTING: seq<Call> :=
    [CallResize(0, 10), CallAllocate(10), CallAllocate(5), CallResize(20, 0), CallFree(10)]

  /** What the calls lead to: nothing but the PSP's block and an empty one at 20. */
  function Splitting(): Dos {
    Dos(map[0 := 10, 20 := 0], 40, 40)
  }

  lemma SplittingFree(a: nat, n: nat)
    requires 10 <= a && a + n <= 40
    ensures Untaken(Splitting(), a, n) && Floor(Splitting()) == 0
  {
    assert 0 in Splitting().blocks;
  }

  lemma SplittingSplits(a: nat)
    requires Untaken(Splitting(), a, 25)
    ensures Split(Splitting(), a, 25)
  {
    assert 20 in Splitting().blocks;
    if a < 10 {
      TakenBy(Splitting(), 0, a);
    }
  }

  lemma SplittingValid()
    ensures Valid(Splitting(), 0)
  {
  }

  /** Thirty paragraphs are free in one piece, yet twenty-five of them cannot be had. */
  lemma EmptyBlockSplitsRoom()
    ensures var d := Run(Seeded(0, 40), SPLITTING);
            Untaken(d, 10, 30) && RoomFor(d, 25) && Allocate(d, 25).1.Fail?
  {
    hide *;
    SplittingRuns();
    SplittingValid();
    SplittingFree(10, 30);
    SplittingFree(10, 25);
    RoomAt(Splitting(), 10, 25);
    forall a: nat | Untaken(Splitting(), a, 25)
      ensures Split(Splitting(), a, 25)
    {
      SplittingSplits(a);
    }
    AllSplit(Splitting(), 25);
    AllocateFailsExactly(Splitting(), 0, 25);
  }

  lemma RoomAt(d: Dos, a: nat, n: nat)
    requires a >= Floor(d) && Untaken(d, a, n)
    ensures RoomFor(d, n)
  {
  }

  lemma AllSplit(d: Dos, n: nat)
    requires forall a: nat :: Untaken(d, a, n) ==> Split(d, a, n)
    ensures EveryRunSplit(d, n)
  {
  }

  lemma ShrinkStep(d: Dos, seg: nat, size: nat)
    requires seg in d.blocks && size <= d.blocks[seg]
    ensures Step(d, CallResize(seg, size)) == d.(blocks := d.blocks[seg := size])
  {
  }

  lemma FreeStep(d: Dos, seg: nat)
    ensures Step(d, CallFree(seg)) == d.(blocks := d.blocks - {seg})
  {
  }

  lemma LastSteps(d3: Dos, d4: Dos)
    requires d3 == Dos(map[0 := 10, 10 := 10, 20 := 5], 40, 40) && d4 == Dos(map[0 := 10, 10 := 10, 20 := 0], 40, 40)
    ensures Step(d3, CallResize(20, 0)) == d4 && Step(d4, CallFree(10)) == Splitting()
  {
    ShrinkStep(d3, 20, 0);
    FreeStep(d4, 10);
    assert d4.blocks - {10} == Splitting().blocks;
    hide Step;
  }

  lemma FirstStep()
    ensures Step(Seeded(0, 40), CallResize(0, 10)) == Dos(map[0 := 10], 40, 40)
  {
    ShrinkStep(Seeded(0, 40), 0, 10);
    hide Step;
  }

  lemma SplittingCalls()
    ensures SPLITTING == [CallResize(0, 10), CallAllocate(10), CallAllocate(5), CallResize(20, 0), CallFree(10)]
  {
  }

  lemma SplittingRuns()
    ensures Run(Seeded(0, 40), SPLITTING) == Splitting()
  {
    hide *;
    var d1 := Dos(map[0 := 10], 40, 40);
    var d2 := Dos(map[0 := 10, 10 := 10], 40, 40);
    var d3 := Dos(map[0 := 10, 10 := 10, 20 := 5], 40, 40);
    var d4 := Dos(map[0 := 10, 10 := 10, 20 := 0], 40, 40);
    FirstStep();
    FirstBlock(d1);
    SecondBlock(d2);
    LastSteps(d3, d4);
    var calls := [CallResize(0, 10), CallAllocate(10), CallAllocate(5), CallResize(20, 0), CallFree(10)];
    SplittingCalls();
    RunFive(Seeded(0, 40), d1, d2, d3, d4, Splitting(), calls);
  }

  lemma FirstBlock(d: Dos)
    requires d == Dos(map[0 := 10], 40, 40)
    ensures Step(d, CallAllocate(10)) == Dos(map[0 := 10, 10 := 10], 40, 40)
  {
    assert 0 in d.blocks;
    forall x: nat | x < 10
      ensures Taken(d, x)
    {
      TakenBy(d, 0, x);
    }
    SplittingPlaces(d, 10, 10);
  }

  lemma SecondBlock(d: Dos)
    requires d == Dos(map[0 := 10, 10 := 10], 40, 40)
    ensures Step(d, CallAllocate(5)) == Dos(map[0 := 10, 10 := 10, 20 := 5], 40, 40)
  {
    assert 0 in d.blocks && 10 in d.blocks;
    forall x: nat | x < 20
      ensures Taken(d, x)
    {
      TakenBy(d, if x < 10 then 0 else 10, x);
    }
    SplittingPlaces(d, 20, 5);
  }

  lemma RunFive(d0: Dos, d1: Dos, d2: Dos, d3: Dos, d4: Dos, d5: Dos, calls: seq<Call>)
    requires |calls| == 5 && Step(d0, calls[0]) == d1 && Step(d1, calls[1]) == d2 && Step(d2, calls[2]) == d3
    requires Step(d3, calls[3]) == d4 && Step(d4, calls[4]) == d5
    ensures Run(d0, calls) == d5
  {
    hide Step;
    assert Run(d5, calls[5..]) == d5;
    assert calls[4..][1..] == calls[5..] && Run(d4, calls[4..]) == d5;
    assert calls[3..][1..] == calls[4..] && Run(d3, calls[3..]) == d5;
    assert calls[2..][1..] == calls[3..] && Run(d2, calls[2..]) == d5;
    assert calls[1..][1..] == calls[2..] && Run(d1, calls[1..]) == d5;
  }

  /** Blocks packed from 0 up to `seg`: the next one goes there. */
  lemma SplittingPlaces(d: Dos, seg: nat, n: nat)
    requires Valid(d, 0) && 0 in d.blocks && 0 < n && 0 < seg && seg + n <= d.limit
    requires (forall b :: b in d.blocks ==> b + d.blocks[b] <= seg) && forall x: nat :: x < seg ==> Taken(d, x)
    ensures Step(d, CallAllocate(n)) == d.(blocks := d.blocks[seg := n])
  {
    assert Floor(d) == 0;
    forall a: nat | a < seg
      ensures !FreeAt(d, a, n)
    {
      FreeIsUnsplit(d, a, n);
      assert Taken(d, a);
    }
    AllocatesAt(d, 0, n, seg);
  }
}
