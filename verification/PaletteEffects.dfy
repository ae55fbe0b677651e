/** From journal entries to a palette plan: the palette at the frame top and the bands below it. */
module PaletteEffects {
  import opened Memory
  import opened Journal

  const SYNC_MAX_READS := 6
  const LATE_GAP_STEPS := 256
  const MAX_PLAUSIBLE_LINE := 1024

  /** Palette writes that take effect from a scan line on; no line when the evidence cannot place them. */
  datatype Band = Band(line: Option<int>, values: map<nat, Rgb>)

  datatype Kind = Static | Split | Unresolved

  datatype Plan = Plan(kind: Kind, base: map<nat, Rgb>, bands: seq<Band>)

  predicate Sync(e: Entry) {
    e.St? && e.count <= SYNC_MAX_READS
  }

  /** `round(reads / 2)`: halves go to the even side. */
  function Lines(count: nat): nat {
    if count % 2 == 0 then count / 2
    else if count / 2 % 2 == 0 then count / 2
    else count / 2 + 1
  }

  /** `values[(start + i) & 0xFF] = rgb` for the whole group. */
  function Put(values: map<nat, Rgb>, start: nat, vals: seq<Rgb>): map<nat, Rgb> {
    if vals == [] then values
    else Put(values, start, vals[..|vals| - 1])[(start + |vals| - 1) % 256 := vals[|vals| - 1]]
  }

  // ---- meaning -----------------------------------------------------------------------

  /** The palette after a cycle's writes, in order. */
  function Shown(palette: map<nat, Rgb>, cycle: seq<Entry>): map<nat, Rgb> {
    if cycle == [] then palette
    else
      var p := Shown(palette, cycle[..|cycle| - 1]);
      match cycle[|cycle| - 1]
      case St(_, _, _) => p
      case Dac(start, vals, _, _) => Put(p, start, vals)
  }

  /** The palette after the bands, top to bottom. */
  function Applied(palette: map<nat, Rgb>, bands: seq<Band>): map<nat, Rgb> {
    if bands == [] then palette else Applied(palette, bands[..|bands| - 1]) + bands[|bands| - 1].values
  }

  /** Bands with a line come in strictly increasing line order. */
  ghost predicate Descending(bands: seq<Band>) {
    forall i, j :: 0 <= i < j < |bands| && bands[i].line.Some? && bands[j].line.Some? ==>
      bands[i].line.value < bands[j].line.value
  }

  ghost predicate UpTo(bands: seq<Band>, line: int) {
    forall i :: 0 <= i < |bands| && bands[i].line.Some? ==> bands[i].line.value <= line
  }

  lemma {:induction false} PutMerge(a: map<nat, Rgb>, b: map<nat, Rgb>, start: nat, vals: seq<Rgb>)
    ensures Put(a + b, start, vals) == a + Put(b, start, vals)
    decreases |vals|
  {
    if vals != [] {
      PutMerge(a, b, start, vals[..|vals| - 1]);
    }
  }

  lemma AppliedSnoc(palette: map<nat, Rgb>, bands: seq<Band>, b: Band)
    ensures Applied(palette, bands + [b]) == Applied(palette, bands) + b.values
  {
    assert (bands + [b])[..|bands|] == bands;
  }

  // ---- the loop over a cycle -------------------------------------------------------------

  /** Bands so far, the line reached, and the time of the last event. */
  datatype Scan = Scan(bands: seq<Band>, line: int, last: int)

  function SetLast(bands: seq<Band>, b: Band): (r: seq<Band>)
    requires bands != []
    ensures |r| == |bands|
  {
    bands[..|bands| - 1] + [b]
  }

  /** One entry of the cycle. */
  function Next(s: Scan, e: Entry): (r: Scan)
    requires s.bands != []
    ensures r.bands != []
  {
    var top := s.bands[|s.bands| - 1];
    match e
    case St(count, _, last) =>
      var line := s.line + Lines(count);
      if top.values != map[] then Scan(s.bands + [Band(Some(line), map[])], line, last)
      else Scan(SetLast(s.bands, top.(line := Some(line))), line, last)
    case Dac(start, vals, first, last) =>
      var bands := if first - s.last > LATE_GAP_STEPS && top.values != map[] then s.bands + [Band(None, map[])] else s.bands;
      var b := bands[|bands| - 1];
      Scan(SetLast(bands, b.(values := Put(b.values, start, vals))), s.line, last)
  }

  function Scanned(last: int, cycle: seq<Entry>): (r: Scan)
    ensures r.bands != []
  {
    if cycle == [] then Scan([Band(Some(0), map[])], 0, last)
    else Next(Scanned(last, cycle[..|cycle| - 1]), cycle[|cycle| - 1])
  }

  /** What the bands of a scan say about the entries scanned. */
  ghost predicate Faithful(palette: map<nat, Rgb>, s: Scan, cycle: seq<Entry>) {
    s.bands != [] && Applied(palette, s.bands) == Shown(palette, cycle)
  }

  ghost predicate InOrder(s: Scan) {
    s.bands != [] && Descending(s.bands) && UpTo(s.bands, s.line)
  }

  lemma SetLastApplied(palette: map<nat, Rgb>, bands: seq<Band>, b: Band)
    requires bands != []
    ensures Applied(palette, SetLast(bands, b)) == Applied(palette, bands[..|bands| - 1]) + b.values
    ensures Applied(palette, bands) == Applied(palette, bands[..|bands| - 1]) + bands[|bands| - 1].values
  {
    AppliedSnoc(palette, bands[..|bands| - 1], b);
  }

  lemma NextApplied(palette: map<nat, Rgb>, s: Scan, e: Entry)
    requires s.bands != []
    ensures Applied(palette, Next(s, e).bands)
            == match e case St(_, _, _) => Applied(palette, s.bands)
                       case Dac(start, vals, _, _) => Put(Applied(palette, s.bands), start, vals)
  {
    hide Applied, Lines, SetLast;
    var top := s.bands[|s.bands| - 1];
    match e {
      case St(count, _, last) =>
        var line := s.line + Lines(count);
        if top.values != map[] {
          AppliedSnoc(palette, s.bands, Band(Some(line), map[]));
        } else {
          SetLastApplied(palette, s.bands, top.(line := Some(line)));
        }
      case Dac(start, vals, first, last) =>
        var late := first - s.last > LATE_GAP_STEPS && top.values != map[];
        var bands := if late then s.bands + [Band(None, map[])] else s.bands;
        if late {
          AppliedSnoc(palette, s.bands, Band(None, map[]));
        }
        var b := bands[|bands| - 1];
        assert Applied(palette, bands) == Applied(palette, s.bands);
        SetLastApplied(palette, bands, b.(values := Put(b.values, start, vals)));
        PutMerge(Applied(palette, bands[..|bands| - 1]), b.values, start, vals);
    }
  }

  lemma ShownNext(palette: map<nat, Rgb>, cycle: seq<Entry>)
    requires cycle != []
    ensures Shown(palette, cycle)
            == match cycle[|cycle| - 1]
               case St(_, _, _) => Shown(palette, cycle[..|cycle| - 1])
               case Dac(start, vals, _, _) => Put(Shown(palette, cycle[..|cycle| - 1]), start, vals)
  {
  }

  /** Applying the bands to any palette replays the cycle's writes. */
  lemma {:induction false} ScanIsFaithful(palette: map<nat, Rgb>, last: int, cycle: seq<Entry>)
    ensures Faithful(palette, Scanned(last, cycle), cycle)
    decreases |cycle|
  {
    if cycle == [] {
      assert Applied(palette, [Band(Some(0), map[])]) == palette + map[] by { AppliedSnoc(palette, [], Band(Some(0), map[])); }
    } else {
      hide Next, Shown, Applied;
      ScanIsFaithful(palette, last, cycle[..|cycle| - 1]);
      NextApplied(palette, Scanned(last, cycle[..|cycle| - 1]), cycle[|cycle| - 1]);
      ShownNext(palette, cycle);
    }
  }

  /** Two reads a line, halves rounded to the even line; a counted run moves down by at least three. */
  lemma CountedLines(count: nat)
    ensures if count % 2 == 0 then 2 * Lines(count) == count
            else Lines(count) % 2 == 0 && (2 * Lines(count) == count - 1 || 2 * Lines(count) == count + 1)
    ensures count > 6 ==> Lines(count) >= 3
  {
  }

  lemma DescendingSnoc(bands: seq<Band>, b: Band, line: int)
    requires Descending(bands) && UpTo(bands, line) && (b.line.Some? ==> b.line.value > line)
    ensures Descending(bands + [b])
  {
  }

  lemma NextInOrder(s: Scan, e: Entry)
    requires InOrder(s) && !Sync(e)
    ensures InOrder(Next(s, e))
  {
    hide Put;
    var n := |s.bands| - 1;
    assert Descending(s.bands[..n]) && UpTo(s.bands[..n], s.line);
    match e {
      case St(count, _, _) =>
        CountedLines(count);
        hide Lines;
        var line := s.line + Lines(count);
        DescendingSnoc(s.bands, Band(Some(line), map[]), s.line);
        DescendingSnoc(s.bands[..n], s.bands[n].(line := Some(line)), s.line);
      case Dac(start, vals, first, last) =>
        DescendingSnoc(s.bands, Band(None, map[]), s.line);
    }
  }

  /** Bands the evidence places lie strictly below each other. */
  lemma {:induction false} ScanInOrder(last: int, cycle: seq<Entry>)
    requires forall e :: e in cycle ==> !Sync(e)
    ensures InOrder(Scanned(last, cycle))
    decreases |cycle|
  {
    if cycle != [] {
      hide Next, InOrder, Sync;
      ScanInOrder(last, cycle[..|cycle| - 1]);
      NextInOrder(Scanned(last, cycle[..|cycle| - 1]), cycle[|cycle| - 1]);
    }
  }

  // ---- the plan -------------------------------------------------------------------------

  /** `[b for b in bands if b["values"]]` */
  function NonEmpty(bands: seq<Band>): (r: seq<Band>)
    ensures forall i :: 0 <= i < |r| ==> r[i].values != map[]
  {
    if bands == [] then []
    else
      var rest := NonEmpty(bands[..|bands| - 1]);
      if bands[|bands| - 1].values != map[] then rest + [bands[|bands| - 1]] else rest
  }

  lemma {:induction false} NonEmptyApplied(palette: map<nat, Rgb>, bands: seq<Band>)
    ensures Applied(palette, NonEmpty(bands)) == Applied(palette, bands)
  {
    if bands != [] {
      NonEmptyApplied(palette, bands[..|bands| - 1]);
      AppliedSnoc(palette, NonEmpty(bands[..|bands| - 1]), bands[|bands| - 1]);
    }
  }

  lemma {:induction false} NonEmptyInOrder(bands: seq<Band>, line: int)
    requires Descending(bands) && UpTo(bands, line)
    ensures Descending(NonEmpty(bands)) && UpTo(NonEmpty(bands), line)
    ensures forall b :: b in NonEmpty(bands) ==> b in bands
  {
    if bands != [] {
      var n := |bands| - 1;
      NonEmptyInOrder(bands[..n], line);
      var rest := NonEmpty(bands[..n]);
      if bands[n].values != map[] {
        forall i | 0 <= i < |rest| && rest[i].line.Some? && bands[n].line.Some?
          ensures rest[i].line.value < bands[n].line.value
        {
          assert rest[i] in bands[..n];
          var k :| 0 <= k < n && bands[k] == rest[i];
        }
      }
    }
  }

  function CountUnplaced(bands: seq<Band>): nat {
    if bands == [] then 0 else CountUnplaced(bands[..|bands| - 1]) + if bands[|bands| - 1].line.None? then 1 else 0
  }

  predicate Implausible(bands: seq<Band>) {
    exists i :: 0 <= i < |bands| && bands[i].line.Some? && !(0 < bands[i].line.value <= MAX_PLAUSIBLE_LINE)
  }

  /** Base, bands and verdict from the bands that hold something. */
  function PlanOf(bands: seq<Band>): Plan {
    if bands == [] then Plan(Static, map[], [])
    else
      var top := bands[0].line == Some(0);
      var base := if top then bands[0].values else map[];
      var rest := if top then bands[1..] else bands;
      if rest == [] then Plan(Static, base, [])
      else if CountUnplaced(rest) > 1 || Implausible(rest) then Plan(Unresolved, base, rest)
      else Plan(Split, base, rest)
  }

  lemma {:induction false} AppliedCons(palette: map<nat, Rgb>, b: Band, bands: seq<Band>)
    ensures Applied(palette, [b] + bands) == Applied(palette + b.values, bands)
    decreases |bands|
  {
    if bands == [] {
      AppliedSnoc(palette, [], b);
      assert [b] + bands == [] + [b];
    } else {
      var n := |bands| - 1;
      AppliedCons(palette, b, bands[..n]);
      assert ([b] + bands)[..n + 1] == [b] + bands[..n];
    }
  }

  lemma PlanApplied(palette: map<nat, Rgb>, bands: seq<Band>)
    ensures var p := PlanOf(bands); Applied(palette + p.base, p.bands) == Applied(palette, bands)
  {
    hide CountUnplaced, Implausible, Applied;
    assert palette + map[] == palette;
    if bands != [] && bands[0].line == Some(0) {
      AppliedCons(palette, bands[0], bands[1..]);
      assert [bands[0]] + bands[1..] == bands;
    }
  }

  lemma PlanInOrder(bands: seq<Band>)
    requires Descending(bands)
    ensures Descending(PlanOf(bands).bands)
  {
    hide CountUnplaced, Implausible;
  }

  lemma {:induction false} UnplacedCount(bands: seq<Band>)
    ensures CountUnplaced(bands) > 0 <==> exists i :: 0 <= i < |bands| && bands[i].line.None?
    ensures CountUnplaced(bands) > 1 <==> exists i, j :: 0 <= i < j < |bands| && bands[i].line.None? && bands[j].line.None?
  {
    if bands != [] {
      var k := |bands| - 1;
      var init := bands[..k];
      UnplacedCount(init);
      assert forall i :: 0 <= i < k ==> init[i] == bands[i];
      if CountUnplaced(init) > 0 && bands[k].line.None? {
        var i :| 0 <= i < k && init[i].line.None?;
        assert bands[i].line.None? && bands[k].line.None?;
      }
      if CountUnplaced(init) > 1 {
        var i, j :| 0 <= i < j < k && init[i].line.None? && init[j].line.None?;
        assert bands[i].line.None? && bands[j].line.None?;
      }
      hide CountUnplaced;
    }
  }

  /** Bands a display could show: at most one without a line, and every line between 1 and 1024. */
  ghost predicate Believable(bands: seq<Band>) {
    (forall i, j :: 0 <= i < j < |bands| ==> bands[i].line.Some? || bands[j].line.Some?)
    && forall i :: 0 <= i < |bands| && bands[i].line.Some? ==> 1 <= bands[i].line.value <= 1024
  }

  /** The verdict: static without bands, split with believable ones, unresolved with others. */
  ghost predicate Judged(plan: Plan) {
    match plan.kind
    case Static => plan.bands == []
    case Split => plan.bands != [] && Believable(plan.bands)
    case Unresolved => plan.bands != [] && !Believable(plan.bands)
  }

  lemma BelievableIs(bands: seq<Band>)
    ensures Believable(bands) <==> !(CountUnplaced(bands) > 1 || Implausible(bands))
  {
    UnplacedCount(bands);
    hide CountUnplaced;
  }

  lemma KindIsExact(bands: seq<Band>)
    ensures Judged(PlanOf(bands))
  {
    BelievableIs(PlanOf(bands).bands);
    hide CountUnplaced, Implausible, Believable;
  }

  // ---- the journal's events ------------------------------------------------------------------

  lemma {:induction false} ReplayAppend(palette: map<nat, Rgb>, a: seq<Op>, b: seq<Op>)
    ensures Replay(palette, a + b) == Replay(Replay(palette, a), b)
    decreases |b|
  {
    if b == [] {
      assert a + b == a;
    } else {
      var n := |b| - 1;
      assert (a + b)[..|a| + n] == a + b[..n];
      ReplayAppend(palette, a, b[..n]);
    }
  }

  lemma {:induction false} ReadsChangeNothing(palette: map<nat, Rgb>, ops: seq<Op>)
    requires forall i :: 0 <= i < |ops| ==> ops[i].Read?
    ensures Replay(palette, ops) == palette
  {
    if ops != [] {
      ReadsChangeNothing(palette, ops[..|ops| - 1]);
    }
  }

  lemma {:induction false} GroupReplays(palette: map<nat, Rgb>, start: nat, values: seq<Rgb>, ops: seq<Op>)
    requires |ops| == |values| && forall i :: 0 <= i < |ops| ==> ops[i] == Write((start + i) % 256, values[i], ops[i].now)
    ensures Replay(palette, ops) == Put(palette, start, values)
  {
    if ops != [] {
      GroupReplays(palette, start, values[..|values| - 1], ops[..|ops| - 1]);
    }
  }

  lemma FlatNext(runs: seq<seq<Op>>)
    requires runs != []
    ensures Flat(runs) == Flat(runs[..|runs| - 1]) + runs[|runs| - 1]
  {
  }

  /** A cycle shows what its journalled events, replayed one by one, show. */
  lemma {:induction false} ShownIsReplay(palette: map<nat, Rgb>, cycle: seq<Entry>, runs: seq<seq<Op>>)
    requires Matches(cycle, runs)
    ensures Shown(palette, cycle) == Replay(palette, Flat(runs))
    decreases |cycle|
  {
    if cycle != [] {
      var n := |cycle| - 1;
      assert Matches(cycle[..n], runs[..n]);
      ShownIsReplay(palette, cycle[..n], runs[..n]);
      FlatNext(runs);
      ReplayAppend(palette, Flat(runs[..n]), runs[n]);
      ShownNext(palette, cycle);
      var p := Shown(palette, cycle[..n]);
      assert Summarises(cycle[n], runs[n]);
      hide Shown, Replay, Flat, Put;
      match cycle[n] {
        case St(_, _, _) => ReadsChangeNothing(p, runs[n]);
        case Dac(start, values, _, _) => GroupReplays(p, start, values, runs[n]);
      }
    }
  }

  // ---- where the writes went -----------------------------------------------------------------

  /** The line reached before entry `j`. */
  function LineAt(cycle: seq<Entry>, j: nat): nat
    requires j <= |cycle|
  {
    if j == 0 then 0 else LineAt(cycle, j - 1) + match cycle[j - 1] case St(count, _, _) => Lines(count) case Dac(_, _, _, _) => 0
  }

  /** When the entry before `j` ended, or the sync the cycle starts with. */
  function TimeAt(last: int, cycle: seq<Entry>, j: nat): int
    requires j <= |cycle|
  {
    if j == 0 then last else cycle[j - 1].last
  }

  /** Since the last status reads some group up to `j` came more than 256 steps after the entry before it. */
  ghost predicate Late(last: int, cycle: seq<Entry>, j: nat) {
    exists k :: 0 <= k <= j < |cycle| && cycle[k].Dac? && cycle[k].first - TimeAt(last, cycle, k) > 256
                && forall m :: k < m <= j ==> cycle[m].Dac?
  }

  function Slot(start: nat, i: nat): nat {
    (start + i) % 256
  }

  /** Every entry group `j` writes is in the band. */
  ghost predicate Holds(b: Band, e: Entry) {
    e.Dac? && forall i: nat :: i < |e.values| ==> Slot(e.start, i) in b.values
  }

  /** Group `j` is in a band at the line reached before it, or in one without a line after a late gap. */
  ghost predicate Located(last: int, cycle: seq<Entry>, bands: seq<Band>, j: nat) {
    j < |cycle| && cycle[j].Dac? && cycle[j].values != [] ==>
      exists b :: b in bands && Holds(b, cycle[j]) && (b.line == Some(LineAt(cycle, j)) || (b.line.None? && Late(last, cycle, j)))
  }

  /** The last band stands at the line reached so far, or has none after a late gap. */
  ghost predicate TopLine(last: int, cycle: seq<Entry>, s: Scan) {
    s.bands != [] && s.line == LineAt(cycle, |cycle|) && s.last == TimeAt(last, cycle, |cycle|)
    && var top := s.bands[|s.bands| - 1];
       top.line == Some(s.line) || (top.line.None? && cycle != [] && Late(last, cycle, |cycle| - 1))
  }

  lemma {:induction false} PutKeys(values: map<nat, Rgb>, start: nat, vals: seq<Rgb>)
    ensures forall i: nat :: i < |vals| ==> Slot(start, i) in Put(values, start, vals)
    ensures forall x :: x in values ==> x in Put(values, start, vals)
  {
    if vals != [] {
      var n: nat := |vals| - 1;
      PutKeys(values, start, vals[..n]);
      forall i: nat | i < |vals|
        ensures Slot(start, i) in Put(values, start, vals)
      {
        if i == n {
          assert Slot(start, n) == (start + n) % 256;
        }
      }
    }
  }

  lemma {:induction false} LineSame(a: seq<Entry>, e: Entry, j: nat)
    requires j <= |a|
    ensures LineAt(a + [e], j) == LineAt(a, j)
  {
    if j > 0 {
      LineSame(a, e, j - 1);
      assert (a + [e])[j - 1] == a[j - 1];
    }
  }

  lemma LateStays(last: int, a: seq<Entry>, e: Entry, j: nat)
    requires Late(last, a, j)
    ensures Late(last, a + [e], j) && (e.Dac? && j == |a| - 1 ==> Late(last, a + [e], |a|))
  {
    var c := a + [e];
    var k :| 0 <= k <= j < |a| && a[k].Dac? && a[k].first - TimeAt(last, a, k) > 256 && forall m :: k < m <= j ==> a[m].Dac?;
    assert c[k] == a[k] && TimeAt(last, c, k) == TimeAt(last, a, k);
    assert forall m :: k < m <= j ==> c[m] == a[m];
  }

  lemma LateNow(last: int, a: seq<Entry>, e: Entry)
    requires e.Dac? && e.first - TimeAt(last, a, |a|) > 256
    ensures Late(last, a + [e], |a|)
  {
    assert (a + [e])[|a|] == e && TimeAt(last, a + [e], |a|) == TimeAt(last, a, |a|);
  }

  lemma StaysHeld(b: Band, c: Band, e: Entry)
    requires Holds(b, e) && c.line == b.line && forall x :: x in b.values ==> x in c.values
    ensures Holds(c, e)
  {
  }

  lemma SomethingHeld(b: Band, e: Entry)
    requires Holds(b, e) && e.values != []
    ensures b.values != map[]
  {
    assert Slot(e.start, 0) in b.values;
  }

  /** A band with something in it is still there, or has grown. */
  lemma BandStays(s: Scan, e: Entry, b: Band)
    requires s.bands != [] && b in s.bands && b.values != map[]
    ensures exists c :: c in Next(s, e).bands && c.line == b.line && forall x :: x in b.values ==> x in c.values
  {
    var k := |s.bands| - 1;
    var i :| 0 <= i < |s.bands| && s.bands[i] == b;
    var r := Next(s, e).bands;
    if e.Dac? {
      var top := s.bands[k];
      PutKeys(top.values, e.start, e.values);
      if i < k || r[i] == b {
        assert r[i] == b;
      } else {
        assert r[k] == top.(values := Put(top.values, e.start, e.values));
      }
    } else {
      assert r[i] == b;
    }
    hide Put, Lines;
  }

  lemma LocatedStays(last: int, a: seq<Entry>, e: Entry, s: Scan, j: nat)
    requires s.bands != [] && j < |a| && Located(last, a, s.bands, j)
    ensures Located(last, a + [e], Next(s, e).bands, j)
  {
    assert (a + [e])[j] == a[j];
    if a[j].Dac? && a[j].values != [] {
      var b :| b in s.bands && Holds(b, a[j]) && (b.line == Some(LineAt(a, j)) || (b.line.None? && Late(last, a, j)));
      SomethingHeld(b, a[j]);
      BandStays(s, e, b);
      var c :| c in Next(s, e).bands && c.line == b.line && forall x :: x in b.values ==> x in c.values;
      StaysHeld(b, c, a[j]);
      LineSame(a, e, j);
      if b.line.None? {
        LateStays(last, a, e, j);
      }
      hide Next, Holds, Late, LineAt;
    }
  }

  /** The group just taken is in the last band. */
  lemma TopHolds(s: Scan, e: Entry)
    requires s.bands != [] && e.Dac?
    ensures var r := Next(s, e).bands; r != [] && Holds(r[|r| - 1], e)
  {
    var bands := if e.first - s.last > LATE_GAP_STEPS && s.bands[|s.bands| - 1].values != map[] then s.bands + [Band(None, map[])] else s.bands;
    PutKeys(bands[|bands| - 1].values, e.start, e.values);
    hide Put;
  }

  lemma LineNext(last: int, a: seq<Entry>, e: Entry)
    ensures LineAt(a + [e], |a| + 1) == LineAt(a, |a|) + match e case St(count, _, _) => Lines(count) case Dac(_, _, _, _) => 0
    ensures TimeAt(last, a + [e], |a| + 1) == e.last
  {
    LineSame(a, e, |a|);
    assert (a + [e])[|a|] == e;
  }

  lemma TopNext(last: int, a: seq<Entry>, e: Entry, s: Scan)
    requires TopLine(last, a, s)
    ensures TopLine(last, a + [e], Next(s, e))
  {
    LineNext(last, a, e);
    var top := s.bands[|s.bands| - 1];
    if e.Dac? {
      if e.first - s.last > LATE_GAP_STEPS {
        LateNow(last, a, e);
      }
      if top.line.None? {
        LateStays(last, a, e, |a| - 1);
      }
    }
    hide Put, Lines, Late, LineAt, TimeAt;
  }

  lemma LastLocated(last: int, a: seq<Entry>, e: Entry, s: Scan)
    requires TopLine(last, a, s)
    ensures Located(last, a + [e], Next(s, e).bands, |a|)
  {
    TopNext(last, a, e, s);
    assert (a + [e])[|a|] == e;
    LineNext(last, a, e);
    LineSame(a, e, |a|);
    if e.Dac? {
      TopHolds(s, e);
      var r := Next(s, e).bands;
      assert r[|r| - 1] in r;
    }
    hide Next, Holds, Late, LineAt, TimeAt;
  }

  ghost predicate AllLocated(last: int, cycle: seq<Entry>, bands: seq<Band>) {
    forall j: nat :: j < |cycle| ==> Located(last, cycle, bands, j)
  }

  lemma AllLocatedNext(last: int, a: seq<Entry>, e: Entry, s: Scan)
    requires TopLine(last, a, s) && AllLocated(last, a, s.bands)
    ensures AllLocated(last, a + [e], Next(s, e).bands)
  {
    TopHasBands(last, a, s);
    hide Next, TopLine, Located;
    forall j: nat | j < |a + [e]|
      ensures Located(last, a + [e], Next(s, e).bands, j)
    {
      if j < |a| {
        LocatedStays(last, a, e, s, j);
      } else {
        LastLocated(last, a, e, s);
      }
    }
  }

  lemma TopHasBands(last: int, a: seq<Entry>, s: Scan)
    requires TopLine(last, a, s)
    ensures s.bands != []
  {
  }

  lemma ScannedSnoc(last: int, a: seq<Entry>, e: Entry)
    ensures Scanned(last, a + [e]) == Next(Scanned(last, a), e)
  {
    assert (a + [e])[..|a|] == a;
    hide Next;
  }

  lemma NothingScanned(last: int, cycle: seq<Entry>)
    requires cycle == []
    ensures TopLine(last, cycle, Scanned(last, cycle)) && AllLocated(last, cycle, Scanned(last, cycle).bands)
  {
  }

  /** Every group is found where the status reads before it say. */
  lemma {:induction false} ScanLocates(last: int, cycle: seq<Entry>)
    ensures TopLine(last, cycle, Scanned(last, cycle)) && AllLocated(last, cycle, Scanned(last, cycle).bands)
    decreases |cycle|
  {
    hide *;
    if cycle == [] {
      NothingScanned(last, cycle);
    } else {
      var n := |cycle| - 1;
      var (a, e) := (cycle[..n], cycle[n]);
      assert cycle == a + [e];
      ScanLocates(last, a);
      TopHasBands(last, a, Scanned(last, a));
      ScannedSnoc(last, a, e);
      TopNext(last, a, e, Scanned(last, a));
      AllLocatedNext(last, a, e, Scanned(last, a));
    }
  }

  lemma {:induction false} NonEmptyKeeps(bands: seq<Band>, b: Band)
    requires b in bands && b.values != map[]
    ensures b in NonEmpty(bands)
  {
    var k := |bands| - 1;
    if b in bands[..k] {
      NonEmptyKeeps(bands[..k], b);
    }
  }

  lemma LocatedAt(last: int, cycle: seq<Entry>, bands: seq<Band>, j: nat)
    requires AllLocated(last, cycle, bands) && j < |cycle| && cycle[j].Dac? && cycle[j].values != []
    ensures exists b :: b in bands && Holds(b, cycle[j]) && (b.line == Some(LineAt(cycle, j)) || (b.line.None? && Late(last, cycle, j)))
  {
    assert Located(last, cycle, bands, j);
    hide Holds, Late, LineAt;
  }

  /** Where the plan puts group `j`: the base at line 0, or a band at its line or without one after a late gap. */
  ghost predicate Placed(last: int, cycle: seq<Entry>, plan: Plan, j: nat) {
    j < |cycle| && cycle[j].Dac? && cycle[j].values != [] ==>
      (LineAt(cycle, j) == 0 && Holds(Band(Some(0), plan.base), cycle[j]))
      || exists b :: b in plan.bands && Holds(b, cycle[j]) && (b.line == Some(LineAt(cycle, j)) || (b.line.None? && Late(last, cycle, j)))
  }

  lemma PlanPlaces(last: int, cycle: seq<Entry>, j: nat)
    ensures Placed(last, cycle, PlanOf(NonEmpty(Scanned(last, cycle).bands)), j)
  {
    ScanLocates(last, cycle);
    var bands := Scanned(last, cycle).bands;
    if j < |cycle| && cycle[j].Dac? && cycle[j].values != [] {
      LocatedAt(last, cycle, bands, j);
      var b :| b in bands && Holds(b, cycle[j]) && (b.line == Some(LineAt(cycle, j)) || (b.line.None? && Late(last, cycle, j)));
      SomethingHeld(b, cycle[j]);
      NonEmptyKeeps(bands, b);
      BandPlanned(NonEmpty(bands), b);
    }
    hide Scanned, NonEmpty, PlanOf, Late, LineAt, TopLine, AllLocated;
  }

  lemma BandPlanned(bands: seq<Band>, b: Band)
    requires b in bands
    ensures b in PlanOf(bands).bands || (b.line == Some(0) && PlanOf(bands).base == b.values)
  {
    hide CountUnplaced, Implausible;
    var i :| 0 <= i < |bands| && bands[i] == b;
    if bands[0].line == Some(0) && i > 0 {
      assert bands[1..][i - 1] == b;
    }
  }

  // ---- classify -------------------------------------------------------------------------

  /** The last two syncs of the journal, so that the entries between them are one whole cycle. */
  ghost predicate LastSyncs(events: seq<Entry>, s0: nat, s1: nat) {
    s0 < s1 < |events| && events[s0].St? && events[s0].count <= 6 && events[s1].St? && events[s1].count <= 6
    && forall i :: s0 < i < |events| && i != s1 ==> !(events[i].St? && events[i].count <= 6)
  }

  ghost predicate AtMostOneSync(events: seq<Entry>) {
    forall i, j :: 0 <= i < j < |events| ==>
      !(events[i].St? && events[i].count <= 6 && events[j].St? && events[j].count <= 6)
  }

  /** What a plan promises about the cycle it was made from. */
  ghost predicate Explains(plan: Plan, cycle: seq<Entry>) {
    (forall palette :: Applied(palette + plan.base, plan.bands) == Shown(palette, cycle))
    && Descending(plan.bands) && (plan.kind.Static? <==> plan.bands == [])
  }

  ghost predicate NoSync(cycle: seq<Entry>) {
    forall e :: e in cycle ==> !Sync(e)
  }

  lemma PlanExplains(last: int, cycle: seq<Entry>)
    requires NoSync(cycle)
    ensures Explains(PlanOf(NonEmpty(Scanned(last, cycle).bands)), cycle)
  {
    var s := Scanned(last, cycle);
    var bands := NonEmpty(s.bands);
    ScanInOrder(last, cycle);
    NonEmptyInOrder(s.bands, s.line);
    PlanInOrder(bands);
    hide Scanned, NonEmpty, Applied, Shown, Descending, CountUnplaced, Implausible;
    forall palette: map<nat, Rgb>
      ensures Applied(palette + PlanOf(bands).base, PlanOf(bands).bands) == Shown(palette, cycle)
    {
      PlanApplied(palette, bands);
      NonEmptyApplied(palette, s.bands);
      ScanIsFaithful(palette, last, cycle);
    }
  }

  lemma {:induction false} NothingShown(palette: map<nat, Rgb>, cycle: seq<Entry>)
    requires forall e :: e in cycle ==> e.St?
    ensures Shown(palette, cycle) == palette
  {
    if cycle != [] {
      NothingShown(palette, cycle[..|cycle| - 1]);
    }
  }

  /** The positions of the last two syncs. */
  method FindSyncs(events: seq<Entry>) returns (r: Option<(nat, nat)>)
    ensures match r
            case None => AtMostOneSync(events)
            case Some((s0, s1)) => LastSyncs(events, s0, s1)
  {
    var i := |events|;
    while i > 0 && !Sync(events[i - 1])
      invariant 0 <= i <= |events| && forall k :: i <= k < |events| ==> !Sync(events[k])
    {
      i := i - 1;
    }
    if i == 0 {
      return None;
    }
    var s1 := i - 1;
    i := s1;
    while i > 0 && !Sync(events[i - 1])
      invariant 0 <= i <= s1 && forall k :: i <= k < |events| && k != s1 ==> !Sync(events[k])
    {
      i := i - 1;
    }
    r := if i == 0 then None else Some((i - 1, s1));
  }

  /** One entry of the cycle: move down, or put the group's colours into the last band. */
  method Take(bands: seq<Band>, line: int, lastT: int, e: Entry) returns (bands': seq<Band>, line': int, lastT': int)
    requires bands != []
    ensures Scan(bands', line', lastT') == Next(Scan(bands, line, lastT), e)
  {
    hide Lines, Put;
    var top := bands[|bands| - 1];
    bands', line' := bands, line;
    match e {
      case St(count, first, t) =>
        line' := line + Lines(count);
        if top.values != map[] {
          bands' := bands + [Band(Some(line'), map[])];
        } else {
          bands' := SetLast(bands, top.(line := Some(line')));
        }
        lastT' := t;
      case Dac(start, vals, t0, t1) =>
        if t0 - lastT > LATE_GAP_STEPS && top.values != map[] {
          bands' := bands + [Band(None, map[])];
        }
        var b := bands'[|bands'| - 1];
        bands' := SetLast(bands', b.(values := Put(b.values, start, vals)));
        lastT' := t1;
    }
  }

  lemma ScannedNext(last: int, cycle: seq<Entry>, i: nat)
    requires i < |cycle|
    ensures Scanned(last, cycle[..i + 1]) == Next(Scanned(last, cycle[..i]), cycle[i])
  {
    assert cycle[..i + 1][..i] == cycle[..i];
    hide Next;
  }

  /** The loop over one cycle. */
  method ScanCycle(last: int, cycle: seq<Entry>) returns (bands: seq<Band>)
    ensures bands == Scanned(last, cycle).bands
  {
    bands := [Band(Some(0), map[])];
    var line, lastT := 0, last;
    assert cycle[..0] == [] && cycle[..|cycle|] == cycle;
    hide Next;
    for i := 0 to |cycle|
      invariant bands != [] && Scan(bands, line, lastT) == Scanned(last, cycle[..i])
    {
      ScannedNext(last, cycle, i);
      bands, line, lastT := Take(bands, line, lastT, cycle[i]);
    }
  }

  /**
   Classify the most recent complete display cycle: with fewer than two syncs nothing is
   claimed; otherwise base and bands, applied to any palette, replay that cycle's writes.
   */
  method Classify(events: seq<Entry>) returns (plan: Plan)
    ensures AtMostOneSync(events) ==> plan == Plan(Static, map[], [])
    ensures forall s0: nat, s1: nat :: LastSyncs(events, s0, s1) ==>
              Explains(plan, events[s0 + 1..s1]) && PlacesAll(events[s0].last, events[s0 + 1..s1], plan)
    ensures Judged(plan)
  {
    NothingJudged();
    var syncs := FindSyncs(events);
    if syncs.None? {
      return Plan(Static, map[], []);
    }
    var (s0, s1) := syncs.value;
    var cycle := events[s0 + 1..s1];
    CycleHasNoSync(events, s0, s1);
    SyncsUnique(events, s0, s1);
    hide *;
    if !(exists i :: 0 <= i < |cycle| && cycle[i].Dac?) {
      NothingExplains(cycle);
      NothingPlaced(events[s0].last, cycle);
      return Plan(Static, map[], []);
    }
    PlanExplains(events[s0].last, cycle);
    PlanPlacesAll(events[s0].last, cycle);
    KindIsExact(NonEmpty(Scanned(events[s0].last, cycle).bands));
    var bands := ScanCycle(events[s0].last, cycle);
    plan := PlanOf(NonEmpty(bands));
  }

  lemma NothingJudged()
    ensures Judged(Plan(Static, map[], []))
  {
  }

  /** Every group of the cycle is where the status reads before it say. */
  ghost predicate PlacesAll(last: int, cycle: seq<Entry>, plan: Plan) {
    forall j: nat :: Placed(last, cycle, plan, j)
  }

  lemma PlanPlacesAll(last: int, cycle: seq<Entry>)
    ensures PlacesAll(last, cycle, PlanOf(NonEmpty(Scanned(last, cycle).bands)))
  {
    hide Placed;
    forall j: nat
      ensures Placed(last, cycle, PlanOf(NonEmpty(Scanned(last, cycle).bands)), j)
    {
      PlanPlaces(last, cycle, j);
    }
  }

  lemma NothingPlaced(last: int, cycle: seq<Entry>)
    requires !(exists i :: 0 <= i < |cycle| && cycle[i].Dac?)
    ensures PlacesAll(last, cycle, Plan(Static, map[], []))
  {
  }

  lemma CycleHasNoSync(events: seq<Entry>, s0: nat, s1: nat)
    requires LastSyncs(events, s0, s1)
    ensures NoSync(events[s0 + 1..s1]) && !AtMostOneSync(events)
  {
  }

  lemma SyncsUnique(events: seq<Entry>, s0: nat, s1: nat)
    requires LastSyncs(events, s0, s1)
    ensures forall t0: nat, t1: nat :: LastSyncs(events, t0, t1) ==> t0 == s0 && t1 == s1
  {
  }

  lemma NothingExplains(cycle: seq<Entry>)
    requires !(exists i :: 0 <= i < |cycle| && cycle[i].Dac?)
    ensures Explains(Plan(Static, map[], []), cycle)
  {
    forall palette: map<nat, Rgb>
      ensures Applied(palette + map[], []) == Shown(palette, cycle)
    {
      NothingShown(palette, cycle);
      assert palette + map[] == palette;
    }
  }
}
