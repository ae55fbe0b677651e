/** The Atlas graph: shortest known paths, and the coverage a product's roots reach. */
module Atlas {
  import opened Memory

  type Id = string

  datatype Status = Resolved | Observed | Containment | Unresolved | Frontier
  datatype Kind = Function | ExecutionPoint | RuntimeCodeVariant | Region | OtherKind

  datatype Edge = Edge(source: Id, target: Id, status: Status)

  /** Code point order. */
  predicate Before(a: Id, b: Id) {
    b != "" && (a == "" || a[0] < b[0] || (a[0] == b[0] && Before(a[1..], b[1..])))
  }

  /** After a common prefix `a` ends, or goes on with the smaller character. */
  predicate BeforeAt(a: Id, b: Id, k: nat) {
    k <= |a| && k < |b| && a[..k] == b[..k] && (k == |a| || a[k] < b[k])
  }

  /** The order of identities is lexicographic. */
  lemma {:induction false} BeforeMeans(a: Id, b: Id)
    ensures Before(a, b) <==> exists k: nat :: BeforeAt(a, b, k)
    decreases |b|
  {
    if b != "" {
      if a == "" || a[0] < b[0] {
        assert BeforeAt(a, b, 0);
      } else {
        BeforeMeans(a[1..], b[1..]);
        forall k: nat
          ensures BeforeAt(a, b, k) == (a[0] == b[0] && k > 0 && BeforeAt(a[1..], b[1..], k - 1))
        {
          BeforeShift(a, b, k);
        }
        if Before(a, b) {
          var k: nat :| BeforeAt(a[1..], b[1..], k);
          assert BeforeAt(a, b, k + 1);
        }
      }
    }
  }

  lemma BeforeShift(a: Id, b: Id, k: nat)
    requires a != "" && b != "" && !(a[0] < b[0])
    ensures BeforeAt(a, b, k) == (a[0] == b[0] && k > 0 && BeforeAt(a[1..], b[1..], k - 1))
  {
    if 0 < k <= |a| && k < |b| {
      assert a[..k] == [a[0]] + a[1..][..k - 1] && b[..k] == [b[0]] + b[1..][..k - 1];
    }
  }

  function Insert(x: Id, xs: seq<Id>): (r: seq<Id>)
    ensures forall y :: y in r <==> y == x || y in xs
  {
    if xs == [] then [x]
    else if Before(xs[0], x) then [xs[0]] + Insert(x, xs[1..])
    else [x] + xs
  }

  /** `sorted(xs)`: duplicates stay. */
  function Sorted(xs: seq<Id>): (r: seq<Id>)
    ensures forall y :: y in r <==> y in xs
  {
    if xs == [] then [] else Insert(xs[0], Sorted(xs[1..]))
  }

  ghost predicate Ascending(r: seq<Id>) {
    forall i :: 0 <= i < |r| - 1 ==> !Before(r[i + 1], r[i])
  }

  lemma {:induction false} BeforeIsAsymmetric(a: Id, b: Id)
    ensures Before(a, b) ==> !Before(b, a)
    decreases |a|
  {
    if a != "" && b != "" {
      BeforeIsAsymmetric(a[1..], b[1..]);
    }
  }

  lemma {:induction false} InsertKeeps(x: Id, xs: seq<Id>)
    ensures multiset(Insert(x, xs)) == multiset{x} + multiset(xs)
    decreases |xs|
  {
    if xs != [] {
      assert xs == [xs[0]] + xs[1..];
      InsertKeeps(x, xs[1..]);
    }
  }

  lemma {:induction false} InsertAscends(x: Id, xs: seq<Id>)
    requires Ascending(xs)
    ensures Ascending(Insert(x, xs)) && (Insert(x, xs)[0] == x || (xs != [] && Insert(x, xs)[0] == xs[0]))
    decreases |xs|
  {
    if xs != [] && Before(xs[0], x) {
      var rest := xs[1..];
      forall i | 0 <= i < |rest| - 1 ensures !Before(rest[i + 1], rest[i]) {
        assert rest[i] == xs[i + 1] && rest[i + 1] == xs[i + 2];
      }
      InsertAscends(x, rest);
      BeforeIsAsymmetric(xs[0], x);
    }
  }

  /** In ascending order, every identity as often as before. */
  lemma {:induction false} SortedArranges(xs: seq<Id>)
    ensures Ascending(Sorted(xs)) && multiset(Sorted(xs)) == multiset(xs)
    decreases |xs|
  {
    if xs != [] {
      assert xs == [xs[0]] + xs[1..];
      SortedArranges(xs[1..]);
      InsertKeeps(xs[0], Sorted(xs[1..]));
      InsertAscends(xs[0], Sorted(xs[1..]));
    }
  }

  /** The adjacency table of one query: sources to lists of targets. */
  type Graph = map<Id, seq<Id>>

  function Out(g: Graph, u: Id): seq<Id> {
    if u in g then g[u] else []
  }

  predicate Arc(g: Graph, u: Id, v: Id) {
    v in Out(g, u)
  }

  function AddArc(g: Graph, u: Id, v: Id): (r: Graph)
    ensures forall x, y :: Arc(r, x, y) <==> Arc(g, x, y) || (x == u && y == v)
  {
    g[u := Out(g, u) + [v]]
  }

  /** Every end point of the graph's arcs. */
  function Targets(g: Graph): (r: set<Id>)
    ensures forall u, v :: Arc(g, u, v) ==> v in r
  {
    set u, v | u in g && v in g[u] :: v
  }

  /** A walk along the arcs. */
  ghost predicate Walk(g: Graph, p: seq<Id>, u: Id, v: Id) {
    p != [] && p[0] == u && p[|p| - 1] == v && forall i :: 0 <= i < |p| - 1 ==> Arc(g, p[i], p[i + 1])
  }

  // ---- the search state --------------------------------------------------------------

  /** Nodes found, each with its predecessor and its distance from the source, and the nodes still queued. */
  datatype Search = Search(previous: map<Id, Option<Id>>, dist: map<Id, nat>, queue: seq<Id>)

  /** Found nodes form a tree of arcs rooted at the source, one level per unit of distance. */
  ghost predicate Tree(g: Graph, s: Id, q: Search) {
    q.previous.Keys == q.dist.Keys && s in q.previous && q.previous[s] == None && q.dist[s] == 0
    && forall v :: v in q.previous && v != s ==>
         q.previous[v].Some? && q.previous[v].value in q.previous
         && Arc(g, q.previous[v].value, v) && q.dist[v] == q.dist[q.previous[v].value] + 1
  }

  /** The queue holds found nodes of two adjacent levels, in order, none of them twice. */
  ghost predicate Level(q: Search, lo: nat) {
    (forall v :: v in q.queue ==> v in q.dist && lo <= q.dist[v] <= lo + 1)
    && (forall i, j :: 0 <= i < j < |q.queue| && q.queue[i] in q.dist && q.queue[j] in q.dist ==>
          q.queue[i] != q.queue[j] && q.dist[q.queue[i]] <= q.dist[q.queue[j]])
  }

  /** Everything one arc beyond `u` has been found, no further than one level below it. */
  ghost predicate Expanded(g: Graph, q: Search, u: Id) {
    u in q.dist && forall v :: Arc(g, u, v) ==> v in q.dist && q.dist[v] <= q.dist[u] + 1
  }

  /** Nodes already taken from the queue. */
  ghost predicate Done(q: Search, current: set<Id>, u: Id) {
    u in q.dist && u !in q.queue && u !in current
  }

  /** Between two iterations (`current` empty), or while `current` holds the node being expanded. */
  ghost predicate Searching(g: Graph, s: Id, t: Id, q: Search, current: set<Id>, lo: nat) {
    Tree(g, s, q) && Level(q, lo)
    && (forall u :: Done(q, current, u) ==> Expanded(g, q, u) && u != t && q.dist[u] <= lo)
    && (forall u :: u in current ==> u in q.dist && u !in q.queue && q.dist[u] == lo && u != t)
  }

  function Start(s: Id): Search {
    Search(map[s := None], map[s := 0], [s])
  }

  lemma StartSearching(g: Graph, s: Id, t: Id)
    ensures Searching(g, s, t, Start(s), {}, 0)
  {
  }

  /** Take `c` from the front. */
  function Pop(q: Search): Search
    requires q.queue != []
  {
    q.(queue := q.queue[1..])
  }

  lemma PopSearching(g: Graph, s: Id, t: Id, q: Search, lo: nat)
    requires Searching(g, s, t, q, {}, lo) && q.queue != [] && q.queue[0] != t
    ensures var c := q.queue[0]; c in q.dist && Searching(g, s, t, Pop(q), {c}, q.dist[c])
  {
    var c, r := q.queue[0], Pop(q);
    assert c in q.queue;
    assert forall v :: v in q.queue <==> v == c || v in r.queue;
    assert forall i :: 0 <= i < |r.queue| ==> r.queue[i] == q.queue[i + 1];
    PopLevel(q, lo);
    forall u | Done(r, {c}, u)
      ensures Expanded(g, r, u) && u != t && r.dist[u] <= q.dist[c]
    {
      assert Done(q, {}, u);
      assert Expanded(g, q, u);
    }
  }

  lemma PopLevel(q: Search, lo: nat)
    requires Level(q, lo) && q.queue != []
    ensures var c := q.queue[0]; c in q.dist && lo <= q.dist[c] && c !in Pop(q).queue && Level(Pop(q), q.dist[c])
  {
    var c, r := q.queue[0], Pop(q);
    assert forall i :: 0 <= i < |r.queue| ==> r.queue[i] == q.queue[i + 1];
    forall v | v in r.queue
      ensures v in q.dist && v != c && q.dist[c] <= q.dist[v] <= q.dist[c] + 1
    {
      var i :| 0 <= i < |r.queue| && r.queue[i] == v;
      assert q.queue[0] in q.queue && q.queue[i + 1] in q.queue;
    }
  }

  /** One successor of `c`: queue it unless it has been found before. */
  function Visit(q: Search, c: Id, v: Id): (r: Search)
    requires c in q.dist
    ensures v in r.previous
  {
    if v in q.previous then q
    else Search(q.previous[v := Some(c)], q.dist[v := q.dist[c] + 1], q.queue + [v])
  }

  /** Found nodes keep their distance and their predecessor. */
  ghost predicate Extends(q: Search, r: Search) {
    forall u :: u in q.dist && u in q.previous ==>
      u in r.dist && u in r.previous && r.dist[u] == q.dist[u] && r.previous[u] == q.previous[u]
  }

  lemma VisitTree(g: Graph, s: Id, q: Search, c: Id, v: Id)
    requires Tree(g, s, q) && c in q.dist && Arc(g, c, v)
    ensures Tree(g, s, Visit(q, c, v)) && Extends(q, Visit(q, c, v))
  {
  }

  lemma VisitLevel(g: Graph, s: Id, q: Search, c: Id, v: Id)
    requires Tree(g, s, q) && c in q.dist && Level(q, q.dist[c])
    ensures Level(Visit(q, c, v), q.dist[c])
  {
    var r := Visit(q, c, v);
    if v !in q.previous {
      forall i, j | 0 <= i < j < |r.queue|
        ensures r.queue[i] in q.dist && r.queue[i] != r.queue[j] && r.dist[r.queue[i]] <= r.dist[r.queue[j]]
      {
        assert r.queue[i] in q.queue;
        assert j < |q.queue| ==> r.queue[j] in q.queue;
      }
    }
  }

  lemma VisitExpanded(g: Graph, q: Search, c: Id, v: Id, u: Id)
    requires q.previous.Keys == q.dist.Keys && c in q.dist && Expanded(g, q, u)
    ensures Expanded(g, Visit(q, c, v), u)
  {
  }

  lemma VisitDone(q: Search, c: Id, v: Id, u: Id)
    requires q.previous.Keys == q.dist.Keys && c in q.dist
    ensures Done(Visit(q, c, v), {c}, u) <==> Done(q, {c}, u)
    ensures Done(q, {c}, u) ==> Visit(q, c, v).dist[u] == q.dist[u]
  {
    if v !in q.previous {
      assert v in Visit(q, c, v).queue by { assert (q.queue + [v])[|q.queue|] == v; }
      assert forall w :: w in q.queue + [v] <==> w in q.queue || w == v;
    }
  }

  lemma VisitSearching(g: Graph, s: Id, t: Id, q: Search, c: Id, v: Id, lo: nat)
    requires Searching(g, s, t, q, {c}, lo) && Arc(g, c, v)
    ensures c in q.dist && Searching(g, s, t, Visit(q, c, v), {c}, lo)
  {
    assert c in {c};
    var r := Visit(q, c, v);
    VisitTree(g, s, q, c, v);
    VisitLevel(g, s, q, c, v);
    hide Tree, Level, Visit, Expanded, Extends;
    assert q.previous.Keys == q.dist.Keys by { TreeKeys(g, s, q); }
    forall u | Done(r, {c}, u)
      ensures Expanded(g, r, u) && u != t && r.dist[u] <= lo
    {
      VisitDone(q, c, v, u);
      VisitExpanded(g, q, c, v, u);
    }
    CurrentKept(q, c, v);
  }

  lemma TreeKeys(g: Graph, s: Id, q: Search)
    requires Tree(g, s, q)
    ensures q.previous.Keys == q.dist.Keys
  {
  }

  lemma CurrentKept(q: Search, c: Id, v: Id)
    requires q.previous.Keys == q.dist.Keys && c in q.dist && c !in q.queue
    ensures var r := Visit(q, c, v); c in r.dist && r.dist[c] == q.dist[c] && c !in r.queue
  {
  }

  /** With every successor of `c` found, `c` is done. */
  lemma FinishSearching(g: Graph, s: Id, t: Id, q: Search, c: Id, lo: nat)
    requires Searching(g, s, t, q, {c}, lo) && Expanded(g, q, c)
    ensures Searching(g, s, t, q, {}, lo)
  {
    hide Tree, Level, Expanded;
    assert c in {c};
    forall u | Done(q, {}, u)
      ensures Expanded(g, q, u) && u != t && q.dist[u] <= lo
    {
      if u != c {
        assert Done(q, {c}, u);
      }
    }
  }

  // ---- what the end of the search means ----------------------------------------------------

  lemma FrontIsLeast(q: Search, lo: nat)
    requires Level(q, lo) && q.queue != []
    ensures q.queue[0] in q.dist && forall u :: u in q.queue ==> u in q.dist && q.dist[q.queue[0]] <= q.dist[u]
  {
    assert q.queue[0] in q.queue;
    forall u | u in q.queue
      ensures u in q.dist && q.dist[q.queue[0]] <= q.dist[u]
    {
      var i :| 0 <= i < |q.queue| && q.queue[i] == u;
    }
  }

  /** Nodes nearer than the front of the queue are done. */
  lemma NearerIsDone(g: Graph, s: Id, t: Id, q: Search, lo: nat, u: Id)
    requires Searching(g, s, t, q, {}, lo) && q.queue != [] && u in q.dist
    requires q.queue[0] in q.dist && q.dist[u] < q.dist[q.queue[0]]
    ensures Done(q, {}, u)
  {
    FrontIsLeast(q, lo);
  }

  lemma ExpandedArc(g: Graph, q: Search, u: Id, v: Id)
    requires Expanded(g, q, u) && Arc(g, u, v)
    ensures u in q.dist && v in q.dist && q.dist[v] <= q.dist[u] + 1
  {
  }

  lemma DoneExpanded(g: Graph, s: Id, t: Id, q: Search, lo: nat, u: Id)
    requires Searching(g, s, t, q, {}, lo) && Done(q, {}, u)
    ensures Expanded(g, q, u) && u != t
  {
  }

  lemma SourceFound(g: Graph, s: Id, t: Id, q: Search, current: set<Id>, lo: nat)
    requires Searching(g, s, t, q, current, lo)
    ensures s in q.dist && q.dist[s] == 0
  {
  }

  lemma FrontFound(g: Graph, s: Id, t: Id, q: Search, lo: nat)
    requires Searching(g, s, t, q, {}, lo) && q.queue != []
    ensures q.queue[0] in q.dist
  {
    assert q.queue[0] in q.queue;
  }

  lemma WalkAt(g: Graph, p: seq<Id>, u: Id, v: Id, i: nat)
    requires Walk(g, p, u, v) && i < |p|
    ensures i + 1 < |p| ==> Arc(g, p[i], p[i + 1])
    ensures p[0] == u && (i == |p| - 1 ==> p[i] == v)
  {
  }

  /** A walk cannot get ahead of the distances. */
  lemma {:induction false} WalkBehind(g: Graph, s: Id, t: Id, q: Search, lo: nat, p: seq<Id>, v: Id, i: nat)
    requires Searching(g, s, t, q, {}, lo) && q.queue != [] && q.queue[0] in q.dist
    requires Walk(g, p, s, v) && i < |p| && i <= q.dist[q.queue[0]]
    ensures p[i] in q.dist && q.dist[p[i]] <= i
  {
    hide *;
    WalkAt(g, p, s, v, i);
    if i == 0 {
      SourceFound(g, s, t, q, {}, lo);
    } else {
      WalkBehind(g, s, t, q, lo, p, v, i - 1);
      NearerIsDone(g, s, t, q, lo, p[i - 1]);
      DoneExpanded(g, s, t, q, lo, p[i - 1]);
      WalkAt(g, p, s, v, i - 1);
      ExpandedArc(g, q, p[i - 1], p[i]);
    }
  }

  lemma NearWalkEnd(g: Graph, s: Id, t: Id, q: Search, lo: nat, p: seq<Id>, v: Id)
    requires Searching(g, s, t, q, {}, lo) && q.queue != [] && q.queue[0] in q.dist
    requires Walk(g, p, s, v) && |p| <= q.dist[q.queue[0]]
    ensures v in q.dist && q.dist[v] < |p|
  {
    hide *;
    WalkNonEmpty(g, p, s, v);
    WalkAt(g, p, s, v, |p| - 1);
    WalkBehind(g, s, t, q, lo, p, v, |p| - 1);
  }

  lemma WalkNonEmpty(g: Graph, p: seq<Id>, u: Id, v: Id)
    requires Walk(g, p, u, v)
    ensures |p| > 0
  {
  }

  /** When the target reaches the front, no walk to it is shorter than its distance. */
  lemma FrontIsNearest(g: Graph, s: Id, t: Id, q: Search, lo: nat, p: seq<Id>)
    requires Searching(g, s, t, q, {}, lo) && q.queue != [] && q.queue[0] == t && t in q.dist && Walk(g, p, s, t)
    ensures |p| >= q.dist[t] + 1
  {
    hide *;
    if |p| <= q.dist[t] {
      NearWalkEnd(g, s, t, q, lo, p, t);
    }
  }

  lemma {:induction false} WalkFound(g: Graph, s: Id, t: Id, q: Search, lo: nat, p: seq<Id>, v: Id, i: nat)
    requires Searching(g, s, t, q, {}, lo) && q.queue == [] && Walk(g, p, s, v) && i < |p|
    ensures Done(q, {}, p[i])
  {
    WalkAt(g, p, s, v, i);
    if i == 0 {
      SourceFound(g, s, t, q, {}, lo);
    } else {
      WalkFound(g, s, t, q, lo, p, v, i - 1);
      DoneExpanded(g, s, t, q, lo, p[i - 1]);
      WalkAt(g, p, s, v, i - 1);
      ExpandedArc(g, q, p[i - 1], p[i]);
    }
    hide Searching, Walk, Expanded;
  }

  lemma EmptyWalkEnd(g: Graph, s: Id, t: Id, q: Search, lo: nat, p: seq<Id>, v: Id)
    requires Searching(g, s, t, q, {}, lo) && q.queue == [] && Walk(g, p, s, v)
    ensures v != t
  {
    hide *;
    WalkNonEmpty(g, p, s, v);
    WalkAt(g, p, s, v, |p| - 1);
    WalkFound(g, s, t, q, lo, p, v, |p| - 1);
    DoneExpanded(g, s, t, q, lo, v);
  }

  /** When the queue runs empty, the target cannot be reached. */
  lemma EmptyMeansNoWalk(g: Graph, s: Id, t: Id, q: Search, lo: nat, p: seq<Id>)
    requires Searching(g, s, t, q, {}, lo) && q.queue == []
    ensures !Walk(g, p, s, t)
  {
    hide *;
    if Walk(g, p, s, t) {
      EmptyWalkEnd(g, s, t, q, lo, p, t);
    }
  }

  // ---- the path query ------------------------------------------------------------------

  ghost predicate ShortestPath(g: Graph, s: Id, t: Id, p: seq<Id>) {
    Walk(g, p, s, t) && forall w :: Walk(g, w, s, t) ==> |p| <= |w|
  }

  predicate Known(e: Edge) {
    e.status.Resolved? || e.status.Observed?
  }

  /** The arcs of the known edges. */
  function KnownGraph(edges: seq<Edge>): Graph {
    if edges == [] then map[]
    else
      var e := edges[|edges| - 1];
      var g := KnownGraph(edges[..|edges| - 1]);
      if Known(e) then AddArc(g, e.source, e.target) else g
  }

  lemma {:induction false} KnownGraphArcs(edges: seq<Edge>, u: Id, v: Id)
    ensures Arc(KnownGraph(edges), u, v)
            <==> exists e :: e in edges && (e.status.Resolved? || e.status.Observed?) && e.source == u && e.target == v
  {
    if edges != [] {
      var rest, e := edges[..|edges| - 1], edges[|edges| - 1];
      KnownGraphArcs(rest, u, v);
      assert edges == rest + [e];
      assert forall x :: x in edges <==> x in rest || x == e;
      hide Arc, Known;
    }
  }

  /** `outgoing.setdefault(edge.source, []).append(edge.target)` over the known edges. */
  method Outgoing(edges: seq<Edge>) returns (g: Graph)
    ensures g == KnownGraph(edges)
  {
    hide Known;
    g := map[];
    for i := 0 to |edges|
      invariant g == KnownGraph(edges[..i])
    {
      assert edges[..i + 1][..i] == edges[..i];
      if Known(edges[i]) {
        g := AddArc(g, edges[i].source, edges[i].target);
      }
    }
    assert edges[..|edges|] == edges;
  }

  function Reverse<T>(xs: seq<T>): (r: seq<T>)
    ensures |r| == |xs| && forall i :: 0 <= i < |xs| ==> r[i] == xs[|xs| - 1 - i]
  {
    seq(|xs|, i requires 0 <= i < |xs| => xs[|xs| - 1 - i])
  }

  /** Nodes collected from the target back, down to the one before `current`. */
  ghost predicate Backtrack(g: Graph, t: Id, q: Search, result: seq<Id>, current: Option<Id>) {
    (result == [] ==> current == Some(t)) && (result != [] ==> result[0] == t)
    && (forall i :: 0 <= i < |result| - 1 ==> Arc(g, result[i + 1], result[i]))
    && (current.Some? ==> current.value in q.dist && (result != [] ==> Arc(g, current.value, result[|result| - 1])))
  }

  lemma BacktrackStep(g: Graph, s: Id, t: Id, q: Search, result: seq<Id>, c: Id)
    requires Tree(g, s, q) && Backtrack(g, t, q, result, Some(c))
    ensures c in q.previous && c in q.dist && Backtrack(g, t, q, result + [c], q.previous[c])
    ensures q.previous[c].None? <==> c == s
    ensures c == s ==> q.dist[c] == 0
    ensures c != s ==> q.previous[c].value in q.dist && q.dist[c] == q.dist[q.previous[c].value] + 1
  {
    hide Arc;
    var r := result + [c];
    forall i | 0 <= i < |r| - 1
      ensures Arc(g, r[i + 1], r[i])
    {
      assert r[i] == result[i];
    }
  }

  lemma BacktrackWalk(g: Graph, s: Id, t: Id, q: Search, result: seq<Id>)
    requires Backtrack(g, t, q, result, None) && result != [] && result[|result| - 1] == s
    ensures Walk(g, Reverse(result), s, t)
  {
    hide Arc;
    var p := Reverse(result);
    forall i | 0 <= i < |p| - 1
      ensures Arc(g, p[i], p[i + 1])
    {
      assert p[i] == result[|result| - 1 - i] && p[i + 1] == result[|result| - 2 - i];
    }
  }

  lemma BacktrackNone(g: Graph, t: Id, q: Search)
    requires t in q.dist
    ensures Backtrack(g, t, q, [], Some(t))
  {
  }

  /** Follow the predecessors back from the target, then turn the list round. */
  method Trace(g: Graph, s: Id, t: Id, previous: map<Id, Option<Id>>, ghost q: Search) returns (p: seq<Id>)
    requires Tree(g, s, q) && t in q.dist && q.previous == previous
    ensures Walk(g, p, s, t) && |p| == q.dist[t] + 1
  {
    hide *;
    var result: seq<Id>, current := [], Some(t);
    BacktrackNone(g, t, q);
    while current.Some?
      invariant Backtrack(g, t, q, result, current)
      invariant current.Some? ==> current.value in q.dist && |result| + q.dist[current.value] == q.dist[t]
      invariant current.None? ==> result != [] && result[|result| - 1] == s && |result| == q.dist[t] + 1
      decreases if current.Some? then q.dist[current.value] + 1 else 0
    {
      BacktrackStep(g, s, t, q, result, current.value);
      result := result + [current.value];
      current := previous[current.value];
    }
    BacktrackWalk(g, s, t, q, result);
    p := Reverse(result);
  }

  // ---- the loop ---------------------------------------------------------------------

  /** Some of the successors of `c` have been visited. */
  ghost predicate Visited(q: Search, vs: seq<Id>, n: nat, lo: nat) {
    n <= |vs| && forall i :: 0 <= i < n ==> vs[i] in q.dist && q.dist[vs[i]] <= lo + 1
  }

  lemma VisitVisited(q: Search, c: Id, vs: seq<Id>, n: nat)
    requires q.previous.Keys == q.dist.Keys && c in q.dist && n < |vs| && Visited(q, vs, n, q.dist[c])
    requires vs[n] in q.dist ==> q.dist[vs[n]] <= q.dist[c] + 1
    ensures Visited(Visit(q, c, vs[n]), vs, n + 1, q.dist[c])
  {
  }

  /** No found node is more than one level below the one being expanded. */
  lemma FoundWithin(g: Graph, s: Id, t: Id, q: Search, c: Id, lo: nat, v: Id)
    requires Searching(g, s, t, q, {c}, lo) && v in q.dist
    ensures q.dist[v] <= lo + 1
  {
    if v != c && v !in q.queue {
      assert Done(q, {c}, v);
    }
    assert c in {c};
  }

  lemma CurrentIs(g: Graph, s: Id, t: Id, q: Search, c: Id, lo: nat)
    requires Searching(g, s, t, q, {c}, lo)
    ensures q.previous.Keys == q.dist.Keys && c in q.dist && c !in q.queue && q.dist[c] == lo
  {
    assert c in {c};
  }

  lemma AllVisited(g: Graph, q: Search, c: Id, vs: seq<Id>)
    requires c in q.dist && Visited(q, vs, |vs|, q.dist[c]) && forall v :: v in vs <==> v in Out(g, c)
    ensures Expanded(g, q, c)
  {
    forall v | Arc(g, c, v)
      ensures v in q.dist && q.dist[v] <= q.dist[c] + 1
    {
      assert v in vs;
    }
  }

  /** Everything found comes from the source or from an arc. */
  ghost predicate Within(g: Graph, s: Id, q: Search) {
    q.dist.Keys <= Targets(g) + {s}
  }

  /** The state of the inner loop after `n` successors of `c`. */
  ghost predicate Expanding(g: Graph, s: Id, t: Id, start: Search, q: Search, c: Id, lo: nat, vs: seq<Id>, n: nat) {
    Searching(g, s, t, q, {c}, lo) && Within(g, s, q) && Visited(q, vs, n, lo)
    && forall u :: Done(start, {c}, u) ==> Done(q, {c}, u)
  }

  lemma ExpandingStart(g: Graph, s: Id, t: Id, q: Search, c: Id, lo: nat, vs: seq<Id>)
    requires Searching(g, s, t, q, {c}, lo) && Within(g, s, q)
    ensures Expanding(g, s, t, q, q, c, lo, vs, 0) && c in q.dist
  {
    CurrentIs(g, s, t, q, c, lo);
  }

  lemma ExpandingParts(g: Graph, s: Id, t: Id, start: Search, q: Search, c: Id, lo: nat, vs: seq<Id>, n: nat)
    requires Expanding(g, s, t, start, q, c, lo, vs, n)
    ensures Searching(g, s, t, q, {c}, lo) && Within(g, s, q) && Visited(q, vs, n, lo)
    ensures q.previous.Keys == q.dist.Keys && c in q.dist && c !in q.queue && q.dist[c] == lo
  {
    CurrentIs(g, s, t, q, c, lo);
  }

  lemma ExpandingNext(g: Graph, s: Id, t: Id, start: Search, q: Search, c: Id, lo: nat, vs: seq<Id>, n: nat)
    requires Expanding(g, s, t, start, q, c, lo, vs, n) && n < |vs| && Arc(g, c, vs[n])
    ensures c in q.dist && Expanding(g, s, t, start, Visit(q, c, vs[n]), c, lo, vs, n + 1)
  {
    var v := vs[n];
    ExpandingParts(g, s, t, start, q, c, lo, vs, n);
    VisitSearching(g, s, t, q, c, v, lo);
    if v in q.dist {
      FoundWithin(g, s, t, q, c, lo, v);
    }
    VisitVisited(q, c, vs, n);
    VisitWithin(g, s, q, c, v);
    forall u | Done(start, {c}, u)
      ensures Done(Visit(q, c, v), {c}, u)
    {
      VisitDone(q, c, v, u);
    }
    hide Searching, Visited, Within, Visit, Done;
  }

  lemma VisitWithin(g: Graph, s: Id, q: Search, c: Id, v: Id)
    requires Within(g, s, q) && c in q.dist && Arc(g, c, v)
    ensures Within(g, s, Visit(q, c, v))
  {
  }

  lemma ExpandingEnd(g: Graph, s: Id, t: Id, start: Search, q: Search, c: Id, lo: nat, vs: seq<Id>)
    requires Expanding(g, s, t, start, q, c, lo, vs, |vs|) && forall v :: v in vs <==> v in Out(g, c)
    ensures Searching(g, s, t, q, {}, lo) && Within(g, s, q)
    ensures c in q.dist && c !in q.queue && forall u :: Done(start, {c}, u) ==> Done(q, {}, u)
  {
    ExpandingParts(g, s, t, start, q, c, lo, vs, |vs|);
    AllVisited(g, q, c, vs);
    FinishSearching(g, s, t, q, c, lo);
    hide Searching, Visited, Within;
  }

  lemma ArcFrom(g: Graph, c: Id, vs: seq<Id>, n: nat)
    requires n < |vs| && forall v :: v in vs <==> v in Out(g, c)
    ensures Arc(g, c, vs[n])
  {
    assert vs[n] in vs;
  }

  lemma VisitIs(q: Search, c: Id, v: Id)
    requires c in q.dist && q.previous.Keys == q.dist.Keys
    ensures v in q.previous ==> Visit(q, c, v) == q
    ensures v !in q.previous ==> Visit(q, c, v) == Search(q.previous[v := Some(c)], q.dist[v := q.dist[c] + 1], q.queue + [v])
  {
  }

  /** `for successor in sorted(outgoing.get(current, ()))`; distances exist for the proof only. */
  method Expand(g: Graph, s: Id, t: Id, found: map<Id, Option<Id>>, waiting: seq<Id>, ghost far: map<Id, nat>, c: Id, ghost lo: nat)
    returns (previous: map<Id, Option<Id>>, queue: seq<Id>, ghost dist: map<Id, nat>)
    requires Searching(g, s, t, Search(found, far, waiting), {c}, lo) && Within(g, s, Search(found, far, waiting))
    ensures Searching(g, s, t, Search(previous, dist, queue), {}, lo) && Within(g, s, Search(previous, dist, queue))
    ensures forall u :: Done(Search(found, far, waiting), {c}, u) ==> Done(Search(previous, dist, queue), {}, u)
    ensures c in dist && c !in queue
  {
    hide *;
    previous, queue, dist := found, waiting, far;
    ghost var start := Search(found, far, waiting);
    var vs := Sorted(Out(g, c));
    ExpandingStart(g, s, t, start, c, lo, vs);
    for i := 0 to |vs|
      invariant Expanding(g, s, t, start, Search(previous, dist, queue), c, lo, vs, i)
    {
      ghost var q := Search(previous, dist, queue);
      ArcFrom(g, c, vs, i);
      ExpandingParts(g, s, t, start, q, c, lo, vs, i);
      ExpandingNext(g, s, t, start, q, c, lo, vs, i);
      VisitIs(q, c, vs[i]);
      if vs[i] !in previous {
        previous := previous[vs[i] := Some(c)];
        dist := dist[vs[i] := dist[c] + 1];
        queue := queue + [vs[i]];
      }
    }
    ExpandingEnd(g, s, t, start, Search(previous, dist, queue), c, lo, vs);
  }

  /** Nodes taken from the queue so far: all of them done, so none can come round again. */
  ghost predicate Taken(g: Graph, s: Id, q: Search, taken: set<Id>) {
    Within(g, s, q) && taken <= Targets(g) + {s} && forall u :: u in taken ==> Done(q, {}, u)
  }

  lemma TakeNext(g: Graph, s: Id, t: Id, q: Search, lo: nat, taken: set<Id>)
    requires Searching(g, s, t, q, {}, lo) && Taken(g, s, q, taken) && q.queue != [] && q.queue[0] != t
    ensures var c := q.queue[0];
            c in q.dist && c !in taken && c in Targets(g) + {s} && Searching(g, s, t, Pop(q), {c}, q.dist[c])
            && Within(g, s, Pop(q))
  {
    PopSearching(g, s, t, q, lo);
    assert q.queue[0] in q.queue;
    hide Searching, Targets, Walk;
  }

  lemma TakenNext(g: Graph, s: Id, q: Search, r: Search, taken: set<Id>, c: Id)
    requires Taken(g, s, q, taken) && q.queue != [] && c == q.queue[0] && c !in taken && c in Targets(g) + {s}
    requires Within(g, s, r) && c in r.dist && c !in r.queue && forall u :: Done(Pop(q), {c}, u) ==> Done(r, {}, u)
    ensures Taken(g, s, r, taken + {c})
  {
    hide Within, Targets;
    forall u | u in taken + {c}
      ensures Done(r, {}, u)
    {
      if u != c {
        assert Done(q, {}, u);
        assert Done(Pop(q), {c}, u);
      }
    }
  }

  lemma Shrinks(all: set<Id>, taken: set<Id>, c: Id)
    requires c in all && c !in taken
    ensures |all - (taken + {c})| < |all - taken|
  {
    assert all - taken == (all - (taken + {c})) + {c};
  }

  lemma PathFound(g: Graph, s: Id, t: Id, q: Search, lo: nat, p: seq<Id>)
    requires Searching(g, s, t, q, {}, lo) && q.queue != [] && q.queue[0] == t && t in q.dist
    requires Walk(g, p, s, t) && |p| == q.dist[t] + 1
    ensures ShortestPath(g, s, t, p)
  {
    forall w | Walk(g, w, s, t)
      ensures |p| <= |w|
    {
      FrontIsNearest(g, s, t, q, lo, w);
    }
  }

  lemma NoPath(g: Graph, s: Id, t: Id, q: Search, lo: nat)
    requires Searching(g, s, t, q, {}, lo) && q.queue == []
    ensures forall w :: !Walk(g, w, s, t)
  {
    forall w
      ensures !Walk(g, w, s, t)
    {
      EmptyMeansNoWalk(g, s, t, q, lo, w);
    }
  }

  lemma SearchingTree(g: Graph, s: Id, t: Id, q: Search, lo: nat)
    requires Searching(g, s, t, q, {}, lo)
    ensures Tree(g, s, q)
  {
  }

  lemma PopIs(q: Search)
    requires q.queue != []
    ensures Pop(q) == Search(q.previous, q.dist, q.queue[1..])
  {
  }

  lemma StartIs(g: Graph, s: Id)
    ensures Start(s) == Search(map[s := None], map[s := 0], [s]) && Taken(g, s, Start(s), {})
  {
  }

  /** Breadth-first search: a shortest path over the known edges, or None exactly when there is no path. */
  method Path(edges: seq<Edge>, s: Id, t: Id) returns (p: Option<seq<Id>>)
    ensures match p
            case Some(w) => ShortestPath(KnownGraph(edges), s, t, w)
            case None => forall w :: !Walk(KnownGraph(edges), w, s, t)
  {
    hide *;
    var g := Outgoing(edges);
    var previous: map<Id, Option<Id>>, queue := map[s := None], [s];
    ghost var dist: map<Id, nat>, lo: nat, taken: set<Id> := map[s := 0], 0, {};
    ghost var all := Targets(g) + {s};
    StartSearching(g, s, t);
    StartIs(g, s);
    while queue != []
      invariant Searching(g, s, t, Search(previous, dist, queue), {}, lo) && Taken(g, s, Search(previous, dist, queue), taken)
      decreases |all - taken|
    {
      ghost var q := Search(previous, dist, queue);
      var current := queue[0];
      if current == t {
        SearchingTree(g, s, t, q, lo);
        FrontFound(g, s, t, q, lo);
        var w := Trace(g, s, t, previous, q);
        PathFound(g, s, t, q, lo, w);
        return Some(w);
      }
      TakeNext(g, s, t, q, lo, taken);
      PopIs(q);
      Shrinks(all, taken, current);
      lo := dist[current];
      previous, queue, dist := Expand(g, s, t, previous, queue[1..], dist, current, lo);
      TakenNext(g, s, q, Search(previous, dist, queue), taken, current);
      taken := taken + {current};
    }
    NoPath(g, s, t, Search(previous, dist, queue), lo);
    p := None;
  }
}
