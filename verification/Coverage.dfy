/** The coverage of a product: what its roots reach under the Atlas edge rule. */
module Coverage {
  import opened Memory
  import opened Atlas

  datatype Result = Covered(reachable: set<Id>) | NoRoots | MissingRoots(missing: seq<Id>)

  /** An edge that extends coverage to its target. */
  predicate Extending(e: Edge, kinds: map<Id, Kind>) {
    e.target in kinds
    && if Known(e) then !kinds[e.target].OtherKind? else e.status.Containment? && kinds[e.target].ExecutionPoint?
  }

  function CoverGraph(edges: seq<Edge>, kinds: map<Id, Kind>): Graph {
    if edges == [] then map[]
    else
      var e := edges[|edges| - 1];
      var g := CoverGraph(edges[..|edges| - 1], kinds);
      if Extending(e, kinds) then AddArc(g, e.source, e.target) else g
  }

  lemma {:induction false} CoverGraphArcs(edges: seq<Edge>, kinds: map<Id, Kind>, u: Id, v: Id)
    ensures Arc(CoverGraph(edges, kinds), u, v)
            <==> exists e :: e in edges && e.source == u && e.target == v && v in kinds
                             && (((e.status.Resolved? || e.status.Observed?)
                                  && (kinds[v].Function? || kinds[v].ExecutionPoint? || kinds[v].RuntimeCodeVariant? || kinds[v].Region?))
                                 || (e.status.Containment? && kinds[v].ExecutionPoint?))
  {
    if edges != [] {
      var rest, e := edges[..|edges| - 1], edges[|edges| - 1];
      CoverGraphArcs(rest, kinds, u, v);
      assert edges == rest + [e];
      assert forall x :: x in edges <==> x in rest || x == e;
      hide Arc, Extending;
    }
  }

  ghost predicate ClosedUnder(g: Graph, s: set<Id>) {
    forall u, v :: u in s && Arc(g, u, v) ==> v in s
  }

  ghost predicate HoldsRoots(roots: seq<Id>, s: set<Id>) {
    forall x :: x in roots ==> x in s
  }

  /** The least set that holds the roots and is closed under the arcs. */
  ghost predicate LeastClosed(g: Graph, roots: seq<Id>, r: set<Id>) {
    HoldsRoots(roots, r) && ClosedUnder(g, r)
    && forall s: set<Id> :: HoldsRoots(roots, s) && ClosedUnder(g, s) ==> r <= s
  }

  /** The worklist: what has been reached leads to what has been reached or is queued, and nothing else is. */
  ghost predicate Sweeping(g: Graph, roots: seq<Id>, reachable: set<Id>, queue: seq<Id>) {
    (forall x :: x in roots ==> x in reachable || x in queue)
    && (forall u, v :: u in reachable && Arc(g, u, v) ==> v in reachable || v in queue)
    && (forall s: set<Id> :: HoldsRoots(roots, s) && ClosedUnder(g, s) ==> reachable <= s && forall x :: x in queue ==> x in s)
    && Bounded(g, roots, reachable, queue)
  }

  ghost predicate Bounded(g: Graph, roots: seq<Id>, reachable: set<Id>, queue: seq<Id>) {
    var all := Targets(g) + Members(roots);
    reachable <= all && forall x :: x in queue ==> x in all
  }

  function Members(xs: seq<Id>): (r: set<Id>)
    ensures forall x :: x in r <==> x in xs
  {
    set x | x in xs
  }

  lemma SweepingStart(g: Graph, roots: seq<Id>)
    ensures Sweeping(g, roots, {}, roots)
  {
  }

  /** A queued node that has already been reached is dropped: duplicates cost nothing but the pop. */
  lemma SweepingDrop(g: Graph, roots: seq<Id>, reachable: set<Id>, queue: seq<Id>)
    requires Sweeping(g, roots, reachable, queue) && queue != [] && queue[0] in reachable
    ensures Sweeping(g, roots, reachable, queue[1..])
  {
    assert forall x :: x in queue <==> x == queue[0] || x in queue[1..];
  }

  lemma SweepingReach(g: Graph, roots: seq<Id>, reachable: set<Id>, queue: seq<Id>, more: seq<Id>)
    requires Sweeping(g, roots, reachable, queue) && queue != [] && queue[0] !in reachable
    requires forall v :: v in more <==> v in Out(g, queue[0])
    ensures Sweeping(g, roots, reachable + {queue[0]}, queue[1..] + more)
    ensures queue[0] in Targets(g) + Members(roots)
  {
    var c, rest := queue[0], queue[1..];
    assert forall x :: x in queue <==> x == c || x in rest;
    assert forall x :: x in rest + more <==> x in rest || x in more;
    forall s: set<Id> | HoldsRoots(roots, s) && ClosedUnder(g, s)
      ensures reachable + {c} <= s && forall x :: x in rest + more ==> x in s
    {
      assert c in queue;
      forall x | x in more
        ensures x in s
      {
        assert Arc(g, c, x);
      }
    }
    assert Bounded(g, roots, reachable + {c}, rest + more) by {
      hide Targets;
      forall x | x in more
        ensures x in Targets(g)
      {
        assert Arc(g, c, x);
      }
    }
  }

  lemma SweepingEnd(g: Graph, roots: seq<Id>, reachable: set<Id>)
    requires Sweeping(g, roots, reachable, [])
    ensures LeastClosed(g, roots, reachable)
  {
    assert ClosedUnder(g, reachable);
    assert HoldsRoots(roots, reachable);
  }

  method Outgoing(edges: seq<Edge>, kinds: map<Id, Kind>) returns (g: Graph)
    ensures g == CoverGraph(edges, kinds)
  {
    hide Extending;
    g := map[];
    for i := 0 to |edges|
      invariant g == CoverGraph(edges[..i], kinds)
    {
      assert edges[..i + 1][..i] == edges[..i];
      if Extending(edges[i], kinds) {
        g := AddArc(g, edges[i].source, edges[i].target);
      }
    }
    assert edges[..|edges|] == edges;
  }

  /** The roots that name no node. */
  method Missing(roots: seq<Id>, kinds: map<Id, Kind>) returns (missing: seq<Id>)
    ensures forall x :: x in missing <==> x in roots && x !in kinds
  {
    missing := [];
    for i := 0 to |roots|
      invariant forall x :: x in missing <==> x in roots[..i] && x !in kinds
    {
      assert forall x :: x in roots[..i + 1] <==> x in roots[..i] || x == roots[i];
      if roots[i] !in kinds {
        missing := missing + [roots[i]];
      }
    }
    assert roots[..|roots|] == roots;
  }

  lemma StillShrinks(g: Graph, roots: seq<Id>, reachable: set<Id>, c: Id)
    requires c in Targets(g) + Members(roots) && c !in reachable
    ensures |Targets(g) + Members(roots) - (reachable + {c})| < |Targets(g) + Members(roots) - reachable|
  {
    Shrinks(Targets(g) + Members(roots), reachable, c);
  }

  /** `coverage_for`: the worklist computes the least closed set, however often a node is queued. */
  method CoverageFor(roots: seq<Id>, kinds: map<Id, Kind>, edges: seq<Edge>) returns (r: Result)
    ensures r.NoRoots? <==> roots == []
    ensures r.MissingRoots? <==> roots != [] && exists x :: x in roots && x !in kinds
    ensures r.MissingRoots? ==> forall x :: x in r.missing <==> x in roots && x !in kinds
    ensures r.Covered? ==> LeastClosed(CoverGraph(edges, kinds), roots, r.reachable)
  {
    if roots == [] {
      return NoRoots;
    }
    var missing := Missing(roots, kinds);
    if missing != [] {
      assert missing[0] in missing;
      return MissingRoots(missing);
    }
    var reachable := Sweep(roots, kinds, edges);
    r := Covered(reachable);
  }

  method Sweep(roots: seq<Id>, kinds: map<Id, Kind>, edges: seq<Edge>) returns (reachable: set<Id>)
    ensures LeastClosed(CoverGraph(edges, kinds), roots, reachable)
  {
    hide *;
    var g := Outgoing(edges, kinds);
    var queue := roots;
    reachable := {};
    SweepingStart(g, roots);
    while queue != []
      invariant Sweeping(g, roots, reachable, queue)
      decreases |Targets(g) + Members(roots) - reachable|, |queue|
    {
      var current := queue[0];
      if current in reachable {
        SweepingDrop(g, roots, reachable, queue);
        queue := queue[1..];
      } else {
        var more := Sorted(Out(g, current));
        SweepingReach(g, roots, reachable, queue, more);
        StillShrinks(g, roots, reachable, current);
        reachable := reachable + {current};
        queue := queue[1..] + more;
      }
    }
    SweepingEnd(g, roots, reachable);
  }

  // ---- least closed means reachable ----------------------------------------------------

  ghost predicate WalkedTo(g: Graph, roots: seq<Id>, x: Id) {
    exists root, p :: root in roots && Walk(g, p, root, x)
  }

  lemma {:induction false} WalkStays(g: Graph, s: set<Id>, p: seq<Id>, u: Id, v: Id, i: nat)
    requires ClosedUnder(g, s) && u in s && Walk(g, p, u, v) && i < |p|
    ensures p[i] in s
  {
    if i > 0 {
      WalkStays(g, s, p, u, v, i - 1);
      assert Arc(g, p[i - 1], p[i]);
    }
  }

  lemma WalkOn(g: Graph, p: seq<Id>, u: Id, v: Id, w: Id)
    requires Walk(g, p, u, v) && Arc(g, v, w)
    ensures Walk(g, p + [w], u, w)
  {
    hide Arc;
    var q := p + [w];
    forall i | 0 <= i < |q| - 1
      ensures Arc(g, q[i], q[i + 1])
    {
      assert q[i] == p[i] && (i + 1 < |p| ==> q[i + 1] == p[i + 1]);
    }
  }

  lemma WalkedOn(g: Graph, roots: seq<Id>, v: Id, w: Id)
    requires WalkedTo(g, roots, v) && Arc(g, v, w)
    ensures WalkedTo(g, roots, w)
  {
    var root, p :| root in roots && Walk(g, p, root, v);
    WalkOn(g, p, root, v, w);
  }

  lemma WalkedFromRoot(g: Graph, roots: seq<Id>, x: Id)
    requires x in roots
    ensures WalkedTo(g, roots, x)
  {
    assert Walk(g, [x], x, x);
  }

  /** The least closed set holds exactly the nodes a walk from some root reaches. */
  lemma CoverageIsReachability(g: Graph, roots: seq<Id>, r: set<Id>, x: Id)
    requires LeastClosed(g, roots, r)
    ensures x in r <==> WalkedTo(g, roots, x)
  {
    hide Walk, Arc;
    if WalkedTo(g, roots, x) {
      var root, p :| root in roots && Walk(g, p, root, x);
      WalkNonEmpty(g, p, root, x);
      WalkAt(g, p, root, x, |p| - 1);
      WalkStays(g, r, p, root, x, |p| - 1);
    }
    hide WalkedTo;
    var s := set y | y in r && WalkedTo(g, roots, y);
    forall u, v | u in s && Arc(g, u, v)
      ensures v in s
    {
      WalkedOn(g, roots, u, v);
    }
    forall y | y in roots
      ensures y in s
    {
      WalkedFromRoot(g, roots, y);
    }
    assert ClosedUnder(g, s) && HoldsRoots(roots, s);
  }
}
