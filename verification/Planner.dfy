/** Resolving an execution plan: candidates by preference and policy, region ownership, services, capabilities. */
module Planner {
  import opened Memory
  import opened Atlas
  import opened Coverage

  datatype Contract = Contract(regionId: Id, carrierId: Id, covered: set<Id>)

  datatype Category = Baseline | Faithful | Enhancement | Behavioral | Instrumentation

  datatype Implementation = Implementation(id: Id, targets: set<Id>, authored: bool, category: Category, grade: nat,
                                           capabilities: set<Id>, services: set<Id>, platforms: set<Id>, carrier: Id,
                                           contract: Option<Contract>, hasDigest: bool) {
    /** Enhancements and instrumentation never own a target. */
    predicate Attaches() {
      category.Enhancement? || category.Instrumentation?
    }
  }

  /** The carriers an implementation has adapters for; region adapters pair a host with a region carrier. */
  datatype Entry = Entry(adapters: set<Id>, regionAdapters: set<(Id, Id)>)

  datatype Policy = Policy(forbidden: set<Id>, required: set<Id>, minimumEvidence: nat)

  /** What is fixed while candidates are judged: policy, build platform, execution carrier, catalog entries. */
  datatype Context = Context(policy: Policy, platform: Option<Id>, carrier: Id, entries: map<Id, Entry>)

  function EntryOf(ctx: Context, id: Id): Entry {
    if id in ctx.entries then ctx.entries[id] else Entry({}, {})
  }

  /** `_candidate_rejections` gives at least one reason. */
  predicate Rejected(ctx: Context, item: Implementation) {
    item.capabilities * ctx.policy.forbidden != {}
    || (ctx.platform.Some? && item.platforms != {} && ctx.platform.value !in item.platforms)
    || (item.authored && item.grade < ctx.policy.minimumEvidence)
    || (ctx.carrier != ""
        && if item.contract.Some? then (ctx.carrier, item.contract.value.carrierId) !in EntryOf(ctx, item.id).regionAdapters
           else item.carrier != ctx.carrier && ctx.carrier !in EntryOf(ctx, item.id).adapters)
  }

  // ---- preference ------------------------------------------------------------------------

  /** `{id: index for index, id in enumerate(preference)}.get(id, len)`: a repeated entry counts where it stands last. */
  function Rank(preference: seq<Id>, id: Id): nat {
    LastIndex(preference, id, |preference|)
  }

  function LastIndex(preference: seq<Id>, id: Id, n: nat): nat
    requires n <= |preference|
  {
    if n == 0 then DistinctCount(preference)
    else if preference[n - 1] == id then n - 1
    else LastIndex(preference, id, n - 1)
  }

  /** `len(rank)` */
  function DistinctCount(preference: seq<Id>): nat {
    |Members(preference)|
  }

  /** The order of the sort key (rank, id). */
  predicate NotAfter(preference: seq<Id>, a: Implementation, b: Implementation) {
    var (x, y) := (Rank(preference, a.id), Rank(preference, b.id));
    x < y || (x == y && (a.id == b.id || Before(a.id, b.id)))
  }

  lemma {:induction false} BeforeTotal(a: Id, b: Id)
    ensures a == b || Before(a, b) || Before(b, a)
    decreases |a|
  {
    if a != "" && b != "" && a[0] == b[0] {
      BeforeTotal(a[1..], b[1..]);
      assert a == [a[0]] + a[1..] && b == [b[0]] + b[1..];
    }
  }

  lemma {:induction false} BeforeTransitive(a: Id, b: Id, c: Id)
    requires Before(a, b) && Before(b, c)
    ensures Before(a, c)
    decreases |a|
  {
    if a != "" && b != "" && c != "" && a[0] == b[0] && b[0] == c[0] {
      BeforeTransitive(a[1..], b[1..], c[1..]);
    }
  }

  lemma NotAfterTotal(preference: seq<Id>, a: Implementation, b: Implementation)
    ensures NotAfter(preference, a, b) || NotAfter(preference, b, a)
  {
    BeforeTotal(a.id, b.id);
    hide Rank, Before;
  }

  lemma NotAfterTransitive(preference: seq<Id>, a: Implementation, b: Implementation, c: Implementation)
    requires NotAfter(preference, a, b) && NotAfter(preference, b, c)
    ensures NotAfter(preference, a, c)
  {
    if Before(a.id, b.id) && Before(b.id, c.id) {
      BeforeTransitive(a.id, b.id, c.id);
    }
    hide Rank, Before;
  }

  // ---- what the preference order is ----------------------------------------------------------

  /** No entry is listed twice. */
  predicate NoRepeats(xs: seq<Id>) {
    forall i, j :: 0 <= i < j < |xs| ==> xs[i] != xs[j]
  }

  /** `a` is not listed after some place where `b` is. */
  ghost predicate ListedNoLater(preference: seq<Id>, a: Id, b: Id) {
    exists j :: 0 <= j < |preference| && preference[j] == b && a !in preference[j + 1..]
  }

  lemma {:induction false} LastIndexIs(preference: seq<Id>, id: Id, n: nat)
    requires n <= |preference|
    ensures var r := LastIndex(preference, id, n);
            if id in preference[..n] then r < n && preference[r] == id && id !in preference[r + 1..n] else r == DistinctCount(preference)
  {
    if n > 0 {
      assert preference[..n] == preference[..n - 1] + [preference[n - 1]];
      if preference[n - 1] != id {
        LastIndexIs(preference, id, n - 1);
        var r := LastIndex(preference, id, n - 1);
        if id in preference[..n - 1] {
          assert preference[r + 1..n] == preference[r + 1..n - 1] + [preference[n - 1]];
        }
      }
    }
  }

  /** A listed identity ranks where it stands last, any other as the number of different entries. */
  lemma RankIs(preference: seq<Id>, id: Id)
    ensures var r := Rank(preference, id);
            if id in preference then r < |preference| && preference[r] == id && id !in preference[r + 1..]
            else r == |Members(preference)|
  {
    LastIndexIs(preference, id, |preference|);
    assert preference[..|preference|] == preference;
  }

  lemma {:induction false} DistinctOnly(preference: seq<Id>)
    ensures |Members(preference)| <= |preference|
    ensures |Members(preference)| == |preference| <==> NoRepeats(preference)
  {
    if preference != [] {
      var k := |preference| - 1;
      var init, x := preference[..k], preference[k];
      DistinctOnly(init);
      assert preference == init + [x];
      assert Members(preference) == Members(init) + {x};
      if x in init {
        var i :| 0 <= i < k && preference[i] == x;
        assert Members(preference) == Members(init);
        assert !NoRepeats(preference);
      } else {
        assert NoRepeats(preference) <==> NoRepeats(init);
      }
    }
  }

  /** Everything listed comes before everything else exactly when nothing is listed twice. */
  lemma ListedFirstExactly(preference: seq<Id>, other: Id)
    requires other !in preference
    ensures (forall a :: a in preference ==> Rank(preference, a) < Rank(preference, other)) <==> NoRepeats(preference)
  {
    RankIs(preference, other);
    DistinctOnly(preference);
    forall a | a in preference
      ensures Rank(preference, a) < |preference|
    {
      RankIs(preference, a);
    }
    if !NoRepeats(preference) {
      var last := preference[|preference| - 1];
      RankIs(preference, last);
      assert last in preference && Rank(preference, last) == |preference| - 1;
    }
    hide Rank;
  }

  /** The order of candidates, on places in the list. */
  ghost predicate InPlace(preference: seq<Id>, a: Id, b: Id) {
    if a in preference && b in preference then ListedNoLater(preference, a, b)
    else if a !in preference && b !in preference then a == b || exists k: nat :: BeforeAt(a, b, k)
    else a in preference
  }

  lemma InTail(preference: seq<Id>, k: nat, i: nat)
    requires i < |preference|
    ensures k < i ==> preference[i] in preference[k + 1..]
  {
    if k < i {
      assert preference[k + 1..][i - k - 1] == preference[i];
    }
  }

  lemma ListedByRank(preference: seq<Id>, a: Id, b: Id)
    requires a in preference && b in preference
    ensures Rank(preference, a) <= Rank(preference, b) <==> ListedNoLater(preference, a, b)
  {
    RankIs(preference, a);
    RankIs(preference, b);
    hide Rank;
    var i, j := Rank(preference, a), Rank(preference, b);
    if i <= j {
      assert preference[j + 1..] == preference[i + 1..][j - i..];
      assert a !in preference[j + 1..];
    }
    if ListedNoLater(preference, a, b) {
      var k :| 0 <= k < |preference| && preference[k] == b && a !in preference[k + 1..];
      InTail(preference, k, i);
      InTail(preference, j, k);
    }
  }

  /** Two listed identities come in the order they stand last; two others in the order of their names. */
  lemma NotAfterMeans(preference: seq<Id>, x: Implementation, y: Implementation)
    requires NoRepeats(preference) || (x.id in preference <==> y.id in preference)
    ensures NotAfter(preference, x, y) <==> InPlace(preference, x.id, y.id)
  {
    BeforeMeans(x.id, y.id);
    RankIs(preference, x.id);
    RankIs(preference, y.id);
    if x.id in preference && y.id in preference {
      ListedByRank(preference, x.id, y.id);
      SameRank(preference, x.id, y.id);
    } else if x.id in preference {
      ListedFirstExactly(preference, y.id);
    } else if y.id in preference {
      ListedFirstExactly(preference, x.id);
    }
    hide Rank, ListedNoLater, Before, BeforeAt;
  }

  lemma SameRank(preference: seq<Id>, a: Id, b: Id)
    requires a in preference && b in preference
    ensures Rank(preference, a) == Rank(preference, b) ==> a == b
  {
    RankIs(preference, a);
    RankIs(preference, b);
  }

  ghost predicate InOrder(preference: seq<Id>, xs: seq<Implementation>) {
    forall i, j :: 0 <= i < j < |xs| ==> NotAfter(preference, xs[i], xs[j])
  }

  function InsertBy(preference: seq<Id>, x: Implementation, xs: seq<Implementation>): (r: seq<Implementation>)
    ensures forall y :: y in r <==> y == x || y in xs
  {
    if xs == [] then [x]
    else if NotAfter(preference, xs[0], x) then [xs[0]] + InsertBy(preference, x, xs[1..])
    else [x] + xs
  }

  /** The candidates of a target, most preferred first. */
  function Ordered(target: Id, items: seq<Implementation>, preference: seq<Id>): (r: seq<Implementation>)
    ensures forall y :: y in r <==> y in items && target in y.targets
  {
    if items == [] then []
    else
      var rest := Ordered(target, items[1..], preference);
      if target in items[0].targets then InsertBy(preference, items[0], rest) else rest
  }

  lemma InOrderCons(preference: seq<Id>, x: Implementation, xs: seq<Implementation>)
    requires InOrder(preference, xs) && forall y :: y in xs ==> NotAfter(preference, x, y)
    ensures InOrder(preference, [x] + xs)
  {
    hide NotAfter;
    var t := [x] + xs;
    forall i, j | 0 <= i < j < |t|
      ensures NotAfter(preference, t[i], t[j])
    {
      assert t[j] == xs[j - 1] && xs[j - 1] in xs;
      assert i > 0 ==> t[i] == xs[i - 1];
    }
  }

  lemma HeadNotAfter(preference: seq<Id>, xs: seq<Implementation>)
    requires InOrder(preference, xs) && xs != []
    ensures InOrder(preference, xs[1..]) && forall y :: y in xs[1..] ==> NotAfter(preference, xs[0], y)
  {
    hide NotAfter;
  }

  lemma {:induction false} InsertInOrder(preference: seq<Id>, x: Implementation, xs: seq<Implementation>)
    requires InOrder(preference, xs)
    ensures InOrder(preference, InsertBy(preference, x, xs))
  {
    hide NotAfter;
    if xs != [] {
      HeadNotAfter(preference, xs);
      NotAfterTotal(preference, xs[0], x);
      if NotAfter(preference, xs[0], x) {
        InsertInOrder(preference, x, xs[1..]);
        InOrderCons(preference, xs[0], InsertBy(preference, x, xs[1..]));
      } else {
        forall y | y in xs
          ensures NotAfter(preference, x, y)
        {
          if y != xs[0] {
            assert y in xs[1..];
            NotAfterTransitive(preference, x, xs[0], y);
          }
        }
        InOrderCons(preference, x, xs);
      }
    }
  }

  lemma {:induction false} OrderedInOrder(target: Id, items: seq<Implementation>, preference: seq<Id>)
    ensures InOrder(preference, Ordered(target, items, preference))
  {
    if items != [] {
      hide InOrder, InsertBy;
      OrderedInOrder(target, items[1..], preference);
      InsertInOrder(preference, items[0], Ordered(target, items[1..], preference));
    } else {
      assert InOrder(preference, []);
    }
  }

  /**
   What the policy asks of a candidate: no forbidden capability, the build platform among its
   own, enough evidence if it is authored, and for a carrier either its own or an adapter.
   */
  ghost predicate Eligible(ctx: Context, x: Implementation) {
    (forall c :: c in x.capabilities ==> c !in ctx.policy.forbidden)
    && (ctx.platform.Some? && x.platforms != {} ==> ctx.platform.value in x.platforms)
    && (x.authored ==> ctx.policy.minimumEvidence <= x.grade)
    && (ctx.carrier != "" && x.contract.Some? ==>
          x.id in ctx.entries && (ctx.carrier, x.contract.value.carrierId) in ctx.entries[x.id].regionAdapters)
    && (ctx.carrier != "" && x.contract.None? ==>
          x.carrier == ctx.carrier || (x.id in ctx.entries && ctx.carrier in ctx.entries[x.id].adapters))
  }

  lemma EligibleIs(ctx: Context, x: Implementation)
    ensures Eligible(ctx, x) <==> !Rejected(ctx, x)
  {
    ApartMeans(x.capabilities, ctx.policy.forbidden);
  }

  lemma ApartMeans<T>(a: set<T>, b: set<T>)
    ensures a * b == {} <==> forall c :: c in a ==> c !in b
  {
    if a * b != {} {
      var c :| c in a * b;
    } else {
      forall c | c in a
        ensures c !in b
      {
        assert c !in a * b;
      }
    }
  }

  /** A candidate the policy admits. */
  predicate Admitted(ctx: Context, items: seq<Implementation>, target: Id, x: Implementation) {
    x in items && target in x.targets && !Rejected(ctx, x)
  }

  /** The admitted candidate no other admitted one comes before. */
  ghost predicate MostPreferred(ctx: Context, items: seq<Implementation>, preference: seq<Id>, target: Id, x: Implementation) {
    Admitted(ctx, items, target, x) && forall y :: Admitted(ctx, items, target, y) ==> NotAfter(preference, x, y)
  }

  /** An eligible owner of the target; among listed ones none stands before it, among the others none has a smaller name. */
  ghost predicate Picked(ctx: Context, items: seq<Implementation>, preference: seq<Id>, target: Id, x: Implementation) {
    x in items && target in x.targets && Eligible(ctx, x)
    && forall y :: y in items && target in y.targets && Eligible(ctx, y) ==>
         (x.id in preference && y.id in preference ==> ListedNoLater(preference, x.id, y.id))
         && (x.id !in preference && y.id !in preference ==> x.id == y.id || exists k: nat :: BeforeAt(x.id, y.id, k))
         && (NoRepeats(preference) && y.id in preference ==> x.id in preference)
  }

  lemma AdmittedIs(ctx: Context, items: seq<Implementation>, target: Id, y: Implementation)
    ensures Admitted(ctx, items, target, y) <==> y in items && target in y.targets && Eligible(ctx, y)
  {
    EligibleIs(ctx, y);
    hide Eligible, Rejected;
  }

  lemma BestIsPicked(ctx: Context, items: seq<Implementation>, preference: seq<Id>, target: Id, x: Implementation)
    requires MostPreferred(ctx, items, preference, target, x)
    ensures Picked(ctx, items, preference, target, x)
  {
    AdmittedIs(ctx, items, target, x);
    hide Eligible, Admitted, NotAfter, NoRepeats, ListedNoLater, BeforeAt;
    forall y | y in items && target in y.targets && Eligible(ctx, y)
      ensures (x.id in preference && y.id in preference ==> ListedNoLater(preference, x.id, y.id))
      ensures (x.id !in preference && y.id !in preference ==> x.id == y.id || exists k: nat :: BeforeAt(x.id, y.id, k))
      ensures NoRepeats(preference) && y.id in preference ==> x.id in preference
    {
      AdmittedIs(ctx, items, target, y);
      if NoRepeats(preference) || (x.id in preference <==> y.id in preference) {
        NotAfterMeans(preference, x, y);
      }
    }
  }

  /** With every entry listed once, that is all there is to the choice. */
  lemma PickedIsBest(ctx: Context, items: seq<Implementation>, preference: seq<Id>, target: Id, x: Implementation)
    requires NoRepeats(preference) && Picked(ctx, items, preference, target, x)
    ensures MostPreferred(ctx, items, preference, target, x)
  {
    AdmittedIs(ctx, items, target, x);
    hide Eligible, Admitted, NotAfter, NoRepeats, ListedNoLater, BeforeAt;
    forall y | Admitted(ctx, items, target, y)
      ensures NotAfter(preference, x, y)
    {
      AdmittedIs(ctx, items, target, y);
      NotAfterMeans(preference, x, y);
    }
  }

  /** `next(candidate for candidate in candidates if not rejected)` */
  method Select(ctx: Context, items: seq<Implementation>, preference: seq<Id>, target: Id) returns (r: Option<Implementation>)
    ensures match r
            case None => forall y :: !Admitted(ctx, items, target, y)
            case Some(x) => MostPreferred(ctx, items, preference, target, x)
    ensures match r
            case None => forall y :: y in items && target in y.targets ==> !Eligible(ctx, y)
            case Some(x) => Picked(ctx, items, preference, target, x)
  {
    forall y
      ensures Admitted(ctx, items, target, y) <==> y in items && target in y.targets && Eligible(ctx, y)
    {
      AdmittedIs(ctx, items, target, y);
    }
    var candidates := Ordered(target, items, preference);
    OrderedInOrder(target, items, preference);
    hide Rejected, NotAfter, Ordered, Picked, Eligible;
    for i := 0 to |candidates|
      invariant forall k :: 0 <= k < i ==> Rejected(ctx, candidates[k])
    {
      if !Rejected(ctx, candidates[i]) {
        FirstIsBest(ctx, items, preference, target, candidates, i);
        BestIsPicked(ctx, items, preference, target, candidates[i]);
        return Some(candidates[i]);
      }
    }
    r := None;
  }

  lemma FirstIsBest(ctx: Context, items: seq<Implementation>, preference: seq<Id>, target: Id, xs: seq<Implementation>, i: nat)
    requires InOrder(preference, xs) && i < |xs| && !Rejected(ctx, xs[i])
    requires forall k :: 0 <= k < i ==> Rejected(ctx, xs[k])
    requires forall y :: y in xs <==> y in items && target in y.targets
    ensures MostPreferred(ctx, items, preference, target, xs[i])
  {
    assert xs[i] in xs;
    NotAfterTotal(preference, xs[i], xs[i]);
    hide Rejected, NotAfter;
    forall y | Admitted(ctx, items, target, y)
      ensures NotAfter(preference, xs[i], y)
    {
      assert y in xs;
      var k :| 0 <= k < |xs| && xs[k] == y;
    }
  }

  // ---- bindings -----------------------------------------------------------------------

  /** Every reachable target is bound, to its most preferred admitted candidate, or has none. */
  ghost predicate Bound(ctx: Context, items: seq<Implementation>, preference: seq<Id>, targets: set<Id>,
                        bindings: map<Id, Implementation>, unresolved: set<Id>) {
    bindings.Keys + unresolved == targets && bindings.Keys !! unresolved
    && (forall t :: t in bindings ==> MostPreferred(ctx, items, preference, t, bindings[t]))
    && (forall t :: t in unresolved ==> forall y :: !Admitted(ctx, items, t, y))
  }

  lemma BoundNone(ctx: Context, items: seq<Implementation>, preference: seq<Id>)
    ensures Bound(ctx, items, preference, {}, map[], {})
  {
  }

  lemma BoundNext(ctx: Context, items: seq<Implementation>, preference: seq<Id>, targets: set<Id>, target: Id,
                  bindings: map<Id, Implementation>, unresolved: set<Id>)
    requires Bound(ctx, items, preference, targets, bindings, unresolved) && target !in targets
    ensures (forall y :: !Admitted(ctx, items, target, y)) ==>
              Bound(ctx, items, preference, targets + {target}, bindings, unresolved + {target})
    ensures forall x :: MostPreferred(ctx, items, preference, target, x) ==>
              Bound(ctx, items, preference, targets + {target}, bindings[target := x], unresolved)
  {
    hide MostPreferred, Admitted;
    forall x | MostPreferred(ctx, items, preference, target, x)
      ensures Bound(ctx, items, preference, targets + {target}, bindings[target := x], unresolved)
    {
      assert bindings[target := x].Keys == bindings.Keys + {target};
    }
  }

  /** Every reachable target is bound to the one picked for it, or no owner of it is eligible. */
  ghost predicate AllPicked(ctx: Context, items: seq<Implementation>, preference: seq<Id>, targets: set<Id>,
                            bindings: map<Id, Implementation>, unresolved: set<Id>) {
    (forall t :: t in targets <==> t in bindings || t in unresolved) && (forall t :: t in bindings ==> t !in unresolved)
    && (forall t :: t in bindings ==> Picked(ctx, items, preference, t, bindings[t]))
    && (forall t, y :: t in unresolved && y in items && t in y.targets ==> !Eligible(ctx, y))
  }

  lemma BoundIsPicked(ctx: Context, items: seq<Implementation>, preference: seq<Id>, targets: set<Id>,
                      bindings: map<Id, Implementation>, unresolved: set<Id>)
    requires Bound(ctx, items, preference, targets, bindings, unresolved)
    ensures AllPicked(ctx, items, preference, targets, bindings, unresolved)
  {
    hide MostPreferred, Picked, Admitted, Eligible;
    assert forall t :: t in targets <==> t in bindings.Keys + unresolved;
    forall t | t in bindings
      ensures Picked(ctx, items, preference, t, bindings[t])
    {
      BestIsPicked(ctx, items, preference, t, bindings[t]);
    }
    forall t, y | t in unresolved && y in items && t in y.targets
      ensures !Eligible(ctx, y)
    {
      AdmittedIs(ctx, items, t, y);
    }
  }

  method Bind(ctx: Context, items: seq<Implementation>, preference: seq<Id>, reachable: set<Id>)
    returns (bindings: map<Id, Implementation>, unresolved: set<Id>)
    ensures Bound(ctx, items, preference, reachable, bindings, unresolved)
    ensures AllPicked(ctx, items, preference, reachable, bindings, unresolved)
  {
    hide *;
    bindings, unresolved := map[], {};
    var todo := reachable;
    assert reachable - reachable == {};
    BoundNone(ctx, items, preference);
    while todo != {}
      invariant todo <= reachable && Bound(ctx, items, preference, reachable - todo, bindings, unresolved)
      decreases |todo|
    {
      var target :| target in todo;
      var selected := Select(ctx, items, preference, target);
      assert reachable - (todo - {target}) == reachable - todo + {target};
      BoundNext(ctx, items, preference, reachable - todo, target, bindings, unresolved);
      match selected {
        case None => unresolved := unresolved + {target};
        case Some(x) => bindings := bindings[target := x];
      }
      todo := todo - {target};
    }
    assert reachable - {} == reachable;
    BoundIsPicked(ctx, items, preference, reachable, bindings, unresolved);
  }

  // ---- regions --------------------------------------------------------------------------

  /** A selected region is bound as one unit, inside the coverage, with an adapter from the carrier. */
  ghost predicate RegionBound(ctx: Context, bindings: map<Id, Implementation>, reachable: set<Id>, x: Implementation)
    requires x.contract.Some?
  {
    (forall t :: t in x.targets ==> t in bindings && bindings[t].id == x.id)
    && x.contract.value.covered <= reachable
    && (ctx.carrier, x.contract.value.carrierId) in EntryOf(ctx, x.id).regionAdapters
  }

  /** Regions with different identities own different targets. */
  ghost predicate Separate(selected: set<Implementation>) {
    forall a, b :: a in selected && b in selected && a.contract.Some? && b.contract.Some?
                   && a.contract.value.regionId != b.contract.value.regionId ==>
      a.contract.value.covered !! b.contract.value.covered
  }

  ghost predicate RegionsSound(ctx: Context, bindings: map<Id, Implementation>, reachable: set<Id>, selected: set<Implementation>) {
    Separate(selected) && forall x :: x in selected && x.contract.Some? ==> RegionBound(ctx, bindings, reachable, x)
  }

  /** Each covered target is recorded under the one region that owns it. */
  ghost predicate Owners(done: set<Implementation>, owner: map<Id, Id>) {
    (forall x, t :: x in done && x.contract.Some? && t in x.contract.value.covered ==>
       t in owner && owner[t] == x.contract.value.regionId)
    && forall t :: t in owner ==> exists x :: x in done && x.contract.Some? && t in x.contract.value.covered
                                              && owner[t] == x.contract.value.regionId
  }

  lemma OwnersSeparate(selected: set<Implementation>, owner: map<Id, Id>)
    requires Owners(selected, owner)
    ensures Separate(selected)
  {
    forall a, b, t | a in selected && b in selected && a.contract.Some? && b.contract.Some?
                     && a.contract.value.regionId != b.contract.value.regionId && t in a.contract.value.covered
      ensures t !in b.contract.value.covered
    {
      assert t in owner && owner[t] == a.contract.value.regionId;
    }
  }

  /** Some covered target of `x` already belongs to another region. */
  ghost predicate Clashes(owner: map<Id, Id>, x: Implementation)
    requires x.contract.Some?
  {
    exists t :: t in x.contract.value.covered && t in owner && owner[t] != x.contract.value.regionId
  }

  /** `covered_by_region.setdefault(target, region_id)` over one region's targets. */
  method Claim(owner: map<Id, Id>, x: Implementation) returns (ok: bool, owner': map<Id, Id>)
    requires x.contract.Some?
    ensures ok <==> !Clashes(owner, x)
    ensures ok ==> owner' == owner + map t | t in x.contract.value.covered :: x.contract.value.regionId
  {
    var region := x.contract.value.regionId;
    var todo := x.contract.value.covered;
    owner' := owner;
    while todo != {}
      invariant todo <= x.contract.value.covered
      invariant forall t :: t in x.contract.value.covered - todo ==> t in owner ==> owner[t] == region
      invariant owner' == owner + map t | t in x.contract.value.covered - todo :: region
      decreases |todo|
    {
      var t :| t in todo;
      if t in owner' && owner'[t] != region {
        assert t in owner && owner[t] != region;
        return false, owner';
      }
      if t !in owner' {
        owner' := owner'[t := region];
      }
      todo := todo - {t};
    }
    ok := true;
  }

  lemma OwnersNext(done: set<Implementation>, owner: map<Id, Id>, x: Implementation)
    requires Owners(done, owner) && x.contract.Some? && !Clashes(owner, x)
    ensures Owners(done + {x}, owner + map t | t in x.contract.value.covered :: x.contract.value.regionId)
  {
    var owner' := owner + map t | t in x.contract.value.covered :: x.contract.value.regionId;
    forall y, t | y in done + {x} && y.contract.Some? && t in y.contract.value.covered
      ensures t in owner' && owner'[t] == y.contract.value.regionId
    {
      if y in done && t in x.contract.value.covered {
        assert owner[t] == y.contract.value.regionId;
      }
    }
    forall t | t in owner'
      ensures exists y :: y in done + {x} && y.contract.Some? && t in y.contract.value.covered && owner'[t] == y.contract.value.regionId
    {
      if t in x.contract.value.covered {
        assert x in done + {x};
      } else {
        var y :| y in done && y.contract.Some? && t in y.contract.value.covered && owner[t] == y.contract.value.regionId;
        assert y in done + {x};
      }
    }
  }

  lemma OwnersSkip(done: set<Implementation>, owner: map<Id, Id>, x: Implementation)
    requires Owners(done, owner) && x.contract.None?
    ensures Owners(done + {x}, owner)
  {
    forall t | t in owner
      ensures exists y :: y in done + {x} && y.contract.Some? && t in y.contract.value.covered && owner[t] == y.contract.value.regionId
    {
      var y :| y in done && y.contract.Some? && t in y.contract.value.covered && owner[t] == y.contract.value.regionId;
      assert y in done + {x};
    }
  }

  /** A clash is two selected regions over one target. */
  lemma ClashMeansOverlap(done: set<Implementation>, owner: map<Id, Id>, x: Implementation, selected: set<Implementation>)
    requires Owners(done, owner) && x.contract.Some? && Clashes(owner, x) && done <= selected && x in selected
    ensures !Separate(selected)
  {
    var t :| t in x.contract.value.covered && t in owner && owner[t] != x.contract.value.regionId;
    var y :| y in done && y.contract.Some? && t in y.contract.value.covered && owner[t] == y.contract.value.regionId;
    assert y in selected && t in y.contract.value.covered * x.contract.value.covered;
  }

  /** The checks on one region. */
  predicate BoundAsUnit(ctx: Context, bindings: map<Id, Implementation>, reachable: set<Id>, x: Implementation)
    requires x.contract.Some?
    ensures BoundAsUnit(ctx, bindings, reachable, x) == RegionBound(ctx, bindings, reachable, x)
  {
    (forall t :: t in x.targets ==> t in bindings && bindings[t].id == x.id)
    && x.contract.value.covered <= reachable
    && (ctx.carrier, x.contract.value.carrierId) in EntryOf(ctx, x.id).regionAdapters
  }

  ghost predicate AllBound(ctx: Context, bindings: map<Id, Implementation>, reachable: set<Id>, done: set<Implementation>) {
    forall x :: x in done && x.contract.Some? ==> RegionBound(ctx, bindings, reachable, x)
  }

  lemma NoOwners()
    ensures Owners({}, map[])
  {
  }

  lemma AllBoundNext(ctx: Context, bindings: map<Id, Implementation>, reachable: set<Id>, done: set<Implementation>, x: Implementation)
    requires AllBound(ctx, bindings, reachable, done) && (x.contract.Some? ==> RegionBound(ctx, bindings, reachable, x))
    ensures AllBound(ctx, bindings, reachable, done + {x})
  {
    hide RegionBound;
  }

  lemma NotBound(ctx: Context, bindings: map<Id, Implementation>, reachable: set<Id>, selected: set<Implementation>, x: Implementation)
    requires x in selected && x.contract.Some? && !RegionBound(ctx, bindings, reachable, x)
    ensures !RegionsSound(ctx, bindings, reachable, selected)
  {
    hide RegionBound;
  }

  lemma NotSeparate(ctx: Context, bindings: map<Id, Implementation>, reachable: set<Id>, selected: set<Implementation>)
    requires !Separate(selected)
    ensures !RegionsSound(ctx, bindings, reachable, selected)
  {
  }

  lemma SoundFrom(ctx: Context, bindings: map<Id, Implementation>, reachable: set<Id>, selected: set<Implementation>, owner: map<Id, Id>)
    requires Owners(selected, owner) && AllBound(ctx, bindings, reachable, selected)
    ensures RegionsSound(ctx, bindings, reachable, selected)
  {
    OwnersSeparate(selected, owner);
    hide Owners, Separate, RegionBound;
  }

  lemma NoneBound(ctx: Context, bindings: map<Id, Implementation>, reachable: set<Id>)
    ensures AllBound(ctx, bindings, reachable, {})
  {
  }

  /** The region loop accepts exactly when every selected region is a bound unit and distinct regions share no target. */
  method CheckRegions(ctx: Context, bindings: map<Id, Implementation>, reachable: set<Id>, selected: set<Implementation>)
    returns (ok: bool)
    ensures ok <==> RegionsSound(ctx, bindings, reachable, selected)
  {
    hide *;
    var owner: map<Id, Id> := map[];
    var todo := selected;
    assert selected - selected == {};
    NoOwners();
    NoneBound(ctx, bindings, reachable);
    while todo != {}
      invariant todo <= selected && Owners(selected - todo, owner) && AllBound(ctx, bindings, reachable, selected - todo)
      decreases |todo|
    {
      var x :| x in todo;
      assert selected - (todo - {x}) == selected - todo + {x};
      if x.contract.Some? {
        if !BoundAsUnit(ctx, bindings, reachable, x) {
          NotBound(ctx, bindings, reachable, selected, x);
          return false;
        }
        var free, owner' := Claim(owner, x);
        if !free {
          ClashMeansOverlap(selected - todo, owner, x, selected);
          NotSeparate(ctx, bindings, reachable, selected);
          return false;
        }
        OwnersNext(selected - todo, owner, x);
        owner := owner';
      } else {
        OwnersSkip(selected - todo, owner, x);
      }
      AllBoundNext(ctx, bindings, reachable, selected - todo, x);
      todo := todo - {x};
    }
    assert selected - {} == selected;
    SoundFrom(ctx, bindings, reachable, selected, owner);
    ok := true;
  }

  // ---- services --------------------------------------------------------------------------

  datatype Service = Service(dependencies: seq<Id>, capabilities: set<Id>, platforms: set<Id>, hasDigest: bool, productSafe: bool)

  /** The dependency graph of the known services. */
  function Dependencies(services: map<Id, Service>): Graph {
    map s | s in services :: services[s].dependencies
  }

  /** The closure loop: members are marked when pushed, and the pending ones still have dependencies to look at. */
  ghost predicate Closing(g: Graph, roots: seq<Id>, required: set<Id>, pending: seq<Id>) {
    HoldsRoots(roots, required) && (forall x :: x in pending ==> x in required)
    && (forall u, v :: u in required && u !in pending && Arc(g, u, v) ==> v in required)
    && forall s: set<Id> :: HoldsRoots(roots, s) && ClosedUnder(g, s) ==> required <= s
  }

  lemma ClosingStart(g: Graph, roots: seq<Id>)
    ensures Closing(g, roots, Members(roots), roots)
  {
  }

  lemma ClosingEnd(g: Graph, roots: seq<Id>, required: set<Id>)
    requires Closing(g, roots, required, [])
    ensures LeastClosed(g, roots, required)
  {
  }

  /** What a popped service's dependencies add. */
  function Fresh(required: set<Id>, deps: seq<Id>): (r: (set<Id>, seq<Id>))
    ensures forall x :: x in r.0 <==> x in required || x in deps
    ensures forall x :: x in r.1 ==> x in deps && x !in required
    ensures forall x :: x in deps && x !in required ==> x in r.1
    ensures |r.0| >= |required| && |r.1| == |r.0| - |required|
  {
    if deps == [] then (required, [])
    else
      var (s, added) := Fresh(required, deps[..|deps| - 1]);
      var d := deps[|deps| - 1];
      if d in s then (s, added) else (s + {d}, added + [d])
  }

  lemma PoppedClosing(g: Graph, roots: seq<Id>, required: set<Id>, pending: seq<Id>, required': set<Id>, added: seq<Id>)
    requires Closing(g, roots, required, pending) && pending != []
    requires var u := pending[|pending| - 1];
             (forall x :: x in required' <==> x in required || Arc(g, u, x)) && (forall x :: x in added ==> x in required')
             && (forall x :: x in required' && x !in required ==> x in added)
    ensures Closing(g, roots, required', pending[..|pending| - 1] + added)
  {
    hide Arc;
    var u, rest := pending[|pending| - 1], pending[..|pending| - 1];
    assert u in pending;
    assert forall x :: x in pending <==> x == u || x in rest;
    assert forall x :: x in rest + added <==> x in rest || x in added;
  }

  lemma RequiredBounded(g: Graph, roots: seq<Id>, required: set<Id>, pending: seq<Id>)
    requires Closing(g, roots, required, pending)
    ensures required <= Targets(g) + Members(roots)
  {
    var all := Targets(g) + Members(roots);
    assert HoldsRoots(roots, all);
    assert ClosedUnder(g, all);
  }

  lemma ArcsOf(services: map<Id, Service>, u: Id, v: Id)
    ensures Arc(Dependencies(services), u, v) <==> u in services && v in services[u].dependencies
  {
  }

  lemma ClosureGoesDown(all: set<Id>, required: set<Id>, required': set<Id>, added: seq<Id>)
    requires required <= required' <= all && |added| == |required'| - |required|
    ensures |all - required'| <= |all - required|
    ensures added != [] ==> |all - required'| < |all - required|
  {
    assert |all - required'| == |all| - |required'| && |all - required| == |all| - |required|;
  }

  /** The elements of a set, in some order. */
  method AsList(s: set<Id>) returns (r: seq<Id>)
    ensures Members(r) == s
  {
    r := [];
    var todo := s;
    while todo != {}
      invariant todo <= s && Members(r) == s - todo
      decreases |todo|
    {
      var x :| x in todo;
      r, todo := r + [x], todo - {x};
    }
  }

  lemma MembersGraph(g: Graph, a: seq<Id>, b: seq<Id>, r: set<Id>)
    requires Members(a) == Members(b) && LeastClosed(g, a, r)
    ensures LeastClosed(g, b, r)
  {
    forall s: set<Id>
      ensures HoldsRoots(a, s) <==> HoldsRoots(b, s)
    {
      SameRoots(a, b, s);
    }
    hide ClosedUnder, HoldsRoots;
  }

  lemma SameRoots(a: seq<Id>, b: seq<Id>, s: set<Id>)
    requires Members(a) == Members(b)
    ensures HoldsRoots(a, s) <==> HoldsRoots(b, s)
  {
    assert forall x :: x in a <==> x in Members(a);
    assert forall x :: x in b <==> x in Members(b);
  }

  /** The service closure: the least set that holds the seeds and every known member's dependencies. */
  method CloseServices(services: map<Id, Service>, seeds: seq<Id>) returns (required: set<Id>)
    ensures LeastClosed(Dependencies(services), seeds, required)
  {
    hide *;
    ghost var g := Dependencies(services);
    var pending := seeds;
    required := Members(seeds);
    ClosingStart(g, seeds);
    while pending != []
      invariant Closing(g, seeds, required, pending)
      decreases |Targets(g) + Members(seeds) - required|, |pending|
    {
      var n := |pending| - 1;
      var u := pending[n];
      forall v
        ensures Arc(g, u, v) <==> u in services && v in services[u].dependencies
      {
        ArcsOf(services, u, v);
      }
      var required', added := required, [];
      if u in services {
        var (grown, news) := Fresh(required, services[u].dependencies);
        required', added := grown, news;
      }
      PoppedClosing(g, seeds, required, pending, required', added);
      RequiredBounded(g, seeds, required', pending[..n] + added);
      ClosureGoesDown(Targets(g) + Members(seeds), required, required', added);
      pending := pending[..n] + added;
      required := required';
    }
    ClosingEnd(g, seeds, required);
  }

  // ---- one implementation per identity ------------------------------------------------

  /** The catalog holds one implementation per identity. */
  ghost predicate UniqueIds(xs: seq<Implementation>) {
    forall x, y :: x in xs && y in xs && x.id == y.id ==> x == y
  }

  lemma {:induction false} BeforeOneWay(a: Id, b: Id)
    requires Before(a, b)
    ensures !Before(b, a)
    decreases |a|
  {
    if a != "" && b != "" && a[0] == b[0] {
      BeforeOneWay(a[1..], b[1..]);
    }
  }

  lemma SameImplementation(preference: seq<Id>, a: Implementation, b: Implementation)
    requires NotAfter(preference, a, b) && NotAfter(preference, b, a)
    ensures a.id == b.id
  {
    if Before(a.id, b.id) {
      BeforeOneWay(a.id, b.id);
    }
    hide Rank, Before;
  }

  lemma MostPreferredUnique(ctx: Context, items: seq<Implementation>, preference: seq<Id>, target: Id, a: Implementation, b: Implementation)
    requires UniqueIds(items) && MostPreferred(ctx, items, preference, target, a) && MostPreferred(ctx, items, preference, target, b)
    ensures a == b
  {
    SameImplementation(preference, a, b);
    hide Rejected, NotAfter;
  }
}
