/** The whole planning call: one carrier, every reachable target bound, regions apart, services closed, nothing forbidden. */
module PlanResolution {
  import opened Memory
  import opened Atlas
  import opened Coverage
  import opened Planner
  import opened PlanTerms

  // ---- the carrier ---------------------------------------------------------------------------

  lemma CarrierForced(r: Request, roots: seq<Id>, a: Id, b: Id)
    requires CarrierResolves(r, roots, a) && CarrierResolves(r, roots, b)
    ensures a == b
  {
    hide Hosts;
  }

  lemma NoRoots(r: Request)
    ensures CarrierResolves(r, [], "")
  {
  }

  lemma HostCarries(r: Request, root: Id, x: Implementation)
    requires Hosts(r, root, x)
    ensures x.carrier != ""
  {
    hide Rejected, NotAfter, Authoritative;
  }

  lemma HostUnique(r: Request, root: Id, x: Implementation, y: Implementation)
    requires UniqueIds(r.implementations) && Hosts(r, root, x) && Hosts(r, root, y)
    ensures x == y
  {
    UniqueCarried(r);
    MostPreferredUnique(ContextOf(r, ""), Carried(r), SelectedFirst(r), root, x, y);
    hide Rejected, NotAfter, Authoritative, MostPreferred;
  }

  lemma UniqueCarried(r: Request)
    requires UniqueIds(r.implementations)
    ensures UniqueIds(Carried(r))
  {
  }

  /** A root without a provider leaves the carrier as it is. */
  lemma RootAdmitsNone(r: Request, roots: seq<Id>, root: Id, carrier: Id)
    requires CarrierResolves(r, roots, carrier) && forall x :: !Hosts(r, root, x)
    ensures CarrierResolves(r, roots + [root], carrier)
  {
    hide Hosts;
    if carrier != "" {
      var other, x :| other in roots && Hosts(r, other, x);
      assert other in roots + [root];
    }
  }

  /** A root with a provider sets the carrier, or confirms it, or makes it impossible. */
  lemma RootHosts(r: Request, roots: seq<Id>, root: Id, x: Implementation, carrier: Id)
    requires UniqueIds(r.implementations) && CarrierResolves(r, roots, carrier) && Hosts(r, root, x)
    ensures x.carrier != ""
    ensures carrier == "" || carrier == x.carrier ==> CarrierResolves(r, roots + [root], x.carrier)
    ensures carrier != "" && carrier != x.carrier ==> forall c :: !CarrierResolves(r, roots + [root], c)
  {
    hide UniqueIds, Hosts;
    HostCarries(r, root, x);
    assert root in roots + [root];
    if carrier == "" || carrier == x.carrier {
      forall other, y | other in roots + [root] && Hosts(r, other, y)
        ensures y.carrier == x.carrier
      {
        HostCarries(r, other, y);
        if other == root {
          HostUnique(r, root, x, y);
        }
      }
    } else {
      var other, y :| other in roots && Hosts(r, other, y);
      assert other in roots + [root];
    }
  }

  lemma LongerConflicts(r: Request, roots: seq<Id>, i: nat)
    requires i <= |roots| && forall c :: !CarrierResolves(r, roots[..i], c)
    ensures forall c :: !CarrierResolves(r, roots, c)
  {
    hide Hosts;
    forall c
      ensures !CarrierResolves(r, roots, c)
    {
      if CarrierResolves(r, roots, c) {
        ShorterResolves(r, roots, i, c);
      }
    }
  }

  /** Fewer roots agree all the more, if only on having no carrier. */
  lemma ShorterResolves(r: Request, roots: seq<Id>, i: nat, c: Id)
    requires i <= |roots| && CarrierResolves(r, roots, c)
    ensures exists a :: CarrierResolves(r, roots[..i], a)
  {
    hide Hosts;
    assert forall root :: root in roots[..i] ==> root in roots;
    if exists root, x :: root in roots[..i] && Hosts(r, root, x) {
      assert CarrierResolves(r, roots[..i], c);
    } else {
      assert CarrierResolves(r, roots[..i], "");
    }
  }

  lemma CarriersAgree(r: Request)
    ensures ListedOnce(r) ==> forall c :: CarrierResolves(r, r.roots, c) <==> CarrierAgrees(r, c)
  {
    hide *;
    if ListedOnce(r) {
      forall c
        ensures CarrierResolves(r, r.roots, c) <==> CarrierAgrees(r, c)
      {
        CarrierIs(r, c);
      }
    }
  }

  /** `_execution_carrier`: the one carrier the roots' providers agree on, or a refusal. */
  method ExecutionCarrier(r: Request) returns (carrier: Option<Id>)
    requires UniqueIds(r.implementations)
    ensures match carrier
            case None => forall c :: !CarrierResolves(r, r.roots, c)
            case Some(c) => CarrierResolves(r, r.roots, c)
    ensures ListedOnce(r) ==> match carrier case None => forall c :: !CarrierAgrees(r, c) case Some(c) => CarrierAgrees(r, c)
  {
    hide *;
    CarriersAgree(r);
    var c := "";
    assert r.roots[..0] == [];
    NoRoots(r);
    for i := 0 to |r.roots|
      invariant CarrierResolves(r, r.roots[..i], c)
    {
      var root := r.roots[i];
      var host := Select(ContextOf(r, ""), Carried(r), SelectedFirst(r), root);
      assert r.roots[..i + 1] == r.roots[..i] + [root];
      match host {
        case None =>
          NoneHosts(r, root);
          RootAdmitsNone(r, r.roots[..i], root, c);
        case Some(x) =>
          SomeHosts(r, root, x);
          RootHosts(r, r.roots[..i], root, x, c);
          if c != "" && c != x.carrier {
            LongerConflicts(r, r.roots, i + 1);
            return None;
          }
          c := x.carrier;
      }
    }
    assert r.roots[..|r.roots|] == r.roots;
    carrier := Some(c);
  }

  lemma NoneHosts(r: Request, root: Id)
    requires forall y :: !Admitted(ContextOf(r, ""), Carried(r), root, y)
    ensures forall x :: !Hosts(r, root, x)
  {
    hide Admitted, Carried, SelectedFirst;
  }

  lemma SomeHosts(r: Request, root: Id, x: Implementation)
    requires MostPreferred(ContextOf(r, ""), Carried(r), SelectedFirst(r), root, x)
    ensures Hosts(r, root, x)
  {
  }

  // ---- the call ------------------------------------------------------------------------------

  method Admissible(r: Request, carrier: Id, selected: set<Implementation>) returns (ok: bool)
    ensures ok <==> AllAdmissible(r, carrier, selected)
  {
    hide Rejected;
    var todo := selected;
    while todo != {}
      invariant todo <= selected && AllAdmissible(r, carrier, selected - todo)
      decreases |todo|
    {
      var x :| x in todo;
      if Rejected(ContextOf(r, carrier), x) || !x.hasDigest || (r.differential && x.category.Behavioral?) {
        return false;
      }
      todo := todo - {x};
    }
    ok := true;
  }

  lemma ClosureFromAnyList(r: Request, selected: set<Implementation>, seeds: seq<Id>, required: set<Id>)
    requires Members(seeds) == Seeds(r, selected) && LeastClosed(Dependencies(r.services), seeds, required)
    ensures forall other :: Members(other) == Seeds(r, selected) ==> LeastClosed(Dependencies(r.services), other, required)
  {
    hide *;
    forall other | Members(other) == Seeds(r, selected)
      ensures LeastClosed(Dependencies(r.services), other, required)
    {
      MembersGraph(Dependencies(r.services), seeds, other, required);
    }
  }

  lemma BoundAll(ctx: Context, items: seq<Implementation>, preference: seq<Id>, targets: set<Id>, bindings: map<Id, Implementation>)
    requires Bound(ctx, items, preference, targets, bindings, {})
    ensures bindings.Keys == targets && forall t :: t in bindings ==> MostPreferred(ctx, items, preference, t, bindings[t])
  {
    hide MostPreferred, Admitted;
  }

  lemma SoundIntro(r: Request, p: Plan, seeds: seq<Id>)
    requires CarrierResolves(r, r.roots, p.carrier)
    requires Bound(ContextOf(r, p.carrier), Authoritative(r), SelectedFirst(r), r.reachable, p.bindings, {})
    requires p.selected == p.bindings.Values + Attachments(r) && AllAdmissible(r, p.carrier, p.selected)
    requires RegionsSound(ContextOf(r, p.carrier), p.bindings, r.reachable, p.selected)
    requires p.services <= r.services.Keys && RequiredCapabilities(r, p) !! r.policy.forbidden
    requires Members(seeds) == Seeds(r, p.selected) && LeastClosed(Dependencies(r.services), seeds, p.services)
    requires ServicesShip(r, p.services) && EdgesClosed(r, p.bindings, p.selected) && Cleared(r)
    ensures Sound(r, p)
  {
    BoundAll(ContextOf(r, p.carrier), Authoritative(r), SelectedFirst(r), r.reachable, p.bindings);
    ClosureFromAnyList(r, p.selected, seeds, p.services);
    hide Bound, Authoritative, SelectedFirst, Attachments, MostPreferred, AllAdmissible, RegionsSound, RequiredCapabilities, Seeds,
      LeastClosed, Dependencies, Members, ServicesShip, Cleared, CarrierResolves, EdgesClosed;
  }

  // ---- a refused request has no sound plan ---------------------------------------------------

  lemma UniqueAuthoritative(r: Request)
    requires UniqueIds(r.implementations)
    ensures UniqueIds(Authoritative(r))
  {
  }

  lemma SoundCarrier(r: Request, p: Plan, carrier: Id)
    requires Sound(r, p) && CarrierResolves(r, r.roots, carrier)
    ensures p.carrier == carrier
  {
    CarrierForced(r, r.roots, p.carrier, carrier);
    hide MostPreferred, RegionsSound, LeastClosed, RequiredCapabilities, Seeds, Attachments, ServicesShip, Cleared, AllAdmissible,
      EdgesClosed, CarrierResolves;
  }

  lemma SoundBindings(r: Request, p: Plan)
    requires Sound(r, p)
    ensures Bound(ContextOf(r, p.carrier), Authoritative(r), SelectedFirst(r), r.reachable, p.bindings, {})
  {
    hide MostPreferred, Seeds, RequiredCapabilities, RegionsSound, LeastClosed, Authoritative, SelectedFirst, Attachments,
      CarrierResolves, EdgesClosed, ServicesShip, Cleared, AllAdmissible;
  }

  /** The binding loop has one result. */
  lemma BoundIsUnique(ctx: Context, items: seq<Implementation>, preference: seq<Id>, targets: set<Id>,
                      a: map<Id, Implementation>, b: map<Id, Implementation>, unresolved: set<Id>)
    requires UniqueIds(items) && Bound(ctx, items, preference, targets, a, unresolved)
    requires Bound(ctx, items, preference, targets, b, {})
    ensures unresolved == {} && a == b
  {
    hide UniqueIds, Admitted;
    forall t | t in targets
      ensures t !in unresolved && t in a && a[t] == b[t]
    {
      assert Admitted(ctx, items, t, b[t]) by {
        assert MostPreferred(ctx, items, preference, t, b[t]);
      }
      hide MostPreferred;
      if t in a {
        MostPreferredUnique(ctx, items, preference, t, a[t], b[t]);
      }
    }
  }

  /** A sound plan binds what the binding loop binds. */
  lemma BindingsForced(r: Request, p: Plan, bindings: map<Id, Implementation>, unresolved: set<Id>)
    requires UniqueIds(r.implementations) && Sound(r, p)
    requires Bound(ContextOf(r, p.carrier), Authoritative(r), SelectedFirst(r), r.reachable, bindings, unresolved)
    ensures unresolved == {} && bindings == p.bindings
  {
    hide *;
    UniqueAuthoritative(r);
    SoundBindings(r, p);
    BoundIsUnique(ContextOf(r, p.carrier), Authoritative(r), SelectedFirst(r), r.reachable, bindings, p.bindings, unresolved);
  }

  lemma ServicesForced(r: Request, p: Plan, seeds: seq<Id>, required: set<Id>)
    requires Sound(r, p) && Members(seeds) == Seeds(r, p.selected) && LeastClosed(Dependencies(r.services), seeds, required)
    ensures required == p.services
  {
    assert LeastClosed(Dependencies(r.services), seeds, p.services);
    hide MostPreferred, Seeds, RequiredCapabilities, RegionsSound, Dependencies, Authoritative, SelectedFirst, Attachments, Members,
      CarrierResolves, EdgesClosed, ServicesShip, Cleared, AllAdmissible;
  }

  lemma SoundParts(r: Request, p: Plan)
    requires Sound(r, p)
    ensures CarrierResolves(r, r.roots, p.carrier)
    ensures p.selected == p.bindings.Values + Attachments(r) && AllAdmissible(r, p.carrier, p.selected)
    ensures RegionsSound(ContextOf(r, p.carrier), p.bindings, r.reachable, p.selected)
    ensures ServicesShip(r, p.services) && EdgesClosed(r, p.bindings, p.selected) && Cleared(r)
    ensures p.services <= r.services.Keys && RequiredCapabilities(r, p) !! r.policy.forbidden
  {
    hide MostPreferred, Seeds, RequiredCapabilities, RegionsSound, LeastClosed, Authoritative, SelectedFirst, Attachments,
      CarrierResolves, EdgesClosed, ServicesShip, Cleared, AllAdmissible;
  }

  /** Refusals before anything is bound. */
  lemma NoPlanUncleared(r: Request)
    requires !Cleared(r) || forall c :: !CarrierResolves(r, r.roots, c)
    ensures forall p :: !Sound(r, p)
  {
    hide *;
    forall p
      ensures !Sound(r, p)
    {
      if Sound(r, p) {
        SoundParts(r, p);
      }
    }
  }

  /** Refusals before the service closure. */
  lemma NoPlanSelected(r: Request, carrier: Id, bindings: map<Id, Implementation>, unresolved: set<Id>, selected: set<Implementation>)
    requires UniqueIds(r.implementations) && CarrierResolves(r, r.roots, carrier)
    requires Bound(ContextOf(r, carrier), Authoritative(r), SelectedFirst(r), r.reachable, bindings, unresolved)
    requires selected == bindings.Values + Attachments(r)
    requires unresolved != {} || !AllAdmissible(r, carrier, selected)
             || !RegionsSound(ContextOf(r, carrier), bindings, r.reachable, selected) || !EdgesClosed(r, bindings, selected)
    ensures forall p :: !Sound(r, p)
  {
    hide *;
    forall p
      ensures !Sound(r, p)
    {
      if Sound(r, p) {
        SoundCarrier(r, p, carrier);
        BindingsForced(r, p, bindings, unresolved);
        SoundParts(r, p);
      }
    }
  }

  /** Refusals after it. */
  lemma NoPlanServices(r: Request, q: Plan, seeds: seq<Id>)
    requires UniqueIds(r.implementations) && CarrierResolves(r, r.roots, q.carrier)
    requires Bound(ContextOf(r, q.carrier), Authoritative(r), SelectedFirst(r), r.reachable, q.bindings, {})
    requires q.selected == q.bindings.Values + Attachments(r)
    requires Members(seeds) == Seeds(r, q.selected) && LeastClosed(Dependencies(r.services), seeds, q.services)
    requires !ServicesShip(r, q.services)
             || (q.services <= r.services.Keys && !(RequiredCapabilities(r, q) !! r.policy.forbidden))
    ensures forall p :: !Sound(r, p)
  {
    hide *;
    forall p
      ensures !Sound(r, p)
    {
      if Sound(r, p) {
        SoundCarrier(r, p, q.carrier);
        BindingsForced(r, p, q.bindings, {});
        SoundParts(r, p);
        ServicesForced(r, p, seeds, q.services);
        SamePlan(p, q);
      }
    }
  }

  lemma SamePlan(p: Plan, q: Plan)
    requires p.carrier == q.carrier && p.bindings == q.bindings && p.selected == q.selected && p.services == q.services
    ensures p == q
  {
  }

  lemma ShipMeansKnown(r: Request, services: set<Id>)
    requires ServicesShip(r, services)
    ensures services <= r.services.Keys
  {
  }

  /** `plan_execution`: every check in turn; a plan that comes back is sound, and a refusal means there is no sound plan. */
  method PlanExecution(r: Request) returns (result: Option<Plan>)
    requires UniqueIds(r.implementations)
    ensures result.Some? ==> Sound(r, result.value)
    ensures result.None? ==> forall p :: !Sound(r, p)
    ensures ListedOnce(r) ==> match result case Some(p) => Fulfils(r, p) case None => forall p :: !Fulfils(r, p)
  {
    hide *;
    SoundsFulfil(r);
    var carrier := ExecutionCarrier(r);
    if !Cleared(r) || carrier.None? {
      NoPlanUncleared(r);
      return None;
    }
    var ctx := ContextOf(r, carrier.value);
    var bindings, unresolved := Bind(ctx, Authoritative(r), SelectedFirst(r), r.reachable);
    var selected := bindings.Values + Attachments(r);
    var admissible := Admissible(r, carrier.value, selected);
    var regions := CheckRegions(ctx, bindings, r.reachable, selected);
    if unresolved != {} || !admissible || !regions || !EdgesClosed(r, bindings, selected) {
      NoPlanSelected(r, carrier.value, bindings, unresolved, selected);
      return None;
    }
    var seeds := AsList(Seeds(r, selected));
    var required := CloseServices(r.services, seeds);
    var p := Plan(carrier.value, bindings, selected, required);
    if !ServicesShip(r, required) {
      NoPlanServices(r, p, seeds);
      return None;
    }
    ShipMeansKnown(r, required);
    if !(RequiredCapabilities(r, p) !! r.policy.forbidden) {
      NoPlanServices(r, p, seeds);
      return None;
    }
    SoundIntro(r, p, seeds);
    result := Some(p);
  }

  lemma SoundsFulfil(r: Request)
    ensures ListedOnce(r) ==> forall p :: Sound(r, p) <==> Fulfils(r, p)
  {
    hide *;
    if ListedOnce(r) {
      forall p
        ensures Sound(r, p) <==> Fulfils(r, p)
      {
        SoundFulfils(r, p);
      }
    }
  }

  lemma AskedOnce(r: Request, t: Id, x: Implementation, y: Implementation)
    requires OneAsked(r, t) && MayOwn(r, x) && MayOwn(r, y) && t in x.targets && t in y.targets
    requires x.id in r.overrides && y.id in r.overrides
    ensures x == y
  {
    var i :| 0 <= i < |r.implementations| && r.implementations[i] == x;
    var j :| 0 <= j < |r.implementations| && r.implementations[j] == y;
  }

  lemma BoundBest(r: Request, p: Plan, t: Id)
    requires Fulfils(r, p) && t in r.reachable
    ensures t in p.bindings && Best(r, p.carrier, t, false, p.bindings[t]) && OneAsked(r, t)
  {
    hide Best, OneAsked, SelectsFit, RegionsApart, ServesLeast, ServicesFit, NeedsNothingForbidden, EdgesLead, CarrierAgrees;
  }

  lemma OverrideWins(r: Request, carrier: Id, t: Id, x: Implementation, y: Implementation)
    requires Best(r, carrier, t, false, x) && MayOwn(r, y) && t in y.targets && y.id in r.overrides
    requires Eligible(Context(r.policy, r.platform, carrier, r.entries), y)
    ensures MayOwn(r, x) && t in x.targets && x.id in r.overrides
  {
    hide Eligible, MayOwn, ListedNoLater, BeforeAt;
  }

  /** An eligible override of a target is what the target is bound to. */
  lemma OverrideIsBound(r: Request, p: Plan, t: Id, y: Implementation)
    requires Fulfils(r, p) && t in r.reachable
    requires MayOwn(r, y) && t in y.targets && y.id in r.overrides && Eligible(Context(r.policy, r.platform, p.carrier, r.entries), y)
    ensures t in p.bindings && p.bindings[t] == y
  {
    hide *;
    BoundBest(r, p, t);
    OverrideWins(r, p.carrier, t, p.bindings[t], y);
    AskedOnce(r, t, p.bindings[t], y);
  }

  /** In a sound plan nothing selected needs a forbidden capability. */
  lemma NothingForbidden(r: Request, p: Plan, c: Id)
    requires Sound(r, p) && c in r.policy.forbidden
    ensures forall x :: x in p.selected ==> c !in x.capabilities
    ensures forall s :: s in p.services ==> s in r.services && c !in r.services[s].capabilities
    ensures forall id :: id in r.enabledFeatures ==> id in r.catalog && c !in r.catalog[id].capabilities
    ensures c !in r.bootstrapCapabilities
  {
    SoundParts(r, p);
    hide Sound, CarrierResolves, RegionsSound, EdgesClosed, AllAdmissible, SoleOwners, OverridesAttach, Packs;
    assert c !in RequiredCapabilities(r, p);
    forall x | x in p.selected
      ensures c !in x.capabilities
    {
      assert c !in CapabilitiesOf(p.selected);
    }
    forall id | id in r.enabledFeatures
      ensures id in r.catalog && c !in r.catalog[id].capabilities
    {
      assert id in r.catalog && r.catalog[id] in Features(r);
      assert c !in FeatureCapabilities(Features(r));
    }
  }
}
