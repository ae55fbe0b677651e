/** What a planning call is given, what makes a plan sound, and the same said without the planner's own helpers. */
module PlanTerms {
  import opened Memory
  import opened Atlas
  import opened Coverage
  import opened Planner

  datatype Feature = Feature(capabilities: set<Id>, services: set<Id>, platforms: set<Id>, behavioral: bool, hasDigest: bool)

  /** An edge the coverage could not resolve; a dynamic one has an unknown set of targets. */
  datatype OpenEdge = OpenEdge(source: Id, target: Id, dynamic: bool)

  /** Everything a planning call sees. */
  datatype Request = Request(policy: Policy, platform: Option<Id>, entries: map<Id, Entry>, roots: seq<Id>,
                             overrides: seq<Id>, preference: seq<Id>, requested: set<Id>, productServices: set<Id>,
                             release: bool, strict: bool, differential: bool,
                             reachable: set<Id>, openEdges: set<OpenEdge>, implementations: seq<Implementation>,
                             services: map<Id, Service>, catalog: map<Id, Feature>, enabledFeatures: seq<Id>,
                             bootstrapCapabilities: set<Id>, bootstrapServices: set<Id>, bootstrapReady: bool)

  datatype Plan = Plan(carrier: Id, bindings: map<Id, Implementation>, selected: set<Implementation>, services: set<Id>)

  function ContextOf(r: Request, carrier: Id): Context {
    Context(r.policy, r.platform, carrier, r.entries)
  }

  /** Generated and interpreted items, and the authored ones that were asked for. */
  function Considered(r: Request): seq<Implementation> {
    Filter(r.implementations, (x: Implementation) => !x.authored || x.id in r.overrides)
  }

  function Filter(xs: seq<Implementation>, keep: Implementation -> bool): (r: seq<Implementation>)
    ensures forall y :: y in r <==> y in xs && keep(y)
  {
    if xs == [] then []
    else
      var rest := Filter(xs[1..], keep);
      if keep(xs[0]) then [xs[0]] + rest else rest
  }

  /** Those that can own a target. */
  function Authoritative(r: Request): seq<Implementation> {
    Filter(Considered(r), (x: Implementation) => !x.Attaches())
  }

  /** Those that can carry a program. */
  function Carried(r: Request): seq<Implementation> {
    Filter(Authoritative(r), (x: Implementation) => x.carrier != "")
  }

  function Attachments(r: Request): set<Implementation> {
    set x | x in Considered(r) && x.authored && x.Attaches() && x.id in r.overrides
  }

  /** Overrides first, then the other preferences. */
  function SelectedFirst(r: Request): seq<Id> {
    r.overrides + Without(r.preference, r.overrides)
  }

  function Without(xs: seq<Id>, ys: seq<Id>): seq<Id> {
    if xs == [] then [] else (if xs[0] in ys then [] else [xs[0]]) + Without(xs[1..], ys)
  }

  /** The enabled features the catalog knows. */
  function Features(r: Request): set<Feature> {
    set id | id in r.enabledFeatures && id in r.catalog :: r.catalog[id]
  }

  function CapabilitiesOf(xs: set<Implementation>): set<Id> {
    set x, c | x in xs && c in x.capabilities :: c
  }

  function ServicesOf(xs: set<Implementation>): set<Id> {
    set x, s | x in xs && s in x.services :: s
  }

  function FeatureCapabilities(fs: set<Feature>): set<Id> {
    set f, c | f in fs && c in f.capabilities :: c
  }

  function FeatureServices(fs: set<Feature>): set<Id> {
    set f, s | f in fs && s in f.services :: s
  }

  /** Where the service closure starts. */
  function Seeds(r: Request, selected: set<Implementation>): set<Id> {
    r.productServices + r.bootstrapServices + ServicesOf(selected) + FeatureServices(Features(r))
  }

  /** Capabilities the plan as a whole requires. */
  function RequiredCapabilities(r: Request, p: Plan): set<Id>
    requires p.services <= r.services.Keys
  {
    r.policy.required + r.requested + r.bootstrapCapabilities + CapabilitiesOf(p.selected)
    + FeatureCapabilities(Features(r)) + set s, c | s in p.services && c in r.services[s].capabilities :: c
  }

  /** The build platform, where one is set, is supported. */
  predicate Packs(platform: Option<Id>, platforms: set<Id>) {
    platform.None? || platforms == {} || platform.value in platforms
  }

  // ---- what a plan must satisfy ----------------------------------------------------------

  /** No reachable target has two authored owners that were asked for. */
  predicate SoleOwners(r: Request) {
    forall t :: t in r.reachable ==> SoleOwner(r, t)
  }

  predicate SoleOwner(r: Request, target: Id) {
    var items := Authoritative(r);
    forall i, j :: 0 <= i < j < |items| ==> !(Owns(r, items[i], target) && Owns(r, items[j], target))
  }

  predicate Owns(r: Request, x: Implementation, target: Id) {
    target in x.targets && x.id in r.overrides
  }

  /** Every override exists, and the authored ones attach to something reachable. */
  predicate OverridesAttach(r: Request) {
    (forall o :: o in r.overrides ==> exists x :: x in r.implementations && x.id == o)
    && forall x :: x in r.implementations && x.authored && x.id in r.overrides ==> x.targets * r.reachable != {}
  }

  /** Every enabled feature exists, has a digest, runs on the build platform and, for a differential run, changes nothing. */
  predicate FeaturesShip(r: Request) {
    (forall id :: id in r.enabledFeatures ==> id in r.catalog)
    && forall f :: f in Features(r) ==> f.hasDigest && Packs(r.platform, f.platforms) && (r.differential ==> !f.behavioral)
  }

  /** The checks that do not depend on what is selected. */
  predicate Cleared(r: Request) {
    r.bootstrapReady && SoleOwners(r) && OverridesAttach(r) && FeaturesShip(r)
  }

  /** The most preferred carrier-bearing provider admitted at a root. */
  ghost predicate Hosts(r: Request, root: Id, x: Implementation) {
    MostPreferred(ContextOf(r, ""), Carried(r), SelectedFirst(r), root, x)
  }

  /** The providers at these roots agree on the carrier; it is empty when there are none. */
  ghost predicate CarrierResolves(r: Request, roots: seq<Id>, carrier: Id) {
    (forall root, x :: root in roots && Hosts(r, root, x) ==> x.carrier == carrier)
    && (carrier == "" || exists root, x :: root in roots && Hosts(r, root, x))
  }

  ghost predicate AllAdmissible(r: Request, carrier: Id, selected: set<Implementation>) {
    forall x :: x in selected ==>
      !Rejected(ContextOf(r, carrier), x) && x.hasDigest && (r.differential ==> !x.category.Behavioral?)
  }

  /** Every service exists, has a digest, runs on the build platform and, for a release, is meant for a product. */
  predicate ServicesShip(r: Request, services: set<Id>) {
    services <= r.services.Keys
    && forall s :: s in services ==> r.services[s].hasDigest && Packs(r.platform, r.services[s].platforms)
                                     && (r.release ==> r.services[s].productSafe)
  }

  /** The selected items that claim a target. */
  function Claimers(selected: set<Implementation>, target: Id): set<Implementation> {
    set x | x in selected && target in x.targets
  }

  /** One region holds both ends of the edge. */
  predicate Collapsed(selected: set<Implementation>, e: OpenEdge) {
    exists x :: x in selected && x.contract.Some?
                && e.source in x.contract.value.covered + x.targets && e.target in x.contract.value.covered + x.targets
  }

  /**
   An open edge blocks a strict plan: its targets are unknown, or no region swallows it and
   nothing selected stands at its target, neither bound there, nor the owner of its source,
   nor the only one to claim it.
   */
  predicate Blocks(bindings: map<Id, Implementation>, selected: set<Implementation>, e: OpenEdge) {
    e.dynamic
    || (!Collapsed(selected, e) && e.target !in bindings
        && !(e.source in bindings && bindings[e.source] in Claimers(selected, e.target))
        && |Claimers(selected, e.target)| != 1)
  }

  predicate EdgesClosed(r: Request, bindings: map<Id, Implementation>, selected: set<Implementation>) {
    r.strict ==> forall e :: e in r.openEdges ==> !Blocks(bindings, selected, e)
  }

  /** What a returned plan guarantees. */
  ghost predicate Sound(r: Request, p: Plan) {
    var ctx := ContextOf(r, p.carrier);
    CarrierResolves(r, r.roots, p.carrier)
    && p.bindings.Keys == r.reachable
    && (forall t :: t in p.bindings ==> MostPreferred(ctx, Authoritative(r), SelectedFirst(r), t, p.bindings[t]))
    && p.selected == p.bindings.Values + Attachments(r)
    && AllAdmissible(r, p.carrier, p.selected)
    && RegionsSound(ctx, p.bindings, r.reachable, p.selected)
    && p.services <= r.services.Keys
    && (forall seeds :: Members(seeds) == Seeds(r, p.selected) ==> LeastClosed(Dependencies(r.services), seeds, p.services))
    && RequiredCapabilities(r, p) !! r.policy.forbidden
    && ServicesShip(r, p.services) && EdgesClosed(r, p.bindings, p.selected) && Cleared(r)
  }

  // ---- the order of choice -------------------------------------------------------------------

  /** Overrides and preferences list nothing twice, as the configuration requires. */
  predicate ListedOnce(r: Request) {
    NoRepeats(r.overrides) && NoRepeats(r.preference)
  }

  /** An override before anything else, then the preferences in their order, then the least name. */
  ghost predicate Beats(r: Request, a: Id, b: Id) {
    if a in r.overrides then b in r.overrides ==> ListedNoLater(r.overrides, a, b)
    else if b in r.overrides then false
    else if a in r.preference then b in r.preference ==> ListedNoLater(r.preference, a, b)
    else b !in r.preference && (a == b || exists k: nat :: BeforeAt(a, b, k))
  }

  lemma {:induction false} WithoutHolds(xs: seq<Id>, ys: seq<Id>, a: Id)
    ensures a in Without(xs, ys) <==> a in xs && a !in ys
  {
    if xs != [] {
      WithoutHolds(xs[1..], ys, a);
      assert xs == [xs[0]] + xs[1..];
    }
  }

  lemma {:induction false} WithoutOnce(xs: seq<Id>, ys: seq<Id>)
    requires NoRepeats(xs)
    ensures NoRepeats(Without(xs, ys))
  {
    if xs != [] {
      WithoutOnce(xs[1..], ys);
      WithoutHolds(xs[1..], ys, xs[0]);
    }
  }

  lemma NoLaterCons(x: Id, xs: seq<Id>, a: Id, b: Id)
    ensures ListedNoLater([x] + xs, a, b) <==> ListedNoLater(xs, a, b) || (x == b && a !in xs)
  {
    var p := [x] + xs;
    if ListedNoLater(xs, a, b) {
      var j :| 0 <= j < |xs| && xs[j] == b && a !in xs[j + 1..];
      assert p[j + 1] == b && p[j + 2..] == xs[j + 1..];
    }
    if x == b && a !in xs {
      assert p[0] == b && p[1..] == xs;
    }
    if ListedNoLater(p, a, b) {
      var j :| 0 <= j < |p| && p[j] == b && a !in p[j + 1..];
      if j == 0 {
        assert p[1..] == xs;
      } else {
        assert xs[j - 1] == b && xs[j..] == p[j + 1..];
      }
    }
  }

  lemma {:induction false} NoLaterAppend(xs: seq<Id>, ys: seq<Id>, a: Id, b: Id)
    ensures ListedNoLater(xs + ys, a, b) <==> ListedNoLater(ys, a, b) || (ListedNoLater(xs, a, b) && a !in ys)
  {
    if xs == [] {
      assert [] + ys == ys;
    } else {
      var t := xs[1..];
      assert xs + ys == [xs[0]] + (t + ys) && xs == [xs[0]] + t;
      NoLaterAppend(t, ys, a, b);
      NoLaterCons(xs[0], t + ys, a, b);
      NoLaterCons(xs[0], t, a, b);
      hide ListedNoLater;
    }
  }

  /** Leaving out other entries does not change which of two stands last. */
  lemma {:induction false} NoLaterWithout(xs: seq<Id>, ys: seq<Id>, a: Id, b: Id)
    requires a !in ys && b !in ys
    ensures ListedNoLater(Without(xs, ys), a, b) <==> ListedNoLater(xs, a, b)
  {
    if xs != [] {
      var t := xs[1..];
      assert xs == [xs[0]] + t;
      assert [] + Without(t, ys) == Without(t, ys);
      assert Without(xs, ys) == if xs[0] in ys then Without(t, ys) else [xs[0]] + Without(t, ys);
      NoLaterWithout(t, ys, a, b);
      NoLaterCons(xs[0], t, a, b);
      NoLaterCons(xs[0], Without(t, ys), a, b);
      WithoutHolds(t, ys, a);
      hide ListedNoLater;
    }
  }

  lemma ListedIs(xs: seq<Id>, a: Id, b: Id)
    ensures a !in xs && b in xs ==> ListedNoLater(xs, a, b)
    ensures b !in xs ==> !ListedNoLater(xs, a, b)
  {
    if a !in xs && b in xs {
      var j :| 0 <= j < |xs| && xs[j] == b;
      assert a !in xs[j + 1..];
    }
  }

  lemma SelectedOnce(r: Request)
    requires ListedOnce(r)
    ensures NoRepeats(SelectedFirst(r))
  {
    var (o, w) := (r.overrides, Without(r.preference, r.overrides));
    WithoutOnce(r.preference, r.overrides);
    forall i, j | 0 <= i < j < |o + w|
      ensures (o + w)[i] != (o + w)[j]
    {
      if i < |o| <= j {
        WithoutHolds(r.preference, o, w[j - |o|]);
      }
    }
  }

  /** The order the planner sorts by is that one. */
  lemma SelectedFirstBeats(r: Request, x: Implementation, y: Implementation)
    requires ListedOnce(r)
    ensures NotAfter(SelectedFirst(r), x, y) <==> Beats(r, x.id, y.id)
  {
    var (o, w, a, b) := (r.overrides, Without(r.preference, r.overrides), x.id, y.id);
    SelectedOnce(r);
    NotAfterMeans(SelectedFirst(r), x, y);
    WithoutHolds(r.preference, o, a);
    WithoutHolds(r.preference, o, b);
    NoLaterAppend(o, w, a, b);
    ListedIs(w, a, b);
    ListedIs(o, a, b);
    if a !in o && b !in o {
      NoLaterWithout(r.preference, o, a, b);
    }
    hide NotAfter, ListedNoLater, BeforeAt, Without, NoRepeats;
  }

  // ---- owners and hosts ----------------------------------------------------------------------

  /** An implementation of the catalog that may own a target here: not an attachment, and asked for if it is authored. */
  predicate MayOwn(r: Request, x: Implementation) {
    x in r.implementations && !x.category.Enhancement? && !x.category.Instrumentation? && (x.authored ==> x.id in r.overrides)
  }

  /** The owner of `target` under `carrier`; `hosting` asks for one that carries a program itself. */
  ghost predicate Best(r: Request, carrier: Id, target: Id, hosting: bool, x: Implementation) {
    var ctx := Context(r.policy, r.platform, carrier, r.entries);
    MayOwn(r, x) && target in x.targets && (hosting ==> x.carrier != "") && Eligible(ctx, x)
    && forall y :: MayOwn(r, y) && target in y.targets && (hosting ==> y.carrier != "") && Eligible(ctx, y) ==> Beats(r, x.id, y.id)
  }

  lemma OwnersAre(r: Request, x: Implementation)
    ensures x in Authoritative(r) <==> MayOwn(r, x)
    ensures x in Carried(r) <==> MayOwn(r, x) && x.carrier != ""
  {
  }

  lemma CandidateIs(r: Request, carrier: Id, target: Id, hosting: bool, y: Implementation)
    ensures Admitted(ContextOf(r, carrier), if hosting then Carried(r) else Authoritative(r), target, y)
            <==> MayOwn(r, y) && target in y.targets && (hosting ==> y.carrier != "")
                 && Eligible(Context(r.policy, r.platform, carrier, r.entries), y)
  {
    OwnersAre(r, y);
    EligibleIs(ContextOf(r, carrier), y);
    hide Eligible, Rejected, Authoritative, Carried, MayOwn;
  }

  lemma BestIs(r: Request, carrier: Id, target: Id, hosting: bool, x: Implementation)
    requires ListedOnce(r)
    ensures MostPreferred(ContextOf(r, carrier), if hosting then Carried(r) else Authoritative(r), SelectedFirst(r), target, x)
            <==> Best(r, carrier, target, hosting, x)
  {
    var ctx, items := ContextOf(r, carrier), if hosting then Carried(r) else Authoritative(r);
    hide Admitted, NotAfter, Eligible, MayOwn, Beats, ListedOnce, SelectedFirst, Authoritative, Carried;
    CandidateIs(r, carrier, target, hosting, x);
    forall y
      ensures Admitted(ctx, items, target, y)
              <==> MayOwn(r, y) && target in y.targets && (hosting ==> y.carrier != "") && Eligible(ctx, y)
      ensures NotAfter(SelectedFirst(r), x, y) <==> Beats(r, x.id, y.id)
    {
      CandidateIs(r, carrier, target, hosting, y);
      SelectedFirstBeats(r, x, y);
    }
  }

  // ---- the plan in plain terms ---------------------------------------------------------------

  /** The roots' owners that carry a program name one carrier, or there is none. */
  ghost predicate CarrierAgrees(r: Request, carrier: Id) {
    (forall root, x :: root in r.roots && Best(r, "", root, true, x) ==> x.carrier == carrier)
    && (carrier == "" || exists root, x :: root in r.roots && Best(r, "", root, true, x))
  }

  /** Every reachable target is bound to its owner; the owners and the attachments asked for are what is selected. */
  ghost predicate BindsOwners(r: Request, p: Plan) {
    (forall t :: t in r.reachable <==> t in p.bindings)
    && (forall t :: t in p.bindings ==> Best(r, p.carrier, t, false, p.bindings[t]))
    && forall x :: x in p.selected <==>
         (exists t :: t in p.bindings && p.bindings[t] == x)
         || (x in r.implementations && x.authored && x.id in r.overrides && (x.category.Enhancement? || x.category.Instrumentation?))
  }

  /** All that is selected is eligible, has a digest and, for a differential run, changes nothing. */
  ghost predicate SelectsFit(r: Request, p: Plan) {
    forall x :: x in p.selected ==>
      Eligible(Context(r.policy, r.platform, p.carrier, r.entries), x) && x.hasDigest && (r.differential ==> !x.category.Behavioral?)
  }

  /** A region is bound whole, covers only what is reachable, can be entered, and shares no target with another. */
  ghost predicate RegionsApart(r: Request, p: Plan) {
    (forall x, t :: x in p.selected && x.contract.Some? && t in x.targets ==> t in p.bindings && p.bindings[t].id == x.id)
    && (forall x, t :: x in p.selected && x.contract.Some? && t in x.contract.value.covered ==> t in r.reachable)
    && (forall x :: x in p.selected && x.contract.Some? ==>
          x.id in r.entries && (p.carrier, x.contract.value.carrierId) in r.entries[x.id].regionAdapters)
    && forall x, y, t :: x in p.selected && y in p.selected && x.contract.Some? && y.contract.Some?
                         && x.contract.value.regionId != y.contract.value.regionId && t in x.contract.value.covered ==>
         t !in y.contract.value.covered
  }

  /** `all` holds what the product, the bootstrap, the selection and the features ask for, and what its own services depend on. */
  ghost predicate Serves(r: Request, p: Plan, all: set<Id>) {
    r.productServices <= all && r.bootstrapServices <= all
    && (forall x, s :: x in p.selected && s in x.services ==> s in all)
    && (forall id, s :: id in r.enabledFeatures && id in r.catalog && s in r.catalog[id].services ==> s in all)
    && forall s, d :: s in all && s in r.services && d in r.services[s].dependencies ==> d in all
  }

  ghost predicate ServesLeast(r: Request, p: Plan) {
    Serves(r, p, p.services) && forall all: set<Id> :: Serves(r, p, all) ==> p.services <= all
  }

  /** The services exist, have digests, run on the platform and, for a release, are meant for a product. */
  ghost predicate ServicesFit(r: Request, p: Plan) {
    forall s :: s in p.services ==>
      s in r.services && r.services[s].hasDigest && (r.release ==> r.services[s].productSafe)
      && (r.platform.Some? && r.services[s].platforms != {} ==> r.platform.value in r.services[s].platforms)
  }

  ghost predicate NeedsNothingForbidden(r: Request, p: Plan) {
    forall c :: c in r.policy.forbidden ==>
      c !in r.policy.required && c !in r.requested && c !in r.bootstrapCapabilities
      && (forall x :: x in p.selected ==> c !in x.capabilities)
      && (forall id :: id in r.enabledFeatures && id in r.catalog ==> c !in r.catalog[id].capabilities)
      && (forall s :: s in p.services && s in r.services ==> c !in r.services[s].capabilities)
  }

  /** An open edge ends inside a region with its source, at a bound target, at its own source, or at the one claimant. */
  ghost predicate Leads(p: Plan, e: OpenEdge) {
    !e.dynamic
    && ((exists x :: x in p.selected && x.contract.Some? && (e.source in x.contract.value.covered || e.source in x.targets)
                     && (e.target in x.contract.value.covered || e.target in x.targets))
        || e.target in p.bindings
        || (e.source in p.bindings && p.bindings[e.source] in p.selected && e.target in p.bindings[e.source].targets)
        || exists x :: x in p.selected && e.target in x.targets && forall y :: y in p.selected && e.target in y.targets ==> y == x)
  }

  ghost predicate EdgesLead(r: Request, p: Plan) {
    r.strict ==> forall e :: e in r.openEdges ==> Leads(p, e)
  }

  /** What was asked for exists and fits, and no two authored implementations asked for own one reachable target. */
  ghost predicate AsksSensibly(r: Request) {
    r.bootstrapReady
    && (forall o :: o in r.overrides ==> exists x :: x in r.implementations && x.id == o)
    && (forall x :: x in r.implementations && x.authored && x.id in r.overrides ==> exists t :: t in x.targets && t in r.reachable)
    && (forall id :: id in r.enabledFeatures ==>
          id in r.catalog && r.catalog[id].hasDigest && (r.differential ==> !r.catalog[id].behavioral)
          && (r.platform.Some? && r.catalog[id].platforms != {} ==> r.platform.value in r.catalog[id].platforms))
    && forall t :: t in r.reachable ==> OneAsked(r, t)
  }

  /** No two authored implementations that own the target were asked for. */
  ghost predicate OneAsked(r: Request, target: Id) {
    forall i, j :: 0 <= i < j < |r.implementations| && target in r.implementations[i].targets && target in r.implementations[j].targets
                   && MayOwn(r, r.implementations[i]) && MayOwn(r, r.implementations[j]) ==>
      !(r.implementations[i].id in r.overrides && r.implementations[j].id in r.overrides)
  }

  /** A sound plan, said without the planner's helpers. */
  ghost predicate Fulfils(r: Request, p: Plan) {
    CarrierAgrees(r, p.carrier) && BindsOwners(r, p) && SelectsFit(r, p) && RegionsApart(r, p) && ServesLeast(r, p) && ServicesFit(r, p)
    && NeedsNothingForbidden(r, p) && EdgesLead(r, p) && AsksSensibly(r)
  }

  lemma CarrierIs(r: Request, carrier: Id)
    requires ListedOnce(r)
    ensures CarrierResolves(r, r.roots, carrier) <==> CarrierAgrees(r, carrier)
  {
    hide MostPreferred, Best, ListedOnce;
    forall root, x
      ensures Hosts(r, root, x) <==> Best(r, "", root, true, x)
    {
      BestIs(r, "", root, true, x);
    }
    hide Hosts;
  }

  lemma BindingsAre(r: Request, p: Plan)
    requires ListedOnce(r)
    ensures p.bindings.Keys == r.reachable
            && (forall t :: t in p.bindings ==>
                  MostPreferred(ContextOf(r, p.carrier), Authoritative(r), SelectedFirst(r), t, p.bindings[t]))
            && p.selected == p.bindings.Values + Attachments(r)
            <==> BindsOwners(r, p)
  {
    hide MostPreferred, Best, ListedOnce, Authoritative, SelectedFirst;
    forall t | t in p.bindings
      ensures MostPreferred(ContextOf(r, p.carrier), Authoritative(r), SelectedFirst(r), t, p.bindings[t])
              <==> Best(r, p.carrier, t, false, p.bindings[t])
    {
      BestIs(r, p.carrier, t, false, p.bindings[t]);
    }
    KeysAre(r, p);
    SelectedAre(r, p);
  }

  lemma KeysAre(r: Request, p: Plan)
    ensures p.bindings.Keys == r.reachable <==> forall t :: t in r.reachable <==> t in p.bindings
  {
    if forall t :: t in r.reachable <==> t in p.bindings {
      forall t
        ensures t in p.bindings.Keys <==> t in r.reachable
      {
      }
    }
  }

  lemma AttachmentsAre(r: Request, x: Implementation)
    ensures x in Attachments(r)
            <==> x in r.implementations && x.authored && x.id in r.overrides && (x.category.Enhancement? || x.category.Instrumentation?)
  {
  }

  lemma SelectedAre(r: Request, p: Plan)
    ensures p.selected == p.bindings.Values + Attachments(r)
            <==> forall x :: x in p.selected <==>
                   (exists t :: t in p.bindings && p.bindings[t] == x)
                   || (x in r.implementations && x.authored && x.id in r.overrides && (x.category.Enhancement? || x.category.Instrumentation?))
  {
    forall x
      ensures x in p.bindings.Values + Attachments(r)
              <==> (exists t :: t in p.bindings && p.bindings[t] == x)
                   || (x in r.implementations && x.authored && x.id in r.overrides && (x.category.Enhancement? || x.category.Instrumentation?))
    {
      AttachmentsAre(r, x);
      hide Attachments;
    }
    hide Attachments;
  }

  lemma FitIs(r: Request, p: Plan)
    ensures AllAdmissible(r, p.carrier, p.selected) <==> SelectsFit(r, p)
  {
    forall x
      ensures Eligible(Context(r.policy, r.platform, p.carrier, r.entries), x) <==> !Rejected(ContextOf(r, p.carrier), x)
    {
      EligibleIs(ContextOf(r, p.carrier), x);
    }
    hide Eligible, Rejected;
  }

  lemma RegionIs(r: Request, p: Plan, x: Implementation)
    requires x.contract.Some?
    ensures RegionBound(ContextOf(r, p.carrier), p.bindings, r.reachable, x)
            <==> (forall t :: t in x.targets ==> t in p.bindings && p.bindings[t].id == x.id)
                 && (forall t :: t in x.contract.value.covered ==> t in r.reachable)
                 && x.id in r.entries && (p.carrier, x.contract.value.carrierId) in r.entries[x.id].regionAdapters
  {
  }

  lemma SeparateIs(selected: set<Implementation>)
    ensures Separate(selected)
            <==> forall x, y, t :: x in selected && y in selected && x.contract.Some? && y.contract.Some?
                                   && x.contract.value.regionId != y.contract.value.regionId && t in x.contract.value.covered ==>
                   t !in y.contract.value.covered
  {
  }

  lemma RegionsAre(r: Request, p: Plan)
    ensures RegionsSound(ContextOf(r, p.carrier), p.bindings, r.reachable, p.selected) <==> RegionsApart(r, p)
  {
    forall x: Implementation | x.contract.Some?
      ensures RegionBound(ContextOf(r, p.carrier), p.bindings, r.reachable, x)
              <==> (forall t :: t in x.targets ==> t in p.bindings && p.bindings[t].id == x.id)
                   && (forall t :: t in x.contract.value.covered ==> t in r.reachable)
                   && x.id in r.entries && (p.carrier, x.contract.value.carrierId) in r.entries[x.id].regionAdapters
    {
      RegionIs(r, p, x);
    }
    SeparateIs(p.selected);
    hide RegionBound, Separate, ContextOf;
  }

  lemma SeedIs(r: Request, selected: set<Implementation>, s: Id)
    ensures s in Seeds(r, selected)
            <==> s in r.productServices || s in r.bootstrapServices || (exists x :: x in selected && s in x.services)
                 || exists id :: id in r.enabledFeatures && id in r.catalog && s in r.catalog[id].services
  {
    if s in FeatureServices(Features(r)) {
      var f :| f in Features(r) && s in f.services;
      var id :| id in r.enabledFeatures && id in r.catalog && r.catalog[id] == f;
    }
    if exists id :: id in r.enabledFeatures && id in r.catalog && s in r.catalog[id].services {
      var id :| id in r.enabledFeatures && id in r.catalog && s in r.catalog[id].services;
      assert r.catalog[id] in Features(r);
    }
  }

  lemma ClosedIs(r: Request, all: set<Id>)
    ensures ClosedUnder(Dependencies(r.services), all)
            <==> forall s, d :: s in all && s in r.services && d in r.services[s].dependencies ==> d in all
  {
    forall s, d
      ensures Arc(Dependencies(r.services), s, d) <==> s in r.services && d in r.services[s].dependencies
    {
    }
    hide Arc, Dependencies;
  }

  lemma HoldsIs(r: Request, p: Plan, seeds: seq<Id>, all: set<Id>)
    requires Members(seeds) == Seeds(r, p.selected)
    ensures HoldsRoots(seeds, all)
            <==> r.productServices <= all && r.bootstrapServices <= all
                 && (forall x, s :: x in p.selected && s in x.services ==> s in all)
                 && (forall id, s :: id in r.enabledFeatures && id in r.catalog && s in r.catalog[id].services ==> s in all)
  {
    forall s
      ensures s in seeds
              <==> s in r.productServices || s in r.bootstrapServices || (exists x :: x in p.selected && s in x.services)
                   || exists id :: id in r.enabledFeatures && id in r.catalog && s in r.catalog[id].services
    {
      SeedIs(r, p.selected, s);
      assert s in seeds <==> s in Members(seeds);
    }
    hide Seeds;
  }

  lemma ServesIs(r: Request, p: Plan, seeds: seq<Id>, all: set<Id>)
    requires Members(seeds) == Seeds(r, p.selected)
    ensures Serves(r, p, all) <==> HoldsRoots(seeds, all) && ClosedUnder(Dependencies(r.services), all)
  {
    HoldsIs(r, p, seeds, all);
    ClosedIs(r, all);
    hide HoldsRoots, ClosedUnder, Dependencies, Seeds;
  }

  lemma ServesLeastIs(r: Request, p: Plan, seeds: seq<Id>)
    requires Members(seeds) == Seeds(r, p.selected)
    ensures ServesLeast(r, p) <==> LeastClosed(Dependencies(r.services), seeds, p.services)
  {
    forall all
      ensures Serves(r, p, all) <==> HoldsRoots(seeds, all) && ClosedUnder(Dependencies(r.services), all)
    {
      ServesIs(r, p, seeds, all);
    }
    hide Serves, HoldsRoots, ClosedUnder, Dependencies, Seeds;
  }

  lemma ListOf(s: set<Id>) returns (xs: seq<Id>)
    ensures Members(xs) == s
    decreases |s|
  {
    xs := [];
    if s != {} {
      var x :| x in s;
      var rest := ListOf(s - {x});
      xs := [x] + rest;
    }
  }

  lemma ClosureIs(r: Request, p: Plan)
    ensures (forall seeds :: Members(seeds) == Seeds(r, p.selected) ==> LeastClosed(Dependencies(r.services), seeds, p.services))
            <==> ServesLeast(r, p)
  {
    var seeds := ListOf(Seeds(r, p.selected));
    hide ServesLeast, LeastClosed, Dependencies, Seeds;
    forall seeds | Members(seeds) == Seeds(r, p.selected)
      ensures ServesLeast(r, p) <==> LeastClosed(Dependencies(r.services), seeds, p.services)
    {
      ServesLeastIs(r, p, seeds);
    }
  }

  lemma ServicesFitIs(r: Request, p: Plan)
    ensures ServicesShip(r, p.services) <==> ServicesFit(r, p)
  {
  }

  lemma FeatureNeeds(r: Request, c: Id)
    ensures c in FeatureCapabilities(Features(r))
            <==> exists id :: id in r.enabledFeatures && id in r.catalog && c in r.catalog[id].capabilities
  {
    if c in FeatureCapabilities(Features(r)) {
      var f :| f in Features(r) && c in f.capabilities;
      var id :| id in r.enabledFeatures && id in r.catalog && r.catalog[id] == f;
    }
    if exists id :: id in r.enabledFeatures && id in r.catalog && c in r.catalog[id].capabilities {
      var id :| id in r.enabledFeatures && id in r.catalog && c in r.catalog[id].capabilities;
      assert r.catalog[id] in Features(r);
    }
  }

  lemma RequiredIs(r: Request, p: Plan, c: Id)
    requires p.services <= r.services.Keys
    ensures c !in RequiredCapabilities(r, p)
            <==> c !in r.policy.required && c !in r.requested && c !in r.bootstrapCapabilities
                 && (forall x :: x in p.selected ==> c !in x.capabilities)
                 && (forall id :: id in r.enabledFeatures && id in r.catalog ==> c !in r.catalog[id].capabilities)
                 && (forall s :: s in p.services && s in r.services ==> c !in r.services[s].capabilities)
  {
    FeatureNeeds(r, c);
    hide FeatureCapabilities, Features;
  }

  lemma ForbiddenIs(r: Request, p: Plan)
    requires p.services <= r.services.Keys
    ensures RequiredCapabilities(r, p) !! r.policy.forbidden <==> NeedsNothingForbidden(r, p)
  {
    forall c
      ensures c !in RequiredCapabilities(r, p)
              <==> c !in r.policy.required && c !in r.requested && c !in r.bootstrapCapabilities
                   && (forall x :: x in p.selected ==> c !in x.capabilities)
                   && (forall id :: id in r.enabledFeatures && id in r.catalog ==> c !in r.catalog[id].capabilities)
                   && (forall s :: s in p.services && s in r.services ==> c !in r.services[s].capabilities)
    {
      RequiredIs(r, p, c);
    }
    hide RequiredCapabilities;
  }

  lemma OneClaimant(selected: set<Implementation>, target: Id)
    ensures |Claimers(selected, target)| == 1
            <==> exists x :: x in selected && target in x.targets && forall y :: y in selected && target in y.targets ==> y == x
  {
    var claimers := Claimers(selected, target);
    if |claimers| == 1 {
      var x :| x in claimers;
      assert |claimers - {x}| == 0;
      forall y | y in selected && target in y.targets
        ensures y == x
      {
        assert y in claimers;
        assert y !in claimers - {x};
      }
    }
    if exists x :: x in selected && target in x.targets && forall y :: y in selected && target in y.targets ==> y == x {
      var x :| x in selected && target in x.targets && forall y :: y in selected && target in y.targets ==> y == x;
      assert claimers == {x};
    }
  }

  lemma CollapsedIs(selected: set<Implementation>, e: OpenEdge)
    ensures Collapsed(selected, e)
            <==> exists x :: x in selected && x.contract.Some? && (e.source in x.contract.value.covered || e.source in x.targets)
                             && (e.target in x.contract.value.covered || e.target in x.targets)
  {
  }

  lemma LeadsIs(p: Plan, e: OpenEdge)
    ensures Leads(p, e) <==> !Blocks(p.bindings, p.selected, e)
  {
    OneClaimant(p.selected, e.target);
    CollapsedIs(p.selected, e);
    hide Collapsed;
  }

  lemma EdgesAre(r: Request, p: Plan)
    ensures EdgesClosed(r, p.bindings, p.selected) <==> EdgesLead(r, p)
  {
    forall e: OpenEdge
      ensures Leads(p, e) <==> !Blocks(p.bindings, p.selected, e)
    {
      LeadsIs(p, e);
    }
    hide Blocks, Leads;
  }

  // ---- what was asked for --------------------------------------------------------------------

  /** Two places of `xs` hold what `test` is true of. */
  ghost predicate SomeTwo(xs: seq<Implementation>, test: Implementation -> bool) {
    exists i, j :: 0 <= i < j < |xs| && test(xs[i]) && test(xs[j])
  }

  lemma TwoCons(x: Implementation, xs: seq<Implementation>, test: Implementation -> bool)
    ensures SomeTwo([x] + xs, test) <==> SomeTwo(xs, test) || (test(x) && exists y :: y in xs && test(y))
  {
    var all := [x] + xs;
    if SomeTwo(xs, test) {
      var i, j :| 0 <= i < j < |xs| && test(xs[i]) && test(xs[j]);
      assert all[i + 1] == xs[i] && all[j + 1] == xs[j];
    }
    if test(x) && exists y :: y in xs && test(y) {
      var j :| 0 <= j < |xs| && test(xs[j]);
      assert all[0] == x && all[j + 1] == xs[j];
    }
    if SomeTwo(all, test) {
      var i, j :| 0 <= i < j < |all| && test(all[i]) && test(all[j]);
      assert all[j] == xs[j - 1] && xs[j - 1] in xs;
      if i > 0 {
        assert test(xs[i - 1]) && test(xs[j - 1]);
      }
    }
  }

  function Both(a: Implementation -> bool, b: Implementation -> bool): Implementation -> bool {
    (x: Implementation) => a(x) && b(x)
  }

  lemma {:induction false} FilterTwo(xs: seq<Implementation>, keep: Implementation -> bool, test: Implementation -> bool)
    ensures SomeTwo(Filter(xs, keep), test) <==> SomeTwo(xs, Both(keep, test))
  {
    if xs != [] {
      var h, t := xs[0], xs[1..];
      assert xs == [h] + t;
      FilterTwo(t, keep, test);
      TwoCons(h, t, Both(keep, test));
      TwoCons(h, Filter(t, keep), test);
      hide SomeTwo;
      assert (exists y :: y in Filter(t, keep) && test(y)) <==> exists y :: y in t && Both(keep, test)(y);
    }
  }

  lemma SameTwo(xs: seq<Implementation>, a: Implementation -> bool, b: Implementation -> bool)
    requires forall x :: a(x) == b(x)
    ensures SomeTwo(xs, a) == SomeTwo(xs, b)
  {
    if SomeTwo(xs, a) {
      var i, j :| 0 <= i < j < |xs| && a(xs[i]) && a(xs[j]);
      assert b(xs[i]) && b(xs[j]);
    }
    if SomeTwo(xs, b) {
      var i, j :| 0 <= i < j < |xs| && b(xs[i]) && b(xs[j]);
      assert a(xs[i]) && a(xs[j]);
    }
  }

  /** Owning `t` by override, in the whole catalog. */
  function OwnsAsked(r: Request, t: Id): Implementation -> bool {
    (x: Implementation) => !x.category.Enhancement? && !x.category.Instrumentation? && t in x.targets && x.id in r.overrides
  }

  lemma OwnersTwo(r: Request, t: Id, own: Implementation -> bool)
    requires forall x :: own(x) == Owns(r, x, t)
    ensures SomeTwo(Authoritative(r), own) <==> SomeTwo(r.implementations, OwnsAsked(r, t))
  {
    var asked, mine := (x: Implementation) => !x.authored || x.id in r.overrides, (x: Implementation) => !x.Attaches();
    FilterTwo(Considered(r), mine, own);
    FilterTwo(r.implementations, asked, Both(mine, own));
    SameTwo(r.implementations, Both(asked, Both(mine, own)), OwnsAsked(r, t));
    hide SomeTwo;
  }

  lemma SoleIs(r: Request, t: Id)
    ensures SoleOwner(r, t) <==> OneAsked(r, t)
  {
    var own := (x: Implementation) => Owns(r, x, t);
    OwnersTwo(r, t, own);
    var items, all := Authoritative(r), r.implementations;
    hide Authoritative;
    assert SomeTwo(items, own) <==> exists i, j :: 0 <= i < j < |items| && Owns(r, items[i], t) && Owns(r, items[j], t) by {
      if exists i, j :: 0 <= i < j < |items| && Owns(r, items[i], t) && Owns(r, items[j], t) {
        var i, j :| 0 <= i < j < |items| && Owns(r, items[i], t) && Owns(r, items[j], t);
        assert own(items[i]) && own(items[j]);
      }
    }
    if SomeTwo(all, OwnsAsked(r, t)) {
      var i, j :| 0 <= i < j < |all| && OwnsAsked(r, t)(all[i]) && OwnsAsked(r, t)(all[j]);
      assert MayOwn(r, all[i]) && MayOwn(r, all[j]);
    }
    if i, j :| 0 <= i < j < |all| && t in all[i].targets && t in all[j].targets && MayOwn(r, all[i]) && MayOwn(r, all[j])
               && all[i].id in r.overrides && all[j].id in r.overrides {
      assert OwnsAsked(r, t)(all[i]) && OwnsAsked(r, t)(all[j]);
    }
  }

  lemma FeaturesAre(r: Request)
    ensures FeaturesShip(r)
            <==> forall id :: id in r.enabledFeatures ==>
                   id in r.catalog && r.catalog[id].hasDigest && (r.differential ==> !r.catalog[id].behavioral)
                   && (r.platform.Some? && r.catalog[id].platforms != {} ==> r.platform.value in r.catalog[id].platforms)
  {
    forall id | id in r.enabledFeatures && id in r.catalog
      ensures r.catalog[id] in Features(r)
    {
    }
  }

  lemma OverridesAre(r: Request)
    ensures OverridesAttach(r)
            <==> (forall o :: o in r.overrides ==> exists x :: x in r.implementations && x.id == o)
                 && forall x :: x in r.implementations && x.authored && x.id in r.overrides ==> exists t :: t in x.targets && t in r.reachable
  {
    forall x: Implementation
      ensures x.targets * r.reachable != {} <==> exists t :: t in x.targets && t in r.reachable
    {
      ApartMeans(x.targets, r.reachable);
    }
  }

  lemma SolesAre(r: Request)
    ensures SoleOwners(r) <==> forall t :: t in r.reachable ==> OneAsked(r, t)
  {
    forall t
      ensures SoleOwner(r, t) <==> OneAsked(r, t)
    {
      SoleIs(r, t);
    }
    hide SoleOwner, OneAsked;
  }

  lemma AsksAre(r: Request)
    ensures Cleared(r) <==> AsksSensibly(r)
  {
    FeaturesAre(r);
    OverridesAre(r);
    SolesAre(r);
    hide FeaturesShip, OverridesAttach, SoleOwners, OneAsked;
  }

  /** The planner's notion of a sound plan is the one said in plain terms. */
  lemma SoundFulfils(r: Request, p: Plan)
    requires ListedOnce(r)
    ensures Sound(r, p) <==> Fulfils(r, p)
  {
    hide ListedOnce, CarrierResolves, CarrierAgrees, BindsOwners, AllAdmissible, SelectsFit, RegionsSound, RegionsApart, ServesLeast,
      ServicesShip, ServicesFit, RequiredCapabilities, NeedsNothingForbidden, EdgesClosed, EdgesLead, Cleared, AsksSensibly,
      MostPreferred, Seeds, LeastClosed, Attachments, Authoritative, SelectedFirst, ContextOf, Dependencies;
    CarrierIs(r, p.carrier);
    BindingsAre(r, p);
    FitIs(r, p);
    RegionsAre(r, p);
    ClosureIs(r, p);
    ServicesFitIs(r, p);
    EdgesAre(r, p);
    AsksAre(r);
    if p.services <= r.services.Keys {
      ForbiddenIs(r, p);
    }
    ShippedAreKnown(r, p);
  }

  lemma ShippedAreKnown(r: Request, p: Plan)
    ensures ServicesShip(r, p.services) ==> p.services <= r.services.Keys
  {
  }
}
