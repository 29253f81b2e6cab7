/**
 * The HAEgressGatewayPolicy reconciler: stamps the expected lease name on the
 * policy, then creates, adopts-if-owned or refuses the child
 * CiliumEgressGatewayPolicy, then does the same for the load-balancer service.
 * The first failing step ends the pass with a requeue.
 */
module PolicyController {
  import opened Wrappers
  import opened Kube
  import opened Constants
  import opened Naming

  /** The label keys this controller version takes from its constants package
      (expected lease name, namespace, name); only their distinctness matters. */
  datatype PolicyLabelKeys = PolicyLabelKeys(expectedLease: string, namespace: string, name: string) {
    predicate Distinct() {
      expectedLease != namespace && expectedLease != name && namespace != name
    }
  }

  /** The reconciler's configuration: label keys and the namespace receiving the generated objects. */
  datatype Config = Config(keys: PolicyLabelKeys, egressNamespace: string)

  function ParentRef(req: Key): ObjRef {
    ObjRef(ParentKind, req)
  }

  /** The controller reference SetControllerReference stamps on a child of `req`. */
  function ControllerRef(req: Key): OwnerRef {
    OwnerRef(ParentKindName, req.name)
  }

  /** `metav1.IsControlledBy(obj, policy)` */
  predicate ControlledBy(m: Meta, req: Key) {
    m.owner == Some(ControllerRef(req))
  }

  function ExpectedLease(cfg: Config, req: Key): string {
    LeaseName(cfg.egressNamespace, req.name)
  }

  /** The child policy is cluster scoped: its namespace is left empty. */
  function ChildKey(cfg: Config, req: Key): Key {
    Key("", ChildPolicyName(cfg.egressNamespace, req.name))
  }

  function ServiceKey(cfg: Config, req: Key): Key {
    Key(cfg.egressNamespace, ServiceName(req.name))
  }

  /** The policy as held in memory once its expected-lease label is set. */
  function Labelled(cfg: Config, req: Key, p: Parent): Parent {
    p.(meta := p.meta.(labels := p.meta.labels[cfg.keys.expectedLease := ExpectedLease(cfg, req)]))
  }

  /** The labels of both generated objects: the policy's own plus the namespace/name pair. */
  function CorrelationLabels(cfg: Config, req: Key, labels: Labels): Labels {
    labels[cfg.keys.namespace := cfg.egressNamespace][cfg.keys.name := req.name]
  }

  function DesiredChild(cfg: Config, req: Key, p: Parent): Child {
    Child(Meta(CorrelationLabels(cfg, req, p.meta.labels), p.meta.annotations, Some(ControllerRef(req))), p.spec)
  }

  /** The single placeholder port of the service. */
  const PlaceholderPort := ServicePort("nope", TCP, 65534)

  /** The service selects pods by the two correlation labels (none carry them). */
  function ServiceSelector(cfg: Config, req: Key): Labels {
    map[cfg.keys.namespace := cfg.egressNamespace, cfg.keys.name := req.name]
  }

  function DesiredService(cfg: Config, req: Key, p: Parent): Service {
    Service(
      Meta(CorrelationLabels(cfg, req, p.meta.labels), p.meta.annotations, Some(ControllerRef(req))),
      LoadBalancer, [PlaceholderPort], ServiceSelector(cfg, req), [])
  }

  /** Only the child policies may differ between `s` and `s'`. */
  predicate ChildrenOnly(s: Store, s': Store) {
    s'.parents == s.parents && s'.services == s.services && s'.leases == s.leases
  }

  /** Only the services may differ between `s` and `s'`. */
  predicate ServicesOnly(s: Store, s': Store) {
    s'.parents == s.parents && s'.children == s.children && s'.leases == s.leases
  }

  /**
   * Step 1: write the expected-lease label, only when it differs. `p` is the
   * policy as fetched.
   */
  function LabelStep(cfg: Config, env: Env, s: Store, req: Key, p: Parent): (r: Step)
    ensures r.events == []
    ensures r.writes == [] <==> Lookup(p.meta.labels, cfg.keys.expectedLease) == ExpectedLease(cfg, req)
    ensures r.writes != [] ==> r.writes == [Update(ParentKind, req)]
    ensures r.err.Some? ==> r.store == s && r.writes != []
    ensures r.err.None? && req in s.parents && s.parents[req] == p ==>
      r.store == s.(parents := s.parents[req := Labelled(cfg, req, p)])
  {
    if Lookup(p.meta.labels, cfg.keys.expectedLease) == ExpectedLease(cfg, req) then
      assert p.meta.labels == Labelled(cfg, req, p).meta.labels;
      Step(s, [], [], None)
    else
      match UpdateParent(env, s, req, Labelled(cfg, req, p))
      case Failure(e) => Step(s, [], [Update(ParentKind, req)], Some(e))
      case Success(s') => Step(s', [], [Update(ParentKind, req)], None)
  }

  /**
   * Step 2: create the child policy if missing, leave a foreign one alone with
   * a warning, and copy only `Selectors` into an owned one that differs.
   * `p` is the labelled policy.
   */
  function ChildStep(cfg: Config, env: Env, s: Store, req: Key, p: Parent): (r: Step)
    ensures ChildrenOnly(s, r.store)
    ensures var k := ChildKey(cfg, req);
      r.err.Some? ==> r.err.value.op in {Get(ChildKind, k), Create(ChildKind, k), Update(ChildKind, k)}
    ensures var k := ChildKey(cfg, req); Fails(env, Get(ChildKind, k)) ==>
      r == Step(s, [], [], Some(Rejected(Get(ChildKind, k))))
    ensures var k := ChildKey(cfg, req); !Fails(env, Get(ChildKind, k)) && k !in s.children ==>
      && r.writes == [Create(ChildKind, k)]
      && r.events == [Event(ParentRef(req), Normal, CreatedReason, ObjRef(ChildKind, k))]
      && (r.err.None? <==> !Fails(env, Create(ChildKind, k)))
      && r.store == (if r.err.None? then s.(children := s.children[k := DesiredChild(cfg, req, p)]) else s)
    ensures var k := ChildKey(cfg, req); !Fails(env, Get(ChildKind, k)) && k in s.children && !ControlledBy(s.children[k].meta, req) ==>
      r == Step(s, [Event(ParentRef(req), Warning, AlreadyExistsReason, ObjRef(ChildKind, k))], [], None)
    ensures var k := ChildKey(cfg, req); !Fails(env, Get(ChildKind, k)) && k in s.children && ControlledBy(s.children[k].meta, req) ==>
      var c := s.children[k];
      if c.spec.selectors == p.spec.selectors then r == Step(s, [], [], None)
      else
        && r.writes == [Update(ChildKind, k)]
        && (r.err.None? <==> !Fails(env, Update(ChildKind, k)))
        && (r.err.Some? ==> r.store == s && r.events == [])
        && (r.err.None? ==>
              && r.store == s.(children := s.children[k := c.(spec := c.spec.(selectors := p.spec.selectors))])
              && r.events == [Event(ParentRef(req), Normal, EventEgressUpdateReason, ObjRef(ChildKind, k))])
  {
    var k := ChildKey(cfg, req);
    var about := ObjRef(ChildKind, k);
    match Fetch(env, ChildKind, s.children, k)
    case Failed(e) => Step(s, [], [], Some(e))
    case Missing(_) =>
      // the Created event is recorded before the error of Create is checked
      var created := Event(ParentRef(req), Normal, CreatedReason, about);
      (match CreateChild(env, s, k, DesiredChild(cfg, req, p))
       case Failure(e) => Step(s, [created], [Create(ChildKind, k)], Some(e))
       case Success(s') => Step(s', [created], [Create(ChildKind, k)], None))
    case Found(c) =>
      if !ControlledBy(c.meta, req) then
        Step(s, [Event(ParentRef(req), Warning, AlreadyExistsReason, about)], [], None)
      else if c.spec.selectors == p.spec.selectors then
        Step(s, [], [], None)
      else
        match UpdateChild(env, s, k, c.(spec := c.spec.(selectors := p.spec.selectors)))
        case Failure(e) => Step(s, [], [Update(ChildKind, k)], Some(e))
        case Success(s') =>
          Step(s', [Event(ParentRef(req), Normal, EventEgressUpdateReason, about)], [Update(ChildKind, k)], None)
  }

  /**
   * Step 3: create the service if missing, leave a foreign one alone with a
   * warning, and replace an owned one whose selector differs.
   */
  function ServiceStep(cfg: Config, env: Env, s: Store, req: Key, p: Parent): (r: Step)
    ensures ServicesOnly(s, r.store)
    ensures var k := ServiceKey(cfg, req);
      r.err.Some? ==> r.err.value.op in {Get(ServiceKind, k), Create(ServiceKind, k), Update(ServiceKind, k)}
    ensures var k := ServiceKey(cfg, req); Fails(env, Get(ServiceKind, k)) ==>
      r == Step(s, [], [], Some(Rejected(Get(ServiceKind, k))))
    ensures var k := ServiceKey(cfg, req); !Fails(env, Get(ServiceKind, k)) && k !in s.services ==>
      && r.writes == [Create(ServiceKind, k)]
      && r.events == [Event(ParentRef(req), Normal, CreatedReason, ObjRef(ServiceKind, k))]
      && (r.err.None? <==> !Fails(env, Create(ServiceKind, k)))
      && r.store == (if r.err.None? then s.(services := s.services[k := DesiredService(cfg, req, p)]) else s)
    ensures var k := ServiceKey(cfg, req); !Fails(env, Get(ServiceKind, k)) && k in s.services && !ControlledBy(s.services[k].meta, req) ==>
      r == Step(s, [Event(ParentRef(req), Warning, AlreadyExistsReason, ObjRef(ServiceKind, k))], [], None)
    ensures var k := ServiceKey(cfg, req); !Fails(env, Get(ServiceKind, k)) && k in s.services && ControlledBy(s.services[k].meta, req) ==>
      var v := s.services[k];
      if v.selector == ServiceSelector(cfg, req) then r == Step(s, [], [], None)
      else
        && r.events == []
        && r.writes == [Update(ServiceKind, k)]
        && (r.err.None? <==> !Fails(env, Update(ServiceKind, k)))
        && r.store == (if r.err.None? then s.(services := s.services[k := DesiredService(cfg, req, p).(ingress := v.ingress)]) else s)
  {
    var k := ServiceKey(cfg, req);
    var about := ObjRef(ServiceKind, k);
    var desired := DesiredService(cfg, req, p);
    match Fetch(env, ServiceKind, s.services, k)
    case Failed(e) => Step(s, [], [], Some(e))
    case Missing(_) =>
      var created := Event(ParentRef(req), Normal, CreatedReason, about);
      (match CreateService(env, s, k, desired)
       case Failure(e) => Step(s, [created], [Create(ServiceKind, k)], Some(e))
       case Success(s') => Step(s', [created], [Create(ServiceKind, k)], None))
    case Found(v) =>
      if !ControlledBy(v.meta, req) then
        Step(s, [Event(ParentRef(req), Warning, AlreadyExistsReason, about)], [], None)
      else if v.selector == desired.selector then
        Step(s, [], [], None)
      else
        match UpdateService(env, s, k, desired)
        case Failure(e) => Step(s, [], [Update(ServiceKind, k)], Some(e))
        case Success(s') => Step(s', [], [Update(ServiceKind, k)], None)
  }

  /** One pass of `HAEgressGatewayPolicyReconciler.Reconcile` for the policy `req`. */
  function Reconcile(cfg: Config, env: Env, s: Store, req: Key): (r: Pass)
    ensures Fails(env, Get(ParentKind, req)) ==> r == Pass(s, [], [], Err(Rejected(Get(ParentKind, req))))
    ensures !Fails(env, Get(ParentKind, req)) && req !in s.parents ==> r == Pass(s, [], [], Ok)
    ensures r.outcome.RequeueAfter? ==> r.outcome.delay == PolicyCheckRequeue && r.outcome.cause.Some?
    ensures r.store.leases == s.leases
  {
    match Fetch(env, ParentKind, s.parents, req)
    case Failed(e) => Pass(s, [], [], Err(e))
    case Missing(_) => Pass(s, [], [], Ok)
    case Found(p) =>
      var l := LabelStep(cfg, env, s, req, p);
      if l.err.Some? then Pass(l.store, l.events, l.writes, RequeueAfter(PolicyCheckRequeue, l.err))
      else
        var p' := Labelled(cfg, req, p);
        var c := ChildStep(cfg, env, l.store, req, p');
        if c.err.Some? then
          Pass(c.store, l.events + c.events, l.writes + c.writes, RequeueAfter(PolicyCheckRequeue, c.err))
        else
          var v := ServiceStep(cfg, env, c.store, req, p');
          Pass(v.store, l.events + c.events + v.events, l.writes + c.writes + v.writes,
               if v.err.Some? then RequeueAfter(PolicyCheckRequeue, v.err) else Ok)
  }

  /** The state the controller drives `req` toward: the expected-lease label is
      set, both generated objects exist, and owned ones agree with the policy. */
  predicate Converged(cfg: Config, s: Store, req: Key) {
    var k := ChildKey(cfg, req);
    var sk := ServiceKey(cfg, req);
    && req in s.parents
    && Lookup(s.parents[req].meta.labels, cfg.keys.expectedLease) == ExpectedLease(cfg, req)
    && k in s.children
    && (ControlledBy(s.children[k].meta, req) ==> s.children[k].spec.selectors == s.parents[req].spec.selectors)
    && sk in s.services
    && (ControlledBy(s.services[sk].meta, req) ==> s.services[sk].selector == ServiceSelector(cfg, req))
  }

  /** The three lookups of a pass are not rejected. */
  predicate LookupsSucceed(cfg: Config, env: Env, req: Key) {
    && !Fails(env, Get(ParentKind, req))
    && !Fails(env, Get(ChildKind, ChildKey(cfg, req)))
    && !Fails(env, Get(ServiceKind, ServiceKey(cfg, req)))
  }

  /** A pass issues no write exactly when the state is converged; then it
      changes nothing and records at most the ownership warnings. */
  lemma QuietExactlyWhenConverged(cfg: Config, env: Env, s: Store, req: Key)
    requires LookupsSucceed(cfg, env, req) && req in s.parents
    ensures Reconcile(cfg, env, s, req).writes == [] <==> Converged(cfg, s, req)
    ensures Converged(cfg, s, req) ==>
      var r := Reconcile(cfg, env, s, req);
      && r.store == s && r.outcome == Ok
      && forall e :: e in r.events ==> e.eventType == Warning && e.reason == AlreadyExistsReason
  {
    var p := s.parents[req];
    var l := LabelStep(cfg, env, s, req, p);
    var p' := Labelled(cfg, req, p);
    assert p'.spec == p.spec;
    if l.writes == [] {
      var c := ChildStep(cfg, env, l.store, req, p');
      if c.err.None? {
        var v := ServiceStep(cfg, env, c.store, req, p');
        assert Reconcile(cfg, env, s, req).writes == c.writes + v.writes;
      }
    }
  }

  /** After a pass that ends `Ok`, the state is converged and a second pass
      issues no write and changes nothing. */
  lemma SecondPassIsQuiet(cfg: Config, env: Env, s: Store, req: Key)
    requires req in s.parents
    requires Reconcile(cfg, env, s, req).outcome == Ok
    ensures Converged(cfg, Reconcile(cfg, env, s, req).store, req)
    ensures var s' := Reconcile(cfg, env, s, req).store;
      var r2 := Reconcile(cfg, env, s', req);
      r2.writes == [] && r2.store == s' && r2.outcome == Ok
  {
    var p := s.parents[req];
    var l := LabelStep(cfg, env, s, req, p);
    var p' := Labelled(cfg, req, p);
    var c := ChildStep(cfg, env, l.store, req, p');
    var v := ServiceStep(cfg, env, c.store, req, p');
    assert l.store.parents[req] == p';
    var s' := v.store;
    assert s' == Reconcile(cfg, env, s, req).store;
    assert s'.parents[req] == p';
    assert Converged(cfg, s', req);
    QuietExactlyWhenConverged(cfg, env, s', req);
  }

  /** A failed write of the expected-lease label ends the pass before either
      generated object is looked up. */
  lemma LabelFailureStopsPass(cfg: Config, env: Env, s: Store, req: Key)
    requires req in s.parents && !Fails(env, Get(ParentKind, req))
    requires Lookup(s.parents[req].meta.labels, cfg.keys.expectedLease) != ExpectedLease(cfg, req)
    requires Fails(env, Update(ParentKind, req))
    ensures Reconcile(cfg, env, s, req) ==
      Pass(s, [], [Update(ParentKind, req)], RequeueAfter(PolicyCheckRequeue, Some(Rejected(Update(ParentKind, req)))))
  {
  }

  /** A failed request on the child policy ends the pass before the service is
      looked up: the service is neither created nor updated. */
  lemma ChildFailureSkipsService(cfg: Config, env: Env, s: Store, req: Key)
    requires req in s.parents && !Fails(env, Get(ParentKind, req))
    requires Lookup(s.parents[req].meta.labels, cfg.keys.expectedLease) == ExpectedLease(cfg, req)
             || !Fails(env, Update(ParentKind, req))
    requires var k := ChildKey(cfg, req);
      || Fails(env, Get(ChildKind, k))
      || (k !in s.children && Fails(env, Create(ChildKind, k)))
      || (k in s.children && ControlledBy(s.children[k].meta, req)
          && s.children[k].spec.selectors != s.parents[req].spec.selectors && Fails(env, Update(ChildKind, k)))
    ensures var r := Reconcile(cfg, env, s, req);
      && r.store.services == s.services
      && r.outcome.RequeueAfter? && r.outcome.delay == PolicyCheckRequeue
      && forall w :: w in r.writes ==> w != Create(ServiceKind, ServiceKey(cfg, req)) && w != Update(ServiceKind, ServiceKey(cfg, req))
  {
    var p := s.parents[req];
    var l := LabelStep(cfg, env, s, req, p);
    assert l.store.children == s.children;
    assert Labelled(cfg, req, p).spec == p.spec;
  }

  /** A same-named object the policy does not control is never changed. */
  lemma ForeignObjectsAreNeverMutated(cfg: Config, env: Env, s: Store, req: Key)
    ensures var k := ChildKey(cfg, req); var r := Reconcile(cfg, env, s, req);
      k in s.children && !ControlledBy(s.children[k].meta, req) ==>
        k in r.store.children && r.store.children[k] == s.children[k]
    ensures var k := ServiceKey(cfg, req); var r := Reconcile(cfg, env, s, req);
      k in s.services && !ControlledBy(s.services[k].meta, req) ==>
        k in r.store.services && r.store.services[k] == s.services[k]
  {
    match Fetch(env, ParentKind, s.parents, req)
    case Failed(_) =>
    case Missing(_) =>
    case Found(p) =>
      var l := LabelStep(cfg, env, s, req, p);
      if l.err.None? {
        var c := ChildStep(cfg, env, l.store, req, Labelled(cfg, req, p));
        if c.err.None? {
          var v := ServiceStep(cfg, env, c.store, req, Labelled(cfg, req, p));
        }
      }
  }

  /** A foreign child policy draws exactly one AlreadyExists warning about it,
      and the pass goes on to the service instead of failing. */
  lemma ForeignChildWarnsOnce(cfg: Config, env: Env, s: Store, req: Key)
    requires req in s.parents && !Fails(env, Get(ParentKind, req))
    requires Lookup(s.parents[req].meta.labels, cfg.keys.expectedLease) == ExpectedLease(cfg, req)
             || !Fails(env, Update(ParentKind, req))
    requires var k := ChildKey(cfg, req);
      !Fails(env, Get(ChildKind, k)) && k in s.children && !ControlledBy(s.children[k].meta, req)
    ensures var r := Reconcile(cfg, env, s, req); var k := ChildKey(cfg, req);
      && multiset(r.events)[Event(ParentRef(req), Warning, AlreadyExistsReason, ObjRef(ChildKind, k))] == 1
      && r.store.children == s.children
      && (r.outcome.RequeueAfter? ==>
            var sk := ServiceKey(cfg, req);
            r.outcome.cause.Some? && r.outcome.cause.value.op in {Get(ServiceKind, sk), Create(ServiceKind, sk), Update(ServiceKind, sk)})
  {
    var k := ChildKey(cfg, req);
    var p := s.parents[req];
    var l := LabelStep(cfg, env, s, req, p);
    var p' := Labelled(cfg, req, p);
    assert l.store.children == s.children;
    var w := Event(ParentRef(req), Warning, AlreadyExistsReason, ObjRef(ChildKind, k));
    var c := ChildStep(cfg, env, l.store, req, p');
    assert c == Step(l.store, [w], [], None);
    var v := ServiceStep(cfg, env, c.store, req, p');
    assert w !in v.events;
    var r := Reconcile(cfg, env, s, req);
    assert r.events == [w] + v.events;
    assert r.store == v.store;
  }

  /** A foreign service, once the pass reaches it, draws exactly one
      AlreadyExists warning about it and the pass ends `Ok`. */
  lemma ForeignServiceWarnsOnce(cfg: Config, env: Env, s: Store, req: Key)
    requires req in s.parents && !Fails(env, Get(ParentKind, req))
    requires var p := s.parents[req];
      var l := LabelStep(cfg, env, s, req, p);
      l.err.None? && ChildStep(cfg, env, l.store, req, Labelled(cfg, req, p)).err.None?
    requires var k := ServiceKey(cfg, req);
      !Fails(env, Get(ServiceKind, k)) && k in s.services && !ControlledBy(s.services[k].meta, req)
    ensures var r := Reconcile(cfg, env, s, req); var k := ServiceKey(cfg, req);
      && multiset(r.events)[Event(ParentRef(req), Warning, AlreadyExistsReason, ObjRef(ServiceKind, k))] == 1
      && r.store.services == s.services
      && r.outcome == Ok
  {
    var p := s.parents[req];
    var l := LabelStep(cfg, env, s, req, p);
    var p' := Labelled(cfg, req, p);
    var c := ChildStep(cfg, env, l.store, req, p');
    var w := Event(ParentRef(req), Warning, AlreadyExistsReason, ObjRef(ServiceKind, ServiceKey(cfg, req)));
    assert w !in c.events;
    assert Reconcile(cfg, env, s, req).events == c.events + [w];
  }

  /** Both generated objects carry the policy's labels, the expected-lease
      label, and the namespace/name correlation pair. */
  lemma GeneratedLabels(cfg: Config, req: Key, p: Parent)
    requires cfg.keys.Distinct()
    ensures var labels := DesiredChild(cfg, req, Labelled(cfg, req, p)).meta.labels;
      && labels == DesiredService(cfg, req, Labelled(cfg, req, p)).meta.labels
      && labels.Keys == p.meta.labels.Keys + {cfg.keys.expectedLease, cfg.keys.namespace, cfg.keys.name}
      && labels[cfg.keys.expectedLease] == ExpectedLease(cfg, req)
      && labels[cfg.keys.namespace] == cfg.egressNamespace
      && labels[cfg.keys.name] == req.name
      && forall k :: k in p.meta.labels && k !in {cfg.keys.expectedLease, cfg.keys.namespace, cfg.keys.name} ==>
           labels[k] == p.meta.labels[k]
  {
  }
}
