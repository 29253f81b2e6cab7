/**
 * The services reconciler: a service carrying the two correlation labels
 * names its child policy `egress-<namespace label>-<name label>`; the
 * child's egress IP is set to the service's first load-balancer ingress IP
 * when it differs.
 */
module ServicesController {
  import opened Wrappers
  import opened Kube
  import opened Constants
  import opened Naming
  import PolicyController

  /** The child policy a service's correlation labels name (cluster scoped). */
  function PolicyKeyFor(svc: Service): Key {
    Key("", ChildPolicyName(Lookup(svc.meta.labels, HAEgressIPNamespace), Lookup(svc.meta.labels, HAEgressIPName)))
  }

  /** A service this controller manages: both correlation labels are non-empty. */
  predicate Correlated(svc: Service) {
    Lookup(svc.meta.labels, HAEgressIPName) != "" && Lookup(svc.meta.labels, HAEgressIPNamespace) != ""
  }

  /** One pass of `ServicesController.Reconcile` for the service `req`. */
  function Reconcile(env: Env, s: Store, req: Key): (r: Pass)
    ensures r.events == []
    ensures r.store.parents == s.parents && r.store.services == s.services && r.store.leases == s.leases
    ensures Fails(env, Get(ServiceKind, req)) ==> r == Pass(s, [], [], Err(Rejected(Get(ServiceKind, req))))
    ensures !Fails(env, Get(ServiceKind, req)) && (req !in s.services || !Correlated(s.services[req])) ==>
      r == Pass(s, [], [], Ok)
    ensures !Fails(env, Get(ServiceKind, req)) && req in s.services && Correlated(s.services[req]) ==>
      var svc := s.services[req];
      var k := PolicyKeyFor(svc);
      && (Fails(env, Get(ChildKind, k)) ==> r == Pass(s, [], [], Err(Rejected(Get(ChildKind, k)))))
      && (!Fails(env, Get(ChildKind, k)) && k !in s.children ==>
            r == Pass(s, [], [], RequeueAfter(HealthCheckInterval, Some(NotFound(Get(ChildKind, k))))))
      && (!Fails(env, Get(ChildKind, k)) && k in s.children ==>
            && (r.writes != [] <==> NeedsEgressIP(svc, s.children[k]))
            && (r.writes != [] ==> r.writes == [Update(ChildKind, k)])
            && (r.writes != [] && !Fails(env, Update(ChildKind, k)) ==>
                  r == Pass(s.(children := s.children[k := WithEgressIP(s.children[k], svc.ingress[0])]), [], r.writes, Ok))
            && (r.writes != [] && Fails(env, Update(ChildKind, k)) ==> r == Pass(s, [], r.writes, Err(Rejected(Update(ChildKind, k)))))
            && (r.writes == [] ==> r == Pass(s, [], [], Ok)))
  {
    match Fetch(env, ServiceKind, s.services, req)
    case Failed(e) => Pass(s, [], [], Err(e))
    case Missing(_) => Pass(s, [], [], Ok)
    case Found(svc) =>
      if !Correlated(svc) then Pass(s, [], [], Ok)
      else
        var k := PolicyKeyFor(svc);
        match Fetch(env, ChildKind, s.children, k)
        case Missing(e) => Pass(s, [], [], RequeueAfter(HealthCheckInterval, Some(e)))
        case Failed(e) => Pass(s, [], [], Err(e))
        case Found(c) =>
          if !NeedsEgressIP(svc, c) then Pass(s, [], [], Ok)
          else
            match UpdateChild(env, s, k, WithEgressIP(c, svc.ingress[0]))
            case Failure(e) => Pass(s, [], [Update(ChildKind, k)], Err(e))
            case Success(s') => Pass(s', [], [Update(ChildKind, k)], Ok)
  }

  /** A pass that ends well leaves nothing to do: the next pass on its result
      writes nothing and changes nothing. */
  lemma SecondPassIsQuiet(env: Env, s: Store, req: Key)
    requires Reconcile(env, s, req).outcome.Ok?
    ensures var r := Reconcile(env, s, req);
      Reconcile(env, r.store, req) == Pass(r.store, [], [], Ok)
  {
  }

  /**
   * Where the policy reconciler writes the correlation labels under the keys
   * this controller reads, the service it generates for a policy leads back
   * to the child policy it generated for the same policy.
   */
  lemma FindsGeneratedChild(cfg: PolicyController.Config, req: Key, p: Parent)
    requires cfg.keys.namespace == HAEgressIPNamespace && cfg.keys.name == HAEgressIPName
    requires cfg.egressNamespace != "" && req.name != ""
    ensures var svc := PolicyController.DesiredService(cfg, req, p);
      Correlated(svc) && PolicyKeyFor(svc) == PolicyController.ChildKey(cfg, req)
  {
    LabelKeysDistinct();
  }
}
