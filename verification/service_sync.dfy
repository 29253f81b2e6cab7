/**
 * Syncing a child policy and its parent's status from a load-balancer
 * service (`SyncServiceWithCiliumEgressGatewayPolicy`): the child's
 * `EgressIP` and the parent's `IPAddress` follow the service's first ingress
 * IP, and the parent's `ExitNode` and the child's hostname selector follow
 * the node named by the service's vipHost annotation.
 *
 * The service and the child policy are passed in as in-memory copies; the
 * function reads them, not the store. The annotation key of the vipHost is
 * a parameter, as its value is not part of this model.
 */
module ServiceSync {
  import opened Wrappers
  import opened Kube
  import opened Constants

  /** The result of looking up the child's owner. */
  datatype OwnerLookup =
    | NoOwner                                      // no owner of the parent kind: an empty parent is used
    | OwnerFound(key: Key, status: PolicyStatus)
    | Unavailable                                  // the owner could not be fetched: the function gives up

  /** The owner reference of kind HAEgressGatewayPolicy, looked up in the
      child's own namespace. */
  function LookupOwner(env: Env, s: Store, cegpKey: Key, cegp: Child): (r: OwnerLookup)
    ensures r.NoOwner? <==> cegp.meta.owner.None? || cegp.meta.owner.value.kind != ParentKindName
    ensures r.Unavailable? <==>
      && cegp.meta.owner.Some? && cegp.meta.owner.value.kind == ParentKindName
      && var k := Key(cegpKey.namespace, cegp.meta.owner.value.name);
         Fails(env, Get(ParentKind, k)) || k !in s.parents
    ensures r.OwnerFound? ==>
      && r.key == Key(cegpKey.namespace, cegp.meta.owner.value.name)
      && r.key in s.parents && r.status == s.parents[r.key].status
      && !Fails(env, Get(ParentKind, r.key))
  {
    match cegp.meta.owner
    case None => NoOwner
    case Some(ref) =>
      if ref.kind != ParentKindName then NoOwner
      else
        match Fetch(env, ParentKind, s.parents, Key(cegpKey.namespace, ref.name))
        case Found(p) => OwnerFound(Key(cegpKey.namespace, ref.name), p.status)
        case Missing(_) => Unavailable
        case Failed(_) => Unavailable
  }

  /** The key status writes go to: the owner's, or the empty key of the
      blank parent object used when there is no owner. */
  function StatusKey(o: OwnerLookup): Key {
    if o.OwnerFound? then o.key else Key("", "")
  }

  /** The parent status as first held in memory. */
  function StartStatus(o: OwnerLookup): PolicyStatus {
    if o.OwnerFound? then o.status else EmptyStatus
  }

  /** The node the service is announced from, "" while unassigned. */
  function VipHost(vipHostKey: string, svc: Service): string {
    Lookup(svc.meta.annotations, vipHostKey)
  }

  /** A status update whose failure is only logged. */
  function TryUpdateStatus(env: Env, s: Store, k: Key, st: PolicyStatus): (r: Store)
    ensures r == s || (k in s.parents && r == s.(parents := s.parents[k := s.parents[k].(status := st)]))
    ensures !Fails(env, UpdateStatus(k)) && k in s.parents ==> r.parents[k].status == st
  {
    match UpdateParentStatus(env, s, k, st)
    case Success(s') => s'
    case Failure(_) => s
  }

  /** The other three comparisons of the function (the egress IP one is
      `Kube.NeedsEgressIP`), each on the values it reads. */
  predicate NeedsIPAddress(svc: Service, st: PolicyStatus) {
    |svc.ingress| > 0 && st.ipAddress != svc.ingress[0]
  }

  predicate NeedsExitNode(host: string, st: PolicyStatus) {
    host != "" && st.exitNode != host
  }

  predicate NeedsHostPatch(host: string, cegp: Child) {
    host != "" && Host(cegp) != host
  }

  /**
   * The requests a pass issues when none fails, in order: each one exactly
   * when the field it writes differs from what the service says.
   */
  function Plan(host: string, svc: Service, cegpKey: Key, cegp: Child, statusKey: Key, st: PolicyStatus): seq<Op> {
    (if NeedsEgressIP(svc, cegp) then [Update(ChildKind, cegpKey)] else [])
    + StatusWrites(host, svc, statusKey, st)
    + (if NeedsHostPatch(host, cegp) then [Patch(ChildKind, cegpKey)] else [])
  }

  /** The status writes of the plan: the IP address, then the exit node. */
  function StatusWrites(host: string, svc: Service, statusKey: Key, st: PolicyStatus): seq<Op> {
    (if NeedsIPAddress(svc, st) then [UpdateStatus(statusKey)] else [])
    + (if NeedsExitNode(host, st) then [UpdateStatus(statusKey)] else [])
  }

  /** Nothing to write: the child and the status already agree with the service. */
  predicate Converged(host: string, svc: Service, cegp: Child, st: PolicyStatus) {
    !NeedsEgressIP(svc, cegp) && !NeedsIPAddress(svc, st) && !NeedsExitNode(host, st) && !NeedsHostPatch(host, cegp)
  }

  /** The two events of a successful host patch: one on the child policy,
      naming the service, and one on the service, naming the child policy. */
  function HostEvents(svcKey: Key, cegpKey: Key): seq<Event> {
    [Event(ObjRef(ChildKind, cegpKey), Normal, EventEgressUpdateReason, ObjRef(ServiceKind, svcKey)),
     Event(ObjRef(ServiceKind, svcKey), Normal, EventEgressUpdateReason, ObjRef(ChildKind, cegpKey))]
  }

  /** The parent status once both status fields follow the service. */
  function SyncedStatus(host: string, svc: Service, st: PolicyStatus): PolicyStatus {
    var st1 := if NeedsIPAddress(svc, st) then st.(ipAddress := svc.ingress[0]) else st;
    if NeedsExitNode(host, st) then st1.(exitNode := host) else st1
  }

  /** A store with the writes issued so far. */
  datatype Staged = Staged(store: Store, writes: seq<Op>)

  /**
   * The two status writes: the IP address, then (only for an assigned host)
   * the exit node. The second sends the status as held in memory, so it
   * carries the new IP address even when the first write failed. Failures
   * are only logged.
   */
  function StatusPhase(env: Env, s: Store, svc: Service, host: string, statusKey: Key, st: PolicyStatus): (r: Staged)
    ensures |r.writes| == (if NeedsIPAddress(svc, st) then 1 else 0) + (if NeedsExitNode(host, st) then 1 else 0)
    ensures forall w :: w in r.writes ==> w == UpdateStatus(statusKey)
    ensures r.store.children == s.children && r.store.services == s.services && r.store.leases == s.leases
    ensures r.store.parents.Keys == s.parents.Keys
    ensures forall k :: k in s.parents && k != statusKey ==> r.store.parents[k] == s.parents[k]
    ensures statusKey in s.parents ==> r.store.parents[statusKey] == s.parents[statusKey].(status := r.store.parents[statusKey].status)
    ensures r.writes != [] && !Fails(env, UpdateStatus(statusKey)) && statusKey in s.parents ==>
      r.store.parents[statusKey].status == SyncedStatus(host, svc, st)
    ensures r.writes == [] ==> r.store == s
  {
    var st1 := if NeedsIPAddress(svc, st) then st.(ipAddress := svc.ingress[0]) else st;
    var s1 := if NeedsIPAddress(svc, st) then TryUpdateStatus(env, s, statusKey, st1) else s;
    var s2 := if NeedsExitNode(host, st) then TryUpdateStatus(env, s1, statusKey, st1.(exitNode := host)) else s1;
    Staged(s2, StatusWrites(host, svc, statusKey, st))
  }

  /** One call of the sync function. */
  function Sync(vipHostKey: string, env: Env, s: Store, svcKey: Key, svc: Service, cegpKey: Key, cegp: Child): (r: Pass)
    ensures r.store.services == s.services && r.store.leases == s.leases
    ensures r.store.parents.Keys == s.parents.Keys && r.store.children.Keys == s.children.Keys
    ensures forall k :: k in s.children && k != cegpKey ==> r.store.children[k] == s.children[k]
    ensures forall k :: k in s.parents ==> r.store.parents[k] == s.parents[k].(status := r.store.parents[k].status)
    ensures forall k :: k in s.parents && k != StatusKey(LookupOwner(env, s, cegpKey, cegp)) ==> r.store.parents[k] == s.parents[k]
    ensures LookupOwner(env, s, cegpKey, cegp).Unavailable? ==> r == Pass(s, [], [], Ok)
    ensures r.events == [] || (r.events == HostEvents(svcKey, cegpKey) && r.outcome.Ok?)
    ensures r.outcome.RequeueAfter? ==>
      || r == Pass(s, [], [Update(ChildKind, cegpKey)], RequeueAfter(PolicyCheckRequeue, None))
      || (r.outcome.delay == LeaseCheckRequeue && r.outcome.cause.Some? && r.outcome.cause.value.op == Patch(ChildKind, cegpKey)
          && |r.writes| > 0 && r.writes[|r.writes| - 1] == Patch(ChildKind, cegpKey) && r.events == [])
    ensures !r.outcome.Err?
  {
    var o := LookupOwner(env, s, cegpKey, cegp);
    if o.Unavailable? then Pass(s, [], [], Ok)
    else
      var host := VipHost(vipHostKey, svc);
      var ipRes := if NeedsEgressIP(svc, cegp) then UpdateChild(env, s, cegpKey, WithEgressIP(cegp, svc.ingress[0])) else Success(s);
      if ipRes.Failure? then Pass(s, [], [Update(ChildKind, cegpKey)], RequeueAfter(PolicyCheckRequeue, None))
      else
        var w1 := if NeedsEgressIP(svc, cegp) then [Update(ChildKind, cegpKey)] else [];
        var st := StatusPhase(env, ipRes.value, svc, host, StatusKey(o), StartStatus(o));
        HostPhase(env, Staged(st.store, w1 + st.writes), svcKey, cegpKey, cegp, host)
  }

  /** The last step: the hostname patch, when the child selects another
      node; a failure requeues after the lease-check interval. */
  function HostPhase(env: Env, st: Staged, svcKey: Key, cegpKey: Key, cegp: Child, host: string): (r: Pass)
    ensures r.store.parents == st.store.parents && r.store.services == st.store.services && r.store.leases == st.store.leases
    ensures r.store.children.Keys == st.store.children.Keys
    ensures forall k :: k in st.store.children && k != cegpKey ==> r.store.children[k] == st.store.children[k]
    ensures r.events == [] || (r.events == HostEvents(svcKey, cegpKey) && r.outcome.Ok?)
    ensures r.outcome.Ok? || (r.outcome.RequeueAfter? && r.outcome.delay == LeaseCheckRequeue && r.outcome.cause.Some?
      && r.outcome.cause.value.op == Patch(ChildKind, cegpKey)
      && |r.writes| > 0 && r.writes[|r.writes| - 1] == Patch(ChildKind, cegpKey) && r.events == [])
  {
    if !NeedsHostPatch(host, cegp) then Pass(st.store, [], st.writes, Ok)
    else
      match PatchNodeLabel(env, st.store, cegpKey, NodeNameAnnotation, host)
      case Failure(e) => Pass(st.store, [], st.writes + [Patch(ChildKind, cegpKey)], RequeueAfter(LeaseCheckRequeue, Some(e)))
      case Success(s4) => Pass(s4, HostEvents(svcKey, cegpKey), st.writes + [Patch(ChildKind, cegpKey)], Ok)
  }

  /**
   * The writes of a pass are the planned ones up to the first failure that
   * ends it; a pass that ends well issued all of them.
   */
  lemma SyncFollowsPlan(vipHostKey: string, env: Env, s: Store, svcKey: Key, svc: Service, cegpKey: Key, cegp: Child)
    requires !LookupOwner(env, s, cegpKey, cegp).Unavailable?
    ensures var o := LookupOwner(env, s, cegpKey, cegp);
      var plan := Plan(VipHost(vipHostKey, svc), svc, cegpKey, cegp, StatusKey(o), StartStatus(o));
      var r := Sync(vipHostKey, env, s, svcKey, svc, cegpKey, cegp);
      && |r.writes| <= |plan| && r.writes == plan[..|r.writes|]
      && (r.outcome.Ok? ==> r.writes == plan)
  {
    var o := LookupOwner(env, s, cegpKey, cegp);
    var host := VipHost(vipHostKey, svc);
    var plan := Plan(host, svc, cegpKey, cegp, StatusKey(o), StartStatus(o));
    var r := Sync(vipHostKey, env, s, svcKey, svc, cegpKey, cegp);
    var w1 := if NeedsEgressIP(svc, cegp) then [Update(ChildKind, cegpKey)] else [];
    var ipRes := if NeedsEgressIP(svc, cegp) then UpdateChild(env, s, cegpKey, WithEgressIP(cegp, svc.ingress[0])) else Success(s);
    if ipRes.Failure? {
      assert NeedsEgressIP(svc, cegp);
      assert r.writes == [Update(ChildKind, cegpKey)];
      assert plan == [Update(ChildKind, cegpKey)] + plan[1..];
    } else {
      var st := StatusPhase(env, ipRes.value, svc, host, StatusKey(o), StartStatus(o));
      var p := if NeedsHostPatch(host, cegp) then [Patch(ChildKind, cegpKey)] else [];
      assert plan == w1 + st.writes + p;
      if NeedsHostPatch(host, cegp) {
        assert r.writes == w1 + st.writes + p;
      } else {
        assert r.writes == w1 + st.writes;
      }
    }
  }

  /**
   * A pass writes nothing exactly when the child and the status already
   * agree with the service, and then it changes nothing and records nothing.
   */
  lemma {:induction false} QuietExactlyWhenConverged(vipHostKey: string, env: Env, s: Store, svcKey: Key, svc: Service, cegpKey: Key, cegp: Child)
    requires !LookupOwner(env, s, cegpKey, cegp).Unavailable?
    ensures var o := LookupOwner(env, s, cegpKey, cegp);
      var r := Sync(vipHostKey, env, s, svcKey, svc, cegpKey, cegp);
      && (r.writes == [] <==> Converged(VipHost(vipHostKey, svc), svc, cegp, StartStatus(o)))
      && (r.writes == [] ==> r == Pass(s, [], [], Ok))
  {
    var o := LookupOwner(env, s, cegpKey, cegp);
    var host := VipHost(vipHostKey, svc);
    var plan := Plan(host, svc, cegpKey, cegp, StatusKey(o), StartStatus(o));
    SyncFollowsPlan(vipHostKey, env, s, svcKey, svc, cegpKey, cegp);
    if Converged(host, svc, cegp, StartStatus(o)) {
      assert plan == [];
      var st := StatusPhase(env, s, svc, host, StatusKey(o), StartStatus(o));
      assert st.store == s;
    } else {
      assert plan != [];
    }
  }

  /**
   * After a pass that ends well, the child holds the service's first ingress
   * IP (when there is one) and selects the assigned host (when there is one);
   * nothing else of the child changes, and only the hostname key of its node
   * selector is set. The in-memory child is assumed to be the stored one.
   */
  lemma SyncedChild(vipHostKey: string, env: Env, s: Store, svcKey: Key, svc: Service, cegpKey: Key, cegp: Child)
    requires !LookupOwner(env, s, cegpKey, cegp).Unavailable?
    requires cegpKey in s.children && s.children[cegpKey] == cegp
    requires Sync(vipHostKey, env, s, svcKey, svc, cegpKey, cegp).outcome.Ok?
    ensures var r := Sync(vipHostKey, env, s, svcKey, svc, cegpKey, cegp);
      var host := VipHost(vipHostKey, svc);
      var c := r.store.children[cegpKey];
      && c.meta == cegp.meta
      && c.spec.selectors == cegp.spec.selectors && c.spec.destinationCIDRs == cegp.spec.destinationCIDRs
      && c.spec.egressIP == (if |svc.ingress| > 0 then svc.ingress[0] else cegp.spec.egressIP)
      && c.spec.nodeLabels == (if NeedsHostPatch(host, cegp) then cegp.spec.nodeLabels[NodeNameAnnotation := host] else cegp.spec.nodeLabels)
  {
    var o := LookupOwner(env, s, cegpKey, cegp);
    var host := VipHost(vipHostKey, svc);
    var ipRes := if NeedsEgressIP(svc, cegp) then UpdateChild(env, s, cegpKey, WithEgressIP(cegp, svc.ingress[0])) else Success(s);
    var c1 := if NeedsEgressIP(svc, cegp) then WithEgressIP(cegp, svc.ingress[0]) else cegp;
    assert ipRes.Success? && ipRes.value.children[cegpKey] == c1;
    var st := StatusPhase(env, ipRes.value, svc, host, StatusKey(o), StartStatus(o));
    assert st.store.children[cegpKey] == c1;
  }

  /**
   * After a pass that ends well, with the owner found and its status writes
   * accepted, the parent's status holds the service's IP address and
   * assigned exit node.
   */
  lemma SyncedStatusStored(vipHostKey: string, env: Env, s: Store, svcKey: Key, svc: Service, cegpKey: Key, cegp: Child)
    requires LookupOwner(env, s, cegpKey, cegp).OwnerFound?
    requires !Fails(env, UpdateStatus(LookupOwner(env, s, cegpKey, cegp).key))
    requires Sync(vipHostKey, env, s, svcKey, svc, cegpKey, cegp).outcome.Ok?
    ensures var o := LookupOwner(env, s, cegpKey, cegp);
      var r := Sync(vipHostKey, env, s, svcKey, svc, cegpKey, cegp);
      r.store.parents[o.key].status == SyncedStatus(VipHost(vipHostKey, svc), svc, o.status)
  {
    var o := LookupOwner(env, s, cegpKey, cegp);
    var host := VipHost(vipHostKey, svc);
    var ipRes := if NeedsEgressIP(svc, cegp) then UpdateChild(env, s, cegpKey, WithEgressIP(cegp, svc.ingress[0])) else Success(s);
    assert ipRes.Success? && ipRes.value.parents == s.parents;
    var st := StatusPhase(env, ipRes.value, svc, host, o.key, o.status);
    assert st.writes == [] ==> SyncedStatus(host, svc, o.status) == o.status;
  }

  /**
   * The sync converges: run again on its own result (the stored child, the
   * same service), a pass that ended well writes nothing, records nothing
   * and changes nothing.
   */
  lemma SecondPassIsQuiet(vipHostKey: string, env: Env, s: Store, svcKey: Key, svc: Service, cegpKey: Key, cegp: Child)
    requires LookupOwner(env, s, cegpKey, cegp).OwnerFound?
    requires !Fails(env, UpdateStatus(LookupOwner(env, s, cegpKey, cegp).key))
    requires cegpKey in s.children && s.children[cegpKey] == cegp
    requires Sync(vipHostKey, env, s, svcKey, svc, cegpKey, cegp).outcome.Ok?
    ensures var r := Sync(vipHostKey, env, s, svcKey, svc, cegpKey, cegp);
      Sync(vipHostKey, env, r.store, svcKey, svc, cegpKey, r.store.children[cegpKey]) == Pass(r.store, [], [], Ok)
  {
    var o := LookupOwner(env, s, cegpKey, cegp);
    var host := VipHost(vipHostKey, svc);
    var r := Sync(vipHostKey, env, s, svcKey, svc, cegpKey, cegp);
    var c := r.store.children[cegpKey];
    SyncedChild(vipHostKey, env, s, svcKey, svc, cegpKey, cegp);
    SyncedStatusStored(vipHostKey, env, s, svcKey, svc, cegpKey, cegp);
    var o2 := LookupOwner(env, r.store, cegpKey, c);
    assert o2 == OwnerFound(o.key, SyncedStatus(host, svc, o.status));
    assert Converged(host, svc, c, o2.status);
    QuietExactlyWhenConverged(vipHostKey, env, r.store, svcKey, svc, cegpKey, c);
  }

  /** An unassigned host ends the pass after the IP sync: no exit-node
      write, no selector patch and no event. */
  lemma UnassignedHostOnlySyncsIP(vipHostKey: string, env: Env, s: Store, svcKey: Key, svc: Service, cegpKey: Key, cegp: Child)
    requires VipHost(vipHostKey, svc) == ""
    ensures var o := LookupOwner(env, s, cegpKey, cegp);
      var r := Sync(vipHostKey, env, s, svcKey, svc, cegpKey, cegp);
      && r.events == [] && |r.writes| <= 2
      && (forall w :: w in r.writes ==> w == Update(ChildKind, cegpKey) || w == UpdateStatus(StatusKey(o)))
      && (r.outcome.Ok? || r.outcome == RequeueAfter(PolicyCheckRequeue, None))
  {
    if !LookupOwner(env, s, cegpKey, cegp).Unavailable? {
      SyncFollowsPlan(vipHostKey, env, s, svcKey, svc, cegpKey, cegp);
    }
  }
}
