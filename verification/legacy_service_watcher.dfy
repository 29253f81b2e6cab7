/**
 * The legacy kube-vip watcher keyed on a Service: a watched service with a
 * host and load-balancer IPs has every child policy whose egress IP is among
 * those IPs merge-patched to select that host, without comparing first.
 */
module LegacyServiceWatcher {
  import opened Wrappers
  import opened Kube

  /** The annotation switching the watcher on for a service. */
  const ServiceMustBeWatched := "kube-vip.io/cilium-egress-watcher"
  /** The annotation kube-vip sets to the node announcing the service. */
  const KubeVipAnnotation := "kube-vip.io/vipHost"
  /** The node-selector key the watcher writes. */
  const HostSelectorKey := "kube-vip.io/host"

  /** The patches issued when none fails: one per listed policy whose egress
      IP (as listed) is among `ips`, in listing order. */
  function MatchingPatches(listed: map<Key, Child>, items: seq<Key>, ips: seq<string>): (r: seq<Op>)
    requires forall i :: 0 <= i < |items| ==> items[i] in listed
    ensures forall w :: w in r ==> w.Patch? && w.kind == ChildKind && w.key in items && listed[w.key].spec.egressIP in ips
    decreases |items|
  {
    if items == [] then []
    else (if listed[items[0]].spec.egressIP in ips then [Patch(ChildKind, items[0])] else []) + MatchingPatches(listed, items[1..], ips)
  }

  /**
   * The loop over the listed policies: each one whose listed egress IP is
   * among `ips` gets the host key of its node selector set to `host`; the
   * first failed patch ends the loop.
   */
  function PatchMatching(env: Env, s: Store, listed: map<Key, Child>, items: seq<Key>, ips: seq<string>, host: string): (r: Step)
    requires forall i :: 0 <= i < |items| ==> items[i] in listed
    ensures r.events == []
    ensures r.store.parents == s.parents && r.store.services == s.services && r.store.leases == s.leases
    ensures r.store.children.Keys == s.children.Keys
    ensures forall k :: k in s.children ==>
      || r.store.children[k] == s.children[k]
      || (k in items && listed[k].spec.egressIP in ips && r.store.children[k] == WithNodeLabel(s.children[k], HostSelectorKey, host))
    decreases |items|
  {
    if items == [] then Step(s, [], [], None)
    else
      var k := items[0];
      if listed[k].spec.egressIP !in ips then PatchMatching(env, s, listed, items[1..], ips, host)
      else
        match PatchNodeLabel(env, s, k, HostSelectorKey, host)
        case Failure(e) => Step(s, [], [Patch(ChildKind, k)], Some(e))
        case Success(s') =>
          var rest := PatchMatching(env, s', listed, items[1..], ips, host);
          WithNodeLabelOverwrites(s.children[k], HostSelectorKey, host, host);
          Step(rest.store, [], [Patch(ChildKind, k)] + rest.writes, rest.err)
  }

  /**
   * The patches issued are the matching ones in listing order, up to and
   * including the first that fails; a loop without error issues them all.
   */
  lemma {:induction false} PatchMatchingFollowsPlan(env: Env, s: Store, listed: map<Key, Child>, items: seq<Key>, ips: seq<string>, host: string)
    requires forall i :: 0 <= i < |items| ==> items[i] in listed
    ensures var r := PatchMatching(env, s, listed, items, ips, host);
      var plan := MatchingPatches(listed, items, ips);
      && |r.writes| <= |plan| && r.writes == plan[..|r.writes|]
      && (r.err.None? ==> r.writes == plan)
    decreases |items|
  {
    if items != [] {
      var k := items[0];
      if listed[k].spec.egressIP !in ips {
        assert MatchingPatches(listed, items, ips) == MatchingPatches(listed, items[1..], ips);
        PatchMatchingFollowsPlan(env, s, listed, items[1..], ips, host);
      } else {
        var here := [Patch(ChildKind, k)];
        var restPlan := MatchingPatches(listed, items[1..], ips);
        assert MatchingPatches(listed, items, ips) == here + restPlan;
        match PatchNodeLabel(env, s, k, HostSelectorKey, host)
        case Failure(_) =>
        case Success(s') =>
          PatchMatchingFollowsPlan(env, s', listed, items[1..], ips, host);
          var rest := PatchMatching(env, s', listed, items[1..], ips, host);
          assert PatchMatching(env, s, listed, items, ips, host).writes == here + rest.writes;
          PrefixExtends(here, rest.writes, restPlan);
      }
    }
  }

  /** A loop that fails stops at the request that failed: it is the last one issued. */
  lemma {:induction false} PatchMatchingFailsLast(env: Env, s: Store, listed: map<Key, Child>, items: seq<Key>, ips: seq<string>, host: string)
    requires forall i :: 0 <= i < |items| ==> items[i] in listed
    ensures var r := PatchMatching(env, s, listed, items, ips, host);
      r.err.Some? ==> r.writes != [] && r.err.value.op == r.writes[|r.writes| - 1]
    decreases |items|
  {
    if items != [] {
      var k := items[0];
      if listed[k].spec.egressIP !in ips {
        PatchMatchingFailsLast(env, s, listed, items[1..], ips, host);
      } else {
        match PatchNodeLabel(env, s, k, HostSelectorKey, host)
        case Failure(_) =>
        case Success(s') =>
          PatchMatchingFailsLast(env, s', listed, items[1..], ips, host);
          var rest := PatchMatching(env, s', listed, items[1..], ips, host);
          assert PatchMatching(env, s, listed, items, ips, host).writes == [Patch(ChildKind, k)] + rest.writes;
      }
    }
  }

  /** Putting the same head in front of a prefix and of the whole keeps it a prefix. */
  lemma PrefixExtends(a: seq<Op>, b: seq<Op>, c: seq<Op>)
    requires |b| <= |c| && b == c[..|b|]
    ensures a + b == (a + c)[..|a| + |b|]
  {
    assert forall i :: 0 <= i < |a| + |b| ==> (a + b)[i] == (a + c)[i];
  }

  /** A service the watcher acts on, and the host and IPs it takes from it. */
  predicate Watched(svc: Service) {
    Lookup(svc.meta.annotations, ServiceMustBeWatched) == "true"
    && Lookup(svc.meta.annotations, KubeVipAnnotation) != ""
    && svc.ingress != []
  }

  /** One pass of `ServiceReconciler.Reconcile` for the service `req`. */
  function Reconcile(env: Env, s: Store, req: Key): (r: Pass)
    ensures r.events == []
    ensures r.store.parents == s.parents && r.store.services == s.services && r.store.leases == s.leases
    ensures Fails(env, Get(ServiceKind, req)) ==> r == Pass(s, [], [], Err(Rejected(Get(ServiceKind, req))))
    ensures !Fails(env, Get(ServiceKind, req)) && (req !in s.services || !Watched(s.services[req])) ==> r == Pass(s, [], [], Ok)
    ensures !Fails(env, Get(ServiceKind, req)) && req in s.services && Watched(s.services[req]) ==>
      var plan := MatchingPatches(s.children, Select(env.order, ChildIndex(s), map[]), s.services[req].ingress);
      && (Fails(env, List(ChildKind, map[])) ==> r == Pass(s, [], [], Err(Rejected(List(ChildKind, map[])))))
      && (!Fails(env, List(ChildKind, map[])) ==> |r.writes| <= |plan| && r.writes == plan[..|r.writes|])
      && (r.outcome.Ok? ==> r.writes == plan)
    ensures r.outcome.Ok? || r.outcome.Err?
  {
    match Fetch(env, ServiceKind, s.services, req)
    case Failed(e) => Pass(s, [], [], Err(e))
    case Missing(_) => Pass(s, [], [], Ok)
    case Found(svc) =>
      if !Watched(svc) then Pass(s, [], [], Ok)
      else
        var list := List(ChildKind, map[]);
        if Fails(env, list) then Pass(s, [], [], Err(Rejected(list)))
        else
          var items := Select(env.order, ChildIndex(s), map[]);
          var h := PatchMatching(env, s, s.children, items, svc.ingress, Lookup(svc.meta.annotations, KubeVipAnnotation));
          PatchMatchingFollowsPlan(env, s, s.children, items, svc.ingress, Lookup(svc.meta.annotations, KubeVipAnnotation));
          Pass(h.store, [], h.writes, if h.err.Some? then Err(h.err.value) else Ok)
  }

  /** The host a policy selects under the watcher's key. */
  function SelectedHost(c: Child): string {
    Lookup(c.spec.nodeLabels, HostSelectorKey)
  }

  /**
   * After a loop without error, every listed policy whose egress IP is among
   * the IPs selects the host, and each of their patches was accepted.
   */
  lemma {:induction false} PatchMatchingSettles(env: Env, s: Store, listed: map<Key, Child>, items: seq<Key>, ips: seq<string>, host: string)
    requires forall i :: 0 <= i < |items| ==> items[i] in listed
    ensures var r := PatchMatching(env, s, listed, items, ips, host);
      r.err.None? ==>
        forall k :: k in items && listed[k].spec.egressIP in ips ==>
          && k in s.children && !Fails(env, Patch(ChildKind, k))
          && SelectedHost(r.store.children[k]) == host
    decreases |items|
  {
    if items != [] {
      var k := items[0];
      if listed[k].spec.egressIP !in ips {
        PatchMatchingSettles(env, s, listed, items[1..], ips, host);
      } else {
        match PatchNodeLabel(env, s, k, HostSelectorKey, host)
        case Failure(_) =>
        case Success(s') =>
          PatchMatchingSettles(env, s', listed, items[1..], ips, host);
          assert SelectedHost(s'.children[k]) == host;
      }
    }
  }

  /** Patching a policy that already selects the host changes nothing. */
  lemma PatchIdle(c: Child, host: string)
    requires SelectedHost(c) == host && HostSelectorKey in c.spec.nodeLabels
    ensures WithNodeLabel(c, HostSelectorKey, host) == c
  {
    assert c.spec.nodeLabels[HostSelectorKey := host] == c.spec.nodeLabels;
  }

  /** When every matching policy already selects the host and accepts the
      patch, the loop issues all the patches and changes nothing. */
  lemma {:induction false} PatchMatchingIdle(env: Env, s: Store, listed: map<Key, Child>, items: seq<Key>, ips: seq<string>, host: string)
    requires forall i :: 0 <= i < |items| ==> items[i] in listed
    requires forall k :: k in items && listed[k].spec.egressIP in ips ==>
      k in s.children && !Fails(env, Patch(ChildKind, k)) && SelectedHost(s.children[k]) == host
    requires host != ""
    ensures PatchMatching(env, s, listed, items, ips, host) == Step(s, [], MatchingPatches(listed, items, ips), None)
    decreases |items|
  {
    if items != [] {
      var k := items[0];
      if listed[k].spec.egressIP in ips {
        PatchIdle(s.children[k], host);
        assert s.(children := s.children[k := s.children[k]]) == s;
      }
      PatchMatchingIdle(env, s, listed, items[1..], ips, host);
    }
  }

  /** The plan only reads the listed egress IPs. */
  lemma {:induction false} MatchingPatchesByEgressIP(a: map<Key, Child>, b: map<Key, Child>, items: seq<Key>, ips: seq<string>)
    requires forall i :: 0 <= i < |items| ==> items[i] in a && items[i] in b
    requires forall i :: 0 <= i < |items| ==> a[items[i]].spec.egressIP == b[items[i]].spec.egressIP
    ensures MatchingPatches(a, items, ips) == MatchingPatches(b, items, ips)
    decreases |items|
  {
    if items != [] {
      MatchingPatchesByEgressIP(a, b, items[1..], ips);
    }
  }

  /**
   * A pass that ends well sets the host on every policy whose egress
   * IP the service announces, and leaves every other policy as it was.
   */
  lemma PatchesEveryMatchingPolicy(env: Env, s: Store, req: Key)
    requires ListsAll(env, s)
    requires !Fails(env, Get(ServiceKind, req)) && req in s.services && Watched(s.services[req])
    requires Reconcile(env, s, req).outcome.Ok?
    ensures var r := Reconcile(env, s, req);
      var svc := s.services[req];
      forall k :: k in s.children ==>
        if s.children[k].spec.egressIP in svc.ingress
        then SelectedHost(r.store.children[k]) == Lookup(svc.meta.annotations, KubeVipAnnotation)
        else r.store.children[k] == s.children[k]
  {
    var svc := s.services[req];
    var items := Select(env.order, ChildIndex(s), map[]);
    var host := Lookup(svc.meta.annotations, KubeVipAnnotation);
    PatchMatchingSettles(env, s, s.children, items, svc.ingress, host);
    forall k | k in s.children
      ensures k in items
    {
      assert k in ChildIndex(s);
    }
  }

  /** Patching the host selector changes neither labels nor egress IPs, so
      listing again finds the same policies and plans the same patches. */
  lemma PatchMatchingKeepsPlan(env: Env, s: Store, items: seq<Key>, ips: seq<string>, host: string)
    requires forall i :: 0 <= i < |items| ==> items[i] in s.children
    ensures var r := PatchMatching(env, s, s.children, items, ips, host);
      && ChildIndex(r.store) == ChildIndex(s)
      && (forall i :: 0 <= i < |items| ==> items[i] in r.store.children)
      && MatchingPatches(r.store.children, items, ips) == MatchingPatches(s.children, items, ips)
  {
    var r := PatchMatching(env, s, s.children, items, ips, host);
    forall k | k in s.children
      ensures r.store.children[k].meta.labels == s.children[k].meta.labels
    {
    }
    forall i | 0 <= i < |items|
      ensures r.store.children[items[i]].spec.egressIP == s.children[items[i]].spec.egressIP
    {
    }
    MatchingPatchesByEgressIP(s.children, r.store.children, items, ips);
  }

  /**
   * There is no comparison before a patch: a pass that ends well is
   * followed by a pass that issues exactly the same patches again, although
   * they change nothing.
   */
  lemma RepatchesEveryPass(env: Env, s: Store, req: Key)
    requires Reconcile(env, s, req).outcome.Ok?
    ensures var r := Reconcile(env, s, req);
      Reconcile(env, r.store, req) == Pass(r.store, [], r.writes, Ok)
  {
    var r := Reconcile(env, s, req);
    if !Fails(env, Get(ServiceKind, req)) && req in s.services && Watched(s.services[req]) {
      var svc := s.services[req];
      var items := Select(env.order, ChildIndex(s), map[]);
      var host := Lookup(svc.meta.annotations, KubeVipAnnotation);
      var h := PatchMatching(env, s, s.children, items, svc.ingress, host);
      assert r.store == h.store;
      PatchMatchingSettles(env, s, s.children, items, svc.ingress, host);
      PatchMatchingKeepsPlan(env, s, items, svc.ingress, host);
      PatchMatchingIdle(env, r.store, r.store.children, items, svc.ingress, host);
    }
  }
}
