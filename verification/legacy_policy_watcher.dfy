/**
 * The legacy kube-vip watcher keyed on a CiliumEgressGatewayPolicy: it lists
 * every service, and for each watched service with an announced host whose
 * load-balancer IPs include the policy's egress IP it merge-patches one key
 * of the policy's node selector to that host.
 *
 * As written, the IP list is declared once per pass and never reset, so it
 * gathers the IPs of every watched service seen so far. `PerService` scopes
 * the list to the service being examined, as evidently intended.
 */
module LegacyPolicyWatcher {
  import opened Wrappers
  import opened Kube

  /** The watcher's annotation keys: the watch switch, the vipHost annotation
      kube-vip sets, and the node-selector key this watcher writes. */
  datatype WatcherKeys = WatcherKeys(mustBeWatched: string, vipHost: string, egressVip: string) {
    predicate Distinct() {
      mustBeWatched != vipHost
    }
  }

  /** Which IPs a service is matched against: all those gathered so far in
      the pass (as written), or its own. */
  datatype IpScope = AcrossServices | PerService

  /** A service the watcher considers: switched on and with a host. */
  predicate Watched(wk: WatcherKeys, svc: Service) {
    Lookup(svc.meta.annotations, wk.mustBeWatched) == "true" && Lookup(svc.meta.annotations, wk.vipHost) != ""
  }

  function VipHost(wk: WatcherKeys, svc: Service): string {
    Lookup(svc.meta.annotations, wk.vipHost)
  }

  /** The host the policy currently selects under the watcher's key. */
  function Selected(wk: WatcherKeys, c: Child): string {
    Lookup(c.spec.nodeLabels, wk.egressVip)
  }

  /** The ingress IPs of the watched services among `items`, in order. */
  function Gathered(wk: WatcherKeys, svcs: map<Key, Service>, items: seq<Key>): seq<string>
    requires forall i :: 0 <= i < |items| ==> items[i] in svcs
    decreases |items|
  {
    if items == [] then []
    else (if Watched(wk, svcs[items[0]]) then svcs[items[0]].ingress else []) + Gathered(wk, svcs, items[1..])
  }

  /** The IP list a service is matched against, given the list `ips` held before it. */
  function IpsAt(scope: IpScope, ips: seq<string>, svc: Service): seq<string> {
    match scope
    case AcrossServices => ips + svc.ingress
    case PerService => svc.ingress
  }

  /**
   * The loop over the listed services `items` (read from the listing
   * `svcs`). The policy is held in memory; a patch refreshes it from the
   * response, so it always equals the stored policy `s.children[req]`.
   * A match whose selected host already equals the service's host ends the
   * pass at once; a patch failure ends it with the error.
   */
  function Scan(scope: IpScope, wk: WatcherKeys, env: Env, s: Store, req: Key, svcs: map<Key, Service>, items: seq<Key>, ips: seq<string>): (r: Pass)
    requires req in s.children
    requires forall i :: 0 <= i < |items| ==> items[i] in svcs
    ensures r.events == []
    ensures r.store.parents == s.parents && r.store.services == s.services && r.store.leases == s.leases
    ensures r.store.children.Keys == s.children.Keys
    ensures forall k :: k in s.children && k != req ==> r.store.children[k] == s.children[k]
    ensures || r.store.children[req] == s.children[req]
            || r.store.children[req] == WithNodeLabel(s.children[req], wk.egressVip, Selected(wk, r.store.children[req]))
    ensures forall w :: w in r.writes ==> w == Patch(ChildKind, req)
    ensures r.outcome.Ok? || (r.outcome.Err? && r.outcome.err == Rejected(Patch(ChildKind, req)) && r.writes != [])
    decreases |items|
  {
    if items == [] then Pass(s, [], [], Ok)
    else
      var svc := svcs[items[0]];
      if !Watched(wk, svc) then Scan(scope, wk, env, s, req, svcs, items[1..], ips)
      else
        var ips' := IpsAt(scope, ips, svc);
        if ips' == [] || s.children[req].spec.egressIP !in ips' then Scan(scope, wk, env, s, req, svcs, items[1..], ips')
        else if Selected(wk, s.children[req]) == VipHost(wk, svc) then Pass(s, [], [], Ok)
        else
          match PatchNodeLabel(env, s, req, wk.egressVip, VipHost(wk, svc))
          case Failure(e) => Pass(s, [], [Patch(ChildKind, req)], Err(e))
          case Success(s') =>
            var rest := Scan(scope, wk, env, s', req, svcs, items[1..], ips');
            WithNodeLabelOverwrites(s.children[req], wk.egressVip, VipHost(wk, svc), Selected(wk, rest.store.children[req]));
            Pass(rest.store, [], [Patch(ChildKind, req)] + rest.writes, rest.outcome)
  }

  /** One pass for the policy `req`, with the IP list scoped by `scope`. */
  function Run(scope: IpScope, wk: WatcherKeys, env: Env, s: Store, req: Key): (r: Pass)
    ensures Fails(env, Get(ChildKind, req)) ==> r == Pass(s, [], [], Err(Rejected(Get(ChildKind, req))))
    ensures !Fails(env, Get(ChildKind, req)) && req !in s.children ==> r == Pass(s, [], [], Ok)
    ensures r.events == [] && r.store.services == s.services
    ensures forall w :: w in r.writes ==> w == Patch(ChildKind, req)
  {
    match Fetch(env, ChildKind, s.children, req)
    case Failed(e) => Pass(s, [], [], Err(e))
    case Missing(_) => Pass(s, [], [], Ok)
    case Found(_) =>
      var list := List(ServiceKind, map[]);
      if Fails(env, list) then Pass(s, [], [], Err(Rejected(list)))
      else Scan(scope, wk, env, s, req, s.services, Select(env.order, ServiceIndex(s), map[]), [])
  }

  /** `CiliumEgressGatewayPolicyReconciler.Reconcile` as written. */
  function Reconcile(wk: WatcherKeys, env: Env, s: Store, req: Key): Pass {
    Run(AcrossServices, wk, env, s, req)
  }

  /** The pass with the IP list reset for every service. */
  function ReconcileCorrected(wk: WatcherKeys, env: Env, s: Store, req: Key): Pass {
    Run(PerService, wk, env, s, req)
  }

  /** The IPs the service at position `j` of `items` is matched against. */
  function MatchIps(scope: IpScope, wk: WatcherKeys, ips: seq<string>, svcs: map<Key, Service>, items: seq<Key>, j: nat): seq<string>
    requires j < |items|
    requires forall i :: 0 <= i < |items| ==> items[i] in svcs
  {
    match scope
    case AcrossServices => ips + Gathered(wk, svcs, items[..j + 1])
    case PerService => svcs[items[j]].ingress
  }

  /** The service at position `j` is watched and its match list holds `ip`. */
  predicate MatchedAt(scope: IpScope, wk: WatcherKeys, ips: seq<string>, svcs: map<Key, Service>, items: seq<Key>, j: nat, ip: string)
    requires forall i :: 0 <= i < |items| ==> items[i] in svcs
  {
    j < |items| && Watched(wk, svcs[items[j]]) && ip in MatchIps(scope, wk, ips, svcs, items, j)
  }

  /** Moving past the first service shifts every position by one. */
  lemma MatchedAtShift(scope: IpScope, wk: WatcherKeys, ips: seq<string>, svcs: map<Key, Service>, items: seq<Key>, j: nat, ip: string)
    requires items != []
    requires forall i :: 0 <= i < |items| ==> items[i] in svcs
    requires || (Watched(wk, svcs[items[0]]) && MatchedAt(scope, wk, IpsAt(scope, ips, svcs[items[0]]), svcs, items[1..], j, ip))
             || (!Watched(wk, svcs[items[0]]) && MatchedAt(scope, wk, ips, svcs, items[1..], j, ip))
    ensures MatchedAt(scope, wk, ips, svcs, items, j + 1, ip)
  {
    assert items[..j + 2][1..] == items[1..][..j + 1];
    assert items[1..][j] == items[j + 1];
    if scope.AcrossServices? {
      var svc := svcs[items[0]];
      var g := Gathered(wk, svcs, items[1..][..j + 1]);
      assert Gathered(wk, svcs, items[..j + 2]) == (if Watched(wk, svc) then svc.ingress else []) + g;
      if Watched(wk, svc) {
        assert IpsAt(scope, ips, svc) + g == ips + (svc.ingress + g);
      }
    }
  }

  /** The first service is matched against the list it extends. */
  lemma MatchIpsHead(scope: IpScope, wk: WatcherKeys, ips: seq<string>, svcs: map<Key, Service>, items: seq<Key>)
    requires items != []
    requires forall i :: 0 <= i < |items| ==> items[i] in svcs
    requires Watched(wk, svcs[items[0]])
    ensures MatchIps(scope, wk, ips, svcs, items, 0) == IpsAt(scope, ips, svcs[items[0]])
  {
    assert items[..1][1..] == [];
    assert Gathered(wk, svcs, items[..1]) == svcs[items[0]].ingress + Gathered(wk, svcs, []);
  }

  /**
   * Every host a pass writes is the host of a watched service whose match
   * list holds the policy's egress IP: as written, the IPs of that service
   * and of every watched service before it; corrected, its own.
   */
  lemma {:induction false} ScanWritesMatchedHost(scope: IpScope, wk: WatcherKeys, env: Env, s: Store, req: Key, svcs: map<Key, Service>, items: seq<Key>, ips: seq<string>)
    requires req in s.children
    requires forall i :: 0 <= i < |items| ==> items[i] in svcs
    ensures var r := Scan(scope, wk, env, s, req, svcs, items, ips);
      var ip := s.children[req].spec.egressIP;
      || r.store.children[req] == s.children[req]
      || exists j: nat :: MatchedAt(scope, wk, ips, svcs, items, j, ip) && Selected(wk, r.store.children[req]) == VipHost(wk, svcs[items[j]])
    decreases |items|
  {
    if items != [] {
      var r := Scan(scope, wk, env, s, req, svcs, items, ips);
      var ip := s.children[req].spec.egressIP;
      var svc := svcs[items[0]];
      var ips' := if Watched(wk, svc) then IpsAt(scope, ips, svc) else ips;
      if !Watched(wk, svc) || ips' == [] || ip !in ips' {
        ScanWritesMatchedHost(scope, wk, env, s, req, svcs, items[1..], ips');
        if r.store.children[req] != s.children[req] {
          ShiftMatch(scope, wk, ips, svcs, items, ip, Selected(wk, r.store.children[req]));
        }
      } else if Selected(wk, s.children[req]) != VipHost(wk, svc) {
        match PatchNodeLabel(env, s, req, wk.egressVip, VipHost(wk, svc))
        case Failure(_) =>
        case Success(s') =>
          ScanWritesMatchedHost(scope, wk, env, s', req, svcs, items[1..], ips');
          if r.store.children[req] != s'.children[req] {
            ShiftMatch(scope, wk, ips, svcs, items, ip, Selected(wk, r.store.children[req]));
          } else {
            MatchIpsHead(scope, wk, ips, svcs, items);
            assert MatchedAt(scope, wk, ips, svcs, items, 0, ip);
          }
      }
    }
  }

  /** A match found past the first service is a match at the next position. */
  lemma ShiftMatch(scope: IpScope, wk: WatcherKeys, ips: seq<string>, svcs: map<Key, Service>, items: seq<Key>, ip: string, h: string)
    requires items != []
    requires forall i :: 0 <= i < |items| ==> items[i] in svcs
    requires var svc := svcs[items[0]];
      var ips' := if Watched(wk, svc) then IpsAt(scope, ips, svc) else ips;
      exists j: nat :: MatchedAt(scope, wk, ips', svcs, items[1..], j, ip) && h == VipHost(wk, svcs[items[1..][j]])
    ensures exists j: nat :: MatchedAt(scope, wk, ips, svcs, items, j, ip) && h == VipHost(wk, svcs[items[j]])
  {
    var svc := svcs[items[0]];
    var ips' := if Watched(wk, svc) then IpsAt(scope, ips, svc) else ips;
    var j: nat :| MatchedAt(scope, wk, ips', svcs, items[1..], j, ip) && h == VipHost(wk, svcs[items[1..][j]]);
    MatchedAtShift(scope, wk, ips, svcs, items, j, ip);
  }

  /** Every watched service among `items` whose own IPs hold `ip` is announced from `h`. */
  predicate AnnouncedFrom(wk: WatcherKeys, svcs: map<Key, Service>, items: seq<Key>, ip: string, h: string)
    requires forall i :: 0 <= i < |items| ==> items[i] in svcs
  {
    forall j :: 0 <= j < |items| && Watched(wk, svcs[items[j]]) && ip in svcs[items[j]].ingress ==> VipHost(wk, svcs[items[j]]) == h
  }

  /** Some watched service among `items` holds `ip` among its own IPs. */
  predicate Announced(wk: WatcherKeys, svcs: map<Key, Service>, items: seq<Key>, ip: string)
    requires forall i :: 0 <= i < |items| ==> items[i] in svcs
  {
    exists j :: 0 <= j < |items| && Watched(wk, svcs[items[j]]) && ip in svcs[items[j]].ingress
  }

  /** With the IP list scoped per service, a policy already selecting the
      host every matching service is announced from is left alone. */
  lemma {:induction false} PerServiceQuiet(wk: WatcherKeys, env: Env, s: Store, req: Key, svcs: map<Key, Service>, items: seq<Key>, ips: seq<string>)
    requires req in s.children
    requires forall i :: 0 <= i < |items| ==> items[i] in svcs
    requires AnnouncedFrom(wk, svcs, items, s.children[req].spec.egressIP, Selected(wk, s.children[req]))
    ensures Scan(PerService, wk, env, s, req, svcs, items, ips) == Pass(s, [], [], Ok)
    decreases |items|
  {
    if items != [] {
      var svc := svcs[items[0]];
      assert AnnouncedFrom(wk, svcs, items[1..], s.children[req].spec.egressIP, Selected(wk, s.children[req])) by {
        forall j | 0 <= j < |items[1..]| ensures items[1..][j] == items[j + 1] { }
      }
      if !Watched(wk, svc) || svc.ingress == [] || s.children[req].spec.egressIP !in svc.ingress {
        PerServiceQuiet(wk, env, s, req, svcs, items[1..], if Watched(wk, svc) then svc.ingress else ips);
      } else {
        assert VipHost(wk, svcs[items[0]]) == Selected(wk, s.children[req]);
      }
    }
  }

  /**
   * With the IP list scoped per service, and every matching service
   * announced from `h`, a pass that ends well leaves the policy selecting
   * `h` when some service matches, and changes nothing when none does.
   */
  lemma {:induction false} PerServiceSettles(wk: WatcherKeys, env: Env, s: Store, req: Key, svcs: map<Key, Service>, items: seq<Key>, ips: seq<string>, h: string)
    requires req in s.children
    requires forall i :: 0 <= i < |items| ==> items[i] in svcs
    requires AnnouncedFrom(wk, svcs, items, s.children[req].spec.egressIP, h)
    ensures var r := Scan(PerService, wk, env, s, req, svcs, items, ips);
      r.outcome.Ok? ==>
        && (Announced(wk, svcs, items, s.children[req].spec.egressIP) ==> Selected(wk, r.store.children[req]) == h)
        && (!Announced(wk, svcs, items, s.children[req].spec.egressIP) ==> r.store == s)
    decreases |items|
  {
    if items != [] {
      var ip := s.children[req].spec.egressIP;
      var svc := svcs[items[0]];
      var rest := items[1..];
      assert forall j :: 0 <= j < |rest| ==> rest[j] == items[j + 1];
      assert AnnouncedFrom(wk, svcs, rest, ip, h);
      var matches := Watched(wk, svc) && ip in svc.ingress;
      assert Announced(wk, svcs, items, ip) <==> matches || Announced(wk, svcs, rest, ip) by {
        if Announced(wk, svcs, items, ip) && !matches {
          var j :| 0 <= j < |items| && Watched(wk, svcs[items[j]]) && ip in svcs[items[j]].ingress;
          assert j != 0 && rest[j - 1] == items[j];
        }
        if Announced(wk, svcs, rest, ip) {
          var j :| 0 <= j < |rest| && Watched(wk, svcs[rest[j]]) && ip in svcs[rest[j]].ingress;
          assert items[j + 1] == rest[j];
        }
        if matches {
          assert Watched(wk, svcs[items[0]]) && ip in svcs[items[0]].ingress;
        }
      }
      if !matches {
        PerServiceSettles(wk, env, s, req, svcs, rest, if Watched(wk, svc) then svc.ingress else ips, h);
      } else {
        assert VipHost(wk, svcs[items[0]]) == h;
        if Selected(wk, s.children[req]) != h {
          match PatchNodeLabel(env, s, req, wk.egressVip, h)
          case Failure(_) =>
          case Success(s') =>
            assert Selected(wk, s'.children[req]) == h;
            PerServiceSettles(wk, env, s', req, svcs, rest, svc.ingress, h);
        }
      }
    }
  }

  /** Every watched service whose own IPs hold `ip` is announced from `h`. */
  predicate SingleHost(wk: WatcherKeys, svcs: map<Key, Service>, ip: string, h: string) {
    forall k :: k in svcs && Watched(wk, svcs[k]) && ip in svcs[k].ingress ==> VipHost(wk, svcs[k]) == h
  }

  /**
   * Corrected, the watcher converges when the policy's IP is announced from
   * one host: a pass that ends well is followed by a pass that writes
   * nothing and changes nothing.
   */
  lemma CorrectedSecondPassIsQuiet(wk: WatcherKeys, env: Env, s: Store, req: Key, h: string)
    requires req in s.children ==> SingleHost(wk, s.services, s.children[req].spec.egressIP, h)
    requires ReconcileCorrected(wk, env, s, req).outcome.Ok?
    ensures var r := ReconcileCorrected(wk, env, s, req);
      ReconcileCorrected(wk, env, r.store, req) == Pass(r.store, [], [], Ok)
  {
    if req in s.children {
      var r := ReconcileCorrected(wk, env, s, req);
      var ip := s.children[req].spec.egressIP;
      var items := Select(env.order, ServiceIndex(s), map[]);
      assert forall i :: 0 <= i < |items| ==> items[i] in s.services;
      PerServiceSettles(wk, env, s, req, s.services, items, [], h);
      assert ServiceIndex(r.store) == ServiceIndex(s);
      assert r.store.children[req].spec.egressIP == ip;
      PerServiceQuiet(wk, env, r.store, req, s.services, items, []);
    }
  }

  /** A watched service whose IPs hold the policy's egress IP, announced
      from another host than the one selected, patches the policy and the
      scan carries on from the patched store. */
  lemma ScanPatchesHead(scope: IpScope, wk: WatcherKeys, env: Env, s: Store, req: Key, svcs: map<Key, Service>, items: seq<Key>, ips: seq<string>)
    requires req in s.children
    requires forall i :: 0 <= i < |items| ==> items[i] in svcs
    requires items != [] && Watched(wk, svcs[items[0]])
    requires s.children[req].spec.egressIP in IpsAt(scope, ips, svcs[items[0]])
    requires Selected(wk, s.children[req]) != VipHost(wk, svcs[items[0]])
    requires !Fails(env, Patch(ChildKind, req))
    ensures var host := VipHost(wk, svcs[items[0]]);
      var s' := s.(children := s.children[req := WithNodeLabel(s.children[req], wk.egressVip, host)]);
      var rest := Scan(scope, wk, env, s', req, svcs, items[1..], IpsAt(scope, ips, svcs[items[0]]));
      Scan(scope, wk, env, s, req, svcs, items, ips) == Pass(rest.store, [], [Patch(ChildKind, req)] + rest.writes, rest.outcome)
  {
  }

  /** A watched service whose IPs hold the policy's egress IP, announced
      from the host the policy already selects, ends the pass at once: no
      write, and the services after it are not looked at. */
  lemma StopsAtSelectedMatch(scope: IpScope, wk: WatcherKeys, env: Env, s: Store, req: Key, svcs: map<Key, Service>, items: seq<Key>, ips: seq<string>)
    requires req in s.children
    requires forall i :: 0 <= i < |items| ==> items[i] in svcs
    requires items != [] && Watched(wk, svcs[items[0]])
    requires s.children[req].spec.egressIP in IpsAt(scope, ips, svcs[items[0]])
    requires Selected(wk, s.children[req]) == VipHost(wk, svcs[items[0]])
    ensures Scan(scope, wk, env, s, req, svcs, items, ips) == Pass(s, [], [], Ok)
  {
  }

  /** Two watched services: `a` announces 10.0.0.1 from node-1, `b`
      announces 10.0.0.2 from node-2; the policy has egress IP 10.0.0.1 and
      no host selected yet. */
  function ExampleStore(wk: WatcherKeys): Store {
    var svcA := Service(Meta(map[], map[wk.mustBeWatched := "true", wk.vipHost := "node-1"], None), LoadBalancer, [], map[], ["10.0.0.1"]);
    var svcB := Service(Meta(map[], map[wk.mustBeWatched := "true", wk.vipHost := "node-2"], None), LoadBalancer, [], map[], ["10.0.0.2"]);
    var policy := Child(Meta(map[], map[], None), EgressSpec([], [], "10.0.0.1", map[]));
    Store(map[], map[ExampleReq := policy], map[Key("web", "a") := svcA, Key("web", "b") := svcB], map[])
  }

  const ExampleReq := Key("", "egress-web-p")

  const ExampleEnv := Env({}, [Key("web", "a"), Key("web", "b")])

  /** The policy of the example with its selected host set to `h`. */
  function ExampleAt(wk: WatcherKeys, h: string): Store {
    var s := ExampleStore(wk);
    s.(children := s.children[ExampleReq := WithNodeLabel(s.children[ExampleReq], wk.egressVip, h)])
  }

  lemma ExampleListing(wk: WatcherKeys, s: Store)
    requires wk.Distinct() && s.services == ExampleStore(wk).services
    ensures Select(ExampleEnv.order, ServiceIndex(s), map[]) == [Key("web", "a"), Key("web", "b")]
    ensures Watched(wk, s.services[Key("web", "a")]) && VipHost(wk, s.services[Key("web", "a")]) == "node-1"
    ensures Watched(wk, s.services[Key("web", "b")]) && VipHost(wk, s.services[Key("web", "b")]) == "node-2"
  {
    assert Select([Key("web", "b")], ServiceIndex(s), map[]) == [Key("web", "b")];
  }

  /**
   * As written, the accumulated IP list picks the wrong host: `b` matches
   * too, because the list still holds `a`'s IP, so the policy ends up
   * selecting node-2, which announces a different IP; and every later pass
   * patches it twice again.
   */
  lemma AccumulatedIpsPickWrongHost(wk: WatcherKeys)
    requires wk.Distinct()
    ensures var r := Reconcile(wk, ExampleEnv, ExampleStore(wk), ExampleReq);
      && r == Pass(ExampleAt(wk, "node-2"), [], [Patch(ChildKind, ExampleReq), Patch(ChildKind, ExampleReq)], Ok)
      && Reconcile(wk, ExampleEnv, r.store, ExampleReq).writes == [Patch(ChildKind, ExampleReq), Patch(ChildKind, ExampleReq)]
  {
    var s2 := ExampleAt(wk, "node-2");
    AccumulatedPatchesTwice(wk, ExampleStore(wk));
    AccumulatedPatchesTwice(wk, s2);
  }

  /** The store with the policy `req` selecting `host`. */
  function Relabelled(wk: WatcherKeys, s: Store, req: Key, host: string): Store
    requires req in s.children
  {
    s.(children := s.children[req := WithNodeLabel(s.children[req], wk.egressVip, host)])
  }

  /** Relabelling twice keeps only the second host. */
  lemma RelabelledTwice(wk: WatcherKeys, s: Store, req: Key, x: string, y: string)
    requires req in s.children
    ensures Relabelled(wk, Relabelled(wk, s, req, x), req, y) == Relabelled(wk, s, req, y)
  {
    WithNodeLabelOverwrites(s.children[req], wk.egressVip, x, y);
    assert s.children[req := WithNodeLabel(s.children[req], wk.egressVip, x)][req := WithNodeLabel(s.children[req], wk.egressVip, y)]
        == s.children[req := WithNodeLabel(s.children[req], wk.egressVip, y)];
  }

  /** As written, `b` still matches on node-1, because the IP list holds
      `a`'s IP: the policy is patched to node-2. */
  lemma AccumulatedSecondService(wk: WatcherKeys, s: Store)
    requires wk.Distinct() && s.services == ExampleStore(wk).services
    requires ExampleReq in s.children && s.children[ExampleReq].spec.egressIP == "10.0.0.1"
    requires Selected(wk, s.children[ExampleReq]) == "node-1"
    ensures Scan(AcrossServices, wk, ExampleEnv, s, ExampleReq, s.services, [Key("web", "b")], ["10.0.0.1"])
         == Pass(Relabelled(wk, s, ExampleReq, "node-2"), [], [Patch(ChildKind, ExampleReq)], Ok)
  {
    ExampleListing(wk, s);
    ScanPatchesHead(AcrossServices, wk, ExampleEnv, s, ExampleReq, s.services, [Key("web", "b")], ["10.0.0.1"]);
  }

  /** As written, any pass over the example services that does not start
      on node-1 patches the policy to node-1 for `a` and then to node-2 for
      `b`. */
  lemma AccumulatedPatchesTwice(wk: WatcherKeys, s: Store)
    requires wk.Distinct() && s.services == ExampleStore(wk).services
    requires ExampleReq in s.children && s.children[ExampleReq].spec.egressIP == "10.0.0.1"
    requires Selected(wk, s.children[ExampleReq]) != "node-1"
    ensures Reconcile(wk, ExampleEnv, s, ExampleReq)
         == Pass(Relabelled(wk, s, ExampleReq, "node-2"), [], [Patch(ChildKind, ExampleReq), Patch(ChildKind, ExampleReq)], Ok)
  {
    var svcs := s.services;
    var items := [Key("web", "a"), Key("web", "b")];
    var req := ExampleReq;
    ExampleListing(wk, s);
    assert Reconcile(wk, ExampleEnv, s, req) == Scan(AcrossServices, wk, ExampleEnv, s, req, svcs, items, []);
    ScanPatchesHead(AcrossServices, wk, ExampleEnv, s, req, svcs, items, []);
    var s1 := Relabelled(wk, s, req, "node-1");
    assert items[1..] == [Key("web", "b")];
    assert IpsAt(AcrossServices, [], svcs[items[0]]) == ["10.0.0.1"];
    AccumulatedSecondService(wk, s1);
    var rest := Scan(AcrossServices, wk, ExampleEnv, s1, req, svcs, items[1..], ["10.0.0.1"]);
    assert Scan(AcrossServices, wk, ExampleEnv, s, req, svcs, items, []) == Pass(rest.store, [], [Patch(ChildKind, req)] + rest.writes, rest.outcome);
    RelabelledTwice(wk, s, req, "node-1", "node-2");
  }

  /** As written, a pass over the example services that starts on node-1
      stops at `a` and is quiet: the outcome depends on where the policy
      stands, not only on which node announces its IP. */
  lemma AccumulatedQuietOnNode1(wk: WatcherKeys)
    requires wk.Distinct()
    ensures Reconcile(wk, ExampleEnv, ExampleAt(wk, "node-1"), ExampleReq) == Pass(ExampleAt(wk, "node-1"), [], [], Ok)
  {
    var s := ExampleAt(wk, "node-1");
    var items := [Key("web", "a"), Key("web", "b")];
    ExampleListing(wk, s);
    assert Reconcile(wk, ExampleEnv, s, ExampleReq) == Scan(AcrossServices, wk, ExampleEnv, s, ExampleReq, s.services, items, []);
    StopsAtSelectedMatch(AcrossServices, wk, ExampleEnv, s, ExampleReq, s.services, items, []);
  }

  /** Corrected, the same services leave the policy selecting node-1, the
      host announcing its IP, and the next pass is quiet. */
  lemma PerServicePicksAnnouncingHost(wk: WatcherKeys)
    requires wk.Distinct()
    ensures var r := ReconcileCorrected(wk, ExampleEnv, ExampleStore(wk), ExampleReq);
      && r == Pass(ExampleAt(wk, "node-1"), [], [Patch(ChildKind, ExampleReq)], Ok)
      && ReconcileCorrected(wk, ExampleEnv, r.store, ExampleReq) == Pass(r.store, [], [], Ok)
  {
    var s := ExampleStore(wk);
    var svcs := s.services;
    var items := [Key("web", "a"), Key("web", "b")];
    var req := ExampleReq;
    ExampleListing(wk, s);
    var s1 := ExampleAt(wk, "node-1");
    assert Scan(PerService, wk, ExampleEnv, s1, req, svcs, items[1..], ["10.0.0.1"]) == Pass(s1, [], [], Ok);
    assert Run(PerService, wk, ExampleEnv, s, req) == Pass(s1, [], [Patch(ChildKind, req)], Ok);
    ExampleListing(wk, s1);
  }
}
