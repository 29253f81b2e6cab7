/**
 * The lease controller: for a Cilium L2-announcement lease with a holder, it
 * links the lease to its parent through two labels (once), then sets the
 * hostname key of the node selector of every child policy carrying the same
 * correlation labels to the lease holder, patching only those that differ.
 */
module LeaseController {
  import opened Wrappers
  import opened Kube
  import opened Constants
  import opened Naming

  /** A lease is linked when both correlation labels are non-empty. */
  predicate Linked(l: Lease) {
    Lookup(l.meta.labels, HAEgressIPName) != "" && Lookup(l.meta.labels, HAEgressIPNamespace) != ""
  }

  /** The labels written on a lease to link it to the parent `k`. */
  function LinkLabels(k: Key): Labels {
    map[HAEgressIPName := k.name, HAEgressIPNamespace := k.namespace]
  }

  function WithLinkLabels(l: Lease, k: Key): Lease {
    l.(meta := l.meta.(labels := l.meta.labels + LinkLabels(k)))
  }

  /** The selector of the child policies belonging to a linked lease. */
  function LinkSelector(l: Lease): Labels {
    map[HAEgressIPNamespace := Lookup(l.meta.labels, HAEgressIPNamespace),
        HAEgressIPName := Lookup(l.meta.labels, HAEgressIPName)]
  }

  /** The selector of the parents that recorded `leaseName` as their expected lease. */
  function ExpectingSelector(leaseName: string): Labels {
    map[HAEgressIPExpectedLeaseName := leaseName]
  }

  /** The parents listed as expecting the lease, in listing order. */
  function Candidates(env: Env, s: Store, req: Key): seq<Key> {
    Select(env.order, ParentIndex(s), ExpectingSelector(req.name))
  }

  /** The first candidate whose computed lease name is `leaseName`. */
  function FirstParentFor(cands: seq<Key>, leaseName: string): (r: Option<Key>)
    ensures r.None? <==> forall k :: k in cands ==> LeaseName(k.namespace, k.name) != leaseName
    ensures r.Some? ==>
      exists i :: 0 <= i < |cands| && cands[i] == r.value && LeaseName(r.value.namespace, r.value.name) == leaseName
                  && forall j :: 0 <= j < i ==> LeaseName(cands[j].namespace, cands[j].name) != leaseName
    decreases |cands|
  {
    if cands == [] then None
    else if LeaseName(cands[0].namespace, cands[0].name) == leaseName then Some(cands[0])
    else
      var r := FirstParentFor(cands[1..], leaseName);
      if r.Some? then
        ghost var i :| 0 <= i < |cands[1..]| && cands[1..][i] == r.value && LeaseName(r.value.namespace, r.value.name) == leaseName
                      && forall j :: 0 <= j < i ==> LeaseName(cands[1..][j].namespace, cands[1..][j].name) != leaseName;
        assert cands[i + 1] == r.value;
        r
      else
        assert forall k :: k in cands ==> k == cands[0] || k in cands[1..];
        r
  }

  /** The outcome of the linking phase: the step, the lease as held in memory
      afterwards, and whether it counts as linked. */
  datatype Link = Link(step: Step, lease: Lease, linked: bool)

  /**
   * Linking: an unlinked lease gets the two correlation labels of the first
   * parent expecting it whose computed lease name is the lease's name.
   * `lease` is the lease as fetched.
   */
  function LinkLease(env: Env, s: Store, req: Key, lease: Lease): (r: Link)
    requires req in s.leases && s.leases[req] == lease
    ensures r.step.events == []
    ensures r.step.store.parents == s.parents && r.step.store.children == s.children && r.step.store.services == s.services
    ensures r.step.err.Some? ==> r.step.store == s && !r.linked
    ensures r.step.err.None? ==> req in r.step.store.leases && r.lease == r.step.store.leases[req]
    ensures Linked(lease) ==> r == Link(Step(s, [], [], None), lease, true)
    ensures !Linked(lease) && Fails(env, List(ParentKind, map[])) ==>
      r.step == Step(s, [], [], Some(Rejected(List(ParentKind, map[]))))
    ensures !Linked(lease) && !Fails(env, List(ParentKind, map[])) && Fails(env, List(ParentKind, ExpectingSelector(req.name))) ==>
      r.step == Step(s, [], [], Some(Rejected(List(ParentKind, ExpectingSelector(req.name)))))
    ensures !Linked(lease) && !Fails(env, List(ParentKind, map[])) && !Fails(env, List(ParentKind, ExpectingSelector(req.name))) ==>
      var first := FirstParentFor(Candidates(env, s, req), req.name);
      && (first.None? ==> r == Link(Step(s, [], [], None), lease, false))
      && (first.Some? ==>
            && r.step.writes == [Patch(LeaseKind, req)]
            && (r.step.err.None? <==> !Fails(env, Patch(LeaseKind, req)))
            && (r.step.err.None? ==>
                  r.linked && r.step.store == s.(leases := s.leases[req := WithLinkLabels(lease, first.value)])))
  {
    LabelKeysDistinct();
    if Linked(lease) then Link(Step(s, [], [], None), lease, true)
    else
      var all := List(ParentKind, map[]);
      var expecting := List(ParentKind, ExpectingSelector(req.name));
      if Fails(env, all) then Link(Step(s, [], [], Some(Rejected(all))), lease, false)
      else if Fails(env, expecting) then Link(Step(s, [], [], Some(Rejected(expecting))), lease, false)
      else
        match FirstParentFor(Candidates(env, s, req), req.name)
        case None => Link(Step(s, [], [], None), lease, false)
        case Some(k) =>
          match PatchLeaseLabels(env, s, req, LinkLabels(k))
          case Failure(e) => Link(Step(s, [], [Patch(LeaseKind, req)], Some(e)), lease, false)
          case Success(s') => Link(Step(s', [], [Patch(LeaseKind, req)], None), s'.leases[req], true)
  }

  /** The event recorded on a child policy whose exit node was set because of `cause`. */
  function UpdatedEvent(k: Key, cause: ObjRef): Event {
    Event(ObjRef(ChildKind, k), Normal, EventEgressUpdateReason, cause)
  }

  /**
   * The loop over the listed child policies: each one whose exit node (as
   * listed in `snapshot`) differs from `holder` gets that one selector key
   * patched and an Updated event; the first failed patch ends the loop.
   */
  function SyncHolders(env: Env, s: Store, snapshot: map<Key, Child>, items: seq<Key>, holder: string, cause: ObjRef): (r: Step)
    requires forall i :: 0 <= i < |items| ==> items[i] in snapshot
    ensures r.store.parents == s.parents && r.store.services == s.services && r.store.leases == s.leases
    ensures r.store.children.Keys == s.children.Keys
    ensures forall k :: k in s.children ==>
      r.store.children[k] == s.children[k] || (k in items && r.store.children[k] == WithNodeLabel(s.children[k], NodeNameAnnotation, holder))
    ensures forall w :: w in r.writes ==> w.Patch? && w.kind == ChildKind && w.key in items && Host(snapshot[w.key]) != holder
    decreases |items|
  {
    if items == [] then Step(s, [], [], None)
    else
      var k := items[0];
      if Host(snapshot[k]) == holder then
        SyncHolders(env, s, snapshot, items[1..], holder, cause)
      else
        match PatchNodeLabel(env, s, k, NodeNameAnnotation, holder)
        case Failure(e) => Step(s, [], [Patch(ChildKind, k)], Some(e))
        case Success(s') =>
          var rest := SyncHolders(env, s', snapshot, items[1..], holder, cause);
          Step(rest.store, [UpdatedEvent(k, cause)] + rest.events, [Patch(ChildKind, k)] + rest.writes, rest.err)
  }

  /** Every successful patch is paired with an Updated event in the same
      order, and an error is the failure of the last patch issued. */
  lemma {:induction false} SyncHoldersRecords(env: Env, s: Store, snapshot: map<Key, Child>, items: seq<Key>, holder: string, cause: ObjRef)
    requires forall i :: 0 <= i < |items| ==> items[i] in snapshot
    ensures var r := SyncHolders(env, s, snapshot, items, holder, cause);
      && |r.writes| == |r.events| + (if r.err.Some? then 1 else 0)
      && (forall i :: 0 <= i < |r.events| ==> r.events[i] == UpdatedEvent(r.writes[i].key, cause))
      && (r.err.Some? ==> r.err.value.op == r.writes[|r.writes| - 1])
    decreases |items|, 1
  {
    if items != [] {
      if Host(snapshot[items[0]]) == holder {
        SyncHoldersRecords(env, s, snapshot, items[1..], holder, cause);
      } else if PatchNodeLabel(env, s, items[0], NodeNameAnnotation, holder).Success? {
        SyncHoldersRecordsPatched(env, s, snapshot, items, holder, cause);
      }
    }
  }

  /** The step of `SyncHoldersRecords` where the head policy is patched. */
  lemma {:induction false} SyncHoldersRecordsPatched(env: Env, s: Store, snapshot: map<Key, Child>, items: seq<Key>, holder: string, cause: ObjRef)
    requires forall i :: 0 <= i < |items| ==> items[i] in snapshot
    requires items != [] && Host(snapshot[items[0]]) != holder
    requires PatchNodeLabel(env, s, items[0], NodeNameAnnotation, holder).Success?
    ensures var r := SyncHolders(env, s, snapshot, items, holder, cause);
      && |r.writes| == |r.events| + (if r.err.Some? then 1 else 0)
      && (forall i :: 0 <= i < |r.events| ==> r.events[i] == UpdatedEvent(r.writes[i].key, cause))
      && (r.err.Some? ==> r.err.value.op == r.writes[|r.writes| - 1])
    decreases |items|, 0
  {
    var k := items[0];
    var s' := PatchNodeLabel(env, s, k, NodeNameAnnotation, holder).value;
    SyncHoldersRecords(env, s', snapshot, items[1..], holder, cause);
    var rest := SyncHolders(env, s', snapshot, items[1..], holder, cause);
    var r := SyncHolders(env, s, snapshot, items, holder, cause);
    assert r.events == [UpdatedEvent(k, cause)] + rest.events;
    assert r.writes == [Patch(ChildKind, k)] + rest.writes;
    assert r.err == rest.err;
    PairedEventsCons(k, rest.events, rest.writes, cause);
  }

  /** Prepending a patch and its Updated event keeps events paired with writes. */
  lemma PairedEventsCons(k: Key, events: seq<Event>, writes: seq<Op>, cause: ObjRef)
    requires |events| <= |writes| && forall w :: w in writes ==> w.Patch?
    requires forall i :: 0 <= i < |events| ==> events[i] == UpdatedEvent(writes[i].key, cause)
    ensures var evs, ws := [UpdatedEvent(k, cause)] + events, [Patch(ChildKind, k)] + writes;
      forall i :: 0 <= i < |evs| ==> evs[i] == UpdatedEvent(ws[i].key, cause)
  {
    var evs, ws := [UpdatedEvent(k, cause)] + events, [Patch(ChildKind, k)] + writes;
    forall i | 1 <= i < |evs|
      ensures evs[i] == UpdatedEvent(ws[i].key, cause)
    {
      assert evs[i] == events[i - 1] && ws[i] == writes[i - 1];
    }
  }

  /** When every listed child policy already selects the holder, the loop
      patches nothing and records nothing. */
  lemma {:induction false} SyncHoldersQuiet(env: Env, s: Store, snapshot: map<Key, Child>, items: seq<Key>, holder: string, cause: ObjRef)
    requires forall i :: 0 <= i < |items| ==> items[i] in snapshot
    requires forall k :: k in items ==> Host(snapshot[k]) == holder
    ensures SyncHolders(env, s, snapshot, items, holder, cause) == Step(s, [], [], None)
    decreases |items|
  {
    if items != [] {
      SyncHoldersQuiet(env, s, snapshot, items[1..], holder, cause);
    }
  }

  /** After a loop without error, every listed child policy selects the
      holder, provided those skipped as already converged still are. */
  lemma {:induction false} SyncHoldersConverges(env: Env, s: Store, snapshot: map<Key, Child>, items: seq<Key>, holder: string, cause: ObjRef)
    requires forall i :: 0 <= i < |items| ==> items[i] in snapshot
    requires forall k :: k in items && Host(snapshot[k]) == holder ==> k in s.children && Host(s.children[k]) == holder
    ensures var r := SyncHolders(env, s, snapshot, items, holder, cause);
      r.err.None? ==> forall k :: k in items ==> k in r.store.children && Host(r.store.children[k]) == holder
    decreases |items|, 1
  {
    if items != [] {
      if Host(snapshot[items[0]]) == holder {
        SyncHoldersConverges(env, s, snapshot, items[1..], holder, cause);
      } else {
        match PatchNodeLabel(env, s, items[0], NodeNameAnnotation, holder)
        case Failure(_) =>
        case Success(_) => SyncHoldersConvergesPatched(env, s, snapshot, items, holder, cause);
      }
    }
  }

  /** The step of `SyncHoldersConverges` where the head policy is patched. */
  lemma {:induction false} SyncHoldersConvergesPatched(env: Env, s: Store, snapshot: map<Key, Child>, items: seq<Key>, holder: string, cause: ObjRef)
    requires forall i :: 0 <= i < |items| ==> items[i] in snapshot
    requires forall k :: k in items && Host(snapshot[k]) == holder ==> k in s.children && Host(s.children[k]) == holder
    requires items != [] && Host(snapshot[items[0]]) != holder
    requires PatchNodeLabel(env, s, items[0], NodeNameAnnotation, holder).Success?
    ensures var r := SyncHolders(env, s, snapshot, items, holder, cause);
      r.err.None? ==> forall k :: k in items ==> k in r.store.children && Host(r.store.children[k]) == holder
    decreases |items|, 0
  {
    var k := items[0];
    var s' := PatchNodeLabel(env, s, k, NodeNameAnnotation, holder).value;
    assert s'.children == s.children[k := WithNodeLabel(s.children[k], NodeNameAnnotation, holder)];
    forall k2 | k2 in items[1..] && Host(snapshot[k2]) == holder
      ensures k2 in s'.children && Host(s'.children[k2]) == holder
    {
      assert k2 in items;
    }
    SyncHoldersConverges(env, s', snapshot, items[1..], holder, cause);
    var rest := SyncHolders(env, s', snapshot, items[1..], holder, cause);
    assert Host(rest.store.children[k]) == holder by {
      assert Host(s'.children[k]) == holder;
      assert rest.store.children[k] == s'.children[k]
          || rest.store.children[k] == WithNodeLabel(s'.children[k], NodeNameAnnotation, holder);
    }
    assert SyncHolders(env, s, snapshot, items, holder, cause).store == rest.store;
    assert SyncHolders(env, s, snapshot, items, holder, cause).err == rest.err;
    forall k' | k' in items && k' != k
      ensures k' in items[1..]
    {
      assert items == [k] + items[1..];
    }
  }

  /** The policy phase: list the child policies carrying the lease's
      correlation labels and sync their exit node with the holder. */
  function SyncLinked(env: Env, s: Store, req: Key, lease: Lease, linkWrites: seq<Op>): (r: Pass)
    ensures r.store.parents == s.parents && r.store.services == s.services && r.store.leases == s.leases
    ensures |linkWrites| <= |r.writes| && r.writes[..|linkWrites|] == linkWrites
    ensures forall i :: |linkWrites| <= i < |r.writes| ==> r.writes[i].Patch? && r.writes[i].kind == ChildKind
    ensures r.outcome.Ok? || r.outcome.Err?
  {
    var sel := LinkSelector(lease);
    var list := List(ChildKind, sel);
    if Fails(env, list) then Pass(s, [], linkWrites, Err(Rejected(list)))
    else
      var items := Select(env.order, ChildIndex(s), sel);
      if items == [] then Pass(s, [], linkWrites, Ok)
      else
        var h := SyncHolders(env, s, s.children, items, lease.holder, ObjRef(LeaseKind, req));
        Pass(h.store, h.events, linkWrites + h.writes, if h.err.Some? then Err(h.err.value) else Ok)
  }

  /** The cases in which a pass ignores the lease. */
  predicate Ignored(s: Store, req: Key) {
    req !in s.leases || !HasPrefix(req.name, LeasePrefix) || s.leases[req].holder == ""
  }

  /** One pass of `LeasesController.Reconcile` for the lease `req`. */
  function Reconcile(env: Env, s: Store, req: Key): (r: Pass)
    ensures Fails(env, Get(LeaseKind, req)) ==> r == Pass(s, [], [], Err(Rejected(Get(LeaseKind, req))))
    ensures !Fails(env, Get(LeaseKind, req)) && Ignored(s, req) ==> r == Pass(s, [], [], Ok)
    ensures r.store.parents == s.parents && r.store.services == s.services
    ensures forall i :: 0 <= i < |r.writes| ==>
      (i == 0 && r.writes[i] == Patch(LeaseKind, req)) || (r.writes[i].Patch? && r.writes[i].kind == ChildKind)
    ensures r.store.leases == s.leases || (req in s.leases && exists k :: r.store.leases == s.leases[req := WithLinkLabels(s.leases[req], k)])
    ensures !Fails(env, Get(LeaseKind, req)) && req in s.leases && Linked(s.leases[req]) ==> r.store.leases == s.leases
    ensures r.outcome.Ok? || r.outcome.Err?
  {
    LabelKeysDistinct();
    match Fetch(env, LeaseKind, s.leases, req)
    case Failed(e) => Pass(s, [], [], Err(e))
    case Missing(_) => Pass(s, [], [], Ok)
    case Found(lease) =>
      if !HasPrefix(req.name, LeasePrefix) then Pass(s, [], [], Ok)
      else if lease.holder == "" then Pass(s, [], [], Ok)
      else
        var link := LinkLease(env, s, req, lease);
        if link.step.err.Some? then Pass(link.step.store, [], link.step.writes, Err(link.step.err.value))
        else if !link.linked then Pass(link.step.store, [], link.step.writes, Ok)
        else SyncLinked(env, link.step.store, req, link.lease, link.step.writes)
  }

  /** Setting an exit node never changes a child policy's labels, so listing
      by correlation labels gives the same policies after the loop. */
  lemma SyncHoldersKeepsIndex(env: Env, s: Store, snapshot: map<Key, Child>, items: seq<Key>, holder: string, cause: ObjRef)
    requires forall i :: 0 <= i < |items| ==> items[i] in snapshot
    ensures ChildIndex(SyncHolders(env, s, snapshot, items, holder, cause).store) == ChildIndex(s)
  {
    var r := SyncHolders(env, s, snapshot, items, holder, cause);
    forall k | k in s.children
      ensures r.store.children[k].meta.labels == s.children[k].meta.labels
    {
    }
  }

  /** A pass that adopts a parent links the lease to the first parent (in
      listing order) expecting it whose computed lease name is the lease's
      name, and that patch is its first write. */
  lemma UnlinkedLeaseAdoptsFirstParent(env: Env, s: Store, req: Key, k: Key)
    requires !Fails(env, Get(LeaseKind, req)) && !Ignored(s, req) && !Linked(s.leases[req])
    requires !Fails(env, List(ParentKind, map[])) && !Fails(env, List(ParentKind, ExpectingSelector(req.name)))
    requires !Fails(env, Patch(LeaseKind, req))
    ensures FirstParentFor(Candidates(env, s, req), req.name) == Some(k) ==>
      var r := Reconcile(env, s, req);
      && |r.writes| >= 1 && r.writes[0] == Patch(LeaseKind, req)
      && r.store.leases == s.leases[req := WithLinkLabels(s.leases[req], k)]
  {
    if FirstParentFor(Candidates(env, s, req), req.name) == Some(k) {
      var lease := s.leases[req];
      LabelKeysDistinct();
      assert Fetch(env, LeaseKind, s.leases, req) == Found(lease);
      var link := LinkLease(env, s, req, lease);
      var s1 := s.(leases := s.leases[req := WithLinkLabels(lease, k)]);
      assert link.step == Step(s1, [], [Patch(LeaseKind, req)], None) && link.linked;
      var r := SyncLinked(env, s1, req, link.lease, link.step.writes);
      assert Reconcile(env, s, req) == r;
      assert r.writes[..1] == [Patch(LeaseKind, req)];
      assert r.writes[0] == r.writes[..1][0];
    }
  }

  /** The parent an unlinked lease adopts exists, records this lease as its
      expected lease, and computes this lease's name. */
  lemma AdoptedParentExpectsLease(env: Env, s: Store, req: Key, k: Key)
    ensures FirstParentFor(Candidates(env, s, req), req.name) == Some(k) ==>
      && k in s.parents && s.parents[k].meta.labels[HAEgressIPExpectedLeaseName] == req.name
      && LeaseName(k.namespace, k.name) == req.name
  {
    if FirstParentFor(Candidates(env, s, req), req.name) == Some(k) {
      assert k in Candidates(env, s, req);
    }
  }

  /** Every stored parent has a non-empty name and a non-empty namespace.
      A stored object always has a name; the namespace is empty for a
      cluster-scoped parent, which this predicate excludes. */
  predicate NamedParents(s: Store) {
    forall k :: k in s.parents ==> k.namespace != "" && k.name != ""
  }

  /** After a successful sync every child policy listed by the lease's
      correlation labels selects the holder, and listing again finds nothing
      to patch. */
  lemma SyncLinkedSettles(env: Env, s: Store, req: Key, lease: Lease, linkWrites: seq<Op>)
    requires SyncLinked(env, s, req, lease, linkWrites).outcome.Ok?
    ensures var r := SyncLinked(env, s, req, lease, linkWrites);
      && r.store.leases == s.leases && r.store.parents == s.parents
      && (forall k :: k in env.order && k in r.store.children && Matches(LinkSelector(lease), r.store.children[k].meta.labels) ==>
            Host(r.store.children[k]) == lease.holder)
      && (ListsAll(env, s) ==>
            forall k :: k in r.store.children && Matches(LinkSelector(lease), r.store.children[k].meta.labels) ==>
              Host(r.store.children[k]) == lease.holder)
      && SyncLinked(env, r.store, req, lease, []) == Pass(r.store, [], [], Ok)
  {
    var r := SyncLinked(env, s, req, lease, linkWrites);
    var sel := LinkSelector(lease);
    var items := Select(env.order, ChildIndex(s), sel);
    var cause := ObjRef(LeaseKind, req);
    if items == [] {
      assert r.store == s;
    } else {
      var h := SyncHolders(env, s, s.children, items, lease.holder, cause);
      assert r.store == h.store;
      SyncHoldersKeepsIndex(env, s, s.children, items, lease.holder, cause);
      SyncHoldersConverges(env, s, s.children, items, lease.holder, cause);
      assert Select(env.order, ChildIndex(h.store), sel) == items;
      forall k | k in env.order && k in h.store.children && Matches(sel, h.store.children[k].meta.labels)
        ensures Host(h.store.children[k]) == lease.holder
      {
        assert ChildIndex(h.store)[k] == h.store.children[k].meta.labels;
        assert k in items;
      }
      SyncHoldersQuiet(env, h.store, h.store.children, items, lease.holder, cause);
    }
  }

  /** A pass over a lease that is already linked goes straight to the
      policy phase, with no linking write. */
  lemma LinkedLeaseSkipsLinking(env: Env, s: Store, req: Key)
    requires !Fails(env, Get(LeaseKind, req)) && !Ignored(s, req) && Linked(s.leases[req])
    ensures Reconcile(env, s, req) == SyncLinked(env, s, req, s.leases[req], [])
  {
    assert Fetch(env, LeaseKind, s.leases, req) == Found(s.leases[req]);
  }

  /** Linking keeps the holder. A lease the pass counts as linked carries
      both correlation labels afterwards iff it already did, or the parent it
      adopted has a non-empty name and namespace; so with named parents it
      always does. */
  lemma LinkingLinks(env: Env, s: Store, req: Key)
    requires req in s.leases
    requires LinkLease(env, s, req, s.leases[req]).linked
    ensures var link := LinkLease(env, s, req, s.leases[req]);
      link.lease.holder == s.leases[req].holder
    ensures var link := LinkLease(env, s, req, s.leases[req]);
      var first := FirstParentFor(Candidates(env, s, req), req.name);
      Linked(link.lease) <==> Linked(s.leases[req]) || (first.Some? && first.value.name != "" && first.value.namespace != "")
    ensures NamedParents(s) ==> Linked(LinkLease(env, s, req, s.leases[req]).lease)
  {
    var lease := s.leases[req];
    var link := LinkLease(env, s, req, lease);
    if !Linked(lease) {
      var first := FirstParentFor(Candidates(env, s, req), req.name);
      assert first.Some?;
      var k := first.value;
      AdoptedParentExpectsLease(env, s, req, k);
      assert link.lease == WithLinkLabels(lease, k);
      LinkLabelsLink(lease, k);
    }
  }

  /** The link labels of a parent make a lease linked iff the parent has a
      non-empty name and namespace; they leave its holder. */
  lemma LinkLabelsLink(l: Lease, k: Key)
    ensures Linked(WithLinkLabels(l, k)) <==> k.name != "" && k.namespace != ""
    ensures WithLinkLabels(l, k).holder == l.holder
  {
    LabelKeysDistinct();
    assert Lookup(WithLinkLabels(l, k).meta.labels, HAEgressIPName) == k.name;
    assert Lookup(WithLinkLabels(l, k).meta.labels, HAEgressIPNamespace) == k.namespace;
  }

  /** A pass that ends well leaves nothing to do: a second pass over its
      result issues no write, records no event and changes nothing. */
  lemma SecondPassIsQuiet(env: Env, s: Store, req: Key)
    requires NamedParents(s)
    requires Reconcile(env, s, req).outcome.Ok?
    ensures var r := Reconcile(env, s, req);
      Reconcile(env, r.store, req) == Pass(r.store, [], [], Ok)
  {
    if !Fails(env, Get(LeaseKind, req)) && !Ignored(s, req) {
      var lease := s.leases[req];
      LabelKeysDistinct();
      assert Fetch(env, LeaseKind, s.leases, req) == Found(lease);
      var link := LinkLease(env, s, req, lease);
      if link.linked {
        LinkingLinks(env, s, req);
        var r := SyncLinked(env, link.step.store, req, link.lease, link.step.writes);
        assert Reconcile(env, s, req) == r;
        SyncLinkedSettles(env, link.step.store, req, link.lease, link.step.writes);
        assert r.store.leases[req] == link.lease;
        LinkedLeaseSkipsLinking(env, r.store, req);
      }
    }
  }

  /** After a pass that ends well with the lease linked, every child policy
      carrying the lease's correlation labels selects the holder. */
  lemma PassSyncsEveryMatchedPolicy(env: Env, s: Store, req: Key)
    requires ListsAll(env, s)
    requires !Fails(env, Get(LeaseKind, req)) && !Ignored(s, req)
    requires Reconcile(env, s, req).outcome.Ok?
    ensures var r := Reconcile(env, s, req);
      req in r.store.leases && (Linked(r.store.leases[req]) ==>
        forall k :: k in r.store.children
                    && Matches(LinkSelector(r.store.leases[req]), r.store.children[k].meta.labels) ==>
          Host(r.store.children[k]) == s.leases[req].holder)
  {
    var lease := s.leases[req];
    var link := LinkLease(env, s, req, lease);
    if link.linked {
      SyncLinkedSettles(env, link.step.store, req, link.lease, link.step.writes);
    }
  }

  /** A cluster-scoped parent `x` (empty namespace) expecting the lease
      `cilium-l2announce--egress-x`, which has a holder and no labels. */
  const ScopedParent := Key("", "x")

  const ScopedReq := Key("kube-system", LeaseName("", "x"))

  const ScopedEnv := Env({}, [ScopedParent])

  function ScopedStore(): Store {
    var parent := Parent(Meta(map[HAEgressIPExpectedLeaseName := LeaseName("", "x")], map[], None), EgressSpec([], [], "", map[]), EmptyStatus);
    Store(map[ScopedParent := parent], map[], map[], map[ScopedReq := Lease(Meta(map[], map[], None), "node-1")])
  }

  /** The pass over an unlinked lease whose adopted parent is cluster-scoped:
      the patch writes an empty namespace label, so the lease is still
      unlinked afterwards and every later pass patches it again. */
  lemma ClusterScopedParentRelinksEveryPass()
    ensures var r := Reconcile(ScopedEnv, ScopedStore(), ScopedReq);
      && r.outcome.Ok? && r.writes == [Patch(LeaseKind, ScopedReq)]
      && !Linked(r.store.leases[ScopedReq])
      && Reconcile(ScopedEnv, r.store, ScopedReq).writes == [Patch(LeaseKind, ScopedReq)]
  {
    var s := ScopedStore();
    var req := ScopedReq;
    var lease := s.leases[req];
    LabelKeysDistinct();
    LeaseNamePassesFilter("", "x");
    assert Candidates(ScopedEnv, s, req) == [ScopedParent] by {
      assert ScopedParent in ParentIndex(s) && ParentIndex(s)[ScopedParent] == ExpectingSelector(req.name);
      var sel := ExpectingSelector(req.name);
      assert Matches(sel, ParentIndex(s)[ScopedParent]);
      assert [ScopedParent][1..] == [];
      assert Select([], ParentIndex(s), sel) == [];
      assert Select([ScopedParent], ParentIndex(s), sel) == [ScopedParent];
    }
    assert FirstParentFor([ScopedParent], req.name) == Some(ScopedParent);
    var leased := WithLinkLabels(lease, ScopedParent);
    LinkLabelsLink(lease, ScopedParent);
    var s1 := s.(leases := s.leases[req := leased]);
    assert Reconcile(ScopedEnv, s, req) == Pass(s1, [], [Patch(LeaseKind, req)], Ok);
    assert Candidates(ScopedEnv, s1, req) == [ScopedParent] by {
      assert ParentIndex(s1) == ParentIndex(s);
    }
    LinkLabelsLink(leased, ScopedParent);
    assert Reconcile(ScopedEnv, s1, req).writes == [Patch(LeaseKind, req)];
  }
}
