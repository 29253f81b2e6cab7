/**
 * The object store the controllers talk to, seen by one reconciliation pass.
 *
 * Every kind is a map from namespace/name to a record that keeps only the
 * fields the controllers read or write. Which API calls fail is an oracle
 * input (`Env.failing`), and so is the order in which a List call returns
 * objects (`Env.order`). A pass returns the new store, the events recorded,
 * every mutating request it issued (successful or not) and its outcome.
 */
module Kube {
  import opened Wrappers
  import opened Constants

  type Labels = map<string, string>

  /** Reading a Go `map[string]string`: a missing key reads as "". */
  function Lookup(m: Labels, k: string): string {
    if k in m then m[k] else ""
  }

  /** An equality-based label selector: every pair of `sel` is present in `labels`. */
  predicate Matches(sel: Labels, labels: Labels) {
    forall k :: k in sel ==> k in labels && labels[k] == sel[k]
  }

  datatype Key = Key(namespace: string, name: string)

  /** HAEgressGatewayPolicy (the parent), CiliumEgressGatewayPolicy (the child
      policy), Service and coordination Lease. */
  datatype Kind = ParentKind | ChildKind | ServiceKind | LeaseKind

  /** A controller owner reference: the owner's kind and name. */
  datatype OwnerRef = OwnerRef(kind: string, name: string)

  datatype Meta = Meta(labels: Labels, annotations: Labels, owner: Option<OwnerRef>)

  /** One entry of a CiliumEgressGatewayPolicy's `Selectors`. */
  datatype Selector = Selector(namespaceLabels: Labels, podLabels: Labels)

  /** A CiliumEgressGatewayPolicy spec: selectors, destination CIDRs, and the
      egress gateway's `EgressIP` and `NodeSelector.MatchLabels`. */
  datatype EgressSpec = EgressSpec(
    selectors: seq<Selector>,
    destinationCIDRs: seq<string>,
    egressIP: string,
    nodeLabels: Labels)

  /** The status projection of an HAEgressGatewayPolicy. */
  datatype PolicyStatus = PolicyStatus(serviceCreated: bool, policyCreated: bool, exitNode: string, ipAddress: string)

  const EmptyStatus := PolicyStatus(false, false, "", "")

  datatype Parent = Parent(meta: Meta, spec: EgressSpec, status: PolicyStatus)

  datatype Child = Child(meta: Meta, spec: EgressSpec)

  datatype Protocol = TCP | UDP | SCTP

  datatype ServicePort = ServicePort(name: string, protocol: Protocol, port: int)

  datatype ServiceType = ClusterIP | NodePort | LoadBalancer | ExternalName

  /** A Service: `ingress` lists the IPs of `Status.LoadBalancer.Ingress`. */
  datatype Service = Service(meta: Meta, serviceType: ServiceType, ports: seq<ServicePort>, selector: Labels, ingress: seq<string>)

  /** A coordination Lease; an unset `HolderIdentity` reads as "". */
  datatype Lease = Lease(meta: Meta, holder: string)

  datatype Store = Store(
    parents: map<Key, Parent>,
    children: map<Key, Child>,
    services: map<Key, Service>,
    leases: map<Key, Lease>)

  /** The API calls a pass can issue. */
  datatype Op =
    | Get(kind: Kind, key: Key)
    | List(kind: Kind, selector: Labels)
    | Create(kind: Kind, key: Key)
    | Update(kind: Kind, key: Key)
    | UpdateStatus(key: Key)
    | Patch(kind: Kind, key: Key)

  /** The environment of one pass: the calls the API server rejects, and the
      order in which it lists objects. */
  datatype Env = Env(failing: set<Op>, order: seq<Key>)

  predicate Fails(env: Env, op: Op) {
    op in env.failing
  }

  datatype ApiError = NotFound(op: Op) | AlreadyExists(op: Op) | Rejected(op: Op)

  /** The requeue delays are configuration constants outside the model. */
  datatype Delay = PolicyCheckRequeue | LeaseCheckRequeue | HealthCheckInterval

  /** A reconciler's `(ctrl.Result, error)` pair. */
  datatype Outcome = Ok | RequeueAfter(delay: Delay, cause: Option<ApiError>) | Err(err: ApiError)

  datatype EventType = Normal | Warning

  datatype ObjRef = ObjRef(kind: Kind, key: Key)

  /** A recorded event: the object it is attached to, its type and reason, and
      the object its message is about. */
  datatype Event = Event(target: ObjRef, eventType: EventType, reason: string, about: ObjRef)

  /** The result of one reconciliation pass. */
  datatype Pass = Pass(store: Store, events: seq<Event>, writes: seq<Op>, outcome: Outcome)

  /** The result of one step inside a pass; `err` is the error it returns. */
  datatype Step = Step(store: Store, events: seq<Event>, writes: seq<Op>, err: Option<ApiError>)

  datatype Fetched<+T> = Found(obj: T) | Missing(err: ApiError) | Failed(err: ApiError)

  /** `client.Get`: a rejected call, the object, or a not-found error. */
  function Fetch<T>(env: Env, kind: Kind, m: map<Key, T>, k: Key): Fetched<T> {
    var op := Get(kind, k);
    if Fails(env, op) then Failed(Rejected(op))
    else if k in m then Found(m[k])
    else Missing(NotFound(op))
  }

  /**
   * `client.List` with a label selector: the keys of `index` in listing order
   * whose labels match `sel`, each once (a key repeated in `order` is listed
   * at its last position).
   */
  function Select(order: seq<Key>, index: map<Key, Labels>, sel: Labels): (r: seq<Key>)
    ensures forall i :: 0 <= i < |r| ==> r[i] in index && Matches(sel, index[r[i]])
    ensures forall k :: k in r <==> k in order && k in index && Matches(sel, index[k])
    ensures forall i, j :: 0 <= i < j < |r| ==> r[i] != r[j]
    decreases |order|
  {
    if order == [] then []
    else
      var rest := Select(order[1..], index, sel);
      if order[0] in index && Matches(sel, index[order[0]]) && order[0] !in order[1..] then [order[0]] + rest else rest
  }

  function ParentIndex(s: Store): map<Key, Labels> {
    map k | k in s.parents :: s.parents[k].meta.labels
  }

  function ChildIndex(s: Store): map<Key, Labels> {
    map k | k in s.children :: s.children[k].meta.labels
  }

  function ServiceIndex(s: Store): map<Key, Labels> {
    map k | k in s.services :: s.services[k].meta.labels
  }

  /** The listing order names every stored object, as the API server's list
      does; only then is a listing complete. */
  predicate ListsAll(env: Env, s: Store) {
    && (forall k :: k in s.parents ==> k in env.order)
    && (forall k :: k in s.children ==> k in env.order)
    && (forall k :: k in s.services ==> k in env.order)
    && (forall k :: k in s.leases ==> k in env.order)
  }

  /** Over an order that names every indexed key, a listing holds exactly the
      matching objects. */
  lemma SelectListsEveryMatch(order: seq<Key>, index: map<Key, Labels>, sel: Labels)
    requires forall k :: k in index ==> k in order
    ensures forall k :: k in Select(order, index, sel) <==> k in index && Matches(sel, index[k])
  {
  }

  /** Write primitives. Each fails when its call is rejected, and an update or
      patch of a missing object fails with not-found. */

  function CreateChild(env: Env, s: Store, k: Key, c: Child): Result<Store, ApiError> {
    var op := Create(ChildKind, k);
    if Fails(env, op) then Failure(Rejected(op))
    else if k in s.children then Failure(AlreadyExists(op))
    else Success(s.(children := s.children[k := c]))
  }

  /** A full-object update of a child policy. */
  function UpdateChild(env: Env, s: Store, k: Key, c: Child): Result<Store, ApiError> {
    var op := Update(ChildKind, k);
    if Fails(env, op) then Failure(Rejected(op))
    else if k !in s.children then Failure(NotFound(op))
    else Success(s.(children := s.children[k := c]))
  }

  /** The child policy with one key of its node selector set. */
  function WithNodeLabel(c: Child, labelKey: string, value: string): Child {
    c.(spec := c.spec.(nodeLabels := c.spec.nodeLabels[labelKey := value]))
  }

  /** The child policy with its egress IP set. */
  /** Only a service's first ingress IP counts, and only when it differs from
      the child policy's egress IP. */
  predicate NeedsEgressIP(svc: Service, c: Child) {
    |svc.ingress| > 0 && c.spec.egressIP != svc.ingress[0]
  }

  function WithEgressIP(c: Child, ip: string): Child {
    c.(spec := c.spec.(egressIP := ip))
  }

  /** Setting the same node-selector key twice keeps only the second value. */
  lemma WithNodeLabelOverwrites(c: Child, labelKey: string, x: string, y: string)
    ensures WithNodeLabel(WithNodeLabel(c, labelKey, x), labelKey, y) == WithNodeLabel(c, labelKey, y)
  {
    assert c.spec.nodeLabels[labelKey := x][labelKey := y] == c.spec.nodeLabels[labelKey := y];
  }

  /** The exit node a child policy currently selects: the value of the
      `kubernetes.io/hostname` key of its node selector. */
  function Host(c: Child): string {
    Lookup(c.spec.nodeLabels, NodeNameAnnotation)
  }

  /** A merge patch of one key of `spec.egressGateway.nodeSelector.matchLabels`. */
  function PatchNodeLabel(env: Env, s: Store, k: Key, labelKey: string, value: string): Result<Store, ApiError> {
    var op := Patch(ChildKind, k);
    if Fails(env, op) then Failure(Rejected(op))
    else if k !in s.children then Failure(NotFound(op))
    else Success(s.(children := s.children[k := WithNodeLabel(s.children[k], labelKey, value)]))
  }

  /** An update of the parent's main resource: the stored status is kept. */
  function UpdateParent(env: Env, s: Store, k: Key, p: Parent): Result<Store, ApiError> {
    var op := Update(ParentKind, k);
    if Fails(env, op) then Failure(Rejected(op))
    else if k !in s.parents then Failure(NotFound(op))
    else Success(s.(parents := s.parents[k := p.(status := s.parents[k].status)]))
  }

  /** An update of the parent's status subresource: only the status changes. */
  function UpdateParentStatus(env: Env, s: Store, k: Key, st: PolicyStatus): Result<Store, ApiError> {
    var op := UpdateStatus(k);
    if Fails(env, op) then Failure(Rejected(op))
    else if k !in s.parents then Failure(NotFound(op))
    else Success(s.(parents := s.parents[k := s.parents[k].(status := st)]))
  }

  function CreateService(env: Env, s: Store, k: Key, v: Service): Result<Store, ApiError> {
    var op := Create(ServiceKind, k);
    if Fails(env, op) then Failure(Rejected(op))
    else if k in s.services then Failure(AlreadyExists(op))
    else Success(s.(services := s.services[k := v]))
  }

  /** An update of a service's main resource: the stored load-balancer status is kept. */
  function UpdateService(env: Env, s: Store, k: Key, v: Service): Result<Store, ApiError> {
    var op := Update(ServiceKind, k);
    if Fails(env, op) then Failure(Rejected(op))
    else if k !in s.services then Failure(NotFound(op))
    else Success(s.(services := s.services[k := v.(ingress := s.services[k].ingress)]))
  }

  /** A merge patch adding (or overwriting) labels of a lease. */
  function PatchLeaseLabels(env: Env, s: Store, k: Key, add: Labels): Result<Store, ApiError> {
    var op := Patch(LeaseKind, k);
    if Fails(env, op) then Failure(Rejected(op))
    else if k !in s.leases then Failure(NotFound(op))
    else
      var l := s.leases[k];
      Success(s.(leases := s.leases[k := l.(meta := l.meta.(labels := l.meta.labels + add))]))
  }
}
