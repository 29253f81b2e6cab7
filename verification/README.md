# cilium-haegress-operator — a Dafny model of its reconcilers

The operator keeps three kinds of Kubernetes object in step with a
user-authored `HAEgressGatewayPolicy` (the *parent*):

* a cluster-scoped `CiliumEgressGatewayPolicy` (the *child*) whose node
  selector names the node that currently holds the egress VIP;
* a `LoadBalancer` `Service` whose external IP is that VIP;
* the coordination `Lease` Cilium's L2 announcer takes for that service
  (`cilium-l2announce-<namespace>-<service>`), whose holder is the node
  that announces the VIP.

Two older watchers (`ciliumegressgatewaypolicy_controller.go`,
`service_controller.go`) move the child instead by reading the
`kube-vip.io/vipHost` annotation of watched services.

Every controller is modelled as a pure step function

    Reconcile(store, env, request) -> Pass(store', events, writes, outcome)

where `store` holds the parents, children, services and leases by
`(namespace, name)`, `env` says which API requests fail and in which order
the API server lists objects (a List returns only the matching objects
that `env.order` names; `Kube.ListsAll` says it names every stored
object, as a real List does), `events` are the Kubernetes events recorded,
`writes` logs every mutating request issued (also the ones that fail), and
`outcome` is `Ok`, `RequeueAfter(delay, cause)` or `Err(error)`.
The modules follow the repository's files:

| module | file |
|---|---|
| `Kube` (`kube.dfy`) | objects, store, API requests, label selectors, Get/List/Update/Patch semantics |
| `Constants`, `Naming` | `pkg/types.go` and the name templates the controllers share |
| `PolicyController` | `controllers/haegressgatewaypolicies_controller.go` |
| `LeaseController` | `controllers/leases_controller.go` |
| `ServiceSync` | `util/util.go` |
| `ServicesController` | `controllers/services_controller.go` |
| `LegacyPolicyWatcher` | `controllers/ciliumegressgatewaypolicy_controller.go` |
| `LegacyServiceWatcher` | `controllers/service_controller.go` |

Go semantics kept explicit: a missing map key reads as `""`; a label
selector requires the key to be present; `Update` keeps the stored status
while `UpdateStatus` replaces the whole status with the in-memory one; a
`Patch` response refreshes the in-memory object, so a later comparison in
the same pass sees the patched value.

The policy controller never writes `status.serviceCreated` /
`status.policyCreated`, although the parent's status carries both fields.
The child is replaced by a full `Update`, not a field-scoped patch. No
reconciler retries a conflicting write inside a pass. Under `controllers/`
a failed write ends the pass with an error, and the controller runtime
requeues it. `util/util.go` differs: a rejected egress-IP update ends the
pass with a delayed requeue and no error (util/util.go:38-40), a rejected
status write is only logged and the pass goes on (util/util.go:47-49 and
:60-62), and a rejected host patch returns the error together with a
delayed requeue (util/util.go:76-79).

The repository is between two versions of the parent: the policy
controller writes its correlation labels under `HAEgressGatewayPolicy*`
keys (not defined in `pkg/types.go`), while the lease and services
controllers read the `HAEgressIP*` keys of `pkg/types.go` and list parents
of the `HAEgressIP` kind. The model keeps one parent store and makes the
policy controller's keys a parameter; `ServicesController.FindsGeneratedChild`
states what holds when the two sets of keys agree.

## Model

| member | source | states |
|---|---|---|
| Constants.LabelKeysDistinct | pkg/types.go:4-6 | the HAEgressIP namespace, name and lease-name label keys are pairwise different, so setting one never overwrites another |
| Naming.ChildPolicyNameInjective | controllers/haegressgatewaypolicies_controller.go:105-110 | within one egress namespace, two parents get the same child policy name iff they have the same name |
| Naming.ServiceNameInjective | controllers/haegressgatewaypolicies_controller.go:176-180 | two parents get the same service name iff they have the same name |
| Naming.LeaseNameInjective | controllers/haegressgatewaypolicies_controller.go:76-77 | within one egress namespace, two parents expect the same lease iff they have the same name |
| Naming.LeaseNamePassesFilter | controllers/leases_controller.go:52 | every expected lease name starts with `cilium-l2announce-`, so the lease controller never discards a lease a parent expects |
| Naming.LeaseNameEmbedsServiceName | controllers/haegressgatewaypolicies_controller.go:76-77 | the expected lease name is the L2-announcement lease name of the generated service: prefix, namespace, dash, service name |
| Kube.Select | controllers/leases_controller.go:107-111 | a label-selector List returns exactly the stored objects named by the listing order that carry every selector label with its value, each of them once |
| Kube.SelectListsEveryMatch | controllers/leases_controller.go:107-111 | when the listing order names every stored object, a label-selector List returns exactly the stored objects carrying every selector label with its value |
| PolicyController.LabelStep | controllers/haegressgatewaypolicies_controller.go:76-86 | the parent is written iff its expected-lease label is not the expected name; a failed update leaves the store as it was; a successful one stores the label |
| PolicyController.ChildStep | controllers/haegressgatewaypolicies_controller.go:101-170 | only children change; a failed Get is returned; a missing child is created with the parent as controller and a Created event; a foreign child gets one Warning and no write; an owned child is updated, with an Updated event, only when its selectors differ |
| PolicyController.ServiceStep | controllers/haegressgatewaypolicies_controller.go:172-241 | the same create / warn / update-on-drift contract for the LoadBalancer service, touching only services |
| PolicyController.Reconcile | controllers/haegressgatewaypolicies_controller.go:60-99 | a failed parent Get is an error and a missing parent is Ok with no effect; every failure after it requeues after the policy-check interval carrying the error; leases are never written |
| PolicyController.QuietExactlyWhenConverged | controllers/haegressgatewaypolicies_controller.go:79-236 | with lookups succeeding, a pass writes nothing iff the label, the child and the service already match their desired forms; then it changes nothing, ends Ok and records only AlreadyExists warnings |
| PolicyController.SecondPassIsQuiet | controllers/haegressgatewaypolicies_controller.go:60-99 | after an Ok pass the state is converged, and a second pass writes nothing, changes nothing and ends Ok |
| PolicyController.LabelFailureStopsPass | controllers/haegressgatewaypolicies_controller.go:82-85 | a rejected label update ends the pass with that error, the store unchanged and no child or service request |
| PolicyController.ChildFailureSkipsService | controllers/haegressgatewaypolicies_controller.go:87-90 | a failed child Get, Create or Update ends the pass with a requeue, before any service write |
| PolicyController.ForeignObjectsAreNeverMutated | controllers/haegressgatewaypolicies_controller.go:146-228 | a child or service with the expected name that the parent does not control is left exactly as it was, whatever fails |
| PolicyController.ForeignChildWarnsOnce | controllers/haegressgatewaypolicies_controller.go:146-154 | a foreign child yields exactly one Warning event on the parent, no write to the child, and the pass still reaches the service step |
| PolicyController.ForeignServiceWarnsOnce | controllers/haegressgatewaypolicies_controller.go:222-228 | a foreign service yields exactly one Warning event and no write to it |
| PolicyController.GeneratedLabels | controllers/haegressgatewaypolicies_controller.go:113-117 | child and service carry the same labels: the parent's own, the expected-lease label and the namespace/name correlation pair |
| LeaseController.FirstParentFor | controllers/leases_controller.go:84-85 | the chosen parent is the first listed one whose computed lease name is the lease's name; none is chosen iff no listed parent computes that name |
| LeaseController.LinkLease | controllers/leases_controller.go:64-99 | a linked lease is left alone; either failed parent listing is returned; no matching parent leaves the lease unlinked without a write; otherwise exactly one patch links the lease to the first match |
| LeaseController.SyncHolders | controllers/leases_controller.go:122-143 | only listed children change, each only by its node-name selector becoming the lease holder; every write patches a listed child whose selector differed from the holder |
| LeaseController.SyncHoldersRecords | controllers/leases_controller.go:134-141 | every successful patch has exactly one Updated event on that child, and a failed patch is the last request of the pass |
| LeaseController.SyncHoldersQuiet | controllers/leases_controller.go:124-129 | when every listed child already names the holder, nothing is written and no event is recorded |
| LeaseController.SyncHoldersConverges | controllers/leases_controller.go:122-143 | when no patch fails, every listed child afterwards names the holder |
| LeaseController.SyncHoldersKeepsIndex | controllers/leases_controller.go:130-134 | patching the selector never changes which children exist or which labels they carry, so listing again finds the same children |
| LeaseController.SyncLinked | controllers/leases_controller.go:107-145 | the link patch (if any) stays the first write, every later write patches a child, parents, services and leases are untouched, and the pass never requeues |
| LeaseController.Reconcile | controllers/leases_controller.go:36-146 | a failed Get is an error; a missing lease, one without the prefix or without holder is ignored; parents and services are never written, and the lease only by the link labels of one parent |
| LeaseController.UnlinkedLeaseAdoptsFirstParent | controllers/leases_controller.go:84-96 | when a parent is found for an unlinked lease, the pass's first write is the lease patch and the stored lease then carries that parent's name and namespace labels |
| LeaseController.AdoptedParentExpectsLease | controllers/leases_controller.go:76-85 | the adopted parent exists, labels this lease as its expected lease, and its computed lease name is the lease's name |
| LeaseController.LinkedLeaseSkipsLinking | controllers/leases_controller.go:64-66 | a lease that already carries both link labels goes straight to the policy sync with no link patch |
| LeaseController.LinkingLinks | controllers/leases_controller.go:84-96 | linking keeps the holder; a lease the pass counts as linked carries both link labels afterwards iff it already did or the adopted parent has a non-empty name and a non-empty namespace; so with such parents it always does |
| LeaseController.LinkLabelsLink | controllers/leases_controller.go:65-89 | the labels the patch writes make the lease pass the linked test iff the parent's name and namespace are both non-empty, and the holder is kept |
| LeaseController.ClusterScopedParentRelinksEveryPass | controllers/leases_controller.go:64-99 | a parent with an empty namespace expecting the lease: the pass patches the lease, ends Ok and leaves it unlinked, and the next pass patches it again |
| LeaseController.SyncLinkedSettles | controllers/leases_controller.go:107-145 | after an Ok sync every listed child carrying the lease's correlation labels names the holder (every such child when the listing order names every stored object), and syncing again is quiet |
| LeaseController.SecondPassIsQuiet | controllers/leases_controller.go:36-146 | after an Ok pass, the same lease reconciled again writes nothing, records nothing, changes nothing and ends Ok |
| LeaseController.PassSyncsEveryMatchedPolicy | controllers/leases_controller.go:122-143 | when the listing order names every stored object, after an Ok pass that leaves the lease linked every stored child carrying its correlation labels names the holder |
| ServiceSync.LookupOwner | util/util.go:19-30 | no HAEgressGatewayPolicy owner reference gives no owner; an owner whose Get fails or finds nothing makes the sync unavailable; otherwise the owner's stored status is returned |
| ServiceSync.TryUpdateStatus | util/util.go:45-50 | a status write changes at most that parent's status, and stores the new status when it is accepted |
| ServiceSync.StatusPhase | util/util.go:45-63 | one status update of the status key per field that differs (the IP address, the exit node) and no other write; only that parent's status can change, and accepted writes leave both fields following the service |
| ServiceSync.HostPhase | util/util.go:65-92 | only the child policy can change, and only it; the two host-change events are recorded only on an Ok pass; a failure requeues after the lease-check interval with the patch as its last write and cause |
| ServiceSync.Sync | util/util.go:17-93 | only the child and the owner's status can change: every other parent is left exactly as it was; an unavailable owner makes the sync a no-op; events are the two host-change events of an Ok pass; a rejected IP update requeues after the policy-check interval, a failed host patch after the lease-check interval; never a bare error |
| ServiceSync.SyncFollowsPlan | util/util.go:35-79 | requests go out in the order egress IP, status IP, exit node, host patch, each only when needed, and an Ok sync issues all needed requests |
| ServiceSync.QuietExactlyWhenConverged | util/util.go:35-68 | with the owner available, a sync writes nothing iff child IP, status IP, exit node and host already agree; then it changes nothing and ends Ok |
| ServiceSync.SyncedChild | util/util.go:35-79 | after an Ok sync the child's egress IP is the service's first ingress IP and its node-name selector is the VIP host, nothing else of it changed |
| ServiceSync.SyncedStatusStored | util/util.go:45-63 | after an Ok sync with accepted status writes, the owner's status holds the service IP and the exit node |
| ServiceSync.SecondPassIsQuiet | util/util.go:35-79 | a sync repeated on its own result writes nothing, changes nothing and ends Ok |
| ServiceSync.UnassignedHostOnlySyncsIP | util/util.go:53-56 | while the service has no VIP host, at most the egress IP and the status IP are written, no event is recorded, and the pass ends Ok or requeues |
| ServicesController.Reconcile | controllers/services_controller.go:36-86 | failed Gets are errors; a missing or uncorrelated service is ignored; a missing child requeues after the health-check interval with NotFound; the child is updated iff its egress IP differs from the service's first ingress IP |
| ServicesController.SecondPassIsQuiet | controllers/services_controller.go:73-83 | after an Ok pass, reconciling the same service again writes nothing and ends Ok |
| ServicesController.FindsGeneratedChild | controllers/services_controller.go:52-61 | when the label keys agree, the service the policy controller generates is correlated and names that controller's child |
| LegacyPolicyWatcher.Scan | controllers/ciliumegressgatewaypolicy_controller.go:84-124 | only the requested child's node selector changes, other selector keys are kept, every write patches that child, and a rejected patch ends the pass with its error |
| LegacyPolicyWatcher.Run | controllers/ciliumegressgatewaypolicy_controller.go:54-127 | a failed Get is an error and a missing child is ignored; no event is recorded, services are untouched and every write patches the requested child |
| LegacyPolicyWatcher.ScanWritesMatchedHost | controllers/ciliumegressgatewaypolicy_controller.go:100-123 | the child ends unchanged or selecting the host of a watched service whose match list held the child's egress IP |
| LegacyPolicyWatcher.PerServiceQuiet | controllers/ciliumegressgatewaypolicy_controller.go:109-113 | with per-service IP lists, a child already selecting the host of every service announcing its IP is not patched |
| LegacyPolicyWatcher.PerServiceSettles | controllers/ciliumegressgatewaypolicy_controller.go:100-123 | with per-service IP lists and one announcing host, an Ok pass leaves the child on that host, or unchanged when no service announces its IP |
| LegacyPolicyWatcher.CorrectedSecondPassIsQuiet | controllers/ciliumegressgatewaypolicy_controller.go:54-127 | with per-service IP lists and one announcing host, a second pass writes nothing and changes nothing |
| LegacyPolicyWatcher.StopsAtSelectedMatch | controllers/ciliumegressgatewaypolicy_controller.go:109-113 | in either IP scope, a watched service matching the child's egress IP from the host the child already selects ends the pass with no write, and the services after it are skipped |
| LegacyPolicyWatcher.AccumulatedQuietOnNode1 | controllers/ciliumegressgatewaypolicy_controller.go:100-113 | as written, the example starting on node-1 stops at the first service and is quiet, so where the child ends depends on where it starts |
| LegacyPolicyWatcher.AccumulatedIpsPickWrongHost | controllers/ciliumegressgatewaypolicy_controller.go:100-123 | as written, two services on two nodes leave the child on the node that does not announce its IP, and every pass patches it twice |
| LegacyPolicyWatcher.AccumulatedPatchesTwice | controllers/ciliumegressgatewaypolicy_controller.go:100-123 | as written, on those two services any pass that does not start on node-1 patches the child twice and ends on node-2 |
| LegacyPolicyWatcher.AccumulatedSecondService | controllers/ciliumegressgatewaypolicy_controller.go:100-123 | as written, the second service still matches after the first one selected node-1, because the list keeps the first service's IP, and moves the child to node-2 |
| LegacyPolicyWatcher.PerServicePicksAnnouncingHost | controllers/ciliumegressgatewaypolicy_controller.go:100-123 | on the same input, per-service lists leave the child on the announcing node after one patch, and the next pass is quiet |
| LegacyServiceWatcher.MatchingPatches | controllers/service_controller.go:93-104 | every planned patch targets a listed child whose egress IP is among the service's IPs |
| LegacyServiceWatcher.PatchMatching | controllers/service_controller.go:93-104 | only listed children whose egress IP the service announces change, each only by its `kube-vip.io/host` selector becoming the service's host |
| LegacyServiceWatcher.PatchMatchingFollowsPlan | controllers/service_controller.go:93-104 | the writes are a prefix of the matching patches in listing order, and all of them when no patch fails |
| LegacyServiceWatcher.PatchMatchingFailsLast | controllers/service_controller.go:99-101 | a failed patch ends the loop: it is the last write, and the error names it |
| LegacyServiceWatcher.Reconcile | controllers/service_controller.go:35-107 | a failed Get is an error; missing, unwatched or hostless services are ignored; a failed listing is an error; otherwise the matching children are patched in order |
| LegacyServiceWatcher.PatchMatchingSettles | controllers/service_controller.go:93-104 | after a loop without error every matching child exists, its patch was accepted and it selects the host |
| LegacyServiceWatcher.PatchMatchingIdle | controllers/service_controller.go:93-104 | when every matching child already selects the host, the loop still issues every patch but changes nothing |
| LegacyServiceWatcher.PatchesEveryMatchingPolicy | controllers/service_controller.go:93-104 | when the listing order names every stored object, an Ok pass sets the host on every stored child whose egress IP the service announces and leaves every other child as it was |
| LegacyServiceWatcher.RepatchesEveryPass | controllers/service_controller.go:93-104 | the watcher is not idempotent: after an Ok pass, the next pass reissues the same patches and changes nothing |

## Left out

- Logging, event message texts (an event records its target, type, reason and which object it is about) and JSON patch bodies (a patch is modelled by its effect).
- Requeue durations: `RequeueAfter` carries a tag (policy-check, lease-check, health-check interval), not a duration.
- Concurrency, watches, informer caches and work queues: one pass runs against one consistent store; optimistic-concurrency conflicts are just failing requests.
- `SetControllerReference` is assumed to succeed; the child always carries the parent as controller. Owner references are (kind, name), without UIDs.
- Nil versus empty: a missing `HolderIdentity` reads as `""`, a nil labels map as an empty one, and a nil node selector as one without labels; the source would panic on each (leases_controller.go:58 dereferences the holder, assigning into a nil labels map at haegressgatewaypolicies_controller.go:80 panics, and util/util.go:32, leases_controller.go:124 and ciliumegressgatewaypolicy_controller.go:110 dereference `Spec.EgressGateway.NodeSelector` without a nil check).
- Label selectors keep only `matchLabels`: the `matchExpressions` of the child's node selector and of its pod and namespace selectors are not modelled; no controller here reads or writes them.
- The first parent listing in the lease controller is modelled only as a request that can fail; its items are never used.
- The label keys `HAEgressGatewayPolicyNamespace`/`Name`, `KubeVIPVipHostAnnotation` and the legacy policy watcher's annotation keys are not defined in `pkg/types.go` (the legacy keys come from the `kube-vip-cilium-watcher` package); they are parameters, constrained only to be distinct.
- `util/util.go` has no caller in `controllers/` or `main.go`; `ServiceSync.Sync` is modelled standalone, taking the in-memory service and child as arguments.
- controller-runtime ignores a `Result` returned together with an error; the model reports both as the source returns them.
- `SetupWithManager`, watch predicates and `main.go` wiring.
- LeaseController.SecondPassIsQuiet: requires every parent to have a non-empty name and a non-empty namespace. A stored object always has a name, but a cluster-scoped parent has an empty namespace. For such a parent the source is not quiet: leases_controller.go:87-89 patches an empty namespace label, so the check at :65 still sees the lease as unlinked and every pass patches it again, as `LeaseController.ClusterScopedParentRelinksEveryPass` shows.
- Kube.Select: a List returns only the matching objects that `env.order` names, so an order that leaves out a stored object models a listing that misses it; the lemmas that speak of every stored child (`LeaseController.PassSyncsEveryMatchedPolicy`, `LegacyServiceWatcher.PatchesEveryMatchingPolicy`, the second half of `LeaseController.SyncLinkedSettles`) assume `Kube.ListsAll`, which holds for a real List.
- ServiceSync.StatusKey: with no owner, the status writes go to the blank parent object, given the key `("", "")`; a store holding a parent under that key would receive them, where client-go refuses a request for an object without a name.
- ServiceSync.SecondPassIsQuiet: stated for an available owner whose status writes succeeded; a sync that failed half-way is retried, not quiet.

## Findings

| source | as written | input that shows it | evidently intended | confidence | as-written member | corrected member |
|---|---|---|---|---|---|---|
| controllers/ciliumegressgatewaypolicy_controller.go:56-109 | the IP list is declared once per pass and extended by every watched service, so the match tests the IPs of all services seen so far | service a (IP 10.0.0.1, host node-1) then service b (IP 10.0.0.2, host node-2); the child's egress IP is 10.0.0.1 and it does not select node-1 yet (starting on node-1 the pass stops at a) | match each service's own IPs, so the child follows the node that announces its IP | medium, not executed | LegacyPolicyWatcher.AccumulatedIpsPickWrongHost | LegacyPolicyWatcher.CorrectedSecondPassIsQuiet |
