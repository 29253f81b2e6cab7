/**
 * The well-known keys, reasons and prefixes the controllers share
 * (pkg/types.go), together with the literals the controllers spell out
 * inline.
 */
module Constants {

  /** Correlation labels linking a lease (or service) to its parent. */
  const HAEgressIPNamespace := "cilium.angeloxx.ch/haegressip-namespace"
  const HAEgressIPName := "cilium.angeloxx.ch/haegressip-name"
  /** The parent label recording the name of the lease it expects. */
  const HAEgressIPExpectedLeaseName := "cilium.angeloxx.ch/lease-name"
  /** The node-selector key naming the exit node. */
  const NodeNameAnnotation := "kubernetes.io/hostname"
  const EventEgressUpdateReason := "Updated"
  const ServiceNamePrefix := "egress"
  const CiliumEgressGatewayPolicyNamePrefix := "egress"

  /** The prefix of the leases Cilium takes for L2 announcements. */
  const LeasePrefix := "cilium-l2announce-"
  /** The kind named in a child's owner reference. */
  const ParentKindName := "HAEgressGatewayPolicy"
  const CreatedReason := "Created"
  const AlreadyExistsReason := "AlreadyExists"

  /** The three correlation label keys are pairwise distinct, so setting one
      never overwrites another. */
  lemma LabelKeysDistinct()
    ensures HAEgressIPNamespace != HAEgressIPName
    ensures HAEgressIPNamespace != HAEgressIPExpectedLeaseName
    ensures HAEgressIPName != HAEgressIPExpectedLeaseName
  {
  }
}
