/**
 * Deterministic names of the objects derived from a policy: the child
 * CiliumEgressGatewayPolicy, the load-balancer service, and the lease Cilium
 * takes when it announces that service's IP.
 */
module Naming {
  import opened Constants

  /** `egress-<namespace>-<policy name>` */
  function ChildPolicyName(ns: string, name: string): string {
    CiliumEgressGatewayPolicyNamePrefix + "-" + ns + "-" + name
  }

  /** `egress-<policy name>` */
  function ServiceName(name: string): string {
    ServiceNamePrefix + "-" + name
  }

  /** `cilium-l2announce-<namespace>-egress-<policy name>` */
  function LeaseName(ns: string, name: string): string {
    LeasePrefix + ns + "-" + ServiceNamePrefix + "-" + name
  }

  /** Go's `strings.HasPrefix`. */
  predicate HasPrefix(s: string, p: string) {
    |p| <= |s| && s[..|p|] == p
  }

  /** A fixed prefix can be cancelled from an equation. */
  lemma {:induction false} PrefixCancels(p: string, a: string, b: string)
    ensures p + a == p + b <==> a == b
  {
    if p + a == p + b {
      assert a == (p + a)[|p|..];
      assert b == (p + b)[|p|..];
    }
  }

  /** For a fixed namespace, two policies share a child policy name exactly
      when they share their name. */
  lemma ChildPolicyNameInjective(ns: string, a: string, b: string)
    ensures ChildPolicyName(ns, a) == ChildPolicyName(ns, b) <==> a == b
  {
    PrefixCancels(CiliumEgressGatewayPolicyNamePrefix + "-" + ns + "-", a, b);
  }

  /** Two policies share a service name exactly when they share their name. */
  lemma ServiceNameInjective(a: string, b: string)
    ensures ServiceName(a) == ServiceName(b) <==> a == b
  {
    PrefixCancels(ServiceNamePrefix + "-", a, b);
  }

  /** For a fixed namespace, two policies share an expected lease name exactly
      when they share their name. */
  lemma LeaseNameInjective(ns: string, a: string, b: string)
    ensures LeaseName(ns, a) == LeaseName(ns, b) <==> a == b
  {
    PrefixCancels(LeasePrefix + ns + "-" + ServiceNamePrefix + "-", a, b);
  }

  /** Every expected lease name passes the lease controller's prefix filter. */
  lemma LeaseNamePassesFilter(ns: string, name: string)
    ensures HasPrefix(LeaseName(ns, name), LeasePrefix)
  {
    var rest := ns + "-" + ServiceNamePrefix + "-" + name;
    assert LeaseName(ns, name) == LeasePrefix + rest;
    assert (LeasePrefix + rest)[..|LeasePrefix|] == LeasePrefix;
  }

  /** The expected lease is the L2-announcement lease of the policy's service
      `<namespace>/egress-<name>`: the lease name embeds the service name. */
  lemma LeaseNameEmbedsServiceName(ns: string, name: string)
    ensures LeaseName(ns, name) == LeasePrefix + ns + "-" + ServiceName(name)
  {
  }
}
