/** Region classification from the two capability probes. The probes themselves
    (HTTP GETs) are inputs: `qbertUp` is "the nodes endpoint answered 200",
    `credsUp` is "the credentials-manager endpoint answered 200"; a transport
    error counts as not answering. */
module Classifier {

  /** `Unclassified` is the "-" placeholder the classifier starts from. */
  datatype RegionType = Unclassified | Kubernetes | KVM | VMware

  /** The probes, in the order they may be issued. */
  datatype Probe = QbertNodes | CredsManager

  /** The label, together with the probes that were actually issued. */
  datatype Classification = Classification(regionType: RegionType, probes: seq<Probe>)

  /** `get_du_type`: the nodes probe first; only when it fails is the
      credentials-manager probe consulted; a region failing both is labelled
      VMware by default. */
  function GetDuType(qbertUp: bool, credsUp: bool): (c: Classification)
    ensures c.regionType == Kubernetes <==> qbertUp
    ensures c.regionType == KVM <==> !qbertUp && credsUp
    ensures c.regionType == VMware <==> !qbertUp && !credsUp
    ensures c.regionType != Unclassified
    ensures |c.probes| > 0 && c.probes[0] == QbertNodes
    ensures CredsManager in c.probes <==> !qbertUp
  {
    if qbertUp then Classification(Kubernetes, [QbertNodes])
    else if credsUp then Classification(KVM, [QbertNodes, CredsManager])
    else Classification(VMware, [QbertNodes, CredsManager])
  }

  /** When the nodes probe answers, the credentials-manager result is irrelevant:
      Kubernetes takes precedence even if both endpoints answer. */
  lemma KubernetesWinsWhateverCreds(credsA: bool, credsB: bool)
    ensures GetDuType(true, credsA) == GetDuType(true, credsB)
    ensures GetDuType(true, credsA).regionType == Kubernetes
  {
  }
}
