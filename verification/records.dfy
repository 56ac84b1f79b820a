/** The two kinds of record the registry persists. Every field is the string the
    installer stores in its JSON documents; nothing is parsed or normalised. */
module Records {

  /** One host (node) of a region, as stored in the hosts document.
      `kube`, `nova`, `glance`, `cinder`, `designate` are role flags: "y", "n",
      or "" when the region type makes the flag meaningless. */
  datatype HostRecord = HostRecord(
    duUrl: string,
    ip: string,
    hostname: string,
    recordSource: string,
    bondConfig: string,
    kube: string,
    nova: string,
    glance: string,
    cinder: string,
    designate: string,
    nodeType: string,
    clusterName: string)

  /** One region (control endpoint) with its credentials and network settings,
      as stored in the regions document. `dnsList` is the raw comma-separated
      answer, not a parsed list. */
  datatype RegionRecord = RegionRecord(
    url: string,
    username: string,
    password: string,
    tenant: string,
    region: string,
    proxy: string,
    dnsList: string,
    authType: string,
    authSshKey: string,
    authPassword: string,
    authUsername: string,
    bondIfname: string,
    bondMode: string,
    bondMtu: string)

  const UserDefined := "User-Defined"
  const Discovered := "Discovered"

  /** The natural key of the hosts document: the hostname, global to the store. */
  function HostName(h: HostRecord): string { h.hostname }

  /** The region a host belongs to; the key `get_hosts` filters on. */
  function HostRegion(h: HostRecord): string { h.duUrl }

  /** The natural key of the regions document: the exact URL string. */
  function RegionUrl(d: RegionRecord): string { d.url }
}
