/** Host discovery: turning a region's host inventory into host records. The
    inventory request is an input: `None` when the request failed, answered
    with a status other than 200, or returned a body that is not JSON. */
module Discovery {
  import opened Wrappers
  import opened Records

  /** One entry of the inventory listing. `ipData` is the entry's
      extensions.ip_address.data list, `None` when any level of that path is
      missing. */
  datatype InventoryEntry = InventoryEntry(ipData: Option<seq<string>>, hostname: string, roles: seq<string>)

  /** IP placeholder for an entry whose address list is missing or empty. */
  const NoData := "no-data"

  const RoleKube := "pf9-kube"
  const RoleGlance := "pf9-glance-role"
  const RoleCinder := "pf9-cindervolume-base"
  const RoleNova := "pf9-ostackhost-neutron"
  const RoleDesignate := "pf9-designate"

  /** The five role flags while the role list is being scanned. */
  datatype RoleFlags = RoleFlags(kube: string, nova: string, glance: string, cinder: string, designate: string)

  const AllNo := RoleFlags("n", "n", "n", "n", "n")

  /** "y" for a role that is present, "n" otherwise. */
  function YesNo(present: bool): string
  {
    if present then "y" else "n"
  }

  /** One step of the role scan: every flag whose role name equals `role`
      becomes "y"; any other role name changes nothing. */
  function Mark(f: RoleFlags, role: string): RoleFlags
  {
    f.(kube := if role == RoleKube then "y" else f.kube,
       glance := if role == RoleGlance then "y" else f.glance,
       cinder := if role == RoleCinder then "y" else f.cinder,
       nova := if role == RoleNova then "y" else f.nova,
       designate := if role == RoleDesignate then "y" else f.designate)
  }

  /** The role scan, left to right over the entry's roles. */
  function ScanRoles(roles: seq<string>, acc: RoleFlags): RoleFlags
  {
    if |roles| == 0 then acc else ScanRoles(roles[1..], Mark(acc, roles[0]))
  }

  /** A flag ends up "y" exactly when its role occurs somewhere in the list;
      otherwise it keeps its starting value. */
  lemma {:induction false} ScanRolesByMembership(roles: seq<string>, acc: RoleFlags)
    ensures ScanRoles(roles, acc).kube == if RoleKube in roles then "y" else acc.kube
    ensures ScanRoles(roles, acc).nova == if RoleNova in roles then "y" else acc.nova
    ensures ScanRoles(roles, acc).glance == if RoleGlance in roles then "y" else acc.glance
    ensures ScanRoles(roles, acc).cinder == if RoleCinder in roles then "y" else acc.cinder
    ensures ScanRoles(roles, acc).designate == if RoleDesignate in roles then "y" else acc.designate
  {
    if |roles| > 0 {
      ScanRolesByMembership(roles[1..], Mark(acc, roles[0]));
      assert roles == [roles[0]] + roles[1..];
    }
  }

  /** The first listed address, or the "no-data" placeholder. */
  function FirstIp(ipData: Option<seq<string>>): string
  {
    match ipData
    case Some(data) => if |data| > 0 then data[0] else NoData
    case None => NoData
  }

  /** The host record built for one inventory entry of region `duUrl`. */
  function NormalizeEntry(duUrl: string, e: InventoryEntry): (h: HostRecord)
    ensures h.duUrl == duUrl && h.hostname == e.hostname
    ensures h.ip == NoData <==> e.ipData.None? || |e.ipData.value| == 0 || e.ipData.value[0] == NoData
    ensures e.ipData.Some? && |e.ipData.value| > 0 ==> h.ip == e.ipData.value[0]
    ensures h.recordSource == Discovered
    ensures h.bondConfig == "" && h.nodeType == "" && h.clusterName == ""
    ensures h.kube == YesNo(RoleKube in e.roles)
    ensures h.nova == YesNo(RoleNova in e.roles)
    ensures h.glance == YesNo(RoleGlance in e.roles)
    ensures h.cinder == YesNo(RoleCinder in e.roles)
    ensures h.designate == YesNo(RoleDesignate in e.roles)
  {
    var flags := ScanRoles(e.roles, AllNo);
    ScanRolesByMembership(e.roles, AllNo);
    HostRecord(
      duUrl := duUrl,
      ip := FirstIp(e.ipData),
      hostname := e.hostname,
      recordSource := Discovered,
      bondConfig := "",
      kube := flags.kube,
      nova := flags.nova,
      glance := flags.glance,
      cinder := flags.cinder,
      designate := flags.designate,
      nodeType := "",
      clusterName := "")
  }

  /** One record per entry, in listing order. */
  function NormalizeAll(duUrl: string, entries: seq<InventoryEntry>): (r: seq<HostRecord>)
    ensures |r| == |entries|
    ensures forall i :: 0 <= i < |entries| ==> r[i] == NormalizeEntry(duUrl, entries[i])
  {
    if |entries| == 0 then []
    else [NormalizeEntry(duUrl, entries[0])] + NormalizeAll(duUrl, entries[1..])
  }

  /** `discover_du_hosts`: nothing when the inventory could not be read;
      otherwise one record per entry, in order, without deduplication. */
  function DiscoverDuHosts(duUrl: string, inventory: Option<seq<InventoryEntry>>): (r: seq<HostRecord>)
    ensures inventory.None? ==> r == []
    ensures inventory.Some? ==> |r| == |inventory.value|
    ensures inventory.Some? ==> forall i :: 0 <= i < |r| ==> r[i] == NormalizeEntry(duUrl, inventory.value[i])
    ensures forall i :: 0 <= i < |r| ==>
              r[i].kube in {"y", "n"} && r[i].nova in {"y", "n"} && r[i].glance in {"y", "n"}
              && r[i].cinder in {"y", "n"} && r[i].designate in {"y", "n"}
  {
    match inventory
    case None => []
    case Some(entries) => NormalizeAll(duUrl, entries)
  }
}
