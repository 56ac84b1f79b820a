/** The orchestration of the installer's two write paths over both documents:
    adding a region (with discovery) and adding a host by hand. Login, the
    probes and the inventory request are inputs. */
module Service {
  import opened Wrappers
  import opened Records
  import opened Registry
  import Store
  import Classifier
  import Discovery
  import Prompts

  /** Both local documents. */
  datatype Documents = Documents(regions: seq<RegionRecord>, hosts: seq<HostRecord>)

  /** Saving a batch of hosts one after the other, in order. */
  function WriteHosts(hosts: seq<HostRecord>, batch: seq<HostRecord>): seq<HostRecord>
    decreases |batch|
  {
    if |batch| == 0 then hosts else WriteHosts(WriteHost(hosts, batch[0]), batch[1..])
  }

  /** After a batch of saves, the hostnames present are those present before
      plus those of the batch. */
  lemma {:induction false} WriteHostsKeys(hosts: seq<HostRecord>, batch: seq<HostRecord>, name: string)
    ensures HostKnown(WriteHosts(hosts, batch), name) <==>
              HostKnown(hosts, name) || exists i :: 0 <= i < |batch| && batch[i].hostname == name
    decreases |batch|
  {
    if |batch| > 0 {
      Store.UpsertKeys(hosts, batch[0], HostName, name);
      WriteHostsKeys(WriteHost(hosts, batch[0]), batch[1..], name);
      if exists i :: 0 <= i < |batch[1..]| && batch[1..][i].hostname == name {
        var i :| 0 <= i < |batch[1..]| && batch[1..][i].hostname == name;
        assert batch[i + 1].hostname == name;
      }
      if exists i :: 0 <= i < |batch| && batch[i].hostname == name {
        var i :| 0 <= i < |batch| && batch[i].hostname == name;
        if i > 0 {
          assert batch[1..][i - 1].hostname == name;
        }
      }
    }
  }

  /** However many saves run, a store with at most one record per hostname
      keeps at most one record per hostname. */
  lemma {:induction false} WriteHostsKeepsUnique(hosts: seq<HostRecord>, batch: seq<HostRecord>)
    requires HostnamesUnique(hosts)
    ensures HostnamesUnique(WriteHosts(hosts, batch))
    decreases |batch|
  {
    if |batch| > 0 {
      WriteHostKeepsUnique(hosts, batch[0]);
      WriteHostsKeepsUnique(WriteHost(hosts, batch[0]), batch[1..]);
    }
  }

  /** Starting from no hosts document, any sequence of host saves leaves every
      hostname held by at most one record. */
  lemma HostnamesUniqueFromEmpty(batch: seq<HostRecord>)
    ensures forall name :: Store.CountKey(WriteHosts([], batch), HostName, name) <= 1
  {
    WriteHostsKeepsUnique([], batch);
    Store.KeysUniqueIffCountAtMostOne(WriteHosts([], batch), HostName);
  }

  /** `add_region`: every discovered host is saved, then the region. A failed
      inventory request saves no host but still saves the region. */
  function AddRegion(docs: Documents, du: RegionRecord, inventory: Option<seq<Discovery.InventoryEntry>>): (r: Documents)
    ensures inventory.None? ==> r.hosts == docs.hosts
    ensures GetDuMetadata(r.regions, du.url) == Some(du)
    ensures forall url :: url != du.url ==> GetDuMetadata(r.regions, url) == GetDuMetadata(docs.regions, url)
    ensures inventory.Some? ==> forall i :: 0 <= i < |inventory.value| ==>
              HostKnown(r.hosts, inventory.value[i].hostname)
    ensures var d := Discovery.DiscoverDuHosts(du.url, inventory);
            forall name :: HostKnown(r.hosts, name) <==>
              HostKnown(docs.hosts, name) || exists i :: 0 <= i < |d| && d[i].hostname == name
    ensures var d := Discovery.DiscoverDuHosts(du.url, inventory);
            forall k :: 0 <= k < |d| && (forall j :: k < j < |d| ==> d[j].hostname != d[k].hostname) ==> d[k] in r.hosts
    ensures var d := Discovery.DiscoverDuHosts(du.url, inventory);
            forall h :: h in docs.hosts && (forall i :: 0 <= i < |d| ==> d[i].hostname != h.hostname) ==> h in r.hosts
  {
    var discovered := Discovery.DiscoverDuHosts(du.url, inventory);
    var r := Documents(WriteConfig(docs.regions, du), WriteHosts(docs.hosts, discovered));
    WriteConfigThenLookupAll(docs.regions, du);
    WriteHostsKeysAll(docs.hosts, discovered);
    WriteHostsStoresAll(docs.hosts, discovered);
    r
  }

  /** Registering a region keeps both documents free of duplicate keys, even
      when the inventory lists a hostname twice or one already stored. */
  lemma AddRegionKeepsUnique(docs: Documents, du: RegionRecord, inventory: Option<seq<Discovery.InventoryEntry>>)
    requires UrlsUnique(docs.regions) && HostnamesUnique(docs.hosts)
    ensures UrlsUnique(AddRegion(docs, du, inventory).regions)
    ensures HostnamesUnique(AddRegion(docs, du, inventory).hosts)
  {
    WriteConfigKeepsUnique(docs.regions, du);
    WriteHostsKeepsUnique(docs.hosts, Discovery.DiscoverDuHosts(du.url, inventory));
  }

  /** `Registry.WriteConfigThenLookup` for every URL at once. */
  lemma WriteConfigThenLookupAll(regions: seq<RegionRecord>, du: RegionRecord)
    ensures GetDuMetadata(WriteConfig(regions, du), du.url) == Some(du)
    ensures forall url :: url != du.url ==>
              GetDuMetadata(WriteConfig(regions, du), url) == GetDuMetadata(regions, url)
  {
    WriteConfigThenLookup(regions, du, du.url);
    forall url | url != du.url
      ensures GetDuMetadata(WriteConfig(regions, du), url) == GetDuMetadata(regions, url)
    {
      WriteConfigThenLookup(regions, du, url);
    }
  }

  /** `WriteHostsKeys` for every hostname at once: the batch's hostnames and the
      earlier ones are all present afterwards. */
  lemma WriteHostsKeysAll(hosts: seq<HostRecord>, batch: seq<HostRecord>)
    ensures forall name :: HostKnown(WriteHosts(hosts, batch), name) <==>
              HostKnown(hosts, name) || exists i :: 0 <= i < |batch| && batch[i].hostname == name
  {
    forall name ensures HostKnown(WriteHosts(hosts, batch), name) <==>
              HostKnown(hosts, name) || exists i :: 0 <= i < |batch| && batch[i].hostname == name
    {
      WriteHostsKeys(hosts, batch, name);
    }
  }

  /** A saved host is in the hosts document afterwards. */
  lemma WriteHostStores(hosts: seq<HostRecord>, host: HostRecord)
    ensures host in WriteHost(hosts, host)
  {
    var saved := WriteHost(hosts, host);
    if HostKnown(hosts, host.hostname) {
      var i :| 0 <= i < |hosts| && hosts[i].hostname == host.hostname;
      assert saved[i] == host;
    } else {
      assert saved[|hosts|] == host;
    }
  }

  /** A stored host whose hostname no record of the batch carries survives the
      batch unchanged. */
  lemma {:induction false} WriteHostsKeepsOthers(hosts: seq<HostRecord>, batch: seq<HostRecord>, h: HostRecord)
    requires h in hosts
    requires forall i :: 0 <= i < |batch| ==> batch[i].hostname != h.hostname
    ensures h in WriteHosts(hosts, batch)
    decreases |batch|
  {
    if |batch| > 0 {
      var i :| 0 <= i < |hosts| && hosts[i] == h;
      assert WriteHost(hosts, batch[0])[i] == h;
      WriteHostsKeepsOthers(WriteHost(hosts, batch[0]), batch[1..], h);
    }
  }

  /** The last record of a batch with a given hostname is the one stored. */
  lemma {:induction false} WriteHostsLastStored(hosts: seq<HostRecord>, batch: seq<HostRecord>, k: nat)
    requires k < |batch|
    requires forall j :: k < j < |batch| ==> batch[j].hostname != batch[k].hostname
    ensures batch[k] in WriteHosts(hosts, batch)
    decreases |batch|
  {
    if k == 0 {
      WriteHostStores(hosts, batch[0]);
      WriteHostsKeepsOthers(WriteHost(hosts, batch[0]), batch[1..], batch[0]);
    } else {
      WriteHostsLastStored(WriteHost(hosts, batch[0]), batch[1..], k - 1);
    }
  }

  /** `WriteHostsKeepsOthers` and `WriteHostsLastStored` for every record at once. */
  lemma WriteHostsStoresAll(hosts: seq<HostRecord>, batch: seq<HostRecord>)
    ensures forall k :: 0 <= k < |batch| && (forall j :: k < j < |batch| ==> batch[j].hostname != batch[k].hostname)
              ==> batch[k] in WriteHosts(hosts, batch)
    ensures forall h :: h in hosts && (forall i :: 0 <= i < |batch| ==> batch[i].hostname != h.hostname)
              ==> h in WriteHosts(hosts, batch)
  {
    forall k | 0 <= k < |batch| && (forall j :: k < j < |batch| ==> batch[j].hostname != batch[k].hostname)
      ensures batch[k] in WriteHosts(hosts, batch)
    {
      WriteHostsLastStored(hosts, batch, k);
    }
    forall h | h in hosts && (forall i :: 0 <= i < |batch| ==> batch[i].hostname != h.hostname)
      ensures h in WriteHosts(hosts, batch)
    {
      WriteHostsKeepsOthers(hosts, batch, h);
    }
  }

  /** What `add_host` did. */
  datatype AddHostOutcome =
    | HostSaved(hosts: seq<HostRecord>, host: HostRecord)
    | LoginFailed
    | UnsupportedRegion(regionType: Classifier.RegionType)

  /** `add_host`: without a login nothing happens; otherwise the region is
      classified, the answers are gated by its type and the host saved. A
      region of any other type than KVM or Kubernetes gets no host and the
      store is left alone. */
  function AddHost(hosts: seq<HostRecord>, du: RegionRecord, loggedIn: bool,
                   qbertUp: bool, credsUp: bool, answers: Prompts.HostAnswers): (r: AddHostOutcome)
    ensures !loggedIn ==> r == LoginFailed
    ensures r.HostSaved? <==> loggedIn && (qbertUp || credsUp)
    ensures loggedIn && !qbertUp && !credsUp ==> r == UnsupportedRegion(Classifier.VMware)
    ensures r.HostSaved? ==> r.hosts == WriteHost(hosts, r.host)
    ensures r.HostSaved? ==> r.host.duUrl == du.url && r.host.hostname == answers.hostname
                             && r.host.recordSource == UserDefined
                             && r.host.kube == (if qbertUp then "y" else "n")
    ensures r.HostSaved? ==> r.host in GetHosts(r.hosts, Some(du.url))
    ensures r.HostSaved? ==> r.host.ip == answers.ip
    ensures r.HostSaved? ==>
              Prompts.GetHostMetadata(Classifier.GetDuType(qbertUp, credsUp).regionType, answers)
              == Some(Prompts.HostMetadata(r.host.recordSource, r.host.ip, r.host.hostname, r.host.bondConfig,
                                           r.host.kube, r.host.nova, r.host.glance, r.host.cinder,
                                           r.host.designate, r.host.nodeType, r.host.clusterName))
  {
    if !loggedIn then LoginFailed
    else
      var rt := Classifier.GetDuType(qbertUp, credsUp).regionType;
      match Prompts.GetHostMetadata(rt, answers)
      case None => UnsupportedRegion(rt)
      case Some(m) =>
        var host := HostRecord(du.url, m.ip, m.hostname, m.recordSource, m.bondConfig, m.kube,
                               m.nova, m.glance, m.cinder, m.designate, m.nodeType, m.clusterName);
        var saved := WriteHost(hosts, host);
        WriteHostStores(hosts, host);
        assert host in multiset(GetHosts(saved, Some(du.url)));
        HostSaved(saved, host)
  }

  /** Every discovered host shows its role flags as Enabled or Disabled in the
      host report, never as "failed-to-map". */
  lemma DiscoveredFlagsAlwaysMap(duUrl: string, inventory: Option<seq<Discovery.InventoryEntry>>, i: nat)
    requires i < |Discovery.DiscoverDuHosts(duUrl, inventory)|
    ensures var h := Discovery.DiscoverDuHosts(duUrl, inventory)[i];
            Prompts.MapYn(h.nova) != "failed-to-map" && Prompts.MapYn(h.glance) != "failed-to-map"
            && Prompts.MapYn(h.cinder) != "failed-to-map" && Prompts.MapYn(h.designate) != "failed-to-map"
  {
  }

  /** The region type as the reports print it. */
  function RegionTypeName(rt: Classifier.RegionType): string
  {
    match rt
    case Unclassified => "-"
    case Kubernetes => "Kubernetes"
    case KVM => "KVM"
    case VMware => "VMware"
  }

  /** One row of the region report; `numHosts` is `None` where "-" is shown. */
  datatype DuRow = DuRow(url: string, auth: string, regionType: string, region: string,
                         tenant: string, proxy: string, numHosts: Option<nat>)

  /** The row `report_du_info` shows for one stored region. Login, the probes and
      the host count (zero when the listing fails) are inputs. A region that
      cannot be logged into is reported, not skipped. */
  function ReportDuRow(du: RegionRecord, loggedIn: bool, qbertUp: bool, credsUp: bool, hostCount: nat): (row: DuRow)
    ensures row.url == du.url && row.region == du.region && row.tenant == du.tenant && row.proxy == du.proxy
    ensures row.auth == (if loggedIn then "OK" else "Failed")
    ensures !loggedIn ==> row.regionType == "" && row.numHosts.None?
    ensures loggedIn ==> row.numHosts == Some(hostCount)
    ensures loggedIn ==> (row.regionType == "Kubernetes" <==> qbertUp)
    ensures loggedIn ==> (row.regionType == "KVM" <==> !qbertUp && credsUp)
    ensures loggedIn ==> (row.regionType == "VMware" <==> !qbertUp && !credsUp)
  {
    if !loggedIn then DuRow(du.url, "Failed", "", du.region, du.tenant, du.proxy, None)
    else
      var rt := Classifier.GetDuType(qbertUp, credsUp).regionType;
      DuRow(du.url, "OK", RegionTypeName(rt), du.region, du.tenant, du.proxy, Some(hostCount))
  }
}
