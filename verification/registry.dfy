/** The two local documents of the installer: the hosts list keyed by hostname
    (globally, not per region) and the regions list keyed by URL. A missing
    document reads as the empty list. */
module Registry {
  import opened Wrappers
  import opened Records
  import Store

  /** Some stored host has this hostname. */
  predicate HostKnown(hosts: seq<HostRecord>, name: string)
  {
    Store.HasKey(hosts, HostName, name)
  }

  /** Some stored region has this URL. */
  predicate RegionKnown(regions: seq<RegionRecord>, url: string)
  {
    Store.HasKey(regions, RegionUrl, url)
  }

  /** At most one host record per hostname. */
  predicate HostnamesUnique(hosts: seq<HostRecord>)
  {
    Store.KeysUnique(hosts, HostName)
  }

  /** At most one region record per URL. */
  predicate UrlsUnique(regions: seq<RegionRecord>)
  {
    Store.KeysUnique(regions, RegionUrl)
  }

  /** `write_host`: the hosts document after saving `host`. A stored host with the
      same hostname is replaced where it stands (whatever region it belonged
      to); otherwise `host` is appended. */
  function WriteHost(hosts: seq<HostRecord>, host: HostRecord): (r: seq<HostRecord>)
    ensures |r| == if HostKnown(hosts, host.hostname) then |hosts| else |hosts| + 1
    ensures forall i :: 0 <= i < |hosts| ==>
              r[i] == (if hosts[i].hostname == host.hostname then host else hosts[i])
    ensures !HostKnown(hosts, host.hostname) ==> r == hosts + [host]
  {
    Store.Upsert(hosts, host, HostName)
  }

  /** `write_config`: the regions document after saving `du`. A stored region
      with the same URL is replaced where it stands; otherwise `du` is appended. */
  function WriteConfig(regions: seq<RegionRecord>, du: RegionRecord): (r: seq<RegionRecord>)
    ensures |r| == if RegionKnown(regions, du.url) then |regions| else |regions| + 1
    ensures forall i :: 0 <= i < |regions| ==>
              r[i] == (if regions[i].url == du.url then du else regions[i])
    ensures !RegionKnown(regions, du.url) ==> r == regions + [du]
  {
    Store.Upsert(regions, du, RegionUrl)
  }

  /** `get_hosts`: with no URL the whole hosts document; with a URL exactly the
      hosts whose `duUrl` is that string, each as often as it is stored. */
  function GetHosts(hosts: seq<HostRecord>, duUrl: Option<string>): (r: seq<HostRecord>)
    ensures duUrl.None? ==> r == hosts
    ensures duUrl.Some? ==> forall i :: 0 <= i < |r| ==> r[i].duUrl == duUrl.value
    ensures duUrl.Some? ==>
              forall h :: multiset(r)[h] == (if h.duUrl == duUrl.value then multiset(hosts)[h] else 0)
  {
    match duUrl
    case None => hosts
    case Some(u) => Store.Filter(hosts, HostRegion, u)
  }

  /** `get_du_metadata`: the first stored region whose URL is `duUrl`, or nothing. */
  function GetDuMetadata(regions: seq<RegionRecord>, duUrl: string): (r: Option<RegionRecord>)
    ensures r.None? <==> !RegionKnown(regions, duUrl)
    ensures r.Some? ==> exists i :: 0 <= i < |regions| && regions[i] == r.value
                          && r.value.url == duUrl
                          && forall j :: 0 <= j < i ==> regions[j].url != duUrl
  {
    Store.FindFirst(regions, RegionUrl, duUrl)
  }

  /* ---- properties of the two upserts ---- */

  /** The empty-store branch of `write_host` writes what the general branch would. */
  lemma WriteHostEmptyBranch(host: HostRecord)
    ensures WriteHost([], host) == Store.Merge([], host, HostName) == [host]
  {
  }

  /** Saving a host keeps at most one record per hostname and leaves exactly
      one record with the saved hostname. */
  lemma WriteHostKeepsUnique(hosts: seq<HostRecord>, host: HostRecord)
    requires HostnamesUnique(hosts)
    ensures HostnamesUnique(WriteHost(hosts, host))
    ensures Store.CountKey(WriteHost(hosts, host), HostName, host.hostname) == 1
  {
    Store.UpsertKeepsUnique(hosts, host, HostName);
  }

  /** Saving two hosts with the same hostname leaves the store as if only the
      second had been saved. */
  lemma WriteHostLastWins(hosts: seq<HostRecord>, first: HostRecord, second: HostRecord)
    requires first.hostname == second.hostname
    ensures WriteHost(WriteHost(hosts, first), second) == WriteHost(hosts, second)
  {
    Store.UpsertLastWins(hosts, first, second, HostName);
  }

  /** Saving the same host twice is the same as saving it once. */
  lemma WriteHostIdempotent(hosts: seq<HostRecord>, host: HostRecord)
    ensures WriteHost(WriteHost(hosts, host), host) == WriteHost(hosts, host)
  {
    Store.UpsertIdempotent(hosts, host, HostName);
  }

  /** The empty-store branch of `write_config` writes what the general branch would. */
  lemma WriteConfigEmptyBranch(du: RegionRecord)
    ensures WriteConfig([], du) == Store.Merge([], du, RegionUrl) == [du]
  {
  }

  /** Saving a region keeps at most one record per URL and leaves exactly one
      record with the saved URL. */
  lemma WriteConfigKeepsUnique(regions: seq<RegionRecord>, du: RegionRecord)
    requires UrlsUnique(regions)
    ensures UrlsUnique(WriteConfig(regions, du))
    ensures Store.CountKey(WriteConfig(regions, du), RegionUrl, du.url) == 1
  {
    Store.UpsertKeepsUnique(regions, du, RegionUrl);
  }

  /** Re-submitting a region with identical data changes nothing. */
  lemma WriteConfigIdempotent(regions: seq<RegionRecord>, du: RegionRecord)
    ensures WriteConfig(WriteConfig(regions, du), du) == WriteConfig(regions, du)
  {
    Store.UpsertIdempotent(regions, du, RegionUrl);
  }

  /** After saving a region, looking its URL up returns it, and every other URL
      returns what it did before. */
  lemma WriteConfigThenLookup(regions: seq<RegionRecord>, du: RegionRecord, url: string)
    ensures GetDuMetadata(WriteConfig(regions, du), url) ==
              if url == du.url then Some(du) else GetDuMetadata(regions, url)
  {
    Store.UpsertThenFind(regions, du, RegionUrl, url);
  }

  /** The hosts listed for one region are a subsequence of the hosts document. */
  lemma GetHostsInStoredOrder(hosts: seq<HostRecord>, duUrl: Option<string>)
    ensures Store.Subsequence(GetHosts(hosts, duUrl), hosts)
  {
    if duUrl.Some? {
      Store.FilterIsSubsequence(hosts, HostRegion, duUrl.value);
    } else {
      Store.SubsequenceOfSelf(hosts);
    }
  }

  /** Because the hostname key is global, saving host `b` replaces every stored
      host of the same name whatever its region: afterwards no other region
      lists a host with that name. */
  lemma WriteHostCrossesRegions(hosts: seq<HostRecord>, b: HostRecord, u: string)
    requires u != b.duUrl
    ensures forall h :: h in GetHosts(WriteHost(hosts, b), Some(u)) ==> h.hostname != b.hostname
  {
    var saved := WriteHost(hosts, b);
    forall h | h in GetHosts(saved, Some(u))
      ensures h.hostname != b.hostname
    {
      assert h in multiset(GetHosts(saved, Some(u)));
      assert h.duUrl == u && h in multiset(saved);
      var i :| 0 <= i < |saved| && saved[i] == h;
      if i < |hosts| {
        assert saved[i] == (if hosts[i].hostname == b.hostname then b else hosts[i]);
      }
    }
  }
}
