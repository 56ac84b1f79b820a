# Region/host registry of the cs-tools installer, in Dafny

This project models the registry core of the interactive installer in
`lib/cs-tools/installer.py`. The installer registers regions (control
endpoints with credentials and network settings) and the hosts that belong to
them. It classifies each region as Kubernetes, KVM or VMware by probing two
endpoints, and it discovers the hosts a region already knows. Everything is
kept in two local JSON documents: a regions list keyed by URL and a hosts list
keyed by hostname.

The model keeps the logic and removes the I/O:

- Each document is a `seq` of immutable records (`Records.HostRecord`,
  `Records.RegionRecord`). A missing file reads as the empty sequence.
- `Store` holds the list logic once, generic in the key: replace-or-append
  upsert, order-preserving filter, first-match lookup, and the uniqueness,
  idempotence and last-write-wins lemmas.
- `Registry` instantiates that logic as `write_host`, `write_config`,
  `get_hosts` and `get_du_metadata`.
- `Classifier` is `get_du_type`, with the two probe results as booleans. It
  also records which probes were issued, so the short-circuit is visible.
- `Discovery` turns an inventory listing into host records: IP or the
  "no-data" placeholder, and five y/n role flags. A failed inventory request is
  the input `None`.
- `Prompts` holds the accept test of the prompt loop, `map_yn`, and the field
  gating of `get_host_metadata` (by region type) and `get_du_creds` (by
  authentication type). The operator's answers are inputs.
- `Service` composes these into `add_region` (discovery, then the host saves,
  then the region save) and `add_host` (login, classification, gating, save).

Login success, probe results, the inventory listing and the operator's typed
lines are all parameters. Nothing in the model performs I/O.

Some behaviour of the code is easy to misread; the model follows the code:

- At most one of `auth_password` and `auth_ssh_key` is non-empty; both are
  empty when the typed answer is empty (`Prompts.GetDuCreds`). The function
  accepts any authentication type string, a generalisation of the prompt,
  which only admits "simple" and "ssh-key".
- `dns_list` is stored as the raw comma-separated answer, not as a list.
- The classifier always yields Kubernetes, KVM or VMware; no other label is
  ever produced.
- Manual host entry for a VMware region is not a clean rejection. The code
  prints an error and then fails on a missing key. The model reports
  `UnsupportedRegion` and leaves the store alone.
- Host keys are global: saving a host for one region replaces a same-named
  host of another region (`Registry.WriteHostCrossesRegions`).

## Model

| member | source | states |
|---|---|---|
| Store.ReplaceMatching | lib/cs-tools/installer.py:443-448 | same length; each record with the new key is replaced by the new record in its position, and every other record is kept unchanged in its position |
| Store.Merge | lib/cs-tools/installer.py:441-450 | length unchanged when the key is present and one longer otherwise; positions as in ReplaceMatching; with the key absent the result is the old list with the record appended; afterwards the key is present |
| Store.Upsert | lib/cs-tools/installer.py:436-450 | the empty-store branch gives exactly what the general replace-or-append branch gives |
| Store.MergeLoop | lib/cs-tools/installer.py:441-450 | the record-by-record loop with a found flag computes the replace-or-append result |
| Store.Filter | lib/cs-tools/installer.py:420-423 | every returned record has the key; each record with the key occurs as often as in the store, and no other record occurs |
| Store.FindFirst | lib/cs-tools/installer.py:403-406 | nothing iff no record has the key; otherwise a stored record with the key and no earlier record with that key |
| Store.UniqueCount | lib/cs-tools/installer.py:443-450 | in a store with unique keys, a key is held by exactly one record if present and by none otherwise |
| Store.KeysUniqueIffCountAtMostOne | lib/cs-tools/installer.py:443-450 | pairwise-distinct keys is the same as every key being held by at most one record |
| Store.UpsertKeys | lib/cs-tools/installer.py:443-450 | an upsert never loses a key; the keys afterwards are the old keys plus the new record's |
| Store.UpsertKeepsUnique | lib/cs-tools/installer.py:443-450 | with at most one record per key before, the same holds after, and exactly one record has the new key |
| Store.UpsertLastWins | lib/cs-tools/installer.py:443-450 | two upserts with the same key give the store that the second alone gives |
| Store.UpsertIdempotent | lib/cs-tools/installer.py:443-450 | upserting the same record twice equals upserting it once |
| Store.FilterIsSubsequence | lib/cs-tools/installer.py:420-423 | the filtered list is a subsequence of the store, so stored order is kept |
| Store.UpsertThenFind | lib/cs-tools/installer.py:470-477 | after an upsert, a lookup of the new key finds the new record, and a lookup of any other key finds what it found before |
| Registry.WriteHost | lib/cs-tools/installer.py:435-452 | a host with the same hostname (from any region) is replaced in place and every other host is kept in place; an unknown hostname is appended; the length follows |
| Registry.WriteConfig | lib/cs-tools/installer.py:462-479 | a region with the same exact URL is replaced in place and every other region is kept in place; an unknown URL is appended; the length follows |
| Registry.GetHosts | lib/cs-tools/installer.py:411-425 | no URL gives the whole hosts list; a URL gives exactly the hosts with that duUrl, with their stored multiplicities |
| Registry.GetDuMetadata | lib/cs-tools/installer.py:398-408 | empty iff no region has the URL; otherwise the first stored region with that URL |
| Registry.WriteHostEmptyBranch | lib/cs-tools/installer.py:436-439 | saving into an empty hosts list gives the one-record list, as the general branch would |
| Registry.WriteHostKeepsUnique | lib/cs-tools/installer.py:443-450 | saving a host keeps at most one record per hostname and leaves exactly one with the saved hostname |
| Registry.WriteHostLastWins | lib/cs-tools/installer.py:443-450 | saving two hosts with one hostname leaves the store that the second save alone gives |
| Registry.WriteHostIdempotent | lib/cs-tools/installer.py:443-450 | saving the same host twice equals saving it once |
| Registry.WriteConfigEmptyBranch | lib/cs-tools/installer.py:463-466 | saving into an empty regions list gives the one-record list, as the general branch would |
| Registry.WriteConfigKeepsUnique | lib/cs-tools/installer.py:470-477 | saving a region keeps at most one record per URL and leaves exactly one with the saved URL |
| Registry.WriteConfigIdempotent | lib/cs-tools/installer.py:470-477 | re-submitting a region with identical data leaves the regions list unchanged |
| Registry.WriteConfigThenLookup | lib/cs-tools/installer.py:470-477 | after saving a region, looking up its URL returns it, and every other URL returns what it did before |
| Store.SubsequenceOfSelf | lib/cs-tools/installer.py:417-418 | every list is a subsequence of itself, so the unfiltered listing keeps stored order |
| Registry.GetHostsInStoredOrder | lib/cs-tools/installer.py:417-425 | the hosts listed, with or without a URL, are a subsequence of the hosts document |
| Registry.WriteHostCrossesRegions | lib/cs-tools/installer.py:444-445 | because hostnames are global keys, after saving host b into any hosts document no region other than b's lists a host named like b: a same-named host of another region is replaced |
| Classifier.GetDuType | lib/cs-tools/installer.py:261-272 | Kubernetes iff the nodes probe answered; KVM iff it did not and the credentials-manager probe did; VMware iff neither; never the "-" placeholder; the nodes probe comes first, and the credentials-manager probe is issued iff the nodes probe failed |
| Classifier.KubernetesWinsWhateverCreds | lib/cs-tools/installer.py:263-265 | once the nodes probe answers, the credentials-manager result cannot change the outcome |
| Discovery.ScanRolesByMembership | lib/cs-tools/installer.py:203-218 | after the role scan each flag is "y" iff its exact role name occurs in the list and keeps its starting value otherwise; unknown roles change nothing |
| Discovery.NormalizeEntry | lib/cs-tools/installer.py:196-233 | region URL and hostname are copied; IP is the first listed address or "no-data"; source "Discovered"; bond, node type and cluster are empty; each of the five flags is "y" iff its role is listed, else "n" |
| Discovery.NormalizeAll | lib/cs-tools/installer.py:188-234 | one record per inventory entry, in listing order, each the normalisation of its entry |
| Discovery.DiscoverDuHosts | lib/cs-tools/installer.py:169-236 | a failed inventory request gives no hosts; otherwise one record per entry, in order, each the normalisation of its entry (IP or "no-data", role flags by membership, source "Discovered"), and every role flag is "y" or "n" |
| Prompts.AcceptInput | lib/cs-tools/installer.py:32-40 | an answer is refused iff it is non-empty, there are allowed values and it is not one of them; an empty answer gives the default; any other accepted answer is returned as typed |
| Prompts.ReadValidated | lib/cs-tools/installer.py:26-40 | the result is the first accepted line, with every earlier line refused; nothing iff every line is refused; an accepted value is allowed, or the default, or unrestricted |
| Prompts.ReadKbd | lib/cs-tools/installer.py:23-44 | without echo the first line is returned as typed; with echo the result is the value of the first accepted line, every earlier line being refused, and nothing iff every line is refused; an accepted value is allowed, the default, or unrestricted |
| Prompts.EmptyAnswerAlwaysAccepted | lib/cs-tools/installer.py:32-34 | an empty first answer yields the default even when the default is not an allowed value |
| Prompts.MapYn | lib/cs-tools/installer.py:308-314 | "Enabled" iff the flag is "y", "Disabled" iff it is "n", "failed-to-map" for anything else |
| Prompts.GetHostMetadata | lib/cs-tools/installer.py:86-113 | complete metadata iff the type is KVM or Kubernetes; source "User-Defined"; KVM keeps bond and the four OpenStack answers and sets pf9-kube "n", node type and cluster empty; Kubernetes sets pf9-kube "y", blanks bond and the four OpenStack flags, and keeps node type and cluster |
| Prompts.KvmPromptedFlagsAlwaysMap | lib/cs-tools/installer.py:94-97 | when the four OpenStack answers come from the y/n prompts with their defaults ("y" for nova, "n" for the others), the KVM metadata's four flags are "y" or "n", so the host report never shows them as "failed-to-map" |
| Prompts.GetDuCreds | lib/cs-tools/installer.py:115-140 | the remote-access password is kept only for "simple" and the SSH key only for "ssh-key", so at most one of them is non-empty; every other answer is stored as typed |
| Service.WriteHostsKeys | lib/cs-tools/installer.py:531-532 | after saving a batch of hosts, the hostnames present are the earlier ones plus those of the batch |
| Service.WriteHostsKeepsUnique | lib/cs-tools/installer.py:531-532 | any number of host saves keeps at most one record per hostname |
| Service.WriteHostStores | lib/cs-tools/installer.py:443-450 | a saved host is in the hosts document afterwards |
| Service.WriteHostsKeepsOthers | lib/cs-tools/installer.py:531-532 | a stored host whose hostname no record of the batch carries is still stored, unchanged, after the batch |
| Service.WriteHostsLastStored | lib/cs-tools/installer.py:531-532 | the last record of a batch with a given hostname is the one stored after the batch |
| Service.HostnamesUniqueFromEmpty | lib/cs-tools/installer.py:428-452 | from no hosts document, any sequence of host saves leaves every hostname held by at most one record |
| Service.AddRegion | lib/cs-tools/installer.py:508-538 | a failed inventory request leaves the hosts list unchanged while the region is still saved; the region's URL then finds it and every other URL finds what it did before; the hostnames present afterwards are exactly the earlier ones plus the discovered ones; the last discovered record for each hostname is stored as normalised; a stored host whose hostname is not discovered is kept unchanged |
| Service.AddRegionKeepsUnique | lib/cs-tools/installer.py:529-535 | registering a region keeps both documents free of duplicate keys, even with duplicate hostnames in the inventory |
| Service.AddHost | lib/cs-tools/installer.py:482-505 | nothing is saved without a login; a host is saved iff login succeeded and the region is Kubernetes or KVM, and a VMware region is reported unsupported; the saved host carries the region URL, the typed hostname, source "User-Defined", the typed IP, pf9-kube "y" exactly for Kubernetes, and all remaining fields as gated by the region type; it is then listed under its region |
| Service.ReportDuRow | lib/cs-tools/installer.py:292-303 | auth is "OK" iff login succeeded, else "Failed" with blank type and "-" hosts; after a login the type shown is Kubernetes iff the nodes probe answered, KVM iff only the credentials-manager probe did, VMware iff neither, and the host count is shown; URL, region, tenant and proxy come from the stored record |
| Service.DiscoveredFlagsAlwaysMap | lib/cs-tools/installer.py:345-346 | every role flag of a discovered host is shown as Enabled or Disabled, never "failed-to-map" |

## Left out

- `login` and `login_du` (HTTP token exchange): `Service.AddHost` and `Service.ReportDuRow` take login success as a boolean input. `Service.AddRegion` has no login input, because the code runs discovery whether or not login succeeded; the inventory input does not depend on login.
- `qbert_is_responding` and `credsmanager_is_responding` (HTTP probes; the credentials-manager probe has a 5-second timeout, the nodes probe none): their results are boolean inputs to `Classifier.GetDuType`.
- The request and JSON-parsing part of `discover_du_hosts`: the inventory is an input, with `None` for a failed request or an unparsable body.
- `get_du_hosts` (counts hosts over HTTP for the region report): network I/O only.
- File I/O (`get_configs`, `json.load`/`json.dump`, `os.mkdir`, `os.path.isfile`, `fail`/`sys.exit`): the documents are in-memory sequences, and a missing file is the empty sequence. The fatal directory-creation path is not modelled.
- Interactive and console code (`select_du`, `display_menu`, `cmd_loop`, the PrettyTable rendering of `report_du_info` and `report_host_info`): user interface only. The content of one region-report row is modelled by `Service.ReportDuRow`; the host-report table is not, beyond `Prompts.MapYn`.
- `report_host_info` after a failed login reads `region_type` before assigning it, which raises an error in Python. It is not modelled as defined behaviour.
- Discovery entries without `info.hostname` or `roles` make the source raise. `Discovery.InventoryEntry` always carries both, so that crash is not modelled.
- `Prompts.ReadKbd`: running out of typed lines gives `None`. The source would block or raise at end of input instead.
- `Service.AddHost`: for a VMware region the source fails on a missing key and ends the program. The model returns `UnsupportedRegion` with the store unchanged.
- The operator's answers are taken as already typed. The prompts' order and which prompts are skipped are not modelled.
- The Python-version check and module-import failure at start-up: environment, not registry logic.
