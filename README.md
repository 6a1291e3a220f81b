# svcindex in Dafny

svcindex is a small service index. On every node an **agent** does three things:

- it reads service definitions from YAML files and, optionally, from Docker container labels;
- it probes each service over HTTP or TCP;
- it registers the services with the local Consul agent under the id `<node>::<name>`, and deregisters this node's ids that no definition wants any more.

A **hub** reads the Consul catalog and the health-check lists, and derives one record per service instance. A Flask **dashboard** groups the records by type and sorts each group by name.

This project models the decision procedures of that control loop:

- the reconciliation with the Consul agent;
- the probe classification;
- the hub's status derivation and tag lookups;
- the agent's last-wins de-duplication;
- definition normalisation from YAML and from container labels;
- the dashboard grouping.

It then proves what these procedures promise. Every network answer, clock reading, subprocess result and environment variable is a parameter.

Layout, one module per file:

- `wrappers.dfy`: `Option` and `Result`.
- `strings.dfy`: the Python `str` operations the code uses. These are `strip`, ASCII `lower`, `startswith`, `split`/`join` on one character, `rsplit(":", 1)`, slicing, `int()` and `str()`.
- `collections.dfy`: what a Python dict does when it is filled in a loop. Keys keep the order of first insertion and the last value wins (`FirstKeys`, `ByKey`, `Collapse`). Also `WithKey`, which filters by key.
- `sorting.dfy`: Python's stable `sorted(..., key=...)` on text keys, as an insertion sort (`SortBy`).
- `util.dfy`: the `Monitor` and `Service` dataclasses.
  - `Service` is a class. Its definition is constant; `status`, `detail`, `latencyMs` and `lastChecked` are mutable fields.
  - Also holds `env_bool` and tag cleaning.
- `registry.dfy`: `service_from_dict`.
- `docker.dfy`: `_split_tags` and `discover_from_labels`.
- `checks.dfy`: `check_service`, `_check_http` and `_check_tcp`, as methods that update a `Service` in place.
- `consul_client.dfy`: the local Consul agent as a class.
  - Its `services` map and its request log change.
  - Its answers are fixed by constant fields: whether it is reachable, whether listing fails, and which register or deregister requests raise.
- `consul_sync.dfy`: `sync_services_to_local_consul`, `_guess_port` and `_build_checks`.
- `main.dfy`: module `Agent` (`discover`) and module `Hub` (`discover_from_consul`, `_tag_value`, `_guess_url`).
- `webapp.dfy`: the body of `index` and `healthz`.

The dataclass defaults are the defaults of the `Monitor` and `Definition` datatypes and of the `Service` constructor:

- mode `none`, no target, interval 30, timeout 2;
- type `other`, url, description and tags empty;
- status `unknown`, no latency, empty detail.

The source's `type` field is called `kind`.

## Model

| member | source | states |
|---|---|---|
| Util.Service.constructor | svcindex/util.py:28-40 | A new record keeps its definition and starts as `unknown`, with no latency, an empty detail and time 0 |
| Util.NormalMode | svcindex/checks.py:12 | The mode the probe uses: an empty mode reads as `none`; any other mode is its lower-cased self, of the same length, and lower-casing it again changes nothing |
| Util.EnvBool | svcindex/util.py:15-19 | An unset variable gives the default. A set one is true exactly when its stripped, lower-cased value is one of 1/true/yes/y/on, so a blank value is false |
| Util.TruthyNormalised | svcindex/util.py:19 | Surrounding whitespace and letter case never change the truthiness of a value |
| Util.CleanTags | svcindex/registry.py:37-38 | Cleaned tags are never more than the input tags, and each is non-empty and stripped |
| Util.CleanTagsOfClean | svcindex/registry.py:37-38 | Tags that are already non-empty and stripped pass through cleaning unchanged |
| Util.CleanTagsConcat | svcindex/registry.py:37-38 | Cleaning works tag by tag: cleaning a concatenation concatenates the cleaned parts, so order is kept |
| Registry.ServiceFromDict | svcindex/registry.py:22-47 | Error exactly when the stripped name is empty (with the source's message), or else when `int()` rejects the interval or, failing that, the timeout; the error then carries the `ValueError` message for the rejected text. Otherwise: name, url and description stripped (url and description default to empty), type stripped and lower-cased with default `other`, mode likewise with default `none`, tags cleaned, a target passed through except that an empty one becomes none, interval and timeout as `int()` reads them with defaults 30 and 2; the result is a normal definition |
| Registry.IntOf | svcindex/registry.py:31-32 | `int(m.get(key, default))`: the default when the key is absent, an integer as it is, and text as `int()` parses it, none where `int()` raises |
| Registry.ServiceFromDictDefaults | svcindex/registry.py:22-47 | A document with only a name loads as that stripped name with every default: type `other`, empty url, description and tags, mode `none`, no target, interval 30, timeout 2 |
| Registry.IntervalText | svcindex/registry.py:31 | An interval written as the text of an integer loads as that integer |
| Registry.LoadNormalIsIdentity | svcindex/registry.py:22-47 | A normal definition written out as a document loads back as itself |
| Registry.LoadIdempotent | svcindex/registry.py:22-47 | Loading a loaded definition again changes nothing |
| Registry.SingleTagText | svcindex/registry.py:35-38 | A single string under `tags` becomes one stripped tag, or none when blank |
| DockerDiscovery.SplitTags | svcindex/docker_discovery.py:60-64 | No value or an empty value gives no tags; every tag produced is non-empty, stripped and free of commas |
| DockerDiscovery.SplitTagsOfJoin | svcindex/docker_discovery.py:63-64 | Clean tags joined with commas split back into the same tags, in order |
| DockerDiscovery.TrimSlashes | svcindex/docker_discovery.py:39 | `lstrip("/")` leaves a suffix of the text that does not start with a slash, and what it removed is all slashes |
| DockerDiscovery.ContainerServiceName | svcindex/docker_discovery.py:39 | The `svcindex.name` label when non-empty; else the container name without leading slashes when that is non-empty; else the first 12 characters of the id |
| DockerDiscovery.LabelDefinition | svcindex/docker_discovery.py:32-56 | A container contributes a definition exactly when its inspection succeeded and its `svcindex.enable` label is truthy (a missing label reads as `false`). The definition has the container's service name; type and mode from their labels stripped and lower-cased, defaulting to `docker` and `none` when missing or empty; url and description from their labels or empty; tags split from `svcindex.tags`; target from `svcindex.monitor.target` when present; interval 30 and timeout 2 |
| DockerDiscovery.LabelDefinitionDefaults | svcindex/docker_discovery.py:39-53 | An enabled container with no other `svcindex.` label and only slashes as its name is listed under the first 12 characters of its id with type `docker` and every other default |
| DockerDiscovery.LabelDefinitionNormalised | svcindex/docker_discovery.py:43-52 | A label definition's type and monitor mode are stripped and lower-cased, its tags are clean, and its interval and timeout are the defaults 30 and 2 |
| DockerDiscovery.DiscoveredSkips | svcindex/docker_discovery.py:31-56 | A container whose inspection failed, or that is not enabled, is skipped without changing what the other containers give |
| DockerDiscovery.DiscoverFromLabels | svcindex/docker_discovery.py:21-58 | No definitions when Docker is unavailable or listing fails; otherwise the definitions of the listed containers in listing order, skipping the ones that contribute none |
| Checks.HttpVerdict | svcindex/checks.py:45-63 | After a GET the latency is always set. The status is passing exactly when the response code is in [200, 400), and failing otherwise. The detail is `HTTP <code>` after a response and `HTTP error: <exception>` after a raise |
| Checks.TcpVerdict | svcindex/checks.py:65-97 | No colon: failing with "TCP target must be host:port" and no latency. A port `int()` rejects: failing with "TCP port invalid" and no latency. Otherwise one connection to the host and port around the last colon, whose latency is kept: passing with "TCP connect ok" when it succeeds, failing with `TCP error: <exception>` when it raises |
| Checks.Probe | svcindex/checks.py:11-43 | Mode `none` gives unmonitored; http or tcp without a target gives the "missing target" failure; an unknown mode gives unknown with the mode named; http or tcp with a target gives the HTTP or TCP verdict of that target. Latency is set exactly when the network is reached, and only a reached network can pass |
| Checks.NoNetworkWithoutAttempt | svcindex/checks.py:11-43 | A check that does not reach the network gives the same result whatever the network would answer |
| Checks.HttpPassesOnSuccessCodes | svcindex/checks.py:51-56 | An HTTP check with a target passes exactly on a response code in [200, 400), and the detail names that code |
| Checks.TcpConnectsToTarget | svcindex/checks.py:74-76 | A `host:port` target is split at its last colon, so the TCP check connects to exactly that host and port, even when the host contains colons |
| Checks.CheckService | svcindex/checks.py:11-43 | The record's status, detail and latency become the probe's verdict, and its check time becomes the clock reading. The definition cannot change |
| Checks.CheckHttp | svcindex/checks.py:45-63 | The record holds the verdict of one GET of its target, and the time of the check |
| Checks.CheckTcp | svcindex/checks.py:65-97 | The record holds the verdict of validating `host:port` and of at most one connection, and the time of the check |
| Strings.ParseIntOfIntToString | svcindex/checks.py:74-76 | `int(str(n)) == n` for every integer, which the port round trips rely on |
| Strings.Truncate | svcindex/main.py:169 | `s[:120]`: the text itself when it has at most 120 characters, otherwise its first 120 characters |
| ConsulClient.ConsulAgent.SelfCheck | svcindex/consul_sync.py:32-35 | The liveness request succeeds exactly when the agent is reachable |
| ConsulClient.ConsulAgent.ListServices | svcindex/consul_sync.py:57-60 | `None` exactly when the listing raises; otherwise each registered id once, and nothing else |
| ConsulClient.ConsulAgent.Register | svcindex/consul_client.py:40-50 | The request is logged. On success the id's registration is created or replaced; when the request raises, the registrations are unchanged |
| ConsulClient.ConsulAgent.Deregister | svcindex/consul_client.py:52-53 | The request is logged. On success the id is removed; when the request raises, the registrations are unchanged |
| ConsulSync.HostPort | svcindex/consul_sync.py:95 | The host-and-port part is the prefix of the rest of the URL up to its first slash, and all of it when there is no slash |
| ConsulSync.GuessPort | svcindex/consul_sync.py:87-101 | A URL that starts with neither `http://` nor `https://` (the empty URL included) gives no port |
| ConsulSync.GuessPortOfRest | svcindex/consul_sync.py:94-98 | For an http(s) URL: `int()` of the text after the last colon of the part before the first slash, or 443 for https and 80 for http when that part has no colon |
| ConsulSync.GuessPortReadsAfterColon | svcindex/consul_sync.py:94-97 | What follows the colon goes to `int()` unchanged, so a port `int()` rejects gives no port |
| ConsulSync.GuessPortExplicit | svcindex/consul_sync.py:94-97 | `scheme://host:<n>/path` gives port n, for every integer n, either scheme and any path |
| ConsulSync.GuessPortDefault | svcindex/consul_sync.py:98 | `scheme://host/path` without a port gives 443 for https and 80 for http |
| ConsulSync.PortOf | svcindex/consul_sync.py:49 | `_guess_port(url) or 0`: no port reads as 0, otherwise the guessed port |
| ConsulSync.BuildChecks | svcindex/consul_sync.py:103-127 | At most one check. There is one exactly when the lower-cased mode is http or tcp and the target is set; it is named `svcindex <mode> <id>`, its target sits under HTTP or TCP by mode, and interval and timeout read `<n>s` |
| ConsulSync.RegisteredTags | svcindex/consul_sync.py:43-46 | The record's own tags come first, in order, followed by three more |
| ConsulSync.ServiceIdInjective | svcindex/consul_sync.py:41 | On one node, two names with the same id are the same name |
| ConsulSync.DesiredIds | svcindex/consul_sync.py:38-54 | Each wanted registration's id is `<node>::<its name>`, and the wanted ids are exactly the ids of the records |
| ConsulSync.DesiredNamesDistinct | svcindex/consul_sync.py:38-54 | Records sharing a name collapse: no two wanted registrations have the same name |
| ConsulSync.DesiredCoversNames | svcindex/consul_sync.py:38-54 | Every record's name has a wanted registration |
| ConsulSync.DesiredLastWins | svcindex/consul_sync.py:38-54 | Each wanted registration is built from a record that no later record with the same name follows |
| ConsulSync.WantedIds | svcindex/consul_sync.py:38-54 | The first loop's dict holds exactly the wanted registrations, keyed by id, in the order their ids first appear |
| ConsulSync.FirstRejected | svcindex/consul_sync.py:62-73 | The position of the first registration whose request raises: every earlier one succeeds, and it is the end of the list when none raises |
| ConsulSync.RegisterWanted | svcindex/consul_sync.py:62-73 | Registrations are sent in order. When one raises, the loop stops there: that id is reported, only the earlier registrations are applied, and the request log ends with the raising request. Otherwise all are applied and logged |
| ConsulSync.StaleIdsMembers | svcindex/consul_sync.py:75-78 | An id is deregistered exactly when it is listed, carries `<node>::`, and is not wanted |
| ConsulSync.AcceptedMembers | svcindex/consul_sync.py:79-83 | An id is counted exactly when its deregistration is requested and does not raise |
| ConsulSync.DeregisterStale | svcindex/consul_sync.py:75-83 | Deregistrations are requested for the stale listed ids, in listing order. Exactly those that do not raise are removed, and the count is their number |
| ConsulSync.StaleIdsOnce | svcindex/consul_sync.py:75-83 | With each id listed once, each stale id is requested once, and the count is the number of stale ids whose request does not raise |
| ConsulSync.UpsertedKeepsOthers | svcindex/consul_sync.py:62-73 | Registering never changes an id that none of the registrations carries |
| ConsulSync.UpsertedHolds | svcindex/consul_sync.py:62-73 | After registrations with distinct ids, each id holds its own registration |
| ConsulSync.SyncKeepsWanted | svcindex/consul_sync.py:62-85 | After a completed sync, every wanted registration is in place; deregistration never removes a wanted id |
| ConsulSync.SyncLeavesOtherNodes | svcindex/consul_sync.py:75-83 | A completed sync leaves an id without this node's prefix exactly as it was |
| ConsulSync.SyncRemovesStale | svcindex/consul_sync.py:57-83 | After a completed sync, a stale id of this node remains exactly when it was there and was either not listed (a failed listing lists nothing) or its deregistration raised |
| ConsulSync.Reconcile | svcindex/consul_sync.py:37-85 | The sync after the liveness check. Listing is empty when it fails. If a registration raises, the outcome is that id, with only the earlier registrations applied and no deregistration. Otherwise all wanted entries are registered, then the stale listed ids are deregistered; the outcome counts the wanted ids and the deregistrations that did not raise, and the request log shows all registrations before all deregistrations |
| ConsulSync.SyncServicesToLocalConsul | svcindex/consul_sync.py:20-85 | An unreachable agent gives `(0, 0)` and receives no request and no change. A reachable one gets `Reconcile`'s outcome, state and requests |
| Agent.Discover | svcindex/main.py:45-53 | Files first, then labels when Docker is on, reduced by name as the dict does. No two results share a name |
| Collections.CollapseCovers | svcindex/main.py:50-53 | Every name of the input appears among the de-duplicated records |
| Collections.CollapseLastWins | svcindex/main.py:50-53 | Each de-duplicated record is an input record that no later input record with the same name follows |
| Collections.CollapseOrder | svcindex/main.py:50-53 | De-duplicated records come in the order their names first appear |
| Hub.TagValue | svcindex/main.py:173-178 | The empty text when no tag starts with `<key>=` |
| Hub.TagValueFirst | svcindex/main.py:173-178 | Otherwise, the rest of the first tag that starts with `<key>=` |
| Hub.TagsReadBack | svcindex/main.py:148-150 | The hub reads back the type and the monitor mode from the tags the agent registers, unless the record's own tags already carry those keys |
| Hub.GuessUrl | svcindex/main.py:180-188 | A metadata url wins. With no metadata url, an empty address or a zero port gives the empty url, and otherwise `http://<address>:<port>` |
| Hub.GuessUrlPortRoundTrip | svcindex/main.py:186-187 | A url guessed from an address without slashes and a non-zero port gives that port back to the agent's port guess |
| Hub.FailingChecks | svcindex/main.py:139 | There are no failing checks exactly when every check's status is `passing` |
| Hub.FailDetail | svcindex/main.py:142 | A failing check's detail is never empty |
| Hub.Health | svcindex/main.py:134-145 | Unknown with "No checks" exactly when there are no checks. Failing exactly when some check does not pass. Passing with "passing" exactly when there are checks and all pass |
| Hub.HealthFirstFailing | svcindex/main.py:138-142 | A failure's detail comes from the first failing check |
| Hub.Override | svcindex/main.py:152-156 | A failing instance, or one whose mode is not `none`, is unchanged. Otherwise the status becomes unmonitored, and the detail becomes "No monitoring configured" exactly when it was "passing" or "No checks", staying as it was otherwise |
| Hub.InstanceRecord | svcindex/main.py:127-170 | The record is named `<service> @ <node>` (node `unknown` when absent) and its detail has at most 120 characters. Failing exactly when some check fails. Passing exactly when there are checks, all pass, and the mode is not `none`. Unmonitored exactly when the mode is `none` and no check fails. Mode and type are never empty |
| Hub.InstanceRecordFields | svcindex/main.py:127-169 | Each field of an instance's record by value: the instance's tags (else the catalog's), mode from the `monitor=` tag or `none`, type from the `type=` tag or `other`, the url guessed from the metadata, the service address or else the node address, and the port, the metadata description, and the status and the first 120 characters of the detail after the override |
| Hub.NoChecksUnmonitored | svcindex/main.py:135-156 | An instance with no checks and no `monitor=` tag shows unmonitored with "No monitoring configured" |
| Hub.InstancesOf | svcindex/main.py:120-127 | A service whose health request raised contributes no records; otherwise one per instance |
| Hub.InstancesOfAt | svcindex/main.py:127-170 | The i-th record of a service is the record of its i-th instance |
| Hub.HubRecords | svcindex/main.py:114-120 | A catalog request that raised gives no records; otherwise the records of every catalog service, concatenated in catalog order |
| Hub.AllInstancesConcat | svcindex/main.py:120-170 | The records of two catalogs listed one after the other are the records of the first followed by those of the second |
| Hub.AllInstancesFrom | svcindex/main.py:120-170 | Every record the hub shows is the record of some instance of some catalog service, under that service's name and catalog tags |
| Hub.NewRecord | svcindex/main.py:160-169 | A fresh record object showing the derived definition, status and detail, with no latency |
| Hub.RecordInstances | svcindex/main.py:121-170 | For one catalog service: fresh record objects, one per instance in listing order, each showing that instance's record |
| Hub.DiscoverFromConsul | svcindex/main.py:112-171 | Fresh record objects, one per instance, in catalog order then instance order, each showing what `HubRecords` derives |
| Sorting.SortByCorrect | svcindex/webapp.py:28 | The sort gives a permutation of its input, ascending by key |
| Sorting.SortByStable | svcindex/webapp.py:28 | The sort is stable: elements with equal keys keep their relative order |
| WebApp.GroupsByFirstKey | svcindex/webapp.py:23-28 | No two groups share a key; every group's key is carried by some service, and every key a service carries has a group; each group holds that key's services sorted by name |
| WebApp.GroupsInFirstKeyOrder | svcindex/webapp.py:23-25 | Before sorting, the dict's groups come in the order their keys first appear among the services |
| WebApp.BucketsHoldWithKey | svcindex/webapp.py:23-25 | After the first loop, the dict has a list for exactly the keys the services carry, holding that key's services in order |
| WebApp.FillGroups | svcindex/webapp.py:23-25 | The first loop leaves the key order of first appearance and the per-key lists |
| WebApp.SortEach | svcindex/webapp.py:27-28 | The second loop sorts every group's list by lower-cased name and keeps the same keys |
| WebApp.Index | svcindex/webapp.py:21-36 | The page's groups are the grouped, sorted services, the groups sorted by key |
| WebApp.GroupsAscending | svcindex/webapp.py:36 | Groups come in strictly ascending key order, so no key appears twice |
| WebApp.GroupsContents | svcindex/webapp.py:22-36 | Each group holds exactly its key's services sorted by name, and there is a group for exactly the keys the services carry (type, or `other` when empty) |
| WebApp.GroupsPartition | svcindex/webapp.py:23-25 | A service appears in its own key's group as often as it is listed, and in no other group |
| WebApp.GroupSortedStable | svcindex/webapp.py:27-28 | Within a group, services ascend by lower-cased name, and services with the same lower-cased name keep their listed order |
| WebApp.Healthz | svcindex/webapp.py:40-42 | `/healthz` reports ok and the mode. It receives no services, so it cannot read or change them |

## Left out

- Network I/O is left out: the `requests` calls, `socket.create_connection` and `get_json`/`put_json`. Their outcomes are parameters: oracle functions for the probe and the hub, and constant fields of `ConsulAgent` for the sync. The register payload's `Checks` key, omitted when empty, appears as an empty `checks` sequence.
- `_local_ip_guess` is out because it uses a UDP socket. The sync takes the advertised address as a parameter.
- `consul_base` and `consul_addr()` are out because they only choose the URL of the requests. The hub's Consul address likewise only chooses where requests go.
- Threads, the lock, the `refresh_loop`s and `time.sleep` in `run_agent`/`run_hub` are out. This covers calling `check_service` on each discovered record and swallowing a sync exception. They are scheduling, not logic. `SyncOutcome.Raised` stands for the exception that the agent loop swallows.
- Time and floats are out. `now_ts()` is a parameter stored as the check time. Latency is the natural number the network oracle reports, so the float-to-millisecond arithmetic is not modelled.
- Flask, `render_template`, `app.run` and argparse are out. `Index` returns the groups that the page receives; the title, host and clock passed to the template are not modelled.
- YAML loading, globbing and the `docker` subprocesses are out. The parsed document and the `docker ps`/`docker inspect` results are parameters. A failed inspection or parse is `inspection == None`.
- Environment variables and `socket.gethostname` are out. `EnvBool` takes the variable's value; the node name is a parameter.
- `str.lower` is ASCII only.
- `int()` accepts ASCII digits only. It does accept Python's whitespace, one sign and single underscores.
- Registry.ServiceFromDict takes the text fields after `str(v)`, and the interval and timeout as either an integer or text handed to `int()`. YAML nulls inside a present key (which `str` turns into `"None"` and `int()` rejects with a `TypeError`), floats (which `int()` truncates), booleans and non-string tag items are not modelled separately. A `monitor` mapping that is present but empty is the same as an absent one.
- Registry.ServiceFromDict writes the rejected text between single quotes. CPython writes its `repr`, cut to 200 characters, so the message differs for text holding a quote, a backslash or an unprintable character, and for text longer than 198 characters.
- Checks.TcpVerdict: a port outside 0..65535 is handed to the `tcp` oracle like any other. The socket layer's refusal of such a port (an `OverflowError`, reported as `TCP error: OverflowError`) is part of the oracle's answer, not of the model.
- ConsulClient.ConsulAgent.Register takes a request that raises to have had no effect on the registrations. A request that times out after the agent applied it is not modelled.
- ConsulClient.ConsulAgent.Deregister likewise takes a raising request to have removed nothing.
- Hub.TagValue assumes every tag is text, so `_tag_value`'s `isinstance` test is always true. `Meta` values are taken as text, so `_guess_url`'s `isinstance(meta, dict)` test is always true.
- Hub.InstanceRecord: `main.py:147-156` mixes tabs and spaces, which CPython 3 rejects. The model uses the evident per-instance nesting: tags and mode are read, and the override applied, for each instance after its status. Setting `s.monitor.mode` after construction is folded into the constructed definition.
- ConsulSync.Reconcile follows the code where a failing registration is described as isolated to its entry. `register_service` is called outside any `try`, so its exception ends the sync before any deregistration, and the count is never returned.
- ConsulSync.Reconcile returns the agent's listing as a ghost value (`listed`) because the order of that dict is the agent's. The contract pins down its contents (each registered id once, or nothing when listing fails), not its order.
- ConsulSync.RegisteredTags states only the kept prefix and the length. Hub.TagsReadBack states what the three added tags carry, as the hub reads them.
- Collapse, the list-level reading of `list(by.values())`, is one function shared by `Agent.Discover` and `ConsulSync.WantedIds`. Each of those methods fills its dict in a loop and is proved equal to it.
- The loops of `sync_services_to_local_consul`, `discover_from_consul` and `index` are separate methods: WantedIds, RegisterWanted and DeregisterStale; RecordInstances and NewRecord; FillGroups and SortEach. Each called in order has the effect of the one Python function.
- WebApp.Healthz's contract can only say what it returns; that it never touches the services is by construction.
