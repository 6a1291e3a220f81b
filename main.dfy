/** The agent's discovery step: the records read from files and, when
    enabled, from container labels, reduced to one record per name with
    the later record winning. Reading the files and the containers is
    passed in as the two lists. */
module Agent {
  import opened Collections
  import opened Util

  /** The dict key of `discover`: the record's name. */
  function NameOf(s: Service): string {
    s.def.name
  }

  /** The list `discover` de-duplicates: file records, then label records
      when Docker discovery is on. */
  function Items(files: seq<Service>, labelled: seq<Service>, docker: bool): seq<Service> {
    files + (if docker then labelled else [])
  }

  /** `discover`: `by[s.name] = s` for every item, then `list(by.values())`.
      One record per name, in the order the names first appear, each the
      last item carrying that name. */
  method Discover(files: seq<Service>, labelled: seq<Service>, docker: bool) returns (r: seq<Service>)
    ensures r == Collapse(Items(files, labelled, docker), NameOf)
    ensures forall a, b :: 0 <= a < b < |r| ==> NameOf(r[a]) != NameOf(r[b])
  {
    var items := Items(files, labelled, docker);
    var byName: map<string, Service> := map[];
    var order: seq<string> := [];
    var i := 0;
    while i < |items|
      invariant 0 <= i <= |items|
      invariant order == FirstKeys(items[..i], NameOf)
      invariant byName == ByKey(items[..i], NameOf)
    {
      var s := items[i];
      PrefixStep(items, i);
      FirstKeysStep(items[..i], NameOf, s);
      ByKeyStep(items[..i], NameOf, s);
      if s.def.name !in byName {
        order := order + [s.def.name];
      }
      byName := byName[s.def.name := s];
      i := i + 1;
    }
    assert items[..i] == items;
    CollapseLookup(items, NameOf);
    r := seq(|order|, k requires 0 <= k < |order| => byName[order[k]]);
  }
}

/** The hub's view of the catalog: one record per service instance, its
    status derived from the instance's checks and its monitor mode read
    from its tags. The catalog listing and the per-service health listing
    are passed in; `None` stands for a request that raised. */
module Hub {
  import opened Wrappers
  import opened Strings
  import opened Util
  import opened Collections
  import ConsulSync

  /** One entry of a health check list: `str(Status)`, and the `Output`
      and `CheckID` texts, empty when absent. */
  datatype HealthCheck = HealthCheck(status: string, output: string, checkId: string)

  /** One instance of a service as the health endpoint lists it. Absent
      texts are empty; `node` is `None` when the node has no name. */
  datatype Instance = Instance(
    node: Option<string>,
    nodeAddress: string,
    address: string,
    port: int,
    tags: seq<string>,
    metaUrl: string,
    description: string,
    checks: seq<HealthCheck>)

  /** A catalog entry: a service name and its catalog tags. */
  datatype CatalogService = CatalogService(name: string, tags: seq<string>)

  /** What the hub builds for an instance: the record's definition, its
      status and its detail. */
  datatype HubRecord = HubRecord(def: Definition, status: Status, detail: string)

  /** `_tag_value`: the rest of the first tag that starts with `key=`,
      or the empty text. */
  function TagValue(tags: seq<string>, key: string): (v: string)
    ensures (forall i :: 0 <= i < |tags| ==> !StartsWith(tags[i], key + "=")) ==> v == ""
  {
    if tags == [] then ""
    else if StartsWith(tags[0], key + "=") then tags[0][|key| + 1..]
    else TagValue(tags[1..], key)
  }

  /** The first tag with the prefix decides the value. */
  lemma {:induction false} TagValueFirst(tags: seq<string>, key: string, i: nat)
    requires i < |tags| && StartsWith(tags[i], key + "=")
    requires forall j :: 0 <= j < i ==> !StartsWith(tags[j], key + "=")
    ensures TagValue(tags, key) == tags[i][|key| + 1..]
  {
    if i > 0 {
      TagValueFirst(tags[1..], key, i - 1);
    }
  }

  /** `_guess_url`: the url the instance's metadata gives, else
      `http://addr:port` when both are set, else nothing. */
  function GuessUrl(metaUrl: string, addr: string, port: int): (u: string)
    ensures metaUrl != "" ==> u == metaUrl
    ensures metaUrl == "" && (addr == "" || port == 0) ==> u == ""
    ensures metaUrl == "" && addr != "" && port != 0 ==> u == "http://" + addr + ":" + IntToString(port)
  {
    if metaUrl != "" then metaUrl
    else if addr != "" && port != 0 then "http://" + addr + ":" + IntToString(port)
    else ""
  }

  /** The checks whose status is not `passing`, in order. */
  function FailingChecks(checks: seq<HealthCheck>): (r: seq<HealthCheck>)
    ensures r == [] <==> forall k :: 0 <= k < |checks| ==> checks[k].status == "passing"
  {
    if checks == [] then []
    else
      (if checks[0].status != "passing" then [checks[0]] else []) + FailingChecks(checks[1..])
  }

  /** The detail of a failing check: its output, else its id, else a
      fixed text. */
  function FailDetail(c: HealthCheck): (d: string)
    ensures d != ""
  {
    if c.output != "" then c.output
    else if c.checkId != "" then c.checkId
    else "check failing"
  }

  /** The status and detail derived from an instance's checks. */
  function Health(checks: seq<HealthCheck>): (r: (Status, string))
    ensures r.0 == Unknown <==> checks == []
    ensures r.0 == Passing <==> checks != [] && forall k :: 0 <= k < |checks| ==> checks[k].status == "passing"
    ensures r.0 == Failing <==> exists k :: 0 <= k < |checks| && checks[k].status != "passing"
    ensures r.0 == Unknown ==> r.1 == "No checks"
    ensures r.0 == Passing ==> r.1 == "passing"
  {
    if checks == [] then (Unknown, "No checks")
    else
      var failing := FailingChecks(checks);
      if failing != [] then (Failing, FailDetail(failing[0])) else (Passing, "passing")
  }

  /** The first failing check gives the detail. */
  lemma {:induction false} HealthFirstFailing(checks: seq<HealthCheck>, i: nat)
    requires i < |checks| && checks[i].status != "passing"
    requires forall j :: 0 <= j < i ==> checks[j].status == "passing"
    ensures Health(checks) == (Failing, FailDetail(checks[i]))
    ensures FailingChecks(checks)[0] == checks[i]
  {
    if i > 0 {
      HealthFirstFailing(checks[1..], i - 1);
    }
  }

  /** The `monitor=none` override: an unmonitored instance that is not
      failing shows as unmonitored. */
  function Override(mode: string, status: Status, detail: string): (r: (Status, string))
    ensures status == Failing || mode != "none" ==> r == (status, detail)
    ensures mode == "none" && status != Failing ==> r.0 == Unmonitored
    ensures mode == "none" && status != Failing && (detail == "passing" || detail == "No checks") ==>
      r.1 == "No monitoring configured"
    ensures !(mode == "none" && status != Failing && (detail == "passing" || detail == "No checks")) ==>
      r.1 == detail
  {
    if mode == "none" && status != Failing then
      (Unmonitored, if detail == "passing" || detail == "No checks" then "No monitoring configured" else detail)
    else (status, detail)
  }

  /** The tags an instance is read with: its own, else the catalog's. */
  function TagList(own: seq<string>, catalog: seq<string>): seq<string> {
    if own != [] then own else catalog
  }

  /** `_tag_value(...) or default`. */
  function TagOr(tags: seq<string>, key: string, default: string): string {
    var v := TagValue(tags, key);
    if v != "" then v else default
  }

  /** The record the hub builds for one instance of `name`. */
  function InstanceRecord(name: string, catalogTags: seq<string>, e: Instance): (r: HubRecord)
    ensures r.def.name == name + " @ " + (if e.node.Some? then e.node.value else "unknown")
    ensures |r.detail| <= 120
    ensures r.status == Failing <==> exists k :: 0 <= k < |e.checks| && e.checks[k].status != "passing"
    ensures r.status == Passing <==>
      && e.checks != []
      && (forall k :: 0 <= k < |e.checks| ==> e.checks[k].status == "passing")
      && r.def.monitor.mode != "none"
    ensures r.status == Unmonitored <==>
      r.def.monitor.mode == "none" && forall k :: 0 <= k < |e.checks| ==> e.checks[k].status == "passing"
    ensures r.def.monitor.mode != "" && r.def.kind != ""
  {
    var tags := TagList(e.tags, catalogTags);
    var mode := TagOr(tags, "monitor", "none");
    var kind := TagOr(tags, "type", "other");
    var health := Health(e.checks);
    var shown := Override(mode, health.0, health.1);
    var node := e.node.GetOr("unknown");
    var addr := if e.address != "" then e.address else e.nodeAddress;
    var def := Definition(
      name := name + " @ " + node,
      kind := kind,
      url := GuessUrl(e.metaUrl, addr, e.port),
      description := e.description,
      tags := tags,
      monitor := Monitor(mode := mode));
    HubRecord(def, shown.0, Truncate(shown.1, 120))
  }

  /** Each field of an instance's record: the tags it is read with (its
      own, else the catalog's), the mode and type read from them with their
      defaults, the guessed url, the description, and the checks' health
      after the `monitor=none` override, its detail cut to 120 characters. */
  lemma InstanceRecordFields(name: string, catalogTags: seq<string>, e: Instance)
    ensures var r := InstanceRecord(name, catalogTags, e);
      var h := Health(e.checks);
      && r.def.tags == TagList(e.tags, catalogTags)
      && r.def.monitor.mode == TagOr(r.def.tags, "monitor", "none")
      && r.def.kind == TagOr(r.def.tags, "type", "other")
      && r.def.url == GuessUrl(e.metaUrl, if e.address != "" then e.address else e.nodeAddress, e.port)
      && r.def.description == e.description
      && r.status == Override(r.def.monitor.mode, h.0, h.1).0
      && r.detail == Truncate(Override(r.def.monitor.mode, h.0, h.1).1, 120)
  {
  }

  /** The records for one catalog service: none when its health request
      raised. */
  function InstancesOf(s: CatalogService, health: string -> Option<seq<Instance>>): (r: seq<HubRecord>)
    ensures health(s.name).None? ==> r == []
    ensures health(s.name).Some? ==> |r| == |health(s.name).value|
  {
    match health(s.name)
    case None => []
    case Some(entries) => seq(|entries|, i requires 0 <= i < |entries| => InstanceRecord(s.name, s.tags, entries[i]))
  }

  /** The record at position `i` of a service's records is that of its
      `i`-th listed instance. */
  lemma InstancesOfAt(s: CatalogService, health: string -> Option<seq<Instance>>, i: nat)
    requires health(s.name).Some? && i < |health(s.name).value|
    ensures InstancesOf(s, health)[i] == InstanceRecord(s.name, s.tags, health(s.name).value[i])
  {
  }

  /** The records of each catalog service, given its health listing. */
  function RecordsOf(health: string -> Option<seq<Instance>>): CatalogService -> seq<HubRecord> {
    c => InstancesOf(c, health)
  }

  /** The records for the catalog services, in catalog order. */
  function AllInstances(catalog: seq<CatalogService>, health: string -> Option<seq<Instance>>): seq<HubRecord> {
    Flat(catalog, RecordsOf(health))
  }

  /** `discover_from_consul` as a value: nothing when the catalog request
      raised. */
  function HubRecords(catalog: Option<seq<CatalogService>>, health: string -> Option<seq<Instance>>): (r: seq<HubRecord>)
    ensures catalog.None? ==> r == []
    ensures catalog.Some? ==> r == AllInstances(catalog.value, health)
  {
    match catalog
    case None => []
    case Some(services) => AllInstances(services, health)
  }

  /** The records of a catalog are those of its first part, then those of
      the rest: catalog order is kept. */
  lemma AllInstancesConcat(a: seq<CatalogService>, b: seq<CatalogService>,
                            health: string -> Option<seq<Instance>>)
    ensures AllInstances(a + b, health) == AllInstances(a, health) + AllInstances(b, health)
  {
    FlatConcat(a, b, RecordsOf(health));
  }

  /** Every hub record is the record of one listed instance of one
      catalog service. */
  lemma {:induction false} AllInstancesFrom(catalog: seq<CatalogService>, health: string -> Option<seq<Instance>>, k: nat)
    requires k < |AllInstances(catalog, health)|
    ensures exists i, j ::
      (0 <= i < |catalog| && health(catalog[i].name).Some? && 0 <= j < |health(catalog[i].name).value| &&
       AllInstances(catalog, health)[k] == InstanceRecord(catalog[i].name, catalog[i].tags, health(catalog[i].name).value[j]))
  {
    var p := catalog[..|catalog| - 1];
    var last := catalog[|catalog| - 1];
    if k < |AllInstances(p, health)| {
      AllInstancesFrom(p, health, k);
      var i, j :| 0 <= i < |p| && health(p[i].name).Some? && 0 <= j < |health(p[i].name).value| &&
        AllInstances(p, health)[k] == InstanceRecord(p[i].name, p[i].tags, health(p[i].name).value[j]);
      assert catalog[i] == p[i];
    } else {
      var j := k - |AllInstances(p, health)|;
      assert catalog[|catalog| - 1] == last;
      assert AllInstances(catalog, health)[k] == InstancesOf(last, health)[j];
    }
  }

  /** An instance with no checks and no `monitor=` tag shows as
      unmonitored, with "No monitoring configured". */
  lemma NoChecksUnmonitored(name: string, catalogTags: seq<string>, e: Instance)
    requires e.checks == []
    requires forall i :: 0 <= i < |TagList(e.tags, catalogTags)| ==> !StartsWith(TagList(e.tags, catalogTags)[i], "monitor=")
    ensures InstanceRecord(name, catalogTags, e).status == Unmonitored
    ensures InstanceRecord(name, catalogTags, e).detail == "No monitoring configured"
  {
  }

  /** What a record object shows. */
  function Shown(s: Service): HubRecord
    reads s
  {
    HubRecord(s.def, s.status, s.detail)
  }

  lemma AllInstancesStep(catalog: seq<CatalogService>, health: string -> Option<seq<Instance>>, i: nat)
    requires i < |catalog|
    ensures AllInstances(catalog[..i + 1], health) == AllInstances(catalog[..i], health) + InstancesOf(catalog[i], health)
  {
    assert catalog[..i + 1][..i] == catalog[..i];
  }

  /** The record objects `out` show the records `recs`, one for one. */
  ghost predicate Shows(out: seq<Service>, recs: seq<HubRecord>)
    reads set k | 0 <= k < |out| :: out[k]
  {
    |out| == |recs| && forall k :: 0 <= k < |out| ==> Shown(out[k]) == recs[k]
  }

  lemma ShowsConcat(a: seq<Service>, ra: seq<HubRecord>, b: seq<Service>, rb: seq<HubRecord>)
    requires Shows(a, ra) && Shows(b, rb)
    ensures Shows(a + b, ra + rb)
  {
  }

  /** A new record object built from the definition, with the status and
      detail the hub assigned. */
  method NewRecord(rec: HubRecord) returns (record: Service)
    ensures fresh(record) && record.latencyMs == None
    ensures Shown(record) == rec
  {
    record := new Service(rec.def);
    record.status := rec.status;
    record.detail := rec.detail;
  }

  /** One pass of the outer loop of `discover_from_consul`: the health
      request for one catalog service (no instances when it raised), then
      a new record object for each instance, in listing order. */
  method RecordInstances(s: CatalogService, health: string -> Option<seq<Instance>>) returns (out: seq<Service>)
    ensures forall k :: 0 <= k < |out| ==> fresh(out[k]) && out[k].latencyMs == None
    ensures Shows(out, InstancesOf(s, health))
  {
    var entries := health(s.name);
    var es := if entries.None? then [] else entries.value;
    ghost var want := InstancesOf(s, health);
    out := [];
    var j := 0;
    while j < |es|
      invariant 0 <= j <= |es| == |want|
      invariant |out| == j
      invariant forall k :: 0 <= k < j ==> fresh(out[k]) && out[k].latencyMs == None
      invariant Shows(out, want[..j])
    {
      var record := NewRecord(InstanceRecord(s.name, s.tags, es[j]));
      InstancesOfAt(s, health, j);
      ShowsConcat(out, want[..j], [record], [want[j]]);
      PrefixStep(want, j);
      out := out + [record];
      j := j + 1;
    }
    assert want[..j] == want;
  }

  /** `discover_from_consul`: a new record object per instance, in
      catalog order, each showing what `HubRecords` says. */
  method DiscoverFromConsul(catalog: Option<seq<CatalogService>>, health: string -> Option<seq<Instance>>)
    returns (out: seq<Service>)
    ensures |out| == |HubRecords(catalog, health)|
    ensures forall k :: 0 <= k < |out| ==> fresh(out[k]) && out[k].latencyMs == None
    ensures forall k :: 0 <= k < |out| ==> Shown(out[k]) == HubRecords(catalog, health)[k]
  {
    out := [];
    if catalog.None? {
      return;
    }
    var services := catalog.value;
    var i := 0;
    while i < |services|
      invariant 0 <= i <= |services|
      invariant forall k :: 0 <= k < |out| ==> fresh(out[k]) && out[k].latencyMs == None
      invariant Shows(out, AllInstances(services[..i], health))
    {
      var records := RecordInstances(services[i], health);
      ShowsConcat(out, AllInstances(services[..i], health), records, InstancesOf(services[i], health));
      AllInstancesStep(services, health, i);
      out := out + records;
      i := i + 1;
    }
    assert services[..i] == services;
  }

  /** The registration tags the agent writes are read back by the hub:
      the type and the monitor mode, unless the record's own tags already
      carry those keys. */
  lemma TagsReadBack(d: Definition, node: string)
    requires forall i :: 0 <= i < |d.tags| ==> !StartsWith(d.tags[i], "type=") && !StartsWith(d.tags[i], "monitor=")
    ensures TagValue(ConsulSync.RegisteredTags(d, node), "type") == d.kind
    ensures TagValue(ConsulSync.RegisteredTags(d, node), "monitor") == d.monitor.mode
  {
    var tags := ConsulSync.RegisteredTags(d, node);
    var n := |d.tags|;
    assert tags[n] == "type=" + d.kind && tags[n + 1] == "monitor=" + d.monitor.mode;
    assert StartsWith(tags[n], "type=") && tags[n][5..] == d.kind;
    assert StartsWith(tags[n + 1], "monitor=") && tags[n + 1][8..] == d.monitor.mode;
    assert !StartsWith(tags[n + 1], "type=") by { assert tags[n + 1][0] == 'm'; }
    TagValueFirst(tags, "type", n);
    TagValueFirst(tags, "monitor", n + 1);
  }

  /** The url guessed from an address and port gives that port back to
      the agent's port guess. */
  lemma GuessUrlPortRoundTrip(addr: string, port: int)
    requires addr != "" && '/' !in addr && port != 0
    ensures ConsulSync.GuessPort(GuessUrl("", addr, port)) == Some(port)
  {
    ConsulSync.GuessPortExplicit(false, addr, port, "");
    assert ConsulSync.Scheme(false) + addr + ":" + IntToString(port) + "" == GuessUrl("", addr, port);
  }
}
