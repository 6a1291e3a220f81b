/** Reconciliation of a node's service records with its local Consul agent:
    every record is registered under the id `<node>::<name>`, and ids with
    this node's prefix that no record wants any more are deregistered. */
module ConsulSync {
  import opened Wrappers
  import opened Strings
  import opened Collections
  import opened Util
  import opened ConsulClient

  /** `rest.split("/", 1)[0]`: the text before the first slash. */
  function HostPort(rest: string): (h: string)
    ensures '/' !in h && StartsWith(rest, h)
    ensures '/' !in rest ==> h == rest
    ensures '/' in rest ==> |h| < |rest| && rest[|h|] == '/'
  {
    if '/' in rest then rest[..IndexOf(rest, '/')] else rest
  }

  /** `_guess_port`: the port written in an http(s) URL, the scheme's
      default port when none is written, `None` for other URLs and for a
      port that `int()` rejects. */
  function GuessPort(url: string): (r: Option<int>)
    ensures !StartsWith(url, "http://") && !StartsWith(url, "https://") ==> r == None
  {
    if url == "" then None
    else if StartsWith(url, "http://") || StartsWith(url, "https://") then
      var rest := url[if StartsWith(url, "https://") then 8 else 7..];
      var hostport := HostPort(rest);
      if ':' in hostport then ParseInt(hostport[LastIndexOf(hostport, ':') + 1..])
      else Some(if StartsWith(url, "https://") then 443 else 80)
    else None
  }

  /** The two schemes `_guess_port` reads a port from. */
  function Scheme(secure: bool): string {
    if secure then "https://" else "http://"
  }

  /** The text after the scheme of an http(s) URL. */
  lemma SchemeRest(secure: bool, rest: string)
    ensures StartsWith(Scheme(secure) + rest, "https://") == secure
    ensures StartsWith(Scheme(secure) + rest, "http://") == !secure
    ensures (Scheme(secure) + rest)[|Scheme(secure)|..] == rest
  {
    var url := Scheme(secure) + rest;
    assert url[..|Scheme(secure)|] == Scheme(secure);
    if secure {
      assert url[4] == 's';
    } else {
      assert url[4] == ':';
    }
  }

  /** The host-and-port part ends at the first slash of the path. */
  lemma HostPortOfPath(hostport: string, path: string)
    requires '/' !in hostport
    requires path == [] || path[0] == '/'
    ensures HostPort(hostport + path) == hostport
  {
    if path != [] {
      assert path == ['/'] + path[1..];
      assert hostport + path == hostport + ['/'] + path[1..];
      FirstSeparator(hostport, '/', path[1..]);
    }
  }

  /** What `_guess_port` reads from an http(s) URL: the port after the
      last colon of the host-and-port part, or the scheme's default. */
  lemma GuessPortOfRest(secure: bool, rest: string)
    ensures var hostport := HostPort(rest);
      GuessPort(Scheme(secure) + rest) ==
        if ':' in hostport then ParseInt(hostport[LastIndexOf(hostport, ':') + 1..])
        else Some(if secure then 443 else 80)
  {
    SchemeRest(secure, rest);
  }

  /** With a colon before a text free of colons and slashes, that text is
      what `_guess_port` hands to `int()`. */
  lemma GuessPortReadsAfterColon(secure: bool, host: string, digits: string, path: string)
    requires '/' !in host && '/' !in digits && ':' !in digits
    requires path == [] || path[0] == '/'
    ensures GuessPort(Scheme(secure) + host + ":" + digits + path) == ParseInt(digits)
  {
    var hostport := host + [':'] + digits;
    assert host + ":" + digits == hostport;
    assert Scheme(secure) + host + ":" + digits + path == Scheme(secure) + (hostport + path);
    assert '/' !in hostport by {
      assert forall k :: 0 <= k < |hostport| ==> hostport[k] in host || hostport[k] == ':' || hostport[k] in digits by {
        assert forall k :: 0 <= k < |host| ==> hostport[k] == host[k];
        assert forall k :: |host| < k < |hostport| ==> hostport[k] == digits[k - |host| - 1];
      }
    }
    HostPortOfPath(hostport, path);
    LastSeparator(host, ':', digits);
    GuessPortOfRest(secure, hostport + path);
  }

  /** An explicit port written after the host is the one guessed, for
      either scheme and whatever path follows. */
  lemma GuessPortExplicit(secure: bool, host: string, port: int, path: string)
    requires '/' !in host
    requires path == [] || path[0] == '/'
    ensures GuessPort(Scheme(secure) + host + ":" + IntToString(port) + path) == Some(port)
  {
    IntStringAvoids(port, '/');
    IntStringAvoids(port, ':');
    GuessPortReadsAfterColon(secure, host, IntToString(port), path);
    ParseIntOfIntToString(port);
  }

  /** Without an explicit port the scheme's default port is guessed. */
  lemma GuessPortDefault(secure: bool, host: string, path: string)
    requires '/' !in host && ':' !in host
    requires path == [] || path[0] == '/'
    ensures GuessPort(Scheme(secure) + host + path) == Some(if secure then 443 else 80)
  {
    assert Scheme(secure) + host + path == Scheme(secure) + (host + path);
    GuessPortOfRest(secure, host + path);
    HostPortOfPath(host, path);
  }

  /** `_guess_port(url) or 0`. */
  function PortOf(url: string): (p: int)
    ensures GuessPort(url).None? ==> p == 0
    ensures GuessPort(url).Some? ==> p == GuessPort(url).value
  {
    match GuessPort(url)
    case None => 0
    case Some(p) => p
  }

  /** The id a record is registered under on `node`. */
  function ServiceId(node: string, name: string): string {
    node + "::" + name
  }

  /** `f"{int(n)}s"`. */
  function Seconds(n: int): string {
    IntToString(n) + "s"
  }

  /** `_build_checks`: one agent check for an http or tcp monitor with a
      target, none otherwise. */
  function BuildChecks(m: Monitor, serviceId: string): (r: seq<CheckDef>)
    ensures |r| <= 1
    ensures r != [] <==> NormalMode(m.mode) in {"http", "tcp"} && HasTarget(m)
    ensures r != [] ==>
      && r[0].name == "svcindex " + NormalMode(m.mode) + " " + serviceId
      && r[0].kind == (if NormalMode(m.mode) == "http" then HttpCheck else TcpCheck)
      && r[0].target == m.target.value
      && r[0].interval == Seconds(m.intervalS)
      && r[0].timeout == Seconds(m.timeoutS)
  {
    var mode := NormalMode(m.mode);
    if mode == "none" then []
    else if mode == "http" then
      if !HasTarget(m) then []
      else [CheckDef("svcindex " + mode + " " + serviceId, HttpCheck, m.target.value, Seconds(m.intervalS), Seconds(m.timeoutS))]
    else if mode == "tcp" then
      if !HasTarget(m) then []
      else [CheckDef("svcindex " + mode + " " + serviceId, TcpCheck, m.target.value, Seconds(m.intervalS), Seconds(m.timeoutS))]
    else []
  }

  /** The tags a record is registered with: its own, then its type, its
      monitor mode as written, and the node. */
  function RegisteredTags(d: Definition, node: string): (tags: seq<string>)
    ensures |tags| == |d.tags| + 3 && tags[..|d.tags|] == d.tags
  {
    d.tags + ["type=" + d.kind, "monitor=" + d.monitor.mode, "node=" + node]
  }

  /** The registration built for one record in the first loop of
      `sync_services_to_local_consul`. */
  function RegistrationFor(d: Definition, node: string, addr: string): Registration {
    var id := ServiceId(node, d.name);
    Registration(id, d.name, addr, PortOf(d.url), RegisteredTags(d, node), BuildChecks(d.monitor, id))
  }

  function RegistrationId(r: Registration): string {
    r.id
  }

  function DefinitionName(d: Definition): string {
    d.name
  }

  function Definitions(services: seq<Service>): seq<Definition>
  {
    seq(|services|, i requires 0 <= i < |services| => services[i].def)
  }

  function Registrations(defs: seq<Definition>, node: string, addr: string): seq<Registration>
  {
    seq(|defs|, i requires 0 <= i < |defs| => RegistrationFor(defs[i], node, addr))
  }

  /** The contents of `wanted_ids`, in its iteration order: one
      registration per id, in order of first appearance, the last record
      with that id winning. */
  function Desired(defs: seq<Definition>, node: string, addr: string): seq<Registration> {
    Collapse(Registrations(defs, node, addr), RegistrationId)
  }

  /** On one node, the id determines the name. */
  lemma ServiceIdInjective(node: string, a: string, b: string)
    ensures ServiceId(node, a) == ServiceId(node, b) ==> a == b
  {
    assert ServiceId(node, a)[|node| + 2..] == a;
    assert ServiceId(node, b)[|node| + 2..] == b;
  }

  /** No two wanted registrations share a name. */
  lemma DesiredNamesDistinct(defs: seq<Definition>, node: string, addr: string)
    ensures var desired := Desired(defs, node, addr);
      forall a, b :: 0 <= a < b < |desired| ==> desired[a].name != desired[b].name
  {
    var desired := Desired(defs, node, addr);
    var regs := Registrations(defs, node, addr);
    CollapseLast(regs, RegistrationId);
    forall a, b | 0 <= a < b < |desired|
      ensures desired[a].name != desired[b].name
    {
      var ka := LastIndex(regs, RegistrationId, FirstKeys(regs, RegistrationId)[a]);
      var kb := LastIndex(regs, RegistrationId, FirstKeys(regs, RegistrationId)[b]);
      assert desired[a].id == ServiceId(node, desired[a].name) by { assert desired[a] == regs[ka]; }
      assert desired[b].id == ServiceId(node, desired[b].name) by { assert desired[b] == regs[kb]; }
    }
  }

  /** Every record's name has a wanted registration. */
  lemma DesiredCoversNames(defs: seq<Definition>, node: string, addr: string)
    ensures var desired := Desired(defs, node, addr);
      forall k :: 0 <= k < |defs| ==> exists i :: 0 <= i < |desired| && desired[i].name == defs[k].name
  {
    var desired := Desired(defs, node, addr);
    var regs := Registrations(defs, node, addr);
    var ks := FirstKeys(regs, RegistrationId);
    CollapseLast(regs, RegistrationId);
    forall k | 0 <= k < |defs|
      ensures exists i :: 0 <= i < |desired| && desired[i].name == defs[k].name
    {
      var id := ServiceId(node, defs[k].name);
      assert RegistrationId(regs[k]) == id;
      KeySetMembers(regs, RegistrationId, id);
      var i :| 0 <= i < |ks| && ks[i] == id;
      var j := LastIndex(regs, RegistrationId, id);
      assert desired[i] == regs[j];
      ServiceIdInjective(node, desired[i].name, defs[k].name);
    }
  }

  /** The registration wanted under a name is built from the last record
      with that name: later records win. */
  lemma DesiredLastWins(defs: seq<Definition>, node: string, addr: string)
    ensures var desired := Desired(defs, node, addr);
      forall i :: 0 <= i < |desired| ==>
        exists j :: (0 <= j < |defs| && desired[i] == RegistrationFor(defs[j], node, addr) &&
                     forall k :: j < k < |defs| ==> defs[k].name != desired[i].name)
  {
    var desired := Desired(defs, node, addr);
    var regs := Registrations(defs, node, addr);
    var ks := FirstKeys(regs, RegistrationId);
    CollapseLast(regs, RegistrationId);
    forall i | 0 <= i < |desired|
      ensures exists j :: (0 <= j < |defs| && desired[i] == RegistrationFor(defs[j], node, addr) &&
                           forall k :: j < k < |defs| ==> defs[k].name != desired[i].name)
    {
      var j := LastIndex(regs, RegistrationId, ks[i]);
      assert desired[i] == regs[j];
      forall k | j < k < |defs|
        ensures defs[k].name != desired[i].name
      {
        assert RegistrationId(regs[k]) != ks[i];
      }
    }
  }

  /** The listed ids the second loop deregisters: this node's prefix and
      not wanted. */
  function Stale(current: set<string>, node: string, wanted: set<string>): (s: set<string>)
    ensures s <= current
    ensures forall id :: id in s <==> id in current && StartsWith(id, node + "::") && id !in wanted
  {
    set id | id in current && StartsWith(id, node + "::") && id !in wanted
  }

  /** The agent's registrations after the register requests for `rs`
      have succeeded, in order. */
  function Upserted(m: map<string, Registration>, rs: seq<Registration>): (u: map<string, Registration>)
  {
    if rs == [] then m
    else
      Upserted(m, rs[..|rs| - 1])[rs[|rs| - 1].id := rs[|rs| - 1]]
  }

  function RegisterRequests(rs: seq<Registration>): (q: seq<Request>)
    ensures |q| == |rs| && forall i :: 0 <= i < |rs| ==> q[i] == RegisterRequest(rs[i])
  {
    seq(|rs|, i requires 0 <= i < |rs| => RegisterRequest(rs[i]))
  }

  function DeregisterRequests(ids: seq<string>): (q: seq<Request>)
    ensures |q| == |ids| && forall i :: 0 <= i < |ids| ==> q[i] == DeregisterRequest(ids[i])
  {
    seq(|ids|, i requires 0 <= i < |ids| => DeregisterRequest(ids[i]))
  }

  /** The position of the first registration the agent rejects, or
      `|rs|` when it accepts all of them. */
  function FirstRejected(rs: seq<Registration>, rejects: set<string>): (j: nat)
    ensures j <= |rs|
    ensures forall k :: 0 <= k < j ==> rs[k].id !in rejects
    ensures j < |rs| ==> rs[j].id in rejects
  {
    if rs == [] then 0
    else if rs[0].id in rejects then 0
    else 1 + FirstRejected(rs[1..], rejects)
  }

  /** What `sync_services_to_local_consul` returns, or the registration
      whose request raised out of it. */
  datatype SyncOutcome = Counts(registered: nat, deregistered: nat) | Raised(failedId: string)

  /** The first loop of `sync_services_to_local_consul`: the dict
      `wanted_ids`, as its entries and its key order. */
  method WantedIds(services: seq<Service>, node: string, addr: string)
    returns (wanted: map<string, Registration>, order: seq<string>)
    ensures var desired := Desired(Definitions(services), node, addr);
      && |order| == |desired|
      && forall k :: 0 <= k < |order| ==> order[k] == desired[k].id && order[k] in wanted && wanted[order[k]] == desired[k]
    ensures wanted.Keys == WantedSet(services, node, addr)
  {
    ghost var regs := Registrations(Definitions(services), node, addr);
    wanted := map[];
    order := [];
    var i := 0;
    while i < |services|
      invariant 0 <= i <= |services|
      invariant order == FirstKeys(regs[..i], RegistrationId)
      invariant wanted == ByKey(regs[..i], RegistrationId)
    {
      var r := RegistrationFor(services[i].def, node, addr);
      var id := r.id;
      PrefixStep(regs, i);
      FirstKeysStep(regs[..i], RegistrationId, r);
      ByKeyStep(regs[..i], RegistrationId, r);
      if id !in wanted {
        order := order + [id];
      }
      wanted := wanted[id := r];
      i := i + 1;
    }
    assert regs[..|services|] == regs;
    CollapseLookup(regs, RegistrationId);
  }

  /** One more successful register request. */
  lemma RegisterStep(m: map<string, Registration>, rs: seq<Registration>, k: nat)
    requires k < |rs|
    ensures Upserted(m, rs[..k + 1]) == Upserted(m, rs[..k])[rs[k].id := rs[k]]
    ensures RegisterRequests(rs[..k + 1]) == RegisterRequests(rs[..k]) + [RegisterRequest(rs[k])]
  {
    assert rs[..k + 1][..k] == rs[..k];
  }

  /** The first rejected registration is the first one whose id the agent rejects. */
  lemma FirstRejectedAt(rs: seq<Registration>, rejects: set<string>, k: nat)
    requires k < |rs| && rs[k].id in rejects
    requires forall q :: 0 <= q < k ==> rs[q].id !in rejects
    ensures FirstRejected(rs, rejects) == k
  {
  }

  /** The second loop: register every wanted entry in order; a request
      that raises ends the loop (and the sync) at that entry. */
  method RegisterWanted(agent: ConsulAgent, wanted: map<string, Registration>, order: seq<string>, ghost items: seq<Registration>)
    returns (failed: Option<string>)
    requires |order| == |items|
    requires forall k :: 0 <= k < |order| ==> order[k] == items[k].id && order[k] in wanted && wanted[order[k]] == items[k]
    modifies agent
    ensures var j := FirstRejected(items, agent.rejectsRegister);
      j < |items| ==>
        && failed == Some(items[j].id)
        && agent.services == Upserted(old(agent.services), items[..j])
        && agent.requests == old(agent.requests) + RegisterRequests(items[..j + 1])
    ensures FirstRejected(items, agent.rejectsRegister) == |items| ==>
      && failed == None
      && agent.services == Upserted(old(agent.services), items)
      && agent.requests == old(agent.requests) + RegisterRequests(items)
  {
    var k := 0;
    while k < |order|
      invariant 0 <= k <= |order|
      invariant forall q :: 0 <= q < k ==> items[q].id !in agent.rejectsRegister
      invariant agent.services == Upserted(old(agent.services), items[..k])
      invariant agent.requests == old(agent.requests) + RegisterRequests(items[..k])
    {
      RegisterStep(old(agent.services), items, k);
      var ok := agent.Register(wanted[order[k]]);
      if !ok {
        FirstRejectedAt(items, agent.rejectsRegister, k);
        return Some(order[k]);
      }
      k := k + 1;
    }
    assert items[..|items|] == items;
    failed := None;
  }

  /** Whether the deregistration loop acts on a listed id. */
  predicate IsStale(id: string, node: string, wanted: set<string>) {
    StartsWith(id, node + "::") && id !in wanted
  }

  /** The listed ids the third loop deregisters, in listing order. */
  function StaleIds(current: seq<string>, node: string, wanted: set<string>): seq<string> {
    if current == [] then []
    else
      var p := StaleIds(current[..|current| - 1], node, wanted);
      var id := current[|current| - 1];
      if IsStale(id, node, wanted) then p + [id] else p
  }

  lemma {:induction false} StaleIdsMembers(current: seq<string>, node: string, wanted: set<string>)
    ensures forall id :: id in StaleIds(current, node, wanted) <==> id in current && IsStale(id, node, wanted)
  {
    if current != [] {
      var p := current[..|current| - 1];
      StaleIdsMembers(p, node, wanted);
      assert current == p + [current[|current| - 1]];
    }
  }

  /** The ids among `ids` whose deregistration the agent accepts. */
  function Accepted(ids: seq<string>, rejects: set<string>): seq<string> {
    if ids == [] then []
    else
      var p := Accepted(ids[..|ids| - 1], rejects);
      var id := ids[|ids| - 1];
      if id !in rejects then p + [id] else p
  }

  lemma {:induction false} AcceptedMembers(ids: seq<string>, rejects: set<string>)
    ensures forall id :: id in Accepted(ids, rejects) <==> id in ids && id !in rejects
  {
    if ids != [] {
      var p := ids[..|ids| - 1];
      AcceptedMembers(p, rejects);
      assert ids == p + [ids[|ids| - 1]];
    }
  }

  /** The third loop: deregister, in listing order, every listed id with
      this node's prefix that is not wanted; a request that raises is
      skipped and not counted. */
  method DeregisterStale(agent: ConsulAgent, current: seq<string>, node: string, wanted: set<string>)
    returns (deregistered: nat)
    modifies agent
    ensures var accepted := Accepted(StaleIds(current, node, wanted), agent.rejectsDeregister);
      && deregistered == |accepted|
      && agent.services == old(agent.services) - (set id | id in accepted)
      && agent.requests == old(agent.requests) + DeregisterRequests(StaleIds(current, node, wanted))
  {
    deregistered := 0;
    var m := 0;
    while m < |current|
      invariant 0 <= m <= |current|
      invariant deregistered == |Accepted(StaleIds(current[..m], node, wanted), agent.rejectsDeregister)|
      invariant agent.services == old(agent.services) - (set id | id in Accepted(StaleIds(current[..m], node, wanted), agent.rejectsDeregister))
      invariant agent.requests == old(agent.requests) + DeregisterRequests(StaleIds(current[..m], node, wanted))
    {
      var sid := current[m];
      PrefixStep(current, m);
      if StartsWith(sid, node + "::") && sid !in wanted {
        var ok := agent.Deregister(sid);
        if ok {
          deregistered := deregistered + 1;
        }
      }
      m := m + 1;
    }
    assert current[..|current|] == current;
  }

  /** With ids listed once each, the requests above deregister every stale
      id exactly once, and the count is the number of stale ids the agent
      accepts. */
  lemma {:induction false} StaleIdsOnce(current: seq<string>, node: string, wanted: set<string>, rejects: set<string>)
    requires forall a, b :: 0 <= a < b < |current| ==> current[a] != current[b]
    ensures var stale := Stale((set id | id in current), node, wanted);
      var ids := StaleIds(current, node, wanted);
      && (set id | id in ids) == stale
      && |ids| == |stale|
      && (set id | id in Accepted(ids, rejects)) == stale - rejects
      && |Accepted(ids, rejects)| == |stale - rejects|
  {
    var ids := StaleIds(current, node, wanted);
    StaleIdsMembers(current, node, wanted);
    AcceptedMembers(ids, rejects);
    DistinctStaleIds(current, node, wanted);
    DistinctCard(ids);
    DistinctAccepted(ids, rejects);
    DistinctCard(Accepted(ids, rejects));
  }

  lemma {:induction false} DistinctStaleIds(current: seq<string>, node: string, wanted: set<string>)
    requires forall a, b :: 0 <= a < b < |current| ==> current[a] != current[b]
    ensures forall a, b :: 0 <= a < b < |StaleIds(current, node, wanted)| ==>
      StaleIds(current, node, wanted)[a] != StaleIds(current, node, wanted)[b]
  {
    if current != [] {
      var p := current[..|current| - 1];
      DistinctStaleIds(p, node, wanted);
      StaleIdsMembers(p, node, wanted);
      assert current[|current| - 1] !in p;
      assert current[|current| - 1] !in StaleIds(p, node, wanted);
    }
  }

  lemma {:induction false} DistinctAccepted(ids: seq<string>, rejects: set<string>)
    requires forall a, b :: 0 <= a < b < |ids| ==> ids[a] != ids[b]
    ensures forall a, b :: 0 <= a < b < |Accepted(ids, rejects)| ==>
      Accepted(ids, rejects)[a] != Accepted(ids, rejects)[b]
  {
    if ids != [] {
      var p := ids[..|ids| - 1];
      DistinctAccepted(p, rejects);
      AcceptedMembers(p, rejects);
      assert ids[|ids| - 1] !in p;
      assert ids[|ids| - 1] !in Accepted(p, rejects);
    }
  }

  /** The ids of all the records: the keys of `wanted_ids`. */
  function WantedSet(services: seq<Service>, node: string, addr: string): set<string> {
    KeySet(Registrations(Definitions(services), node, addr), RegistrationId)
  }

  /** Registering never touches an id none of the registrations carries. */
  lemma {:induction false} UpsertedKeepsOthers(m: map<string, Registration>, rs: seq<Registration>, id: string)
    requires forall i :: 0 <= i < |rs| ==> rs[i].id != id
    ensures id in Upserted(m, rs) <==> id in m
    ensures id in m ==> Upserted(m, rs)[id] == m[id]
  {
    if rs != [] {
      UpsertedKeepsOthers(m, rs[..|rs| - 1], id);
    }
  }

  /** After registering distinct ids, each id holds its registration. */
  lemma {:induction false} UpsertedHolds(m: map<string, Registration>, rs: seq<Registration>, i: nat)
    requires forall a, b :: 0 <= a < b < |rs| ==> rs[a].id != rs[b].id
    requires i < |rs|
    ensures rs[i].id in Upserted(m, rs) && Upserted(m, rs)[rs[i].id] == rs[i]
  {
    if i < |rs| - 1 {
      UpsertedHolds(m, rs[..|rs| - 1], i);
    }
  }

  /** Every wanted id is this node's id for the registration's name, and
      the wanted ids are the keys of `wanted_ids`. */
  lemma DesiredIds(defs: seq<Definition>, node: string, addr: string)
    ensures var desired := Desired(defs, node, addr);
      && (forall i :: 0 <= i < |desired| ==> desired[i].id == ServiceId(node, desired[i].name))
      && (forall id :: id in KeySet(Registrations(defs, node, addr), RegistrationId) <==>
            exists i :: 0 <= i < |desired| && desired[i].id == id)
  {
    var desired := Desired(defs, node, addr);
    var regs := Registrations(defs, node, addr);
    var ks := FirstKeys(regs, RegistrationId);
    CollapseLast(regs, RegistrationId);
    forall i | 0 <= i < |desired|
      ensures desired[i].id == ServiceId(node, desired[i].name)
    {
      assert desired[i] == regs[LastIndex(regs, RegistrationId, ks[i])];
    }
    forall id | id in KeySet(regs, RegistrationId)
      ensures exists i :: 0 <= i < |desired| && desired[i].id == id
    {
      var i :| 0 <= i < |ks| && ks[i] == id;
      assert RegistrationId(desired[i]) == id;
    }
  }

  /** What a completed sync leaves registered: every wanted registration. */
  lemma SyncKeepsWanted(m: map<string, Registration>, services: seq<Service>, node: string, addr: string,
                        listed: seq<string>, rejects: set<string>)
    ensures var desired := Desired(Definitions(services), node, addr);
      var accepted := Accepted(StaleIds(listed, node, WantedSet(services, node, addr)), rejects);
      var after := Upserted(m, desired) - (set id | id in accepted);
      forall i :: 0 <= i < |desired| ==> desired[i].id in after && after[desired[i].id] == desired[i]
  {
    var defs := Definitions(services);
    var desired := Desired(defs, node, addr);
    var wanted := WantedSet(services, node, addr);
    var stale := StaleIds(listed, node, wanted);
    var accepted := Accepted(stale, rejects);
    DesiredIds(defs, node, addr);
    StaleIdsMembers(listed, node, wanted);
    AcceptedMembers(stale, rejects);
    forall i | 0 <= i < |desired|
      ensures desired[i].id in Upserted(m, desired) && Upserted(m, desired)[desired[i].id] == desired[i]
      ensures desired[i].id !in accepted
    {
      UpsertedHolds(m, desired, i);
    }
  }

  /** What a completed sync does to the ids of other nodes: nothing. */
  lemma SyncLeavesOtherNodes(m: map<string, Registration>, services: seq<Service>, node: string, addr: string,
                             listed: seq<string>, rejects: set<string>, id: string)
    requires !StartsWith(id, node + "::")
    ensures var desired := Desired(Definitions(services), node, addr);
      var accepted := Accepted(StaleIds(listed, node, WantedSet(services, node, addr)), rejects);
      var after := Upserted(m, desired) - (set id | id in accepted);
      (id in after <==> id in m) && (id in m ==> after[id] == m[id])
  {
    var defs := Definitions(services);
    var desired := Desired(defs, node, addr);
    var wanted := WantedSet(services, node, addr);
    var stale := StaleIds(listed, node, wanted);
    DesiredIds(defs, node, addr);
    forall i | 0 <= i < |desired|
      ensures desired[i].id != id
    {
      assert StartsWith(ServiceId(node, desired[i].name), node + "::");
    }
    UpsertedKeepsOthers(m, desired, id);
    StaleIdsMembers(listed, node, wanted);
    AcceptedMembers(stale, rejects);
  }

  /** What a completed sync does to a stale id of this node: it is gone
      unless its deregistration was rejected or it was never listed. */
  lemma SyncRemovesStale(m: map<string, Registration>, services: seq<Service>, node: string, addr: string,
                         listed: seq<string>, rejects: set<string>, id: string)
    requires IsStale(id, node, WantedSet(services, node, addr))
    ensures var desired := Desired(Definitions(services), node, addr);
      var accepted := Accepted(StaleIds(listed, node, WantedSet(services, node, addr)), rejects);
      var after := Upserted(m, desired) - (set id | id in accepted);
      id in after <==> id in m && (id !in listed || id in rejects)
  {
    var defs := Definitions(services);
    var desired := Desired(defs, node, addr);
    var wanted := WantedSet(services, node, addr);
    var stale := StaleIds(listed, node, wanted);
    DesiredIds(defs, node, addr);
    UpsertedKeepsOthers(m, desired, id);
    StaleIdsMembers(listed, node, wanted);
    AcceptedMembers(stale, rejects);
  }

  /** `sync_services_to_local_consul` once the agent has answered:
      the agent's services are listed (`listed`, in the agent's order;
      empty when listing fails) and every wanted registration is sent in
      order until one raises, which ends the sync; after all of them
      succeed, every stale listed id is deregistered, a failure there being
      skipped and not counted. */
  method Reconcile(agent: ConsulAgent, services: seq<Service>, node: string, addr: string)
    returns (outcome: SyncOutcome, ghost listed: seq<string>)
    modifies agent
    ensures forall a, b :: 0 <= a < b < |listed| ==> listed[a] != listed[b]
    ensures forall id :: id in listed <==> !agent.listingFails && id in old(agent.services)
    ensures var desired := Desired(Definitions(services), node, addr);
      var j := FirstRejected(desired, agent.rejectsRegister);
      j < |desired| ==>
        && outcome == Raised(desired[j].id)
        && agent.services == Upserted(old(agent.services), desired[..j])
        && agent.requests == old(agent.requests) + RegisterRequests(desired[..j + 1])
    ensures var desired := Desired(Definitions(services), node, addr);
      var stale := StaleIds(listed, node, WantedSet(services, node, addr));
      var accepted := Accepted(stale, agent.rejectsDeregister);
      FirstRejected(desired, agent.rejectsRegister) == |desired| ==>
        && outcome == Counts(|desired|, |accepted|)
        && agent.services == Upserted(old(agent.services), desired) - (set id | id in accepted)
        && agent.requests == old(agent.requests) + RegisterRequests(desired) + DeregisterRequests(stale)
  {
    ghost var desired := Desired(Definitions(services), node, addr);
    var wanted, order := WantedIds(services, node, addr);
    var listing := agent.ListServices();
    var current := if listing.None? then [] else listing.value;
    listed := current;
    var failed := RegisterWanted(agent, wanted, order, desired);
    if failed.Some? {
      return Raised(failed.value), listed;
    }
    assert FirstRejected(desired, agent.rejectsRegister) == |desired|;
    var deregistered := DeregisterStale(agent, current, node, wanted.Keys);
    outcome := Counts(|order|, deregistered);
  }

  /** `sync_services_to_local_consul`: an agent that does not answer is
      left alone and nothing is counted. */
  method SyncServicesToLocalConsul(agent: ConsulAgent, services: seq<Service>, node: string, addr: string)
    returns (outcome: SyncOutcome, ghost listed: seq<string>)
    modifies agent
    ensures !agent.reachable ==>
      outcome == Counts(0, 0) && agent.services == old(agent.services) && agent.requests == old(agent.requests)
    ensures agent.reachable ==>
      && (forall a, b :: 0 <= a < b < |listed| ==> listed[a] != listed[b])
      && (forall id :: id in listed <==> !agent.listingFails && id in old(agent.services))
    ensures agent.reachable ==>
      var desired := Desired(Definitions(services), node, addr);
      var j := FirstRejected(desired, agent.rejectsRegister);
      j < |desired| ==>
        && outcome == Raised(desired[j].id)
        && agent.services == Upserted(old(agent.services), desired[..j])
        && agent.requests == old(agent.requests) + RegisterRequests(desired[..j + 1])
    ensures agent.reachable ==>
      var desired := Desired(Definitions(services), node, addr);
      var stale := StaleIds(listed, node, WantedSet(services, node, addr));
      var accepted := Accepted(stale, agent.rejectsDeregister);
      FirstRejected(desired, agent.rejectsRegister) == |desired| ==>
        && outcome == Counts(|desired|, |accepted|)
        && agent.services == Upserted(old(agent.services), desired) - (set id | id in accepted)
        && agent.requests == old(agent.requests) + RegisterRequests(desired) + DeregisterRequests(stale)
  {
    var reachable := agent.SelfCheck();
    if !reachable {
      return Counts(0, 0), [];
    }
    outcome, listed := Reconcile(agent, services, node, addr);
  }
}
