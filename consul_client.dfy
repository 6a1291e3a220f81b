/** The local Consul agent, as svcindex talks to it over HTTP. The agent's
    own behaviour is abstract: the constant fields say how it answers during
    one reconciliation (whether it is reachable, whether listing fails, and
    which register or deregister requests raise). */
module ConsulClient {
  import opened Wrappers

  /** Which key of a check descriptor holds the target: `HTTP` or `TCP`. */
  datatype CheckKind = HttpCheck | TcpCheck

  /** A check descriptor: `Name`, `HTTP`/`TCP`, `Interval`, `Timeout`. */
  datatype CheckDef = CheckDef(name: string, kind: CheckKind, target: string, interval: string, timeout: string)

  /** The body of a register request: `ID`, `Name`, `Address`, `Port`, `Tags`, `Checks`. */
  datatype Registration = Registration(
    id: string, name: string, address: string, port: int, tags: seq<string>, checks: seq<CheckDef>)

  /** A state-changing request sent to the agent. */
  datatype Request = RegisterRequest(registration: Registration) | DeregisterRequest(id: string)

  class ConsulAgent {
    /** The agent's local registrations, by id. */
    var services: map<string, Registration>
    /** Every register and deregister request sent, in order. */
    var requests: seq<Request>
    /** `GET /v1/agent/self` succeeds. */
    const reachable: bool
    /** `GET /v1/agent/services` raises. */
    const listingFails: bool
    /** The ids whose register request raises. */
    const rejectsRegister: set<string>
    /** The ids whose deregister request raises. */
    const rejectsDeregister: set<string>

    constructor (services: map<string, Registration>, reachable: bool, listingFails: bool,
                 rejectsRegister: set<string>, rejectsDeregister: set<string>)
      ensures this.services == services && requests == []
      ensures this.reachable == reachable && this.listingFails == listingFails
      ensures this.rejectsRegister == rejectsRegister && this.rejectsDeregister == rejectsDeregister
    {
      this.services := services;
      requests := [];
      this.reachable := reachable;
      this.listingFails := listingFails;
      this.rejectsRegister := rejectsRegister;
      this.rejectsDeregister := rejectsDeregister;
    }

    /** `get_json("/v1/agent/self")`: true when it does not raise. */
    method SelfCheck() returns (ok: bool)
      ensures ok == reachable
    {
      ok := reachable;
    }

    /** The ids of `get_json("/v1/agent/services")`, each once, in the
        agent's order; `None` when the request raises. */
    method ListServices() returns (ids: Option<seq<string>>)
      ensures ids.None? <==> listingFails
      ensures ids.Some? ==> forall a, b :: 0 <= a < b < |ids.value| ==> ids.value[a] != ids.value[b]
      ensures ids.Some? ==> forall id :: id in ids.value <==> id in services
    {
      if listingFails {
        return None;
      }
      var rest := services.Keys;
      var listed: seq<string> := [];
      while rest != {}
        invariant rest <= services.Keys
        invariant forall id :: id in listed <==> id in services && id !in rest
        invariant forall a, b :: 0 <= a < b < |listed| ==> listed[a] != listed[b]
        decreases |rest|
      {
        var id :| id in rest;
        listed := listed + [id];
        rest := rest - {id};
      }
      ids := Some(listed);
    }

    /** `register_service`: create or replace the registration with that id;
        false when the request raises, which leaves the agent unchanged. */
    method Register(r: Registration) returns (ok: bool)
      modifies this
      ensures requests == old(requests) + [RegisterRequest(r)]
      ensures ok == (r.id !in rejectsRegister)
      ensures services == if ok then old(services)[r.id := r] else old(services)
    {
      requests := requests + [RegisterRequest(r)];
      ok := r.id !in rejectsRegister;
      if ok {
        services := services[r.id := r];
      }
    }

    /** `deregister_service`: remove the registration with that id; false
        when the request raises, which leaves the agent unchanged. */
    method Deregister(id: string) returns (ok: bool)
      modifies this
      ensures requests == old(requests) + [DeregisterRequest(id)]
      ensures ok == (id !in rejectsDeregister)
      ensures services == if ok then old(services) - {id} else old(services)
    {
      requests := requests + [DeregisterRequest(id)];
      ok := id !in rejectsDeregister;
      if ok {
        services := services - {id};
      }
    }
  }
}
