/** The probe: one health check of one service, written into the service
    record. What the network answers is passed in: `http` gives the outcome
    of a GET of a URL, `tcp` the outcome of connecting to a host and port;
    each outcome carries the measured latency in milliseconds. `now` is the
    clock reading stored as the time of the check. */
module Checks {
  import opened Wrappers
  import opened Strings
  import opened Util

  /** A GET either returns a response with a status code or raises. */
  datatype HttpOutcome = Response(statusCode: int, latencyMs: nat) | HttpRaised(exception: string, latencyMs: nat)

  /** A connection attempt either succeeds or raises. */
  datatype TcpOutcome = Connected(latencyMs: nat) | TcpRaised(exception: string, latencyMs: nat)

  /** The runtime fields a check writes, apart from the time. */
  datatype Verdict = Verdict(status: Status, detail: string, latencyMs: Option<nat>)

  /** The host and port of a TCP target: the text around its last `:`, with
      the port read as `int()` reads it. */
  function TcpAddress(target: string): Option<(string, int)> {
    if ':' !in target then None else
      var i := LastIndexOf(target, ':');
      match ParseInt(target[i + 1..])
      case None => None
      case Some(port) => Some((target[..i], port))
  }

  /** Whether the check reaches the network. */
  predicate Attempts(m: Monitor) {
    var mode := NormalMode(m.mode);
    || (mode == "http" && HasTarget(m))
    || (mode == "tcp" && HasTarget(m) && TcpAddress(m.target.value).Some?)
  }

  /** `_check_http` after the request. */
  function HttpVerdict(o: HttpOutcome): (v: Verdict)
    ensures v.latencyMs == Some(o.latencyMs)
    ensures v.status == Passing <==> o.Response? && 200 <= o.statusCode < 400
    ensures v.status != Passing ==> v.status == Failing
    ensures o.Response? ==> v.detail == "HTTP " + IntToString(o.statusCode)
    ensures o.HttpRaised? ==> v.detail == "HTTP error: " + o.exception
  {
    match o
    case Response(code, latency) =>
      Verdict(if 200 <= code < 400 then Passing else Failing, "HTTP " + IntToString(code), Some(latency))
    case HttpRaised(exception, latency) =>
      Verdict(Failing, "HTTP error: " + exception, Some(latency))
  }

  /** `_check_tcp`: validation of the target, then the connection. */
  function TcpVerdict(target: string, tcp: (string, int) -> TcpOutcome): (v: Verdict)
    ensures v.latencyMs.Some? <==> TcpAddress(target).Some?
    ensures v.status == Passing <==> TcpAddress(target).Some? && tcp(TcpAddress(target).value.0, TcpAddress(target).value.1).Connected?
    ensures v.status != Passing ==> v.status == Failing
    ensures ':' !in target ==> v == Verdict(Failing, "TCP target must be host:port", None)
    ensures ':' in target && TcpAddress(target).None? ==> v == Verdict(Failing, "TCP port invalid", None)
    ensures TcpAddress(target).Some? ==>
      var o := tcp(TcpAddress(target).value.0, TcpAddress(target).value.1);
      && v.latencyMs == Some(o.latencyMs)
      && v.detail == if o.Connected? then "TCP connect ok" else "TCP error: " + o.exception
  {
    if ':' !in target then
      Verdict(Failing, "TCP target must be host:port", None)
    else
      var i := LastIndexOf(target, ':');
      match ParseInt(target[i + 1..])
      case None => Verdict(Failing, "TCP port invalid", None)
      case Some(port) =>
        match tcp(target[..i], port)
        case Connected(latency) => Verdict(Passing, "TCP connect ok", Some(latency))
        case TcpRaised(exception, latency) => Verdict(Failing, "TCP error: " + exception, Some(latency))
  }

  /** `check_service`: what the record holds after a check. */
  function Probe(m: Monitor, http: string -> HttpOutcome, tcp: (string, int) -> TcpOutcome): (v: Verdict)
    ensures NormalMode(m.mode) == "none" ==> v == Verdict(Unmonitored, "No monitoring configured", None)
    ensures NormalMode(m.mode) == "http" && !HasTarget(m) ==> v == Verdict(Failing, "HTTP monitor missing target", None)
    ensures NormalMode(m.mode) == "tcp" && !HasTarget(m) ==> v == Verdict(Failing, "TCP monitor missing target", None)
    ensures NormalMode(m.mode) == "http" && HasTarget(m) ==> v == HttpVerdict(http(m.target.value))
    ensures NormalMode(m.mode) == "tcp" && HasTarget(m) ==> v == TcpVerdict(m.target.value, tcp)
    ensures NormalMode(m.mode) !in {"none", "http", "tcp"} ==>
      v == Verdict(Unknown, "Unknown monitor mode: " + NormalMode(m.mode), None)
    ensures v.latencyMs.Some? <==> Attempts(m)
    ensures v.status == Passing ==> Attempts(m)
    ensures v.status == Unmonitored <==> NormalMode(m.mode) == "none"
    ensures v.status == Unknown <==> NormalMode(m.mode) !in {"none", "http", "tcp"}
  {
    var mode := NormalMode(m.mode);
    if mode == "none" then Verdict(Unmonitored, "No monitoring configured", None)
    else if mode == "http" then
      if !HasTarget(m) then Verdict(Failing, "HTTP monitor missing target", None)
      else HttpVerdict(http(m.target.value))
    else if mode == "tcp" then
      if !HasTarget(m) then Verdict(Failing, "TCP monitor missing target", None)
      else TcpVerdict(m.target.value, tcp)
    else Verdict(Unknown, "Unknown monitor mode: " + mode, None)
  }

  /** A check that does not reach the network does not depend on it. */
  lemma NoNetworkWithoutAttempt(m: Monitor, http1: string -> HttpOutcome, tcp1: (string, int) -> TcpOutcome,
                                http2: string -> HttpOutcome, tcp2: (string, int) -> TcpOutcome)
    requires !Attempts(m)
    ensures Probe(m, http1, tcp1) == Probe(m, http2, tcp2)
  {
  }

  /** An HTTP check passes exactly when the GET of the target answers with a
      code in [200, 400), and its detail names the code. */
  lemma HttpPassesOnSuccessCodes(m: Monitor, http: string -> HttpOutcome, tcp: (string, int) -> TcpOutcome)
    requires NormalMode(m.mode) == "http" && HasTarget(m)
    ensures var v := Probe(m, http, tcp);
      && (v.status == Passing <==> http(m.target.value).Response? && 200 <= http(m.target.value).statusCode < 400)
      && (http(m.target.value).Response? ==> v.detail == "HTTP " + IntToString(http(m.target.value).statusCode))
  {
  }

  /** The TCP check connects to exactly the host and port written in a
      `host:port` target, whatever the host contains. */
  lemma TcpConnectsToTarget(host: string, port: int)
    ensures TcpAddress(host + ":" + IntToString(port)) == Some((host, port))
  {
    LastColonOfHostPort(host, port);
    ParseIntOfIntToString(port);
  }

  /** `check_service`: updates the record's status, detail, latency and
      check time; the definition is never touched. */
  method CheckService(svc: Service, http: string -> HttpOutcome, tcp: (string, int) -> TcpOutcome, now: int)
    modifies svc
    ensures Verdict(svc.status, svc.detail, svc.latencyMs) == Probe(svc.def.monitor, http, tcp)
    ensures svc.lastChecked == now
  {
    var mode := NormalMode(svc.def.monitor.mode);
    if mode == "none" {
      svc.status := Unmonitored;
      svc.detail := "No monitoring configured";
      svc.latencyMs := None;
      svc.lastChecked := now;
      return;
    }
    if mode == "http" {
      if !HasTarget(svc.def.monitor) {
        svc.status := Failing;
        svc.detail := "HTTP monitor missing target";
        svc.latencyMs := None;
        svc.lastChecked := now;
        return;
      }
      CheckHttp(svc, http, now);
      return;
    }
    if mode == "tcp" {
      if !HasTarget(svc.def.monitor) {
        svc.status := Failing;
        svc.detail := "TCP monitor missing target";
        svc.latencyMs := None;
        svc.lastChecked := now;
        return;
      }
      CheckTcp(svc, tcp, now);
      return;
    }
    svc.status := Unknown;
    svc.detail := "Unknown monitor mode: " + mode;
    svc.latencyMs := None;
    svc.lastChecked := now;
  }

  /** `_check_http`: one GET of the target. */
  method CheckHttp(svc: Service, http: string -> HttpOutcome, now: int)
    requires HasTarget(svc.def.monitor)
    modifies svc
    ensures Verdict(svc.status, svc.detail, svc.latencyMs) == HttpVerdict(http(svc.def.monitor.target.value))
    ensures svc.lastChecked == now
  {
    var outcome := http(svc.def.monitor.target.value);
    svc.latencyMs := Some(outcome.latencyMs);
    match outcome {
      case Response(code, _) =>
        if 200 <= code < 400 {
          svc.status := Passing;
          svc.detail := "HTTP " + IntToString(code);
        } else {
          svc.status := Failing;
          svc.detail := "HTTP " + IntToString(code);
        }
      case HttpRaised(exception, _) =>
        svc.status := Failing;
        svc.detail := "HTTP error: " + exception;
    }
    svc.lastChecked := now;
  }

  /** `_check_tcp`: validates `host:port`, then one connection attempt. */
  method CheckTcp(svc: Service, tcp: (string, int) -> TcpOutcome, now: int)
    requires HasTarget(svc.def.monitor)
    modifies svc
    ensures Verdict(svc.status, svc.detail, svc.latencyMs) == TcpVerdict(svc.def.monitor.target.value, tcp)
    ensures svc.lastChecked == now
  {
    var target := svc.def.monitor.target.value;
    if ':' !in target {
      svc.status := Failing;
      svc.detail := "TCP target must be host:port";
      svc.latencyMs := None;
      svc.lastChecked := now;
      return;
    }
    var i := LastIndexOf(target, ':');
    var host, portText := target[..i], target[i + 1..];
    var port := ParseInt(portText);
    if port.None? {
      svc.status := Failing;
      svc.detail := "TCP port invalid";
      svc.latencyMs := None;
      svc.lastChecked := now;
      return;
    }
    match tcp(host, port.value) {
      case Connected(latency) =>
        svc.latencyMs := Some(latency);
        svc.status := Passing;
        svc.detail := "TCP connect ok";
      case TcpRaised(exception, latency) =>
        svc.latencyMs := Some(latency);
        svc.status := Failing;
        svc.detail := "TCP error: " + exception;
    }
    svc.lastChecked := now;
  }
}
