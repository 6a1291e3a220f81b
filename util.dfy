/** The records every part of svcindex shares: a monitor specification, a
    service definition and the service record that the probe updates in
    place; and the truthiness test used for flags. */
module Util {
  import opened Wrappers
  import opened Strings

  /** How a service is probed. The defaults are the dataclass defaults. */
  datatype Monitor = Monitor(
    mode: string := "none",
    target: Option<string> := None,
    intervalS: int := 30,
    timeoutS: int := 2)

  /** `if not monitor.target` fails: the target is None or empty. */
  predicate HasTarget(m: Monitor) {
    m.target.Some? && m.target.value != ""
  }

  /** The static part of a service record (`kind` is the source's `type`). */
  datatype Definition = Definition(
    name: string,
    kind: string := "other",
    url: string := "",
    description: string := "",
    tags: seq<string> := [],
    monitor: Monitor := Monitor())

  datatype Status = Unknown | Unmonitored | Passing | Failing {
    /** The status as the source spells it. */
    function Text(): string {
      match this
      case Unknown => "unknown"
      case Unmonitored => "unmonitored"
      case Passing => "passing"
      case Failing => "failing"
    }
  }

  /** A service record: its definition, which nothing changes after it is
      built, and the runtime fields that a probe overwrites. */
  class Service {
    const def: Definition
    var status: Status
    var lastChecked: int
    var latencyMs: Option<nat>
    var detail: string

    constructor (def: Definition)
      ensures this.def == def
      ensures status == Unknown && lastChecked == 0 && latencyMs == None && detail == ""
    {
      this.def := def;
      status := Unknown;
      lastChecked := 0;
      latencyMs := None;
      detail := "";
    }
  }

  /** The monitor mode as the probe and the registry sync read it:
      lower-cased, with an empty mode meaning "none". */
  function NormalMode(mode: string): (m: string)
    ensures mode == "" ==> m == "none"
    ensures mode != "" ==> m == Lower(mode) && |m| == |mode| && Lower(m) == m
  {
    if mode == "" then "none" else
      LowerIdempotent(mode);
      Lower(mode)
  }

  const TruthyWords: set<string> := {"1", "true", "yes", "y", "on"}

  /** The flag test shared by environment variables and container labels. */
  predicate Truthy(v: string) {
    Lower(Strip(v)) in TruthyWords
  }

  /** Whitespace and letter case never change the answer. */
  lemma TruthyNormalised(v: string)
    ensures Truthy(Lower(Strip(v))) == Truthy(v)
  {
    LowerStripIdempotent(v);
  }

  /** `env_bool`, with the variable's value (None when unset) passed in. */
  function EnvBool(value: Option<string>, default: bool): (b: bool)
    ensures value.None? ==> b == default
    ensures value.Some? ==> (b <==> Truthy(value.value))
    ensures value.Some? && Strip(value.value) == "" ==> !b
  {
    match value
    case None => default
    case Some(v) => Truthy(v)
  }

  /** Each tag stripped, blank tags dropped, order kept. */
  function CleanTags(tags: seq<string>): (r: seq<string>)
    ensures |r| <= |tags|
    ensures forall i :: 0 <= i < |r| ==> r[i] != "" && IsStripped(r[i])
  {
    if tags == [] then []
    else
      var t := Strip(tags[|tags| - 1]);
      CleanTags(tags[..|tags| - 1]) + (if t != "" then [t] else [])
  }

  /** Tags that are already clean pass through unchanged. */
  lemma {:induction false} CleanTagsOfClean(tags: seq<string>)
    requires forall i :: 0 <= i < |tags| ==> tags[i] != "" && IsStripped(tags[i])
    ensures CleanTags(tags) == tags
  {
    if tags != [] {
      CleanTagsOfClean(tags[..|tags| - 1]);
    }
  }

  /** Cleaning works tag by tag. */
  lemma {:induction false} CleanTagsConcat(a: seq<string>, b: seq<string>)
    ensures CleanTags(a + b) == CleanTags(a) + CleanTags(b)
    decreases |b|
  {
    if b != [] {
      var b' := b[..|b| - 1];
      assert (a + b)[..|a + b| - 1] == a + b';
      CleanTagsConcat(a, b');
    } else {
      assert a + b == a;
    }
  }
}
