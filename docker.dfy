/** Opt-in discovery of services from Docker container labels. The output
    of `docker ps -q` and `docker inspect` is passed in. */
module DockerDiscovery {
  import opened Wrappers
  import opened Strings
  import opened Collections
  import opened Util

  /** What `docker inspect` reported for one container: its `Name` (empty if
      missing) and its `Config.Labels` (empty if missing). */
  datatype Inspection = Inspection(name: string, labels: map<string, string>)

  /** A listed container; `inspection` is `None` when `docker inspect` failed
      or its output did not parse. */
  datatype Container = Container(id: string, inspection: Option<Inspection>)

  /** The outcome of asking Docker for its running containers. */
  datatype DockerView = Unavailable | ListingFailed | Running(containers: seq<Container>)

  /** `_split_tags`: comma-separated tags, each stripped, blanks dropped. */
  function SplitTags(v: Option<string>): (r: seq<string>)
    ensures v == None || v == Some("") ==> r == []
    ensures forall i :: 0 <= i < |r| ==> r[i] != "" && IsStripped(r[i]) && ',' !in r[i]
  {
    match v
    case None => []
    case Some(text) =>
      if text == "" then [] else
        var parts := Split(text, ',');
        CleanTagsNoComma(parts);
        CleanTags(parts)
  }

  lemma {:induction false} CleanTagsNoComma(parts: seq<string>)
    requires forall i :: 0 <= i < |parts| ==> ',' !in parts[i]
    ensures forall i :: 0 <= i < |CleanTags(parts)| ==> ',' !in CleanTags(parts)[i]
  {
    if parts != [] {
      CleanTagsNoComma(parts[..|parts| - 1]);
      StripKeepsOut(parts[|parts| - 1], ',');
    }
  }

  lemma {:induction false} StripKeepsOut(s: string, c: char)
    requires c !in s
    ensures c !in Strip(s)
    decreases |s|
  {
    if s != [] && IsSpace(s[0]) {
      StripKeepsOut(s[1..], c);
    } else if s != [] && IsSpace(s[|s| - 1]) {
      StripKeepsOut(s[..|s| - 1], c);
    }
  }

  /** Clean tags written as one comma-separated label come back unchanged. */
  lemma SplitTagsOfJoin(tags: seq<string>)
    requires forall i :: 0 <= i < |tags| ==> tags[i] != "" && IsStripped(tags[i]) && ',' !in tags[i]
    ensures SplitTags(Some(Join(tags, ','))) == tags
  {
    if tags != [] {
      var text := Join(tags, ',');
      SplitJoin(tags, ',');
      CleanTagsOfClean(tags);
      assert text != "" by {
        JoinNonEmpty(tags, ',');
      }
    }
  }

  lemma {:induction false} JoinNonEmpty(parts: seq<string>, c: char)
    requires parts != [] && parts[0] != ""
    ensures Join(parts, c) != ""
  {
  }

  /** `labels.get(key) or default`. */
  function LabelOr(labels: map<string, string>, key: string, default: string): (v: string)
  {
    if key in labels && labels[key] != "" then labels[key] else default
  }

  /** `s.lstrip("/")`. */
  function TrimSlashes(s: string): (r: string)
    ensures r == [] || r[0] != '/'
    ensures |r| <= |s| && r == s[|s| - |r|..]
    ensures forall k :: 0 <= k < |s| - |r| ==> s[k] == '/'
  {
    if s != [] && s[0] == '/' then TrimSlashes(s[1..]) else s
  }

  /** A container takes part only if its `svcindex.enable` label, stripped and
      lower-cased, is a truthy word; a missing label reads as "false". */
  predicate Enabled(labels: map<string, string>) {
    Truthy(if "svcindex.enable" in labels then labels["svcindex.enable"] else "false")
  }

  /** The service name: the `svcindex.name` label, else the container name
      without leading slashes, else the first 12 characters of the id. */
  function ContainerServiceName(c: Container, info: Inspection): (r: string)
    ensures "svcindex.name" in info.labels && info.labels["svcindex.name"] != "" ==> r == info.labels["svcindex.name"]
    ensures ("svcindex.name" !in info.labels || info.labels["svcindex.name"] == "") && TrimSlashes(info.name) != "" ==>
      r == TrimSlashes(info.name)
    ensures ("svcindex.name" !in info.labels || info.labels["svcindex.name"] == "") && TrimSlashes(info.name) == "" ==>
      r == c.id[..if |c.id| < 12 then |c.id| else 12]
  {
    var fromLabel := LabelOr(info.labels, "svcindex.name", "");
    var fromName := TrimSlashes(info.name);
    if fromLabel != "" then fromLabel else if fromName != "" then fromName else Truncate(c.id, 12)
  }

  /** The definition one container contributes, if any. */
  function LabelDefinition(c: Container): (r: Option<Definition>)
    ensures r.Some? <==> c.inspection.Some? && Enabled(c.inspection.value.labels)
    ensures r.Some? ==> var labels := c.inspection.value.labels;
      && r.value.name == ContainerServiceName(c, c.inspection.value)
      && r.value.kind == (if "svcindex.type" in labels && labels["svcindex.type"] != ""
                          then Lower(Strip(labels["svcindex.type"])) else "docker")
      && r.value.url == (if "svcindex.url" in labels then labels["svcindex.url"] else "")
      && r.value.description == (if "svcindex.description" in labels then labels["svcindex.description"] else "")
      && r.value.tags == SplitTags(if "svcindex.tags" in labels then Some(labels["svcindex.tags"]) else None)
      && r.value.monitor.mode == (if "svcindex.monitor.mode" in labels && labels["svcindex.monitor.mode"] != ""
                                  then Lower(Strip(labels["svcindex.monitor.mode"])) else "none")
      && r.value.monitor.target == (if "svcindex.monitor.target" in labels then Some(labels["svcindex.monitor.target"]) else None)
      && r.value.monitor.intervalS == 30 && r.value.monitor.timeoutS == 2
  {
    match c.inspection
    case None => None
    case Some(info) =>
      var labels := info.labels;
      if !Enabled(labels) then None else
        DockerWordsNormal();
        Some(Definition(
          name := ContainerServiceName(c, info),
          kind := Lower(Strip(LabelOr(labels, "svcindex.type", "docker"))),
          url := LabelOr(labels, "svcindex.url", ""),
          description := LabelOr(labels, "svcindex.description", ""),
          tags := SplitTags(if "svcindex.tags" in labels then Some(labels["svcindex.tags"]) else None),
          monitor := Monitor(
            mode := Lower(Strip(LabelOr(labels, "svcindex.monitor.mode", "none"))),
            target := if "svcindex.monitor.target" in labels then Some(labels["svcindex.monitor.target"]) else None)))
  }

  /** The default type and mode words are already normalised. */
  lemma DockerWordsNormal()
    ensures Lower(Strip("docker")) == "docker" && Lower(Strip("none")) == "none"
  {
    assert Strip("docker") == "docker";
    assert Strip("none") == "none";
  }

  /** An enabled container with no other `svcindex.` label and only slashes
      for a name is listed under the first 12 characters of its id, with
      type `docker`, no url, description or tags, and no monitoring. */
  lemma LabelDefinitionDefaults(c: Container)
    requires c.inspection.Some? && Enabled(c.inspection.value.labels)
    requires TrimSlashes(c.inspection.value.name) == ""
    requires var labels := c.inspection.value.labels;
      && "svcindex.name" !in labels && "svcindex.type" !in labels
      && "svcindex.url" !in labels && "svcindex.description" !in labels && "svcindex.tags" !in labels
      && "svcindex.monitor.mode" !in labels && "svcindex.monitor.target" !in labels
    ensures LabelDefinition(c) == Some(Definition(name := Truncate(c.id, 12), kind := "docker"))
  {
    assert SplitTags(None) == [];
  }

  /** Type and monitor mode come out stripped and lower-cased, the tags
      clean, and the probe settings at their defaults. */
  lemma LabelDefinitionNormalised(c: Container)
    requires LabelDefinition(c).Some?
    ensures var d := LabelDefinition(c).value;
      && IsStripped(d.kind) && Lower(d.kind) == d.kind
      && IsStripped(d.monitor.mode) && Lower(d.monitor.mode) == d.monitor.mode
      && (forall i :: 0 <= i < |d.tags| ==> d.tags[i] != "" && IsStripped(d.tags[i]))
      && d.monitor.intervalS == 30 && d.monitor.timeoutS == 2
  {
    var labels := c.inspection.value.labels;
    var kind := LabelOr(labels, "svcindex.type", "docker");
    var mode := LabelOr(labels, "svcindex.monitor.mode", "none");
    LowerKeepsStripped(Strip(kind));
    LowerIdempotent(Strip(kind));
    LowerKeepsStripped(Strip(mode));
    LowerIdempotent(Strip(mode));
  }

  /** The definitions of the listed containers, skipping the ones that
      contribute none, in listing order. */
  function Discovered(containers: seq<Container>): seq<Definition> {
    FilterMap(containers, LabelDefinition)
  }

  /** A container that fails to inspect or is not enabled is skipped and
      changes nothing for the others. */
  lemma DiscoveredSkips(before: seq<Container>, c: Container, after: seq<Container>)
    requires c.inspection.None? || !Enabled(c.inspection.value.labels)
    ensures Discovered(before + [c] + after) == Discovered(before + after)
  {
    FilterMapSkips(before, c, after, LabelDefinition);
  }

  /** `discover_from_labels`. */
  method DiscoverFromLabels(docker: DockerView) returns (services: seq<Definition>)
    ensures !docker.Running? ==> services == []
    ensures docker.Running? ==> services == Discovered(docker.containers)
  {
    services := [];
    if !docker.Running? {
      return;
    }
    var containers := docker.containers;
    var i := 0;
    while i < |containers|
      invariant 0 <= i <= |containers|
      invariant services == Discovered(containers[..i])
    {
      var c := containers[i];
      FilterMapStep(containers, i, LabelDefinition);
      if c.inspection.None? {
        i := i + 1;
        continue;
      }
      var labels := c.inspection.value.labels;
      if !Enabled(labels) {
        i := i + 1;
        continue;
      }
      var d := LabelDefinition(c);
      services := services + [d.value];
      i := i + 1;
    }
    assert containers[..i] == containers;
  }
}
