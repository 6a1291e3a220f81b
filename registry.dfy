/** Turning one parsed service-definition document into a definition. The
    document's text values are given already converted to text (`str(v)`),
    the probe interval and timeout as the number or the text the document
    holds; absent keys are `None`. */
module Registry {
  import opened Wrappers
  import opened Strings
  import opened Util

  /** The `tags` value: absent (or null), one string, or a list. */
  datatype RawTags = NoTags | TagText(text: string) | TagItems(items: seq<string>)

  /** A value handed to `int()`: an integer, or text that `int()` parses. */
  datatype RawInt = Number(n: int) | Text(text: string)

  /** The `monitor` mapping; an absent monitor is all `None`. */
  datatype RawMonitor = RawMonitor(
    mode: Option<string> := None,
    target: Option<string> := None,
    intervalS: Option<RawInt> := None,
    timeoutS: Option<RawInt> := None)

  datatype RawService = RawService(
    name: Option<string>,
    kind: Option<string>,
    url: Option<string>,
    description: Option<string>,
    tags: RawTags,
    monitor: RawMonitor)

  /** `d.get("tags") or []`, with a lone string turned into a list of one. */
  function TagList(t: RawTags): seq<string> {
    match t
    case NoTags => []
    case TagText(s) => if s == "" then [] else [s]
    case TagItems(items) => items
  }

  /** `int(m.get(key, default))`: `None` where `int()` raises `ValueError`. */
  function IntOf(v: Option<RawInt>, default: int): (r: Option<int>)
    ensures v.None? ==> r == Some(default)
    ensures v.Some? && v.value.Number? ==> r == Some(v.value.n)
    ensures v.Some? && v.value.Text? ==> r == ParseInt(v.value.text)
  {
    match v
    case None => Some(default)
    case Some(Number(n)) => Some(n)
    case Some(Text(t)) => ParseInt(t)
  }

  /** The message of the `ValueError` that `int()` raises on text. */
  function IntError(v: Option<RawInt>): string {
    if v.Some? && v.value.Text? then "invalid literal for int() with base 10: '" + v.value.text + "'" else ""
  }

  /** Text that `.strip().lower()` leaves as it is. */
  predicate IsLowerStripped(s: string) {
    IsStripped(s) && Lower(s) == s
  }

  /** The shape of every definition the loader produces. */
  predicate IsNormal(d: Definition) {
    && d.name != "" && IsStripped(d.name)
    && IsLowerStripped(d.kind)
    && IsStripped(d.url) && IsStripped(d.description)
    && (forall i :: 0 <= i < |d.tags| ==> d.tags[i] != "" && IsStripped(d.tags[i]))
    && IsLowerStripped(d.monitor.mode)
    && d.monitor.target != Some("")
  }

  lemma LowerStripIsLowerStripped(s: string)
    ensures IsLowerStripped(Lower(Strip(s)))
  {
    LowerKeepsStripped(Strip(s));
    LowerIdempotent(Strip(s));
  }

  /** `service_from_dict`: an error when the stripped name is empty or
      when the interval or the timeout is text `int()` rejects (checked in
      that order), otherwise a definition with every field normalised. */
  function ServiceFromDict(d: RawService, sourcePath: string): (r: Result<Definition>)
    ensures Strip(d.name.GetOr("")) == "" ==> r == Err("Service definition missing 'name' (" + sourcePath + ")")
    ensures r.Err? <==>
      || Strip(d.name.GetOr("")) == ""
      || IntOf(d.monitor.intervalS, 30).None?
      || IntOf(d.monitor.timeoutS, 2).None?
    ensures Strip(d.name.GetOr("")) != "" && IntOf(d.monitor.intervalS, 30).None? ==>
      r == Err(IntError(d.monitor.intervalS))
    ensures Strip(d.name.GetOr("")) != "" && IntOf(d.monitor.intervalS, 30).Some? && IntOf(d.monitor.timeoutS, 2).None? ==>
      r == Err(IntError(d.monitor.timeoutS))
    ensures r.Ok? ==> IsNormal(r.value)
    ensures r.Ok? ==>
      && r.value.name == Strip(d.name.value)
      && r.value.kind == Lower(Strip(d.kind.GetOr("other")))
      && r.value.url == Strip(d.url.GetOr(""))
      && r.value.description == Strip(d.description.GetOr(""))
      && r.value.tags == CleanTags(TagList(d.tags))
      && r.value.monitor.mode == Lower(Strip(d.monitor.mode.GetOr("none")))
      && r.value.monitor.target == (if d.monitor.target == Some("") then None else d.monitor.target)
      && Some(r.value.monitor.intervalS) == IntOf(d.monitor.intervalS, 30)
      && Some(r.value.monitor.timeoutS) == IntOf(d.monitor.timeoutS, 2)
  {
    var name := Strip(d.name.GetOr(""));
    if name == "" then
      Err("Service definition missing 'name' (" + sourcePath + ")")
    else
      var m := d.monitor;
      match IntOf(m.intervalS, 30)
      case None => Err(IntError(m.intervalS))
      case Some(interval) =>
        match IntOf(m.timeoutS, 2)
        case None => Err(IntError(m.timeoutS))
        case Some(timeout) =>
          var mode := m.mode.GetOr("none");
          var kind := d.kind.GetOr("other");
          LowerStripIsLowerStripped(mode);
          LowerStripIsLowerStripped(kind);
          Ok(Definition(
            name := name,
            kind := Lower(Strip(kind)),
            url := Strip(d.url.GetOr("")),
            description := Strip(d.description.GetOr("")),
            tags := CleanTags(TagList(d.tags)),
            monitor := Monitor(
              mode := Lower(Strip(mode)),
              target := if m.target == None || m.target == Some("") then None else m.target,
              intervalS := interval,
              timeoutS := timeout)))
  }

  /** The default type and mode words are already normalised. */
  lemma DefaultWordsNormal()
    ensures Lower(Strip("other")) == "other" && Lower(Strip("none")) == "none"
  {
    assert Strip("other") == "other";
    assert Strip("none") == "none";
  }

  /** A document holding only a name loads with every default: type
      `other`, empty url, description and tags, and the default monitor. */
  lemma ServiceFromDictDefaults(name: string, sourcePath: string)
    requires Strip(name) != ""
    ensures ServiceFromDict(RawService(Some(name), None, None, None, NoTags, RawMonitor()), sourcePath)
      == Ok(Definition(name := Strip(name)))
  {
    var r := ServiceFromDict(RawService(Some(name), None, None, None, NoTags, RawMonitor()), sourcePath);
    DefaultWordsNormal();
    assert r.value.url == "" && r.value.description == "" by {
      assert Strip("") == "";
    }
    assert r.value.tags == [] by {
      assert CleanTags([]) == [];
    }
  }

  /** Interval and timeout given as text read as `int()` reads them. */
  lemma IntervalText(d: RawService, sourcePath: string, n: int)
    requires Strip(d.name.GetOr("")) != "" && d.monitor.timeoutS.None?
    requires d.monitor.intervalS == Some(Text(IntToString(n)))
    ensures ServiceFromDict(d, sourcePath).Ok? && ServiceFromDict(d, sourcePath).value.monitor.intervalS == n
  {
    ParseIntOfIntToString(n);
  }

  /** A definition written back out as a document, every key present. */
  function AsDocument(d: Definition): RawService {
    RawService(
      Some(d.name), Some(d.kind), Some(d.url), Some(d.description), TagItems(d.tags),
      RawMonitor(Some(d.monitor.mode), d.monitor.target, Some(Number(d.monitor.intervalS)), Some(Number(d.monitor.timeoutS))))
  }

  /** Normal definitions are exactly the fixed points of loading: writing one
      out and loading it again gives it back. */
  lemma LoadNormalIsIdentity(d: Definition, sourcePath: string)
    requires IsNormal(d)
    ensures ServiceFromDict(AsDocument(d), sourcePath) == Ok(d)
  {
    CleanTagsOfClean(d.tags);
    assert Strip(d.kind) == d.kind && Strip(d.monitor.mode) == d.monitor.mode;
  }

  /** Loading is idempotent: a loaded definition, written out and loaded
      again, is unchanged. */
  lemma LoadIdempotent(d: RawService, sourcePath: string, again: string)
    requires ServiceFromDict(d, sourcePath).Ok?
    ensures ServiceFromDict(AsDocument(ServiceFromDict(d, sourcePath).value), again) == ServiceFromDict(d, sourcePath)
  {
    LoadNormalIsIdentity(ServiceFromDict(d, sourcePath).value, again);
  }

  /** A single string under `tags` yields one tag, stripped, or none if blank. */
  lemma SingleTagText(d: RawService, sourcePath: string, text: string)
    requires d.tags == TagText(text) && ServiceFromDict(d, sourcePath).Ok?
    ensures ServiceFromDict(d, sourcePath).value.tags == if Strip(text) == "" then [] else [Strip(text)]
  {
    if text != "" {
      assert CleanTags([text]) == CleanTags([]) + (if Strip(text) != "" then [Strip(text)] else []);
    }
  }
}
