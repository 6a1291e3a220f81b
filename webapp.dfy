/** The dashboard's view of the services: the index page groups them by
    type and sorts each group by name, and the health endpoint reports the
    mode. Rendering the page is not modelled; the grouping is what the page
    shows. */
module WebApp {
  import opened Strings
  import opened Collections
  import opened Sorting
  import opened Util

  /** The group of a service: its type, or `other` when the type is empty. */
  function GroupKey(s: Service): string {
    if s.def.kind != "" then s.def.kind else "other"
  }

  /** The sort key inside a group: the lower-cased name. */
  function NameKey(s: Service): string {
    Lower(s.def.name)
  }

  /** A group as the page receives it: its key and its services. */
  type Group = (string, seq<Service>)

  function GroupName(g: Group): string {
    g.0
  }

  /** The group of key `k`, sorted by name. */
  function SortedGroup(services: seq<Service>, k: string): seq<Service> {
    SortBy(WithKey(services, GroupKey, k), NameKey)
  }

  /** The groups in the order the dict first meets their keys. */
  function GroupsByFirstKey(services: seq<Service>): (r: seq<Group>)
    ensures forall a, b :: 0 <= a < b < |r| ==> r[a].0 != r[b].0
    ensures forall m :: 0 <= m < |r| ==> r[m].0 in KeySet(services, GroupKey) && r[m].1 == SortedGroup(services, r[m].0)
    ensures forall k :: k in KeySet(services, GroupKey) ==> exists m :: 0 <= m < |r| && r[m].0 == k
  {
    var ks := FirstKeys(services, GroupKey);
    var r := seq(|ks|, m requires 0 <= m < |ks| => (ks[m], SortedGroup(services, ks[m])));
    assert forall m :: 0 <= m < |ks| ==> r[m].0 == ks[m];
    r
  }

  /** Before sorting, the groups come in the order their keys first appear. */
  lemma GroupsInFirstKeyOrder(services: seq<Service>)
    ensures var ks := FirstKeys(services, GroupKey);
      && |GroupsByFirstKey(services)| == |ks|
      && forall m :: 0 <= m < |ks| ==> GroupsByFirstKey(services)[m].0 == ks[m]
  {
  }

  /** What the index page shows: `sorted(groups.items())`. */
  function Groups(services: seq<Service>): seq<Group> {
    SortBy(GroupsByFirstKey(services), GroupName)
  }

  /** The `defaultdict` after appending each of `s` to the list of its key. */
  function Buckets(s: seq<Service>): map<string, seq<Service>> {
    if s == [] then map[]
    else
      var m := Buckets(s[..|s| - 1]);
      var x := s[|s| - 1];
      m[GroupKey(x) := (if GroupKey(x) in m then m[GroupKey(x)] else []) + [x]]
  }

  /** Appending one service to the list appends it to its key's bucket. */
  lemma BucketsStep(s: seq<Service>, x: Service)
    ensures var m := Buckets(s);
      Buckets(s + [x]) == m[GroupKey(x) := (if GroupKey(x) in m then m[GroupKey(x)] else []) + [x]]
  {
    assert (s + [x])[..|s|] == s;
  }

  /** Each key the services carry holds the services with that key, in order. */
  lemma {:induction false} BucketsHoldWithKey(s: seq<Service>)
    ensures forall k :: k in Buckets(s) <==> k in KeySet(s, GroupKey)
    ensures forall k :: k in Buckets(s) ==> Buckets(s)[k] == WithKey(s, GroupKey, k)
  {
    if s != [] {
      var p := s[..|s| - 1];
      BucketsHoldWithKey(p);
      if GroupKey(s[|s| - 1]) !in Buckets(p) {
        WithKeyAbsent(p, GroupKey, GroupKey(s[|s| - 1]));
      }
    }
  }

  /** A key no element carries has an empty sub-list. */
  lemma {:induction false} WithKeyAbsent<T>(s: seq<T>, key: T -> string, k: string)
    requires k !in KeySet(s, key)
    ensures WithKey(s, key, k) == []
  {
    if s != [] {
      WithKeyAbsent(s[..|s| - 1], key, k);
    }
  }

  /** The first loop of `index`: each service appended to the list of
      its group, the groups kept in the order their keys first appear. */
  method FillGroups(services: seq<Service>) returns (byKind: map<string, seq<Service>>, order: seq<string>)
    ensures order == FirstKeys(services, GroupKey)
    ensures byKind == Buckets(services)
  {
    byKind := map[];
    order := [];
    var i := 0;
    while i < |services|
      invariant 0 <= i <= |services|
      invariant order == FirstKeys(services[..i], GroupKey)
      invariant byKind == Buckets(services[..i])
      invariant forall k :: k in byKind <==> k in order
    {
      var s := services[i];
      var k := if s.def.kind != "" then s.def.kind else "other";
      PrefixStep(services, i);
      FirstKeysStep(services[..i], GroupKey, s);
      BucketsStep(services[..i], s);
      if k !in byKind {
        order := order + [k];
      }
      var bucket := if k in byKind then byKind[k] else [];
      byKind := byKind[k := bucket + [s]];
      i := i + 1;
    }
    assert services[..i] == services;
  }

  /** The second loop of `index`: every group's list sorted by name in place. */
  method SortEach(byKind0: map<string, seq<Service>>, order: seq<string>, ghost services: seq<Service>)
    returns (byKind: map<string, seq<Service>>)
    requires forall a, b :: 0 <= a < b < |order| ==> order[a] != order[b]
    requires forall k :: k in byKind0 <==> k in order
    requires forall m :: 0 <= m < |order| ==> byKind0[order[m]] == WithKey(services, GroupKey, order[m])
    ensures forall k :: k in byKind <==> k in order
    ensures forall m :: 0 <= m < |order| ==> byKind[order[m]] == SortedGroup(services, order[m])
  {
    byKind := byKind0;
    var j := 0;
    while j < |order|
      invariant 0 <= j <= |order|
      invariant forall k :: k in byKind <==> k in order
      invariant forall m :: 0 <= m < j ==> byKind[order[m]] == SortedGroup(services, order[m])
      invariant forall m :: j <= m < |order| ==> byKind[order[m]] == byKind0[order[m]]
    {
      ghost var before := byKind;
      var k := order[j];
      byKind := byKind[k := SortBy(byKind[k], NameKey)];
      forall m | 0 <= m < |order| && m != j
        ensures byKind[order[m]] == before[order[m]]
      {
        assert order[m] != k;
      }
      j := j + 1;
    }
  }

  /** The body of `index`: the services appended to their group in order,
      each group then sorted by name, and the groups sorted by key. */
  method Index(services: seq<Service>) returns (groups: seq<Group>)
    ensures groups == Groups(services)
  {
    var byKind, order := FillGroups(services);
    BucketsHoldWithKey(services);
    byKind := SortEach(byKind, order, services);
    var items := seq(|order|, m requires 0 <= m < |order| => (order[m], byKind[order[m]]));
    assert items == GroupsByFirstKey(services) by {
      GroupsInFirstKeyOrder(services);
    }
    groups := SortBy(items, GroupName);
  }

  /** The list without its element at `i`. */
  lemma RemoveAt<T>(xs: seq<T>, i: nat)
    requires i < |xs|
    ensures var r := xs[..i] + xs[i + 1..];
      && |r| == |xs| - 1
      && multiset(r) == multiset(xs) - multiset{xs[i]}
      && forall c :: 0 <= c < |r| ==> r[c] == xs[if c < i then c else c + 1]
  {
    assert xs == xs[..i] + [xs[i]] + xs[i + 1..];
  }

  /** No two elements of `s` share a key. */
  ghost predicate DistinctKeys<T>(s: seq<T>, key: T -> string) {
    forall a, b :: 0 <= a < b < |s| ==> key(s[a]) != key(s[b])
  }

  /** Taking out the element a permutation ends with leaves a permutation of
      the rest, still with distinct keys, none of them the key taken out. */
  lemma TakeLast<T>(xs: seq<T>, ys: seq<T>, key: T -> string) returns (xs': seq<T>)
    requires ys != [] && multiset(xs) == multiset(ys)
    requires DistinctKeys(xs, key)
    ensures multiset(xs') == multiset(ys[..|ys| - 1])
    ensures DistinctKeys(xs', key)
    ensures forall c :: 0 <= c < |xs'| ==> key(xs'[c]) != key(ys[|ys| - 1])
  {
    var y := ys[|ys| - 1];
    assert multiset(ys) == multiset(ys[..|ys| - 1]) + multiset{y} by {
      assert ys == ys[..|ys| - 1] + [y];
    }
    assert y in multiset(xs);
    var i :| 0 <= i < |xs| && xs[i] == y;
    xs' := xs[..i] + xs[i + 1..];
    RemoveAt(xs, i);
    RemoveAtDistinct(xs, i, key);
  }

  /** Taking one element out of a list with distinct keys leaves distinct
      keys, none of them the key taken out. */
  lemma RemoveAtDistinct<T>(xs: seq<T>, i: nat, key: T -> string)
    requires i < |xs| && DistinctKeys(xs, key)
    ensures var r := xs[..i] + xs[i + 1..];
      && DistinctKeys(r, key)
      && forall c :: 0 <= c < |r| ==> key(r[c]) != key(xs[i])
  {
    RemoveAt(xs, i);
  }

  /** Every element of a permutation of `xs` has a key some element of `xs` has. */
  lemma KeysFrom<T>(xs: seq<T>, ys: seq<T>, key: T -> string, k: string)
    requires multiset(xs) == multiset(ys)
    requires forall c :: 0 <= c < |xs| ==> key(xs[c]) != k
    ensures forall a :: 0 <= a < |ys| ==> key(ys[a]) != k
  {
    forall a | 0 <= a < |ys|
      ensures key(ys[a]) != k
    {
      assert ys[a] in multiset(xs);
    }
  }

  /** A list whose keys are distinct keeps them distinct when permuted. */
  lemma {:induction false} DistinctKeysPermuted<T>(xs: seq<T>, ys: seq<T>, key: T -> string)
    requires multiset(xs) == multiset(ys)
    requires DistinctKeys(xs, key)
    ensures DistinctKeys(ys, key)
    decreases |ys|
  {
    if ys != [] {
      var ys' := ys[..|ys| - 1];
      var xs' := TakeLast(xs, ys, key);
      DistinctKeysPermuted(xs', ys', key);
      KeysFrom(xs', ys', key, key(ys[|ys| - 1]));
      assert ys == ys' + [ys[|ys| - 1]];
    }
  }

  /** The page's groups come in strictly ascending key order. */
  lemma GroupsAscending(services: seq<Service>)
    ensures var groups := Groups(services);
      forall a, b :: 0 <= a < b < |groups| ==> LexLe(groups[a].0, groups[b].0) && groups[a].0 != groups[b].0
  {
    var items := GroupsByFirstKey(services);
    SortByCorrect(items, GroupName);
    DistinctKeysPermuted(items, Groups(services), GroupName);
  }

  /** Each group is the services of its key, sorted by name; and there is
      a group for exactly the keys the services carry. */
  lemma GroupsContents(services: seq<Service>)
    ensures var groups := Groups(services);
      && (forall i :: 0 <= i < |groups| ==> groups[i].1 == SortedGroup(services, groups[i].0))
      && (forall k :: k in KeySet(services, GroupKey) <==> exists i :: 0 <= i < |groups| && groups[i].0 == k)
  {
    var items := GroupsByFirstKey(services);
    var groups := Groups(services);
    SortByCorrect(items, GroupName);
    forall i | 0 <= i < |groups|
      ensures groups[i].1 == SortedGroup(services, groups[i].0)
      ensures groups[i].0 in KeySet(services, GroupKey)
    {
      assert groups[i] in multiset(items);
    }
    forall k | k in KeySet(services, GroupKey)
      ensures exists i :: 0 <= i < |groups| && groups[i].0 == k
    {
      var m :| 0 <= m < |items| && items[m].0 == k;
      assert items[m] in multiset(groups);
    }
  }


  /** Every service sits in the group of its own key as often as it is
      listed, and in no other group: nothing is dropped or duplicated. */
  lemma GroupsPartition(services: seq<Service>, x: Service, i: nat)
    requires i < |Groups(services)|
    ensures var g := Groups(services)[i];
      multiset(g.1)[x] == if g.0 == GroupKey(x) then multiset(services)[x] else 0
  {
    var g := Groups(services)[i];
    GroupsContents(services);
    SortByCorrect(WithKey(services, GroupKey, g.0), NameKey);
    if g.0 == GroupKey(x) {
      WithKeyMultiset(services, GroupKey, x);
    } else {
      assert x !in WithKey(services, GroupKey, g.0);
    }
  }

  /** Inside a group the services are ascending by lower-cased name, and
      services with the same lower-cased name keep their listed order. */
  lemma GroupSortedStable(services: seq<Service>, i: nat, name: string)
    requires i < |Groups(services)|
    ensures var g := Groups(services)[i];
      && SortedBy(g.1, NameKey)
      && WithKey(g.1, NameKey, name) == WithKey(WithKey(services, GroupKey, g.0), NameKey, name)
  {
    var g := Groups(services)[i];
    GroupsContents(services);
    SortByCorrect(WithKey(services, GroupKey, g.0), NameKey);
    SortByStable(WithKey(services, GroupKey, g.0), NameKey, name);
  }

  /** The body of `/healthz`. */
  datatype HealthReport = HealthReport(ok: bool, mode: string)

  /** `/healthz`: reports success and the mode; it is given no services, so
      it can neither read nor change them. */
  function Healthz(mode: string): (r: HealthReport)
    ensures r.ok && r.mode == mode
  {
    HealthReport(true, mode)
  }
}
