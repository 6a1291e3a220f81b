/** What a Python dict does when it is filled from a list with `d[key(x)] = x`:
    one entry per key, keys in the order of their first insertion, each
    holding the last value written under it. Also the sub-list of the
    elements with a given key. */
module Collections {
  import opened Wrappers

  /** The keys of the elements of `s`. */
  function KeySet<T>(s: seq<T>, key: T -> string): set<string>
  {
    if s == [] then {} else KeySet(s[..|s| - 1], key) + {key(s[|s| - 1])}
  }

  lemma {:induction false} KeySetMembers<T>(s: seq<T>, key: T -> string, k: string)
    ensures k in KeySet(s, key) <==> exists i :: 0 <= i < |s| && key(s[i]) == k
  {
    if s != [] {
      var p := s[..|s| - 1];
      KeySetMembers(p, key, k);
      if k in KeySet(p, key) {
        var i :| 0 <= i < |p| && key(p[i]) == k;
        assert key(s[i]) == k;
      }
      if exists i :: 0 <= i < |s| && key(s[i]) == k {
        var i :| 0 <= i < |s| && key(s[i]) == k;
        if i < |p| {
          assert key(p[i]) == k;
        }
      }
    }
  }

  /** The position of the last element of `s` whose key is `k`. */
  function LastIndex<T>(s: seq<T>, key: T -> string, k: string): (i: nat)
    requires k in KeySet(s, key)
    ensures i < |s| && key(s[i]) == k
    ensures forall j :: i < j < |s| ==> key(s[j]) != k
  {
    if key(s[|s| - 1]) == k then |s| - 1 else LastIndex(s[..|s| - 1], key, k)
  }

  /** The position of the first element of `s` whose key is `k`. */
  function FirstIndex<T>(s: seq<T>, key: T -> string, k: string): (i: nat)
    requires k in KeySet(s, key)
    ensures i < |s| && key(s[i]) == k
    ensures forall j :: 0 <= j < i ==> key(s[j]) != k
  {
    var p := s[..|s| - 1];
    if k in KeySet(p, key) then FirstIndex(p, key, k) else
      KeySetMembers(p, key, k);
      |s| - 1
  }

  /** The keys of `s`, each once, in the order in which they first occur. */
  function FirstKeys<T>(s: seq<T>, key: T -> string): (ks: seq<string>)
    ensures forall a, b :: 0 <= a < b < |ks| ==> ks[a] != ks[b]
    ensures forall k :: k in ks <==> k in KeySet(s, key)
  {
    if s == [] then []
    else
      var p := FirstKeys(s[..|s| - 1], key);
      var k := key(s[|s| - 1]);
      if k in p then p else p + [k]
  }

  /** Keys come out in the order of their first occurrence. */
  lemma {:induction false} FirstKeysOrder<T>(s: seq<T>, key: T -> string, a: nat, b: nat)
    requires a < b < |FirstKeys(s, key)|
    ensures FirstIndex(s, key, FirstKeys(s, key)[a]) < FirstIndex(s, key, FirstKeys(s, key)[b])
  {
    var p := s[..|s| - 1];
    var ks := FirstKeys(s, key);
    var pks := FirstKeys(p, key);
    if b < |pks| {
      FirstKeysOrder(p, key, a, b);
      assert ks[a] == pks[a] && ks[b] == pks[b];
    } else {
      assert ks[a] == pks[a] && ks[a] in KeySet(p, key);
      assert ks[b] !in KeySet(p, key);
    }
  }

  /** The dict itself: each key of `s` mapped to the last element with that key. */
  function ByKey<T>(s: seq<T>, key: T -> string): (m: map<string, T>)
    ensures m.Keys == KeySet(s, key)
  {
    if s == [] then map[] else ByKey(s[..|s| - 1], key)[key(s[|s| - 1]) := s[|s| - 1]]
  }

  /** Each key holds the last element written under it: later writes win. */
  lemma {:induction false} ByKeyLast<T>(s: seq<T>, key: T -> string)
    ensures forall k :: k in ByKey(s, key) ==> ByKey(s, key)[k] == s[LastIndex(s, key, k)]
  {
    if s != [] {
      var p := s[..|s| - 1];
      ByKeyLast(p, key);
      forall k | k in ByKey(s, key) && k != key(s[|s| - 1])
        ensures ByKey(s, key)[k] == s[LastIndex(s, key, k)]
      {
        assert ByKey(s, key)[k] == ByKey(p, key)[k];
        assert LastIndex(s, key, k) == LastIndex(p, key, k);
      }
    }
  }

  /** Every entry is stored under its own key. */
  lemma {:induction false} ByKeyKeys<T>(s: seq<T>, key: T -> string)
    ensures forall k :: k in ByKey(s, key) ==> key(ByKey(s, key)[k]) == k
  {
    if s != [] {
      ByKeyKeys(s[..|s| - 1], key);
    }
  }

  /** The dict's values in key order: `list(d.values())`. */
  function Collapse<T>(s: seq<T>, key: T -> string): (r: seq<T>)
    ensures |r| == |FirstKeys(s, key)|
    ensures forall i :: 0 <= i < |r| ==> key(r[i]) == FirstKeys(s, key)[i]
  {
    var ks := FirstKeys(s, key);
    var m := ByKey(s, key);
    ByKeyKeys(s, key);
    seq(|ks|, i requires 0 <= i < |ks| => m[ks[i]])
  }

  /** Each value of the collapsed list is the last element with its key. */
  lemma CollapseLast<T>(s: seq<T>, key: T -> string)
    ensures forall i :: 0 <= i < |Collapse(s, key)| ==>
      Collapse(s, key)[i] == s[LastIndex(s, key, FirstKeys(s, key)[i])]
  {
    ByKeyLast(s, key);
  }

  /** Every key of the list keeps an entry in the collapsed list. */
  lemma CollapseCovers<T>(s: seq<T>, key: T -> string)
    ensures var r := Collapse(s, key);
      forall k :: 0 <= k < |s| ==> exists i :: 0 <= i < |r| && key(r[i]) == key(s[k])
  {
    var r := Collapse(s, key);
    var ks := FirstKeys(s, key);
    forall k | 0 <= k < |s|
      ensures exists i :: 0 <= i < |r| && key(r[i]) == key(s[k])
    {
      KeySetMembers(s, key, key(s[k]));
      var i :| 0 <= i < |ks| && ks[i] == key(s[k]);
      assert key(r[i]) == ks[i];
    }
  }

  /** Each entry of the collapsed list is an element of the list that no
      later element with the same key overrides. */
  lemma CollapseLastWins<T>(s: seq<T>, key: T -> string)
    ensures var r := Collapse(s, key);
      forall i :: 0 <= i < |r| ==>
        exists j :: (0 <= j < |s| && r[i] == s[j] &&
                     forall k :: j < k < |s| ==> key(s[k]) != key(r[i]))
  {
    var r := Collapse(s, key);
    var ks := FirstKeys(s, key);
    CollapseLast(s, key);
    forall i | 0 <= i < |r|
      ensures exists j :: (0 <= j < |s| && r[i] == s[j] &&
                           forall k :: j < k < |s| ==> key(s[k]) != key(r[i]))
    {
      var j := LastIndex(s, key, ks[i]);
      assert r[i] == s[j];
    }
  }

  /** The collapsed list is ordered by the first appearance of each key. */
  lemma CollapseOrder<T>(s: seq<T>, key: T -> string)
    ensures var r := Collapse(s, key);
      forall a, b :: 0 <= a < b < |r| ==> FirstIndex(s, key, key(r[a])) < FirstIndex(s, key, key(r[b]))
  {
    var r := Collapse(s, key);
    forall a, b | 0 <= a < b < |r|
      ensures FirstIndex(s, key, key(r[a])) < FirstIndex(s, key, key(r[b]))
    {
      FirstKeysOrder(s, key, a, b);
    }
  }

  /** A prefix one longer is the prefix and the next element. */
  lemma PrefixStep<T>(s: seq<T>, i: nat)
    requires i < |s|
    ensures s[..i + 1] == s[..i] + [s[i]]
  {
  }

  /** The dict's values in key order are what looking up each key gives. */
  lemma CollapseLookup<T>(s: seq<T>, key: T -> string)
    ensures forall i :: 0 <= i < |FirstKeys(s, key)| ==>
      FirstKeys(s, key)[i] in ByKey(s, key) && ByKey(s, key)[FirstKeys(s, key)[i]] == Collapse(s, key)[i]
  {
  }

  /** Adding one element to the list: the key order after one more
      `d[key(x)] = x`. */
  lemma FirstKeysStep<T>(s: seq<T>, key: T -> string, x: T)
    ensures FirstKeys(s + [x], key) == if key(x) in FirstKeys(s, key) then FirstKeys(s, key) else FirstKeys(s, key) + [key(x)]
  {
    assert (s + [x])[..|s|] == s;
  }

  /** Adding one element to the list: the entries after one more
      `d[key(x)] = x`. */
  lemma ByKeyStep<T>(s: seq<T>, key: T -> string, x: T)
    ensures ByKey(s + [x], key) == ByKey(s, key)[key(x) := x]
  {
    assert (s + [x])[..|s|] == s;
  }

  /** A list without repeated elements has as many elements as its set. */
  lemma {:induction false} DistinctCard(ks: seq<string>)
    requires forall a, b :: 0 <= a < b < |ks| ==> ks[a] != ks[b]
    ensures |set k | k in ks| == |ks|
  {
    if ks != [] {
      var p := ks[..|ks| - 1];
      DistinctCard(p);
      assert (set k | k in ks) == (set k | k in p) + {ks[|ks| - 1]};
    }
  }

  /** The elements of `s` whose key is `k`, in their order in `s`. */
  function WithKey<T>(s: seq<T>, key: T -> string, k: string): (r: seq<T>)
    ensures |r| <= |s|
    ensures forall i :: 0 <= i < |r| ==> key(r[i]) == k
  {
    if s == [] then []
    else WithKey(s[..|s| - 1], key, k) + (if key(s[|s| - 1]) == k then [s[|s| - 1]] else [])
  }

  lemma {:induction false} WithKeyConcat<T>(a: seq<T>, b: seq<T>, key: T -> string, k: string)
    ensures WithKey(a + b, key, k) == WithKey(a, key, k) + WithKey(b, key, k)
    decreases |b|
  {
    if b != [] {
      var b' := b[..|b| - 1];
      assert (a + b)[..|a + b| - 1] == a + b';
      WithKeyConcat(a, b', key, k);
    } else {
      assert a + b == a;
    }
  }

  /** Every element of `s` is in the sub-list of its own key and in no other. */
  lemma {:induction false} WithKeyMultiset<T>(s: seq<T>, key: T -> string, x: T)
    ensures multiset(WithKey(s, key, key(x)))[x] == multiset(s)[x]
  {
    if s != [] {
      var p := s[..|s| - 1];
      WithKeyMultiset(p, key, x);
      assert s == p + [s[|s| - 1]];
    }
  }

  /** The values `f` gives for the elements of `s`, in order, skipping the
      elements it maps to `None`. */
  function FilterMap<T, U>(s: seq<T>, f: T -> Option<U>): (r: seq<U>)
    ensures |r| <= |s|
  {
    if s == [] then []
    else FilterMap(s[..|s| - 1], f) + (match f(s[|s| - 1]) case Some(v) => [v] case None => [])
  }

  lemma {:induction false} FilterMapConcat<T, U>(a: seq<T>, b: seq<T>, f: T -> Option<U>)
    ensures FilterMap(a + b, f) == FilterMap(a, f) + FilterMap(b, f)
    decreases |b|
  {
    if b != [] {
      var b' := b[..|b| - 1];
      assert (a + b)[..|a + b| - 1] == a + b';
      FilterMapConcat(a, b', f);
    } else {
      assert a + b == a;
    }
  }

  /** One more element of a prefix. */
  lemma FilterMapStep<T, U>(s: seq<T>, i: nat, f: T -> Option<U>)
    requires i < |s|
    ensures FilterMap(s[..i + 1], f) == FilterMap(s[..i], f) + (match f(s[i]) case Some(v) => [v] case None => [])
  {
    assert s[..i + 1][..i] == s[..i];
  }

  /** The lists `f` gives for the elements of `s`, concatenated in order. */
  function Flat<T, U>(s: seq<T>, f: T -> seq<U>): seq<U> {
    if s == [] then [] else Flat(s[..|s| - 1], f) + f(s[|s| - 1])
  }

  /** Flattening works part by part, so the order of `s` is kept. */
  lemma {:induction false} FlatConcat<T, U>(a: seq<T>, b: seq<T>, f: T -> seq<U>)
    ensures Flat(a + b, f) == Flat(a, f) + Flat(b, f)
    decreases |b|
  {
    if b == [] {
      assert a + b == a;
    } else {
      var b' := b[..|b| - 1];
      assert (a + b)[..|a + b| - 1] == a + b';
      FlatConcat(a, b', f);
    }
  }

  /** An element mapped to `None` contributes nothing. */
  lemma FilterMapSkips<T, U>(before: seq<T>, x: T, after: seq<T>, f: T -> Option<U>)
    requires f(x).None?
    ensures FilterMap(before + [x] + after, f) == FilterMap(before + after, f)
  {
    FilterMapConcat(before + [x], after, f);
    FilterMapConcat(before, [x], f);
    FilterMapConcat(before, after, f);
    assert [x][..0] == [];
  }
}
