/** Python's `sorted(xs, key=f)` for string keys: a stable sort in the
    code-point order of the keys. */
module Sorting {
  import opened Collections

  /** Python's `a <= b` on strings: lexicographic by code point. */
  predicate LexLe(a: string, b: string) {
    a == [] || (b != [] && (a[0] < b[0] || (a[0] == b[0] && LexLe(a[1..], b[1..]))))
  }

  lemma {:induction false} LexLeTotal(a: string, b: string)
    ensures LexLe(a, b) || LexLe(b, a)
  {
    if a != [] && b != [] && a[0] == b[0] {
      LexLeTotal(a[1..], b[1..]);
    }
  }

  lemma {:induction false} LexLeTrans(a: string, b: string, c: string)
    requires LexLe(a, b) && LexLe(b, c)
    ensures LexLe(a, c)
  {
    if a != [] && b != [] && c != [] && a[0] == b[0] == c[0] {
      LexLeTrans(a[1..], b[1..], c[1..]);
    }
  }

  lemma {:induction false} LexLeAntisymmetric(a: string, b: string)
    requires LexLe(a, b) && LexLe(b, a)
    ensures a == b
  {
    if a != [] && b != [] {
      LexLeAntisymmetric(a[1..], b[1..]);
      assert a == [a[0]] + a[1..] && b == [b[0]] + b[1..];
    }
  }

  lemma {:induction false} LexLeReflexive(a: string)
    ensures LexLe(a, a)
  {
    if a != [] {
      LexLeReflexive(a[1..]);
    }
  }

  predicate SortedBy<T>(s: seq<T>, key: T -> string) {
    forall i, j :: 0 <= i < j < |s| ==> LexLe(key(s[i]), key(s[j]))
  }

  /** Puts `x` after every element whose key is not above its own. */
  function Insert<T>(t: seq<T>, x: T, key: T -> string): (r: seq<T>)
    ensures |r| == |t| + 1
  {
    if t == [] then [x]
    else if LexLe(key(t[|t| - 1]), key(x)) then t + [x]
    else Insert(t[..|t| - 1], x, key) + [t[|t| - 1]]
  }

  /** Insertion sort, taking the elements from the front. */
  function SortBy<T>(s: seq<T>, key: T -> string): (r: seq<T>)
    ensures |r| == |s|
  {
    if s == [] then [] else Insert(SortBy(s[..|s| - 1], key), s[|s| - 1], key)
  }

  lemma {:induction false} InsertPermutes<T>(t: seq<T>, x: T, key: T -> string)
    ensures multiset(Insert(t, x, key)) == multiset(t) + multiset{x}
  {
    if t != [] && !LexLe(key(t[|t| - 1]), key(x)) {
      InsertPermutes(t[..|t| - 1], x, key);
      assert t == t[..|t| - 1] + [t[|t| - 1]];
    }
  }

  lemma {:induction false} InsertSorted<T>(t: seq<T>, x: T, key: T -> string)
    requires SortedBy(t, key)
    ensures SortedBy(Insert(t, x, key), key)
  {
    if t == [] {
    } else if LexLe(key(t[|t| - 1]), key(x)) {
      var r := t + [x];
      forall i, j | 0 <= i < j < |r| ensures LexLe(key(r[i]), key(r[j])) {
        if j == |t| && i < |t| - 1 {
          LexLeTrans(key(t[i]), key(t[|t| - 1]), key(x));
        }
      }
    } else {
      var p := t[..|t| - 1];
      var last := t[|t| - 1];
      var q := Insert(p, x, key);
      InsertSorted(p, x, key);
      InsertPermutes(p, x, key);
      LexLeTotal(key(last), key(x));
      var r := q + [last];
      forall i, j | 0 <= i < j < |r| ensures LexLe(key(r[i]), key(r[j])) {
        if j == |q| {
          assert r[i] in multiset(q);
          if r[i] != x {
            assert r[i] in p;
          }
        }
      }
    }
  }

  /** `sorted` returns the same elements, in order of their keys. */
  lemma {:induction false} SortByCorrect<T>(s: seq<T>, key: T -> string)
    ensures SortedBy(SortBy(s, key), key)
    ensures multiset(SortBy(s, key)) == multiset(s)
  {
    if s != [] {
      var p := s[..|s| - 1];
      SortByCorrect(p, key);
      InsertSorted(SortBy(p, key), s[|s| - 1], key);
      InsertPermutes(SortBy(p, key), s[|s| - 1], key);
      assert s == p + [s[|s| - 1]];
    }
  }

  lemma WithKeySingle<T>(x: T, key: T -> string, k: string)
    ensures WithKey([x], key, k) == if key(x) == k then [x] else []
  {
    assert [x][..0] == [];
  }

  /** Two elements with different keys cannot both be kept for one key. */
  lemma SwapSingles<T>(w: seq<T>, x: T, y: T, key: T -> string, k: string)
    requires key(x) != key(y)
    ensures w + WithKey([x], key, k) + WithKey([y], key, k) == w + WithKey([y], key, k) + WithKey([x], key, k)
  {
    WithKeySingle(x, key, k);
    WithKeySingle(y, key, k);
    if key(x) == k {
      assert WithKey([y], key, k) == [];
    } else {
      assert WithKey([x], key, k) == [];
    }
  }

  lemma {:induction false} InsertWithKey<T>(t: seq<T>, x: T, key: T -> string, k: string)
    ensures WithKey(Insert(t, x, key), key, k) == WithKey(t, key, k) + WithKey([x], key, k)
  {
    if t == [] {
      assert Insert(t, x, key) == [x];
    } else if LexLe(key(t[|t| - 1]), key(x)) {
      assert Insert(t, x, key) == t + [x];
      WithKeyConcat(t, [x], key, k);
    } else {
      var p := t[..|t| - 1];
      var last := t[|t| - 1];
      var q := Insert(p, x, key);
      var wp := WithKey(p, key, k);
      calc {
        WithKey(Insert(t, x, key), key, k);
        == { assert Insert(t, x, key) == q + [last]; }
        WithKey(q + [last], key, k);
        == { WithKeyConcat(q, [last], key, k); }
        WithKey(q, key, k) + WithKey([last], key, k);
        == { InsertWithKey(p, x, key, k); }
        wp + WithKey([x], key, k) + WithKey([last], key, k);
        == { LexLeReflexive(key(x));
             SwapSingles(wp, x, last, key, k); }
        wp + WithKey([last], key, k) + WithKey([x], key, k);
        == { assert t == p + [last];
             WithKeyConcat(p, [last], key, k); }
        WithKey(t, key, k) + WithKey([x], key, k);
      }
    }
  }

  /** `sorted` is stable: the elements sharing a key keep their relative order. */
  lemma {:induction false} SortByStable<T>(s: seq<T>, key: T -> string, k: string)
    ensures WithKey(SortBy(s, key), key, k) == WithKey(s, key, k)
  {
    if s != [] {
      var p := s[..|s| - 1];
      SortByStable(p, key, k);
      InsertWithKey(SortBy(p, key), s[|s| - 1], key, k);
      WithKeyConcat(p, [s[|s| - 1]], key, k);
      assert s == p + [s[|s| - 1]];
    }
  }
}
