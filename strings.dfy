/** The few Python `str` operations the core relies on: `strip()`, `lower()`
    (ASCII letters only), `startswith`, `split`/`join` on one character,
    `rsplit(sep, 1)`, slicing to a maximum length, and the conversions
    `int(text)` and `str(number)` in base 10. */
module Strings {
  import opened Wrappers

  /** The characters Python's `str.strip()` removes: the ASCII whitespace
      (including the separators 0x1C-0x1F) and the Unicode space characters. */
  predicate IsSpace(c: char) {
    || c == ' '
    || ('\t' <= c <= '\r')
    || ('\U{1C}' <= c <= '\U{1F}')
    || c == '\U{85}' || c == '\U{A0}' || c == '\U{1680}'
    || ('\U{2000}' <= c <= '\U{200A}')
    || c == '\U{2028}' || c == '\U{2029}' || c == '\U{202F}' || c == '\U{205F}' || c == '\U{3000}'
  }

  /** No whitespace at either end. */
  predicate IsStripped(s: string) {
    s == [] || (!IsSpace(s[0]) && !IsSpace(s[|s| - 1]))
  }

  /** Python's `s.strip()`: drops whitespace at both ends. */
  function Strip(s: string): (r: string)
    ensures IsStripped(r)
    ensures |r| <= |s|
    ensures IsStripped(s) ==> r == s
    ensures r == [] <==> forall k :: 0 <= k < |s| ==> IsSpace(s[k])
    decreases |s|
  {
    if s != [] && IsSpace(s[0]) then Strip(s[1..])
    else if s != [] && IsSpace(s[|s| - 1]) then Strip(s[..|s| - 1])
    else s
  }

  /** Python's `str.lower()` on one character, for the ASCII letters. */
  function LowerChar(c: char): char {
    if 'A' <= c <= 'Z' then (c as int + 32) as char else c
  }

  /** Python's `s.lower()`, restricted to ASCII letters. */
  function Lower(s: string): (r: string)
    ensures |r| == |s|
    ensures forall k :: 0 <= k < |s| ==> r[k] == LowerChar(s[k])
  {
    seq(|s|, k requires 0 <= k < |s| => LowerChar(s[k]))
  }

  lemma LowerCharKeepsSpace(c: char)
    ensures IsSpace(LowerChar(c)) == IsSpace(c)
    ensures LowerChar(LowerChar(c)) == LowerChar(c)
  {
  }

  /** Lower-casing neither adds nor removes whitespace at the ends. */
  lemma LowerKeepsStripped(s: string)
    requires IsStripped(s)
    ensures IsStripped(Lower(s))
  {
    if s != [] {
      LowerCharKeepsSpace(s[0]);
      LowerCharKeepsSpace(s[|s| - 1]);
    }
  }

  lemma LowerIdempotent(s: string)
    ensures Lower(Lower(s)) == Lower(s)
  {
    forall k | 0 <= k < |s| ensures Lower(Lower(s))[k] == Lower(s)[k] {
      LowerCharKeepsSpace(s[k]);
    }
  }

  /** `Lower(Strip(s))` is how the source normalises modes, types and
      flags: normalising twice changes nothing. */
  lemma LowerStripIdempotent(s: string)
    ensures Lower(Strip(Lower(Strip(s)))) == Lower(Strip(s))
  {
    var t := Lower(Strip(s));
    LowerKeepsStripped(Strip(s));
    assert Strip(t) == t;
    LowerIdempotent(Strip(s));
  }

  /** Python's `s.startswith(p)`. */
  predicate StartsWith(s: string, p: string) {
    |p| <= |s| && s[..|p|] == p
  }

  /** The index of the first `c` in `s`. */
  function IndexOf(s: string, c: char): (i: nat)
    requires c in s
    ensures i < |s| && s[i] == c && c !in s[..i]
  {
    if s[0] == c then 0 else 1 + IndexOf(s[1..], c)
  }

  /** The index of the last `c` in `s`. */
  function LastIndexOf(s: string, c: char): (i: nat)
    requires c in s
    ensures i < |s| && s[i] == c && c !in s[i + 1..]
  {
    if s[|s| - 1] == c then |s| - 1 else LastIndexOf(s[..|s| - 1], c)
  }

  /** Python's `s.split(c)`: the pieces between the occurrences of `c`,
      empty pieces included, always at least one piece. */
  function Split(s: string, c: char): (parts: seq<string>)
    ensures |parts| >= 1
    ensures forall k :: 0 <= k < |parts| ==> c !in parts[k]
    decreases |s|
  {
    if c in s then
      var i := IndexOf(s, c);
      [s[..i]] + Split(s[i + 1..], c)
    else
      [s]
  }

  /** Python's `c.join(parts)`. */
  function Join(parts: seq<string>, c: char): string {
    if parts == [] then ""
    else if |parts| == 1 then parts[0]
    else parts[0] + [c] + Join(parts[1..], c)
  }

  /** In `p + [c] + t` with no `c` in `p`, the first `c` is the one after `p`. */
  lemma {:induction false} FirstSeparator(p: string, c: char, t: string)
    requires c !in p
    ensures c in p + [c] + t
    ensures IndexOf(p + [c] + t, c) == |p|
    ensures (p + [c] + t)[..|p|] == p && (p + [c] + t)[|p| + 1..] == t
  {
    var s := p + [c] + t;
    assert s[|p|] == c;
    if p != [] {
      FirstSeparator(p[1..], c, t);
      assert s[1..] == p[1..] + [c] + t;
    }
  }

  /** Joining a first piece onto at least one more. */
  lemma JoinCons(x: string, parts: seq<string>, c: char)
    requires |parts| >= 1
    ensures Join([x] + parts, c) == x + [c] + Join(parts, c)
  {
    assert ([x] + parts)[0] == x;
    assert ([x] + parts)[1..] == parts;
  }

  /** Splitting the joined pieces gives the pieces back. */
  lemma {:induction false} SplitJoin(parts: seq<string>, c: char)
    requires |parts| >= 1
    requires forall k :: 0 <= k < |parts| ==> c !in parts[k]
    ensures Split(Join(parts, c), c) == parts
  {
    if |parts| > 1 {
      var p := parts[0];
      var rest := parts[1..];
      var t := Join(rest, c);
      assert parts == [p] + rest;
      JoinCons(p, rest, c);
      FirstSeparator(p, c, t);
      SplitJoin(rest, c);
    }
  }

  /** Joining the pieces of a split gives the text back. */
  lemma {:induction false} JoinSplit(s: string, c: char)
    ensures Join(Split(s, c), c) == s
    decreases |s|
  {
    if c in s {
      var i := IndexOf(s, c);
      var rest := Split(s[i + 1..], c);
      assert Split(s, c) == [s[..i]] + rest;
      JoinCons(s[..i], rest, c);
      JoinSplit(s[i + 1..], c);
      assert s == s[..i] + [c] + s[i + 1..];
    }
  }

  /** Python's `s[:n]`. */
  function Truncate(s: string, n: nat): (r: string)
    ensures |r| <= n && StartsWith(s, r)
    ensures |s| <= n ==> r == s
    ensures |s| > n ==> r == s[..n]
  {
    if |s| <= n then s else s[..n]
  }

  predicate IsDigit(c: char) {
    '0' <= c <= '9'
  }

  /** The value of the decimal digits of `s`, any other character skipped. */
  function DigitsValue(s: string): nat {
    if s == [] then 0
    else if IsDigit(s[|s| - 1]) then DigitsValue(s[..|s| - 1]) * 10 + (s[|s| - 1] as int - '0' as int)
    else DigitsValue(s[..|s| - 1])
  }

  /** The body of a base-10 integer literal as Python's `int()` accepts it:
      digits, with single underscores allowed between two digits. */
  predicate IsDecimalLiteral(b: string) {
    && |b| > 0
    && IsDigit(b[0])
    && IsDigit(b[|b| - 1])
    && (forall k :: 0 <= k < |b| ==> IsDigit(b[k]) || b[k] == '_')
    && (forall k :: 0 <= k < |b| - 1 ==> IsDigit(b[k]) || IsDigit(b[k + 1]))
  }

  /** The value of a decimal literal, `None` for any other text. */
  function ParseLiteral(b: string): (r: Option<nat>)
    ensures r.Some? <==> IsDecimalLiteral(b)
  {
    if IsDecimalLiteral(b) then Some(DigitsValue(b)) else None
  }

  /** Python's `int(text)` in base 10, with `None` where it raises
      `ValueError`: surrounding whitespace, one optional sign, then a
      decimal literal. */
  function ParseInt(text: string): (r: Option<int>)
  {
    var t := Strip(text);
    if t != [] && (t[0] == '-' || t[0] == '+') then
      match ParseLiteral(t[1..])
      case None => None
      case Some(v) => Some(if t[0] == '-' then -(v as int) else v)
    else
      match ParseLiteral(t)
      case None => None
      case Some(v) => Some(v)
  }

  lemma DigitNotSpace(c: char)
    requires IsDigit(c) || c == '-'
    ensures !IsSpace(c)
  {
  }

  function DigitChar(d: nat): char
    requires d < 10
  {
    ('0' as int + d) as char
  }

  /** Python's `str(n)` for a non-negative integer. */
  function NatToString(n: nat): (s: string)
    ensures |s| >= 1
    ensures forall k :: 0 <= k < |s| ==> IsDigit(s[k])
  {
    if n < 10 then [DigitChar(n)] else NatToString(n / 10) + [DigitChar(n % 10)]
  }

  /** Python's `str(n)` for any integer. */
  function IntToString(n: int): (s: string)
    ensures |s| >= 1
    ensures forall k :: 0 <= k < |s| ==> IsDigit(s[k]) || s[k] == '-'
  {
    if n < 0 then "-" + NatToString(-n) else NatToString(n)
  }

  lemma {:induction false} DigitsValueOfNatToString(n: nat)
    ensures DigitsValue(NatToString(n)) == n
  {
    var s := NatToString(n);
    if n >= 10 {
      DigitsValueOfNatToString(n / 10);
      assert s[..|s| - 1] == NatToString(n / 10);
    }
  }

  lemma NatToStringIsLiteral(n: nat)
    ensures IsDecimalLiteral(NatToString(n))
    ensures IsStripped(NatToString(n))
  {
    var d := NatToString(n);
    DigitNotSpace(d[0]);
    DigitNotSpace(d[|d| - 1]);
  }

  lemma ParseIntOfPositive(t: string)
    requires IsDecimalLiteral(t)
    ensures ParseInt(t) == Some(DigitsValue(t))
  {
    DigitNotSpace(t[0]);
    DigitNotSpace(t[|t| - 1]);
    assert Strip(t) == t;
  }

  lemma ParseIntOfNegative(t: string)
    requires IsDecimalLiteral(t)
    ensures ParseInt("-" + t) == Some(-(DigitsValue(t) as int))
  {
    var s := "-" + t;
    assert Strip(s) == s by {
      DigitNotSpace('-');
      DigitNotSpace(t[|t| - 1]);
      assert s[|s| - 1] == t[|t| - 1];
    }
    assert s[1..] == t;
  }

  /** `int(str(n)) == n`: the conversions are inverse. */
  lemma ParseIntOfIntToString(n: int)
    ensures ParseInt(IntToString(n)) == Some(n)
  {
    var m: nat := if n < 0 then -n else n;
    DigitsValueOfNatToString(m);
    NatToStringIsLiteral(m);
    if n < 0 {
      ParseIntOfNegative(NatToString(m));
    } else {
      ParseIntOfPositive(NatToString(m));
    }
  }

  /** In `a + [c] + b` with no `c` in `b`, the last `c` is the one after `a`. */
  lemma {:induction false} LastSeparator(a: string, c: char, b: string)
    requires c !in b
    ensures c in a + [c] + b
    ensures LastIndexOf(a + [c] + b, c) == |a|
    ensures (a + [c] + b)[..|a|] == a && (a + [c] + b)[|a| + 1..] == b
  {
    var s := a + [c] + b;
    assert s[|a|] == c;
    if b != [] {
      var b' := b[..|b| - 1];
      LastSeparator(a, c, b');
      assert s[..|s| - 1] == a + [c] + b';
    }
  }

  /** A rendered integer holds nothing but digits and a minus sign. */
  lemma IntStringAvoids(n: int, c: char)
    requires !IsDigit(c) && c != '-'
    ensures c !in IntToString(n)
  {
    var digits := IntToString(n);
    assert forall k :: 0 <= k < |digits| ==> digits[k] != c;
  }

  /** In `host:port` the last colon is the one before the port, whatever
      the host contains, and it splits the text back into host and port. */
  lemma LastColonOfHostPort(host: string, port: int)
    ensures ':' in host + ":" + IntToString(port)
    ensures LastIndexOf(host + ":" + IntToString(port), ':') == |host|
    ensures (host + ":" + IntToString(port))[..|host|] == host
    ensures (host + ":" + IntToString(port))[|host| + 1..] == IntToString(port)
  {
    IntStringAvoids(port, ':');
    LastSeparator(host, ':', IntToString(port));
  }
}
