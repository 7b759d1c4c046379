/** String operations of Ruby's core library that the identifier renderers
    rely on: ASCII `downcase`, single-character `gsub`, `split` and `join`,
    byte-wise `sort` of strings, integer `to_s` and `sprintf('%02d')`. */
module RubyText {

  datatype Option<+T> = None | Some(value: T) {
    function GetOr(default: T): T {
      match this
      case Some(v) => v
      case None => default
    }
  }

  // ---------------------------------------------------------------------
  // Case mapping and character replacement
  // ---------------------------------------------------------------------

  function LowerChar(c: char): char {
    if 'A' <= c <= 'Z' then (c as int + 32) as char else c
  }

  /** `String#downcase` restricted to the ASCII letters. */
  function Downcase(s: string): (r: string)
    ensures |r| == |s|
    ensures forall i :: 0 <= i < |s| ==> r[i] == LowerChar(s[i])
    ensures forall i :: 0 <= i < |r| ==> !('A' <= r[i] <= 'Z')
  {
    if s == [] then [] else [LowerChar(s[0])] + Downcase(s[1..])
  }

  /** `String#gsub(from, to)` for one-character patterns. */
  function Gsub(s: string, from: char, to: char): (r: string)
    ensures |r| == |s|
    ensures forall i :: 0 <= i < |s| ==> r[i] == (if s[i] == from then to else s[i])
    ensures from != to ==> from !in r
  {
    if s == [] then [] else [if s[0] == from then to else s[0]] + Gsub(s[1..], from, to)
  }

  // ---------------------------------------------------------------------
  // split and join
  // ---------------------------------------------------------------------

  /** `Array#join(sep)` on strings. */
  function Join(xs: seq<string>, sep: string): string {
    if xs == [] then "" else if |xs| == 1 then xs[0] else xs[0] + sep + Join(xs[1..], sep)
  }

  /** Every field between separators, empty ones included. */
  function SplitFields(s: string, c: char): (r: seq<string>)
    ensures |r| >= 1
    ensures forall k :: 0 <= k < |r| ==> c !in r[k]
    decreases |s|
  {
    if s == [] then [""]
    else
      var rest := SplitFields(s[1..], c);
      if s[0] == c then [""] + rest else [[s[0]] + rest[0]] + rest[1..]
  }

  function DropTrailingEmpty(xs: seq<string>): (r: seq<string>)
    ensures |r| <= |xs| && r == xs[..|r|]
    ensures |r| > 0 ==> r[|r| - 1] != ""
    ensures forall k :: |r| <= k < |xs| ==> xs[k] == ""
  {
    if xs == [] then []
    else if xs[|xs| - 1] == "" then DropTrailingEmpty(xs[..|xs| - 1])
    else xs
  }

  /** `String#split(c)`: the fields between occurrences of `c`, with
      trailing empty fields removed (so "a/" gives ["a"] and "/" gives []). */
  function Split(s: string, c: char): (r: seq<string>)
    ensures forall k :: 0 <= k < |r| ==> c !in r[k]
    ensures |r| > 0 ==> r[|r| - 1] != ""
  {
    DropTrailingEmpty(SplitFields(s, c))
  }

  lemma {:induction false} SplitFieldsOfJoin(xs: seq<string>, c: char)
    requires |xs| >= 1
    requires forall k :: 0 <= k < |xs| ==> c !in xs[k]
    ensures SplitFields(Join(xs, [c]), c) == xs
    decreases |Join(xs, [c])|
  {
    if |xs| == 1 {
      NoSeparatorOneField(xs[0], c);
    } else {
      var tail := Join(xs[1..], [c]);
      assert Join(xs, [c]) == xs[0] + [c] + tail;
      SplitFieldsOfJoin(xs[1..], c);
      SplitFieldsOfPrefix(xs[0], c, tail);
    }
  }

  lemma {:induction false} NoSeparatorOneField(s: string, c: char)
    requires c !in s
    ensures SplitFields(s, c) == [s]
  {
    if s != [] {
      NoSeparatorOneField(s[1..], c);
      assert s == [s[0]] + s[1..];
    }
  }

  /** Splitting `w + [c] + t`, where `w` has no separator, yields `w`
      followed by the fields of `t`. */
  lemma {:induction false} SplitFieldsOfPrefix(w: string, c: char, t: string)
    requires c !in w
    ensures SplitFields(w + [c] + t, c) == [w] + SplitFields(t, c)
    decreases |w|
  {
    var s := w + [c] + t;
    if w == [] {
      assert s[0] == c && s[1..] == t;
    } else {
      assert s[0] == w[0] && s[1..] == w[1..] + [c] + t;
      SplitFieldsOfPrefix(w[1..], c, t);
      assert w == [w[0]] + w[1..];
    }
  }

  /** Splitting a `sep`-joined list whose last element is non-empty gives
      the list back: `split` is the inverse of `join`. */
  lemma SplitOfJoin(xs: seq<string>, c: char)
    requires |xs| >= 1 && xs[|xs| - 1] != ""
    requires forall k :: 0 <= k < |xs| ==> c !in xs[k]
    ensures Split(Join(xs, [c]), c) == xs
  {
    SplitFieldsOfJoin(xs, c);
  }

  // ---------------------------------------------------------------------
  // Byte-wise ordering of strings and Array#sort
  // ---------------------------------------------------------------------

  /** `a <= b` in Ruby's String ordering (code-point, hence UTF-8 byte, order). */
  predicate Below(a: string, b: string) {
    |a| == 0 || (|b| > 0 && (a[0] < b[0] || (a[0] == b[0] && Below(a[1..], b[1..]))))
  }

  lemma BelowReflexive(a: string)
    ensures Below(a, a)
  {
  }

  lemma {:induction false} BelowAntisymmetric(a: string, b: string)
    requires Below(a, b) && Below(b, a)
    ensures a == b
  {
    if |a| > 0 && |b| > 0 {
      BelowAntisymmetric(a[1..], b[1..]);
      assert a == [a[0]] + a[1..] && b == [b[0]] + b[1..];
    }
  }

  lemma {:induction false} BelowTransitive(a: string, b: string, c: string)
    requires Below(a, b) && Below(b, c)
    ensures Below(a, c)
  {
    if |a| > 0 && a[0] == b[0] && b[0] == c[0] {
      BelowTransitive(a[1..], b[1..], c[1..]);
    }
  }

  lemma {:induction false} BelowTotal(a: string, b: string)
    ensures Below(a, b) || Below(b, a)
  {
    if |a| > 0 && |b| > 0 && a[0] == b[0] {
      BelowTotal(a[1..], b[1..]);
    }
  }

  ghost predicate Sorted(xs: seq<string>) {
    forall i, j :: 0 <= i < j < |xs| ==> Below(xs[i], xs[j])
  }

  /** Inserts `x` into the sorted list `xs` before its first greater element. */
  function Insert(x: string, xs: seq<string>): (r: seq<string>)
    requires Sorted(xs)
    ensures Sorted(r)
    ensures multiset(r) == multiset(xs) + multiset{x}
  {
    if xs == [] then [x]
    else if Below(x, xs[0]) then
      assert forall j :: 0 < j < |xs| ==> Below(x, xs[j]) by {
        forall j | 0 < j < |xs| ensures Below(x, xs[j]) {
          BelowTransitive(x, xs[0], xs[j]);
        }
      }
      [x] + xs
    else
      var rest := Insert(x, xs[1..]);
      assert xs == [xs[0]] + xs[1..];
      InsertBounded(x, xs, rest);
      [xs[0]] + rest
  }

  lemma InsertBounded(x: string, xs: seq<string>, rest: seq<string>)
    requires xs != [] && Sorted(xs) && !Below(x, xs[0])
    requires Sorted(rest) && multiset(rest) == multiset(xs[1..]) + multiset{x}
    ensures Sorted([xs[0]] + rest)
  {
    BelowTotal(x, xs[0]);
    forall j | 0 <= j < |rest| ensures Below(xs[0], rest[j]) {
      assert rest[j] in multiset(rest);
      if rest[j] != x {
        assert rest[j] in multiset(xs[1..]);
        var k :| 0 <= k < |xs[1..]| && xs[1..][k] == rest[j];
        assert xs[k + 1] == rest[j];
      }
    }
  }

  /** `Array#sort` of strings (an insertion sort: the result is unique, so
      any correct sorting algorithm gives the same list). */
  function Sort(xs: seq<string>): (r: seq<string>)
    ensures Sorted(r)
    ensures multiset(r) == multiset(xs)
  {
    if xs == [] then []
    else
      assert xs == [xs[0]] + xs[1..];
      Insert(xs[0], Sort(xs[1..]))
  }

  /** The head of a sorted list is below every element of the list. */
  lemma HeadBelow(b: seq<string>, x: string)
    requires Sorted(b) && x in multiset(b)
    ensures Below(b[0], x)
  {
    var i :| 0 <= i < |b| && b[i] == x;
    if i == 0 { BelowReflexive(x); }
  }

  lemma TailMultiset(a: seq<string>)
    requires a != []
    ensures multiset(a[1..]) == multiset(a) - multiset{a[0]}
  {
    assert a == [a[0]] + a[1..];
  }

  /** Two sorted lists with the same elements are the same list. */
  lemma {:induction false} SortedUnique(a: seq<string>, b: seq<string>)
    requires Sorted(a) && Sorted(b) && multiset(a) == multiset(b)
    ensures a == b
    decreases |a|
  {
    assert |a| == |multiset(a)| == |multiset(b)| == |b|;
    if a != [] {
      assert a[0] in multiset(b) && b[0] in multiset(a);
      HeadBelow(b, a[0]);
      HeadBelow(a, b[0]);
      BelowAntisymmetric(a[0], b[0]);
      TailMultiset(a);
      TailMultiset(b);
      SortedUnique(a[1..], b[1..]);
      assert a == [a[0]] + a[1..] && b == [b[0]] + b[1..];
    }
  }

  /** Sorting forgets the input order: permutations sort alike. */
  lemma SortOrderIndependent(xs: seq<string>, ys: seq<string>)
    requires multiset(xs) == multiset(ys)
    ensures Sort(xs) == Sort(ys)
  {
    SortedUnique(Sort(xs), Sort(ys));
  }

  // ---------------------------------------------------------------------
  // Frozen string-to-string Hash constants: `hash[key]` and `hash.key(value)`
  // ---------------------------------------------------------------------

  /** `hash[k]`: the value stored under `k`, or nil. */
  function ValueOf(t: seq<(string, string)>, k: string): (r: Option<string>)
    ensures r.Some? <==> exists i :: 0 <= i < |t| && t[i].0 == k
    ensures r.Some? ==> (k, r.value) in t
  {
    if t == [] then None
    else if t[0].0 == k then Some(t[0].1)
    else
      var r := ValueOf(t[1..], k);
      assert forall i :: 1 <= i < |t| ==> t[i] == t[1..][i - 1];
      r
  }

  /** `hash.key(v)`: the first key whose value is `v`, or nil. */
  function KeyOf(t: seq<(string, string)>, v: string): (r: Option<string>)
    ensures r.Some? <==> exists i :: 0 <= i < |t| && t[i].1 == v
    ensures r.Some? ==> (r.value, v) in t
  {
    if t == [] then None
    else if t[0].1 == v then Some(t[0].0)
    else
      var r := KeyOf(t[1..], v);
      assert forall i :: 1 <= i < |t| ==> t[i] == t[1..][i - 1];
      r
  }

  ghost predicate KeysUnique(t: seq<(string, string)>) {
    forall i, j :: 0 <= i < j < |t| ==> t[i].0 != t[j].0
  }

  ghost predicate ValuesUnique(t: seq<(string, string)>) {
    forall i, j :: 0 <= i < j < |t| ==> t[i].1 != t[j].1
  }

  /** With distinct values, the reverse lookup of an entry's value finds
      exactly that entry's key. */
  lemma {:induction false} KeyOfEntry(t: seq<(string, string)>, i: nat)
    requires ValuesUnique(t) && i < |t|
    ensures KeyOf(t, t[i].1) == Some(t[i].0)
  {
    if i > 0 {
      assert t[0].1 != t[i].1;
      assert t[1..][i - 1] == t[i];
      KeyOfEntry(t[1..], i - 1);
    }
  }

  /** With distinct keys, the forward lookup of an entry's key finds
      exactly that entry's value. */
  lemma {:induction false} ValueOfEntry(t: seq<(string, string)>, i: nat)
    requires KeysUnique(t) && i < |t|
    ensures ValueOf(t, t[i].0) == Some(t[i].1)
  {
    if i > 0 {
      assert t[0].0 != t[i].0;
      assert t[1..][i - 1] == t[i];
      ValueOfEntry(t[1..], i - 1);
    }
  }

  /** A one-to-one table: translating a key and looking the translation up
      again gives the key back, and vice versa. */
  lemma LookupRoundTrip(t: seq<(string, string)>, k: string, v: string)
    requires KeysUnique(t) && ValuesUnique(t)
    ensures ValueOf(t, k) == Some(v) <==> KeyOf(t, v) == Some(k)
  {
    if ValueOf(t, k) == Some(v) {
      var i :| 0 <= i < |t| && t[i] == (k, v);
      KeyOfEntry(t, i);
    }
    if KeyOf(t, v) == Some(k) {
      var i :| 0 <= i < |t| && t[i] == (k, v);
      ValueOfEntry(t, i);
    }
  }

  // ---------------------------------------------------------------------
  // Integer#to_s and sprintf('%02d')
  // ---------------------------------------------------------------------

  function Digit(d: nat): char
    requires d < 10
  {
    ('0' as int + d) as char
  }

  predicate IsDigit(c: char) {
    '0' <= c <= '9'
  }

  /** Decimal representation of a natural number, no leading zeros. */
  function NatToString(n: nat): (r: string)
    ensures |r| >= 1
    ensures forall k :: 0 <= k < |r| ==> IsDigit(r[k])
    ensures |r| > 1 ==> r[0] != '0'
  {
    if n < 10 then [Digit(n)] else NatToString(n / 10) + [Digit(n % 10)]
  }

  /** The value of a string of decimal digits. */
  function DigitsValue(s: string): nat
    requires forall k :: 0 <= k < |s| ==> IsDigit(s[k])
  {
    if s == [] then 0
    else
      var last := s[|s| - 1];
      assert IsDigit(last);
      DigitsValue(s[..|s| - 1]) * 10 + (last as int - '0' as int)
  }

  lemma {:induction false} NatToStringRoundTrip(n: nat)
    ensures DigitsValue(NatToString(n)) == n
  {
    var s := NatToString(n);
    if n >= 10 {
      NatToStringRoundTrip(n / 10);
      assert s[..|s| - 1] == NatToString(n / 10);
    }
  }

  /** `Integer#to_s`. */
  /** Decimal digits, after an optional minus sign. */
  predicate IsDecimal(s: string) {
    |s| >= 1 && forall k :: (if s[0] == '-' then 1 else 0) <= k < |s| ==> IsDigit(s[k])
  }

  function IntToString(i: int): (r: string)
    ensures IsDecimal(r)
    ensures i < 0 <==> r[0] == '-'
  {
    if i < 0 then "-" + NatToString(-i) else NatToString(i)
  }

  /** The integer a string written by `IntToString` denotes. */
  function SignedValue(s: string): int
    requires IsDecimal(s)
  {
    if s[0] == '-' then -(DigitsValue(s[1..]) as int) else DigitsValue(s)
  }

  lemma IntToStringRoundTrip(i: int)
    ensures SignedValue(IntToString(i)) == i
  {
    if i < 0 {
      NatToStringRoundTrip(-i);
      assert IntToString(i)[1..] == NatToString(-i);
    } else {
      NatToStringRoundTrip(i);
    }
  }

  /** `sprintf('%02d', n)`: at least two characters, zero-padded on the
      left; a negative number already has two characters with its sign. */
  function Sprintf02d(n: int): (r: string)
    ensures |r| >= 2
    ensures 0 <= n < 100 ==>
      |r| == 2 && IsDigit(r[0]) && IsDigit(r[1]) && (r[0] as int - '0' as int) * 10 + (r[1] as int - '0' as int) == n
  {
    if n < 0 then IntToString(n)
    else if n < 10 then "0" + NatToString(n)
    else
      assert n < 100 ==> NatToString(n) == NatToString(n / 10) + [Digit(n % 10)] == [Digit(n / 10), Digit(n % 10)];
      NatToString(n)
  }
}
