/** Helpers shared by every module: an option type, order-preserving filters
    and counts, the string operations the TypeScript and JavaScript sources
    rely on (`includes`, `toLowerCase`, `trim`, `startsWith`, `join`), number
    formatting inside template strings, `Math.round`, and association lists
    standing for JavaScript objects, whose string keys keep insertion order. */
module Common {

  datatype Option<T> = None | Some(value: T)

  // ---------------------------------------------------------------------
  // Order-preserving filters (`Array.prototype.filter`) and counts
  // ---------------------------------------------------------------------

  /** The elements of `s` that satisfy `p`, in their original order. */
  function Filter<T>(s: seq<T>, p: T -> bool): (r: seq<T>)
    ensures |r| <= |s|
    decreases |s|
  {
    if |s| == 0 then []
    else Filter(s[..|s| - 1], p) + (if p(s[|s| - 1]) then [s[|s| - 1]] else [])
  }

  /** The filter keeps exactly the elements that satisfy the predicate. */
  lemma {:induction false} FilterMembers<T>(s: seq<T>, p: T -> bool)
    ensures forall x | x in Filter(s, p) :: x in s && p(x)
    ensures forall x | x in s && p(x) :: x in Filter(s, p)
    decreases |s|
  {
    if |s| > 0 {
      var init, last := s[..|s| - 1], s[|s| - 1];
      FilterMembers(init, p);
      assert s == init + [last];
      assert forall x :: x in s <==> x in init || x == last;
    }
  }

  /** `s.map(f)`: `f` applied to every element, in order. */
  function Map<A, B>(s: seq<A>, f: A -> B): (r: seq<B>)
    ensures |r| == |s|
    decreases |s|
  {
    if |s| == 0 then [] else Map(s[..|s| - 1], f) + [f(s[|s| - 1])]
  }

  /** Element `k` of the mapped list is `f` of element `k`. */
  lemma {:induction false} MapAt<A, B>(s: seq<A>, f: A -> B)
    ensures forall k :: 0 <= k < |s| ==> Map(s, f)[k] == f(s[k])
    decreases |s|
  {
    if |s| > 0 {
      var init := s[..|s| - 1];
      MapAt(init, f);
      forall k | 0 <= k < |s|
        ensures Map(s, f)[k] == f(s[k])
      {
        if k < |init| {
          assert s[k] == init[k];
        }
      }
    }
  }

  /** `s.filter(p).length` */
  function Count<T>(s: seq<T>, p: T -> bool): nat
  {
    |Filter(s, p)|
  }

  /** One more element at the end: the step a left-to-right loop takes. */
  lemma FilterSnoc<T>(s: seq<T>, x: T, p: T -> bool)
    ensures Filter(s + [x], p) == Filter(s, p) + (if p(x) then [x] else [])
  {
    assert (s + [x])[..|s + [x]| - 1] == s;
  }

  lemma {:induction false} FilterAppend<T>(a: seq<T>, b: seq<T>, p: T -> bool)
    ensures Filter(a + b, p) == Filter(a, p) + Filter(b, p)
    decreases |b|
  {
    if |b| == 0 {
      assert a + b == a;
    } else {
      var b' := b[..|b| - 1];
      var x := b[|b| - 1];
      assert b == b' + [x];
      assert a + b == (a + b') + [x];
      FilterAppend(a, b', p);
      FilterSnoc(a + b', x, p);
      FilterSnoc(b', x, p);
    }
  }

  /** Filtering by two predicates that agree on every element gives the same list. */
  lemma {:induction false} FilterCongruent<T>(s: seq<T>, p: T -> bool, q: T -> bool)
    requires forall x :: x in s ==> p(x) == q(x)
    ensures Filter(s, p) == Filter(s, q)
    decreases |s|
  {
    if |s| > 0 {
      assert forall x :: x in s[..|s| - 1] ==> x in s;
      FilterCongruent(s[..|s| - 1], p, q);
    }
  }

  /** A filter that keeps every element keeps the list as it is. */
  lemma {:induction false} FilterKeepsAll<T>(s: seq<T>, p: T -> bool)
    requires forall x :: x in s ==> p(x)
    ensures Filter(s, p) == s
    decreases |s|
  {
    if |s| > 0 {
      var init, last := s[..|s| - 1], s[|s| - 1];
      forall x | x in init
        ensures p(x)
      {
        var i :| 0 <= i < |init| && init[i] == x;
        assert s[i] == x;
      }
      assert p(last) by {
        assert s[|s| - 1] in s;
      }
      FilterKeepsAll(init, p);
      assert s == init + [last];
    }
  }

  /** When exactly one of `p` and `q` holds of every element, the two filters
      split the list: their sizes add up to the length of the list. */
  lemma {:induction false} FilterSplit<T>(s: seq<T>, p: T -> bool, q: T -> bool)
    requires forall x :: x in s ==> (p(x) <==> !q(x))
    ensures |Filter(s, p)| + |Filter(s, q)| == |s|
    decreases |s|
  {
    if |s| > 0 {
      assert forall x :: x in s[..|s| - 1] ==> x in s;
      FilterSplit(s[..|s| - 1], p, q);
    }
  }

  /** `r` is an order-preserving sub-list of `s`. */
  ghost predicate IsSublist<T>(r: seq<T>, s: seq<T>)
    decreases |s|
  {
    if |r| == 0 then true
    else if |s| == 0 then false
    else if r[|r| - 1] == s[|s| - 1] then
      IsSublist(r[..|r| - 1], s[..|s| - 1]) || IsSublist(r, s[..|s| - 1])
    else IsSublist(r, s[..|s| - 1])
  }

  lemma {:induction false} FilterIsSublist<T>(s: seq<T>, p: T -> bool)
    ensures IsSublist(Filter(s, p), s)
    decreases |s|
  {
    if |s| > 0 {
      var s' := s[..|s| - 1];
      FilterIsSublist(s', p);
      var r := Filter(s, p);
      assert s[..|s| - 1] == s';
      if p(s[|s| - 1]) {
        assert r[..|r| - 1] == Filter(s', p);
        assert r[|r| - 1] == s[|s| - 1];
      } else {
        assert r == Filter(s', p);
      }
    }
  }

  // ---------------------------------------------------------------------
  // Strings
  // ---------------------------------------------------------------------

  /** `text.includes(pattern)`: `pattern` occurs in `text` at some offset;
      the empty pattern occurs in every text. */
  predicate Contains(text: string, pattern: string)
    decreases |text|
  {
    || (|pattern| <= |text| && text[..|pattern|] == pattern)
    || (|text| > 0 && Contains(text[1..], pattern))
  }

  /** `pattern` occurs in `text` at position `i`. */
  predicate OccursAt(text: string, pattern: string, i: int)
    requires 0 <= i <= |text| - |pattern|
  {
    text[i..i + |pattern|] == pattern
  }

  /** An occurrence at any position is a containment. */
  lemma {:induction false} ContainsAt(text: string, pattern: string, i: nat)
    requires i <= |text| - |pattern| && OccursAt(text, pattern, i)
    ensures Contains(text, pattern)
    decreases i
  {
    if i > 0 {
      assert text[1..][i - 1..i - 1 + |pattern|] == text[i..i + |pattern|];
      ContainsAt(text[1..], pattern, i - 1);
    } else {
      assert text[..|pattern|] == text[0..|pattern|];
    }
  }

  /** A containment has a position. */
  lemma {:induction false} ContainsWitness(text: string, pattern: string) returns (i: nat)
    requires Contains(text, pattern)
    ensures i <= |text| - |pattern| && OccursAt(text, pattern, i)
    decreases |text|
  {
    if |pattern| <= |text| && text[..|pattern|] == pattern {
      assert text[0..|pattern|] == text[..|pattern|];
      i := 0;
    } else {
      var j := ContainsWitness(text[1..], pattern);
      assert text[1..][j..j + |pattern|] == text[j + 1..j + 1 + |pattern|];
      i := j + 1;
    }
  }

  /** `text.includes(pattern)` holds exactly when `pattern` occurs at some position. */
  lemma ContainsSpec(text: string, pattern: string)
    ensures Contains(text, pattern) <==> exists i :: 0 <= i <= |text| - |pattern| && OccursAt(text, pattern, i)
  {
    if Contains(text, pattern) {
      var i := ContainsWitness(text, pattern);
    }
    if exists i :: 0 <= i <= |text| - |pattern| && OccursAt(text, pattern, i) {
      var i :| 0 <= i <= |text| - |pattern| && OccursAt(text, pattern, i);
      ContainsAt(text, pattern, i);
    }
  }

  lemma ContainsSlice(text: string, i: nat, j: nat)
    requires i <= j <= |text|
    ensures Contains(text, text[i..j])
  {
    assert OccursAt(text, text[i..j], i);
    ContainsAt(text, text[i..j], i);
  }

  lemma ContainsTransitive(a: string, b: string, c: string)
    requires Contains(a, b) && Contains(b, c)
    ensures Contains(a, c)
  {
    var i := ContainsWitness(a, b);
    var j := ContainsWitness(b, c);
    forall k | 0 <= k < |c| ensures a[i + j + k] == c[k] {
      assert c[k] == b[j..j + |c|][k] == b[j + k];
      assert b[j + k] == a[i..i + |b|][j + k] == a[i + j + k];
    }
    assert a[i + j..i + j + |c|] == c;
    ContainsAt(a, c, i + j);
  }

  /** `toLowerCase` on one character (ASCII letters only). */
  function LowerChar(c: char): char
  {
    if 'A' <= c <= 'Z' then (c as int + 32) as char else c
  }

  /** `s.toLowerCase()`, character by character. */
  function Lower(s: string): (r: string)
    ensures |r| == |s|
    decreases |s|
  {
    if |s| == 0 then [] else Lower(s[..|s| - 1]) + [LowerChar(s[|s| - 1])]
  }

  /** Lower-casing works character by character. */
  lemma {:induction false} LowerSpec(s: string)
    ensures forall i :: 0 <= i < |s| ==> Lower(s)[i] == LowerChar(s[i])
    decreases |s|
  {
    if |s| > 0 {
      LowerSpec(s[..|s| - 1]);
    }
  }

  /** Lower-casing twice is lower-casing once. */
  lemma LowerIdempotent(s: string)
    ensures Lower(Lower(s)) == Lower(s)
  {
    LowerSpec(s);
    LowerSpec(Lower(s));
    forall i | 0 <= i < |s| ensures Lower(Lower(s))[i] == Lower(s)[i] {
      var c := s[i];
      assert LowerChar(LowerChar(c)) == LowerChar(c);
    }
  }

  /** The characters JavaScript's `trim` removes (white space and line terminators). */
  predicate IsJsWhitespace(c: char)
  {
    || c == ' ' || c == '\t' || c == '\n' || c == '\r' || c == '\U{0B}' || c == '\U{0C}'
    || c == '\U{A0}' || c == '\U{1680}' || ('\U{2000}' <= c <= '\U{200A}')
    || c == '\U{2028}' || c == '\U{2029}' || c == '\U{202F}' || c == '\U{205F}'
    || c == '\U{3000}' || c == '\U{FEFF}'
  }

  function TrimStart(s: string): (r: string)
    ensures |r| <= |s| && r == s[|s| - |r|..]
    ensures r == [] || !IsJsWhitespace(r[0])
    decreases |s|
  {
    if |s| > 0 && IsJsWhitespace(s[0]) then TrimStart(s[1..]) else s
  }

  function TrimEnd(s: string): (r: string)
    ensures |r| <= |s| && r == s[..|r|]
    ensures r == [] || !IsJsWhitespace(r[|r| - 1])
    decreases |s|
  {
    if |s| > 0 && IsJsWhitespace(s[|s| - 1]) then TrimEnd(s[..|s| - 1]) else s
  }

  /** `s.trim()`: a piece of `s` with no white space at either end. */
  function Trim(s: string): (r: string)
    ensures Contains(s, r)
    ensures r == [] || (!IsJsWhitespace(r[0]) && !IsJsWhitespace(r[|r| - 1]))
  {
    var t := TrimStart(s);
    var r := TrimEnd(t);
    ContainsSlice(t, 0, |r|);
    assert t[0..|r|] == r;
    ContainsSlice(s, |s| - |t|, |s|);
    assert s[|s| - |t|..|s|] == t;
    ContainsTransitive(s, t, r);
    r
  }

  /** `s.startsWith(prefix)` */
  predicate StartsWith(s: string, prefix: string)
  {
    |prefix| <= |s| && s[..|prefix|] == prefix
  }

  /** `parts.join(sep)` */
  function Join(parts: seq<string>, sep: string): string
    decreases |parts|
  {
    if |parts| == 0 then ""
    else if |parts| == 1 then parts[0]
    else Join(parts[..|parts| - 1], sep) + sep + parts[|parts| - 1]
  }

  // ---------------------------------------------------------------------
  // Numbers in template strings, and Math.round
  // ---------------------------------------------------------------------

  predicate IsDigit(c: char)
  {
    '0' <= c <= '9'
  }

  function DigitChar(d: nat): (c: char)
    requires d < 10
    ensures IsDigit(c) && c as int - '0' as int == d
  {
    ('0' as int + d) as char
  }

  /** The decimal numeral of `n`, as a template literal prints a non-negative integer. */
  function NatToString(n: nat): (r: string)
    ensures |r| >= 1
    decreases n
  {
    if n < 10 then [DigitChar(n)] else NatToString(n / 10) + [DigitChar(n % 10)]
  }

  /** A numeral is made of digits and has no leading zero. */
  lemma {:induction false} NatToStringDigits(n: nat)
    ensures forall i :: 0 <= i < |NatToString(n)| ==> IsDigit(NatToString(n)[i])
    ensures NatToString(n)[0] == '0' ==> n == 0
    decreases n
  {
    if n >= 10 {
      NatToStringDigits(n / 10);
      assert NatToString(n)[0] == NatToString(n / 10)[0];
    }
  }

  /** The value of a string of decimal digits. */
  function DigitsValue(s: string): nat
    requires forall i :: 0 <= i < |s| ==> IsDigit(s[i])
    decreases |s|
  {
    if |s| == 0 then 0
    else
      assert IsDigit(s[|s| - 1]);
      DigitsValue(s[..|s| - 1]) * 10 + (s[|s| - 1] as int - '0' as int)
  }

  /** Reading the numeral back gives the number: the numbers a template names
      can be recovered from the text. */
  lemma {:induction false} NatToStringRoundTrip(n: nat)
    ensures var s := NatToString(n); (forall i :: 0 <= i < |s| ==> IsDigit(s[i])) && DigitsValue(s) == n
    decreases n
  {
    NatToStringDigits(n);
    if n >= 10 {
      NatToStringDigits(n / 10);
      NatToStringRoundTrip(n / 10);
      var s := NatToString(n);
      assert s[..|s| - 1] == NatToString(n / 10);
    }
  }

  lemma NatToStringInjective(a: nat, b: nat)
    requires NatToString(a) == NatToString(b)
    ensures a == b
  {
    NatToStringRoundTrip(a);
    NatToStringRoundTrip(b);
  }

  lemma ConcatAssoc<T>(a: seq<T>, b: seq<T>, c: seq<T>, d: seq<T>, e: seq<T>)
    ensures a + b + c + d + e == a + (b + (c + (d + e)))
  {
  }

  lemma DropCommonPrefix<T>(a: seq<T>, u: seq<T>, u': seq<T>)
    requires a + u == a + u'
    ensures u == u'
  {
    assert u == (a + u)[|a|..];
    assert u' == (a + u')[|a|..];
  }

  /** In a numeral followed by a non-digit, the first non-digit ends the numeral. */
  lemma NumeralEnds(a: nat, rest: string)
    requires |rest| > 0 && !IsDigit(rest[0])
    ensures forall i :: 0 <= i <= |NatToString(a)| ==> (IsDigit((NatToString(a) + rest)[i]) <==> i < |NatToString(a)|)
  {
    NatToStringDigits(a);
  }

  /** A numeral followed by text that starts with a non-digit can be split off
      unambiguously: the numbers and the remaining texts agree. */
  lemma NumeralPrefix(a: nat, b: nat, rest: string, rest': string)
    requires |rest| > 0 && !IsDigit(rest[0]) && |rest'| > 0 && !IsDigit(rest'[0])
    requires NatToString(a) + rest == NatToString(b) + rest'
    ensures a == b && rest == rest'
  {
    var x, y := NatToString(a), NatToString(b);
    NumeralEnds(a, rest);
    NumeralEnds(b, rest');
    var k := if |x| <= |y| then |x| else |y|;
    assert (x + rest)[k] == (y + rest')[k];
    assert |x| == |y|;
    assert x == (x + rest)[..|x|] && y == (y + rest')[..|y|];
    assert rest == (x + rest)[|x|..] && rest' == (y + rest')[|y|..];
    NatToStringInjective(a, b);
  }

  /** The numeral of an integer, with a leading minus sign when it is negative. */
  function IntToString(i: int): string
  {
    if i < 0 then "-" + NatToString(-i) else NatToString(i)
  }

  /** `Math.round(x)`: the nearest integer, halves rounded up. */
  function Round(x: real): int
  {
    (x + 0.5).Floor
  }

  lemma RoundOfInteger(n: int)
    ensures Round(n as real) == n
  {
  }

  /** Rounding keeps a value between two integer bounds. */
  lemma RoundBetween(x: real, lo: int, hi: int)
    requires lo as real <= x <= hi as real
    ensures lo <= Round(x) <= hi
  {
  }

  /** A share `x / t` of a positive whole lies in [0, 1], at the ends exactly
      for nothing and for everything. */
  lemma RatioInUnit(x: real, t: real)
    requires t > 0.0 && 0.0 <= x <= t
    ensures 0.0 <= x / t <= 1.0
    ensures x / t == 1.0 <==> x == t
    ensures x / t == 0.0 <==> x == 0.0
  {
    assert (x / t) * t == x;
  }

  /** Dividing by a positive number keeps the order. */
  lemma DivMonotone(x: real, y: real, t: real)
    requires t > 0.0 && x <= y
    ensures x / t <= y / t
  {
    assert (x / t) * t == x && (y / t) * t == y;
  }

  function Min(a: real, b: real): real
  {
    if a <= b then a else b
  }

  function MaxInt(a: int, b: int): int
  {
    if a >= b then a else b
  }

  // ---------------------------------------------------------------------
  // Association lists: JavaScript objects used as dictionaries
  // ---------------------------------------------------------------------

  function Keys<K, V>(m: seq<(K, V)>): (r: seq<K>)
    ensures |r| == |m|
    ensures forall i {:trigger r[i]} :: 0 <= i < |m| ==> r[i] == m[i].0
  {
    seq(|m|, i requires 0 <= i < |m| => m[i].0)
  }

  ghost predicate DistinctKeys<K, V>(m: seq<(K, V)>)
  {
    forall i, j :: 0 <= i < j < |m| ==> m[i].0 != m[j].0
  }

  lemma KeysCons<K, V>(x: (K, V), t: seq<(K, V)>)
    ensures Keys([x] + t) == [x.0] + Keys(t)
  {
    var r := [x] + t;
    assert forall i :: 0 < i < |r| ==> Keys(r)[i] == Keys(t)[i - 1];
  }

  /** `obj[k]`, or None when the key is absent (`undefined`). */
  function Lookup<K(==), V>(m: seq<(K, V)>, k: K): (r: Option<V>)
    ensures r.Some? <==> k in Keys(m)
    ensures r.Some? ==> (k, r.value) in m
    decreases |m|
  {
    if |m| == 0 then None
    else if m[0].0 == k then assert Keys(m)[0] == k; Some(m[0].1)
    else
      assert m == [m[0]] + m[1..];
      KeysCons(m[0], m[1..]);
      Lookup(m[1..], k)
  }

  /** `obj[k] = v`: an existing key keeps its place, a new key goes last. */
  function Put<K(==, !new), V>(m: seq<(K, V)>, k: K, v: V): (r: seq<(K, V)>)
    ensures forall k' :: Lookup(r, k') == if k' == k then Some(v) else Lookup(m, k')
    ensures Keys(r) == if k in Keys(m) then Keys(m) else Keys(m) + [k]
    decreases |m|
  {
    if |m| == 0 then [(k, v)]
    else
      assert m == [m[0]] + m[1..];
      KeysCons(m[0], m[1..]);
      if m[0].0 == k then
        KeysCons((k, v), m[1..]);
        [(k, v)] + m[1..]
      else
        var t := Put(m[1..], k, v);
        KeysCons(m[0], t);
        [m[0]] + t
  }

  lemma PutKeepsDistinct<K(!new), V>(m: seq<(K, V)>, k: K, v: V)
    requires DistinctKeys(m)
    ensures DistinctKeys(Put(m, k, v))
  {
    var r := Put(m, k, v);
    var km, kr := Keys(m), Keys(r);
    forall i, j | 0 <= i < j < |r| ensures r[i].0 != r[j].0 {
      assert kr[i] == r[i].0 && kr[j] == r[j].0;
      if k in km {
        assert km[i] == m[i].0 && km[j] == m[j].0;
      } else if j < |m| {
        assert km[i] == m[i].0 && km[j] == m[j].0;
      }
    }
  }

  /** Assigning a key the object does not have yet appends it. */
  lemma {:induction false} PutNew<K(!new), V>(m: seq<(K, V)>, k: K, v: V)
    requires k !in Keys(m)
    ensures Put(m, k, v) == m + [(k, v)]
    decreases |m|
  {
    if |m| > 0 {
      assert m == [m[0]] + m[1..];
      KeysCons(m[0], m[1..]);
      PutNew(m[1..], k, v);
    }
  }

  /** With distinct keys, each entry is what its key looks up. */
  lemma {:induction false} LookupAt<K, V>(m: seq<(K, V)>, i: nat)
    requires DistinctKeys(m) && i < |m|
    ensures Lookup(m, m[i].0) == Some(m[i].1)
    decreases i
  {
    if i > 0 {
      assert m[0].0 != m[i].0;
      assert DistinctKeys(m[1..]) by {
        forall a, b | 0 <= a < b < |m[1..]| ensures m[1..][a].0 != m[1..][b].0 {
          assert m[1..][a] == m[a + 1] && m[1..][b] == m[b + 1];
        }
      }
      LookupAt(m[1..], i - 1);
    }
  }

  /** Setting a key twice is setting it to the second value. */
  lemma {:induction false} PutTwice<K(!new), V>(m: seq<(K, V)>, k: K, a: V, b: V)
    ensures Put(Put(m, k, a), k, b) == Put(m, k, b)
    decreases |m|
  {
    if |m| > 0 && m[0].0 != k {
      PutTwice(m[1..], k, a, b);
    }
  }

  /** `Object.values(obj).reduce((a, b) => a + b, 0)` */
  function SumValues<K>(m: seq<(K, real)>): real
    decreases |m|
  {
    if |m| == 0 then 0.0 else m[0].1 + SumValues(m[1..])
  }

  /** Setting a key replaces its old value (0 when absent) in the sum. */
  lemma {:induction false} SumAfterPut<K(!new)>(m: seq<(K, real)>, k: K, v: real)
    ensures SumValues(Put(m, k, v)) == SumValues(m) - (if Lookup(m, k).Some? then Lookup(m, k).value else 0.0) + v
    decreases |m|
  {
    if |m| > 0 && m[0].0 != k {
      SumAfterPut(m[1..], k, v);
      assert Put(m, k, v)[1..] == Put(m[1..], k, v);
    }
  }
}
