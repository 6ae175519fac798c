/**
 * The parts of Python's `str` behaviour the governance core relies on:
 * `strip()`, `lower()`, `in` (substring), `startswith`, decimal rendering of
 * integers, code-point ordering of strings and `sorted(set(...))`.
 */
module Text {

  /** Python's `str.isspace()` for one character (the full Unicode list). */
  predicate IsSpace(c: char) {
    var n := c as int;
    (0x09 <= n <= 0x0D) || (0x1C <= n <= 0x20) || n == 0x85 || n == 0xA0 ||
    n == 0x1680 || (0x2000 <= n <= 0x200A) || n == 0x2028 || n == 0x2029 ||
    n == 0x202F || n == 0x205F || n == 0x3000
  }

  /** `not s.strip()`: the string is empty or whitespace only. */
  predicate IsBlank(s: string) {
    forall i | 0 <= i < |s| :: IsSpace(s[i])
  }

  /** The number of whitespace characters `s.lstrip()` removes. */
  function LeadingSpaces(s: string): (n: nat)
    ensures n <= |s|
    ensures n < |s| ==> !IsSpace(s[n])
  {
    if s != [] && IsSpace(s[0]) then 1 + LeadingSpaces(s[1..]) else 0
  }

  lemma {:induction false} LeadingSpacesAreBlank(s: string)
    ensures IsBlank(s[..LeadingSpaces(s)])
  {
    if s != [] && IsSpace(s[0]) {
      LeadingSpacesAreBlank(s[1..]);
      assert s[..LeadingSpaces(s)] == [s[0]] + s[1..][..LeadingSpaces(s[1..])];
    }
  }

  /** The length of `s.rstrip()`. */
  function TrailingEnd(s: string): (e: nat)
    ensures e <= |s|
    ensures e > 0 ==> !IsSpace(s[e - 1])
  {
    if s != [] && IsSpace(s[|s| - 1]) then TrailingEnd(s[..|s| - 1]) else |s|
  }

  lemma {:induction false} TrailingSpacesAreBlank(s: string)
    ensures IsBlank(s[TrailingEnd(s)..])
  {
    if s != [] && IsSpace(s[|s| - 1]) {
      TrailingSpacesAreBlank(s[..|s| - 1]);
      assert s[TrailingEnd(s)..] == s[..|s| - 1][TrailingEnd(s[..|s| - 1])..] + [s[|s| - 1]];
    }
  }

  /** Whitespace at the end of `s` is not counted by `TrailingEnd`, so it never ends before a non-space. */
  lemma {:induction false} TrailingEndCovers(s: string, i: nat)
    requires i < |s| && !IsSpace(s[i])
    ensures i < TrailingEnd(s)
  {
    if s != [] && IsSpace(s[|s| - 1]) {
      TrailingEndCovers(s[..|s| - 1], i);
    }
  }

  /** Python's `s.strip()`: the slice between the leading and the trailing whitespace. */
  function Strip(s: string): (r: string)
    ensures |r| <= |s|
    ensures r == [] || (!IsSpace(r[0]) && !IsSpace(r[|r| - 1]))
  {
    var a := LeadingSpaces(s);
    var e := TrailingEnd(s);
    if e <= a then [] else s[a..e]
  }

  /**
   * The stripped string is the slice of `s` that starts where the leading
   * whitespace ends, and it is empty exactly when `s` is blank.
   */
  lemma StripSlice(s: string)
    ensures OccursAt(s, Strip(s), LeadingSpaces(s))
    ensures Strip(s) == [] <==> IsBlank(s)
  {
    var a := LeadingSpaces(s);
    var e := TrailingEnd(s);
    if a < |s| {
      TrailingEndCovers(s, a);
    } else {
      LeadingSpacesAreBlank(s);
      assert s[..a] == s;
    }
  }

  /** A string with no whitespace at either end is its own strip. */
  lemma StripTrimmed(s: string)
    requires s == [] || (!IsSpace(s[0]) && !IsSpace(s[|s| - 1]))
    ensures Strip(s) == s
  {
    if s != [] {
      assert LeadingSpaces(s) == 0;
      assert TrailingEnd(s) == |s|;
      assert s[0..|s|] == s;
    }
  }

  lemma {:induction false} LeadingSpacesOfPadded(pre: string, rest: string)
    requires IsBlank(pre) && rest != [] && !IsSpace(rest[0])
    ensures LeadingSpaces(pre + rest) == |pre|
  {
    if pre != [] {
      assert (pre + rest)[1..] == pre[1..] + rest;
      LeadingSpacesOfPadded(pre[1..], rest);
    }
  }

  lemma {:induction false} TrailingEndOfPadded(rest: string, post: string)
    requires IsBlank(post) && rest != [] && !IsSpace(rest[|rest| - 1])
    ensures TrailingEnd(rest + post) == |rest|
  {
    if post != [] {
      var s := rest + post;
      assert s[..|s| - 1] == rest + post[..|post| - 1];
      TrailingEndOfPadded(rest, post[..|post| - 1]);
    }
  }

  /** Surrounding whitespace is exactly what `strip()` removes. */
  lemma StripPadded(pre: string, x: string, post: string)
    requires IsBlank(pre) && IsBlank(post)
    requires x != [] && !IsSpace(x[0]) && !IsSpace(x[|x| - 1])
    ensures Strip(pre + x + post) == x
  {
    var s := pre + x + post;
    assert s == pre + (x + post);
    LeadingSpacesOfPadded(pre, x + post);
    TrailingEndOfPadded(pre + x, post);
    assert s[|pre|..|pre| + |x|] == x;
  }

  /** Stripping twice is stripping once. */
  lemma StripIdempotent(s: string)
    ensures Strip(Strip(s)) == Strip(s)
  {
    StripTrimmed(Strip(s));
  }

  function LowerChar(c: char): char {
    if 'A' <= c <= 'Z' then (c as int + 32) as char else c
  }

  /** Python's `s.lower()` restricted to ASCII letters. */
  function Lower(s: string): (r: string)
    ensures |r| == |s|
    ensures forall i | 0 <= i < |s| :: r[i] == LowerChar(s[i])
  {
    seq(|s|, i requires 0 <= i < |s| => LowerChar(s[i]))
  }

  predicate IsPrefix(p: string, s: string) {
    p == [] || (s != [] && p[0] == s[0] && IsPrefix(p[1..], s[1..]))
  }

  /** Python's `needle in hay`. */
  predicate Contains(hay: string, needle: string) {
    |needle| <= |hay| && (IsPrefix(needle, hay) || Contains(hay[1..], needle))
  }

  lemma {:induction false} IsPrefixIff(p: string, s: string)
    ensures IsPrefix(p, s) <==> |p| <= |s| && s[..|p|] == p
  {
    if p != [] && s != [] {
      IsPrefixIff(p[1..], s[1..]);
      if |p| <= |s| && s[..|p|] == p {
        assert s[1..][..|p| - 1] == p[1..];
      }
      if IsPrefix(p, s) {
        assert s[..|p|] == [s[0]] + s[1..][..|p| - 1];
      }
    }
  }

  /** Python's `needle.lower() in hay.lower()`. */
  predicate ContainsIgnoringCase(hay: string, needle: string) {
    Contains(Lower(hay), Lower(needle))
  }

  /** `needle` occurs in `hay` starting at index `i`. */
  predicate OccursAt(hay: string, needle: string, i: int) {
    0 <= i <= |hay| - |needle| && hay[i..i + |needle|] == needle
  }

  /** `needle in hay` holds exactly when some window of `hay` equals `needle`. */
  lemma {:induction false} ContainsIff(hay: string, needle: string)
    ensures Contains(hay, needle) <==> exists i :: OccursAt(hay, needle, i)
  {
    IsPrefixIff(needle, hay);
    if |needle| <= |hay| {
      if IsPrefix(needle, hay) {
        assert OccursAt(hay, needle, 0);
      } else if hay != [] {
        ContainsIff(hay[1..], needle);
        if Contains(hay[1..], needle) {
          var i :| OccursAt(hay[1..], needle, i);
          assert hay[i + 1..i + 1 + |needle|] == hay[1..][i..i + |needle|];
          assert OccursAt(hay, needle, i + 1);
        }
        forall i | OccursAt(hay, needle, i) ensures Contains(hay, needle) {
          if i > 0 {
            assert hay[1..][i - 1..i - 1 + |needle|] == hay[i..i + |needle|];
            assert OccursAt(hay[1..], needle, i - 1);
          }
        }
      }
    }
  }

  /** The lower-case letter `c` occurs in `s` in neither case. */
  predicate AbsentIgnoringCase(c: char, s: string) {
    'a' <= c <= 'z' && c !in s && (c as int - 32) as char !in s
  }

  lemma AbsentAt(c: char, s: string, j: int)
    requires AbsentIgnoringCase(c, s) && 0 <= j < |s|
    ensures LowerChar(s[j]) != c
  {
    assert s[j] in s;
  }

  /** Where a needle occurs, ignoring case, each of its characters meets its counterpart in the haystack. */
  lemma WindowChar(hay: string, needle: string, i: int, k: nat)
    requires k < |needle|
    ensures OccursAt(Lower(hay), Lower(needle), i) ==> LowerChar(hay[i + k]) == LowerChar(needle[k])
  {
    if OccursAt(Lower(hay), Lower(needle), i) {
      assert Lower(hay)[i..i + |needle|][k] == Lower(hay)[i + k];
    }
  }

  /** A needle with a letter the haystack lacks in either case does not occur in it, ignoring case. */
  lemma LowerMissingChar(hay: string, needle: string, c: char)
    requires c in needle && AbsentIgnoringCase(c, hay)
    ensures !ContainsIgnoringCase(hay, needle)
  {
    var k :| 0 <= k < |needle| && needle[k] == c;
    ContainsIff(Lower(hay), Lower(needle));
    forall i | 0 <= i <= |hay| - |needle| ensures !OccursAt(Lower(hay), Lower(needle), i) {
      WindowChar(hay, needle, i, k);
      AbsentAt(c, hay, i + k);
    }
  }

  /**
   * A haystack `a + [sep] + b` does not contain a needle, ignoring case, when
   * the needle has a letter missing from `a`, a letter missing from `b`, and
   * lacks the separator, which is not a letter.
   */
  lemma LowerMissingAcross(a: string, sep: char, b: string, needle: string, c1: char, c2: char)
    requires c1 in needle && AbsentIgnoringCase(c1, a)
    requires c2 in needle && AbsentIgnoringCase(c2, b)
    requires !('A' <= sep <= 'Z') && !('a' <= sep <= 'z') && sep !in needle
    ensures !ContainsIgnoringCase(a + [sep] + b, needle)
  {
    var hay := a + [sep] + b;
    var k1 :| 0 <= k1 < |needle| && needle[k1] == c1;
    var k2 :| 0 <= k2 < |needle| && needle[k2] == c2;
    ContainsIff(Lower(hay), Lower(needle));
    forall i | 0 <= i <= |hay| - |needle| ensures !OccursAt(Lower(hay), Lower(needle), i) {
      if i + |needle| <= |a| {
        WindowChar(hay, needle, i, k1);
        AbsentAt(c1, a, i + k1);
        assert hay[i + k1] == a[i + k1];
      } else if i > |a| {
        WindowChar(hay, needle, i, k2);
        AbsentAt(c2, b, i + k2 - |a| - 1);
        assert hay[i + k2] == b[i + k2 - |a| - 1];
      } else {
        var m := |a| - i;
        WindowChar(hay, needle, i, m);
        assert needle[m] in needle;
        assert hay[i + m] == sep;
      }
    }
  }

  function DigitChar(d: nat): char
    requires d < 10
  {
    "0123456789"[d]
  }

  /** Python's `str(n)` for a natural number. */
  function NatToString(n: nat): (r: string)
    ensures |r| >= 1
    ensures forall i | 0 <= i < |r| :: '0' <= r[i] <= '9'
  {
    if n < 10 then [DigitChar(n)] else NatToString(n / 10) + [DigitChar(n % 10)]
  }

  /** Python's `str(i)` for an integer. */
  function IntToString(i: int): string {
    if i < 0 then "-" + NatToString(-i) else NatToString(i)
  }

  /** Python's `a < b` on strings: lexicographic by code point. */
  predicate StrLess(a: string, b: string) {
    if a == [] then b != []
    else if b == [] then false
    else if a[0] != b[0] then a[0] < b[0]
    else StrLess(a[1..], b[1..])
  }

  lemma {:induction false} StrLessIrreflexive(a: string)
    ensures !StrLess(a, a)
  {
    if a != [] { StrLessIrreflexive(a[1..]); }
  }

  lemma {:induction false} StrLessTransitive(a: string, b: string, c: string)
    requires StrLess(a, b) && StrLess(b, c)
    ensures StrLess(a, c)
  {
    if a != [] && b != [] && c != [] && a[0] == b[0] && b[0] == c[0] {
      StrLessTransitive(a[1..], b[1..], c[1..]);
    }
  }

  lemma {:induction false} StrLessTotal(a: string, b: string)
    requires a != b
    ensures StrLess(a, b) || StrLess(b, a)
  {
    if a != [] && b != [] && a[0] == b[0] {
      assert a == [a[0]] + a[1..] && b == [b[0]] + b[1..];
      StrLessTotal(a[1..], b[1..]);
    }
  }

  /** The set of elements of a sequence. */
  function Elems<T>(s: seq<T>): set<T> {
    set k | k in s
  }

  lemma ElemsAppend<T>(a: seq<T>, b: seq<T>)
    ensures Elems(a + b) == Elems(a) + Elems(b)
  {
  }

  /** Every element strictly precedes every later one: sorted without repeats. */
  predicate StrictlySorted(s: seq<string>) {
    forall i, j | 0 <= i < j < |s| :: StrLess(s[i], s[j])
  }

  function InsertSorted(s: seq<string>, x: string): (r: seq<string>)
    requires StrictlySorted(s)
    ensures StrictlySorted(r)
    ensures Elems(r) == Elems(s + [x])
  {
    if s == [] then [x]
    else if x == s[0] then s
    else if StrLess(x, s[0]) then
      assert forall j | 0 < j < |s| :: StrLess(x, s[j]) by {
        forall j | 0 < j < |s| ensures StrLess(x, s[j]) { StrLessTransitive(x, s[0], s[j]); }
      }
      [x] + s
    else
      StrLessTotal(x, s[0]);
      var t := InsertSorted(s[1..], x);
      assert s == [s[0]] + s[1..];
      ElemsAppend(s[1..], [x]);
      forall k | k in t ensures StrLess(s[0], k) {
        assert k in Elems(t);
        if k != x {
          var j :| 0 <= j < |s[1..]| && s[1..][j] == k;
          assert k == s[j + 1];
        }
      }
      ElemsAppend([s[0]], t);
      assert s + [x] == [s[0]] + (s[1..] + [x]);
      ElemsAppend([s[0]], s[1..] + [x]);
      [s[0]] + t
  }

  /** Python's `sorted(set(xs))`. */
  function SortedSet(xs: seq<string>): (r: seq<string>)
    ensures StrictlySorted(r)
    ensures Elems(r) == Elems(xs)
    ensures |r| <= |xs|
  {
    if xs == [] then []
    else
      var p := SortedSet(xs[..|xs| - 1]);
      var r := InsertSorted(p, xs[|xs| - 1]);
      assert xs == xs[..|xs| - 1] + [xs[|xs| - 1]];
      ElemsAppend(p, [xs[|xs| - 1]]);
      ElemsAppend(xs[..|xs| - 1], [xs[|xs| - 1]]);
      DistinctCard(r, xs);
      r
  }

  lemma DistinctCard(r: seq<string>, xs: seq<string>)
    requires StrictlySorted(r)
    requires Elems(r) == Elems(xs)
    ensures |r| <= |xs|
  {
    StrictlySortedDistinct(r);
    SetCardBound(xs);
    DistinctSetCard(r);
  }

  lemma StrictlySortedDistinct(r: seq<string>)
    requires StrictlySorted(r)
    ensures forall i, j | 0 <= i < j < |r| :: r[i] != r[j]
  {
    forall i, j | 0 <= i < j < |r| ensures r[i] != r[j] {
      if r[i] == r[j] { StrLessIrreflexive(r[i]); }
    }
  }

  lemma {:induction false} SetCardBound<T>(xs: seq<T>)
    ensures |Elems(xs)| <= |xs|
  {
    if xs != [] {
      var p := xs[..|xs| - 1];
      SetCardBound(p);
      assert xs == p + [xs[|xs| - 1]];
      ElemsAppend(p, [xs[|xs| - 1]]);
      assert Elems([xs[|xs| - 1]]) == {xs[|xs| - 1]};
      if xs[|xs| - 1] in Elems(p) {
        assert Elems(xs) == Elems(p);
      }
    }
  }

  lemma {:induction false} DistinctSetCard<T>(xs: seq<T>)
    requires forall i, j | 0 <= i < j < |xs| :: xs[i] != xs[j]
    ensures |Elems(xs)| == |xs|
  {
    if xs != [] {
      var p := xs[..|xs| - 1];
      DistinctSetCard(p);
      assert xs == p + [xs[|xs| - 1]];
      assert xs[|xs| - 1] !in Elems(p);
      ElemsAppend(p, [xs[|xs| - 1]]);
      assert Elems([xs[|xs| - 1]]) == {xs[|xs| - 1]};
    }
  }

  /** Python's `s[:n]` for a non-negative `n`. */
  function Take<T>(s: seq<T>, n: nat): (r: seq<T>)
    ensures |r| <= n && |r| <= |s|
    ensures r == s[..|r|]
    ensures |s| <= n ==> r == s
    ensures |s| > n ==> |r| == n
  {
    if |s| <= n then s else s[..n]
  }

  /** `before` is a strict order: irreflexive and transitive. */
  ghost predicate StrictOrder<T(!new)>(before: (T, T) -> bool) {
    (forall a :: !before(a, a)) &&
    (forall a, b, c :: before(a, b) && before(b, c) ==> before(a, c))
  }

  /** No element is strictly before an element to its left. */
  predicate SortedBy<T>(s: seq<T>, before: (T, T) -> bool) {
    forall i, j | 0 <= i < j < |s| :: !before(s[j], s[i])
  }

  /** Inserts `x` after every element it is not strictly before. */
  function InsertBy<T(!new)>(s: seq<T>, x: T, before: (T, T) -> bool): (r: seq<T>)
    requires StrictOrder(before)
    requires SortedBy(s, before)
    ensures SortedBy(r, before)
    ensures multiset(r) == multiset(s) + multiset{x}
  {
    if s == [] then [x]
    else if before(x, s[0]) then
      assert forall j | 0 <= j < |s| :: !before(s[j], x) by {
        forall j | 0 <= j < |s| ensures !before(s[j], x) {
          assert !before(s[j], s[0]);
        }
      }
      [x] + s
    else
      var t := InsertBy(s[1..], x, before);
      assert s == [s[0]] + s[1..];
      assert forall y | y in multiset(t) :: y == x || y in multiset(s[1..]);
      forall j | 0 <= j < |t| ensures !before(t[j], s[0]) {
        assert t[j] in multiset(t);
        if t[j] != x {
          var k :| 0 <= k < |s[1..]| && s[1..][k] == t[j];
          assert s[k + 1] == t[j];
        }
      }
      [s[0]] + t
  }

  /**
   * Python's stable `sorted(s, key=...)`, where `before(a, b)` says that
   * the key of `a` is smaller than the key of `b`.
   */
  function SortBy<T(!new)>(s: seq<T>, before: (T, T) -> bool): (r: seq<T>)
    requires StrictOrder(before)
    ensures SortedBy(r, before)
    ensures multiset(r) == multiset(s)
  {
    if s == [] then []
    else
      assert s == s[..|s| - 1] + [s[|s| - 1]];
      InsertBy(SortBy(s[..|s| - 1], before), s[|s| - 1], before)
  }

  /** Python's `", ".join(parts)`. */
  function Join(sep: string, parts: seq<string>): string {
    if parts == [] then ""
    else if |parts| == 1 then parts[0]
    else parts[0] + sep + Join(sep, parts[1..])
  }
}
