/** Small helpers shared by the modules of this model: an Option type and the
    string operations of JavaScript and Qt that the source relies on
    (prefix tests, substring search, trimming, ASCII case mapping). */
module Common {

  datatype Option<T> = None | Some(value: T)

  /** `s.startsWith(p)` / `QString::startsWith`. */
  predicate StartsWith(s: string, p: string) {
    |p| <= |s| && s[..|p|] == p
  }

  /** `s.includes(sub)` / `QString::contains`. */
  predicate Contains(s: string, sub: string)
    decreases |s|
  {
    StartsWith(s, sub) || (|s| > 0 && Contains(s[1..], sub))
  }

  /** Index of the first `c` in `s`, or -1 (`String.indexOf`). */
  function IndexOf(s: string, c: char): (r: int)
    ensures -1 <= r < |s|
    ensures r >= 0 ==> s[r] == c && c !in s[..r]
    ensures r == -1 <==> c !in s
  {
    if |s| == 0 then -1
    else if s[0] == c then 0
    else
      var k := IndexOf(s[1..], c);
      assert s[1..][..if k < 0 then 0 else k] == s[1..if k < 0 then 1 else k + 1];
      if k < 0 then -1 else k + 1
  }

  /** Index of the last `c` in `s`, or -1 (`String.lastIndexOf`). */
  function LastIndexOf(s: string, c: char): (r: int)
    ensures -1 <= r < |s|
    ensures r >= 0 ==> s[r] == c && c !in s[r + 1..]
    ensures r == -1 <==> c !in s
  {
    if |s| == 0 then -1
    else if s[|s| - 1] == c then |s| - 1
    else
      var init := s[..|s| - 1];
      var k := LastIndexOf(init, c);
      assert s == init + [s[|s| - 1]];
      assert k >= 0 ==> s[k + 1..] == init[k + 1..] + [s[|s| - 1]];
      k
  }

  /** White space as matched by `\s` and removed by `String.prototype.trim`:
      the ECMAScript WhiteSpace and LineTerminator characters. */
  predicate IsSpace(c: char) {
    c == ' ' || c == '\t' || c == '\n' || c == '\r' || c == '\U{000B}' || c == '\U{000C}'
    || c == '\U{00A0}' || c == '\U{1680}' || ('\U{2000}' <= c <= '\U{200A}')
    || c == '\U{2028}' || c == '\U{2029}' || c == '\U{202F}' || c == '\U{205F}'
    || c == '\U{3000}' || c == '\U{FEFF}'
  }

  function TrimStart(s: string): (r: string)
    ensures |r| <= |s|
    ensures r == s[|s| - |r|..]
    ensures |r| > 0 ==> !IsSpace(r[0])
  {
    if |s| > 0 && IsSpace(s[0]) then TrimStart(s[1..]) else s
  }

  function TrimEnd(s: string): (r: string)
    ensures |r| <= |s|
    ensures r == s[..|r|]
    ensures |r| > 0 ==> !IsSpace(r[|r| - 1])
  {
    if |s| > 0 && IsSpace(s[|s| - 1]) then TrimEnd(s[..|s| - 1]) else s
  }

  /** `s.trim()`. */
  function Trim(s: string): string {
    TrimEnd(TrimStart(s))
  }

  function LowerChar(c: char): char {
    if 'A' <= c <= 'Z' then (c as int + 32) as char else c
  }

  function UpperChar(c: char): char {
    if 'a' <= c <= 'z' then (c as int - 32) as char else c
  }

  /** `s.toLowerCase()`, restricted to ASCII letters. */
  function ToLower(s: string): (r: string)
    ensures |r| == |s|
    ensures forall i :: 0 <= i < |s| ==> r[i] == LowerChar(s[i])
  {
    if |s| == 0 then [] else [LowerChar(s[0])] + ToLower(s[1..])
  }

  /** `s.replace(from, to)` with a one-character string pattern: only the
      first occurrence is replaced. */
  function ReplaceFirst(s: string, from: char, to: char): (r: string)
    ensures |r| == |s|
    ensures from !in s ==> r == s
    ensures from in s ==> var k := IndexOf(s, from); r == s[..k] + [to] + s[k + 1..]
  {
    var k := IndexOf(s, from);
    if k < 0 then s else s[..k] + [to] + s[k + 1..]
  }

  /** Only the first occurrence changes: the result still holds `from`
      exactly when the text after the first occurrence does. */
  lemma {:induction false} ReplaceFirstOnlyFirst(s: string, from: char, to: char)
    requires from in s && from != to
    ensures var k := IndexOf(s, from);
            var r := ReplaceFirst(s, from, to);
            && r[k] == to
            && (forall i :: 0 <= i < |s| && i != k ==> r[i] == s[i])
            && (from in r <==> from in s[k + 1..])
  {
    var k := IndexOf(s, from);
    var r := ReplaceFirst(s, from, to);
    assert r == s[..k] + [to] + s[k + 1..];
    assert r[k + 1..] == s[k + 1..];
    if from in r {
      var i :| 0 <= i < |r| && r[i] == from;
      assert r[..k] == s[..k];
      assert i > k;
      assert r[k + 1..][i - k - 1] == from;
    }
    if from in s[k + 1..] {
      var j :| 0 <= j < |s[k + 1..]| && s[k + 1..][j] == from;
      assert r[k + 1 + j] == from;
    }
  }

  /** `parts.join(sep)` for a one-character separator. */
  function Join(parts: seq<string>, sep: char): string {
    if |parts| == 0 then ""
    else if |parts| == 1 then parts[0]
    else parts[0] + [sep] + Join(parts[1..], sep)
  }

  /** JavaScript's default string comparison `a < b`: lexicographic over
      the UTF-16 code units. */
  predicate StrLess(a: string, b: string)
    decreases |a|
  {
    if |b| == 0 then false
    else if |a| == 0 then true
    else if a[0] != b[0] then a[0] < b[0]
    else StrLess(a[1..], b[1..])
  }

  lemma {:induction false} StrLessIrreflexive(a: string)
    ensures !StrLess(a, a)
    decreases |a|
  {
    if |a| > 0 {
      StrLessIrreflexive(a[1..]);
    }
  }

  lemma {:induction false} StrLessAsymmetric(a: string, b: string)
    ensures !(StrLess(a, b) && StrLess(b, a))
    decreases |a|
  {
    if |a| > 0 && |b| > 0 && a[0] == b[0] {
      StrLessAsymmetric(a[1..], b[1..]);
    }
  }

  lemma {:induction false} StrLessTransitive(a: string, b: string, c: string)
    requires StrLess(a, b) && StrLess(b, c)
    ensures StrLess(a, c)
    decreases |a|
  {
    if |a| > 0 && a[0] == b[0] && b[0] == c[0] {
      StrLessTransitive(a[1..], b[1..], c[1..]);
    }
  }

  /** Two different strings are ordered one way or the other. */
  lemma {:induction false} StrLessTotal(a: string, b: string)
    requires a != b
    ensures StrLess(a, b) || StrLess(b, a)
    decreases |a|
  {
    if |a| > 0 && |b| > 0 && a[0] == b[0] {
      assert a == [a[0]] + a[1..] && b == [b[0]] + b[1..];
      StrLessTotal(a[1..], b[1..]);
    }
  }

  /** Ascending in the order of `StrLess`. */
  predicate SortedStrings(s: seq<string>) {
    forall i, j :: 0 <= i < j < |s| ==> !StrLess(s[j], s[i])
  }

  /** A sorted list keeps its order when an element no greater than its
      head is put in front. */
  lemma {:induction false} ConsSorted(x: string, s: seq<string>)
    requires SortedStrings(s) && (|s| == 0 || !StrLess(s[0], x))
    ensures SortedStrings([x] + s)
  {
    forall k | 0 < k < |s|
      ensures !StrLess(s[k], x)
    {
      if s[0] != x && s[k] != s[0] {
        StrLessTotal(s[0], x);
        StrLessTotal(s[0], s[k]);
        StrLessTransitive(x, s[0], s[k]);
        StrLessAsymmetric(x, s[k]);
      }
    }
  }

  /** The head of a sorted list stays in front of the rest with `x`
      inserted, when `x` is above it. */
  lemma {:induction false} InsertBehindHead(x: string, s: seq<string>, rest: seq<string>)
    requires SortedStrings(s) && |s| > 0 && StrLess(s[0], x)
    requires SortedStrings(rest) && multiset(rest) == multiset(s[1..]) + multiset{x}
    ensures SortedStrings([s[0]] + rest)
    ensures multiset([s[0]] + rest) == multiset(s) + multiset{x}
  {
    assert multiset(s) == multiset{s[0]} + multiset(s[1..]) by { assert s == [s[0]] + s[1..]; }
    forall k | 0 <= k < |rest|
      ensures !StrLess(rest[k], s[0])
    {
      assert rest[k] in multiset(rest);
      if rest[k] == x {
        StrLessAsymmetric(s[0], x);
      } else {
        assert rest[k] in s[1..];
        var j :| 0 <= j < |s[1..]| && s[1..][j] == rest[k];
        assert s[j + 1] == rest[k];
      }
    }
  }

  /** `x` put in front of the first element of the sorted `s` that is not
      below it. */
  function InsertString(x: string, s: seq<string>): (r: seq<string>)
    requires SortedStrings(s)
    ensures SortedStrings(r)
    ensures multiset(r) == multiset(s) + multiset{x}
  {
    if |s| == 0 then [x]
    else if StrLess(s[0], x) then
      var rest := InsertString(x, s[1..]);
      InsertBehindHead(x, s, rest);
      [s[0]] + rest
    else
      ConsSorted(x, s);
      [x] + s
  }

  /** `nodes.sort()` on strings: the default comparison of
      `Array.prototype.sort`. */
  function SortStrings(s: seq<string>): (r: seq<string>)
    ensures SortedStrings(r)
    ensures multiset(r) == multiset(s)
    ensures |r| == |s|
  {
    if |s| == 0 then []
    else
      var r := InsertString(s[|s| - 1], SortStrings(s[..|s| - 1]));
      assert s == s[..|s| - 1] + [s[|s| - 1]];
      assert |r| == |multiset(r)|;
      r
  }

  /** The elements of `s` with duplicates dropped, first occurrence kept:
      the iteration order of `new Set(s)`. */
  function Dedup<T(==,!new)>(s: seq<T>): (r: seq<T>)
    ensures forall x :: x in r <==> x in s
    ensures Distinct(r)
    ensures |r| <= |s|
    ensures SubseqOf(r, s)
  {
    if |s| == 0 then []
    else
      var rest := Dedup(s[..|s| - 1]);
      if s[|s| - 1] in rest then rest
      else
        assert (rest + [s[|s| - 1]])[..|rest|] == rest;
        rest + [s[|s| - 1]]
  }

  /** One round of a loop that adds `s[i]` to a `Set` filled from
      `s[..i]`: the element is kept when it is new, skipped otherwise. */
  method DedupPush<T(==,!new)>(s: seq<T>, i: nat, acc: seq<T>) returns (r: seq<T>)
    requires i < |s| && acc == Dedup(s[..i])
    ensures r == Dedup(s[..i + 1])
  {
    assert s[..i + 1][..i] == s[..i];
    r := if s[i] in acc then acc else acc + [s[i]];
  }

  /** Dropping duplicates from a prefix gives a prefix of the result:
      elements come in the order of their first occurrence. */
  lemma {:induction false} DedupKeepsFirstOccurrences<T(!new)>(s: seq<T>, k: nat)
    requires k <= |s|
    ensures Dedup(s[..k]) <= Dedup(s)
    decreases |s| - k
  {
    if k < |s| {
      var t := s[..|s| - 1];
      assert t[..k] == s[..k];
      DedupKeepsFirstOccurrences(t, k);
    } else {
      assert s[..k] == s;
    }
  }

  predicate Distinct<T(==)>(s: seq<T>) {
    forall i, j :: 0 <= i < j < |s| ==> s[i] != s[j]
  }

  /** The elements of `s` that are not `x`, in order. */
  function Remove<T(==,!new)>(s: seq<T>, x: T): (r: seq<T>)
    ensures forall y :: y in r <==> y in s && y != x
    ensures Distinct(s) ==> Distinct(r)
    ensures |r| <= |s|
  {
    if |s| == 0 then []
    else if s[0] == x then Remove(s[1..], x)
    else
      var rest := Remove(s[1..], x);
      assert Distinct(s) ==> s[0] !in s[1..];
      [s[0]] + rest
  }

  /** The elements `x` of `s` with `p(x) == b`, in order. */
  function Select<T>(s: seq<T>, p: T -> bool, b: bool): (r: seq<T>)
    ensures |r| <= |s|
    ensures forall x :: x in r ==> x in s && p(x) == b
    ensures forall x :: x in s && p(x) == b ==> x in r
    ensures SubseqOf(r, s)
  {
    if |s| == 0 then []
    else
      var rest := Select(s[..|s| - 1], p, b);
      assert forall x :: x in s ==> x in s[..|s| - 1] || x == s[|s| - 1];
      if p(s[|s| - 1]) == b then
        assert (rest + [s[|s| - 1]])[..|rest|] == rest;
        rest + [s[|s| - 1]]
      else rest
  }

  /** `a` is `b` with some elements left out, the rest in their order. */
  predicate SubseqOf<T(==)>(a: seq<T>, b: seq<T>)
    decreases |b|
  {
    |a| == 0
    || (|b| > 0
        && ((a[|a| - 1] == b[|b| - 1] && SubseqOf(a[..|a| - 1], b[..|b| - 1]))
            || SubseqOf(a, b[..|b| - 1])))
  }
}
