/** `utf8StripEscape` of the X11 window-system backend: window titles are
    cleaned of terminal escape sequences by dropping every ESC character
    together with the two characters that follow it. */
module QxtWindowSystemX11 {

  const ESC: char := '\U{001B}'

  /** Specification of the filter: an ESC swallows itself and the next two
      characters (fewer at the end of the string); every other character is
      kept. */
  function Strip(s: string): (r: string)
    ensures |r| <= |s|
  {
    if |s| == 0 then []
    else if s[0] == ESC then Strip(s[if |s| < 3 then |s| else 3..])
    else [s[0]] + Strip(s[1..])
  }

  /** The suffix of `s` from index `i`, empty once `i` runs past the end (the
      loop index of the source may jump beyond the length). */
  function Tail(s: string, i: nat): string {
    if i <= |s| then s[i..] else []
  }

  /** The source loop: `i` walks the string, an ESC advances it by two extra
      positions, every other character is appended to `clean`. */
  method Utf8StripEscape(s: string) returns (clean: string)
    ensures clean == Strip(s)
  {
    clean := [];
    var i: nat := 0;
    while i < |s|
      invariant clean + Strip(Tail(s, i)) == Strip(s)
      decreases |s| - i
    {
      StripTail(s, i);
      if s[i] == ESC {
        i := i + 2;
      } else {
        assert clean + [s[i]] + Strip(Tail(s, i + 1)) == clean + ([s[i]] + Strip(Tail(s, i + 1)));
        clean := clean + [s[i]];
      }
      i := i + 1;
    }
  }

  /** One round of the loop, on the specification. */
  lemma {:induction false} StripTail(s: string, i: nat)
    requires i < |s|
    ensures Strip(Tail(s, i)) == if s[i] == ESC then Strip(Tail(s, i + 3)) else [s[i]] + Strip(Tail(s, i + 1))
  {
    if s[i] == ESC {
      assert Tail(s, i)[if |s| - i < 3 then |s| - i else 3..] == Tail(s, i + 3);
    } else {
      assert Tail(s, i)[1..] == Tail(s, i + 1);
    }
  }

  /** No ESC survives the filter. */
  lemma {:induction false} StripHasNoEscape(s: string)
    ensures ESC !in Strip(s)
    decreases |s|
  {
    if |s| == 0 {
    } else if s[0] == ESC {
      StripHasNoEscape(s[if |s| < 3 then |s| else 3..]);
    } else {
      StripHasNoEscape(s[1..]);
    }
  }

  /** A string without ESC passes through unchanged. */
  lemma {:induction false} StripWithoutEscapeIsIdentity(s: string)
    requires ESC !in s
    ensures Strip(s) == s
    decreases |s|
  {
    if |s| > 0 {
      assert s[0] != ESC;
      assert ESC !in s[1..];
      StripWithoutEscapeIsIdentity(s[1..]);
    }
  }

  /** `a` is obtained from `b` by deleting characters. */
  predicate IsSubsequence(a: string, b: string)
    decreases |b|
  {
    if |a| == 0 then true
    else if |b| == 0 then false
    else if a[0] == b[0] then IsSubsequence(a[1..], b[1..])
    else IsSubsequence(a, b[1..])
  }

  /** Dropping a prefix of `b` keeps `a` a subsequence of the longer string. */
  lemma {:induction false} SubsequenceOfSuffix(a: string, b: string, k: nat)
    requires k <= |b|
    requires IsSubsequence(a, b[k..])
    ensures IsSubsequence(a, b)
    decreases k
  {
    if k > 0 {
      assert b[1..][k - 1..] == b[k..];
      SubsequenceOfSuffix(a, b[1..], k - 1);
      SubsequenceOfTail(a, b);
    }
  }

  /** A subsequence of `b` is also one after dropping the first of its own
      characters. */
  lemma {:induction false} SubsequenceWeaken(a: string, b: string)
    requires |a| > 0
    requires IsSubsequence(a, b)
    ensures IsSubsequence(a[1..], b)
    decreases |b|, 1
  {
    if |b| > 0 {
      if a[0] == b[0] {
        SubsequenceOfTail(a[1..], b);
      } else {
        SubsequenceWeaken(a, b[1..]);
        SubsequenceOfTail(a[1..], b);
      }
    }
  }

  lemma {:induction false} SubsequenceOfTail(a: string, b: string)
    requires |b| > 0
    requires IsSubsequence(a, b[1..])
    ensures IsSubsequence(a, b)
    decreases |b|, 0
  {
    if |a| > 0 && a[0] == b[0] {
      SubsequenceWeaken(a, b[1..]);
    }
  }

  /** The output keeps the surviving characters in their order: it is a
      subsequence of the input. */
  lemma {:induction false} StripIsSubsequence(s: string)
    ensures IsSubsequence(Strip(s), s)
    decreases |s|
  {
    if |s| == 0 {
    } else if s[0] == ESC {
      var k := if |s| < 3 then |s| else 3;
      StripIsSubsequence(s[k..]);
      SubsequenceOfSuffix(Strip(s[k..]), s, k);
    } else {
      StripIsSubsequence(s[1..]);
      assert Strip(s)[1..] == Strip(s[1..]);
    }
  }

  /** The effect of the first ESC: everything before it is kept, the ESC and
      the (at most) two characters after it are removed, and filtering
      resumes behind them. */
  lemma {:induction false} FirstEscapeRemovesThree(p: string, q: string)
    requires ESC !in p
    ensures Strip(p + [ESC] + q) == p + Strip(q[if |q| < 2 then |q| else 2..])
    decreases |p|
  {
    if |p| == 0 {
      assert p + [ESC] + q == [ESC] + q;
      assert ([ESC] + q)[if |q| + 1 < 3 then |q| + 1 else 3..] == q[if |q| < 2 then |q| else 2..];
    } else {
      assert (p + [ESC] + q)[1..] == p[1..] + [ESC] + q;
      assert ESC !in p[1..];
      FirstEscapeRemovesThree(p[1..], q);
      assert (p + [ESC] + q)[0] == p[0] != ESC;
      assert p == [p[0]] + p[1..];
    }
  }
}
