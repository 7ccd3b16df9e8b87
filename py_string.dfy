/** Python's `str.isspace`, `str.strip()` (no argument) and `str.lower()`,
    the three string builtins the sentiment classifier relies on. */
module PyString {

  /** A character `str.isspace` accepts, which is exactly the set `strip()`
      with no argument removes: U+0009..U+000D, U+001C..U+0020, U+0085,
      U+00A0, U+1680, U+2000..U+200A, U+2028, U+2029, U+202F, U+205F, U+3000. */
  predicate IsSpace(c: char)
    ensures IsSpace(c) ==> !('A' <= c <= 'Z') && !('a' <= c <= 'z') && !('0' <= c <= '9')
  {
    ('\t' <= c <= '\r') || ('\U{1C}' <= c <= ' ') || c == '\U{85}' || c == '\U{A0}'
    || c == '\U{1680}' || ('\U{2000}' <= c <= '\U{200A}') || c == '\U{2028}'
    || c == '\U{2029}' || c == '\U{202F}' || c == '\U{205F}' || c == '\U{3000}'
  }

  predicate AllSpace(s: string) {
    forall i :: 0 <= i < |s| ==> IsSpace(s[i])
  }

  predicate StartsWith(s: string, prefix: string) {
    |prefix| <= |s| && s[..|prefix|] == prefix
  }

  predicate EndsWith(s: string, suffix: string) {
    |suffix| <= |s| && s[|s| - |suffix|..] == suffix
  }

  /** A suffix of a suffix is a suffix. */
  lemma EndsWithTrans(s: string, t: string, u: string)
    requires EndsWith(s, t) && EndsWith(t, u)
    ensures EndsWith(s, u)
  {
    assert s[|s| - |u|..] == s[|s| - |t|..][|t| - |u|..];
  }

  /** A string with a known prefix and suffix is the two around its middle. */
  lemma Reassemble(s: string, prefix: string, suffix: string)
    requires |prefix| + |suffix| <= |s| && StartsWith(s, prefix) && EndsWith(s, suffix)
    ensures s == prefix + s[|prefix|..|s| - |suffix|] + suffix
  {
    assert s == s[..|prefix|] + s[|prefix|..|s| - |suffix|] + s[|s| - |suffix|..];
  }

  /** No whitespace at either end: the shape of everything `strip()` returns. */
  predicate Trimmed(s: string) {
    s == [] || (!IsSpace(s[0]) && !IsSpace(s[|s| - 1]))
  }

  /** How many characters `str.lstrip()` removes: the whitespace run at the front. */
  function LeadingSpace(s: string): (n: nat)
    ensures n <= |s|
    ensures forall i :: 0 <= i < n ==> IsSpace(s[i])
    ensures n < |s| ==> !IsSpace(s[n])
  {
    if s != [] && IsSpace(s[0]) then 1 + LeadingSpace(s[1..]) else 0
  }

  /** How many characters `str.rstrip()` keeps: all up to the whitespace run at the back. */
  function KeptByRstrip(s: string): (n: nat)
    ensures n <= |s|
    ensures forall i :: n <= i < |s| ==> IsSpace(s[i])
    ensures n > 0 ==> !IsSpace(s[n - 1])
  {
    if s != [] && IsSpace(s[|s| - 1]) then KeptByRstrip(s[..|s| - 1]) else |s|
  }

  /** `str.lstrip()`. */
  function TrimStart(s: string): string {
    s[LeadingSpace(s)..]
  }

  /** `str.rstrip()`. */
  function TrimEnd(s: string): string {
    s[..KeptByRstrip(s)]
  }

  /** `str.strip()`: whitespace removed from both ends. */
  function Strip(s: string): (r: string)
    ensures Trimmed(r)
    ensures |r| <= |s|
  {
    TrimEnd(TrimStart(s))
  }

  /** `str.lower()` for one character, ASCII letters only. */
  function LowerChar(c: char): (d: char)
    ensures 'A' <= c <= 'Z' ==> 'a' <= d <= 'z' && d as int - c as int == 32
    ensures !('A' <= c <= 'Z') ==> d == c
  {
    if 'A' <= c <= 'Z' then (c as int + 32) as char else c
  }

  /** `str.lower()`: every character lowered on its own, length kept. */
  function Lower(s: string): (r: string)
    ensures |r| == |s|
    ensures forall i :: 0 <= i < |s| ==> !('A' <= r[i] <= 'Z')
    ensures forall i :: 0 <= i < |s| && 'A' <= s[i] <= 'Z' ==> r[i] as int == s[i] as int + 32
    ensures forall i :: 0 <= i < |s| && !('A' <= s[i] <= 'Z') ==> r[i] == s[i]
  {
    seq(|s|, i requires 0 <= i < |s| => LowerChar(s[i]))
  }

  // ----- strip -----

  /** The whitespace run at the front is determined by where it ends. */
  lemma LeadingSpaceIs(s: string, n: nat)
    requires n <= |s|
    requires forall i :: 0 <= i < n ==> IsSpace(s[i])
    requires n < |s| ==> !IsSpace(s[n])
    ensures LeadingSpace(s) == n
  {
  }

  /** The whitespace run at the back is determined by where it starts. */
  lemma KeptByRstripIs(s: string, n: nat)
    requires n <= |s|
    requires forall i :: n <= i < |s| ==> IsSpace(s[i])
    requires n > 0 ==> !IsSpace(s[n - 1])
    ensures KeptByRstrip(s) == n
  {
  }

  lemma AllSpaceAppend(x: string, y: string)
    requires AllSpace(x) && AllSpace(y)
    ensures AllSpace(x + y)
  {
    forall i | 0 <= i < |x + y| ensures IsSpace((x + y)[i]) {
      if i < |x| { assert (x + y)[i] == x[i]; } else { assert (x + y)[i] == y[i - |x|]; }
    }
  }

  /** `strip()` of a trimmed core padded with whitespace on both sides is the core. */
  lemma StripPadded(a: string, m: string, b: string)
    requires AllSpace(a) && AllSpace(b) && Trimmed(m)
    ensures Strip(a + m + b) == m
  {
    var s := a + m + b;
    if m == [] {
      assert s == a + b;
      AllSpaceAppend(a, b);
      LeadingSpaceIs(s, |s|);
      assert TrimStart(s) == [];
    } else {
      forall i | 0 <= i < |a| ensures IsSpace(s[i]) {
        assert s[i] == a[i];
      }
      assert s[|a|] == m[0];
      LeadingSpaceIs(s, |a|);
      var t := m + b;
      assert TrimStart(s) == t;
      forall i | |m| <= i < |t| ensures IsSpace(t[i]) {
        assert t[i] == b[i - |m|];
      }
      assert t[|m| - 1] == m[|m| - 1];
      KeptByRstripIs(t, |m|);
      assert t[..|m|] == m;
    }
  }

  /** `strip()` returns the slice between the two whitespace runs. */
  lemma StripIsSlice(s: string)
    ensures LeadingSpace(s) + |Strip(s)| <= |s|
    ensures Strip(s) == s[LeadingSpace(s)..LeadingSpace(s) + |Strip(s)|]
    ensures forall i :: 0 <= i < LeadingSpace(s) ==> IsSpace(s[i])
    ensures forall i :: LeadingSpace(s) + |Strip(s)| <= i < |s| ==> IsSpace(s[i])
  {
    var k := LeadingSpace(s);
    var t := s[k..];
    var e := KeptByRstrip(t);
    assert t[..e] == s[k..k + e];
    forall i | k + e <= i < |s| ensures IsSpace(s[i]) {
      assert s[i] == t[i - k];
    }
  }

  /** Every string is its stripped form padded with whitespace. */
  lemma StripDecompose(s: string) returns (a: string, b: string)
    ensures s == a + Strip(s) + b
    ensures AllSpace(a) && AllSpace(b)
  {
    StripIsSlice(s);
    var k := LeadingSpace(s);
    var j := k + |Strip(s)|;
    a, b := s[..k], s[j..];
    assert s == a + s[k..j] + b;
    forall i | 0 <= i < |a| ensures IsSpace(a[i]) {
      assert a[i] == s[i];
    }
    forall i | 0 <= i < |b| ensures IsSpace(b[i]) {
      assert b[i] == s[j + i];
    }
  }

  /** A trimmed string is its own `strip()`. */
  lemma StripTrimmed(m: string)
    requires Trimmed(m)
    ensures Strip(m) == m
  {
    StripPadded([], m, []);
    assert [] + m + [] == m;
  }

  /** `strip()` is idempotent. */
  lemma StripIdempotent(s: string)
    ensures Strip(Strip(s)) == Strip(s)
  {
    StripPadded([], Strip(s), []);
    assert [] + Strip(s) + [] == Strip(s);
  }

  /** Five pieces regrouped; kept apart so that the padding proof stays small. */
  lemma Regroup(a: string, a': string, m: string, b': string, b: string)
    ensures a + (a' + m + b') + b == (a + a') + m + (b' + b)
  {
  }

  /** Extra whitespace around a string does not change what `strip()` gives. */
  lemma StripIgnoresPadding(a: string, s: string, b: string)
    requires AllSpace(a) && AllSpace(b)
    ensures Strip(a + s + b) == Strip(s)
  {
    var a', b' := StripDecompose(s);
    var m := Strip(s);
    assert a + s + b == (a + a') + m + (b' + b) by {
      assert s == a' + m + b';
      Regroup(a, a', m, b', b);
    }
    AllSpaceAppend(a, a');
    AllSpaceAppend(b', b);
    StripPadded(a + a', m, b' + b);
  }

  /** `strip()` gives the empty string exactly for all-whitespace input. */
  lemma StripEmptyIff(s: string)
    ensures Strip(s) == [] <==> AllSpace(s)
  {
    if Strip(s) == [] {
      var a, b := StripDecompose(s);
      assert s == a + b;
      AllSpaceAppend(a, b);
    }
    if AllSpace(s) {
      StripPadded(s, [], []);
      assert s + [] + [] == s;
    }
  }

  /** A text that opens with a trimmed heading keeps that heading under
      `strip()`; only the tail is right-trimmed. */
  lemma StripAfterHeading(h: string, x: string)
    requires h != [] && Trimmed(h)
    ensures Strip(h + x) == h + TrimEnd(x)
  {
    var s := h + x;
    assert s[0] == h[0];
    LeadingSpaceIs(s, 0);
    assert TrimStart(s) == s;
    var e := KeptByRstrip(x);
    forall i | |h| + e <= i < |s| ensures IsSpace(s[i]) {
      assert s[i] == x[i - |h|];
    }
    if e > 0 {
      assert s[|h| + e - 1] == x[e - 1];
    } else {
      assert s[|h| - 1] == h[|h| - 1];
    }
    KeptByRstripIs(s, |h| + e);
    assert s[..|h| + e] == h + x[..e];
  }

  // ----- lower -----

  lemma LowerAppend(x: string, y: string)
    ensures Lower(x + y) == Lower(x) + Lower(y)
  {
    assert forall i :: 0 <= i < |x + y| ==> Lower(x + y)[i] == (Lower(x) + Lower(y))[i];
  }

  /** Lowering never turns whitespace into text or text into whitespace. */
  lemma LowerKeepsSpace(s: string)
    ensures AllSpace(Lower(s)) <==> AllSpace(s)
    ensures Trimmed(Lower(s)) <==> Trimmed(s)
  {
    forall i | 0 <= i < |s| ensures IsSpace(Lower(s)[i]) <==> IsSpace(s[i]) {
      assert Lower(s)[i] == LowerChar(s[i]);
    }
  }

  /** `lower()` is idempotent. */
  lemma LowerIdempotent(s: string)
    ensures Lower(Lower(s)) == Lower(s)
  {
    assert forall i :: 0 <= i < |s| ==> Lower(Lower(s))[i] == Lower(s)[i];
  }

  /** `strip()` and `lower()` commute. */
  lemma StripLowerCommute(s: string)
    ensures Strip(Lower(s)) == Lower(Strip(s))
  {
    var a, b := StripDecompose(s);
    var m := Strip(s);
    LowerAppend(a + m, b);
    LowerAppend(a, m);
    LowerKeepsSpace(a);
    LowerKeepsSpace(m);
    LowerKeepsSpace(b);
    StripPadded(Lower(a), Lower(m), Lower(b));
  }
}
