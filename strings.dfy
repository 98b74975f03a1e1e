/**
 * The few Python `str` operations the core relies on: `lower`, `strip`,
 * `in` (substring), `startswith` and `endswith`.
 */
module Strings {

  /** Python's `str.lower`, restricted to the ASCII letters. */
  function LowerChar(c: char): char
  {
    if 'A' <= c <= 'Z' then (c as int + 32) as char else c
  }

  function Lower(s: string): string
  {
    seq(|s|, i requires 0 <= i < |s| => LowerChar(s[i]))
  }

  /** A string that `Lower` leaves unchanged has no ASCII capital. */
  predicate IsLower(s: string)
  {
    forall i :: 0 <= i < |s| ==> !('A' <= s[i] <= 'Z')
  }

  lemma LowerIsLower(s: string)
    ensures IsLower(Lower(s))
  {
  }

  /** Lower-casing commutes with slicing. */
  lemma LowerSlice(s: string, i: nat, j: nat)
    requires i <= j <= |s|
    ensures Lower(s[i..j]) == Lower(s)[i..j]
  {
  }

  /** The characters for which Python's `str.isspace` holds. */
  predicate IsSpace(c: char)
  {
    c == ' ' || '\t' <= c <= '\r' || '\U{1C}' <= c <= '\U{1F}' ||
    c == '\U{85}' || c == '\U{A0}' || c == '\U{1680}' ||
    '\U{2000}' <= c <= '\U{200A}' || c == '\U{2028}' || c == '\U{2029}' ||
    c == '\U{202F}' || c == '\U{205F}' || c == '\U{3000}'
  }

  /** Number of leading whitespace characters of `s`. */
  function LeadingSpace(s: string): (n: nat)
    ensures n <= |s|
  {
    if s == [] || !IsSpace(s[0]) then 0 else 1 + LeadingSpace(s[1..])
  }

  lemma {:induction false} LeadingSpaceFacts(s: string)
    ensures var n := LeadingSpace(s);
      && (forall k :: 0 <= k < n ==> IsSpace(s[k]))
      && (n < |s| ==> !IsSpace(s[n]))
  {
    if s != [] && IsSpace(s[0]) {
      LeadingSpaceFacts(s[1..]);
      assert forall k :: 1 <= k < LeadingSpace(s) ==> s[k] == s[1..][k - 1];
    }
  }

  /** Number of trailing whitespace characters of `s`. */
  function TrailingSpace(s: string): (n: nat)
    ensures n <= |s|
  {
    if s == [] || !IsSpace(s[|s| - 1]) then 0 else 1 + TrailingSpace(s[..|s| - 1])
  }

  lemma {:induction false} TrailingSpaceFacts(s: string)
    ensures var n := TrailingSpace(s);
      && (forall k :: |s| - n <= k < |s| ==> IsSpace(s[k]))
      && (n < |s| ==> !IsSpace(s[|s| - 1 - n]))
  {
    if s != [] && IsSpace(s[|s| - 1]) {
      TrailingSpaceFacts(s[..|s| - 1]);
    }
  }

  /** Python's `str.strip()` with no argument. */
  function Strip(s: string): string
  {
    var i := LeadingSpace(s);
    s[i..|s| - TrailingSpace(s[i..])]
  }

  /**
   * `Strip(s)` is the slice `s[i..j]` that drops exactly the whitespace at
   * both ends: everything outside it is whitespace and its own first and
   * last characters are not.
   */
  lemma StripShape(s: string) returns (i: nat, j: nat)
    ensures i <= j <= |s| && Strip(s) == s[i..j]
    ensures forall k :: 0 <= k < i ==> IsSpace(s[k])
    ensures forall k :: j <= k < |s| ==> IsSpace(s[k])
    ensures i < j ==> !IsSpace(s[i]) && !IsSpace(s[j - 1])
    ensures Strip(s) == [] <==> forall k :: 0 <= k < |s| ==> IsSpace(s[k])
  {
    i := LeadingSpace(s);
    LeadingSpaceFacts(s);
    var t := s[i..];
    var n := TrailingSpace(t);
    TrailingSpaceFacts(t);
    j := |s| - n;
    forall k | j <= k < |s| ensures IsSpace(s[k]) {
      assert s[k] == t[k - i];
    }
    if i < j {
      assert s[j - 1] == t[|t| - 1 - n];
    }
  }

  /** `sub` occurs in `s` starting at index `k`. */
  predicate OccursAt(s: string, sub: string, k: int)
  {
    0 <= k <= |s| - |sub| && s[k..k + |sub|] == sub
  }

  /** Python's `sub in s`. */
  predicate Contains(s: string, sub: string)
  {
    exists k :: 0 <= k <= |s| && OccursAt(s, sub, k)
  }

  predicate StartsWith(s: string, prefix: string)
  {
    |prefix| <= |s| && s[..|prefix|] == prefix
  }

  predicate EndsWith(s: string, suffix: string)
  {
    |suffix| <= |s| && s[|s| - |suffix|..] == suffix
  }

  /** An occurrence inside a slice is an occurrence in the whole text. */
  lemma ContainsOfSlice(t: string, i: nat, j: nat, sub: string)
    requires i <= j <= |t| && Contains(t[i..j], sub)
    ensures Contains(t, sub)
  {
    var k :| 0 <= k <= j - i && OccursAt(t[i..j], sub, k);
    forall m | 0 <= m < |sub| ensures t[i + k + m] == sub[m] {
      assert t[i..j][k..k + |sub|][m] == sub[m];
    }
    assert t[i + k..i + k + |sub|] == sub;
    assert OccursAt(t, sub, i + k);
  }

  /** An occurrence that lies between `i` and `j` is one in the slice `t[i..j]`. */
  lemma ContainsInSlice(t: string, i: nat, j: nat, sub: string, k: nat)
    requires i <= k && k + |sub| <= j <= |t| && OccursAt(t, sub, k)
    ensures Contains(t[i..j], sub)
  {
    forall m | 0 <= m < |sub| ensures t[i..j][k - i + m] == sub[m] {
      assert t[k..k + |sub|][m] == sub[m];
    }
    assert t[i..j][k - i..k - i + |sub|] == sub;
    assert OccursAt(t[i..j], sub, k - i);
  }

  /**
   * An occurrence, in a lower-cased text, of a phrase with non-space ends
   * lies inside the stripped part of the text.
   */
  lemma OccurrenceInsideStrip(s: string, phrase: string, k: nat, i: nat, j: nat)
    requires |phrase| > 0 && !IsSpace(phrase[0]) && !IsSpace(phrase[|phrase| - 1])
    requires OccursAt(Lower(s), phrase, k)
    requires i <= j <= |s|
    requires forall m :: 0 <= m < i ==> IsSpace(s[m])
    requires forall m :: j <= m < |s| ==> IsSpace(s[m])
    ensures i <= k && k + |phrase| <= j
  {
    var low := Lower(s);
    assert low[k..k + |phrase|][0] == phrase[0];
    assert low[k..k + |phrase|][|phrase| - 1] == phrase[|phrase| - 1];
    assert !IsSpace(s[k]) && !IsSpace(s[k + |phrase| - 1]);
  }

  /**
   * Stripping does not change whether a lower-cased text contains a phrase
   * that begins and ends with a non-space character: every occurrence lies
   * inside the stripped part.
   */
  lemma {:induction false} ContainsAfterStrip(s: string, phrase: string)
    requires |phrase| > 0 && !IsSpace(phrase[0]) && !IsSpace(phrase[|phrase| - 1])
    ensures Contains(Lower(Strip(s)), phrase) <==> Contains(Lower(s), phrase)
  {
    var i, j := StripShape(s);
    LowerSlice(s, i, j);
    var low := Lower(s);
    assert Lower(Strip(s)) == low[i..j];
    if Contains(low[i..j], phrase) {
      ContainsOfSlice(low, i, j, phrase);
    }
    if Contains(low, phrase) {
      var k :| 0 <= k <= |low| && OccursAt(low, phrase, k);
      OccurrenceInsideStrip(s, phrase, k, i, j);
      ContainsInSlice(low, i, j, phrase, k);
    }
  }

  lemma {:induction false} LeadingSpaceOfPadded(l: string, t: string)
    requires forall k :: 0 <= k < |l| ==> IsSpace(l[k])
    requires t != [] && !IsSpace(t[0])
    ensures LeadingSpace(l + t) == |l|
  {
    if l == [] {
      assert l + t == t;
    } else {
      assert (l + t)[1..] == l[1..] + t;
      LeadingSpaceOfPadded(l[1..], t);
    }
  }

  lemma {:induction false} TrailingSpaceOfPadded(t: string, r: string)
    requires forall k :: 0 <= k < |r| ==> IsSpace(r[k])
    requires t != [] && !IsSpace(t[|t| - 1])
    ensures TrailingSpace(t + r) == |r|
  {
    if r == [] {
      assert t + r == t;
    } else {
      assert (t + r)[..|t + r| - 1] == t + r[..|r| - 1];
      TrailingSpaceOfPadded(t, r[..|r| - 1]);
    }
  }

  /** Stripping removes exactly the whitespace put around a text with non-space ends. */
  lemma StripPadded(l: string, m: string, r: string)
    requires forall k :: 0 <= k < |l| ==> IsSpace(l[k])
    requires forall k :: 0 <= k < |r| ==> IsSpace(r[k])
    requires m != [] && !IsSpace(m[0]) && !IsSpace(m[|m| - 1])
    ensures Strip(l + m + r) == m
  {
    var s := l + m + r;
    assert s == l + (m + r);
    LeadingSpaceOfPadded(l, m + r);
    assert s[|l|..] == m + r;
    TrailingSpaceOfPadded(m, r);
    assert s[|l|..|s| - |r|] == m;
  }
}
