/**
 * The .NET string operations the core relies on, stated on `seq<char>`:
 * white-space tests, ordinal case folding, substring search, trimming,
 * joining and decimal rendering of natural numbers.
 */
module Text {
  import opened Wrappers

  /** `char.IsWhiteSpace`: the characters with the Unicode White_Space property. */
  predicate IsWhiteSpace(c: char) {
    c == ' ' || '\t' <= c <= '\r' || c == '\U{85}' || c == '\U{A0}' || c == '\U{1680}'
    || '\U{2000}' <= c <= '\U{200A}' || c == '\U{2028}' || c == '\U{2029}'
    || c == '\U{202F}' || c == '\U{205F}' || c == '\U{3000}'
  }

  /** `string.IsNullOrWhiteSpace` on a string that is present: empty or only white space. */
  predicate IsBlank(s: string) {
    forall i :: 0 <= i < |s| ==> IsWhiteSpace(s[i])
  }

  /** `string.IsNullOrWhiteSpace` on a string that may be null. */
  predicate IsNullOrWhiteSpace(s: Option<string>) {
    s.None? || IsBlank(s.value)
  }

  /** The character `StringComparer.OrdinalIgnoreCase` compares in place of `c` (ASCII letters upper-cased). */
  function FoldChar(c: char): char {
    if 'a' <= c <= 'z' then (c as int - 32) as char else c
  }

  /** The key under which `StringComparer.OrdinalIgnoreCase` compares a string. */
  function Fold(s: string): string {
    seq(|s|, i requires 0 <= i < |s| => FoldChar(s[i]))
  }

  /** Equality under `StringComparer.OrdinalIgnoreCase`. */
  predicate EqualsIgnoreCase(a: string, b: string) {
    Fold(a) == Fold(b)
  }

  /** `t` occurs in `s` starting at index `k`, character for character. */
  predicate OccursAt(s: string, t: string, k: int) {
    0 <= k && k + |t| <= |s| && s[k..k + |t|] == t
  }

  /** `s.Contains(t)` (ordinal comparison). */
  predicate Contains(s: string, t: string) {
    exists k :: 0 <= k <= |s| - |t| && OccursAt(s, t, k)
  }

  lemma ContainsInLeft(a: string, b: string, t: string)
    requires Contains(a, t)
    ensures Contains(a + b, t)
  {
    var k :| 0 <= k <= |a| - |t| && OccursAt(a, t, k);
    assert (a + b)[k..k + |t|] == a[k..k + |t|];
    assert OccursAt(a + b, t, k);
  }

  lemma ContainsInRight(a: string, b: string, t: string)
    requires Contains(b, t)
    ensures Contains(a + b, t)
  {
    var k :| 0 <= k <= |b| - |t| && OccursAt(b, t, k);
    assert (a + b)[|a| + k..|a| + k + |t|] == b[k..k + |t|];
    assert OccursAt(a + b, t, |a| + k);
  }

  lemma ContainsInMiddle(a: string, b: string, c: string, t: string)
    requires Contains(b, t)
    ensures Contains(a + b + c, t)
  {
    ContainsInLeft(b, c, t);
    ContainsInRight(a, b + c, t);
    assert a + b + c == a + (b + c);
  }

  /** `t` occurs in `s` at index `k` up to `OrdinalIgnoreCase`. */
  predicate MatchesAt(s: string, t: string, k: int) {
    0 <= k && k + |t| <= |s| && Fold(s[k..k + |t|]) == Fold(t)
  }

  /** `s.IndexOf(t, StringComparison.OrdinalIgnoreCase)`: the first index where `t` matches up to case, or -1. */
  function IndexOfIgnoreCase(s: string, t: string): (k: int)
    ensures k == -1 || 0 <= k <= |s| - |t|
    ensures k >= 0 ==> MatchesAt(s, t, k) && forall j :: 0 <= j < k ==> !MatchesAt(s, t, j)
    ensures k == -1 ==> forall j :: 0 <= j ==> !MatchesAt(s, t, j)
  {
    IndexFrom(s, t, 0)
  }

  function IndexFrom(s: string, t: string, from: nat): (k: int)
    requires from <= |s| + 1
    ensures k == -1 || (from <= k <= |s| - |t| && MatchesAt(s, t, k))
    ensures k >= 0 ==> forall j :: from <= j < k ==> !MatchesAt(s, t, j)
    ensures k == -1 ==> forall j :: from <= j ==> !MatchesAt(s, t, j)
    decreases |s| + 1 - from
  {
    if from + |t| > |s| then -1
    else if MatchesAt(s, t, from) then from
    else IndexFrom(s, t, from + 1)
  }

  /** `s.TrimStart()`: drops the leading white space. */
  function TrimStart(s: string): (r: string)
    ensures |r| <= |s| && r == s[|s| - |r|..]
    ensures forall i :: 0 <= i < |s| - |r| ==> IsWhiteSpace(s[i])
    ensures r == [] || !IsWhiteSpace(r[0])
  {
    if |s| > 0 && IsWhiteSpace(s[0]) then TrimStart(s[1..]) else s
  }

  /** `s.TrimEnd()`: drops the trailing white space. */
  function TrimEnd(s: string): (r: string)
    ensures |r| <= |s| && r == s[..|r|]
    ensures forall i :: |r| <= i < |s| ==> IsWhiteSpace(s[i])
    ensures r == [] || !IsWhiteSpace(r[|r| - 1])
  {
    if |s| > 0 && IsWhiteSpace(s[|s| - 1]) then TrimEnd(s[..|s| - 1]) else s
  }

  /** `s.TrimEnd(c)`: drops every trailing occurrence of `c`. */
  function TrimEndChar(s: string, c: char): (r: string)
    ensures |r| <= |s| && r == s[..|r|]
    ensures forall i :: |r| <= i < |s| ==> s[i] == c
    ensures r == [] || r[|r| - 1] != c
  {
    if |s| > 0 && s[|s| - 1] == c then TrimEndChar(s[..|s| - 1], c) else s
  }

  /** `s.Trim()`: drops leading and trailing white space. */
  function Trim(s: string): string {
    TrimEnd(TrimStart(s))
  }

  /** `string.Join(separator, items)`. */
  function Join(separator: string, items: seq<string>): string {
    if |items| == 0 then ""
    else if |items| == 1 then items[0]
    else items[0] + separator + Join(separator, items[1..])
  }

  /** Every joined item can be found in the joined text. */
  lemma {:induction false} JoinContainsEach(separator: string, items: seq<string>, k: nat)
    requires k < |items|
    ensures Contains(Join(separator, items), items[k])
  {
    if |items| == 1 || k == 0 {
      assert OccursAt(items[0], items[0], 0);
      if |items| > 1 {
        ContainsInLeft(items[0], separator + Join(separator, items[1..]), items[0]);
        assert items[0] + separator + Join(separator, items[1..]) == items[0] + (separator + Join(separator, items[1..]));
      }
    } else {
      JoinContainsEach(separator, items[1..], k - 1);
      ContainsInRight(items[0] + separator, Join(separator, items[1..]), items[k]);
    }
  }

  function DigitChar(d: nat): char
    requires d < 10
  {
    ('0' as int + d) as char
  }

  /** `n.ToString()` for a natural number: its decimal digits, without leading zeros. */
  function NatToString(n: nat): (s: string)
    ensures |s| > 0
    ensures forall i :: 0 <= i < |s| ==> '0' <= s[i] <= '9'
  {
    if n < 10 then [DigitChar(n)] else NatToString(n / 10) + [DigitChar(n % 10)]
  }
}
