/**
 * The Go `strings`/`bytes` helpers the core relies on, over strings modelled
 * as sequences of characters with one character per byte.
 */
module Text {
  import opened Wrappers

  /** `pat` occurs in `s` starting at position `k`. */
  predicate OccursAt(s: string, pat: string, k: nat) {
    k + |pat| <= |s| && s[k..k + |pat|] == pat
  }

  /** `r` is a contiguous piece of `s`. */
  ghost predicate IsSubstring(r: string, s: string) {
    exists a: nat :: OccursAt(s, r, a)
  }

  /** First occurrence of `pat` at or after `from`. */
  function IndexFrom(s: string, pat: string, from: nat): (r: Option<nat>)
    requires from <= |s|
    ensures r.Some? ==> from <= r.value && OccursAt(s, pat, r.value)
    ensures r.Some? ==> forall k: nat :: from <= k < r.value ==> !OccursAt(s, pat, k)
    ensures r.None? ==> forall k: nat :: from <= k ==> !OccursAt(s, pat, k)
    decreases |s| - from
  {
    if OccursAt(s, pat, from) then Some(from)
    else if from == |s| then None
    else IndexFrom(s, pat, from + 1)
  }

  /** `bytes.Index` / `strings.Index`: the first position of `pat` in `s`, `None` for Go's -1. */
  function IndexOf(s: string, pat: string): (r: Option<nat>)
    ensures r.Some? ==> OccursAt(s, pat, r.value)
    ensures r.Some? ==> forall k: nat :: k < r.value ==> !OccursAt(s, pat, k)
    ensures r.None? <==> forall k: nat :: !OccursAt(s, pat, k)
  {
    IndexFrom(s, pat, 0)
  }

  /** `strings.Contains`. */
  predicate Contains(s: string, pat: string) {
    IndexOf(s, pat).Some?
  }

  /** `strings.HasPrefix`. */
  predicate HasPrefix(s: string, prefix: string) {
    |prefix| <= |s| && s[..|prefix|] == prefix
  }

  /** `bytes.HasSuffix`. */
  predicate HasSuffix(s: string, suffix: string) {
    |suffix| <= |s| && s[|s| - |suffix|..] == suffix
  }

  /** `strings.TrimPrefix`: drops `prefix` when `s` starts with it. */
  function TrimPrefix(s: string, prefix: string): (r: string)
    ensures HasPrefix(s, prefix) ==> prefix + r == s
    ensures !HasPrefix(s, prefix) ==> r == s
  {
    if HasPrefix(s, prefix) then s[|prefix|..] else s
  }

  /** The characters Go's `unicode.IsSpace` accepts in the ASCII range. */
  predicate IsSpace(c: char) {
    c == ' ' || c == '\t' || c == '\n' || c == '\r' || c == '\U{000B}' || c == '\U{000C}'
  }

  predicate IsNul(c: char) {
    c == '\0'
  }

  /** Number of leading characters of `s` that `strip` accepts. */
  function LeadingCount(s: string, strip: char -> bool): (n: nat)
    ensures n <= |s|
    ensures forall i :: 0 <= i < n ==> strip(s[i])
    ensures n < |s| ==> !strip(s[n])
  {
    if |s| > 0 && strip(s[0]) then 1 + LeadingCount(s[1..], strip) else 0
  }

  /** Number of trailing characters of `s` that `strip` accepts. */
  function TrailingCount(s: string, strip: char -> bool): (n: nat)
    ensures n <= |s|
    ensures forall i :: |s| - n <= i < |s| ==> strip(s[i])
    ensures n < |s| ==> !strip(s[|s| - 1 - n])
  {
    if |s| > 0 && strip(s[|s| - 1]) then 1 + TrailingCount(s[..|s| - 1], strip) else 0
  }

  /**
   * `strings.TrimFunc`: drops the longest prefix and suffix of characters that
   * `strip` accepts. The result is the piece of `s` starting at the first kept
   * character, everything dropped is stripped, and the ends are kept characters.
   */
  function TrimFunc(s: string, strip: char -> bool): (r: string)
    ensures LeadingCount(s, strip) + |r| <= |s|
    ensures r == s[LeadingCount(s, strip)..LeadingCount(s, strip) + |r|]
    ensures forall i :: 0 <= i < LeadingCount(s, strip) ==> strip(s[i])
    ensures forall i :: LeadingCount(s, strip) + |r| <= i < |s| ==> strip(s[i])
    ensures r != [] ==> !strip(r[0]) && !strip(r[|r| - 1])
    ensures r == [] <==> forall i :: 0 <= i < |s| ==> strip(s[i])
  {
    var t := s[LeadingCount(s, strip)..];
    t[..|t| - TrailingCount(t, strip)]
  }

  /**
   * `strings.TrimSpace` (ASCII whitespace): `r` is the piece of `s` left after
   * dropping the whitespace at both ends, and only that whitespace.
   */
  function TrimSpace(s: string): (r: string)
    ensures IsSubstring(r, s)
    ensures LeadingCount(s, IsSpace) + |r| <= |s|
    ensures r == s[LeadingCount(s, IsSpace)..LeadingCount(s, IsSpace) + |r|]
    ensures forall i :: 0 <= i < LeadingCount(s, IsSpace) ==> IsSpace(s[i])
    ensures forall i :: LeadingCount(s, IsSpace) + |r| <= i < |s| ==> IsSpace(s[i])
    ensures r != [] ==> !IsSpace(r[0]) && !IsSpace(r[|r| - 1])
    ensures r == [] <==> forall i :: 0 <= i < |s| ==> IsSpace(s[i])
  {
    var r := TrimFunc(s, IsSpace);
    assert OccursAt(s, r, LeadingCount(s, IsSpace));
    r
  }

  /**
   * `bytes.Trim(b, "\x00")`: `r` is the piece of `s` left after dropping the
   * NULs at both ends, and only those.
   */
  function TrimNul(s: string): (r: string)
    ensures IsSubstring(r, s)
    ensures LeadingCount(s, IsNul) + |r| <= |s|
    ensures r == s[LeadingCount(s, IsNul)..LeadingCount(s, IsNul) + |r|]
    ensures forall i :: 0 <= i < LeadingCount(s, IsNul) ==> IsNul(s[i])
    ensures forall i :: LeadingCount(s, IsNul) + |r| <= i < |s| ==> IsNul(s[i])
    ensures r != [] ==> !IsNul(r[0]) && !IsNul(r[|r| - 1])
    ensures r == [] <==> forall i :: 0 <= i < |s| ==> IsNul(s[i])
  {
    var r := TrimFunc(s, IsNul);
    assert OccursAt(s, r, LeadingCount(s, IsNul));
    r
  }

  /** A string with nothing to trim is its own trimmed form. */
  lemma {:induction false} TrimFuncOfTrimmed(s: string, strip: char -> bool)
    requires s != [] ==> !strip(s[0]) && !strip(s[|s| - 1])
    ensures TrimFunc(s, strip) == s
  {
  }

  function UpperChar(c: char): char {
    if 'a' <= c <= 'z' then (c as int - 32) as char else c
  }

  function LowerChar(c: char): char {
    if 'A' <= c <= 'Z' then (c as int + 32) as char else c
  }

  /** `strings.ToUpper` on ASCII letters. */
  function ToUpper(s: string): (r: string)
    ensures |r| == |s|
    ensures forall i :: 0 <= i < |s| ==> r[i] == UpperChar(s[i])
  {
    seq(|s|, i requires 0 <= i < |s| => UpperChar(s[i]))
  }

  /** `strings.ToLower` on ASCII letters. */
  function ToLower(s: string): (r: string)
    ensures |r| == |s|
    ensures forall i :: 0 <= i < |s| ==> r[i] == LowerChar(s[i])
  {
    seq(|s|, i requires 0 <= i < |s| => LowerChar(s[i]))
  }

  /**
   * The first non-empty string of `candidates`, or "" when all are empty:
   * the shape of every "try this source, then the next" cascade in the core.
   */
  function FirstNonEmpty(candidates: seq<string>): (r: string)
    ensures r == "" <==> forall i :: 0 <= i < |candidates| ==> candidates[i] == ""
    ensures r != "" ==> exists i :: 0 <= i < |candidates| && candidates[i] == r &&
                                    forall j :: 0 <= j < i ==> candidates[j] == ""
  {
    if candidates == [] then ""
    else if candidates[0] != "" then candidates[0]
    else
      var r := FirstNonEmpty(candidates[1..]);
      assert r != "" ==> exists i :: 0 <= i < |candidates| && candidates[i] == r &&
                                     forall j :: 0 <= j < i ==> candidates[j] == "" by {
        if r != "" {
          var i :| 0 <= i < |candidates[1..]| && candidates[1..][i] == r &&
                   forall j :: 0 <= j < i ==> candidates[1..][j] == "";
          assert candidates[i + 1] == r;
        }
      }
      r
  }
}
