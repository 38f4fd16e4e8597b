/** Searching and lowering text, as `str::find` and `str::to_lowercase` do on ASCII. */
module Text {
  import opened Wrappers
  import Hex

  /** `pattern` occurs in `s` at `i`. */
  predicate At(s: string, pattern: string, i: nat) {
    i + |pattern| <= |s| && s[i..i + |pattern|] == pattern
  }

  /** The first occurrence at or after `i`. */
  function FindFrom(s: string, pattern: string, i: nat): (r: Option<nat>)
    requires i <= |s|
    ensures r.Some? ==> i <= r.value && At(s, pattern, r.value) && forall j :: i <= j < r.value ==> !At(s, pattern, j)
    ensures r.None? ==> forall j :: i <= j ==> !At(s, pattern, j)
    decreases |s| - i
  {
    if i + |pattern| > |s| then None
    else if At(s, pattern, i) then Some(i)
    else if i == |s| then None
    else FindFrom(s, pattern, i + 1)
  }

  function Find(s: string, pattern: string): (r: Option<nat>)
    ensures r.Some? ==> At(s, pattern, r.value) && forall j :: 0 <= j < r.value ==> !At(s, pattern, j)
    ensures r.None? ==> forall j: nat :: !At(s, pattern, j)
  {
    FindFrom(s, pattern, 0)
  }

  predicate Contains(s: string, pattern: string) {
    Find(s, pattern).Some?
  }

  lemma AtChar(s: string, pattern: string, i: nat, m: nat)
    requires m < |pattern|
    ensures At(s, pattern, i) ==> s[i + m] == pattern[m]
  {
  }

  lemma AtBehind(s: string, cut: nat, pattern: string, i: nat)
    requires cut <= |s|
    ensures At(s[cut..], pattern, i) <==> At(s, pattern, cut + i)
  {
  }

  /** No character of `s` between `i` and `k` is `c`. */
  predicate Free(s: string, c: char, i: nat, k: nat)
    requires k <= |s|
  {
    forall j :: i <= j < k ==> s[j] != c
  }

  /** An occurrence is the first if the pattern's `m`-th character does not occur before its `m`-th place. */
  lemma FindIs(s: string, pattern: string, k: nat, m: nat)
    requires At(s, pattern, k) && m < |pattern| && Free(s, pattern[m], m, k + m)
    ensures Find(s, pattern) == Some(k)
  {
  }

  lemma FindNothing(s: string, pattern: string, m: nat)
    requires m < |pattern| && pattern[m] !in s
    ensures Find(s, pattern).None?
  {
  }

  function LowerChar(c: char): char {
    if 'A' <= c <= 'Z' then (c as int + 32) as char else c
  }

  function Lower(s: string): (r: string)
    ensures |r| == |s|
    ensures forall i :: 0 <= i < |s| ==> r[i] == LowerChar(s[i])
  {
    seq(|s|, i requires 0 <= i < |s| => LowerChar(s[i]))
  }

  /** Lowering maps each capital to the small letter at its place, and keeps every other character. */
  lemma LowersLetters(c: char)
    ensures 'A' <= c <= 'Z' ==> LowerChar(c) as int - 'a' as int == c as int - 'A' as int
    ensures !('A' <= c <= 'Z') ==> LowerChar(c) == c
  {
  }

  /** The end of the run of hex digits that starts at `i`. */
  function RunEnd(s: string, i: nat): (e: nat)
    requires i <= |s|
    ensures i <= e <= |s|
    ensures forall j :: i <= j < e ==> Hex.IsDigit(s[j])
    ensures e < |s| ==> !Hex.IsDigit(s[e])
    decreases |s| - i
  {
    if i < |s| && Hex.IsDigit(s[i]) then RunEnd(s, i + 1) else i
  }

  lemma {:induction false} RunEndIs(s: string, i: nat, e: nat)
    requires i <= e <= |s|
    requires forall j :: i <= j < e ==> Hex.IsDigit(s[j])
    requires e < |s| ==> !Hex.IsDigit(s[e])
    ensures RunEnd(s, i) == e
    decreases e - i
  {
  }
}
