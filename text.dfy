/** String helpers standing for the Python built-ins the validator relies on:
    `str.lower()` (restricted to ASCII), the substring test `pat in s`, and
    `s.index(pat)`, which raises when `pat` is absent (here: `None`). */
module Text {

  datatype Option<T> = None | Some(value: T)

  predicate IsUpper(c: char) {
    'A' <= c <= 'Z'
  }

  /** ASCII case folding of one character. */
  function LowerChar(c: char): (d: char)
    ensures !IsUpper(d)
    ensures !IsUpper(c) ==> d == c
    ensures IsUpper(c) ==> 'a' <= d <= 'z' && d as int - c as int == 'a' as int - 'A' as int
  {
    if IsUpper(c) then (c as int - 'A' as int + 'a' as int) as char else c
  }

  /** No character of `s` is an upper-case ASCII letter. */
  predicate IsLowerCase(s: string) {
    forall i :: 0 <= i < |s| ==> !IsUpper(s[i])
  }

  /** `s.lower()` for ASCII text: same length, every letter folded, nothing else touched. */
  function Lower(s: string): (r: string)
    ensures |r| == |s|
    ensures IsLowerCase(r)
    ensures forall i :: 0 <= i < |s| && !IsUpper(s[i]) ==> r[i] == s[i]
    ensures forall i :: 0 <= i < |s| && IsUpper(s[i]) ==> r[i] as int - s[i] as int == 'a' as int - 'A' as int
  {
    seq(|s|, i requires 0 <= i < |s| => LowerChar(s[i]))
  }

  /** Folding text that has no upper-case letter changes nothing. */
  lemma LowerOfLowerCase(s: string)
    requires IsLowerCase(s)
    ensures Lower(s) == s
  {
    assert forall i :: 0 <= i < |s| ==> Lower(s)[i] == s[i];
  }

  /** Case folding is idempotent. */
  lemma LowerIdempotent(s: string)
    ensures Lower(Lower(s)) == Lower(s)
  {
    LowerOfLowerCase(Lower(s));
  }

  /** `pat` occurs in `s` starting at position `i`. */
  predicate Occurs(s: string, pat: string, i: nat) {
    i + |pat| <= |s| && s[i..i + |pat|] == pat
  }

  /** `i` is where the first occurrence of `pat` in `s` starts. */
  predicate IsFirstOccurrence(s: string, pat: string, i: nat) {
    Occurs(s, pat, i) && forall k: nat :: k < i ==> !Occurs(s, pat, k)
  }

  /** Left-to-right search for `pat`, starting at `from`. */
  function FirstIndexFrom(s: string, pat: string, from: nat): (r: Option<nat>)
    requires from <= |s|
    ensures r.Some? ==> from <= r.value && Occurs(s, pat, r.value)
    ensures r.Some? ==> forall k: nat :: from <= k < r.value ==> !Occurs(s, pat, k)
    ensures r.None? ==> forall k: nat :: from <= k ==> !Occurs(s, pat, k)
    decreases |s| - from
  {
    if from + |pat| > |s| then None
    else if s[from..from + |pat|] == pat then Some(from)
    else FirstIndexFrom(s, pat, from + 1)
  }

  /** `s.index(pat)`: the first occurrence, or `None` where Python raises `ValueError`. */
  function FirstIndex(s: string, pat: string): (r: Option<nat>)
    ensures r.Some? <==> exists i: nat :: Occurs(s, pat, i)
    ensures r.Some? ==> IsFirstOccurrence(s, pat, r.value)
  {
    FirstIndexFrom(s, pat, 0)
  }

  /** Python's substring test `pat in s`. */
  function Contains(s: string, pat: string): (b: bool)
    ensures b <==> exists i: nat :: Occurs(s, pat, i)
  {
    FirstIndex(s, pat).Some?
  }

  /** There is only one first occurrence. */
  lemma FirstOccurrenceUnique(s: string, pat: string, i: nat, j: nat)
    requires IsFirstOccurrence(s, pat, i) && IsFirstOccurrence(s, pat, j)
    ensures i == j
  {
  }

  /** Wherever `pat` occurs, every prefix of `pat` occurs too. */
  lemma {:induction false} OccursPrefix(s: string, pat: string, pre: string, i: nat)
    requires Occurs(s, pat, i)
    requires |pre| <= |pat| && pat[..|pre|] == pre
    ensures Occurs(s, pre, i)
  {
    assert s[i..i + |pre|] == s[i..i + |pat|][..|pre|];
  }

  /** Text containing `pat` contains every prefix of `pat`. */
  lemma ContainsPrefix(s: string, pat: string, pre: string)
    requires Contains(s, pat)
    requires |pre| <= |pat| && pat[..|pre|] == pre
    ensures Contains(s, pre)
  {
    var i: nat :| Occurs(s, pat, i);
    OccursPrefix(s, pat, pre, i);
  }
}
