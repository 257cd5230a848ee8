/** String operations of JavaScript that the resolver source relies on. */
module Text {

  predicate StartsWith(s: string, prefix: string) {
    |prefix| <= |s| && s[..|prefix|] == prefix
  }

  predicate EndsWith(s: string, suffix: string) {
    |suffix| <= |s| && s[|s| - |suffix|..] == suffix
  }

  /** `t` occurs in `s` starting at position `k`. */
  predicate OccursAt(s: string, t: string, k: int) {
    0 <= k && k + |t| <= |s| && s[k..k + |t|] == t
  }

  /**
   * `s.indexOf(t, from)` for a start position within `s`: the first position at or after
   * `from` where `t` occurs, or -1.
   */
  function IndexOfFrom(s: string, t: string, from: nat): (r: int)
    requires from <= |s|
    ensures r == -1 || (from <= r && OccursAt(s, t, r))
    ensures forall k :: from <= k && (r == -1 || k < r) ==> !OccursAt(s, t, k)
    decreases |s| - from
  {
    if from + |t| > |s| then -1
    else if s[from..from + |t|] == t then from
    else IndexOfFrom(s, t, from + 1)
  }

  /** `s.indexOf(t)`: the first position where `t` occurs in `s`, or -1 when it does not occur. */
  function IndexOf(s: string, t: string): (r: int)
    ensures r == -1 || OccursAt(s, t, r)
    ensures r == -1 <==> forall k :: !OccursAt(s, t, k)
    ensures forall k :: 0 <= k < r ==> !OccursAt(s, t, k)
  {
    IndexOfFrom(s, t, 0)
  }

  /** `s.indexOf(t) === 0` is exactly a string-prefix test: it says nothing about path segments. */
  lemma IndexOfZeroIsPrefix(s: string, t: string)
    ensures IndexOf(s, t) == 0 <==> StartsWith(s, t)
  {
    if StartsWith(s, t) {
      assert OccursAt(s, t, 0);
    }
  }
}
