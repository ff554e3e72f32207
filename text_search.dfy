/** Substring search as JavaScript's `String.prototype.indexOf` does it, with
    positions counted in characters rather than UTF-16 code units. */
module TextSearch {

  /** `pat` occurs in `s` starting at position `k`. */
  predicate OccursAt(s: string, pat: string, k: int) {
    0 <= k && k + |pat| <= |s| && s[k..k + |pat|] == pat
  }

  /** The first position at or after `from` where `pat` occurs in `s`, or -1. */
  function IndexOfFrom(s: string, pat: string, from: nat): (r: int)
    requires from <= |s|
    ensures r == -1 || from <= r <= |s| - |pat|
    decreases |s| - from
  {
    if from + |pat| > |s| then -1
    else if OccursAt(s, pat, from) then from
    else IndexOfFrom(s, pat, from + 1)
  }

  /** `s.indexOf(pat)`. */
  function IndexOf(s: string, pat: string): (r: int)
    ensures r == -1 || 0 <= r <= |s| - |pat|
  {
    IndexOfFrom(s, pat, 0)
  }

  /** The search from `from` finds the first occurrence at or after `from`. */
  lemma {:induction false} IndexOfFromCorrect(s: string, pat: string, from: nat)
    requires from <= |s|
    ensures IndexOfFrom(s, pat, from) == -1 || OccursAt(s, pat, IndexOfFrom(s, pat, from))
    ensures forall k :: from <= k && (IndexOfFrom(s, pat, from) == -1 || k < IndexOfFrom(s, pat, from))
              ==> !OccursAt(s, pat, k)
    decreases |s| - from
  {
    if from + |pat| <= |s| && !OccursAt(s, pat, from) {
      IndexOfFromCorrect(s, pat, from + 1);
    }
  }

  /** `s.indexOf(pat)` is -1 exactly when `pat` occurs nowhere in `s`;
      otherwise `pat` occurs at the result and at no earlier position. */
  lemma IndexOfCorrect(s: string, pat: string)
    ensures IndexOf(s, pat) == -1 <==> forall k :: !OccursAt(s, pat, k)
    ensures IndexOf(s, pat) != -1 ==>
      OccursAt(s, pat, IndexOf(s, pat)) && forall k :: 0 <= k < IndexOf(s, pat) ==> !OccursAt(s, pat, k)
  {
    IndexOfFromCorrect(s, pat, 0);
  }
}
