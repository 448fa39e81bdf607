/**
 * Substring vocabulary shared by the URL and file-name helpers: Python's
 * `s.startswith`, `s.endswith` and `pat in s`.
 */
module Text {

  /** `pat` occurs in `s` starting at position `i`. */
  predicate StartsAt(s: string, pat: string, i: nat) {
    i + |pat| <= |s| && s[i..i + |pat|] == pat
  }

  /** `s.endswith(suffix)`. */
  predicate EndsWith(s: string, suffix: string) {
    |suffix| <= |s| && s[|s| - |suffix|..] == suffix
  }

  /** A string occurring at `i` fixes the characters from `i` on. */
  lemma StartsAtChar(s: string, pat: string, i: nat, k: nat)
    requires k < |pat|
    ensures StartsAt(s, pat, i) ==> s[i + k] == pat[k]
  {
    if StartsAt(s, pat, i) {
      assert s[i + k] == s[i..i + |pat|][k];
    }
  }

  /** A suffix fixes the last characters. */
  lemma EndsWithChar(s: string, suffix: string, k: nat)
    requires k < |suffix|
    ensures EndsWith(s, suffix) ==> s[|s| - |suffix| + k] == suffix[k]
  {
    if EndsWith(s, suffix) {
      assert s[|s| - |suffix| + k] == s[|s| - |suffix|..][k];
    }
  }

  function OccursFrom(s: string, pat: string, from: nat): bool
    decreases |s| - from
  {
    if from + |pat| > |s| then false
    else StartsAt(s, pat, from) || OccursFrom(s, pat, from + 1)
  }

  /** Python's `pat in s`. */
  predicate Occurs(s: string, pat: string) {
    OccursFrom(s, pat, 0)
  }

  /** The scan from `from` finds `pat` exactly when it starts somewhere at or after `from`. */
  lemma {:induction false} OccursFromSpec(s: string, pat: string, from: nat)
    ensures OccursFrom(s, pat, from) <==> exists i :: from <= i && StartsAt(s, pat, i)
    decreases |s| - from
  {
    if from + |pat| <= |s| {
      OccursFromSpec(s, pat, from + 1);
    }
  }

  /** `pat in s` holds exactly when `pat` starts at some position of `s`. */
  lemma OccursSpec(s: string, pat: string)
    ensures Occurs(s, pat) <==> exists i :: StartsAt(s, pat, i)
  {
    OccursFromSpec(s, pat, 0);
  }
}
