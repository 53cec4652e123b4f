/** Small string helpers shared by the colouring, scraping and credential modules. */
module Strings {

  datatype Option<+T> = None | Some(value: T)

  /** The first position at or after `from` that holds `c`, if there is one; its meaning is `IndexOfSpec`. */
  function IndexOf(s: string, c: char, from: nat): (r: Option<nat>)
    requires from <= |s|
    ensures r.Some? ==> from <= r.value < |s| && s[r.value] == c
    decreases |s| - from
  {
    if from == |s| then None
    else if s[from] == c then Some(from)
    else IndexOf(s, c, from + 1)
  }

  /** The search fails exactly when `c` does not occur from `from` on, and otherwise finds its first occurrence. */
  lemma {:induction false} IndexOfSpec(s: string, c: char, from: nat)
    requires from <= |s|
    ensures IndexOf(s, c, from).None? <==> forall k :: from <= k < |s| ==> s[k] != c
    ensures IndexOf(s, c, from).Some? ==> forall k :: from <= k < IndexOf(s, c, from).value ==> s[k] != c
    decreases |s| - from
  {
    if from < |s| && s[from] != c {
      IndexOfSpec(s, c, from + 1);
    }
  }

  /** A position holding `c` with no `c` between `from` and it is what the search finds. */
  lemma IndexOfFirst(s: string, c: char, from: nat, k: nat)
    requires from <= k < |s| && s[k] == c
    requires forall t :: from <= t < k ==> s[t] != c
    ensures IndexOf(s, c, from) == Some(k)
  {
    IndexOfSpec(s, c, from);
  }

  /** `s` ends with `suffix`. */
  predicate EndsWith(s: string, suffix: string) {
    |suffix| <= |s| && s[|s| - |suffix|..] == suffix
  }

  /** `s` starts with `prefix`. */
  predicate StartsWith(s: string, prefix: string) {
    |prefix| <= |s| && s[..|prefix|] == prefix
  }
}
