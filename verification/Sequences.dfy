/** Small facts about sequences that several modules need. */
module Sequences {

  /** `pattern` stands at position i of s. */
  predicate OccursAt(s: string, pattern: string, i: int) {
    0 <= i <= |s| - |pattern| && s[i..i + |pattern|] == pattern
  }

  /** Taking out the element at i takes one occurrence of it away. */
  lemma TakingOut<T>(s: seq<T>, i: nat)
    requires i < |s|
    ensures multiset(s[..i] + s[i + 1..]) == multiset(s) - multiset{s[i]}
  {
    assert s == s[..i] + [s[i]] + s[i + 1..];
  }

  lemma MembersRemain<T>(fewer: seq<T>, more: seq<T>, x: T)
    requires multiset(fewer) <= multiset(more) && x in fewer
    ensures x in more
  {
    assert x in multiset(more);
  }
}
