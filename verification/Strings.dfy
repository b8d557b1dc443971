/** Substring search as done by the standard library's find. */
module Strings {
  import opened Options

  predicate MatchesAt(s: string, pattern: string, i: nat) {
    i + |pattern| <= |s| && s[i..i + |pattern|] == pattern
  }

  /** The first match at or after `from`. */
  function Find(s: string, pattern: string, from: nat): Option<nat>
    decreases |s| - from
  {
    if from + |pattern| > |s| then None
    else if MatchesAt(s, pattern, from) then Some(from)
    else if from == |s| then None
    else Find(s, pattern, from + 1)
  }

  lemma {:induction false} FindIsFirst(s: string, pattern: string, from: nat)
    ensures match Find(s, pattern, from)
            case None => forall i: nat | from <= i :: !MatchesAt(s, pattern, i)
            case Some(p) => from <= p && MatchesAt(s, pattern, p)
                            && forall i: nat | from <= i < p :: !MatchesAt(s, pattern, i)
    decreases |s| - from
  {
    if from < |s| && from + |pattern| <= |s| && !MatchesAt(s, pattern, from) {
      FindIsFirst(s, pattern, from + 1);
    }
  }

  lemma FindIs(s: string, pattern: string, from: nat, p: nat)
    requires from <= p && MatchesAt(s, pattern, p)
    requires forall i: nat | from <= i < p :: !MatchesAt(s, pattern, i)
    ensures Find(s, pattern, from) == Some(p)
  {
    FindIsFirst(s, pattern, from);
  }

  lemma FindInRange(s: string, pattern: string, from: nat)
    ensures Find(s, pattern, from).Some? ==> Find(s, pattern, from).value + |pattern| <= |s|
  {
    FindIsFirst(s, pattern, from);
  }

  lemma FindChar(s: string, c: char, from: nat, p: nat)
    requires from <= p < |s| && s[p] == c
    requires forall i: nat | from <= i < p :: s[i] != c
    ensures Find(s, [c], from) == Some(p)
  {
    assert s[p..p + 1] == [c];
    forall i: nat | from <= i < p
      ensures !MatchesAt(s, [c], i)
    {
      assert s[i..i + 1][0] == s[i];
    }
    FindIs(s, [c], from, p);
  }

  lemma MatchesChar(s: string, c: char, i: nat)
    ensures MatchesAt(s, [c], i) <==> i < |s| && s[i] == c
  {
    assert i < |s| ==> s[i..i + 1] == [s[i]];
  }

  lemma FindNothing(s: string, c: char, from: nat)
    requires forall i: nat | from <= i < |s| :: s[i] != c
    ensures Find(s, [c], from) == None
  {
    FindIsFirst(s, [c], from);
    hide Find, MatchesAt;
    if Find(s, [c], from).Some? {
      MatchesChar(s, c, Find(s, [c], from).value);
    }
  }

  predicate EndsWith(s: string, suffix: string) {
    |suffix| <= |s| && s[|s| - |suffix|..] == suffix
  }

  predicate Free(s: string, c: char) {
    forall i | 0 <= i < |s| :: s[i] != c
  }
}
