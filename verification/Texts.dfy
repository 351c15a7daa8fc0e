/** Searching in strings. */
module Texts {

  predicate OccursAt(s: string, pat: string, i: nat) {
    i + |pat| <= |s| && s[i..i + |pat|] == pat
  }

  predicate Contains(s: string, pat: string) {
    exists i: nat :: i <= |s| && OccursAt(s, pat, i)
  }

  /** Position of the first occurrence at or after `from`; |s| + 1 stands for npos. */
  function Find(s: string, pat: string, from: nat): (i: nat)
    ensures i <= |s| ==> from <= i && OccursAt(s, pat, i)
    ensures i == |s| + 1 || i <= |s|
    ensures forall j: nat :: from <= j < i && j <= |s| ==> !OccursAt(s, pat, j)
    decreases |s| + 1 - from
  {
    if from > |s| then |s| + 1
    else if OccursAt(s, pat, from) then from
    else Find(s, pat, from + 1)
  }

  lemma FindIs(s: string, pat: string, i: nat)
    requires OccursAt(s, pat, i) && forall j: nat :: j < i ==> !OccursAt(s, pat, j)
    ensures Find(s, pat, 0) == i
  {
  }

  lemma ContainsFound(s: string, pat: string)
    ensures Contains(s, pat) <==> Find(s, pat, 0) <= |s|
  {
    if Contains(s, pat) {
      var i: nat :| i <= |s| && OccursAt(s, pat, i);
    }
  }

  lemma OccursIn(a: string, s: string, b: string, pat: string, i: nat)
    requires OccursAt(s, pat, i)
    ensures OccursAt(a + s + b, pat, |a| + i)
  {
    assert (a + s + b)[|a| + i..|a| + i + |pat|] == s[i..i + |pat|];
  }

  lemma CharAt(s: string, pat: string, i: nat, k: nat)
    requires OccursAt(s, pat, i) && i <= k < i + |pat|
    ensures k < |s| && s[k] == pat[k - i]
  {
    assert s[i..i + |pat|][k - i] == s[k];
  }

  lemma OccursWithin(c: string, b: string, pat: string, j: nat)
    requires j + |pat| <= |c|
    ensures OccursAt(c + b, pat, j) <==> OccursAt(c, pat, j)
  {
    assert (c + b)[j..j + |pat|] == c[j..j + |pat|];
  }

  lemma OccursBehind(a: string, c: string, pat: string, j: nat)
    requires |a| <= j
    ensures OccursAt(a + c, pat, j) <==> OccursAt(c, pat, j - |a|)
  {
    if j + |pat| <= |a| + |c| {
      assert (a + c)[j..j + |pat|] == c[j - |a|..j - |a| + |pat|];
    }
  }
}
