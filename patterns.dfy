/** The pieces of Python's `re` that the cleanup regexes of the extractors need,
    written out for the specific patterns used: runs of a character class, literals
    under re.IGNORECASE, re.sub with a pattern whose matches are never empty, and
    re.sub with a pattern of the form `\s*X...$` whose only match runs to the end. */
module Patterns {
  import opened Text
  import opened Seqs

  /** The first index at or after i whose character fails p (|s| if none): a greedy `p*`. */
  function SkipWhile(s: string, i: nat, p: char -> bool): (j: nat)
    ensures i <= j
    ensures i <= |s| ==> j <= |s|
    ensures i > |s| ==> j == i
    ensures forall k :: i <= k < j ==> p(s[k])
    ensures j < |s| ==> !p(s[j])
    decreases |s| - i
  {
    if i < |s| && p(s[i]) then SkipWhile(s, i + 1, p) else i
  }

  /** A greedy `\s*` starting at i. */
  function SkipSpaces(s: string, i: nat): (j: nat)
    ensures i <= j && (i <= |s| ==> j <= |s|) && (i > |s| ==> j == i)
    ensures forall k :: i <= k < j ==> IsSpace(s[k])
    ensures j < |s| ==> !IsSpace(s[j])
  {
    SkipWhile(s, i, IsSpace)
  }

  /** Skipping whitespace from a whitespace character lands where skipping from the next one does. */
  lemma SkipSpacesStep(s: string, i: nat)
    requires i < |s|
    ensures IsSpace(s[i]) ==> SkipSpaces(s, i) == SkipSpaces(s, i + 1)
  {
  }

  /** A greedy `\d*` starting at i. */
  function SkipDigits(s: string, i: nat): (j: nat)
    ensures i <= j && (i <= |s| ==> j <= |s|) && (i > |s| ==> j == i)
    ensures forall k :: i <= k < j ==> IsDigit(s[k])
    ensures j < |s| ==> !IsDigit(s[j])
  {
    SkipWhile(s, i, IsDigit)
  }

  /** The lower-case literal w occurs at i, ignoring ASCII case (a literal under re.IGNORECASE). */
  predicate LitAt(s: string, w: string, i: nat) {
    i + |w| <= |s| && Lower(s[i..i + |w|]) == w
  }

  /** A match under re.IGNORECASE is an occurrence in the lower-cased string. */
  lemma LitAtLower(s: string, w: string, i: nat)
    requires LitAt(s, w, i)
    ensures Contains(Lower(s), w)
  {
    assert Lower(s)[i..i + |w|] == Lower(s[i..i + |w|]);
    assert OccursAt(Lower(s), w, i);
  }

  /** m(s, i) is a non-empty match starting at i: it ends after i and within s. */
  predicate Hit(s: string, i: nat, m: (string, nat) -> Option<nat>) {
    var e := m(s, i);
    e.Some? && i < e.value <= |s|
  }

  /** re.sub(pattern, '', s[i..]) where m(s, k) gives the end of the match starting at k,
      if the pattern matches there: scan left to right, drop each match, resume after it. */
  function SubAll(s: string, i: nat, m: (string, nat) -> Option<nat>): (r: string)
    requires i <= |s|
    ensures |r| <= |s| - i
    ensures (forall k :: i <= k < |s| ==> !Hit(s, k, m)) ==> r == s[i..]
    decreases |s| - i
  {
    if i == |s| then []
    else if Hit(s, i, m) then SubAll(s, m(s, i).value, m)
    else
      var r := SubAll(s, i + 1, m);
      assert s[i..] == [s[i]] + s[i + 1..];
      [s[i]] + r
  }

  /** The text before the leftmost hit is kept, the hit is deleted, and the scan resumes
      where the hit ends: the hits deleted are the non-overlapping ones, left to right. */
  lemma {:induction false} SubAllLeftmost(s: string, i: nat, k: nat, m: (string, nat) -> Option<nat>)
    requires i <= k < |s| && Hit(s, k, m)
    requires forall j :: i <= j < k ==> !Hit(s, j, m)
    ensures SubAll(s, i, m) == s[i..k] + SubAll(s, m(s, k).value, m)
    decreases k - i
  {
    var rest := SubAll(s, m(s, k).value, m);
    if i == k {
      assert s[i..k] == [];
    } else {
      var a := SubAll(s, i + 1, m);
      assert SubAll(s, i, m) == [s[i]] + a by { assert !Hit(s, i, m); }
      assert a == s[i + 1..k] + rest by { SubAllLeftmost(s, i + 1, k, m); }
      assert s[i..k] == [s[i]] + s[i + 1..k];
      AppendAssoc([s[i]], s[i + 1..k], rest);
    }
  }

  /** The pattern `\s*X...$` matches when q accepts the first non-space position after k. */
  predicate CutAt(s: string, k: nat, q: (string, nat) -> bool) {
    q(s, SkipSpaces(s, k))
  }

  /** re.sub(pattern, '', s) for a pattern `\s*X...$` with X not whitespace (q tests X... at
      the first non-space position): the leftmost match runs to the end of the string and
      is the only one, so the result is s cut at the leftmost k where the pattern matches. */
  function TailCut(s: string, i: nat, q: (string, nat) -> bool): (r: string)
    requires i <= |s|
    ensures (r == s && forall k :: i <= k < |s| ==> !CutAt(s, k, q))
         || (exists k :: i <= k < |s| && CutAt(s, k, q) && r == s[..k]
                         && forall k' :: i <= k' < k ==> !CutAt(s, k', q))
    decreases |s| - i
  {
    if i == |s| then s
    else if CutAt(s, i, q) then s[..i]
    else TailCut(s, i + 1, q)
  }

  /** A string that is empty or ends in a non-space character. */
  predicate RightStripped(s: string) {
    s == [] || !IsSpace(s[|s| - 1])
  }

  /** Cutting a right-stripped string leaves it right-stripped and a prefix of itself: the
      leftmost cut cannot follow a space, since the match would then start one earlier. */
  lemma TailCutFacts(s: string, q: (string, nat) -> bool)
    requires RightStripped(s)
    ensures RightStripped(TailCut(s, 0, q))
    ensures StartsWith(s, TailCut(s, 0, q))
  {
    var r := TailCut(s, 0, q);
    if r != s {
      var k :| 0 <= k < |s| && CutAt(s, k, q) && r == s[..k]
               && forall k' :: 0 <= k' < k ==> !CutAt(s, k', q);
      if k > 0 {
        SkipSpacesStep(s, k - 1);
        assert IsSpace(s[k - 1]) ==> CutAt(s, k - 1, q);
        assert r[k - 1] == s[k - 1];
      }
      assert |r| == k && s[..|r|] == r;
    }
  }
}
