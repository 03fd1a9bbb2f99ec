/** Sequence patterns shared by the extractors: the first candidate that passes a
    validator ("first acceptance wins"), and the keep-first filter that drops a
    candidate when it clashes with one already kept (the near-duplicate loops). */
module Seqs {

  datatype Option<T> = None | Some(value: T)

  /** The first candidate that f accepts, as f renders it: the cascade "the first candidate
      that passes wins". */
  function FirstSome<T, U>(xs: seq<T>, f: T -> Option<U>): (r: Option<U>)
    ensures r.None? <==> forall i :: 0 <= i < |xs| ==> f(xs[i]).None?
    ensures r.Some? ==> exists i :: 0 <= i < |xs| && f(xs[i]) == r
                                    && forall j :: 0 <= j < i ==> f(xs[j]).None?
  {
    if xs == [] then None
    else if f(xs[0]).Some? then f(xs[0])
    else
      var r := FirstSome(xs[1..], f);
      assert forall i :: 1 <= i < |xs| ==> xs[1..][i - 1] == xs[i];
      r
  }

  /** No candidate passes f. */
  ghost predicate NoneAccepted<T, U>(xs: seq<T>, f: T -> Option<U>) {
    forall i :: 0 <= i < |xs| ==> f(xs[i]).None?
  }

  /** r is what f made of the first candidate that f accepts. */
  ghost predicate FirstAccepted<T, U>(xs: seq<T>, f: T -> Option<U>, r: Option<U>) {
    exists i :: 0 <= i < |xs| && f(xs[i]) == r && r.Some? && forall j :: 0 <= j < i ==> f(xs[j]).None?
  }

  /** a is a subsequence of b: its elements occur in b in the same order. */
  ghost predicate IsSubseq<T>(a: seq<T>, b: seq<T>)
    decreases |b|
  {
    a == [] ||
    (b != [] &&
     ((a[|a| - 1] == b[|b| - 1] && IsSubseq(a[..|a| - 1], b[..|b| - 1])) || IsSubseq(a, b[..|b| - 1])))
  }

  /** A prefix of a subsequence is a subsequence. */
  lemma {:induction false} SubseqPrefix<T>(a: seq<T>, b: seq<T>, k: nat)
    requires IsSubseq(a, b) && k <= |a|
    ensures IsSubseq(a[..k], b)
    decreases |b|
  {
    if k == |a| {
      assert a[..k] == a;
    } else if a != [] {
      if a[|a| - 1] == b[|b| - 1] && IsSubseq(a[..|a| - 1], b[..|b| - 1]) {
        SubseqPrefix(a[..|a| - 1], b[..|b| - 1], k);
        assert a[..|a| - 1][..k] == a[..k];
      } else {
        SubseqPrefix(a, b[..|b| - 1], k);
      }
    }
  }

  predicate ClashesWithAny<T>(x: T, kept: seq<T>, clash: (T, T) -> bool) {
    exists j :: 0 <= j < |kept| && clash(x, kept[j])
  }

  /** Scan s in order, keeping each element unless it clashes with one kept before it. */
  function Sieve<T>(s: seq<T>, clash: (T, T) -> bool): (r: seq<T>)
    ensures |r| <= |s|
  {
    if s == [] then []
    else
      var kept := Sieve(s[..|s| - 1], clash);
      if ClashesWithAny(s[|s| - 1], kept, clash) then kept else kept + [s[|s| - 1]]
  }

  /** One more element: kept exactly when it clashes with nothing kept so far. */
  lemma SieveStep<T>(s: seq<T>, x: T, clash: (T, T) -> bool)
    ensures Sieve(s + [x], clash) ==
      if ClashesWithAny(x, Sieve(s, clash), clash) then Sieve(s, clash) else Sieve(s, clash) + [x]
  {
    assert (s + [x])[..|s|] == s;
  }

  /** The kept elements are a subsequence of the input. */
  lemma {:induction false} SieveSubseq<T>(s: seq<T>, clash: (T, T) -> bool)
    ensures IsSubseq(Sieve(s, clash), s)
  {
    if s != [] {
      var p := s[..|s| - 1];
      SieveSubseq(p, clash);
      var r := Sieve(s, clash);
      if r != Sieve(p, clash) {
        assert r[..|r| - 1] == Sieve(p, clash);
      }
    }
  }

  /** Every kept element comes from the input. */
  lemma {:induction false} SieveMembers<T>(s: seq<T>, clash: (T, T) -> bool)
    ensures forall x :: x in Sieve(s, clash) ==> x in s
  {
    if s != [] {
      var p := s[..|s| - 1];
      SieveMembers(p, clash);
      assert forall x :: x in p ==> x in s;
    }
  }

  /** What is kept from a prefix is a prefix of what is kept from the whole. */
  lemma {:induction false} SievePrefix<T>(s: seq<T>, k: nat, clash: (T, T) -> bool)
    requires k <= |s|
    ensures |Sieve(s[..k], clash)| <= |Sieve(s, clash)|
    ensures Sieve(s[..k], clash) == Sieve(s, clash)[..|Sieve(s[..k], clash)|]
    decreases |s|
  {
    if k == |s| {
      assert s[..k] == s;
    } else {
      var p := s[..|s| - 1];
      SievePrefix(p, k, clash);
      assert p[..k] == s[..k];
    }
  }

  /** The first element is always kept. */
  lemma SieveFirst<T>(s: seq<T>, clash: (T, T) -> bool)
    requires s != []
    ensures Sieve(s, clash) != [] && Sieve(s, clash)[0] == s[0]
  {
    SievePrefix(s, 1, clash);
    assert Sieve(s[..1][..0], clash) == [];
  }

  /** No element of r clashes with one before it. */
  predicate NoLaterClash<T>(r: seq<T>, clash: (T, T) -> bool) {
    forall i, j :: 0 <= i < j < |r| ==> !clash(r[j], r[i])
  }

  /** No kept element clashes with one kept before it. */
  lemma {:induction false} SievePairwise<T>(s: seq<T>, clash: (T, T) -> bool)
    ensures NoLaterClash(Sieve(s, clash), clash)
  {
    if s != [] {
      var p := s[..|s| - 1];
      var x := s[|s| - 1];
      var kept := Sieve(p, clash);
      SievePairwise(p, clash);
      var r := Sieve(s, clash);
      if !ClashesWithAny(x, kept, clash) {
        assert r == kept + [x];
        forall i, j | 0 <= i < j < |r| ensures !clash(r[j], r[i]) {
          assert r[i] == kept[i];
          if j < |kept| { assert r[j] == kept[j]; }
        }
      }
    }
  }

  /** Every dropped element clashes with an earlier input element that was kept. */
  lemma {:induction false} SieveDropJustified<T>(s: seq<T>, clash: (T, T) -> bool)
    ensures var r := Sieve(s, clash);
      forall k :: 0 <= k < |s| && s[k] !in r ==>
        exists j :: 0 <= j < k && s[j] in r && clash(s[k], s[j])
  {
    if s != [] {
      var n := |s|;
      var p := s[..n - 1];
      var r := Sieve(s, clash);
      var kept := Sieve(p, clash);
      SieveDropJustified(p, clash);
      SievePrefix(s, n - 1, clash);
      assert forall x :: x in kept ==> x in r;
      forall k | 0 <= k < n && s[k] !in r
        ensures exists j :: 0 <= j < k && s[j] in r && clash(s[k], s[j])
      {
        if k < n - 1 {
          assert p[k] == s[k] && s[k] !in kept;
          var j :| 0 <= j < k && p[j] in kept && clash(p[k], p[j]);
          assert s[j] == p[j];
        } else {
          assert r == kept;
          var m :| 0 <= m < |kept| && clash(s[k], kept[m]);
          SieveMembers(p, clash);
          assert kept[m] in p;
          var j :| 0 <= j < n - 1 && p[j] == kept[m];
          assert s[j] == p[j];
        }
      }
    }
  }

  /** before holds between every earlier and every later element of r. */
  predicate Ordered<T>(r: seq<T>, before: (T, T) -> bool) {
    forall i, j :: 0 <= i < j < |r| ==> before(r[i], r[j])
  }

  /** An order that holds between every earlier and later input element also holds
      between every earlier and later kept element. */
  lemma {:induction false} SieveKeepsOrder<T>(s: seq<T>, clash: (T, T) -> bool, before: (T, T) -> bool)
    requires Ordered(s, before)
    ensures Ordered(Sieve(s, clash), before)
  {
    if s != [] {
      var n := |s|;
      var p := s[..n - 1];
      var kept := Sieve(p, clash);
      assert Ordered(p, before) by {
        assert forall i :: 0 <= i < n - 1 ==> p[i] == s[i];
      }
      SieveKeepsOrder(p, clash, before);
      SieveMembers(p, clash);
      var r := Sieve(s, clash);
      if !ClashesWithAny(s[n - 1], kept, clash) {
        assert r == kept + [s[n - 1]];
        forall i, j | 0 <= i < j < |r| ensures before(r[i], r[j]) {
          assert r[i] == kept[i];
          if j == |kept| {
            assert kept[i] in p;
            var m :| 0 <= m < n - 1 && p[m] == kept[i];
            assert r[j] == s[n - 1] && p[m] == s[m];
          } else {
            assert r[j] == kept[j];
          }
        }
      }
    }
  }

  /** No element occurs twice. */
  predicate Distinct<T(==)>(xs: seq<T>) {
    forall i, j :: 0 <= i < j < |xs| ==> xs[i] != xs[j]
  }

  /** list(s): every element of the set exactly once, in an order the model leaves open. */
  method ListOf<T(==)>(s: set<T>) returns (xs: seq<T>)
    ensures forall x :: x in xs <==> x in s
    ensures Distinct(xs) && |xs| == |s|
  {
    xs := [];
    var rest := s;
    while rest != {}
      invariant rest <= s
      invariant forall x :: x in xs <==> x in s && x !in rest
      invariant Distinct(xs) && |xs| + |rest| == |s|
      decreases |rest|
    {
      var x :| x in rest;
      xs := xs + [x];
      rest := rest - {x};
    }
  }

  /** The first n elements, or all of them when there are fewer: xs[:n]. */
  function Take<T>(xs: seq<T>, n: nat): (r: seq<T>)
    ensures |r| <= n && |r| <= |xs| && r == xs[..|r|]
    ensures |r| == if |xs| < n then |xs| else n
  {
    if |xs| <= n then xs else xs[..n]
  }

  /** The inner loop of a keep-first filter: does x clash with anything kept so far? */
  method ClashesWithKept<T>(x: T, kept: seq<T>, clash: (T, T) -> bool) returns (found: bool)
    ensures found == ClashesWithAny(x, kept, clash)
  {
    found := false;
    var j := 0;
    while j < |kept|
      invariant 0 <= j <= |kept|
      invariant !found ==> forall m :: 0 <= m < j ==> !clash(x, kept[m])
      invariant found ==> ClashesWithAny(x, kept, clash)
    {
      if clash(x, kept[j]) {
        found := true;
        break;
      }
      j := j + 1;
    }
  }

  /** The outer loop: append each element that clashes with nothing kept before it. */
  method KeepFirst<T>(xs: seq<T>, clash: (T, T) -> bool) returns (kept: seq<T>)
    ensures kept == Sieve(xs, clash)
  {
    kept := [];
    for i := 0 to |xs|
      invariant kept == Sieve(xs[..i], clash)
    {
      var x := xs[i];
      var found := ClashesWithKept(x, kept, clash);
      SieveStep(xs[..i], x, clash);
      assert xs[..i + 1] == xs[..i] + [x];
      if !found {
        kept := kept + [x];
      }
    }
    assert xs[..|xs|] == xs;
  }
}
