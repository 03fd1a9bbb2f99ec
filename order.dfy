/** Python's ordering of str values (lexicographic by code point) and sorted() of a set of strings. */
module Order {

  /** a < b on Python strings. */
  predicate Lt(a: string, b: string)
    decreases |a|
  {
    if a == [] then b != []
    else if b == [] then false
    else if a[0] != b[0] then a[0] < b[0]
    else Lt(a[1..], b[1..])
  }

  predicate Le(a: string, b: string) {
    a == b || Lt(a, b)
  }

  lemma {:induction false} LtIrreflexive(a: string)
    ensures !Lt(a, a)
    decreases |a|
  {
    if a != [] { LtIrreflexive(a[1..]); }
  }

  lemma {:induction false} LtTransitive(a: string, b: string, c: string)
    requires Lt(a, b) && Lt(b, c)
    ensures Lt(a, c)
    decreases |a|
  {
    if a != [] && b != [] && c != [] && a[0] == b[0] && b[0] == c[0] {
      LtTransitive(a[1..], b[1..], c[1..]);
    }
  }

  /** Any two different strings are ordered one way or the other. */
  lemma {:induction false} LtTotal(a: string, b: string)
    ensures a == b || Lt(a, b) || Lt(b, a)
    decreases |a|
  {
    if a != [] && b != [] && a[0] == b[0] {
      LtTotal(a[1..], b[1..]);
      if a[1..] == b[1..] {
        assert a == [a[0]] + a[1..] && b == [b[0]] + b[1..];
      }
    }
  }

  lemma {:induction false} LtAsymmetric(a: string, b: string)
    requires Lt(a, b)
    ensures !Lt(b, a)
    decreases |a|
  {
    if a != [] && b != [] && a[0] == b[0] {
      LtAsymmetric(a[1..], b[1..]);
    }
  }

  predicate StrictlySorted(xs: seq<string>) {
    forall i, j :: 0 <= i < j < |xs| ==> Lt(xs[i], xs[j])
  }

  /** Every non-empty finite set of strings has a least element. */
  lemma {:induction false} MinExists(s: set<string>) returns (m: string)
    requires s != {}
    ensures m in s && forall y :: y in s ==> Le(m, y)
    decreases |s|
  {
    var x :| x in s;
    if s == {x} {
      m := x;
    } else {
      var m' := MinExists(s - {x});
      LtTotal(m', x);
      if Le(m', x) {
        m := m';
      } else {
        m := x;
        forall y | y in s ensures Le(m, y) {
          if y != x {
            assert Le(m', y);
            if m' != y { LtTransitive(x, m', y); }
          }
        }
      }
    }
  }

  /** sorted(list(s)): every element of the set exactly once, in increasing order. */
  method SortStrings(s: set<string>) returns (xs: seq<string>)
    ensures StrictlySorted(xs)
    ensures forall x :: x in xs <==> x in s
    ensures |xs| == |s|
  {
    xs := [];
    var rest := s;
    while rest != {}
      invariant rest <= s
      invariant StrictlySorted(xs)
      invariant forall x :: x in xs <==> x in s && x !in rest
      invariant forall i, y :: 0 <= i < |xs| && y in rest ==> Lt(xs[i], y)
      invariant |xs| + |rest| == |s|
      decreases |rest|
    {
      ghost var least := MinExists(rest);
      var m :| m in rest && forall y :: y in rest ==> Le(m, y);
      forall i, y | 0 <= i < |xs| + 1 && y in rest - {m} ensures Lt((xs + [m])[i], y) {
        if i == |xs| {
          assert Le(m, y) && m != y;
        }
      }
      xs := xs + [m];
      rest := rest - {m};
    }
  }
}
