/** Sequences filtered by a predicate, and sizes of sets. */
module Collections {
  function Select<T>(xs: seq<T>, keep: T -> bool): seq<T> {
    if xs == [] then []
    else if keep(xs[0]) then [xs[0]] + Select(xs[1..], keep) else Select(xs[1..], keep)
  }

  lemma {:induction false} SelectElements<T>(xs: seq<T>, keep: T -> bool)
    ensures forall x :: x in Select(xs, keep) <==> x in xs && keep(x)
  {
    if xs != [] {
      SelectElements(xs[1..], keep);
      assert forall x :: x in xs <==> x == xs[0] || x in xs[1..];
    }
  }

  lemma {:induction false} SelectAll<T>(xs: seq<T>, keep: T -> bool)
    requires forall x :: x in xs ==> keep(x)
    ensures Select(xs, keep) == xs
  {
    if xs != [] {
      assert xs == [xs[0]] + xs[1..];
      assert forall x :: x in xs[1..] ==> x in xs;
      SelectAll(xs[1..], keep);
    }
  }

  lemma {:induction false} SelectTwice<T>(xs: seq<T>, p: T -> bool, q: T -> bool)
    ensures Select(Select(xs, p), q) == Select(xs, x => p(x) && q(x))
    ensures Select(Select(xs, p), q) == Select(Select(xs, q), p)
  {
    if xs != [] {
      SelectTwice(xs[1..], p, q);
      if p(xs[0]) {
        var kept := Select(xs[1..], p);
        assert ([xs[0]] + kept)[1..] == kept;
      }
      if q(xs[0]) {
        var kept := Select(xs[1..], q);
        assert ([xs[0]] + kept)[1..] == kept;
      }
    }
  }

  lemma {:induction false} SelectAlike<T>(xs: seq<T>, p: T -> bool, q: T -> bool)
    requires forall x :: x in xs ==> p(x) == q(x)
    ensures Select(xs, p) == Select(xs, q)
  {
    if xs != [] {
      assert forall x :: x in xs[1..] ==> x in xs;
      SelectAlike(xs[1..], p, q);
    }
  }

  lemma SubsetSize<T>(a: set<T>, b: set<T>)
    requires a <= b
    ensures |a| <= |b|
  {
    assert b == a + (b - a);
  }
}
