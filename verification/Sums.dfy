/** Sums over sequences. */
module Sums {
  function Sum<T>(xs: seq<T>, f: T -> nat): nat {
    if xs == [] then 0 else Sum(xs[..|xs| - 1], f) + f(xs[|xs| - 1])
  }

  lemma SumAppend<T>(xs: seq<T>, x: T, f: T -> nat)
    ensures Sum(xs + [x], f) == Sum(xs, f) + f(x)
  {
    assert (xs + [x])[..|xs|] == xs;
  }

  lemma {:induction false} SumUpdate<T>(xs: seq<T>, i: nat, x: T, f: T -> nat)
    requires i < |xs|
    ensures Sum(xs[i := x], f) + f(xs[i]) == Sum(xs, f) + f(x)
  {
    var n := |xs| - 1;
    if i == n {
      assert xs[i := x][..n] == xs[..n];
    } else {
      SumUpdate(xs[..n], i, x, f);
      assert xs[i := x][..n] == xs[..n][i := x];
    }
  }

  lemma {:induction false} SumLeq<T>(xs: seq<T>, f: T -> nat, g: T -> nat)
    requires forall i | 0 <= i < |xs| :: f(xs[i]) <= g(xs[i])
    ensures Sum(xs, f) <= Sum(xs, g)
  {
    if xs != [] {
      SumLeq(xs[..|xs| - 1], f, g);
    }
  }

  lemma {:induction false} SumAdds<T>(xs: seq<T>, f: T -> nat, g: T -> nat, h: T -> nat)
    requires forall i | 0 <= i < |xs| :: f(xs[i]) + g(xs[i]) == h(xs[i])
    ensures Sum(xs, f) + Sum(xs, g) == Sum(xs, h)
  {
    if xs != [] {
      SumAdds(xs[..|xs| - 1], f, g, h);
    }
  }
}
