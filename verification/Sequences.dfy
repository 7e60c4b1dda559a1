/** Facts about sequences and multisets that the solver uses best when they are handed over by name. */
module Sequences {
  lemma Associative<T>(a: seq<T>, b: seq<T>, c: seq<T>)
    ensures a + (b + c) == a + b + c
  {
  }

  lemma Regroup<T>(a: multiset<T>, b: multiset<T>, c: multiset<T>)
    ensures a + (b + c) == a + b + c == b + (a + c)
  {
  }

  ghost function Total<T>(xs: seq<T>, f: T -> nat): nat {
    if xs == [] then 0 else f(xs[0]) + Total(xs[1..], f)
  }

  /** For sums of the numbers themselves. */
  function Itself(n: nat): nat {
    n
  }

  lemma {:induction false} TotalUpdate<T>(xs: seq<T>, k: nat, x: T, f: T -> nat)
    requires k < |xs|
    ensures Total(xs[k := x], f) + f(xs[k]) == Total(xs, f) + f(x)
  {
    if k == 0 {
      assert xs[0 := x][1..] == xs[1..];
    } else {
      TotalUpdate(xs[1..], k - 1, x, f);
      assert xs[k := x][1..] == xs[1..][k - 1 := x];
    }
  }

  lemma {:induction false} TotalAppend<T>(xs: seq<T>, x: T, f: T -> nat)
    ensures Total(xs + [x], f) == Total(xs, f) + f(x)
  {
    if xs == [] {
      assert [] + [x] == [x];
    } else {
      TotalAppend(xs[1..], x, f);
      assert (xs + [x])[1..] == xs[1..] + [x];
    }
  }

  lemma {:induction false} TotalRemove<T>(xs: seq<T>, k: nat, f: T -> nat)
    requires k < |xs|
    ensures Total(Without(xs, k), f) + f(xs[k]) == Total(xs, f)
  {
    if k == 0 {
      assert Without(xs, 0) == xs[1..];
    } else {
      TotalRemove(xs[1..], k - 1, f);
      assert Without(xs, k)[1..] == Without(xs[1..], k - 1);
    }
  }

  function Without<T>(xs: seq<T>, k: nat): seq<T>
    requires k < |xs|
  {
    xs[..k] + xs[k + 1..]
  }
}
