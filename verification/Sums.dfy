/** Totals over a sequence, used wherever a state machine balances its books. */
module Sums {

  function Total<T>(xs: seq<T>, f: T -> int): int {
    if xs == [] then 0 else Total(xs[..|xs| - 1], f) + f(xs[|xs| - 1])
  }

  lemma TotalUpdate<T>(xs: seq<T>, i: nat, x: T, f: T -> int)
    requires i < |xs|
    ensures Total(xs[i := x], f) == Total(xs, f) - f(xs[i]) + f(x)
  {
    var last := |xs| - 1;
    if i < last {
      TotalUpdate(xs[..last], i, x, f);
      assert xs[i := x][..last] == xs[..last][i := x];
    } else {
      assert xs[i := x][..last] == xs[..last];
    }
  }

  lemma TotalNonNegative<T>(xs: seq<T>, f: T -> int)
    requires forall j :: 0 <= j < |xs| ==> f(xs[j]) >= 0
    ensures Total(xs, f) >= 0
  {
  }

  lemma TotalAtLeast<T>(xs: seq<T>, i: nat, f: T -> int)
    requires i < |xs| && forall j :: 0 <= j < |xs| ==> f(xs[j]) >= 0
    ensures Total(xs, f) >= f(xs[i]) && Total(xs, f) >= 0
  {
    TotalNonNegative(xs, f);
    var last := |xs| - 1;
    TotalNonNegative(xs[..last], f);
    if i < last {
      TotalAtLeast(xs[..last], i, f);
    }
  }

  /** A positive total has a positive term. */
  lemma TotalWitness<T>(xs: seq<T>, f: T -> int) returns (i: nat)
    requires Total(xs, f) > 0
    ensures i < |xs| && f(xs[i]) > 0
  {
    i := |xs| - 1;
    if f(xs[i]) <= 0 {
      i := TotalWitness(xs[..i], f);
    }
  }

  lemma TotalAtMost<T>(xs: seq<T>, f: T -> int, bound: nat)
    requires forall j :: 0 <= j < |xs| ==> f(xs[j]) <= bound
    ensures Total(xs, f) <= |xs| * bound
  {
  }

  lemma TotalPointwise<T>(xs: seq<T>, ys: seq<T>, f: T -> int)
    requires |xs| == |ys| && forall j :: 0 <= j < |xs| ==> f(xs[j]) <= f(ys[j])
    ensures Total(xs, f) <= Total(ys, f)
    ensures (exists j :: 0 <= j < |xs| && f(xs[j]) < f(ys[j])) ==> Total(xs, f) < Total(ys, f)
  {
    if xs != [] {
      TotalPointwise(xs[..|xs| - 1], ys[..|ys| - 1], f);
    }
  }

  lemma TotalSame<T>(xs: seq<T>, ys: seq<T>, f: T -> int)
    requires |xs| == |ys| && forall j :: 0 <= j < |xs| ==> f(xs[j]) == f(ys[j])
    ensures Total(xs, f) == Total(ys, f)
  {
  }

  lemma TotalConstant<T>(xs: seq<T>, f: T -> int, c: int)
    requires forall j :: 0 <= j < |xs| ==> f(xs[j]) == c
    ensures Total(xs, f) == |xs| * c
  {
  }

  lemma HeadCount<T>(s: seq<T>, x: T)
    requires s != []
    ensures multiset(s)[x] == multiset(s[1..])[x] + (if s[0] == x then 1 else 0)
  {
    assert s == [s[0]] + s[1..];
  }
}
