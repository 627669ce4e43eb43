/** Sums of a per-thread weight over all threads of a step system. */
module Sums {

  function Sum<A>(xs: seq<A>, weight: A -> nat): nat {
    if xs == [] then 0 else weight(xs[0]) + Sum(xs[1..], weight)
  }

  /** Replacing one summand changes the sum by the difference of the two weights. */
  lemma {:induction false} SumUpdate<A>(xs: seq<A>, i: nat, x: A, weight: A -> nat)
    requires i < |xs|
    ensures Sum(xs[i := x], weight) + weight(xs[i]) == Sum(xs, weight) + weight(x)
  {
    if i == 0 {
      assert xs[i := x][1..] == xs[1..];
    } else {
      assert xs[i := x][1..] == xs[1..][i - 1 := x];
      SumUpdate(xs[1..], i - 1, x, weight);
    }
  }

  lemma {:induction false} SumAtLeast<A>(xs: seq<A>, i: nat, weight: A -> nat)
    requires i < |xs|
    ensures weight(xs[i]) <= Sum(xs, weight)
  {
    if i > 0 {
      SumAtLeast(xs[1..], i - 1, weight);
    }
  }

  lemma {:induction false} SumZero<A>(xs: seq<A>, weight: A -> nat)
    requires forall i :: 0 <= i < |xs| ==> weight(xs[i]) == 0
    ensures Sum(xs, weight) == 0
  {
    if xs != [] {
      SumZero(xs[1..], weight);
    }
  }

  /** A positive sum has a positive summand. */
  lemma {:induction false} SumWitness<A>(xs: seq<A>, weight: A -> nat) returns (i: nat)
    requires Sum(xs, weight) > 0
    ensures i < |xs| && weight(xs[i]) > 0
  {
    if weight(xs[0]) > 0 {
      i := 0;
    } else {
      i := SumWitness(xs[1..], weight);
      i := i + 1;
    }
  }
}
