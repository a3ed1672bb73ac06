/** Two notions about sequences that several components share. */
module Sequences {

  ghost predicate Distinct<T>(xs: seq<T>) {
    forall i, j :: 0 <= i < j < |xs| ==> xs[i] != xs[j]
  }

  /** The first n elements, or all of them. */
  function Cut<T>(xs: seq<T>, n: nat): (r: seq<T>)
    ensures r <= xs && |r| <= n
  {
    if |xs| > n then xs[..n] else xs
  }
}
