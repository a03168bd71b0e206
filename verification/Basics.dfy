/** Shared vocabulary. */
module Basics {

  datatype Option<T> = None | Some(value: T)

  function Flatten<T>(chunks: seq<seq<T>>): seq<T> {
    if chunks == [] then [] else chunks[0] + Flatten(chunks[1..])
  }

  /** `a` is among the first `n` actions of a run. */
  ghost predicate Happened<A>(actions: seq<A>, n: nat, a: A)
    requires n <= |actions|
  {
    exists k: nat :: k < n && actions[k] == a
  }

  lemma HappenedNext<A>(actions: seq<A>, n: nat, a: A)
    requires n < |actions|
    ensures Happened(actions, n + 1, a) <==> Happened(actions, n, a) || actions[n] == a
  {
  }

  lemma {:induction false} SubsetSize<T>(a: set<T>, b: set<T>)
    requires a <= b
    ensures |a| <= |b|
  {
    if x :| x in a {
      SubsetSize(a - {x}, b - {x});
    }
  }
}
