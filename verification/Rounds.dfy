/** Schedules made of rounds. */
module Rounds {

  function Flat<T>(rounds: seq<seq<T>>): seq<T> {
    if rounds == [] then [] else rounds[0] + Flat(rounds[1..])
  }

  lemma {:induction false} FlatAppend<T>(xs: seq<seq<T>>, ys: seq<seq<T>>)
    ensures Flat(xs + ys) == Flat(xs) + Flat(ys)
  {
    if xs == [] {
      assert xs + ys == ys;
    } else {
      assert (xs + ys)[0] == xs[0] && (xs + ys)[1..] == xs[1..] + ys;
      FlatAppend(xs[1..], ys);
    }
  }

  lemma {:induction false} InFlat<T>(rounds: seq<seq<T>>, a: T)
    requires a in Flat(rounds)
    ensures exists r :: r in rounds && a in r
  {
    if a !in rounds[0] { InFlat(rounds[1..], a); }
  }
}
