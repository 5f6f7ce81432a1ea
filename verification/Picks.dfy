/** Subsequences: what a filter keeps, in order. */
module Picks {

  predicate Rising(at: seq<nat>) { forall i, j :: 0 <= i < j < |at| ==> at[i] < at[j] }

  ghost predicate PickedAt<T>(xs: seq<T>, ys: seq<T>, keep: set<nat>, at: seq<nat>) {
    && Rising(at) && |at| == |ys|
    && (forall i :: 0 <= i < |at| ==> at[i] in keep && at[i] < |xs| && ys[i] == xs[at[i]])
    && (forall j :: j in keep ==> j in at)
  }

  /** ys is xs at just these positions, in order. */
  ghost predicate IsPick<T>(xs: seq<T>, ys: seq<T>, keep: set<nat>) {
    exists at: seq<nat> :: PickedAt(xs, ys, keep, at)
  }

  lemma NothingPicked<T>(xs: seq<T>, ys: seq<T>, keep: set<nat>)
    requires xs == [] && ys == [] && keep == {}
    ensures IsPick(xs, ys, keep)
  {
    assert PickedAt(xs, ys, keep, []);
  }

  /** A list taken apart from behind. */
  lemma LastPicked<T>(xs: seq<T>, ys: seq<T>, keep: set<nat>, early: seq<T>, before: set<nat>, kept: bool)
    requires xs != [] && IsPick(xs[..|xs| - 1], early, before)
    requires ys == early + (if kept then [xs[|xs| - 1]] else [])
    requires keep == before + (if kept then {|xs| - 1} else {})
    ensures IsPick(xs, ys, keep)
  {
    var at: seq<nat> :| PickedAt(xs[..|xs| - 1], early, before, at);
    if kept {
      KeptToo(xs, early, before, at);
      assert PickedAt(xs, ys, keep, at + [|xs| - 1]);
    } else {
      assert ys == early && keep == before;
      LeftOut(xs, early, before, at);
    }
  }

  lemma LeftOut<T>(xs: seq<T>, early: seq<T>, before: set<nat>, at: seq<nat>)
    requires xs != [] && PickedAt(xs[..|xs| - 1], early, before, at)
    ensures PickedAt(xs, early, before, at)
  {
  }

  lemma KeptToo<T>(xs: seq<T>, early: seq<T>, before: set<nat>, at: seq<nat>)
    requires xs != [] && PickedAt(xs[..|xs| - 1], early, before, at)
    ensures PickedAt(xs, early + [xs[|xs| - 1]], before + {|xs| - 1}, at + [|xs| - 1])
  {
    var longer := at + [|xs| - 1];
    forall j | j in before + {|xs| - 1} ensures j in longer {
      if j in before {
        assert j in at;
      } else {
        assert longer[|at|] == j;
      }
    }
  }
}
