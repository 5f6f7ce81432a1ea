/** The pass a node makes when its library has no caches (`run_forward_legacy` in
    inference/node_forward.py): positions start from 0 and nothing is remembered. */
module LegacyForward {
  import opened CausalModel
  import opened NodeForward

  /** When such a pass gives the causal values: nothing came before, and no window is shorter than the chunk. */
  predicate LegacyGuard<H, K>(m: Model<H, K>, s: Shard, past: nat, n: nat) {
    || n == 0 || s.lo == s.hi
    || (past == 0 && forall l: nat :: s.lo <= l < s.hi ==> WindowFits(m.kind(l), n))
  }

  predicate WindowFits(kind: LayerKind, n: nat) { kind.Full? || n <= kind.window }

  lemma LegacyStepExact<H, K>(m: Model<H, K>, l: nat, ys: seq<H>)
    requires WindowFits(m.kind(l), |ys|)
    ensures LegacyStep(m, l, ys) == CausalLayer(m, l, ys)
  {
    forall i: nat | i < |ys| ensures LegacyStep(m, l, ys)[i] == CausalLayer(m, l, ys)[i] {
      VisibleAgree(Keys(m, l, ys), CausalRow(Full, i), CausalRow(m.kind(l), i));
    }
  }

  /** Under the guard the pass is exact, for every model. */
  lemma {:induction false} LegacyExact<H, K>(m: Model<H, K>, s: Shard, past: nat, xs: seq<H>)
    requires past <= |xs| && LegacyGuard(m, s, past, |xs| - past)
    ensures LegacyLayers(m, s.lo, s.hi, Hidden(m, s.lo, xs)[past..]) == Hidden(m, s.hi, xs)[past..]
    decreases s.hi
  {
    if past == |xs| {
      assert Hidden(m, s.lo, xs)[past..] == [] == Hidden(m, s.hi, xs)[past..];
    } else if s.lo < s.hi {
      LegacyExact(m, Shard(s.lo, s.hi - 1), past, xs);
      var ys := Hidden(m, s.hi - 1, xs);
      assert ys[0..] == ys;
      assert CausalLayer(m, s.hi - 1, ys)[0..] == CausalLayer(m, s.hi - 1, ys);
      LegacyStepExact(m, s.hi - 1, ys);
    }
  }

  // ---- models that notice every difference ----

  /** A layer's value shows the position, the hidden value and the visible entries it was made from. */
  ghost predicate Telling<H(!new), K(!new)>(m: Model<H, K>) {
    forall l: nat, p: nat, h: H, seen: seq<K>, p': nat, h': H, seen': seq<K> ::
      m.attend(l, p, h, seen) == m.attend(l, p', h', seen') ==> p == p' && h == h' && seen == seen'
  }

  datatype Term = Input(n: nat) | At(layer: nat, position: nat, hidden: Term, seen: seq<Term>)

  function TermModel(kind: nat -> LayerKind): Model<Term, Term> {
    Model(kind, (l, p, h) => h, (l, p, h, seen) => At(l, p, h, seen), h => h)
  }

  lemma TermModelTells(kind: nat -> LayerKind)
    ensures Telling(TermModel(kind)) && TermModel(kind).kind == kind
  {
  }

  lemma {:induction false} VisibleSize<K>(ks: seq<K>, row: nat -> bool)
    ensures |Visible(ks, row)| <= |ks|
    ensures |Visible(ks, row)| == |ks| <==> forall j: nat :: j < |ks| ==> row(j)
  {
    if |ks| > 0 {
      VisibleSize(ks[..|ks| - 1], row);
    }
  }

  lemma Tells<H(!new), K(!new)>(
    m: Model<H, K>, l: nat, p: nat, h: H, seen: seq<K>, p': nat, h': H, seen': seq<K>)
    requires Telling(m) && m.attend(l, p, h, seen) == m.attend(l, p', h', seen')
    ensures p == p' && h == h' && seen == seen'
  {
  }

  /** One layer whose outputs agree started from the same values, at position 0, with an open window. */
  lemma StepTells<H(!new), K(!new)>(m: Model<H, K>, l: nat, past: nat, mid: seq<H>, ys: seq<H>)
    requires Telling(m) && past < |ys| && |mid| == |ys| - past
    requires LegacyStep(m, l, mid) == CausalLayer(m, l, ys)[past..]
    ensures past == 0 && mid == ys && WindowFits(m.kind(l), |ys|)
  {
    forall i: nat | i < |mid|
      ensures past == 0 && mid[i] == ys[past + i]
      ensures Visible(Keys(m, l, mid), CausalRow(Full, i)) == Visible(Keys(m, l, ys), CausalRow(m.kind(l), past + i))
    {
      var shown, causal := Visible(Keys(m, l, mid), CausalRow(Full, i)),
        Visible(Keys(m, l, ys), CausalRow(m.kind(l), past + i));
      assert LegacyStep(m, l, mid)[i] == CausalLayer(m, l, ys)[past..][i];
      Tells(m, l, i, mid[i], shown, past + i, ys[past + i], causal);
    }
    assert mid[0] == ys[past];
    assert mid == ys;
    var ks, last := Keys(m, l, ys), |ys| - 1;
    VisibleSize(ks, CausalRow(Full, last));
    VisibleSize(ks, CausalRow(m.kind(l), last));
    assert CausalRow(m.kind(l), last)(0);
  }

  lemma {:induction false} LegacyTells<H(!new), K(!new)>(m: Model<H, K>, s: Shard, past: nat, xs: seq<H>)
    requires Telling(m) && past < |xs| && s.lo < s.hi
    requires LegacyLayers(m, s.lo, s.hi, Hidden(m, s.lo, xs)[past..]) == Hidden(m, s.hi, xs)[past..]
    ensures LegacyGuard(m, s, past, |xs| - past)
    decreases s.hi
  {
    var l := s.hi - 1;
    var mid := LegacyLayers(m, s.lo, l, Hidden(m, s.lo, xs)[past..]);
    StepTells(m, l, past, mid, Hidden(m, l, xs));
    if s.lo < l {
      assert Hidden(m, l, xs)[past..] == Hidden(m, l, xs);
      LegacyTells(m, Shard(s.lo, l), past, xs);
    }
  }

  /** For a telling model the pass without caches gives the causal values if and only if the guard
      holds: it serves the first chunk of a request and no later one. */
  lemma LegacyExactIff<H(!new), K(!new)>(m: Model<H, K>, s: Shard, past: nat, xs: seq<H>)
    requires Telling(m) && past <= |xs|
    ensures LegacyLayers(m, s.lo, s.hi, Hidden(m, s.lo, xs)[past..]) == Hidden(m, s.hi, xs)[past..]
      <==> LegacyGuard(m, s, past, |xs| - past)
  {
    if LegacyGuard(m, s, past, |xs| - past) {
      LegacyExact(m, s, past, xs);
    } else if LegacyLayers(m, s.lo, s.hi, Hidden(m, s.lo, xs)[past..]) == Hidden(m, s.hi, xs)[past..] {
      LegacyTells(m, s, past, xs);
    }
  }

  /** Such models exist for any kinds of layers. */
  lemma TermModelLegacyIff(kind: nat -> LayerKind, s: Shard, past: nat, xs: seq<Term>)
    requires past <= |xs|
    ensures var m := TermModel(kind);
      && (LegacyGuard(m, s, past, |xs| - past) <==>
          LegacyLayers(m, s.lo, s.hi, Hidden(m, s.lo, xs)[past..]) == Hidden(m, s.hi, xs)[past..])
  {
    TermModelTells(kind);
    LegacyExactIff(TermModel(kind), s, past, xs);
  }
}
