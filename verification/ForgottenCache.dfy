/** A node that has lost a request's cache, because others pushed it out or it was cleared, does not
    notice on a forward pass (inference/node_forward.py): it starts again at position 0. */
module ForgottenCache {
  import opened CausalModel
  import opened KvCache
  import opened NodeForward
  import opened LegacyForward
  import opened MaskNecessity

  /** When that goes unnoticed for good: nothing came before, and the chunk passes the mask test as a first one. */
  predicate RestartGuard<H, K>(m: Model<H, K>, env: MaskEnv, s: Shard, past: nat, n: nat) {
    || n == 0 || s.lo == s.hi
    || (past == 0 && forall l: nat :: s.lo <= l < s.hi ==> MaskGuard(env, m.kind(l), 0, n))
  }

  function Restarted<H, K>(m: Model<H, K>, env: MaskEnv, s: Shard, hs: seq<H>): (out: seq<H>)
    ensures |out| == |hs|
  {
    Pass(m, env, s, hs, map[]).0
  }

  lemma RestartExact<H, K>(m: Model<H, K>, env: MaskEnv, s: Shard, past: nat, xs: seq<H>)
    requires past <= |xs| && RestartGuard(m, env, s, past, |xs| - past)
    ensures Restarted(m, env, s, Hidden(m, s.lo, xs)[past..]) == Hidden(m, s.hi, xs)[past..]
  {
    if past == |xs| {
      assert Hidden(m, s.lo, xs)[past..] == [] == Hidden(m, s.hi, xs)[past..];
    } else if s.lo < s.hi {
      assert xs[..0] == [];
      assert forall l: nat :: Keys(m, l, Hidden(m, l, [])) == [];
      NodeExact(m, env, s, 0, xs, Hidden(m, s.lo, xs)[0..], map[]);
    }
  }

  /** Some row of an unguarded chunk shows more than causality allows. */
  lemma MoreShown<H, K>(env: MaskEnv, m: Model<H, K>, l: nat, ys: seq<H>) returns (i: nat)
    requires !MaskGuard(env, m.kind(l), 0, |ys|)
    ensures i < |ys|
    ensures Visible(Keys(m, l, ys), MaskRow(env, m.kind(l), 0, |ys|, i))
         != Visible(Keys(m, l, ys), CausalRow(m.kind(l), i))
  {
    var n, kind, ks := |ys|, m.kind(l), Keys(m, l, ys);
    i := LeakyRow(env, kind, 0, n);
    RowCounts(env, kind, 0, n, i);
    CountCut(n, i + 1, CausalRow(kind, i));
    VisibleCount(ks, MaskRow(env, kind, 0, n, i));
    VisibleCount(ks, CausalRow(kind, i));
  }

  /** One restarted layer whose outputs agree started from the same values at position 0. */
  lemma StepTellsRestart<H(!new), K(!new)>(m: Model<H, K>, env: MaskEnv, l: nat, past: nat, mid: seq<H>, ys: seq<H>)
    requires Telling(m) && past < |ys| && |mid| == |ys| - past
    requires LayerStep(m, env, l, 0, mid, []) == CausalLayer(m, l, ys)[past..]
    ensures past == 0 && mid == ys && MaskGuard(env, m.kind(l), 0, |ys|)
  {
    var n := |mid|;
    forall i: nat | i < n
      ensures past == 0 && mid[i] == ys[past + i]
      ensures Visible(Appended(m, l, 0, mid, []), MaskRow(env, m.kind(l), 0, n, i))
        == Visible(Keys(m, l, ys), CausalRow(m.kind(l), past + i))
    {
      RowTells(m, env, l, past, mid, ys, i);
    }
    assert mid[0] == ys[past];
    assert mid == ys;
    assert Appended(m, l, 0, mid, []) == Keys(m, l, ys);
    if !MaskGuard(env, m.kind(l), 0, n) {
      var i := MoreShown(env, m, l, ys);
    }
  }

  lemma RowTells<H(!new), K(!new)>(
    m: Model<H, K>, env: MaskEnv, l: nat, past: nat, mid: seq<H>, ys: seq<H>, i: nat)
    requires Telling(m) && past < |ys| && |mid| == |ys| - past && i < |mid|
    requires LayerStep(m, env, l, 0, mid, []) == CausalLayer(m, l, ys)[past..]
    ensures past == 0 && mid[i] == ys[past + i]
    ensures Visible(Appended(m, l, 0, mid, []), MaskRow(env, m.kind(l), 0, |mid|, i))
      == Visible(Keys(m, l, ys), CausalRow(m.kind(l), past + i))
  {
    var shown := Visible(Appended(m, l, 0, mid, []), MaskRow(env, m.kind(l), 0, |mid|, i));
    var causal := Visible(Keys(m, l, ys), CausalRow(m.kind(l), past + i));
    assert LayerStep(m, env, l, 0, mid, [])[i] == CausalLayer(m, l, ys)[past..][i];
    Tells(m, l, 0 + i, mid[i], shown, past + i, ys[past + i], causal);
  }

  lemma {:induction false} RestartTells<H(!new), K(!new)>(m: Model<H, K>, env: MaskEnv, s: Shard, past: nat, xs: seq<H>)
    requires Telling(m) && past < |xs| && s.lo < s.hi
    requires Restarted(m, env, s, Hidden(m, s.lo, xs)[past..]) == Hidden(m, s.hi, xs)[past..]
    ensures RestartGuard(m, env, s, past, |xs| - past)
    decreases s.hi
  {
    var l := s.hi - 1;
    LastRestarted(m, env, s, past, xs);
    if s.lo < l {
      RestartedIs(m, env, Shard(s.lo, l), Hidden(m, s.lo, xs)[past..]);
      RestartTells(m, env, Shard(s.lo, l), past, xs);
    }
  }

  lemma RestartedIs<H, K>(m: Model<H, K>, env: MaskEnv, s: Shard, hs: seq<H>)
    requires s.lo <= s.hi
    ensures Restarted(m, env, s, hs) == Layers(m, env, s.lo, s.hi, 0, hs, map[]).0
  {
  }

  lemma LastRestarted<H(!new), K(!new)>(m: Model<H, K>, env: MaskEnv, s: Shard, past: nat, xs: seq<H>)
    requires Telling(m) && past < |xs| && s.lo < s.hi
    requires Restarted(m, env, s, Hidden(m, s.lo, xs)[past..]) == Hidden(m, s.hi, xs)[past..]
    ensures past == 0 && MaskGuard(env, m.kind(s.hi - 1), 0, |xs|)
    ensures Layers(m, env, s.lo, s.hi - 1, 0, Hidden(m, s.lo, xs)[past..], map[]).0 == Hidden(m, s.hi - 1, xs)[past..]
  {
    var l, hs := s.hi - 1, Hidden(m, s.lo, xs)[past..];
    var (mid, grown) := Layers(m, env, s.lo, l, 0, hs, map[]);
    assert Stored(grown, l) == [];
    StepTellsRestart(m, env, l, past, mid, Hidden(m, l, xs));
    assert Hidden(m, l, xs)[0..] == Hidden(m, l, xs);
  }

  /** For a telling model a pass on a node whose store has lost the request gives the causal values if
      and only if nothing came before, so a request pushed out in the middle of its chain goes wrong. */
  lemma ForgottenPassIff<H(!new), K(!new)>(
    m: Model<H, K>, env: MaskEnv, s: Shard, kv: OrderedDict<Cache<K>>, use: Op, max: nat, past: nat, xs: seq<H>)
    requires Telling(m) && past <= |xs| && use.Use? && !Has(kv, use.id)
    ensures ForwardKv(m, env, s, Hidden(m, s.lo, xs)[past..], kv, use, max).0 == Hidden(m, s.hi, xs)[past..]
      <==> RestartGuard(m, env, s, past, |xs| - past)
  {
    if RestartGuard(m, env, s, past, |xs| - past) {
      RestartExact(m, env, s, past, xs);
    } else if Restarted(m, env, s, Hidden(m, s.lo, xs)[past..]) == Hidden(m, s.hi, xs)[past..] {
      RestartTells(m, env, s, past, xs);
    }
  }

  /** There are telling models with any kinds of layers. */
  lemma TermModelForgets(
    kind: nat -> LayerKind, env: MaskEnv, s: Shard, kv: OrderedDict<Cache<Term>>, use: Op, max: nat,
    past: nat, xs: seq<Term>)
    requires past <= |xs| && use.Use? && !Has(kv, use.id)
    ensures var m := TermModel(kind);
      && (RestartGuard(m, env, s, past, |xs| - past) <==>
          ForwardKv(m, env, s, Hidden(m, s.lo, xs)[past..], kv, use, max).0 == Hidden(m, s.hi, xs)[past..])
  {
    TermModelTells(kind);
    ForgottenPassIff(TermModel(kind), env, s, kv, use, max, past, xs);
  }
}
