/** What the two samplers draw from: an initial part of the ranking, cut as top-k and top-p say, every
    token in it in proportion to its weight (client/candle-server/src/sampling.rs, inference/node_forward.py). */
module Distributions {
  import opened Wrappers
  import opened Sampling
  import FA = FilterAgreement

  /** One draws from the first c tokens of the ranking in proportion to their weights. */
  predicate DrawsFirst(ws: seq<real>, r: seq<nat>, c: nat, qs: seq<real>)
    requires Ranking(ws, r) && c <= |ws|
  {
    && |qs| == |ws| && Sum(qs) == 1.0
    && forall j: nat :: j < |ws| ==> InProportion(ws, r, c, qs, j)
  }

  predicate InProportion(ws: seq<real>, r: seq<nat>, c: nat, qs: seq<real>, j: nat)
    requires Ranking(ws, r) && c <= |ws| == |qs| && j < |ws|
  {
    if j < c then Prefix(Values(ws, r), c) > 0.0 && qs[r[j]] == ws[r[j]] / Prefix(Values(ws, r), c)
    else qs[r[j]] == 0.0
  }

  /** The fewest of the first k ranks that hold the part p of their weight, or all of them without p. */
  predicate CutAt(vals: seq<real>, k: nat, topP: Option<real>, c: nat)
    requires k <= |vals|
  {
    && c <= k && (k > 0 ==> c > 0)
    && match topP
       case None => c == k
       case Some(p) =>
         && (forall j :: 0 < j < c ==> Prefix(vals, j) < p * Prefix(vals, k))
         && (c == k || Prefix(vals, c) >= p * Prefix(vals, k))
  }

  lemma SelfQuotient(s: real)
    requires s > 0.0
    ensures s / s == 1.0
  {
  }

  /** Dividing by the sum makes the sum one. */
  lemma RenormalisedIs(ps: seq<real>)
    requires Sum(ps) > 0.0
    ensures Sum(Renormalised(ps)) == 1.0
  {
    ScaledPrefix(ps, Sum(ps), |ps|);
    SelfQuotient(Sum(ps));
  }

  lemma FirstDraws(ws: seq<real>, c: nat)
    requires Positive(ws) && 0 < c <= |ws|
    ensures Ranking(ws, Ranked(ws, |ws|))
    ensures DrawsFirst(ws, Ranked(ws, |ws|), c, Renormalised(FA.First(ws, c)))
  {
    RankedIsRanking(ws, |ws|);
    FA.FirstIsWeighty(ws, c);
    RenormalisedIs(FA.First(ws, c));
    forall j: nat | j < |ws| ensures InProportion(ws, Ranked(ws, |ws|), c, Renormalised(FA.First(ws, c)), j) {
      RankDraws(ws, c, j);
    }
  }

  lemma RankDraws(ws: seq<real>, c: nat, j: nat)
    requires Positive(ws) && 0 < c <= |ws| && j < |ws|
    ensures Ranking(ws, Ranked(ws, |ws|))
    ensures InProportion(ws, Ranked(ws, |ws|), c, Renormalised(FA.First(ws, c)), j)
  {
    RankedIsRanking(ws, |ws|);
    FA.FirstAt(ws, c, j);
    FirstScaled(ws, c);
    NothingOver(Prefix(FA.Sorted(ws), c));
  }

  lemma FirstScaled(ws: seq<real>, c: nat)
    requires Positive(ws) && 0 < c <= |ws|
    ensures Prefix(FA.Sorted(ws), c) > 0.0
    ensures Renormalised(FA.First(ws, c)) == Scaled(FA.First(ws, c), Prefix(FA.Sorted(ws), c))
  {
    FA.FirstIsWeighty(ws, c);
    FA.FirstSum(ws, c);
  }

  lemma NothingOver(s: real)
    requires s > 0.0
    ensures 0.0 / s == 0.0
  {
  }

  lemma ShareCuts(vals: seq<real>, k: nat, p: real)
    requires k <= |vals|
    ensures CutAt(vals, k, Some(p), FA.Share(vals, k, p))
  {
  }

  /** The client draws from the first k tokens of its ranking, cut by top-p, for any k but zero. */
  lemma ClientDraws(ws: seq<real>, topK: Option<nat>, topP: Option<real>) returns (c: nat)
    requires Positive(ws) && ws != [] && topK != Some(0)
    ensures Ranking(ws, Ranked(ws, |ws|)) && c <= |ws|
    ensures var k := if topK.Some? && topK.value < |ws| then topK.value else |ws|;
      CutAt(Values(ws, Ranked(ws, |ws|)), k, topP, c)
    ensures DrawsFirst(ws, Ranked(ws, |ws|), c, ClientFilter(Renormalised(ws), topK, topP))
  {
    RankedIsRanking(ws, |ws|);
    var k := if topK.Some? && topK.value < |ws| then topK.value else |ws|;
    c := FA.ClientKeeps(FA.Sorted(ws), topK, topP);
    if topP.Some? {
      ShareCuts(FA.Sorted(ws), k, topP.value);
    }
    FA.ClientKeepsFirst(ws, topK, topP);
    FirstDraws(ws, c);
  }

  /** The first k ranks and those that tie with the last of them; all ranks if k is zero or too large. */
  predicate WithTies(vals: seq<real>, topK: Option<nat>, k: nat) {
    if topK.Some? && 0 < topK.value < |vals| then
      && topK.value <= k <= |vals|
      && (forall j :: topK.value <= j < k ==> vals[j] == vals[topK.value - 1])
      && (k < |vals| ==> vals[k] < vals[topK.value - 1])
    else k == |vals|
  }

  /** The node draws from the first k tokens and their ties, cut by a top-p strictly between zero and one. */
  lemma NodeDraws(ws: seq<real>, topK: Option<nat>, topP: Option<real>) returns (k: nat, c: nat)
    requires Positive(ws) && ws != []
    ensures Ranking(ws, Ranked(ws, |ws|)) && k <= |ws| && c <= |ws|
    ensures WithTies(Values(ws, Ranked(ws, |ws|)), topK, k)
    ensures CutAt(Values(ws, Ranked(ws, |ws|)), k, if topP.Some? && 0.0 < topP.value < 1.0 then topP else None, c)
    ensures DrawsFirst(ws, Ranked(ws, |ws|), c, NodeFilter(ws, topK, topP))
  {
    RankedIsRanking(ws, |ws|);
    var vals := FA.Sorted(ws);
    k, c := FA.NodeRanks(vals, topK), FA.NodeKeeps(vals, topK, topP);
    TiesEnd(vals, topK);
    if topP.Some? && 0.0 < topP.value < 1.0 {
      ShareCuts(vals, k, topP.value);
    }
    FA.NodeKeepsFirst(ws, topK, topP);
    FirstDraws(ws, c);
  }

  lemma TiesEnd(vals: seq<real>, topK: Option<nat>)
    requires forall i, j :: 0 <= i < j < |vals| ==> vals[i] >= vals[j]
    ensures WithTies(vals, topK, FA.NodeRanks(vals, topK))
  {
    if topK.Some? && 0 < topK.value < |vals| {
      var k := FA.TieEnd(vals, topK.value, topK.value);
      assert forall j :: topK.value <= j < k ==> vals[topK.value - 1] >= vals[j];
    }
  }
}
