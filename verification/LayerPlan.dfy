/** How a training round is split into layer ranges and data shards
    (`create_round` in server/coordinator/src/layer_training.rs). */
module LayerPlan {
  datatype RoundId = RoundId(n: nat)
  /** Random identifiers never collide: a round's are tagged with the round. */
  datatype AssignmentId = AssignmentId(round: RoundId, piece: nat)
  datatype Worker = Worker(n: nat)

  datatype Progress = Available | Assigned(to: Worker, at: int) | Complete | Failed

  datatype Assignment = Assignment(
    id: AssignmentId,
    layerStart: nat, layerEnd: nat,
    shardStart: nat, shardSize: nat,
    progress: Progress)

  // ---- splitting the layers and the dataset ----

  function AtLeastOne(n: nat): (r: nat)
    ensures r > 0
  {
    if n == 0 then 1 else n
  }

  function Min(a: nat, b: nat): nat { if a < b then a else b }

  /** With layers per assignment, or nothing to assign, the loop ends. */
  predicate Divides(total: nat, per: nat) { per > 0 || total == 0 }

  function Pieces(total: nat, per: nat): nat
    requires Divides(total, per)
  {
    if total == 0 then 0 else (total + per - 1) / per
  }

  function ShardStart(i: nat, examples: nat, dataset: nat): nat { i * examples % AtLeastOne(dataset) }

  function Piece(i: nat, total: nat, per: nat, dataset: nat, examples: nat, round: RoundId): Assignment {
    var from := ShardStart(i, examples, dataset);
    Assignment(AssignmentId(round, i), i * per, Min((i + 1) * per, total), from,
      Min(examples, if from < dataset then dataset - from else 0), Available)
  }

  function Plan(total: nat, per: nat, dataset: nat, examples: nat, round: RoundId, n: nat): (plan: seq<Assignment>)
    ensures |plan| == n
  {
    seq(n, i requires 0 <= i < n => Piece(i, total, per, dataset, examples, round))
  }

  lemma StepOfModulus(i: nat, e: nat, d: nat)
    requires d > 0
    ensures (i * e % d + e) % d == (i + 1) * e % d
  {
    var q := i * e / d;
    assert (i + 1) * e == (i * e % d + e) + q * d;
    ModulusShift(i * e % d + e, q, d);
  }

  lemma OnceMore(y: nat, d: nat)
    requires d > 0
    ensures (y + d) % d == y % d
  {
    var q, q', r, r' := y / d, (y + d) / d, y % d, (y + d) % d;
    var k := q' - q;
    assert k * d == d + r - r' by {
      assert y == q * d + r && y + d == q' * d + r';
      assert k * d == q' * d - q * d;
    }
    ProductSize(k, d);
  }

  lemma ProductSize(k: int, d: nat)
    ensures k <= 0 ==> k * d <= 0
    ensures k >= 2 ==> k * d >= 2 * d
  {
  }

  lemma {:induction false} ModulusShift(x: nat, q: nat, d: nat)
    requires d > 0
    ensures (x + q * d) % d == x % d
    decreases q
  {
    if q > 0 {
      ModulusShift(x, q - 1, d);
      assert x + q * d == (x + (q - 1) * d) + d;
      OnceMore(x + (q - 1) * d, d);
    }
  }

  lemma PiecesFit(total: nat, per: nat, i: nat)
    requires per > 0
    ensures i < Pieces(total, per) <==> i * per < total
  {
    var n := (total + per - 1) / per;
    QuotientBounds(total + per - 1, per);
    if i < n {
      ProductOrder(i + 1, n, per);
      ProductStep(i, per);
    } else {
      ProductOrder(n, i, per);
    }
  }

  lemma QuotientBounds(a: nat, d: nat)
    requires d > 0
    ensures a / d * d <= a < a / d * d + d
  {
  }

  lemma ProductOrder(i: nat, n: nat, d: nat)
    requires i <= n
    ensures i * d <= n * d
  {
  }

  lemma ProductStep(i: nat, d: nat)
    ensures (i + 1) * d == i * d + d
  {
  }

  /** The loop of `create_round`. */
  method Split(total: nat, per: nat, dataset: nat, examples: nat, round: RoundId) returns (pieces: seq<Assignment>)
    requires Divides(total, per)
    ensures pieces == Plan(total, per, dataset, examples, round, Pieces(total, per))
    ensures forall i :: 0 <= i < |pieces| ==>
      && pieces[i].layerStart == i * per && pieces[i].shardStart == i * examples % (if dataset == 0 then 1 else dataset)
      && pieces[i].progress == Available
  {
    pieces := [];
    var layer: nat, offset: nat := 0, 0;
    if total > 0 {
      PiecesFit(total, per, 0);
    }
    while layer < total
      invariant layer == Min(|pieces| * per, total) && offset == ShardStart(|pieces|, examples, dataset)
      invariant pieces == Plan(total, per, dataset, examples, round, |pieces|)
      invariant |pieces| <= Pieces(total, per)
      invariant |pieces| < Pieces(total, per) <==> |pieces| * per < total
      decreases total - layer
    {
      var i := |pieces|;
      var end := Min(layer + per, total);
      var size := Min(examples, if offset < dataset then dataset - offset else 0);
      ProductStep(i, per);
      var piece := Assignment(AssignmentId(round, i), layer, end, offset, size, Available);
      assert piece == Piece(i, total, per, dataset, examples, round);
      pieces := pieces + [piece];
      layer := end;
      StepOfModulus(i, examples, AtLeastOne(dataset));
      offset := (offset + examples) % AtLeastOne(dataset);
      PiecesFit(total, per, i + 1);
    }
  }

  predicate Tiles(pieces: seq<Assignment>, from: nat, total: nat) {
    if pieces == [] then from == total
    else pieces[0].layerStart == from && from < pieces[0].layerEnd && Tiles(pieces[1..], pieces[0].layerEnd, total)
  }

  /** Pieces between neighbouring edges tile everything up to the last edge. */
  lemma {:induction false} EdgesTile(plan: seq<Assignment>, edge: nat -> nat, i: nat)
    requires i <= |plan|
    requires forall k: nat :: k < |plan| ==> plan[k].layerStart == edge(k) < plan[k].layerEnd == edge(k + 1)
    ensures Tiles(plan[i..], edge(i), edge(|plan|))
    decreases |plan| - i
  {
    if i < |plan| {
      EdgesTile(plan, edge, i + 1);
      assert plan[i..][1..] == plan[i + 1..];
    }
  }

  function Edge(total: nat, per: nat): nat -> nat { (i: nat) => Min(i * per, total) }

  lemma PieceEdges(i: nat, total: nat, per: nat, dataset: nat, examples: nat, round: RoundId)
    requires per > 0 && i < Pieces(total, per)
    ensures var p := Piece(i, total, per, dataset, examples, round);
      && p.layerStart == Edge(total, per)(i) < p.layerEnd == Edge(total, per)(i + 1)
      && (i + 1 < Pieces(total, per) ==> p.layerEnd - p.layerStart == per)
  {
    PiecesFit(total, per, i);
    PiecesFit(total, per, i + 1);
    ProductStep(i, per);
  }

  lemma PieceShard(i: nat, total: nat, per: nat, dataset: nat, examples: nat, round: RoundId)
    ensures var p := Piece(i, total, per, dataset, examples, round);
      p.shardStart + p.shardSize <= dataset && (p.shardSize > 0 <==> dataset > 0 && examples > 0)
  {
  }

  lemma LastEdge(total: nat, per: nat)
    requires Divides(total, per)
    ensures Edge(total, per)(0) == 0 && Edge(total, per)(Pieces(total, per)) == total
  {
    if total > 0 {
      PiecesFit(total, per, Pieces(total, per));
    }
  }

  /** A plan covers the layers in order, in nonempty pieces of `per` layers but for a shorter last one,
      and every data shard lies inside the dataset, nonempty unless one of the sizes is zero. */
  lemma PlanCovers(total: nat, per: nat, dataset: nat, examples: nat, round: RoundId)
    requires Divides(total, per)
    ensures var plan := Plan(total, per, dataset, examples, round, Pieces(total, per));
      && Tiles(plan, 0, total)
      && (forall i :: 0 <= i < |plan| - 1 ==> plan[i].layerEnd - plan[i].layerStart == per)
      && (forall i :: 0 <= i < |plan| ==> plan[i].shardStart + plan[i].shardSize <= dataset)
      && (forall i :: 0 <= i < |plan| ==> (plan[i].shardSize > 0 <==> dataset > 0 && examples > 0))
  {
    var n := Pieces(total, per);
    var plan := Plan(total, per, dataset, examples, round, n);
    forall i: nat | i < n ensures plan[i] == Piece(i, total, per, dataset, examples, round)
      && plan[i].layerStart == Edge(total, per)(i) < plan[i].layerEnd == Edge(total, per)(i + 1)
      && (i + 1 < n ==> plan[i].layerEnd - plan[i].layerStart == per)
    {
      PieceEdges(i, total, per, dataset, examples, round);
    }
    EdgesTile(plan, Edge(total, per), 0);
    LastEdge(total, per);
    assert plan[0..] == plan;
    forall i | 0 <= i < n
      ensures plan[i].shardStart + plan[i].shardSize <= dataset
        && (plan[i].shardSize > 0 <==> dataset > 0 && examples > 0) {
      PieceShard(i, total, per, dataset, examples, round);
    }
  }
}
