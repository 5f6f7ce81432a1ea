/** What the operations on training rounds do, assignment by assignment
    (server/coordinator/src/layer_training.rs). */
module TrainingEffects {
  import opened Wrappers
  import opened LayerPlan
  import opened LayerTraining

  // ---- rounds that start by themselves ----

  /** The i-th piece of a round that starts by itself: two layers, and up to 500 examples from where
      the pieces before it left off, modulo the dataset. */
  predicate NthPiece(a: Assignment, i: nat, dataset: nat)
    requires dataset > 0
  {
    && a.layerStart == 2 * i && a.layerEnd == 2 * i + 2 && a.progress == Available
    && a.shardStart == (500 * i) % dataset
    && a.shardSize == if dataset - a.shardStart < 500 then dataset - a.shardStart else 500
  }

  /** A round over layers 0 to 28, all of it free. */
  predicate NextRound(r: Round, id: RoundId, dataset: nat, now: int)
    requires dataset > 0
  {
    && r.id == id && r.status == Active && r.createdAt == now && |r.assignments| == 14
    && forall i :: 0 <= i < 14 ==> NthPiece(r.assignments[i], i, dataset)
  }

  /** Some round is merging and none is active. */
  predicate AllWait(rounds: seq<Round>) {
    && (exists i :: 0 <= i < |rounds| && rounds[i].status == Merging)
    && forall i :: 0 <= i < |rounds| ==> rounds[i].status != Active
  }

  predicate MergedFrom(r: Round, r': Round) {
    r' == if r.status == Merging then r.(status := Merged) else r
  }

  /** A round starts by itself if and only if some round is merging, none is active and there are examples;
      then exactly the merging rounds are merged, and the new one comes behind them. */
  lemma AdvanceExactly(s: Inner, id: RoundId, dataset: nat, now: int)
    requires Enabled(s, Advance(id, dataset, now))
    ensures var after, n := Apply(s, Advance(id, dataset, now)), |s.rounds|;
      && (|after.rounds| > n <==> AllWait(s.rounds) && dataset > 0)
      && (|after.rounds| <= n ==> after == s)
      && (|after.rounds| > n ==>
            && |after.rounds| == n + 1 && after.completed == s.completed
            && after.first == (if s.first.None? then Some(now) else s.first)
            && NextRound(after.rounds[n], id, dataset, now)
            && forall i :: 0 <= i < n ==> MergedFrom(s.rounds[i], after.rounds[i]))
  {
    assert Due(s.rounds) <==> AllWait(s.rounds);
    if AllWait(s.rounds) && dataset > 0 {
      PlanIsNext(id, dataset);
    }
  }

  lemma PlanIsNext(id: RoundId, dataset: nat)
    requires dataset > 0
    ensures var plan := Plan(LAYERS, PER, dataset, EXAMPLES, id, Pieces(LAYERS, PER));
      |plan| == 14 && forall i :: 0 <= i < 14 ==> NthPiece(plan[i], i, dataset)
  {
    forall i: nat | i < 14 ensures NthPiece(Piece(i, LAYERS, PER, dataset, EXAMPLES, id), i, dataset) {
      assert i * EXAMPLES == 500 * i;
    }
  }

  // ---- claims ----

  predicate Free(s: Inner, i: nat, j: nat) {
    i < |s.rounds| && j < |s.rounds[i].assignments| && s.rounds[i].status == Active
      && s.rounds[i].assignments[j].progress == Available
  }

  /** The piece stands before another one: in an earlier round, or earlier in its round. */
  predicate Earlier(i: nat, j: nat, i': nat, j': nat) { i < i' || (i == i' && j < j') }

  function With(s: Inner, i: nat, j: nat, p: Progress): seq<Round>
    requires i < |s.rounds| && j < |s.rounds[i].assignments|
  {
    s.rounds[i := s.rounds[i].(assignments := s.rounds[i].assignments[j := s.rounds[i].assignments[j].(progress := p)])]
  }

  /** A claim takes the first free piece of an active round, for the one who asks and from now on. */
  lemma ClaimExactly(s: Inner, who: Worker, now: int) returns (i: nat, j: nat)
    requires Claim(s).Some?
    ensures Free(s, i, j) && forall i': nat, j': nat :: Free(s, i', j') ==> !Earlier(i', j', i, j)
    ensures Claim(s) == Some(s.rounds[i].assignments[j].id)
    ensures Claimed(s, who, now) == s.(rounds := With(s, i, j, Assigned(who, now)))
  {
    i := FirstOpen(s.rounds, 0);
    j := FirstAvailable(s.rounds[i].assignments, 0);
    forall i': nat, j': nat | Free(s, i', j') ensures !Earlier(i', j', i, j) {
      FreeIsOpen(s, i', j');
    }
  }

  lemma FreeIsOpen(s: Inner, i: nat, j: nat)
    requires Free(s, i, j)
    ensures Open(s.rounds[i])
  {
    assert s.rounds[i].assignments[j].progress.Available?;
    assert FirstAvailable(s.rounds[i].assignments, 0) <= j;
  }

  /** It succeeds if and only if there is one, and otherwise changes nothing. */
  lemma ClaimSucceedsIff(s: Inner, who: Worker, now: int)
    ensures Claim(s).Some? <==> exists i: nat, j: nat :: Free(s, i, j)
    ensures Claim(s).None? ==> Claimed(s, who, now) == s
  {
    if Claim(s).Some? {
      var i, j := ClaimExactly(s, who, now);
    }
    forall i: nat, j: nat | Free(s, i, j) ensures Claim(s).Some? {
      FreeIsOpen(s, i, j);
    }
  }

  // ---- submissions ----

  predicate AllDone(r: Round) { forall j :: 0 <= j < |r.assignments| ==> r.assignments[j].progress == Complete }

  /** A submission completes its piece; if that was the last one of the round, or all were complete
      already, the round is merging and counted. */
  lemma SubmitExactly(s: Inner, i: nat, j: nat)
    requires Inv(s.rounds) && i < |s.rounds| && j < |s.rounds[i].assignments|
    ensures var after, rounds := Submitted(s, s.rounds[i].assignments[j].id), With(s, i, j, Complete);
      after == if AllDone(rounds[i]) then
          s.(rounds := rounds[i := rounds[i].(status := Merging)], completed := s.completed + 1)
        else s.(rounds := rounds)
  {
    LookupAt(s.rounds, i, j);
    var r := WithProgress(s.rounds[i], j, Complete);
    assert AllComplete(r.assignments) <==> AllDone(r);
  }

  lemma SubmitElsewhere(s: Inner, id: AssignmentId)
    requires forall i, j :: 0 <= i < |s.rounds| && 0 <= j < |s.rounds[i].assignments| ==>
      s.rounds[i].assignments[j].id != id
    ensures Submitted(s, id) == s
  {
  }

  // ---- stale claims ----

  function Released(a: Assignment, now: int, timeout: nat): Assignment {
    match a.progress
    case Assigned(_, at) => if now > at + timeout then a.(progress := Available) else a
    case _ => a
  }

  /** In active rounds exactly the claims older than the timeout are given up; nothing else changes. */
  lemma ReassignExactly(s: Inner, now: int, timeout: nat)
    ensures var after := Reassigned(s, now, timeout);
      && after == s.(rounds := after.rounds) && |after.rounds| == |s.rounds|
      && forall i :: 0 <= i < |s.rounds| ==> FreedIn(s.rounds[i], after.rounds[i], now, timeout)
  {
  }

  predicate FreedIn(r: Round, r': Round, now: int, timeout: nat) {
    && r' == r.(assignments := r'.assignments) && |r'.assignments| == |r.assignments|
    && forall j :: 0 <= j < |r.assignments| ==>
         r'.assignments[j] == if r.status == Active then Released(r.assignments[j], now, timeout) else r.assignments[j]
  }
}
