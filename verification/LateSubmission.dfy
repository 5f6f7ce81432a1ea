/** A run of the training store in which one round is counted three times: its only adapter comes in
    twice more after the round has left Active, the last time after it was merged. */
module LateSubmission {
  import opened Wrappers
  import opened LayerPlan
  import opened LayerTraining

  const FIRST := RoundId(1)
  const SECOND := RoundId(2)
  const PIECE := AssignmentId(FIRST, 0)

  function Only(status: Status, p: Progress): Round { Round(FIRST, status, [Assignment(PIECE, 0, 1, 0, 0, p)], 0) }

  function Next(): Round { Round(SECOND, Active, Plan(LAYERS, PER, 1, EXAMPLES, SECOND, Pieces(LAYERS, PER)), 0) }

  const S0 := Inner([], 0, None)
  const S1 := Inner([Only(Active, Available)], 0, Some(0))
  const S2 := Inner([Only(Merging, Complete)], 1, Some(0))
  const S3 := Inner([Only(Merging, Complete)], 2, Some(0))
  const S4 := Inner([Only(Merged, Complete), Next()], 2, Some(0))
  const S5 := Inner([Only(Merging, Complete), Next()], 3, Some(0))

  predicate Leads(s: Inner, op: Op, t: Inner) { Enabled(s, op) && Apply(s, op) == t }

  lemma RoundStarts()
    ensures Leads(S0, Create(FIRST, 1, 1, 0, 0, 0), S1)
  {
    assert Plan(1, 1, 0, 0, FIRST, 1) == [Piece(0, 1, 1, 0, 0, FIRST)] == Only(Active, Available).assignments;
  }

  /** The adapter of the first round comes in, whatever state the round is in. */
  lemma Comes(rounds: seq<Round>, status: Status, p: Progress, completed: nat)
    requires rounds != [] && rounds[0] == Only(status, p)
    ensures Leads(Inner(rounds, completed, Some(0)), Submit(PIECE),
                  Inner(rounds[0 := Only(Merging, Complete)], completed + 1, Some(0)))
  {
    assert Position(rounds[0].assignments, 0, PIECE) == 0;
    assert Holds(rounds[0], PIECE) && Holder(rounds, 0, PIECE) == 0;
    assert WithProgress(rounds[0], 0, Complete).assignments == Only(Merging, Complete).assignments;
  }

  lemma RoundMerges()
    ensures Leads(S3, Advance(SECOND, 1, 0), S4)
  {
    assert S3.rounds[0].status.Merging?;
    assert AllClosed(S3.rounds) == [Only(Merged, Complete)];
  }

  lemma Extend(states: seq<Inner>, ops: seq<Op>, op: Op, t: Inner) returns (states': seq<Inner>, ops': seq<Op>)
    requires IsTrace(states, ops) && Leads(states[|ops|], op, t)
    ensures states' == states + [t] && ops' == ops + [op] && IsTrace(states', ops')
  {
    states', ops' := states + [t], ops + [op];
    forall k | 0 <= k < |ops'| ensures Leads(states'[k], ops'[k], states'[k + 1]) {
      StepOf(states, ops, op, t, k);
    }
  }

  lemma StepOf(states: seq<Inner>, ops: seq<Op>, op: Op, t: Inner, k: nat)
    requires IsTrace(states, ops) && Leads(states[|ops|], op, t) && k <= |ops|
    ensures Leads((states + [t])[k], (ops + [op])[k], (states + [t])[k + 1])
  {
  }

  /** After two submissions of the one adapter, one round has left Active and the counter says two; after
      a third, the merged round is merging again and the counter says three. */
  lemma LateSubmissionsCount() returns (states: seq<Inner>, ops: seq<Op>)
    ensures IsTrace(states, ops) && |ops| == 5
    ensures states[3].completed == 2 && |LeftActive(states[3].rounds)| == 1
    ensures MergedIds(states[4].rounds) == {FIRST} && MergedIds(states[5].rounds) == {}
    ensures states[5].completed == 3 && LeftActive(states[5].rounds) == {FIRST}
  {
    RoundStarts();
    Comes(S1.rounds, Active, Available, 0);
    Comes(S2.rounds, Merging, Complete, 1);
    RoundMerges();
    Comes(S4.rounds, Merged, Complete, 2);
    states, ops := [S0], [];
    states, ops := Extend(states, ops, Create(FIRST, 1, 1, 0, 0, 0), S1);
    states, ops := Extend(states, ops, Submit(PIECE), S2);
    states, ops := Extend(states, ops, Submit(PIECE), S3);
    states, ops := Extend(states, ops, Advance(SECOND, 1, 0), S4);
    states, ops := Extend(states, ops, Submit(PIECE), S5);
    Left();
  }

  lemma Left()
    ensures LeftActive(S3.rounds) == {FIRST} && LeftActive(S5.rounds) == {FIRST}
    ensures MergedIds(S4.rounds) == {FIRST} && MergedIds(S5.rounds) == {}
  {
    assert S3.rounds[0].id == FIRST && S4.rounds[0].id == FIRST && S5.rounds[0].id == FIRST;
  }
}
