/** Rounds of layer-sharded training in memory (server/coordinator/src/layer_training.rs): who may
    claim what, when a round leaves Active, and what the completed counter counts. */
module LayerTraining {
  import opened Wrappers
  import opened LayerPlan

  /** Merged is the source's `RoundStatus::Complete`. */
  datatype Status = Active | Merging | Merged

  datatype Round = Round(id: RoundId, status: Status, assignments: seq<Assignment>, createdAt: int)

  datatype Inner = Inner(rounds: seq<Round>, completed: nat, first: Option<int>)

  function WithProgress(r: Round, j: nat, p: Progress): Round
    requires j < |r.assignments|
  {
    r.(assignments := r.assignments[j := r.assignments[j].(progress := p)])
  }

  // ---- create_round ----

  function Created(s: Inner, id: RoundId, total: nat, per: nat, dataset: nat, examples: nat, now: int): Inner
    requires Divides(total, per)
  {
    Inner(
      s.rounds + [Round(id, Active, Plan(total, per, dataset, examples, id, Pieces(total, per)), now)],
      s.completed,
      if s.first.None? then Some(now) else s.first)
  }

  // ---- claim_assignment: the first available assignment of the first active round that has one ----

  function FirstAvailable(assignments: seq<Assignment>, j: nat): (k: nat)
    requires j <= |assignments|
    ensures j <= k <= |assignments|
    ensures k < |assignments| ==> assignments[k].progress.Available?
    ensures forall i :: j <= i < k ==> !assignments[i].progress.Available?
    decreases |assignments| - j
  {
    if j == |assignments| || assignments[j].progress.Available? then j else FirstAvailable(assignments, j + 1)
  }

  predicate Open(r: Round) { r.status.Active? && FirstAvailable(r.assignments, 0) < |r.assignments| }

  function FirstOpen(rounds: seq<Round>, i: nat): (k: nat)
    requires i <= |rounds|
    ensures i <= k <= |rounds|
    ensures k < |rounds| ==> Open(rounds[k])
    ensures forall l :: i <= l < k ==> !Open(rounds[l])
    decreases |rounds| - i
  {
    if i == |rounds| || Open(rounds[i]) then i else FirstOpen(rounds, i + 1)
  }

  function Claimed(s: Inner, who: Worker, now: int): Inner {
    var i := FirstOpen(s.rounds, 0);
    if i == |s.rounds| then s
    else s.(rounds := s.rounds[i := WithProgress(s.rounds[i], FirstAvailable(s.rounds[i].assignments, 0),
      Assigned(who, now))])
  }

  /** What the claim returns. */
  function Claim(s: Inner): Option<AssignmentId> {
    var i := FirstOpen(s.rounds, 0);
    if i == |s.rounds| then None
    else Some(s.rounds[i].assignments[FirstAvailable(s.rounds[i].assignments, 0)].id)
  }

  // ---- submit_adapter ----

  function Position(assignments: seq<Assignment>, j: nat, id: AssignmentId): (k: nat)
    requires j <= |assignments|
    ensures j <= k <= |assignments|
    ensures k < |assignments| ==> assignments[k].id == id
    ensures forall i :: j <= i < k ==> assignments[i].id != id
    decreases |assignments| - j
  {
    if j == |assignments| || assignments[j].id == id then j else Position(assignments, j + 1, id)
  }

  predicate Holds(r: Round, id: AssignmentId) { Position(r.assignments, 0, id) < |r.assignments| }

  function Holder(rounds: seq<Round>, i: nat, id: AssignmentId): (k: nat)
    requires i <= |rounds|
    ensures i <= k <= |rounds|
    ensures k < |rounds| ==> Holds(rounds[k], id)
    ensures forall l :: i <= l < k ==> !Holds(rounds[l], id)
    decreases |rounds| - i
  {
    if i == |rounds| || Holds(rounds[i], id) then i else Holder(rounds, i + 1, id)
  }

  predicate AllComplete(assignments: seq<Assignment>) {
    forall j :: 0 <= j < |assignments| ==> assignments[j].progress.Complete?
  }

  /** The round after an adapter for it came in. */
  function Received(r: Round, id: AssignmentId): Round
    requires Holds(r, id)
  {
    var done := WithProgress(r, Position(r.assignments, 0, id), Complete);
    if AllComplete(done.assignments) then done.(status := Merging) else done
  }

  function Submitted(s: Inner, id: AssignmentId): Inner {
    var i := Holder(s.rounds, 0, id);
    if i == |s.rounds| then s
    else
      var r := Received(s.rounds[i], id);
      Inner(s.rounds[i := r], if AllComplete(r.assignments) then s.completed + 1 else s.completed, s.first)
  }

  // ---- reassign_stale ----

  predicate IsStale(a: Assignment, now: int, timeout: nat) { a.progress.Assigned? && now - a.progress.at > timeout }

  function Freed(r: Round, now: int, timeout: nat): Round {
    if r.status.Active? then
      r.(assignments := seq(|r.assignments|, j requires 0 <= j < |r.assignments| =>
        if IsStale(r.assignments[j], now, timeout) then r.assignments[j].(progress := Available) else r.assignments[j]))
    else r
  }

  function AllFreed(rounds: seq<Round>, now: int, timeout: nat): (freed: seq<Round>)
    ensures |freed| == |rounds|
  {
    seq(|rounds|, i requires 0 <= i < |rounds| => Freed(rounds[i], now, timeout))
  }

  function Reassigned(s: Inner, now: int, timeout: nat): Inner {
    s.(rounds := AllFreed(s.rounds, now, timeout))
  }

  // ---- auto_advance ----

  predicate Due(rounds: seq<Round>) {
    && (exists i :: 0 <= i < |rounds| && rounds[i].status.Merging?)
    && (forall i :: 0 <= i < |rounds| ==> !rounds[i].status.Active?)
  }

  function Closed(r: Round): Round { if r.status.Merging? then r.(status := Merged) else r }

  function AllClosed(rounds: seq<Round>): (closed: seq<Round>)
    ensures |closed| == |rounds|
  {
    seq(|rounds|, i requires 0 <= i < |rounds| => Closed(rounds[i]))
  }

  const LAYERS := 28
  const PER := 2
  const EXAMPLES := 500

  function Advanced(s: Inner, id: RoundId, dataset: nat, now: int): Inner {
    if Due(s.rounds) && dataset > 0 then
      Created(s.(rounds := AllClosed(s.rounds)), id, LAYERS, PER, dataset, EXAMPLES, now)
    else s
  }

  // ---- runs ----

  datatype Op =
    | Create(id: RoundId, total: nat, per: nat, dataset: nat, examples: nat, now: int)
    | ClaimOne(who: Worker, now: int)
    | Submit(assignment: AssignmentId)
    | Reassign(now: int, timeout: nat)
    | Advance(id: RoundId, dataset: nat, now: int)
    | Reopen(order: seq<Round>)

  function RoundIds(rounds: seq<Round>): set<RoundId> { set i | 0 <= i < |rounds| :: rounds[i].id }

  predicate Distinct(rounds: seq<Round>) {
    forall i, j :: 0 <= i < j < |rounds| ==> rounds[i].id != rounds[j].id
  }

  /** The same rounds, in another order if at all. */
  predicate SameRounds(rounds: seq<Round>, rounds': seq<Round>) {
    && (forall i :: 0 <= i < |rounds| ==> rounds[i] in rounds')
    && (forall i :: 0 <= i < |rounds'| ==> rounds'[i] in rounds)
  }

  /** Random ids are new, the split ends, and the database lists each round once. */
  predicate Enabled(s: Inner, op: Op) {
    match op
    case Create(id, total, per, _, _, _) => id !in RoundIds(s.rounds) && Divides(total, per)
    case Advance(id, _, _) => id !in RoundIds(s.rounds)
    case Reopen(order) => Distinct(order) && SameRounds(order, s.rounds)
    case _ => true
  }

  function Apply(s: Inner, op: Op): Inner
    requires Enabled(s, op)
  {
    match op
    case Create(id, total, per, dataset, examples, now) => Created(s, id, total, per, dataset, examples, now)
    case ClaimOne(who, now) => Claimed(s, who, now)
    case Submit(id) => Submitted(s, id)
    case Reassign(now, timeout) => Reassigned(s, now, timeout)
    case Advance(id, dataset, now) => Advanced(s, id, dataset, now)
    case Reopen(order) => s.(rounds := order)
  }

  // ---- what every run keeps ----

  /** A round is Active exactly while some assignment is not complete, or for ever if it has none. */
  predicate RoundOk(r: Round) {
    && (forall j :: 0 <= j < |r.assignments| ==> r.assignments[j].id == AssignmentId(r.id, j))
    && (r.status.Active? <==> !Done(r.assignments))
  }

  predicate Done(assignments: seq<Assignment>) { assignments != [] && AllComplete(assignments) }

  predicate Inv(rounds: seq<Round>) {
    Distinct(rounds) && forall i :: 0 <= i < |rounds| ==> RoundOk(rounds[i])
  }

  /** Rounds that are no longer active. */
  function LeftActive(rounds: seq<Round>): set<RoundId> {
    set i | 0 <= i < |rounds| && !rounds[i].status.Active? :: rounds[i].id
  }

  /** A submission for a round that has already left Active. */
  predicate IsLate(s: Inner, op: Op) {
    && op.Submit?
    && var i := Holder(s.rounds, 0, op.assignment);
       i < |s.rounds| && !s.rounds[i].status.Active?
  }

  /** The one round that a submission completes. */
  function Completes(s: Inner, op: Op): set<RoundId> {
    if op.Submit? then
      var i := Holder(s.rounds, 0, op.assignment);
      if i < |s.rounds| && s.rounds[i].status.Active? && AllComplete(Received(s.rounds[i], op.assignment).assignments)
      then {s.rounds[i].id} else {}
    else {}
  }

  lemma ReceivedOk(r: Round, id: AssignmentId)
    requires RoundOk(r) && Holds(r, id)
    ensures RoundOk(Received(r, id)) && Received(r, id).id == r.id
    ensures !r.status.Active? ==> Received(r, id).status.Merging? && AllComplete(Received(r, id).assignments)
  {
    var k := Position(r.assignments, 0, id);
    var done := WithProgress(r, k, Complete);
    if !r.status.Active? {
      assert forall j :: 0 <= j < |r.assignments| ==> done.assignments[j].progress.Complete?;
    } else if !AllComplete(done.assignments) {
      var j :| 0 <= j < |done.assignments| && !done.assignments[j].progress.Complete?;
    }
  }

  lemma UpdateKeeps(rounds: seq<Round>, i: nat, r: Round)
    requires Inv(rounds) && i < |rounds| && RoundOk(r) && r.id == rounds[i].id
    ensures Inv(rounds[i := r])
    ensures LeftActive(rounds[i := r])
      == if r.status.Active? then LeftActive(rounds) - {r.id} else LeftActive(rounds) + {r.id}
  {
    var next := rounds[i := r];
    forall x ensures x in LeftActive(next) <==> if x == r.id then !r.status.Active? else x in LeftActive(rounds) {
      if x in LeftActive(next) {
        var k :| 0 <= k < |next| && !next[k].status.Active? && next[k].id == x;
        assert rounds[k].id == x;
      }
      if x == r.id && !r.status.Active? {
        assert next[i].id == x;
      }
      if x in LeftActive(rounds) && x != r.id {
        var k :| 0 <= k < |rounds| && !rounds[k].status.Active? && rounds[k].id == x;
        assert next[k] == rounds[k];
      }
    }
  }

  lemma {:induction false} NewRoundOk(rounds: seq<Round>, r: Round)
    requires Inv(rounds) && RoundOk(r) && r.status.Active? && r.id !in RoundIds(rounds)
    ensures Inv(rounds + [r]) && LeftActive(rounds + [r]) == LeftActive(rounds)
  {
    var next := rounds + [r];
    forall i | 0 <= i < |rounds| ensures rounds[i].id != r.id {
      assert rounds[i].id in RoundIds(rounds);
    }
    forall x ensures x in LeftActive(next) <==> x in LeftActive(rounds) {
      if x in LeftActive(next) {
        var k :| 0 <= k < |next| && !next[k].status.Active? && next[k].id == x;
        assert rounds[k].id == x;
      }
      if x in LeftActive(rounds) {
        var k :| 0 <= k < |rounds| && !rounds[k].status.Active? && rounds[k].id == x;
        assert next[k] == rounds[k];
      }
    }
  }

  /** Changes inside rounds that make none of them leave Active. */
  lemma PointwiseKeeps(rounds: seq<Round>, next: seq<Round>)
    requires Inv(rounds) && |next| == |rounds|
    requires forall i :: 0 <= i < |rounds| ==>
      RoundOk(next[i]) && next[i].id == rounds[i].id && (next[i].status.Active? <==> rounds[i].status.Active?)
    ensures Inv(next) && LeftActive(next) == LeftActive(rounds) && RoundIds(next) == RoundIds(rounds)
  {
  }

  lemma FreedOk(r: Round, now: int, timeout: nat)
    requires RoundOk(r)
    ensures RoundOk(Freed(r, now, timeout)) && Freed(r, now, timeout).status == r.status
  {
    if r.status.Active? && r.assignments != [] {
      var j :| 0 <= j < |r.assignments| && !r.assignments[j].progress.Complete?;
      assert !Freed(r, now, timeout).assignments[j].progress.Complete?;
    }
  }

  lemma PlanOk(id: RoundId, total: nat, per: nat, dataset: nat, examples: nat, now: int)
    requires Divides(total, per)
    ensures RoundOk(Round(id, Active, Plan(total, per, dataset, examples, id, Pieces(total, per)), now))
  {
    var plan := Plan(total, per, dataset, examples, id, Pieces(total, per));
    assert plan != [] ==> !plan[0].progress.Complete?;
  }

  lemma ClaimedOk(r: Round, p: Progress)
    requires RoundOk(r) && Open(r) && !p.Complete?
    ensures RoundOk(WithProgress(r, FirstAvailable(r.assignments, 0), p))
  {
    var k := FirstAvailable(r.assignments, 0);
    assert !WithProgress(r, k, p).assignments[k].progress.Complete?;
  }

  /** One step: the rounds stay in order, and the counter moves with the set of rounds that left Active,
      plus one for each late submission. */
  lemma StepKeeps(s: Inner, op: Op)
    requires Inv(s.rounds) && Enabled(s, op)
    ensures var s' := Apply(s, op);
      && Inv(s'.rounds)
      && LeftActive(s'.rounds) == LeftActive(s.rounds) + Completes(s, op)
      && Completes(s, op) !! LeftActive(s.rounds)
      && s'.completed == s.completed + |Completes(s, op)| + (if IsLate(s, op) then 1 else 0)
  {
    match op
    case Create(id, total, per, dataset, examples, now) =>
      PlanOk(id, total, per, dataset, examples, now);
      NewRoundOk(s.rounds, Created(s, id, total, per, dataset, examples, now).rounds[|s.rounds|]);
    case ClaimOne(who, now) => ClaimKeeps(s, who, now);
    case Submit(id) => SubmitKeeps(s, id);
    case Reassign(now, timeout) =>
      forall i | 0 <= i < |s.rounds|
        ensures RoundOk(Freed(s.rounds[i], now, timeout))
          && Freed(s.rounds[i], now, timeout).status == s.rounds[i].status {
        FreedOk(s.rounds[i], now, timeout);
      }
      PointwiseKeeps(s.rounds, Reassigned(s, now, timeout).rounds);
    case Advance(id, dataset, now) => AdvanceKeeps(s, id, dataset, now);
    case Reopen(order) => ReopenKeeps(s, order);
  }

  lemma ClaimKeeps(s: Inner, who: Worker, now: int)
    requires Inv(s.rounds)
    ensures Inv(Claimed(s, who, now).rounds) && LeftActive(Claimed(s, who, now).rounds) == LeftActive(s.rounds)
  {
    var i := FirstOpen(s.rounds, 0);
    if i < |s.rounds| {
      ClaimedOk(s.rounds[i], Assigned(who, now));
      PointwiseKeeps(s.rounds, Claimed(s, who, now).rounds);
    }
  }

  lemma NotLeft(rounds: seq<Round>, i: nat)
    requires Distinct(rounds) && i < |rounds|
    ensures rounds[i].id in LeftActive(rounds) <==> !rounds[i].status.Active?
  {
  }

  lemma SubmitKeeps(s: Inner, id: AssignmentId)
    requires Inv(s.rounds)
    ensures var s', op := Submitted(s, id), Submit(id);
      && Inv(s'.rounds)
      && LeftActive(s'.rounds) == LeftActive(s.rounds) + Completes(s, op)
      && Completes(s, op) !! LeftActive(s.rounds)
      && s'.completed == s.completed + |Completes(s, op)| + (if IsLate(s, op) then 1 else 0)
  {
    var i := Holder(s.rounds, 0, id);
    if i < |s.rounds| {
      var r := Received(s.rounds[i], id);
      ReceivedOk(s.rounds[i], id);
      assert r.status.Active? <==> !Done(r.assignments);
      UpdateKeeps(s.rounds, i, r);
      NotLeft(s.rounds, i);
      LeaveOrStay(LeftActive(s.rounds), s.rounds[i].id, s.rounds[i].status.Active?, r.status.Active?);
    }
  }

  lemma LeaveOrStay(left: set<RoundId>, id: RoundId, wasActive: bool, isActive: bool)
    requires id in left <==> !wasActive
    requires isActive ==> wasActive
    ensures (if isActive then left - {id} else left + {id}) == left + if wasActive && !isActive then {id} else {}
  {
  }

  lemma AdvanceKeeps(s: Inner, id: RoundId, dataset: nat, now: int)
    requires Inv(s.rounds) && id !in RoundIds(s.rounds)
    ensures Inv(Advanced(s, id, dataset, now).rounds)
    ensures LeftActive(Advanced(s, id, dataset, now).rounds) == LeftActive(s.rounds)
  {
    if Due(s.rounds) && dataset > 0 {
      var closed := AllClosed(s.rounds);
      PointwiseKeeps(s.rounds, closed);
      PlanOk(id, LAYERS, PER, dataset, EXAMPLES, now);
      NewRoundOk(closed, Round(id, Active, Plan(LAYERS, PER, dataset, EXAMPLES, id, Pieces(LAYERS, PER)), now));
    }
  }

  lemma ReopenKeeps(s: Inner, order: seq<Round>)
    requires Inv(s.rounds) && Distinct(order) && SameRounds(order, s.rounds)
    ensures Inv(order) && LeftActive(order) == LeftActive(s.rounds)
  {
    forall x ensures x in LeftActive(order) <==> x in LeftActive(s.rounds) {
      if x in LeftActive(order) {
        var k :| 0 <= k < |order| && !order[k].status.Active? && order[k].id == x;
        var i :| 0 <= i < |s.rounds| && s.rounds[i] == order[k];
      }
      if x in LeftActive(s.rounds) {
        var k :| 0 <= k < |s.rounds| && !s.rounds[k].status.Active? && s.rounds[k].id == x;
        var i :| 0 <= i < |order| && order[i] == s.rounds[k];
      }
    }
  }

  // ---- runs from an empty store ----

  predicate IsTrace(states: seq<Inner>, ops: seq<Op>) {
    && |states| == |ops| + 1
    && states[0] == Inner([], 0, None)
    && forall k :: 0 <= k < |ops| ==> Enabled(states[k], ops[k]) && states[k + 1] == Apply(states[k], ops[k])
  }

  function LateSubmissions(states: seq<Inner>, ops: seq<Op>, n: nat): nat
    requires n <= |ops| < |states|
  {
    if n == 0 then 0 else LateSubmissions(states, ops, n - 1) + if IsLate(states[n - 1], ops[n - 1]) then 1 else 0
  }

  /** At every moment of every run: a round is Active exactly while an assignment is missing, and the
      counter is the number of rounds that left Active, plus the submissions that came after that. */
  lemma {:induction false} CounterExact(states: seq<Inner>, ops: seq<Op>, n: nat)
    requires IsTrace(states, ops) && n <= |ops|
    ensures Inv(states[n].rounds)
    ensures states[n].completed == |LeftActive(states[n].rounds)| + LateSubmissions(states, ops, n)
  {
    if n == 0 {
      assert LeftActive([]) == {};
    } else {
      CounterExact(states, ops, n - 1);
      assert states[n] == Apply(states[n - 1], ops[n - 1]);
      StepKeeps(states[n - 1], ops[n - 1]);
    }
  }

  // ---- rounds without layers ----

  predicate HasEmptyRound(rounds: seq<Round>) {
    exists i :: 0 <= i < |rounds| && rounds[i].assignments == []
  }

  /** Once a round without layers was created, no round ever follows by itself. */
  lemma EmptyRoundBlocks(s: Inner, op: Op)
    requires Inv(s.rounds) && Enabled(s, op) && HasEmptyRound(s.rounds)
    ensures !Due(s.rounds) && HasEmptyRound(Apply(s, op).rounds)
  {
    var i :| 0 <= i < |s.rounds| && s.rounds[i].assignments == [];
    assert RoundOk(s.rounds[i]);
    var next := Apply(s, op).rounds;
    if op.Reopen? {
      assert s.rounds[i] in op.order;
    } else {
      assert next[i].assignments == [];
    }
  }

  // ---- leaving Merged ----

  function MergedIds(rounds: seq<Round>): set<RoundId> {
    set i | 0 <= i < |rounds| && rounds[i].status.Merged? :: rounds[i].id
  }

  /** A merged round is left by nothing but a late submission to it, which puts it back to Merging. */
  lemma MergedIsLeftIff(s: Inner, op: Op)
    requires Inv(s.rounds) && Enabled(s, op)
    ensures MergedIds(s.rounds) <= MergedIds(Apply(s, op).rounds) <==>
      !(op.Submit? && var i := Holder(s.rounds, 0, op.assignment); i < |s.rounds| && s.rounds[i].status.Merged?)
  {
    var next := Apply(s, op).rounds;
    match op
    case Submit(id) => MergedAfterSubmit(s, id);
    case Reopen(order) =>
      forall x | x in MergedIds(s.rounds) ensures x in MergedIds(next) {
        var k :| 0 <= k < |s.rounds| && s.rounds[k].status.Merged? && s.rounds[k].id == x;
        var i :| 0 <= i < |order| && order[i] == s.rounds[k];
      }
    case ClaimOne(_, _) => StayMerged(s.rounds, next);
    case Reassign(_, _) => StayMerged(s.rounds, next);
    case Create(_, _, _, _, _, _) => StayMerged(s.rounds, next);
    case Advance(_, _, _) => StayMerged(s.rounds, next);
  }

  lemma StayMerged(rounds: seq<Round>, next: seq<Round>)
    requires |rounds| <= |next|
    requires forall i :: 0 <= i < |rounds| ==>
      next[i].id == rounds[i].id && (rounds[i].status.Merged? ==> next[i].status.Merged?)
    ensures MergedIds(rounds) <= MergedIds(next)
  {
    forall x | x in MergedIds(rounds) ensures x in MergedIds(next) {
      var k :| 0 <= k < |rounds| && rounds[k].status.Merged? && rounds[k].id == x;
      assert next[k].id == x;
    }
  }

  lemma MergedAfterSubmit(s: Inner, id: AssignmentId)
    requires Inv(s.rounds)
    ensures MergedIds(s.rounds) <= MergedIds(Submitted(s, id).rounds) <==>
      !(var i := Holder(s.rounds, 0, id); i < |s.rounds| && s.rounds[i].status.Merged?)
  {
    var i, next := Holder(s.rounds, 0, id), Submitted(s, id).rounds;
    if i == |s.rounds| || !s.rounds[i].status.Merged? {
      StayMerged(s.rounds, next);
    } else {
      ReceivedOk(s.rounds[i], id);
      assert s.rounds[i].id in MergedIds(s.rounds);
      assert s.rounds[i].id !in MergedIds(next);
    }
  }

  // ---- one assignment over time ----

  /** Where an assignment stands. */
  function Lookup(rounds: seq<Round>, id: AssignmentId): Option<Progress> {
    var i := Holder(rounds, 0, id);
    if i == |rounds| then None else Some(rounds[i].assignments[Position(rounds[i].assignments, 0, id)].progress)
  }

  lemma LookupAt(rounds: seq<Round>, i: nat, j: nat)
    requires Inv(rounds) && i < |rounds| && j < |rounds[i].assignments|
    ensures Holder(rounds, 0, rounds[i].assignments[j].id) == i
    ensures Position(rounds[i].assignments, 0, rounds[i].assignments[j].id) == j
    ensures Lookup(rounds, rounds[i].assignments[j].id) == Some(rounds[i].assignments[j].progress)
  {
    var id := rounds[i].assignments[j].id;
    assert Position(rounds[i].assignments, 0, id) == j;
    var h := Holder(rounds, 0, id);
    assert h <= i;
    var k := Position(rounds[h].assignments, 0, id);
    assert rounds[h].assignments[k].id == AssignmentId(rounds[h].id, k);
  }

  /** What an operation may do to one assignment. */
  predicate Moves(s: Inner, op: Op, id: AssignmentId, p: Progress, p': Progress) {
    || p' == p
    || (op == Submit(id) && p'.Complete?)
    || (op.ClaimOne? && Claim(s) == Some(id) && p.Available? && p' == Assigned(op.who, op.now))
    || (op.Reassign? && p.Assigned? && op.now - p.at > op.timeout && p'.Available?)
  }

  /** The same comparison in place, for the operations that keep the order of rounds. */
  lemma MovesInPlace(s: Inner, op: Op, i: nat, j: nat)
    requires Inv(s.rounds) && Enabled(s, op) && !op.Reopen? && i < |s.rounds| && j < |s.rounds[i].assignments|
    ensures var next := Apply(s, op).rounds;
      && i < |next| && next[i].id == s.rounds[i].id && j < |next[i].assignments|
      && Moves(s, op, s.rounds[i].assignments[j].id, s.rounds[i].assignments[j].progress,
        next[i].assignments[j].progress)
  {
    match op
    case ClaimOne(who, now) =>
    case Submit(id) =>
    case _ =>
  }

  lemma StepMoves(s: Inner, op: Op, i: nat, j: nat)
    requires Inv(s.rounds) && Enabled(s, op) && i < |s.rounds| && j < |s.rounds[i].assignments|
    ensures var id, p := s.rounds[i].assignments[j].id, s.rounds[i].assignments[j].progress;
      var after := Lookup(Apply(s, op).rounds, id);
      after.Some? && Moves(s, op, id, p, after.value)
  {
    StepKeeps(s, op);
    var next := Apply(s, op).rounds;
    if op.Reopen? {
      var k :| 0 <= k < |next| && next[k] == s.rounds[i];
      LookupAt(next, k, j);
    } else {
      MovesInPlace(s, op, i, j);
      SameId(s.rounds[i], next[i], j);
      LookupAt(next, i, j);
    }
  }

  lemma SameId(r: Round, r': Round, j: nat)
    requires RoundOk(r) && RoundOk(r') && r.id == r'.id && j < |r.assignments| && j < |r'.assignments|
    ensures r.assignments[j].id == r'.assignments[j].id
  {
  }

  /** Nothing takes back a completed assignment. */
  lemma CompleteStays(s: Inner, op: Op, id: AssignmentId)
    requires Inv(s.rounds) && Enabled(s, op) && Lookup(s.rounds, id) == Some(Complete)
    ensures Lookup(Apply(s, op).rounds, id) == Some(Complete)
  {
    var i := Holder(s.rounds, 0, id);
    StepMoves(s, op, i, Position(s.rounds[i].assignments, 0, id));
  }

  lemma Moved(s: Inner, op: Op, id: AssignmentId)
    requires Inv(s.rounds) && Enabled(s, op) && Lookup(s.rounds, id).Some?
    ensures var after := Lookup(Apply(s, op).rounds, id);
      after.Some? && Moves(s, op, id, Lookup(s.rounds, id).value, after.value)
  {
    var i := Holder(s.rounds, 0, id);
    StepMoves(s, op, i, Position(s.rounds[i].assignments, 0, id));
  }

  /** A claim hands out an available assignment, which is then assigned. */
  lemma ClaimTakes(s: Inner, who: Worker, now: int)
    requires Inv(s.rounds) && Claim(s).Some?
    ensures Lookup(s.rounds, Claim(s).value) == Some(Available)
    ensures Lookup(Claimed(s, who, now).rounds, Claim(s).value) == Some(Assigned(who, now))
  {
    var i := FirstOpen(s.rounds, 0);
    var j := FirstAvailable(s.rounds[i].assignments, 0);
    LookupAt(s.rounds, i, j);
    ClaimKeeps(s, who, now);
    LookupAt(Claimed(s, who, now).rounds, i, j);
  }

  predicate Claims(s: Inner, op: Op, id: AssignmentId) { op.ClaimOne? && Claim(s) == Some(id) }

  predicate Frees(s: Inner, op: Op, id: AssignmentId) {
    && op.Reassign?
    && var p := Lookup(s.rounds, id);
       p.Some? && p.value.Assigned? && op.now - p.value.at > op.timeout
  }

  lemma LastStepFrees(s: Inner, op: Op, id: AssignmentId)
    requires Inv(s.rounds) && Enabled(s, op)
    requires Lookup(s.rounds, id).Some? && Lookup(s.rounds, id) != Some(Available)
    requires Lookup(Apply(s, op).rounds, id) == Some(Available)
    ensures Frees(s, op, id)
  {
    Moved(s, op, id);
  }

  /** Between a moment when it is not there and one when it is, something turns up. */
  lemma {:induction false} TurnsUp(there: nat -> bool, a: nat, n: nat) returns (c: nat)
    requires a <= n && !there(a) && there(n)
    ensures a <= c < n && !there(c) && there(c + 1)
    decreases n
  {
    if there(n - 1) {
      c := TurnsUp(there, a, n - 1);
    } else {
      c := n - 1;
    }
  }

  lemma TraceStep(states: seq<Inner>, ops: seq<Op>, k: nat)
    requires IsTrace(states, ops) && k < |ops|
    ensures Enabled(states[k], ops[k]) && states[k + 1] == Apply(states[k], ops[k]) && Inv(states[k].rounds)
  {
    CounterExact(states, ops, k);
  }

  lemma {:induction false} StaysKnown(states: seq<Inner>, ops: seq<Op>, id: AssignmentId, a: nat, n: nat)
    requires IsTrace(states, ops) && a <= n <= |ops| && Lookup(states[a].rounds, id).Some?
    ensures Lookup(states[n].rounds, id).Some?
    decreases n
  {
    if a < n {
      StaysKnown(states, ops, id, a, n - 1);
      TraceStep(states, ops, n - 1);
      Moved(states[n - 1], ops[n - 1], id);
    }
  }

  function IsAvailable(states: seq<Inner>, id: AssignmentId): nat -> bool {
    (k: nat) => k < |states| && Lookup(states[k].rounds, id) == Some(Available)
  }

  lemma ClaimStep(states: seq<Inner>, ops: seq<Op>, id: AssignmentId, k: nat)
    requires IsTrace(states, ops) && k < |ops| && Claims(states[k], ops[k], id)
    ensures Lookup(states[k].rounds, id) == Some(Available)
    ensures Lookup(states[k + 1].rounds, id) == Some(Assigned(ops[k].who, ops[k].now))
  {
    TraceStep(states, ops, k);
    ClaimTakes(states[k], ops[k].who, ops[k].now);
  }

  lemma FreeStep(states: seq<Inner>, ops: seq<Op>, id: AssignmentId, k: nat)
    requires IsTrace(states, ops) && k < |ops|
    requires Lookup(states[k].rounds, id).Some? && Lookup(states[k].rounds, id) != Some(Available)
    requires Lookup(states[k + 1].rounds, id) == Some(Available)
    ensures Frees(states[k], ops[k], id)
  {
    TraceStep(states, ops, k);
    LastStepFrees(states[k], ops[k], id);
  }

  /** An assignment is handed out a second time only after it was found stale in between. */
  lemma ClaimedTwice(states: seq<Inner>, ops: seq<Op>, id: AssignmentId, a: nat, b: nat) returns (c: nat)
    requires IsTrace(states, ops) && a < b < |ops|
    requires Claims(states[a], ops[a], id) && Claims(states[b], ops[b], id)
    ensures a < c < b && Frees(states[c], ops[c], id)
  {
    ClaimStep(states, ops, id, a);
    ClaimStep(states, ops, id, b);
    c := TurnsUp(IsAvailable(states, id), a + 1, b);
    StaysKnown(states, ops, id, a, c);
    FreeStep(states, ops, id, c);
  }
}
