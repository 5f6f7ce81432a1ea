/** The training store: rounds in memory, the database written after every change, and reopening
    (server/coordinator/src/layer_training.rs). Operations run one at a time. */
module LayerStore {
  import opened Wrappers
  import opened LayerPlan
  import opened LayerTraining
  import opened TrainingEffects

  type Bytes = seq<bv8>

  /** The three tables; the statistics are two rows of one of them. */
  datatype Database = Database(
    rows: map<RoundId, Round>,
    completedRow: Option<nat>,
    firstRow: Option<int>,
    adapters: map<AssignmentId, Bytes>)

  predicate Rows(rounds: seq<Round>, rows: map<RoundId, Round>) {
    rows.Keys == RoundIds(rounds) && forall i :: 0 <= i < |rounds| ==> Stored(rows, rounds[i])
  }

  predicate Stored(rows: map<RoundId, Round>, r: Round) { r.id in rows && rows[r.id] == r }

  predicate HasAdapters(r: Round, adapters: map<AssignmentId, Bytes>) {
    forall j :: 0 <= j < |r.assignments| && r.assignments[j].progress.Complete? ==> r.assignments[j].id in adapters
  }

  predicate AllHaveAdapters(rounds: seq<Round>, adapters: map<AssignmentId, Bytes>) {
    forall i :: 0 <= i < |rounds| ==> HasAdapters(rounds[i], adapters)
  }

  function OrZero(n: Option<nat>): nat { if n.Some? then n.value else 0 }

  /** The database holds what memory holds, and an adapter for every complete assignment. */
  predicate Persisted(s: Inner, db: Database) {
    && Inv(s.rounds)
    && Rows(s.rounds, db.rows)
    && s.completed == OrZero(db.completedRow)
    && s.first == db.firstRow
    && AllHaveAdapters(s.rounds, db.adapters)
  }

  /** What selecting all rows ordered by creation time may return. */
  predicate Listing(rows: map<RoundId, Round>, listing: seq<Round>) {
    && Distinct(listing) && Rows(listing, rows)
    && forall i, j :: 0 <= i < j < |listing| ==> listing[i].createdAt <= listing[j].createdAt
  }

  function Loaded(db: Database, listing: seq<Round>): Inner {
    Inner(listing, OrZero(db.completedRow), db.firstRow)
  }

  lemma {:induction false} ListingIsRounds(rounds: seq<Round>, rows: map<RoundId, Round>, listing: seq<Round>)
    requires Rows(rounds, rows) && Rows(listing, rows)
    ensures SameRounds(listing, rounds)
  {
    Contained(listing, rounds, rows);
    Contained(rounds, listing, rows);
  }

  lemma Contained(rounds: seq<Round>, rounds': seq<Round>, rows: map<RoundId, Round>)
    requires Rows(rounds, rows) && Rows(rounds', rows)
    ensures forall i :: 0 <= i < |rounds| ==> rounds[i] in rounds'
  {
    forall i | 0 <= i < |rounds| ensures rounds[i] in rounds' {
      assert Stored(rows, rounds[i]);
      assert rounds[i].id in RoundIds(rounds');
      var k :| 0 <= k < |rounds'| && rounds'[k].id == rounds[i].id;
      assert Stored(rows, rounds'[k]);
    }
  }

  /** Reopening gives back the same rounds by id, the same counter and the same first time, is an
      operation of the runs above, and leaves the database in step. */
  lemma RestartRestores(s: Inner, db: Database, listing: seq<Round>)
    requires Persisted(s, db) && Listing(db.rows, listing)
    ensures Enabled(s, Reopen(listing)) && Loaded(db, listing) == Apply(s, Reopen(listing))
    ensures Persisted(Loaded(db, listing), db)
  {
    ListingIsRounds(s.rounds, db.rows, listing);
    ReopenKeeps(s, listing);
    forall i | 0 <= i < |listing| ensures HasAdapters(listing[i], db.adapters) {
      assert listing[i] in s.rounds;
      var k :| 0 <= k < |s.rounds| && s.rounds[k] == listing[i];
    }
  }

  /** The schema before anything was stored. */
  lemma EmptyIsPersisted()
    ensures Persisted(Inner([], 0, None), Database(map[], None, None, map[])) && Listing(map[], [])
  {
  }

  // ---- effects on the tables ----

  lemma RowUpdated(rounds: seq<Round>, rows: map<RoundId, Round>, i: nat, r: Round)
    requires Distinct(rounds) && Rows(rounds, rows) && i < |rounds| && r.id == rounds[i].id
    ensures Rows(rounds[i := r], rows[r.id := r])
  {
    assert RoundIds(rounds[i := r]) == RoundIds(rounds) by {
      assert forall k :: 0 <= k < |rounds| ==> rounds[i := r][k].id == rounds[k].id;
    }
  }

  lemma RowAdded(rounds: seq<Round>, rows: map<RoundId, Round>, r: Round)
    requires Rows(rounds, rows) && r.id !in RoundIds(rounds)
    ensures Rows(rounds + [r], rows[r.id := r])
  {
    var next := rounds + [r];
    forall x ensures x in RoundIds(next) <==> x in RoundIds(rounds) || x == r.id {
      if x in RoundIds(rounds) {
        var k :| 0 <= k < |rounds| && rounds[k].id == x;
        assert next[k].id == x;
      }
      assert next[|rounds|].id == r.id;
    }
    forall i | 0 <= i < |next| ensures Stored(rows[r.id := r], next[i]) {
      if i < |rounds| {
        assert Stored(rows, rounds[i]) && rounds[i].id in RoundIds(rounds);
      }
    }
  }

  class LayerTrainingStore {
    var rounds: seq<Round>
    var completed: nat
    var first: Option<int>
    var db: Database

    function View(): Inner
      reads this
    {
      Inner(rounds, completed, first)
    }

    predicate Valid()
      reads this
    {
      Persisted(View(), db)
    }

    /** `open` on the database that an earlier store left: the rounds, the counter and the first time are
        those it had in memory. */
    constructor (db: Database, listing: seq<Round>, ghost was: Inner)
      requires Persisted(was, db) && Listing(db.rows, listing)
      ensures this.db == db && View() == Loaded(db, listing) && Valid()
      ensures SameRounds(rounds, was.rounds) && completed == was.completed && first == was.first
    {
      RestartRestores(was, db, listing);
      this.db, rounds, completed, first := db, listing, OrZero(db.completedRow), db.firstRow;
    }

    method PersistRound(r: Round)
      modifies this`db
      ensures db == old(db).(rows := old(db).rows[r.id := r])
    {
      db := db.(rows := db.rows[r.id := r]);
    }

    method CreateRound(id: RoundId, total: nat, per: nat, dataset: nat, examples: nat, now: int)
      requires Valid() && Enabled(View(), Create(id, total, per, dataset, examples, now))
      modifies this
      ensures View() == Created(old(View()), id, total, per, dataset, examples, now)
      ensures |rounds| == |old(rounds)| + 1 && rounds[..|old(rounds)|] == old(rounds) && completed == old(completed)
      ensures var r := rounds[|old(rounds)|];
        r.id == id && r.status == Active && r.createdAt == now && Tiles(r.assignments, 0, total)
      ensures first == if old(first).None? then Some(now) else old(first)
      ensures Valid() && db.adapters == old(db).adapters
    {
      StepKeeps(View(), Create(id, total, per, dataset, examples, now));
      PlanCovers(total, per, dataset, examples, id);
      var assignments := Split(total, per, dataset, examples, id);
      var round := Round(id, Active, assignments, now);
      RowAdded(rounds, db.rows, round);
      PersistRound(round);
      rounds := rounds + [round];
      NoteFirst(now);
    }

    /** The time of the first round is set once, in memory and in its row. */
    method NoteFirst(now: int)
      modifies this`db, this`first
      ensures first == if old(first).None? then Some(now) else old(first)
      ensures db == old(db).(firstRow := if old(db).firstRow.None? then Some(now) else old(db).firstRow)
    {
      if db.firstRow.None? {
        db := db.(firstRow := Some(now));
      }
      if first.None? {
        first := Some(now);
      }
    }

    method ClaimAssignment(who: Worker, now: int) returns (claimed: Option<Assignment>)
      requires Valid()
      modifies this
      ensures View() == Claimed(old(View()), who, now) && Valid() && db.adapters == old(db).adapters
      ensures claimed.Some? <==> Claim(old(View())).Some?
      ensures claimed.Some? ==>
        claimed.value.id == Claim(old(View())).value && claimed.value.progress == Assigned(who, now)
    {
      ClaimKeeps(View(), who, now);
      claimed := None;
      var i := 0;
      while i < |rounds|
        invariant i <= |rounds| && rounds == old(rounds) && FirstOpen(rounds, i) == FirstOpen(rounds, 0)
        invariant View() == old(View()) && db == old(db)
      {
        var j := 0;
        while j < |rounds[i].assignments| && !rounds[i].assignments[j].progress.Available?
          invariant j <= |rounds[i].assignments|
          invariant FirstAvailable(rounds[i].assignments, j) == FirstAvailable(rounds[i].assignments, 0)
        {
          j := j + 1;
        }
        if rounds[i].status.Active? && j < |rounds[i].assignments| {
          var r := WithProgress(rounds[i], j, Assigned(who, now));
          RowUpdated(rounds, db.rows, i, r);
          rounds := rounds[i := r];
          PersistRound(r);
          return Some(r.assignments[j]);
        }
        i := i + 1;
      }
    }

    method SubmitAdapter(id: AssignmentId, adapter: Bytes) returns (found: bool)
      requires Valid()
      modifies this
      ensures View() == Submitted(old(View()), id) && Valid()
      ensures found <==> Lookup(old(rounds), id).Some?
      ensures db.adapters == if found then old(db).adapters[id := adapter] else old(db).adapters
    {
      var i := 0;
      while i < |rounds|
        invariant i <= |rounds| && rounds == old(rounds) && Holder(rounds, i, id) == Holder(rounds, 0, id)
        invariant View() == old(View()) && db == old(db)
      {
        var j := 0;
        while j < |rounds[i].assignments| && rounds[i].assignments[j].id != id
          invariant j <= |rounds[i].assignments|
          invariant Position(rounds[i].assignments, j, id) == Position(rounds[i].assignments, 0, id)
        {
          j := j + 1;
        }
        if j < |rounds[i].assignments| {
          Accept(i, j, id, adapter);
          return true;
        }
        i := i + 1;
      }
      found := false;
    }

    /** The assignment is complete; maybe the round is, and is counted. */
    method Accept(i: nat, j: nat, id: AssignmentId, adapter: Bytes)
      requires Valid() && i < |rounds| && j < |rounds[i].assignments|
      requires Holder(rounds, 0, id) == i && Position(rounds[i].assignments, 0, id) == j
      modifies this
      ensures View() == Submitted(old(View()), id) && Valid()
      ensures db.adapters == old(db).adapters[id := adapter]
    {
      SubmitPersisted(View(), db, id, adapter);
      var r := WithProgress(rounds[i], j, Complete);
      if AllComplete(r.assignments) {
        r := r.(status := Merging);
        completed := completed + 1;
      }
      rounds := rounds[i := r];
      PersistRound(r);
      db := db.(adapters := db.adapters[id := adapter], completedRow := Some(completed));
    }

    /** Write the changed rounds, one row after the other. */
    method PersistAll(changed: seq<Round>)
      requires Distinct(rounds) && Unwritten(rounds, db.rows, changed)
      modifies this`db
      ensures Unwritten(rounds, db.rows, []) && db == old(db).(rows := db.rows)
    {
      var rest := changed;
      while rest != []
        invariant db == old(db).(rows := db.rows) && Unwritten(rounds, db.rows, rest)
      {
        assert rest == [rest[0]] + rest[1..];
        RowWritten(rounds, db.rows, rest[0], rest[1..]);
        PersistRound(rest[0]);
        rest := rest[1..];
      }
    }

    /** Give assignments back that were claimed too long ago. */
    method ReassignStale(now: int, timeout: nat)
      requires Valid()
      modifies this
      ensures View() == Reassigned(old(View()), now, timeout) && Valid() && db.adapters == old(db).adapters
      ensures |rounds| == |old(rounds)| && completed == old(completed)
      ensures forall i :: 0 <= i < |rounds| ==> FreedIn(old(rounds)[i], rounds[i], now, timeout)
    {
      ReassignExactly(View(), now, timeout);
      ghost var before := rounds;
      FreedKeep(rounds, now, timeout, db.adapters);
      var changed;
      rounds, changed := FreeRounds(rounds, now, timeout);
      ToWrite(before, rounds, changed, db.rows);
      PersistAll(changed);
      AllWritten(rounds, db.rows);
    }

    /** `auto_advance`: close the merging rounds and start the next one. */
    method AutoAdvance(id: RoundId, dataset: nat, now: int)
      requires Valid() && Enabled(View(), Advance(id, dataset, now))
      modifies this
      ensures View() == Advanced(old(View()), id, dataset, now) && Valid() && db.adapters == old(db).adapters
      ensures |rounds| > |old(rounds)| <==>
        && dataset > 0 && (exists i :: 0 <= i < |old(rounds)| && old(rounds)[i].status == Merging)
        && forall i :: 0 <= i < |old(rounds)| ==> old(rounds)[i].status != Active
    {
      AdvanceExactly(View(), id, dataset, now);
      if Due(rounds) && dataset > 0 {
        CloseMerging();
        CreateRound(id, LAYERS, PER, dataset, EXAMPLES, now);
      }
    }

    method CloseMerging()
      requires Valid()
      modifies this
      ensures View() == old(View()).(rounds := AllClosed(old(rounds))) && Valid() && db.adapters == old(db).adapters
      ensures RoundIds(rounds) == RoundIds(old(rounds))
    {
      ghost var before := rounds;
      ClosedKeep(rounds, db.adapters);
      var changed;
      rounds, changed := CloseRounds(rounds);
      ToWrite(before, rounds, changed, db.rows);
      PersistAll(changed);
      AllWritten(rounds, db.rows);
    }
  }

  /** Rows are up to date but for some rounds that are still to be written. */
  predicate Unwritten(rounds: seq<Round>, rows: map<RoundId, Round>, rest: seq<Round>) {
    && rows.Keys == RoundIds(rounds)
    && (forall i :: 0 <= i < |rounds| ==> Stored(rows, rounds[i]) || rounds[i] in rest)
    && (forall k :: 0 <= k < |rest| ==> rest[k] in rounds)
  }

  lemma ToWrite(before: seq<Round>, rounds: seq<Round>, changed: seq<Round>, rows: map<RoundId, Round>)
    requires Rows(before, rows) && Changes(before, rounds, changed) && RoundIds(rounds) == RoundIds(before)
    ensures Unwritten(rounds, rows, changed)
  {
    forall i | 0 <= i < |rounds| ensures Stored(rows, rounds[i]) || rounds[i] in changed {
      assert Stored(rows, before[i]);
    }
  }

  lemma AllWritten(rounds: seq<Round>, rows: map<RoundId, Round>)
    requires Unwritten(rounds, rows, [])
    ensures Rows(rounds, rows)
  {
  }

  lemma RowWritten(rounds: seq<Round>, rows: map<RoundId, Round>, r: Round, rest: seq<Round>)
    requires Distinct(rounds) && Unwritten(rounds, rows, [r] + rest)
    ensures Unwritten(rounds, rows[r.id := r], rest)
  {
    assert ([r] + rest)[0] in rounds;
    assert forall k :: 0 <= k < |rest| ==> rest[k] == ([r] + rest)[k + 1];
    var h :| 0 <= h < |rounds| && rounds[h] == r;
    forall i | 0 <= i < |rounds| ensures Stored(rows[r.id := r], rounds[i]) || rounds[i] in rest {
      if i != h {
        assert Stored(rows, rounds[i]) || rounds[i] in [r] + rest;
        assert rounds[i].id != r.id;
      }
    }
  }

  /** The snapshots taken are rounds of the new list, and every round that differs has one. */
  predicate Changes(before: seq<Round>, after: seq<Round>, changed: seq<Round>) {
    && |after| == |before|
    && (forall i :: 0 <= i < |after| ==> after[i] == before[i] || after[i] in changed)
    && (forall k :: 0 <= k < |changed| ==> changed[k] in after)
  }

  lemma OneMoreChange(before: seq<Round>, after: seq<Round>, changed: seq<Round>, b: Round, a: Round)
    requires Changes(before, after, changed)
    ensures Changes(before + [b], after + [a], changed + if a != b then [a] else [])
  {
    var after', changed' := after + [a], changed + if a != b then [a] else [];
    forall i | 0 <= i < |after'| ensures after'[i] == (before + [b])[i] || after'[i] in changed' {
      if i < |after| && after[i] != before[i] {
        assert after[i] in changed;
      } else if i == |after| && a != b {
        assert changed'[|changed|] == a;
      }
    }
  }

  method FreeRounds(rounds: seq<Round>, now: int, timeout: nat) returns (freed: seq<Round>, changed: seq<Round>)
    ensures freed == AllFreed(rounds, now, timeout) && Changes(rounds, freed, changed)
  {
    freed, changed := [], [];
    for i := 0 to |rounds|
      invariant freed == AllFreed(rounds[..i], now, timeout) && Changes(rounds[..i], freed, changed)
    {
      var r := FreeStale(rounds[i], now, timeout);
      OneMoreChange(rounds[..i], freed, changed, rounds[i], r);
      assert rounds[..i + 1] == rounds[..i] + [rounds[i]];
      changed := changed + if r != rounds[i] then [r] else [];
      freed := freed + [r];
    }
    assert rounds[..|rounds|] == rounds;
  }

  method CloseRounds(rounds: seq<Round>) returns (closed: seq<Round>, changed: seq<Round>)
    ensures closed == AllClosed(rounds) && Changes(rounds, closed, changed)
  {
    closed, changed := [], [];
    for i := 0 to |rounds|
      invariant closed == AllClosed(rounds[..i]) && Changes(rounds[..i], closed, changed)
    {
      var r := if rounds[i].status.Merging? then rounds[i].(status := Merged) else rounds[i];
      OneMoreChange(rounds[..i], closed, changed, rounds[i], r);
      assert rounds[..i + 1] == rounds[..i] + [rounds[i]];
      changed := changed + if r != rounds[i] then [r] else [];
      closed := closed + [r];
    }
    assert rounds[..|rounds|] == rounds;
  }

  /** `open` for the first time, on the empty schema. */
  method OpenNew() returns (store: LayerTrainingStore)
    ensures fresh(store) && store.Valid() && store.View() == Inner([], 0, None)
  {
    EmptyIsPersisted();
    store := new LayerTrainingStore(Database(map[], None, None, map[]), [], Inner([], 0, None));
  }

  /** The inner loop of `reassign_stale` over one round. */
  method FreeStale(round: Round, now: int, timeout: nat) returns (r: Round)
    ensures r == Freed(round, now, timeout)
  {
    r := round;
    if round.status.Active? {
      for j := 0 to |round.assignments|
        invariant r == round.(assignments := r.assignments) && |r.assignments| == |round.assignments|
        invariant r.assignments[..j] == Freed(round, now, timeout).assignments[..j]
        invariant r.assignments[j..] == round.assignments[j..]
      {
        var a := r.assignments[j];
        if a.progress.Assigned? && now - a.progress.at > timeout {
          r := WithProgress(r, j, Available);
        }
      }
    }
  }

  lemma FreedKeep(rounds: seq<Round>, now: int, timeout: nat, adapters: map<AssignmentId, Bytes>)
    requires Inv(rounds) && AllHaveAdapters(rounds, adapters)
    ensures var next := AllFreed(rounds, now, timeout);
      Inv(next) && RoundIds(next) == RoundIds(rounds) && AllHaveAdapters(next, adapters)
  {
    forall i | 0 <= i < |rounds|
      ensures RoundOk(Freed(rounds[i], now, timeout)) && HasAdapters(Freed(rounds[i], now, timeout), adapters)
    {
      FreedOk(rounds[i], now, timeout);
      assert HasAdapters(rounds[i], adapters);
    }
    PointwiseKeeps(rounds, AllFreed(rounds, now, timeout));
  }

  lemma ClosedKeep(rounds: seq<Round>, adapters: map<AssignmentId, Bytes>)
    requires Inv(rounds) && AllHaveAdapters(rounds, adapters)
    ensures Inv(AllClosed(rounds)) && RoundIds(AllClosed(rounds)) == RoundIds(rounds)
    ensures AllHaveAdapters(AllClosed(rounds), adapters)
  {
    PointwiseKeeps(rounds, AllClosed(rounds));
    forall i | 0 <= i < |rounds| ensures HasAdapters(AllClosed(rounds)[i], adapters) {
      assert HasAdapters(rounds[i], adapters);
    }
  }

  /** What a submission writes keeps the database in step. */
  lemma SubmitPersisted(s: Inner, db: Database, id: AssignmentId, adapter: Bytes)
    requires Persisted(s, db) && Holder(s.rounds, 0, id) < |s.rounds|
    ensures var r := Received(s.rounds[Holder(s.rounds, 0, id)], id);
      Persisted(Submitted(s, id),
        Database(db.rows[r.id := r], Some(Submitted(s, id).completed), db.firstRow, db.adapters[id := adapter]))
  {
    var i := Holder(s.rounds, 0, id);
    ReceivedOk(s.rounds[i], id);
    SubmitKeeps(s, id);
    ReceivedHasAdapters(s.rounds, i, db.adapters, id, adapter);
    RowUpdated(s.rounds, db.rows, i, Received(s.rounds[i], id));
  }

  lemma ReceivedHasAdapters(
    rounds: seq<Round>, i: nat, adapters: map<AssignmentId, Bytes>, id: AssignmentId, adapter: Bytes)
    requires AllHaveAdapters(rounds, adapters) && i < |rounds| && Holds(rounds[i], id)
    ensures AllHaveAdapters(rounds[i := Received(rounds[i], id)], adapters[id := adapter])
  {
    var next := rounds[i := Received(rounds[i], id)];
    forall k | 0 <= k < |next| ensures HasAdapters(next[k], adapters[id := adapter]) {
      assert HasAdapters(rounds[k], adapters);
    }
  }
}
