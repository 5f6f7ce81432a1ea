/** The coordinator's task table and its rotating queue (server/coordinator/src/task_store.rs).
    Identifiers and clock readings are inputs. */
module Tasks {
  import opened Wrappers
  import opened Picks

  datatype TaskId = TaskId(n: nat)
  datatype NodeName = NodeName(n: nat)

  datatype Status = Pending | Assigned(node: NodeName, at: int) | Completed(response: string) | Failed(error: string)
  datatype Task = Task(model: string, prompt: string, maxTokens: nat, status: Status, createdAt: int)

  type Table = map<TaskId, Task>

  const MAX_TOKENS_LIMIT := 8192
  const COMPLETED_TTL := 3600

  predicate IsPending(tasks: Table, id: TaskId) { id in tasks && tasks[id].status.Pending? }

  /** Every pending task is queued exactly once, or on its way into the queue; no assigned one is, and
      nothing is queued twice. */
  ghost predicate QueueOk(tasks: Table, queue: seq<TaskId>, entering: set<TaskId>) {
    forall id :: EntryOk(tasks, id, multiset(queue)[id], id in entering)
  }

  predicate EntryOk(tasks: Table, id: TaskId, entries: nat, enters: bool) {
    && entries <= 1
    && (IsPending(tasks, id) ==> entries == if enters then 0 else 1)
    && (id in tasks && tasks[id].status.Assigned? ==> entries == 0 && !enters)
    && (enters ==> entries == 0)
  }

  /** The entries that are still pending, in order. */
  function Waiting(tasks: Table, queue: seq<TaskId>): seq<TaskId> {
    if queue == [] then []
    else
      var last := queue[|queue| - 1];
      Waiting(tasks, queue[..|queue| - 1]) + if IsPending(tasks, last) then [last] else []
  }

  predicate Matches(tasks: Table, id: TaskId, models: seq<string>) {
    IsPending(tasks, id) && tasks[id].model in models
  }

  /** The first entry at or after i that a node with these models may take. */
  function FirstMatch(tasks: Table, queue: seq<TaskId>, models: seq<string>, i: nat): (k: nat)
    requires i <= |queue|
    ensures i <= k <= |queue|
    ensures k < |queue| ==> Matches(tasks, queue[k], models)
    ensures forall j :: i <= j < k ==> !Matches(tasks, queue[j], models)
    decreases |queue| - i
  {
    if i == |queue| || Matches(tasks, queue[i], models) then i else FirstMatch(tasks, queue, models, i + 1)
  }

  function WithStatus(tasks: Table, id: TaskId, status: Status): Table
    requires id in tasks
  {
    tasks[id := tasks[id].(status := status)]
  }

  predicate IsStale(t: Task, now: int, timeout: nat) { t.status.Assigned? && now - t.status.at > timeout }

  function Freed(tasks: Table, now: int, timeout: nat): Table {
    map id | id in tasks :: if IsStale(tasks[id], now, timeout) then tasks[id].(status := Pending) else tasks[id]
  }

  /** How often the reaper queues a task, among these ids: once if it is stale. */
  function Frees(tasks: Table, ids: set<TaskId>, id: TaskId, now: int, timeout: nat): nat {
    if id in ids && id in tasks && IsStale(tasks[id], now, timeout) then 1 else 0
  }

  predicate Expired(t: Task, now: int) {
    (t.status.Completed? || t.status.Failed?) && now - t.createdAt >= COMPLETED_TTL
  }

  function Kept(tasks: Table, now: int): Table {
    map id | id in tasks && !Expired(tasks[id], now) :: tasks[id]
  }

  function NewTask(model: string, prompt: string, maxTokens: nat, now: int): Task {
    Task(model, prompt, if maxTokens < MAX_TOKENS_LIMIT then maxTokens else MAX_TOKENS_LIMIT, Pending, now)
  }

  // ---- the queue ----

  lemma {:induction false} WaitingPicks(tasks: Table, queue: seq<TaskId>)
    ensures IsPick(queue, Waiting(tasks, queue), PendingAt(tasks, queue))
  {
    if queue == [] {
      NothingPicked(queue, Waiting(tasks, queue), PendingAt(tasks, queue));
    } else {
      var last := |queue| - 1;
      var rest := queue[..last];
      WaitingPicks(tasks, rest);
      PendingMore(tasks, queue);
      LastPicked(queue, Waiting(tasks, queue), PendingAt(tasks, queue), Waiting(tasks, rest), PendingAt(tasks, rest),
                 IsPending(tasks, queue[last]));
    }
  }

  lemma PendingMore(tasks: Table, queue: seq<TaskId>)
    requires queue != []
    ensures var last := |queue| - 1;
      PendingAt(tasks, queue)
      == PendingAt(tasks, queue[..last]) + if IsPending(tasks, queue[last]) then {last} else {}
  {
    var last := |queue| - 1;
    assert forall j :: 0 <= j < last ==> queue[..last][j] == queue[j];
  }

  function PendingAt(tasks: Table, queue: seq<TaskId>): set<nat> {
    set j: nat | j < |queue| && queue[j] in tasks && tasks[queue[j]].status == Pending
  }

  lemma {:induction false} WaitingEntries(tasks: Table, queue: seq<TaskId>, id: TaskId)
    ensures multiset(Waiting(tasks, queue))[id] == if IsPending(tasks, id) then multiset(queue)[id] else 0
  {
    if queue != [] {
      var rest, last := queue[..|queue| - 1], queue[|queue| - 1];
      assert queue == rest + [last];
      WaitingEntries(tasks, rest, id);
    }
  }

  /** What a failed attempt leaves. */
  lemma FailedKeeps(tasks: Table, queue: seq<TaskId>, entering: set<TaskId>)
    requires QueueOk(tasks, queue, entering)
    ensures QueueOk(tasks, Waiting(tasks, queue), entering)
  {
    forall id ensures EntryOk(tasks, id, multiset(Waiting(tasks, queue))[id], id in entering) {
      assert EntryOk(tasks, id, multiset(queue)[id], id in entering);
      WaitingEntries(tasks, queue, id);
    }
  }

  /** The queue after entry k was taken: what was behind it, then what was passed over. */
  function Rotated(tasks: Table, queue: seq<TaskId>, k: nat): seq<TaskId>
    requires k < |queue|
  {
    queue[k + 1..] + Waiting(tasks, queue[..k])
  }

  lemma TakenKeeps(tasks: Table, queue: seq<TaskId>, entering: set<TaskId>, k: nat, node: NodeName, now: int)
    requires QueueOk(tasks, queue, entering) && k < |queue| && IsPending(tasks, queue[k])
    ensures QueueOk(WithStatus(tasks, queue[k], Assigned(node, now)), Rotated(tasks, queue, k), entering)
  {
    var taken := queue[k];
    var after := WithStatus(tasks, taken, Assigned(node, now));
    assert queue == queue[..k] + [taken] + queue[k + 1..];
    forall id ensures EntryOk(after, id, multiset(Rotated(tasks, queue, k))[id], id in entering) {
      assert EntryOk(tasks, id, multiset(queue)[id], id in entering);
      assert EntryOk(tasks, taken, multiset(queue)[taken], taken in entering);
      WaitingEntries(tasks, queue[..k], id);
    }
  }

  /** The outcome of an attempt: the first match, if there is one, leaves the queue. */
  function Attempt(
    tasks: Table, queue: seq<TaskId>, node: NodeName, models: seq<string>, now: int)
    : (Option<TaskId>, Table, seq<TaskId>)
  {
    var k := FirstMatch(tasks, queue, models, 0);
    if k < |queue| then (Some(queue[k]), WithStatus(tasks, queue[k], Assigned(node, now)), Rotated(tasks, queue, k))
    else (None, tasks, Waiting(tasks, queue))
  }

  predicate Fits(tasks: Table, id: TaskId, models: seq<string>) {
    id in tasks && tasks[id].status == Pending && tasks[id].model in models
  }

  /** A node is given the first entry of the queue that is pending and for one of its models; the pending
      entries passed over go behind the rest, in order. Without such an entry the pending ones stay. */
  lemma AttemptExactly(
    tasks: Table, queue: seq<TaskId>, node: NodeName, models: seq<string>, now: int)
    returns (k: nat, passed: seq<TaskId>)
    ensures k <= |queue| && forall j :: 0 <= j < k ==> !Fits(tasks, queue[j], models)
    ensures IsPick(queue[..k], passed, PendingAt(tasks, queue[..k]))
    ensures var (given, tasks', queue') := Attempt(tasks, queue, node, models, now);
      if k < |queue| then
        && Fits(tasks, queue[k], models) && given == Some(queue[k]) && queue' == queue[k + 1..] + passed
        && tasks' == tasks[queue[k] := tasks[queue[k]].(status := Assigned(node, now))]
      else given == None && tasks' == tasks && queue' == passed
  {
    k := FirstMatch(tasks, queue, models, 0);
    passed := Waiting(tasks, queue[..k]);
    WaitingPicks(tasks, queue[..k]);
    assert k == |queue| ==> queue[..k] == queue;
    forall j | 0 <= j < k ensures !Fits(tasks, queue[j], models) {
      assert !Matches(tasks, queue[j], models);
    }
  }

  lemma AttemptKeeps(
    tasks: Table, queue: seq<TaskId>, entering: set<TaskId>, node: NodeName, models: seq<string>, now: int)
    requires QueueOk(tasks, queue, entering)
    ensures var (_, tasks', queue') := Attempt(tasks, queue, node, models, now); QueueOk(tasks', queue', entering)
  {
    var k := FirstMatch(tasks, queue, models, 0);
    if k < |queue| {
      TakenKeeps(tasks, queue, entering, k, node, now);
    } else {
      FailedKeeps(tasks, queue, entering);
    }
  }

  lemma PendingIsQueued(tasks: Table, queue: seq<TaskId>, entering: set<TaskId>, id: TaskId)
    requires QueueOk(tasks, queue, entering) && IsPending(tasks, id) && id !in entering
    ensures id in queue
  {
    assert EntryOk(tasks, id, multiset(queue)[id], id in entering);
  }

  /** An attempt succeeds exactly when some pending task matches that is not just being created. */
  lemma SucceedsIff(tasks: Table, queue: seq<TaskId>, entering: set<TaskId>, models: seq<string>)
    requires QueueOk(tasks, queue, entering)
    ensures FirstMatch(tasks, queue, models, 0) < |queue|
      <==> exists id :: id in tasks && id !in entering && Matches(tasks, id, models)
  {
    var k := FirstMatch(tasks, queue, models, 0);
    if k < |queue| {
      assert EntryOk(tasks, queue[k], multiset(queue)[queue[k]], queue[k] in entering);
      assert queue[k] in tasks && queue[k] !in entering;
    } else {
      forall id | id in tasks && id !in entering ensures !Matches(tasks, id, models) {
        if IsPending(tasks, id) {
          PendingIsQueued(tasks, queue, entering, id);
        }
      }
    }
  }

  /** The queue after k turns of an attempt that has not found a match yet. */
  ghost function Turned(tasks: Table, entries: seq<TaskId>, k: nat): seq<TaskId>
    requires k <= |entries|
  {
    entries[k..] + Waiting(tasks, entries[..k])
  }

  lemma TurnOnce(tasks: Table, entries: seq<TaskId>, k: nat)
    requires k < |entries|
    ensures var queue := Turned(tasks, entries, k);
      && queue != [] && queue[0] == entries[k] && queue[1..] == Rotated(tasks, entries, k)
      && Turned(tasks, entries, k + 1) == if IsPending(tasks, entries[k]) then queue[1..] + [queue[0]] else queue[1..]
  {
    assert entries[..k + 1][..k] == entries[..k];
    assert entries[k..] == [entries[k]] + entries[k + 1..];
  }

  predicate Unmatched(tasks: Table, entries: seq<TaskId>, models: seq<string>, k: nat)
    requires k <= |entries|
  {
    FirstMatch(tasks, entries, models, k) == FirstMatch(tasks, entries, models, 0)
  }

  lemma AttemptFrom(tasks: Table, entries: seq<TaskId>, node: NodeName, models: seq<string>, now: int, k: nat)
    requires k <= |entries| && Unmatched(tasks, entries, models, k)
    ensures if k == |entries| then Attempt(tasks, entries, node, models, now) == (None, tasks, Waiting(tasks, entries))
      else if Matches(tasks, entries[k], models) then
        Attempt(tasks, entries, node, models, now)
          == (Some(entries[k]), WithStatus(tasks, entries[k], Assigned(node, now)), Rotated(tasks, entries, k))
      else Unmatched(tasks, entries, models, k + 1)
  {
  }

  lemma TurnedRound(tasks: Table, entries: seq<TaskId>)
    ensures Turned(tasks, entries, |entries|) == Waiting(tasks, entries)
  {
    assert entries[..|entries|] == entries;
  }

  /** Go through the locked queue once, dropping entries that are no longer pending. */
  method Rotate(table: Table, entries: seq<TaskId>, node: NodeName, models: seq<string>, now: int)
    returns (given: Option<TaskId>, tasks: Table, queue: seq<TaskId>)
    ensures (given, tasks, queue) == Attempt(table, entries, node, models, now)
  {
    tasks, queue := table, entries;
    assert queue == Turned(tasks, entries, 0);
    for k := 0 to |entries|
      invariant tasks == table && queue == Turned(tasks, entries, k) && Unmatched(tasks, entries, models, k)
    {
      TurnOnce(tasks, entries, k);
      AttemptFrom(tasks, entries, node, models, now, k);
      var id := queue[0];
      queue := queue[1..];
      if IsPending(tasks, id) {
        if tasks[id].model in models {
          return Some(id), WithStatus(tasks, id, Assigned(node, now)), queue;
        }
        queue := queue + [id];
      }
    }
    TurnedRound(tasks, entries);
    AttemptFrom(tasks, entries, node, models, now, |entries|);
    given := None;
  }

  /** Assigned to a node that has not answered for longer than the timeout. */
  predicate Silent(t: Task, now: int, timeout: nat) {
    match t.status
    case Assigned(_, at) => at + timeout < now
    case _ => false
  }

  function Returns(tasks: Table, id: TaskId, now: int, timeout: nat): nat {
    if id in tasks && Silent(tasks[id], now, timeout) then 1 else 0
  }

  predicate Finished(t: Task) {
    match t.status
    case Completed(_) => true
    case Failed(_) => true
    case _ => false
  }

  class TaskStore {
    var tasks: Table
    var queue: seq<TaskId>
    ghost var entering: set<TaskId>  // in the table, not in the queue yet

    ghost predicate Valid()
      reads this
    {
      QueueOk(tasks, queue, entering)
    }

    constructor ()
      ensures Valid() && tasks == map[] && queue == [] && entering == {}
    {
      tasks, queue, entering := map[], [], {};
    }

    /** The two sections of `create_task`, each under its own lock. */
    method CreateTask(id: TaskId, model: string, prompt: string, maxTokens: nat, now: int)
      requires Valid() && id !in tasks && id !in queue && id !in entering
      modifies this
      ensures Valid() && entering == old(entering) && queue == old(queue) + [id]
      ensures tasks == old(tasks)[id :=
        Task(model, prompt, if maxTokens <= 8192 then maxTokens else 8192, Pending, now)]
    {
      InsertTask(id, model, prompt, maxTokens, now);
      EnqueueTask(id);
    }

    /** The task is in the table; until it is queued no node is offered it. */
    method InsertTask(id: TaskId, model: string, prompt: string, maxTokens: nat, now: int)
      requires Valid() && id !in tasks && id !in queue && id !in entering
      modifies this
      ensures Valid() && entering == old(entering) + {id} && queue == old(queue)
      ensures tasks == old(tasks)[id :=
        Task(model, prompt, if maxTokens <= 8192 then maxTokens else 8192, Pending, now)]
    {
      EntersQueue(tasks, queue, entering, id, NewTask(model, prompt, maxTokens, now));
      tasks := tasks[id := NewTask(model, prompt, maxTokens, now)];
      entering := entering + {id};
    }

    method EnqueueTask(id: TaskId)
      requires Valid() && id in entering
      modifies this
      ensures Valid() && entering == old(entering) - {id} && queue == old(queue) + [id] && tasks == old(tasks)
    {
      LeavesEntering(tasks, queue, entering, id);
      queue := queue + [id];
      entering := entering - {id};
    }

    /** `assign_pending_task`. */
    method AssignPendingTask(node: NodeName, models: seq<string>, now: int) returns (given: Option<TaskId>)
      requires Valid()
      modifies this
      ensures Valid()
      ensures entering == old(entering)
      ensures given.Some? <==> exists id :: id in old(tasks) && id !in entering && Matches(old(tasks), id, models)
      ensures (given, tasks, queue) == Attempt(old(tasks), old(queue), node, models, now)
    {
      SucceedsIff(tasks, queue, entering, models);
      AttemptKeeps(tasks, queue, entering, node, models, now);
      given, tasks, queue := Rotate(tasks, queue, node, models, now);
    }

    method CompleteTask(id: TaskId, response: string) returns (known: bool)
      requires Valid()
      modifies this
      ensures Valid() && entering == old(entering) && queue == old(queue) && (known <==> id in old(tasks))
      ensures tasks == if known then old(tasks)[id := old(tasks)[id].(status := Completed(response))] else old(tasks)
    {
      known := id in tasks;
      if known {
        FinishedKeeps(tasks, queue, entering, id, Completed(response));
        tasks := WithStatus(tasks, id, Completed(response));
      }
    }

    method FailTask(id: TaskId, error: string) returns (known: bool)
      requires Valid()
      modifies this
      ensures Valid() && entering == old(entering) && queue == old(queue) && (known <==> id in old(tasks))
      ensures tasks == if known then old(tasks)[id := old(tasks)[id].(status := Failed(error))] else old(tasks)
    {
      known := id in tasks;
      if known {
        FinishedKeeps(tasks, queue, entering, id, Failed(error));
        tasks := WithStatus(tasks, id, Failed(error));
      }
    }

    /** Tasks of silent nodes go back to the end of the queue, in the order of the table's iterator. */
    method ReassignStaleTasks(now: int, timeout: nat)
      requires Valid()
      modifies this
      ensures Valid() && entering == old(entering) && tasks.Keys == old(tasks).Keys
      ensures forall id :: id in tasks ==>
        tasks[id] == if Silent(old(tasks)[id], now, timeout) then old(tasks)[id].(status := Pending) else old(tasks)[id]
      ensures |old(queue)| <= |queue| && queue[..|old(queue)|] == old(queue)
      ensures forall id :: multiset(queue[|old(queue)|..])[id] == Returns(old(tasks), id, now, timeout)
    {
      var back;
      tasks, back := FreeStale(tasks, queue, entering, now, timeout);
      queue := queue + back;
    }

    method CleanupOldTasks(now: int)
      requires Valid()
      modifies this
      ensures Valid() && entering == old(entering) && queue == old(queue)
      ensures forall id :: id in tasks <==>
        id in old(tasks) && !(Finished(old(tasks)[id]) && now - old(tasks)[id].createdAt >= 3600)
      ensures forall id :: id in tasks ==> tasks[id] == old(tasks)[id]
    {
      assert forall id :: EntryOk(tasks, id, multiset(queue)[id], id in entering);
      tasks := Kept(tasks, now);
    }
  }

  function PartlyFreed(tasks: Table, todo: set<TaskId>, now: int, timeout: nat): Table {
    map id | id in tasks ::
      if id !in todo && IsStale(tasks[id], now, timeout) then tasks[id].(status := Pending) else tasks[id]
  }

  /** The loop over the locked table: stale tasks are pending again and listed. */
  method FreeStale(table: Table, queue: seq<TaskId>, ghost entering: set<TaskId>, now: int, timeout: nat)
    returns (tasks: Table, back: seq<TaskId>)
    requires QueueOk(table, queue, entering)
    ensures tasks == Freed(table, now, timeout) && QueueOk(tasks, queue + back, entering)
    ensures forall id :: multiset(back)[id] == Frees(table, table.Keys, id, now, timeout)
  {
    tasks, back := table, [];
    var todo := tasks.Keys;
    assert queue + back == queue;
    while todo != {}
      invariant todo <= table.Keys && tasks == PartlyFreed(table, todo, now, timeout)
      invariant QueueOk(tasks, queue + back, entering)
      invariant forall id :: multiset(back)[id] == Frees(table, table.Keys - todo, id, now, timeout)
    {
      var id :| id in todo;
      if IsStale(tasks[id], now, timeout) {
        BackInQueue(tasks, queue + back, entering, id);
        assert queue + back + [id] == queue + (back + [id]);
        tasks, back := WithStatus(tasks, id, Pending), back + [id];
      }
      todo := todo - {id};
    }
  }

  lemma EntersQueue(tasks: Table, queue: seq<TaskId>, entering: set<TaskId>, id: TaskId, t: Task)
    requires QueueOk(tasks, queue, entering) && id !in tasks && id !in queue && t.status.Pending?
    ensures QueueOk(tasks[id := t], queue, entering + {id})
  {
    forall x ensures EntryOk(tasks[id := t], x, multiset(queue)[x], x in entering + {id}) {
      assert EntryOk(tasks, x, multiset(queue)[x], x in entering);
    }
  }

  lemma LeavesEntering(tasks: Table, queue: seq<TaskId>, entering: set<TaskId>, id: TaskId)
    requires QueueOk(tasks, queue, entering) && id in entering
    ensures QueueOk(tasks, queue + [id], entering - {id})
  {
    forall x ensures EntryOk(tasks, x, multiset(queue + [id])[x], x in entering - {id}) {
      assert EntryOk(tasks, x, multiset(queue)[x], x in entering);
    }
  }

  lemma FinishedKeeps(tasks: Table, queue: seq<TaskId>, entering: set<TaskId>, id: TaskId, status: Status)
    requires QueueOk(tasks, queue, entering) && id in tasks && (status.Completed? || status.Failed?)
    ensures QueueOk(WithStatus(tasks, id, status), queue, entering)
  {
    forall x ensures EntryOk(WithStatus(tasks, id, status), x, multiset(queue)[x], x in entering) {
      assert EntryOk(tasks, x, multiset(queue)[x], x in entering);
    }
  }

  lemma BackInQueue(tasks: Table, queue: seq<TaskId>, entering: set<TaskId>, id: TaskId)
    requires QueueOk(tasks, queue, entering) && id in tasks && tasks[id].status.Assigned?
    ensures QueueOk(WithStatus(tasks, id, Pending), queue + [id], entering)
  {
    forall x ensures EntryOk(WithStatus(tasks, id, Pending), x, multiset(queue + [id])[x], x in entering) {
      assert EntryOk(tasks, x, multiset(queue)[x], x in entering);
    }
  }
}
