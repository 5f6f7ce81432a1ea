/** In-flight accounting over all interleavings of the handlers: the counter of every generation ever
    made equals the number of guards that requests and handlers still hold. */
module Conservation {
  import opened Wrappers
  import opened ServingClusters
  import opened Coordinator
  import opened Handlers

  /** Stored requests that hold a guard of the generation. */
  function Stored(pending: map<RequestId, Pending>, g: nat): set<RequestId> {
    set rid | rid in pending && pending[rid].guard == g
  }

  predicate HasGuard(job: Job, g: nat) { (job.Admitted? || job.Chained?) && job.gen == g }

  /** Handlers that were admitted and have not stored their request yet. */
  function Unstored(jobs: map<nat, Job>, g: nat): set<nat> {
    set j | j in jobs && HasGuard(jobs[j], g)
  }

  function Held(c: Core, jobs: map<nat, Job>, g: nat): nat { |Stored(c.pending, g)| + |Unstored(jobs, g)| }

  ghost predicate GuardsMade(c: Core, jobs: map<nat, Job>) {
    && (forall rid :: rid in c.pending ==> c.pending[rid].guard in c.mgr.counters)
    && (forall j :: j in jobs && Remembers(jobs[j]) ==> jobs[j].gen in c.mgr.counters)
  }

  /** The handler still knows the generation it was admitted to. */
  predicate Remembers(job: Job) { job.Admitted? || job.Chained? || job.Starting? || job.Aborting? }

  ghost predicate Counted(c: Core, jobs: map<nat, Job>) {
    forall g :: g in c.mgr.counters ==> c.mgr.counters[g] == Held(c, jobs, g)
  }

  /** Every generation ever made is accounted for, also those that no slot holds any more. */
  ghost predicate Conserved(c: Core, jobs: map<nat, Job>) {
    GuardsMade(c, jobs) && Counted(c, jobs)
  }

  lemma StoredSet(pending: map<RequestId, Pending>, rid: RequestId, p: Pending, g: nat)
    ensures Stored(pending[rid := p], g) ==
      if p.guard == g then Stored(pending, g) + {rid} else Stored(pending, g) - {rid}
  {
  }

  lemma UnstoredSet(jobs: map<nat, Job>, j: nat, job: Job, g: nat)
    ensures Unstored(jobs[j := job], g) == if HasGuard(job, g) then Unstored(jobs, g) + {j} else Unstored(jobs, g) - {j}
  {
  }

  lemma UnstoredDel(jobs: map<nat, Job>, j: nat, g: nat)
    ensures Unstored(jobs - {j}, g) == Unstored(jobs, g) - {j}
  {
  }

  /** Jobs without guards come, change and go without touching the accounts. */
  lemma PlainJob(c: Core, jobs: map<nat, Job>, j: nat, job: Job)
    requires Conserved(c, jobs) && !job.Admitted? && !job.Chained?
    requires Remembers(job) ==> job.gen in c.mgr.counters
    requires j in jobs ==> !jobs[j].Admitted? && !jobs[j].Chained?
    ensures Conserved(c, jobs[j := job]) && Conserved(c, jobs - {j})
  {
    forall g ensures Unstored(jobs[j := job], g) == Unstored(jobs, g) && Unstored(jobs - {j}, g) == Unstored(jobs, g) {
      UnstoredSet(jobs, j, job, g);
      UnstoredDel(jobs, j, g);
    }
  }

  /** Replacing a stored request by one with the same guard. */
  lemma SameGuard(c: Core, jobs: map<nat, Job>, rid: RequestId, p: Pending)
    requires Conserved(c, jobs) && rid in c.pending && p.guard == c.pending[rid].guard
    ensures Conserved(c.(pending := c.pending[rid := p]), jobs)
  {
    forall g ensures Stored(c.pending[rid := p], g) == Stored(c.pending, g) {
      StoredSet(c.pending, rid, p, g);
    }
  }

  /** Removing a request gives back one guard of its generation, and there was one to give back. */
  lemma DropConserves(c: Core, jobs: map<nat, Job>, rid: RequestId)
    requires Conserved(c, jobs)
    ensures Conserved(Drop(c, rid), jobs)
    ensures rid in c.pending ==> CounterOf(c.mgr, c.pending[rid].guard) > 0
  {
    if rid in c.pending {
      OneLessStored(c.pending, rid, c.pending[rid].guard);
      forall g | g in c.mgr.counters ensures Drop(c, rid).mgr.counters[g] == Held(Drop(c, rid), jobs, g) {
        OneLessStored(c.pending, rid, g);
      }
    }
  }

  lemma OneLessStored(pending: map<RequestId, Pending>, rid: RequestId, g: nat)
    requires rid in pending
    ensures |Stored(pending, g)| == |Stored(pending - {rid}, g)| + if pending[rid].guard == g then 1 else 0
  {
    assert Stored(pending - {rid}, g) == Stored(pending, g) - {rid};
    assert rid in Stored(pending, g) <==> pending[rid].guard == g;
  }

  lemma {:induction false} DropAllConserves(c: Core, jobs: map<nat, Job>, rids: seq<RequestId>)
    requires Conserved(c, jobs)
    ensures Conserved(DropAll(c, rids), jobs)
    decreases |rids|
  {
    if rids != [] {
      DropConserves(c, jobs, rids[0]);
      DropAllConserves(Drop(c, rids[0]), jobs, rids[1..]);
    }
  }

  /** A handler that stops before storing its request gives its guard back, and there was one. */
  lemma EndJobConserves(c: Core, jobs: map<nat, Job>, j: nat)
    requires Conserved(c, jobs) && j in jobs && (jobs[j].Admitted? || jobs[j].Chained?)
    ensures Conserved(EndGuard(c, jobs[j].gen), jobs - {j})
    ensures CounterOf(c.mgr, jobs[j].gen) > 0
  {
    var next := EndGuard(c, jobs[j].gen);
    OneJobLess(jobs, j, jobs[j].gen);
    forall g | g in c.mgr.counters ensures next.mgr.counters[g] == Held(next, jobs - {j}, g) {
      OneJobLess(jobs, j, g);
    }
  }

  lemma OneJobLess(jobs: map<nat, Job>, j: nat, g: nat)
    requires j in jobs && (jobs[j].Admitted? || jobs[j].Chained?)
    ensures |Unstored(jobs, g)| == |Unstored(jobs - {j}, g)| + if jobs[j].gen == g then 1 else 0
  {
    UnstoredDel(jobs, j, g);
    assert j in Unstored(jobs, g) <==> jobs[j].gen == g;
  }

  lemma OneMoreUnstored(jobs: map<nat, Job>, j: nat, job: Job, g: nat)
    requires j !in jobs && (job.Admitted? || job.Chained?)
    ensures |Unstored(jobs[j := job], g)| == |Unstored(jobs, g)| + if job.gen == g then 1 else 0
  {
    UnstoredSet(jobs, j, job, g);
  }

  lemma OneLessUnstored(jobs: map<nat, Job>, j: nat, job: Job, g: nat)
    requires j in jobs && (jobs[j].Admitted? || jobs[j].Chained?) && !job.Admitted? && !job.Chained?
    ensures |Unstored(jobs[j := job], g)| == |Unstored(jobs, g)| - if jobs[j].gen == g then 1 else 0
  {
    UnstoredSet(jobs, j, job, g);
    assert jobs[j].gen == g ==> j in Unstored(jobs, g);
  }

  lemma OneMoreStored(pending: map<RequestId, Pending>, rid: RequestId, p: Pending, g: nat)
    requires rid !in pending
    ensures |Stored(pending[rid := p], g)| == |Stored(pending, g)| + if p.guard == g then 1 else 0
  {
    StoredSet(pending, rid, p, g);
  }

  lemma AdmitConserves(c: Core, jobs: map<nat, Job>, j: nat)
    requires Conserved(c, jobs) && j !in jobs && c.mgr.active.Some? && c.mgr.active.value.state == Active
    requires c.mgr.active.value.gen in c.mgr.counters
    requires CounterOf(c.mgr, c.mgr.active.value.gen) < U32 - 1
    ensures RequestStart(c.mgr).1 == Some(c.mgr.active.value.gen)
    ensures Conserved(c.(mgr := RequestStart(c.mgr).0), jobs[j := Admitted(c.mgr.active.value.gen)])
  {
    var gen := c.mgr.active.value.gen;
    var next := c.(mgr := RequestStart(c.mgr).0);
    forall g | g in next.mgr.counters
      ensures next.mgr.counters[g] == Held(next, jobs[j := Admitted(gen)], g)
    {
      OneMoreUnstored(jobs, j, Admitted(gen), g);
    }
  }

  lemma StoreConserves(c: Core, jobs: map<nat, Job>, j: nat, rid: RequestId, maxTokens: nat)
    requires Conserved(c, jobs) && j in jobs && jobs[j].Chained? && jobs[j].chain != [] && rid !in c.pending
    ensures Conserved(Insert(c, rid, jobs[j].chain, maxTokens, jobs[j].gen),
      jobs[j := Starting(rid, jobs[j].chain[0].nodeId, jobs[j].gen)])
  {
    var job := Starting(rid, jobs[j].chain[0].nodeId, jobs[j].gen);
    var next := Insert(c, rid, jobs[j].chain, maxTokens, jobs[j].gen);
    forall g | g in next.mgr.counters
      ensures next.mgr.counters[g] == Held(next, jobs[j := job], g)
    {
      OneMoreStored(c.pending, rid, next.pending[rid], g);
      OneLessUnstored(jobs, j, job, g);
    }
  }

  lemma ChainedConserves(c: Core, jobs: map<nat, Job>, j: nat, chain: seq<ChainStep>)
    requires Conserved(c, jobs) && j in jobs && jobs[j].Admitted?
    ensures Conserved(c, jobs[j := Chained(jobs[j].gen, chain)])
  {
    forall g ensures Unstored(jobs[j := Chained(jobs[j].gen, chain)], g) == Unstored(jobs, g) {
      UnstoredSet(jobs, j, Chained(jobs[j].gen, chain), g);
    }
  }

  /** New counters start at zero, and no guard of a generation exists before it is made. */
  lemma NewCounterConserves(c: Core, jobs: map<nat, Job>, m: Manager)
    requires Conserved(c, jobs) && c.mgr.nextGen !in c.mgr.counters && m.counters == c.mgr.counters[c.mgr.nextGen := 0]
    ensures Conserved(c.(mgr := m), jobs)
  {
    assert Stored(c.pending, c.mgr.nextGen) == {} && Unstored(jobs, c.mgr.nextGen) == {};
  }

  lemma SameCountersConserve(c: Core, jobs: map<nat, Job>, d: Core)
    requires Conserved(c, jobs) && d.mgr.counters == c.mgr.counters && d.pending == c.pending
    ensures Conserved(d, jobs)
  {
  }

  lemma OtherOpsKeepCounters(m: Manager, op: Op)
    requires !op.DoStart? && !op.DoEnd?
    ensures Apply(m, op).counters == if op.DoRebalance? && op.ids != [] then m.counters[m.nextGen := 0] else m.counters
  {
  }

  lemma ClusterConserves(c: Core, jobs: map<nat, Job>, op: Op)
    requires Conserved(c, jobs) && !op.DoStart? && !op.DoEnd? && c.mgr.nextGen !in c.mgr.counters
    ensures Conserved(c.(mgr := Apply(c.mgr, op)), jobs)
  {
    OtherOpsKeepCounters(c.mgr, op);
    if op.DoRebalance? && op.ids != [] {
      NewCounterConserves(c, jobs, Apply(c.mgr, op));
    } else {
      SameCountersConserve(c, jobs, c.(mgr := Apply(c.mgr, op)));
    }
  }

  /** The start-up fallback: the request could not be started and its entry has already gone. */
  predicate TakesFallback(s: Sys, st: Step) {
    st.Abort? && st.j in s.jobs && s.jobs[st.j].Aborting? && s.jobs[st.j].rid !in s.core.pending
  }

  /** The client goes while its handler is admitted and has not stored the request yet. */
  predicate LosesGuard(s: Sys, st: Step) {
    st.Vanish? && st.j in s.jobs && (s.jobs[st.j].Admitted? || s.jobs[st.j].Chained?)
  }

  /** The 32-bit counter has room for one more guard. */
  predicate Fits(s: Sys, st: Step) {
    st.Admit? && s.core.mgr.active.Some? ==> CounterOf(s.core.mgr, s.core.mgr.active.value.gen) < U32 - 1
  }

  ghost predicate Accounted(s: Sys) {
    && Inv(s.core.mgr)
    && Conserved(s.core, s.jobs)
    && (forall rid :: rid in s.core.pending ==> rid in s.used)
  }

  lemma TokenConserves(c: Core, jobs: map<nat, Job>, rid: RequestId, t: Token, eos: bool)
    requires Conserved(c, jobs)
    ensures Conserved(TakeToken(c, rid, t, eos).0, jobs)
  {
    if rid in c.pending {
      var p := Push(c.pending[rid], t);
      if Complete(p, eos) {
        DropConserves(c, jobs, rid);
        var dropped := Drop(c, rid);
        assert Conserved(dropped.(delivered := c.delivered[rid := p.generated]), jobs);
      } else {
        SameGuard(c, jobs, rid, Restart(p));
      }
    }
  }

  lemma SpawnConserves(s: Sys, core: Core, j: nat, send: Option<NodeId>, rid: RequestId, left: nat)
    requires Conserved(core, s.jobs) && NewJob(s, j)
    ensures Conserved(core, Spawn(s, core, j, send, rid, left).jobs)
  {
    if send.Some? {
      PlainJob(core, s.jobs, j, Sending(rid, send.value, left));
    }
  }

  /** Sections that leave the job table alone or only replace plain jobs. */
  lemma PlainStepConserves(s: Sys, st: Step)
    requires Conserved(s.core, s.jobs) && Enabled(s, st)
    requires st.Connect? || st.DoRegister? || st.Report? || st.Sent? || st.SendFails? || st.ResultArrives?
          || (st.Vanish? && !LosesGuard(s, st))
          || st.SocketCloses? || st.RemoveNode?
    ensures Conserved(Next(s, st).core, Next(s, st).jobs)
  {
    var next := Next(s, st);
    if st.DoRegister? || st.Report? {
      SameCountersConserve(s.core, s.jobs, next.core);
    } else if !st.Connect? {
      PlainJob(s.core, s.jobs, st.j, if st.j in next.jobs then next.jobs[st.j] else s.jobs[st.j]);
      SameCountersConserve(s.core, next.jobs, next.core);
    }
  }

  lemma ReplyStepConserves(s: Sys, st: Step)
    requires Conserved(s.core, s.jobs) && Enabled(s, st) && (st.HiddenBack? || st.TokenBack?)
    ensures Conserved(Next(s, st).core, Next(s, st).jobs)
  {
    match st
    case HiddenBack(rid, j) =>
      if rid in s.core.pending {
        SameGuard(s.core, s.jobs, rid, Advance(s.core.pending[rid]));
      }
      SpawnConserves(s, Route(s.core, rid).0, j, Route(s.core, rid).1, rid, 2);
    case TokenBack(rid, t, eos, j) =>
      TokenConserves(s.core, s.jobs, rid, t, eos);
      SpawnConserves(s, TakeToken(s.core, rid, t, eos).0, j, TakeToken(s.core, rid, t, eos).1, rid, 1);
  }

  lemma DropStepConserves(s: Sys, st: Step)
    requires Conserved(s.core, s.jobs) && Enabled(s, st) && !TakesFallback(s, st)
    requires st.Fail? || st.Abort? || st.GiveUp? || st.FailWaiting?
    ensures Conserved(Next(s, st).core, Next(s, st).jobs)
  {
    if st.FailWaiting? {
      DropAllConserves(s.core, s.jobs, st.order);
      PlainJob(DropAll(s.core, st.order), s.jobs, st.j, s.jobs[st.j]);
    } else {
      DropJobConserves(s.core, s.jobs, st.j, s.jobs[st.j].rid);
    }
  }

  lemma GuardStepConserves(s: Sys, st: Step)
    requires Accounted(s) && Enabled(s, st) && Fits(s, st)
    requires st.Admit? || st.MakeChain? || st.TokenizeFails? || st.Store? || st.Cluster?
    ensures Conserved(Next(s, st).core, Next(s, st).jobs)
  {
    match st
    case Cluster(op) => ClusterConserves(s.core, s.jobs, op);
    case Admit(j) =>
      if s.core.mgr.active.Some? {
        AdmitConserves(s.core, s.jobs, j);
      }
    case MakeChain(j) =>
      EndJobConserves(s.core, s.jobs, j);
      ChainedConserves(s.core, s.jobs, j, BuildChain(s.core));
    case TokenizeFails(j) => EndJobConserves(s.core, s.jobs, j);
    case Store(j, rid, maxTokens) => StoreConserves(s.core, s.jobs, j, rid, maxTokens);
  }

  /** The manager's invariant survives every step, the fallback included. */
  lemma StepKeepsManager(s: Sys, st: Step)
    requires Inv(s.core.mgr) && GuardsMade(s.core, s.jobs) && Enabled(s, st)
    ensures Inv(Next(s, st).core.mgr)
  {
    match st
    case Cluster(op) => ApplyKeepsInv(s.core.mgr, op);
    case Admit(j) => ApplyKeepsInv(s.core.mgr, DoStart);
    case MakeChain(j) => EndKeepsManager(s, st);
    case TokenizeFails(j) => EndKeepsManager(s, st);
    case Fail(j) => DropKeepsManager(s.core, s.jobs[j].rid);
    case Abort(j) => AbortKeepsManager(s, j);
    case GiveUp(j) => DropKeepsManager(s.core, s.jobs[j].rid);
    case TokenBack(rid, t, eos, j) => DropKeepsManager(s.core, rid);
    case FailWaiting(j, order) => DropAllKeepsManager(s.core, order);
    case _ =>
  }

  lemma EndKeepsManager(s: Sys, st: Step)
    requires Inv(s.core.mgr) && GuardsMade(s.core, s.jobs) && Enabled(s, st) && (st.MakeChain? || st.TokenizeFails?)
    ensures Inv(Next(s, st).core.mgr)
  {
    ApplyKeepsInv(s.core.mgr, DoEnd(s.jobs[st.j].gen));
  }

  lemma AbortKeepsManager(s: Sys, j: nat)
    requires Inv(s.core.mgr) && GuardsMade(s.core, s.jobs) && Enabled(s, Abort(j))
    ensures Inv(Next(s, Abort(j)).core.mgr)
  {
    ApplyKeepsInv(s.core.mgr, DoEnd(s.jobs[j].gen));
    DropKeepsManager(s.core, s.jobs[j].rid);
  }

  lemma DropKeepsManager(c: Core, rid: RequestId)
    requires Inv(c.mgr) && forall r :: r in c.pending ==> c.pending[r].guard in c.mgr.counters
    ensures Inv(Drop(c, rid).mgr) && forall r :: r in Drop(c, rid).pending ==>
      Drop(c, rid).pending[r].guard in Drop(c, rid).mgr.counters
  {
    if rid in c.pending {
      ApplyKeepsInv(c.mgr, DoEnd(c.pending[rid].guard));
    }
  }

  lemma {:induction false} DropAllKeepsManager(c: Core, rids: seq<RequestId>)
    requires Inv(c.mgr) && forall r :: r in c.pending ==> c.pending[r].guard in c.mgr.counters
    ensures Inv(DropAll(c, rids).mgr)
    decreases |rids|
  {
    if rids != [] {
      DropKeepsManager(c, rids[0]);
      DropAllKeepsManager(Drop(c, rids[0]), rids[1..]);
    }
  }

  lemma StepKeepsUsed(s: Sys, st: Step)
    requires Enabled(s, st) && forall rid :: rid in s.core.pending ==> rid in s.used
    ensures forall rid :: rid in Next(s, st).core.pending ==> rid in Next(s, st).used
  {
    if st.FailWaiting? {
      DropAllPending(s.core, st.order);
    }
  }

  /** Not the fallback, no guard lost with a client, no counter overflow. */
  predicate IsRegular(s: Sys, st: Step) { !TakesFallback(s, st) && !LosesGuard(s, st) && Fits(s, st) }

  /** Every such step keeps the accounts. */
  lemma StepConserves(s: Sys, st: Step)
    requires Accounted(s) && Enabled(s, st) && IsRegular(s, st)
    ensures Accounted(Next(s, st))
  {
    StepKeepsManager(s, st);
    StepKeepsUsed(s, st);
    if st.HiddenBack? || st.TokenBack? {
      ReplyStepConserves(s, st);
    } else if st.Fail? || st.Abort? || st.GiveUp? || st.FailWaiting? {
      DropStepConserves(s, st);
    } else if st.Admit? || st.MakeChain? || st.TokenizeFails? || st.Store? || st.Cluster? {
      GuardStepConserves(s, st);
    } else {
      PlainStepConserves(s, st);
    }
  }

  lemma DropJobConserves(c: Core, jobs: map<nat, Job>, j: nat, rid: RequestId)
    requires Conserved(c, jobs) && j in jobs && !jobs[j].Admitted? && !jobs[j].Chained?
    ensures Conserved(Drop(c, rid), jobs - {j})
  {
    DropConserves(c, jobs, rid);
    PlainJob(Drop(c, rid), jobs, j, jobs[j]);
  }

  lemma {:induction false} DropAllPending(c: Core, rids: seq<RequestId>)
    ensures DropAll(c, rids).pending == c.pending - set rid | rid in rids
    decreases |rids|
  {
    if rids == [] {
      assert c.pending == c.pending - (set rid: RequestId | rid in []);
    } else {
      DropAllPending(Drop(c, rids[0]), rids[1..]);
      assert rids == [rids[0]] + rids[1..];
    }
  }

  // ---- runs ----

  ghost predicate Regular(states: seq<Sys>, steps: seq<Step>)
    requires |states| == |steps| + 1
  {
    forall k :: 0 <= k < |steps| ==> IsRegular(states[k], steps[k])
  }

  /** In every regular run, the counter of every generation ever made equals the number of
      requests and admitted handlers that hold its guard; so every guard is given back exactly once. */
  lemma {:induction false} GuardsConserved(states: seq<Sys>, steps: seq<Step>)
    requires IsRun(states, steps) && Regular(states, steps)
    ensures forall k :: 0 <= k < |states| ==> Accounted(states[k])
  {
    var last := |steps| - 1;
    if steps != [] {
      assert states[..|steps|][last] == states[last];
      GuardsConserved(states[..|steps|], steps[..last]);
      StepConserves(states[last], steps[last]);
      forall k | 0 <= k < |states| ensures Accounted(states[k]) {
        assert k < |steps| ==> states[k] == states[..|steps|][k];
      }
    } else {
      assert Stored(map[], 0) == {} && Unstored(map[], 0) == {};
    }
  }

  // ---- releases ----

  /** The generations whose guards a step gives back, in order. */
  function Released(s: Sys, st: Step): seq<nat> {
    match st
    case MakeChain(j) =>
      if j in s.jobs && s.jobs[j].Admitted? && BuildChain(s.core) == [] then [s.jobs[j].gen] else []
    case TokenizeFails(j) => if j in s.jobs && s.jobs[j].Chained? then [s.jobs[j].gen] else []
    case Fail(j) => if j in s.jobs && s.jobs[j].Failing? then Dropped(s.core, [s.jobs[j].rid]) else []
    case GiveUp(j) => if j in s.jobs && s.jobs[j].Waiting? then Dropped(s.core, [s.jobs[j].rid]) else []
    case Abort(j) =>
      if j !in s.jobs || !s.jobs[j].Aborting? then []
      else if s.jobs[j].rid in s.core.pending then Dropped(s.core, [s.jobs[j].rid]) else [s.jobs[j].gen]
    case TokenBack(rid, t, eos, j) =>
      if rid in s.core.pending && Complete(Push(s.core.pending[rid], t), eos) then Dropped(s.core, [rid]) else []
    case FailWaiting(j, order) => Dropped(s.core, order)
    case _ => []
  }

  /** The guards that dropping the requests one after the other gives back. */
  function Dropped(c: Core, rids: seq<RequestId>): seq<nat>
    decreases |rids|
  {
    if rids == [] then []
    else (if rids[0] in c.pending then [c.pending[rids[0]].guard] else []) + Dropped(Drop(c, rids[0]), rids[1..])
  }

  function EndAll(m: Manager, gens: seq<nat>): Manager {
    if gens == [] then m else RequestEnd(EndAll(m, gens[..|gens| - 1]), gens[|gens| - 1])
  }

  lemma {:induction false} EndOneMore(m: Manager, gen: nat, gens: seq<nat>)
    ensures EndAll(m, [gen] + gens) == EndAll(RequestEnd(m, gen), gens)
  {
    var all := [gen] + gens;
    if gens == [] {
      assert all == [gen] && all[..0] == [];
    } else {
      EndOneMore(m, gen, gens[..|gens| - 1]);
      assert all[..|all| - 1] == [gen] + gens[..|gens| - 1];
    }
  }

  lemma {:induction false} DropAllEnds(c: Core, rids: seq<RequestId>)
    ensures DropAll(c, rids).mgr == EndAll(c.mgr, Dropped(c, rids))
    decreases |rids|
  {
    if rids != [] {
      DropAllEnds(Drop(c, rids[0]), rids[1..]);
      if rids[0] in c.pending {
        EndOneMore(c.mgr, c.pending[rids[0]].guard, Dropped(Drop(c, rids[0]), rids[1..]));
      } else {
        assert Dropped(c, rids) == Dropped(Drop(c, rids[0]), rids[1..]);
      }
    }
  }

  lemma DropIsAll(c: Core, rid: RequestId)
    ensures DropAll(c, [rid]) == Drop(c, rid)
  {
    assert [rid][1..] == [];
  }

  lemma EndOne(m: Manager, gen: nat)
    ensures EndAll(m, [gen]) == RequestEnd(m, gen)
  {
    assert [gen][..0] == [];
  }

  /** Nothing else touches the counters: apart from admissions and the cluster's own operations, a step
      does to the manager what giving back these guards does. */
  lemma ReleasedIsAll(s: Sys, st: Step)
    requires Enabled(s, st) && !st.Cluster? && !st.Admit?
    ensures Next(s, st).core.mgr == EndAll(s.core.mgr, Released(s, st))
  {
    match st
    case MakeChain(j) => EndOne(s.core.mgr, s.jobs[j].gen);
    case TokenizeFails(j) => EndOne(s.core.mgr, s.jobs[j].gen);
    case Abort(j) =>
      EndOne(s.core.mgr, s.jobs[j].gen);
      DropReleases(s.core, s.jobs[j].rid);
    case Fail(j) => DropReleases(s.core, s.jobs[j].rid);
    case GiveUp(j) => DropReleases(s.core, s.jobs[j].rid);
    case TokenBack(rid, t, eos, j) => DropReleases(s.core, rid);
    case FailWaiting(j, order) => DropAllEnds(s.core, order);
    case _ =>
  }

  lemma DropReleases(c: Core, rid: RequestId)
    ensures Drop(c, rid).mgr == EndAll(c.mgr, Dropped(c, [rid]))
  {
    DropAllEnds(c, [rid]);
    DropIsAll(c, rid);
  }

  /** Dropping several requests in a row finds a positive counter each time. */
  lemma {:induction false} DroppedFinds(c: Core, jobs: map<nat, Job>, rids: seq<RequestId>, k: nat)
    requires Conserved(c, jobs) && k < |Dropped(c, rids)|
    ensures CounterOf(EndAll(c.mgr, Dropped(c, rids)[..k]), Dropped(c, rids)[k]) > 0
    decreases |rids|
  {
    DropConserves(c, jobs, rids[0]);
    var rest := Dropped(Drop(c, rids[0]), rids[1..]);
    if rids[0] !in c.pending {
      assert Dropped(c, rids) == rest;
      DroppedFinds(c, jobs, rids[1..], k);
    } else if k > 0 {
      var gen := c.pending[rids[0]].guard;
      DroppedFinds(Drop(c, rids[0]), jobs, rids[1..], k - 1);
      assert Dropped(c, rids)[..k] == [gen] + rest[..k - 1];
      EndOneMore(c.mgr, gen, rest[..k - 1]);
    }
  }

  /** What gives a guard back finds a positive counter, every time within a step that gives back several. */
  lemma ReleaseFindsGuard(s: Sys, st: Step, k: nat)
    requires Accounted(s) && Enabled(s, st) && !TakesFallback(s, st) && k < |Released(s, st)|
    ensures CounterOf(EndAll(s.core.mgr, Released(s, st)[..k]), Released(s, st)[k]) > 0
  {
    match st
    case MakeChain(j) => EndJobConserves(s.core, s.jobs, j);
    case TokenizeFails(j) => EndJobConserves(s.core, s.jobs, j);
    case Fail(j) => DroppedFinds(s.core, s.jobs, [s.jobs[j].rid], k);
    case Abort(j) => DroppedFinds(s.core, s.jobs, [s.jobs[j].rid], k);
    case GiveUp(j) => DroppedFinds(s.core, s.jobs, [s.jobs[j].rid], k);
    case TokenBack(rid, t, eos, j) => DroppedFinds(s.core, s.jobs, [rid], k);
    case FailWaiting(j, order) => DroppedFinds(s.core, s.jobs, order, k);
    case _ =>
  }

  /** So no step of a regular run reaches the underflow branch of `request_end`. */
  lemma UnderflowUnreachable(states: seq<Sys>, steps: seq<Step>, i: nat, k: nat)
    requires IsRun(states, steps) && Regular(states, steps)
    requires i < |steps| && k < |Released(states[i], steps[i])|
    ensures var gens := Released(states[i], steps[i]); CounterOf(EndAll(states[i].core.mgr, gens[..k]), gens[k]) > 0
  {
    GuardsConserved(states, steps);
    assert IsRegular(states[i], steps[i]);
    ReleaseFindsGuard(states[i], steps[i], k);
  }

  // ---- the exceptions ----

  /** The fallback gives a guard back that its request no longer holds. The accounts survive it if and
      only if nobody holds a guard of that generation, when the underflow repair swallows the mistake. */
  lemma FallbackExactly(s: Sys, st: Step)
    requires Accounted(s) && Enabled(s, st) && TakesFallback(s, st)
    ensures Accounted(Next(s, st)) <==> Held(s.core, s.jobs, s.jobs[st.j].gen) == 0
  {
    var gen := s.jobs[st.j].gen;
    PlainJob(s.core, s.jobs, st.j, s.jobs[st.j]);
    StepKeepsManager(s, st);
    var next := Next(s, st);
    assert next.jobs == s.jobs - {st.j} && next.core.pending == s.core.pending;
    assert Held(next.core, next.jobs, gen) == Held(s.core, s.jobs - {st.j}, gen) == CounterOf(s.core.mgr, gen);
    if CounterOf(s.core.mgr, gen) == 0 {
      assert next.core.mgr.counters == s.core.mgr.counters;
    } else {
      assert next.core.mgr.counters[gen] != Held(next.core, next.jobs, gen);
    }
  }

  /** A client that disconnects takes its handler with it, wherever that is waiting. The accounts survive
      if and only if the handler had not been admitted without storing its request yet: such a guard is
      never given back. */
  lemma VanishedHandlerExactly(s: Sys, j: nat)
    requires Accounted(s) && Enabled(s, Vanish(j))
    ensures Accounted(Next(s, Vanish(j))) <==> !LosesGuard(s, Vanish(j))
  {
    if s.jobs[j].Admitted? || s.jobs[j].Chained? {
      var gen := s.jobs[j].gen;
      UnstoredDel(s.jobs, j, gen);
      assert j in Unstored(s.jobs, gen);
      assert Held(s.core, s.jobs - {j}, gen) == CounterOf(s.core.mgr, gen) - 1;
    } else {
      PlainJob(s.core, s.jobs, j, s.jobs[j]);
    }
  }

  /** One admission too many wraps the 32-bit counter to zero: admission keeps the accounts if and only
      if there is room. */
  lemma AdmissionExactly(s: Sys, j: nat)
    requires Accounted(s) && NewJob(s, j)
    ensures Accounted(Next(s, Admit(j))) <==> Fits(s, Admit(j))
  {
    if Fits(s, Admit(j)) {
      StepConserves(s, Admit(j));
    } else {
      var gen := s.core.mgr.active.value.gen;
      OneMoreUnstored(s.jobs, j, Admitted(gen), gen);
      var next := Next(s, Admit(j));
      assert next.core.mgr.counters[gen] == 0 && Held(next.core, next.jobs, gen) == U32;
    }
  }
}
