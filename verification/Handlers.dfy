/** The coordinator's handlers as they interleave. A handler gives up its locks between critical
    sections; what it still has to do is recorded as a job, and any job may take the next step. */
module Handlers {
  import opened Wrappers
  import opened ServingClusters
  import opened Coordinator

  datatype Job =
    | Admitted(gen: nat)                                      // guard taken, chain not built yet
    | Chained(gen: nat, chain: seq<ChainStep>)                // tokenizing the prompt
    | Starting(rid: RequestId, target: NodeId, gen: nat)      // stored, InferenceStart not sent yet
    | Aborting(rid: RequestId, gen: nat)                      // InferenceStart could not be sent
    | Waiting(rid: RequestId)                                 // for the result, at most two minutes
    | Sending(rid: RequestId, target: NodeId, left: nat)      // messages still to send to the next hop
    | Failing(rid: RequestId)                                 // a send failed
    | Closing(node: NodeId, removed: bool)                    // socket gone: out of the node map yet?

  datatype Sys = Sys(core: Core, sockets: set<NodeId>, jobs: map<nat, Job>, used: set<RequestId>)

  const IDLE := Sys(Core(ServingClusters.FRESH, map[], map[], map[]), {}, map[], {})

  datatype Step =
    | Connect(n: NodeId)
    | DoRegister(n: NodeId, name: nat, gpu: bool)
    | Report(n: NodeId, ready: bool)
    | Cluster(op: Op)
    | Admit(j: nat)
    | MakeChain(j: nat)
    | TokenizeFails(j: nat)
    | Store(j: nat, rid: RequestId, maxTokens: nat)
    | Sent(j: nat)
    | SendFails(j: nat)
    | Fail(j: nat)
    | Abort(j: nat)
    | GiveUp(j: nat)                       // timeout or closed channel
    | ResultArrives(j: nat)
    | Vanish(j: nat)                       // the client disconnects and its handler is dropped
    | HiddenBack(rid: RequestId, j: nat)
    | TokenBack(rid: RequestId, t: Token, eos: bool, j: nat)
    | SocketCloses(n: NodeId, j: nat)
    | RemoveNode(j: nat)
    | FailWaiting(j: nat, order: seq<RequestId>)

  /** The handler of an inference request, which lives only as long as its client waits. */
  predicate ServesClient(job: Job) {
    job.Admitted? || job.Chained? || job.Starting? || job.Aborting? || job.Waiting?
  }

  predicate NewJob(s: Sys, j: nat) { j !in s.jobs }

  ghost predicate Lists(order: seq<RequestId>, rids: set<RequestId>) {
    && (forall i, k :: 0 <= i < k < |order| ==> order[i] != order[k])
    && (forall rid :: rid in order <==> rid in rids)
  }

  ghost predicate Enabled(s: Sys, st: Step) {
    match st
    case Connect(n) => n !in s.sockets
    case DoRegister(n, name, gpu) => n in s.sockets
    case Report(n, ready) => true
    case Cluster(op) => (op.DoRebalance? ==> DistinctIds(op.ids)) && !op.DoStart? && !op.DoEnd?
    case Admit(j) => NewJob(s, j)
    case MakeChain(j) => j in s.jobs && s.jobs[j].Admitted?
    case TokenizeFails(j) => j in s.jobs && s.jobs[j].Chained?
    case Store(j, rid, maxTokens) => j in s.jobs && s.jobs[j].Chained? && s.jobs[j].chain != [] && rid !in s.used
    case Sent(j) => j in s.jobs && (s.jobs[j].Starting? || s.jobs[j].Sending?) && s.jobs[j].target in s.core.nodes
    case SendFails(j) => j in s.jobs && (s.jobs[j].Starting? || s.jobs[j].Sending?)
    case Fail(j) => j in s.jobs && s.jobs[j].Failing?
    case Abort(j) => j in s.jobs && s.jobs[j].Aborting?
    case GiveUp(j) => j in s.jobs && s.jobs[j].Waiting?
    case Vanish(j) => j in s.jobs && ServesClient(s.jobs[j])
    case ResultArrives(j) => j in s.jobs && s.jobs[j].Waiting? && s.jobs[j].rid in s.core.delivered
    case HiddenBack(rid, j) => NewJob(s, j)
    case TokenBack(rid, t, eos, j) => NewJob(s, j)
    case SocketCloses(n, j) => n in s.sockets && NewJob(s, j)
    case RemoveNode(j) => j in s.jobs && s.jobs[j].Closing? && !s.jobs[j].removed
    case FailWaiting(j, order) =>
      && j in s.jobs && s.jobs[j].Closing? && s.jobs[j].removed
      && Lists(order, WaitingOn(s.core, s.jobs[j].node))
  }

  function EndGuard(c: Core, gen: nat): Core { c.(mgr := RequestEnd(c.mgr, gen)) }

  /** The stored entry of a request that could not be started is dropped; if it has gone already, the
      guard is given back all the same. */
  function AbortStart(c: Core, rid: RequestId, gen: nat): Core {
    if rid in c.pending then Drop(c, rid) else EndGuard(c, gen)
  }

  function Spawn(s: Sys, core: Core, j: nat, send: Option<NodeId>, rid: RequestId, left: nat): Sys {
    s.(core := core, jobs := if send.Some? then s.jobs[j := Sending(rid, send.value, left)] else s.jobs)
  }

  ghost function Next(s: Sys, st: Step): Sys
    requires Enabled(s, st)
  {
    match st
    case Connect(n) => s.(sockets := s.sockets + {n})
    case DoRegister(n, name, gpu) => s.(core := Register(s.core, n, name, gpu))
    case Report(n, ready) => s.(core := SetState(s.core, n, ready))
    case Cluster(op) => s.(core := s.core.(mgr := Apply(s.core.mgr, op)))
    case Admit(j) =>
      var (mgr, gen) := RequestStart(s.core.mgr);
      if gen.None? then s else s.(core := s.core.(mgr := mgr), jobs := s.jobs[j := Admitted(gen.value)])
    case MakeChain(j) =>
      var gen, chain := s.jobs[j].gen, BuildChain(s.core);
      if chain == [] then s.(core := EndGuard(s.core, gen), jobs := s.jobs - {j})
      else s.(jobs := s.jobs[j := Chained(gen, chain)])
    case TokenizeFails(j) => s.(core := EndGuard(s.core, s.jobs[j].gen), jobs := s.jobs - {j})
    case Store(j, rid, maxTokens) =>
      var gen, chain := s.jobs[j].gen, s.jobs[j].chain;
      s.(core := Insert(s.core, rid, chain, maxTokens, gen),
         jobs := s.jobs[j := Starting(rid, chain[0].nodeId, gen)], used := s.used + {rid})
    case Sent(j) =>
      var job := s.jobs[j];
      if job.Starting? then s.(jobs := s.jobs[j := Waiting(job.rid)])
      else if job.left > 1 then s.(jobs := s.jobs[j := job.(left := job.left - 1)])
      else s.(jobs := s.jobs - {j})
    case SendFails(j) =>
      var job := s.jobs[j];
      s.(jobs := s.jobs[j := if job.Starting? then Aborting(job.rid, job.gen) else Failing(job.rid)])
    case Fail(j) => s.(core := Drop(s.core, s.jobs[j].rid), jobs := s.jobs - {j})
    case Abort(j) => s.(core := AbortStart(s.core, s.jobs[j].rid, s.jobs[j].gen), jobs := s.jobs - {j})
    case GiveUp(j) => s.(core := Drop(s.core, s.jobs[j].rid), jobs := s.jobs - {j})
    case Vanish(j) => s.(jobs := s.jobs - {j})
    case ResultArrives(j) => s.(jobs := s.jobs - {j})
    case HiddenBack(rid, j) =>
      var (core, send) := Route(s.core, rid);
      Spawn(s, core, j, send, rid, 2)
    case TokenBack(rid, t, eos, j) =>
      var (core, send) := TakeToken(s.core, rid, t, eos);
      Spawn(s, core, j, send, rid, 1)
    case SocketCloses(n, j) => s.(sockets := s.sockets - {n}, jobs := s.jobs[j := Closing(n, false)])
    case RemoveNode(j) =>
      var n := s.jobs[j].node;
      s.(core := s.core.(nodes := s.core.nodes - {n}), jobs := s.jobs[j := Closing(n, true)])
    case FailWaiting(j, order) => s.(core := DropAll(s.core, order), jobs := s.jobs - {j})
  }

  /** A run: the states between steps that were enabled, from the idle coordinator on. */
  ghost predicate IsRun(states: seq<Sys>, steps: seq<Step>) {
    && |states| == |steps| + 1
    && states[0] == IDLE
    && forall k :: 0 <= k < |steps| ==> Enabled(states[k], steps[k]) && states[k + 1] == Next(states[k], steps[k])
  }
}
