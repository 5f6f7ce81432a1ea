/** Runs of the coordinator in which something is lost: the start-up fallback gives back the guard of
    another request, a client that disconnects takes a guard with it, or leaves a request stranded. */
module FallbackRun {
  import opened Wrappers
  import opened ServingClusters
  import opened ClusterRouting
  import opened Coordinator
  import opened Handlers
  import opened Conservation
  import opened SocketSafety

  const NODE := NodeId(0)
  const RID := RequestId(0)
  const CHAIN := [ChainStep(NODE, 0, 28, true)]

  function Slots(st: InfraState): seq<NodeSlot> { [NodeSlot(NODE, 0, 28, st)] }

  function Serving(count: nat): Manager {
    Manager(2, Some(Generation(1, Slots(InCluster), Active)), None, None, map[1 := count])
  }

  function Nodes(ready: bool): map<NodeId, WsNode> { map[NODE := WsNode(0, true, ready)] }

  function At(count: nat, nodes: map<NodeId, WsNode>, pending: map<RequestId, Pending>): Core {
    Core(Serving(count), nodes, pending, map[])
  }

  lemma FormsCluster()
    ensures Rebalance(ServingClusters.FRESH, [NODE]).0
      == Manager(2, None, Some(Generation(1, Slots(Reinitializing), Forming)), None, map[1 := 0])
  {
    assert SplitFrom([NODE], 1, 28) == [];
    assert Split([NODE]) == Slots(Reinitializing);
    assert Marked(map[], Slots(Reinitializing)) == Slots(Reinitializing);
    assert Slots(Reinitializing)[0].infraState != InCluster;
  }

  lemma Promotes()
    ensures NodeReady(Rebalance(ServingClusters.FRESH, [NODE]).0, NODE).0 == Serving(0)
  {
    FormsCluster();
    var g := Some(Generation(1, Slots(Reinitializing), Forming));
    assert g.value.slots[0].nodeId == NODE;
    assert Holds(g, NODE);
    assert SetFirst(Slots(Reinitializing), NODE, InCluster) == Slots(InCluster);
  }

  const READY := [ActiveSlot(NODE, 0, 28, 1)]

  lemma Routes(count: nat)
    ensures ActiveSlots(Serving(count)) == READY
  {
    assert ReadySlots(Slots(InCluster)[1..], 1) == [];
    assert ReadySlots(Slots(InCluster), 1) == READY;
    assert READY[..0] == [] && SortByStart(READY[..0]) == [];
    assert SortByStart(READY) == READY;
  }

  lemma ChainsReady()
    ensures ChainOf(READY, Nodes(true)) == Some(CHAIN)
    ensures Covered(READY, 0) == Some(28)
  {
    assert READY[1..] == [] && ChainOf(READY[1..], Nodes(true)) == Some([]);
    var hop := ChainStep(NODE, 0, 28, MarkedLast(READY[0]));
    assert ChainOf(READY, Nodes(true)) == Some([hop] + []);
    assert [hop] + [] == CHAIN;
    assert Covered(READY[1..], 28) == Some(28);
  }

  lemma BuildsChain(count: nat)
    ensures BuildChain(At(count, Nodes(true), map[])) == CHAIN
  {
    Routes(count);
    ChainsReady();
  }

  ghost predicate Leads(s: Sys, st: Step, t: Sys) { Enabled(s, st) && Next(s, st) == t }

  const P: Pending := Forward(CHAIN, 0, [], 1, 1)
  const FIRST := Admitted(1)
  const START := Starting(RID, NODE, 1)

  const S1 := IDLE.(sockets := {NODE})
  const S2 := S1.(core := S1.core.(nodes := Nodes(false)))
  const S3 := S1.(core := S1.core.(nodes := Nodes(true)))
  const S4 := S3.(core := S3.core.(mgr := Rebalance(ServingClusters.FRESH, [NODE]).0))
  const S5 := Sys(At(0, Nodes(true), map[]), {NODE}, map[], {})
  const S6 := Sys(At(1, Nodes(true), map[]), {NODE}, map[1 := FIRST], {})
  const S7 := Sys(At(2, Nodes(true), map[]), {NODE}, map[1 := FIRST, 2 := Admitted(1)], {})
  const S8 := Sys(At(2, Nodes(true), map[]), {NODE}, map[1 := FIRST, 2 := Chained(1, CHAIN)], {})
  const S9 := Sys(At(2, Nodes(true), map[RID := P]), {NODE}, map[1 := FIRST, 2 := START], {RID})
  const S10 := Sys(At(2, Nodes(true), map[RID := P]), {}, map[1 := FIRST, 2 := START, 3 := Closing(NODE, false)], {RID})
  const S11 := Sys(At(2, map[], map[RID := P]), {}, map[1 := FIRST, 2 := START, 3 := Closing(NODE, true)], {RID})
  const S12 := Sys(At(1, map[], map[]), {}, map[1 := FIRST, 2 := START], {RID})
  const S13 := Sys(At(1, map[], map[]), {}, map[1 := FIRST, 2 := Aborting(RID, 1)], {RID})
  const S14 := Sys(At(0, map[], map[]), {}, map[1 := FIRST], {RID})

  lemma ClusterForms()
    ensures Leads(IDLE, Connect(NODE), S1) && Leads(S1, DoRegister(NODE, 0, true), S2)
    ensures Leads(S2, Report(NODE, true), S3)
    ensures Leads(S3, Cluster(DoRebalance([NODE])), S4) && Leads(S4, Cluster(DoReady(NODE)), S5)
  {
    Promotes();
    assert Next(IDLE, Connect(NODE)).sockets == {NODE};
    assert Register(S1.core, NODE, 0, true).nodes == Nodes(false);
    assert SetState(S2.core, NODE, true).nodes == Nodes(true);
  }

  lemma RequestsEnter()
    ensures Leads(S5, Admit(1), S6) && Leads(S6, Admit(2), S7) && Leads(S7, MakeChain(2), S8)
    ensures Leads(S8, Store(2, RID, 1), S9)
  {
    BuildsChain(2);
    assert Next(S5, Admit(1)) == S6;
    assert Next(S6, Admit(2)) == S7;
    assert Next(S7, MakeChain(2)) == S8;
    assert Next(S8, Store(2, RID, 1)) == S9;
  }

  lemma NodeGoes()
    ensures Leads(S9, SocketCloses(NODE, 3), S10) && Leads(S10, RemoveNode(3), S11)
  {
    assert Next(S9, SocketCloses(NODE, 3)) == S10;
    assert Next(S10, RemoveNode(3)) == S11;
  }

  lemma RequestFails()
    ensures Leads(S11, FailWaiting(3, [RID]), S12)
  {
    assert WaitingOn(S11.core, NODE) == {RID};
    assert DropAll(S11.core, [RID]) == Drop(S11.core, RID);
    assert Next(S11, FailWaiting(3, [RID])) == S12;
  }

  lemma StartFails()
    ensures Leads(S12, SendFails(2), S13) && Leads(S13, Abort(2), S14) && TakesFallback(S13, Abort(2))
    ensures CounterOf(S14.core.mgr, 1) == 0 && Held(S14.core, S14.jobs, 1) == 1
  {
    assert Next(S12, SendFails(2)) == S13;
    assert Next(S13, Abort(2)) == S14;
    assert Stored(S14.core.pending, 1) == {};
    assert Unstored(S14.jobs, 1) == {1};
  }

  lemma Extend(states: seq<Sys>, steps: seq<Step>, st: Step, t: Sys) returns (states': seq<Sys>, steps': seq<Step>)
    requires IsRun(states, steps) && Leads(states[|steps|], st, t)
    ensures states' == states + [t] && steps' == steps + [st]
    ensures IsRun(states', steps') && states'[|steps'|] == t && states'[|steps|] == states[|steps|]
    ensures steps'[|steps|] == st
  {
    states', steps' := states + [t], steps + [st];
    forall k | 0 <= k < |steps'| ensures Leads(states'[k], steps'[k], states'[k + 1]) {
      StepOf(states, steps, st, t, k);
    }
  }

  lemma StepOf(states: seq<Sys>, steps: seq<Step>, st: Step, t: Sys, k: nat)
    requires IsRun(states, steps) && Leads(states[|steps|], st, t) && k <= |steps|
    ensures Leads((states + [t])[k], (steps + [st])[k], (states + [t])[k + 1])
  {
  }

  lemma RunServes() returns (states: seq<Sys>, steps: seq<Step>)
    ensures IsRun(states, steps) && states[|steps|] == S5
  {
    ClusterForms();
    states, steps := [IDLE], [];
    states, steps := Extend(states, steps, Connect(NODE), S1);
    states, steps := Extend(states, steps, DoRegister(NODE, 0, true), S2);
    states, steps := Extend(states, steps, Report(NODE, true), S3);
    states, steps := Extend(states, steps, Cluster(DoRebalance([NODE])), S4);
    states, steps := Extend(states, steps, Cluster(DoReady(NODE)), S5);
  }

  lemma RunChooses() returns (states: seq<Sys>, steps: seq<Step>)
    ensures IsRun(states, steps) && states[|steps|] == S8
  {
    RequestsEnter();
    states, steps := RunServes();
    states, steps := Extend(states, steps, Admit(1), S6);
    states, steps := Extend(states, steps, Admit(2), S7);
    states, steps := Extend(states, steps, MakeChain(2), S8);
  }

  lemma RunStores() returns (states: seq<Sys>, steps: seq<Step>)
    ensures IsRun(states, steps) && states[|steps|] == S9
  {
    RequestsEnter();
    states, steps := RunChooses();
    states, steps := Extend(states, steps, Store(2, RID, 1), S9);
  }

  /** The run: one node serves; two requests are admitted; the second is stored, and the node's socket
      closes and is cleaned up before the second request's start message is sent. */
  lemma FallbackLosesAGuard() returns (states: seq<Sys>, steps: seq<Step>)
    ensures IsRun(states, steps) && steps != []
    ensures TakesFallback(states[|steps| - 1], steps[|steps| - 1])
    ensures var s := states[|steps|]; CounterOf(s.core.mgr, 1) == 0 && Held(s.core, s.jobs, 1) == 1
  {
    NodeGoes();
    RequestFails();
    StartFails();
    states, steps := RunStores();
    states, steps := Extend(states, steps, SocketCloses(NODE, 3), S10);
    states, steps := Extend(states, steps, RemoveNode(3), S11);
    states, steps := Extend(states, steps, FailWaiting(3, [RID]), S12);
    states, steps := Extend(states, steps, SendFails(2), S13);
    states, steps := Extend(states, steps, Abort(2), S14);
  }

  // ---- clients that disconnect ----

  const V1 := Sys(At(1, Nodes(true), map[]), {NODE}, map[], {})

  /** A client that goes right after its admission: the counter stays at one with no guard held. */
  lemma VanishedHandlerLosesAGuard() returns (states: seq<Sys>, steps: seq<Step>)
    ensures IsRun(states, steps) && steps != [] && LosesGuard(states[|steps| - 1], steps[|steps| - 1])
    ensures var s := states[|steps|]; CounterOf(s.core.mgr, 1) == 1 && Held(s.core, s.jobs, 1) == 0
  {
    RequestsEnter();
    GuardLost();
    states, steps := RunServes();
    states, steps := Extend(states, steps, Admit(1), S6);
    states, steps := Extend(states, steps, Vanish(1), V1);
  }

  lemma GuardLost()
    ensures Leads(S6, Vanish(1), V1) && LosesGuard(S6, Vanish(1))
    ensures CounterOf(V1.core.mgr, 1) == 1 && Held(V1.core, V1.jobs, 1) == 0
  {
    assert Next(S6, Vanish(1)) == V1;
    assert Stored(V1.core.pending, 1) == {} && Unstored(V1.jobs, 1) == {};
  }

  const CHOSEN := Chained(1, CHAIN)
  const W9 := Sys(At(2, Nodes(true), map[]), {}, map[1 := FIRST, 2 := CHOSEN, 3 := Closing(NODE, false)], {})
  const W10 := Sys(At(2, map[], map[]), {}, map[1 := FIRST, 2 := CHOSEN, 3 := Closing(NODE, true)], {})
  const W11 := Sys(At(2, map[], map[]), {}, map[1 := FIRST, 2 := CHOSEN], {})
  const W12 := Sys(At(2, map[], map[RID := P]), {}, map[1 := FIRST, 2 := START], {RID})
  const W13 := Sys(At(2, map[], map[RID := P]), {}, map[1 := FIRST], {RID})

  lemma NodeGoesEarly()
    ensures Leads(S8, SocketCloses(NODE, 3), W9) && Leads(W9, RemoveNode(3), W10) && Leads(W10, FailWaiting(3, []), W11)
  {
    assert Next(S8, SocketCloses(NODE, 3)) == W9;
    assert Next(W9, RemoveNode(3)) == W10;
    NobodyWaits();
  }

  lemma NobodyWaits()
    ensures Leads(W10, FailWaiting(3, []), W11)
  {
    assert WaitingOn(W10.core, NODE) == {};
    assert Next(W10, FailWaiting(3, [])) == W11;
  }

  lemma RequestStored()
    ensures Leads(W11, Store(2, RID, 1), W12) && Leads(W12, Vanish(2), W13) && Strands(W12, Vanish(2))
  {
    assert Next(W11, Store(2, RID, 1)) == W12;
    assert Next(W12, Vanish(2)) == W13;
    assert Target(P) == Some(NODE);
  }

  /** A node goes while a request's chain is chosen; the request is stored all the same, and its client
      goes before the start message is sent: the request waits on a closed socket, and nobody attends. */
  lemma VanishedHandlerStrandsARequest() returns (states: seq<Sys>, steps: seq<Step>)
    ensures IsRun(states, steps) && steps != [] && Strands(states[|steps| - 1], steps[|steps| - 1])
    ensures var s := states[|steps|];
      && RID in s.core.pending && Target(s.core.pending[RID]) == Some(NODE)
      && NODE !in s.sockets && !Attended(s.jobs, RID, NODE)
  {
    NodeGoesEarly();
    RequestStored();
    states, steps := RunChooses();
    states, steps := Extend(states, steps, SocketCloses(NODE, 3), W9);
    states, steps := Extend(states, steps, RemoveNode(3), W10);
    states, steps := Extend(states, steps, FailWaiting(3, []), W11);
    states, steps := Extend(states, steps, Store(2, RID, 1), W12);
    states, steps := Extend(states, steps, Vanish(2), W13);
    Stranded();
  }

  lemma Stranded()
    ensures RID in W13.core.pending && Target(W13.core.pending[RID]) == Some(NODE)
    ensures NODE !in W13.sockets && !Attended(W13.jobs, RID, NODE)
  {
  }
}
