/** The coordinator's shared state as the object it is: maps updated in place, and requests that hold
    references to the counters of their generation. Each critical section is proved to do to the object
    what Coordinator says it does to the state. */
module WsStates {
  import opened Wrappers
  import opened ServingClusters
  import opened ClusterRouting
  import opened ClusterManagement
  import opened Coordinator
  import Handlers

  datatype LiveForward = LiveForward(chain: seq<ChainStep>, currentStep: nat, generated: seq<Token>, maxTokens: nat,
    guard: Counter) {
    ghost function Plain(): Forward { Forward(chain, currentStep, generated, maxTokens, guard.gen) }
  }

  function Prepended(front: seq<ChainStep>, rest: Option<seq<ChainStep>>): Option<seq<ChainStep>> {
    if rest.None? then None else Some(front + rest.value)
  }

  function IdsIn(rids: seq<RequestId>): set<RequestId> { set rid | rid in rids }

  class WsState {
    const cluster: ClusterManager
    var nodes: map<NodeId, WsNode>
    var pending: map<RequestId, LiveForward>
    var delivered: map<RequestId, seq<Token>>

    ghost predicate Valid()
      reads this, cluster
    {
      && cluster.Valid()
      && forall rid :: rid in pending ==> pending[rid].chain != [] && IsGuard(pending[rid].guard)
    }

    ghost predicate WaitsOn(rid: RequestId, n: NodeId)
      reads this
      requires rid in pending && pending[rid].chain != []
    {
      Target(pending[rid].Plain()) == Some(n)
    }

    ghost predicate IsGuard(c: Counter)
      reads cluster
    {
      c.gen in cluster.made && cluster.made[c.gen] == c
    }

    ghost function Stored(): map<RequestId, Pending>
      reads this, cluster
      requires Valid()
    {
      map rid | rid in pending :: pending[rid].Plain()
    }

    ghost function View(): Core
      reads this, cluster, cluster.made.Values
      requires Valid()
    {
      Core(cluster.State(), nodes, Stored(), delivered)
    }

    constructor (cluster: ClusterManager)
      requires cluster.Valid()
      ensures Valid() && this.cluster == cluster && View() == Core(cluster.State(), map[], map[], map[])
    {
      this.cluster := cluster;
      nodes, pending, delivered := map[], map[], map[];
    }

    /** `build_inference_chain`: refuse as soon as a routed node is missing or not ready. */
    method BuildInferenceChain() returns (chain: seq<ChainStep>)
      requires Valid()
      ensures chain == BuildChain(View())
    {
      var plain := cluster.Snapshot();
      var slots := ActiveSlots(plain);
      chain := [];
      assert slots[0..] == slots;
      assert forall rest: seq<ChainStep> {:trigger chain + rest} :: chain + rest == rest;
      for i := 0 to |slots|
        invariant ChainOf(slots, nodes) == Prepended(chain, ChainOf(slots[i..], nodes))
      {
        assert slots[i..][1..] == slots[i + 1..];
        var s := slots[i];
        if s.nodeId !in nodes || !nodes[s.nodeId].ready || !nodes[s.nodeId].hasGpu {
          return [];
        }
        var hop := ChainStep(s.nodeId, s.layerStart, s.layerEnd, MarkedLast(s));
        assert forall rest: seq<ChainStep> {:trigger [hop] + rest} :: chain + ([hop] + rest) == (chain + [hop]) + rest;
        chain := chain + [hop];
      }
      if !IsOperational(plain) {
        chain := [];
      }
    }

    method InsertPending(rid: RequestId, chain: seq<ChainStep>, maxTokens: nat, guard: Counter)
      requires Valid() && chain != [] && IsGuard(guard)
      modifies this
      ensures Valid() && View() == Insert(old(View()), rid, chain, maxTokens, guard.gen)
      ensures pending == old(pending)[rid := LiveForward(chain, 0, [], maxTokens, guard)]
      ensures delivered == old(delivered)
    {
      pending := pending[rid := LiveForward(chain, 0, [], maxTokens, guard)];
      assert Stored() == old(Stored())[rid := Forward(chain, 0, [], maxTokens, guard.gen)];
    }

    /** The locked part of `route_forward_result`; returns the node to send to. */
    method RouteForwardResult(rid: RequestId) returns (send: Option<NodeId>)
      requires Valid()
      modifies this
      ensures Valid() && (View(), send) == Coordinator.Route(old(View()), rid)
      ensures if rid !in old(pending) then pending == old(pending) && send == None
        else
          var p := old(pending[rid]);
          && pending == old(pending)[rid := p.(currentStep := p.currentStep + 1)]
          && send == if p.currentStep + 1 < |p.chain| then Some(p.chain[p.currentStep + 1].nodeId) else None
      ensures delivered == old(delivered)
    {
      if rid !in pending {
        return None;
      }
      var p := pending[rid].(currentStep := pending[rid].currentStep + 1);
      pending := pending[rid := p];
      assert Stored() == old(Stored())[rid := p.Plain()];
      send := if p.currentStep < |p.chain| then Some(p.chain[p.currentStep].nodeId) else None;
    }

    /** `fail_pending_request`, and the removals on timeout and on a closed channel. */
    method DropPending(rid: RequestId) returns (found: bool)
      requires Valid()
      modifies this`pending, cluster.made.Values
      ensures Valid() && View() == Drop(old(View()), rid) && found == (rid in old(pending))
      ensures pending == old(pending) - {rid}
    {
      found := rid in pending;
      if found {
        var guard := pending[rid].guard;
        pending := pending - {rid};
        assert Stored() == old(Stored()) - {rid};
        cluster.RequestEnd(guard);
      } else {
        assert pending - {rid} == pending;
      }
    }

    /** The removal after a failed start; an entry that has gone already does not stop the release. */
    method AbortStart(rid: RequestId, guard: Counter)
      requires Valid() && IsGuard(guard)
      modifies this`pending, cluster.made.Values
      ensures Valid() && View() == Handlers.AbortStart(old(View()), rid, guard.gen)
    {
      var found := DropPending(rid);
      if !found {
        assert View() == old(View());
        cluster.RequestEnd(guard);
      }
    }

    method HandleGeneratedToken(rid: RequestId, t: Token, eos: bool) returns (send: Option<NodeId>)
      requires Valid()
      modifies this, cluster.made.Values
      ensures Valid() && (View(), send) == TakeToken(old(View()), rid, t, eos)
      ensures if rid !in old(pending) then pending == old(pending) && delivered == old(delivered) && send == None
        else
          var p := old(pending[rid]);
          var tokens := p.generated + [t];
          if eos || |tokens| >= p.maxTokens then
            pending == old(pending) - {rid} && delivered == old(delivered)[rid := tokens] && send == None
          else
            && pending == old(pending)[rid := p.(generated := tokens, currentStep := 0)]
            && delivered == old(delivered) && send == Some(p.chain[0].nodeId)
    {
      if rid !in pending {
        return None;
      }
      var p := pending[rid].(generated := pending[rid].generated + [t]);
      if eos || |p.generated| >= p.maxTokens {
        var _ := DropPending(rid);
        delivered := delivered[rid := p.generated];
        send := None;
      } else {
        send := RestartChain(rid, p);
      }
    }

    /** The next token's pass starts at the first node again. */
    method RestartChain(rid: RequestId, p: LiveForward) returns (send: Option<NodeId>)
      requires Valid() && rid in pending && p.chain != [] && p.guard == pending[rid].guard
      modifies this`pending
      ensures Valid() && View() == old(View()).(pending := old(View()).pending[rid := Restart(p.Plain())])
      ensures pending == old(pending)[rid := p.(currentStep := 0)] && send == Some(p.chain[0].nodeId)
    {
      var q := p.(currentStep := 0);
      pending := pending[rid := q];
      assert Stored() == old(Stored())[rid := q.Plain()];
      send := Some(q.chain[0].nodeId);
    }

    /** Disconnect clean-up: collect the requests that wait on the node, then fail them one by one. */
    method FailWaitingOn(n: NodeId) returns (failed: seq<RequestId>)
      requires Valid()
      modifies this`pending, cluster.made.Values
      ensures Valid() && View() == DropAll(old(View()), failed)
      ensures Handlers.Lists(failed, WaitingOn(old(View()), n))
      ensures forall rid :: rid in failed <==>
        && rid in old(pending) && old(pending)[rid].currentStep < |old(pending)[rid].chain|
        && old(pending)[rid].chain[old(pending)[rid].currentStep].nodeId == n
      ensures pending == old(pending) - IdsIn(failed)
    {
      failed := RequestsWaitingOn(n);
      FailAll(failed);
    }

    method RequestsWaitingOn(n: NodeId) returns (waiting: seq<RequestId>)
      requires Valid()
      ensures forall i, k :: 0 <= i < k < |waiting| ==> waiting[i] != waiting[k]
      ensures forall rid :: rid in waiting <==> rid in pending && WaitsOn(rid, n)
    {
      waiting := [];
      var rest := pending.Keys;
      while rest != {}
        invariant rest <= pending.Keys
        invariant forall i, k :: 0 <= i < k < |waiting| ==> waiting[i] != waiting[k]
        invariant forall rid :: rid in waiting <==> rid in pending && rid !in rest && WaitsOn(rid, n)
        decreases |rest|
      {
        var rid :| rid in rest;
        rest := rest - {rid};
        var p := pending[rid];
        if p.currentStep < |p.chain| && p.chain[p.currentStep].nodeId == n {
          waiting := waiting + [rid];
        }
      }
    }

    method FailAll(rids: seq<RequestId>)
      requires Valid()
      modifies this`pending, cluster.made.Values
      ensures Valid() && View() == DropAll(old(View()), rids)
      ensures pending == old(pending) - IdsIn(rids)
    {
      assert rids[0..] == rids && pending - IdsIn(rids[..0]) == pending;
      for i := 0 to |rids|
        invariant Valid() && DropAll(View(), rids[i..]) == DropAll(old(View()), rids)
        invariant pending == old(pending) - IdsIn(rids[..i])
      {
        assert rids[i..][1..] == rids[i + 1..] && rids[..i + 1] == rids[..i] + [rids[i]];
        var _ := DropPending(rids[i]);
      }
      assert rids[..|rids|] == rids;
    }

    /** Registration: drop stale entries with the same name, then add the node. */
    method RegisterNode(n: NodeId, name: nat, gpu: bool)
      requires Valid()
      modifies this`nodes
      ensures Valid() && View() == Coordinator.Register(old(View()), n, name, gpu)
      ensures n in nodes && nodes[n] == WsNode(name, gpu, false)
      ensures forall id :: id in nodes && nodes[id].name == name ==> id == n
      ensures forall id :: id != n ==> (id in nodes <==> id in old(nodes) && old(nodes)[id].name != name)
      ensures forall id :: id != n && id in nodes ==> nodes[id] == old(nodes)[id]
    {
      var stale := set id | id in nodes && nodes[id].name == name && id != n;
      var was := nodes;
      while stale != {}
        invariant stale <= nodes.Keys
        invariant forall id :: id in nodes <==> id in was && (id in stale || was[id].name != name || id == n)
        invariant forall id :: id in nodes ==> nodes[id] == was[id]
        invariant forall id :: id in stale ==> was[id].name == name && id != n
        decreases |stale|
      {
        var id :| id in stale;
        nodes := nodes - {id};
        stale := stale - {id};
      }
      assert nodes == map id | id in was && (was[id].name != name || id == n) :: was[id];
      nodes := nodes[n := WsNode(name, gpu, false)];
    }

    /** A state report of a node that is registered. */
    method UpdateState(n: NodeId, ready: bool)
      requires Valid()
      modifies this`nodes
      ensures Valid() && View() == SetState(old(View()), n, ready)
      ensures nodes == if n in old(nodes) then old(nodes)[n := old(nodes)[n].(ready := ready)] else old(nodes)
    {
      if n in nodes {
        nodes := nodes[n := nodes[n].(ready := ready)];
      }
    }
  }
}
