/** Shared state of the coordinator and what each critical section of its handlers does to it
    (server/coordinator/src/ws_handler.rs, and ws_inference in server/coordinator/src/http_api.rs). */
module Coordinator {
  import opened Wrappers
  import opened ServingClusters
  import opened ClusterRouting

  datatype RequestId = RequestId(n: nat)
  type Token = nat

  datatype ChainStep = ChainStep(nodeId: NodeId, layerStart: nat, layerEnd: nat, isLast: bool)

  /** A request on its way through the chain, with the generation whose counter it holds. */
  datatype Forward = Forward(chain: seq<ChainStep>, currentStep: nat, generated: seq<Token>, maxTokens: nat, guard: nat)

  /** Requests are only stored with a chain that has a first hop. */
  type Pending = p: Forward | p.chain != [] witness Forward([ChainStep(NodeId(0), 0, 0, false)], 0, [], 0, 0)

  datatype WsNode = WsNode(name: nat, hasGpu: bool, ready: bool)

  datatype Core = Core(
    mgr: Manager,
    nodes: map<NodeId, WsNode>,
    pending: map<RequestId, Pending>,
    delivered: map<RequestId, seq<Token>>)

  /** The node that the current step waits on, while the step is inside the chain. */
  function Target(p: Pending): Option<NodeId> {
    if p.currentStep < |p.chain| then Some(p.chain[p.currentStep].nodeId) else None
  }

  function Advance(p: Pending): Pending { p.(currentStep := p.currentStep + 1) }

  function Push(p: Pending, t: Token): Pending { p.(generated := p.generated + [t]) }

  function Restart(p: Pending): Pending { p.(currentStep := 0) }

  /** After pushing a token: is the request complete? */
  predicate Complete(p: Pending, eos: bool) { eos || |p.generated| >= p.maxTokens }

  // ---- chain building ----

  function ChainOf(slots: seq<ActiveSlot>, nodes: map<NodeId, WsNode>): Option<seq<ChainStep>> {
    if slots == [] then Some([])
    else
      var s := slots[0];
      if s.nodeId !in nodes || !nodes[s.nodeId].ready || !nodes[s.nodeId].hasGpu then None
      else
        var rest := ChainOf(slots[1..], nodes);
        if rest.None? then None
        else Some([ChainStep(s.nodeId, s.layerStart, s.layerEnd, MarkedLast(s))] + rest.value)
  }

  function BuildChain(c: Core): seq<ChainStep> {
    var chain := ChainOf(ActiveSlots(c.mgr), c.nodes);
    if chain.None? || !IsOperational(c.mgr) then [] else chain.value
  }

  // ---- critical sections ----

  /** Remove a request, if it is still there, and give its guard back. */
  function Drop(c: Core, rid: RequestId): Core {
    if rid in c.pending then
      c.(pending := c.pending - {rid}, mgr := RequestEnd(c.mgr, c.pending[rid].guard))
    else c
  }

  function DropAll(c: Core, rids: seq<RequestId>): Core
    decreases |rids|
  {
    if rids == [] then c else DropAll(Drop(c, rids[0]), rids[1..])
  }

  function Insert(c: Core, rid: RequestId, chain: seq<ChainStep>, maxTokens: nat, guard: nat): Core
    requires chain != []
  {
    c.(pending := c.pending[rid := Forward(chain, 0, [], maxTokens, guard)])
  }

  /** Hidden states came back: step on, and say which node gets them next. */
  function Route(c: Core, rid: RequestId): (Core, Option<NodeId>) {
    if rid !in c.pending then (c, None)
    else
      var p := Advance(c.pending[rid]);
      (c.(pending := c.pending[rid := p]), Target(p))
  }

  /** A token came back: finish and deliver, or restart at the first node, which is returned. */
  function TakeToken(c: Core, rid: RequestId, t: Token, eos: bool): (Core, Option<NodeId>) {
    if rid !in c.pending then (c, None)
    else
      var p := Push(c.pending[rid], t);
      if Complete(p, eos) then (Drop(c, rid).(delivered := c.delivered[rid := p.generated]), None)
      else (c.(pending := c.pending[rid := Restart(p)]), Some(p.chain[0].nodeId))
  }

  /** Requests whose current hop waits on the node. */
  function WaitingOn(c: Core, n: NodeId): set<RequestId> {
    set rid | rid in c.pending && Target(c.pending[rid]) == Some(n)
  }

  /** Registration drops older entries with the same name before adding the new one. */
  function Register(c: Core, n: NodeId, name: nat, gpu: bool): Core {
    var kept := map id | id in c.nodes && (c.nodes[id].name != name || id == n) :: c.nodes[id];
    c.(nodes := kept[n := WsNode(name, gpu, false)])
  }

  function SetState(c: Core, n: NodeId, ready: bool): Core {
    if n in c.nodes then c.(nodes := c.nodes[n := c.nodes[n].(ready := ready)]) else c
  }

  // ---- chains ----

  lemma {:induction false} ChainOfAt(slots: seq<ActiveSlot>, nodes: map<NodeId, WsNode>)
    ensures var chain := ChainOf(slots, nodes);
      chain.Some? ==> |chain.value| == |slots| && forall k :: 0 <= k < |slots| ==>
        && chain.value[k] == ChainStep(slots[k].nodeId, slots[k].layerStart, slots[k].layerEnd, MarkedLast(slots[k]))
        && slots[k].nodeId in nodes && nodes[slots[k].nodeId].ready && nodes[slots[k].nodeId].hasGpu
  {
    if slots != [] {
      ChainOfAt(slots[1..], nodes);
    }
  }

  /** Hops over contiguous ranges from lo to all the layers. */
  ghost predicate ChainTiles(chain: seq<ChainStep>, lo: nat) {
    if chain == [] then lo == TOTAL_LAYERS
    else chain[0].layerStart == lo && lo <= chain[0].layerEnd && ChainTiles(chain[1..], chain[0].layerEnd)
  }

  lemma {:induction false} RouteTiles(slots: seq<ActiveSlot>, chain: seq<ChainStep>, lo: nat)
    requires ClusterRouting.Route(slots, lo) && |chain| == |slots|
    requires forall k :: 0 <= k < |slots| ==>
      chain[k].layerStart == slots[k].layerStart && chain[k].layerEnd == slots[k].layerEnd
    ensures ChainTiles(chain, lo)
  {
    if slots != [] {
      RouteTiles(slots[1..], chain[1..], slots[0].layerEnd);
    }
  }

  /** A chain that is not refused runs over registered, ready GPU nodes and tiles the layers; up to 28
      nodes, every hop has layers and exactly the final hop is marked last. */
  lemma BuiltChainTiles(c: Core)
    requires Inv(c.mgr) && BuildChain(c) != []
    ensures var chain := BuildChain(c);
      && ChainTiles(chain, 0)
      && (forall k :: 0 <= k < |chain| ==>
        chain[k].nodeId in c.nodes && c.nodes[chain[k].nodeId].ready && c.nodes[chain[k].nodeId].hasGpu)
      && (|c.mgr.active.value.slots| <= TOTAL_LAYERS ==> forall k :: 0 <= k < |chain| ==>
            chain[k].layerStart < chain[k].layerEnd && (chain[k].isLast <==> k == |chain| - 1))
  {
    var slots := ActiveSlots(c.mgr);
    ChainOfAt(slots, c.nodes);
    OperationalExactly(c.mgr);
    RouteTiles(slots, BuildChain(c), 0);
    OnlyFinalHopIsLast(c.mgr);
    if |c.mgr.active.value.slots| <= TOTAL_LAYERS {
      ShortRouteInside(c.mgr);
    }
  }

  lemma ShortRouteInside(m: Manager)
    requires Inv(m) && IsOperational(m) && |m.active.value.slots| <= TOTAL_LAYERS
    ensures forall k :: 0 <= k < |ActiveSlots(m)| ==> ActiveSlots(m)[k].layerStart < TOTAL_LAYERS
  {
    OnlyFinalHopIsLast(m);
    OperationalExactly(m);
    RouteWithin(ActiveSlots(m), 0);
  }

  lemma {:induction false} RouteWithin(slots: seq<ActiveSlot>, lo: nat)
    requires ClusterRouting.Route(slots, lo)
    ensures lo <= TOTAL_LAYERS && forall k :: 0 <= k < |slots| ==> slots[k].layerEnd <= TOTAL_LAYERS
  {
    if slots != [] {
      RouteWithin(slots[1..], slots[0].layerEnd);
    }
  }

  // ---- when a chain is refused ----

  predicate Usable(nodes: map<NodeId, WsNode>, id: NodeId) { id in nodes && nodes[id].ready && nodes[id].hasGpu }

  lemma {:induction false} ReadyUsable(slots: seq<NodeSlot>, gen: nat, nodes: map<NodeId, WsNode>)
    ensures ChainOf(ReadySlots(slots, gen), nodes).Some? <==>
      forall i :: 0 <= i < |slots| && slots[i].infraState == InCluster ==> Usable(nodes, slots[i].nodeId)
  {
    if slots != [] {
      ReadyUsable(slots[1..], gen, nodes);
      var rest := ReadySlots(slots[1..], gen);
      if slots[0].infraState == InCluster {
        assert ReadySlots(slots, gen)[1..] == rest;
      } else {
        assert ReadySlots(slots, gen) == rest;
      }
    }
  }

  /** A chain is built exactly if there is an active generation, all its slots with layers are in the
      cluster, and every node in the cluster is registered, ready and has a GPU. */
  lemma BuildsIff(c: Core)
    requires Inv(c.mgr)
    ensures BuildChain(c) != [] <==>
      && c.mgr.active.Some? && Staffed(c.mgr.active.value.slots)
      && forall i :: 0 <= i < |c.mgr.active.value.slots| && c.mgr.active.value.slots[i].infraState == InCluster ==>
           Usable(c.nodes, c.mgr.active.value.slots[i].nodeId)
  {
    OperationalExactly(c.mgr);
    ChainOfAt(ActiveSlots(c.mgr), c.nodes);
    if c.mgr.active.Some? {
      ActiveSlotsAreReady(c.mgr);
      ReadyUsable(c.mgr.active.value.slots, c.mgr.active.value.gen, c.nodes);
    }
  }

  /** The hop that a slot becomes; it is marked last if its range ends the layers. */
  function HopOf(s: NodeSlot): ChainStep {
    ChainStep(s.nodeId, s.layerStart, s.layerEnd, s.layerEnd >= TOTAL_LAYERS)
  }

  lemma {:induction false} ReadyHops(slots: seq<NodeSlot>, gen: nat, nodes: map<NodeId, WsNode>)
    requires ChainOf(ReadySlots(slots, gen), nodes).Some?
    ensures forall hop :: hop in ChainOf(ReadySlots(slots, gen), nodes).value <==>
      exists i :: 0 <= i < |slots| && slots[i].infraState == InCluster && hop == HopOf(slots[i])
  {
    if slots != [] {
      var rest := ReadySlots(slots[1..], gen);
      if slots[0].infraState == InCluster {
        assert ReadySlots(slots, gen)[1..] == rest;
        ReadyHops(slots[1..], gen, nodes);
        assert ChainOf(ReadySlots(slots, gen), nodes).value == [HopOf(slots[0])] + ChainOf(rest, nodes).value;
      } else {
        assert ReadySlots(slots, gen) == rest;
        ReadyHops(slots[1..], gen, nodes);
      }
      assert forall i :: 0 < i < |slots| ==> slots[i] == slots[1..][i - 1];
    }
  }

  /** The hops of a chain are the active generation's slots in the cluster, no more and no fewer. */
  lemma HopsAreReadySlots(c: Core)
    requires Inv(c.mgr) && BuildChain(c) != []
    ensures c.mgr.active.Some?
    ensures forall hop :: hop in BuildChain(c) <==>
      exists i :: 0 <= i < |c.mgr.active.value.slots|
        && c.mgr.active.value.slots[i].infraState == InCluster && hop == HopOf(c.mgr.active.value.slots[i])
  {
    OperationalExactly(c.mgr);
    ActiveSlotsAreReady(c.mgr);
    ReadyHops(c.mgr.active.value.slots, c.mgr.active.value.gen, c.nodes);
  }
}
