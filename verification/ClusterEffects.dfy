/** What the operations of the cluster manager do to its three slots, case by case
    (server/coordinator/src/serving_clusters.rs). */
module ClusterEffects {
  import opened Wrappers
  import opened ServingClusters

  /** The active generation is no longer the one it was. */
  predicate Unseated(m: Manager, after: Manager) {
    m.active.Some? && (after.active.None? || after.active.value.gen != m.active.value.gen)
  }

  /** Who drains, after every operation: a generation that loses the active slot drains if requests hold
      its guards, and is forgotten otherwise; nothing else fills the draining slot, and only a retirement
      empties it, once no request is left. */
  lemma DrainsExactly(m: Manager, op: Op)
    requires Inv(m) && Allowed(m, op)
    ensures var after := Apply(m, op);
      after.draining ==
        if Unseated(m, after) && m.counters[m.active.value.gen] > 0 then Some(m.active.value.(state := Draining))
        else if op.DoRetire? && m.draining.Some? && m.counters[m.draining.value.gen] == 0 then None
        else m.draining
    ensures op.DoRetire? ==> Apply(m, op) == m.(draining := Apply(m, op).draining)
  {
    if op.DoReady? && m.active.Some? && m.pending.Some? {
      assert m.active.value.gen < m.pending.value.gen;
    }
  }

  /** So in every run, a generation that is unseated with requests under way is the one that drains. */
  lemma UnseatedDrainsInEveryRun(ops: seq<Op>, op: Op)
    requires forall k :: 0 <= k < |ops| ==> Allowed(Run(ops[..k]), ops[k])
    requires Allowed(Run(ops), op) && Unseated(Run(ops), Run(ops + [op]))
    ensures var m, after := Run(ops), Run(ops + [op]);
      after.draining ==
        if CounterOf(m, m.active.value.gen) > 0 then Some(m.active.value.(state := Draining)) else m.draining
  {
    EveryRunKeepsInv(ops);
    assert (ops + [op])[..|ops|] == ops;
    DrainsExactly(Run(ops), op);
  }

  // ---- rebalance ----

  /** The node already serves the slot's range in the active generation. */
  predicate Serves(m: Manager, slot: NodeSlot) {
    m.active.Some? && slot.(infraState := InCluster) in m.active.value.slots
  }

  lemma {:induction false} ByNodeFinds(slots: seq<NodeSlot>, id: NodeId)
    requires DistinctNodes(slots)
    ensures id in ByNode(slots) ==> ByNode(slots)[id] in slots && ByNode(slots)[id].nodeId == id
    ensures forall i :: 0 <= i < |slots| && slots[i].nodeId == id ==>
      id in ByNode(slots) && ByNode(slots)[id] == slots[i]
  {
    if slots != [] {
      ByNodeFinds(slots[..|slots| - 1], id);
    }
  }

  lemma KeepsIff(m: Manager, slot: NodeSlot)
    requires Inv(m)
    ensures Keeps(Current(m.active), slot) <==> Serves(m, slot)
  {
    if m.active.Some? {
      ByNodeFinds(m.active.value.slots, slot.nodeId);
    }
  }

  /** A generation over these nodes in this order, its ranges as even as possible; its slots are ready
      where the node already serves the range. */
  ghost predicate Formed(m: Manager, ids: seq<NodeId>, slots: seq<NodeSlot>) {
    && |slots| == |ids| && Tiles(slots) && Even(slots)
    && forall i :: 0 <= i < |ids| ==>
         slots[i].nodeId == ids[i] && slots[i].infraState == if Serves(m, slots[i]) then InCluster else Reinitializing
  }

  ghost predicate Sends(m: Manager, slots: seq<NodeSlot>, sends: seq<Assignment>) {
    && |sends| == |slots|
    && forall i :: 0 <= i < |slots| ==> Tells(sends[i], slots[i], m.nextGen)
  }

  predicate Tells(send: Assignment, slot: NodeSlot, gen: nat) {
    send == Assignment(slot.nodeId, slot.layerStart, slot.layerEnd, slot.infraState == InCluster, gen)
  }

  lemma MarkedFormed(m: Manager, ids: seq<NodeId>)
    requires Inv(m) && ids != [] && DistinctIds(ids)
    ensures Formed(m, ids, Marked(Current(m.active), Split(ids)))
    ensures Sends(m, Marked(Current(m.active), Split(ids)), Assignments(Current(m.active), Split(ids), m.nextGen))
  {
    var slots := Split(ids);
    var marked := Marked(Current(m.active), slots);
    SplitTilesEvenly(ids);
    SameRangesOk(slots, marked);
    forall i | 0 <= i < |ids| ensures Keeps(Current(m.active), slots[i]) <==> Serves(m, marked[i]) {
      KeepsIff(m, slots[i]);
      assert marked[i].(infraState := InCluster) == slots[i].(infraState := InCluster);
    }
  }

  predicate Ready(slots: seq<NodeSlot>) { forall i :: 0 <= i < |slots| ==> slots[i].infraState == InCluster }

  /** A rebalance without nodes clears active and pending. With nodes it makes one generation, with the next
      number and a counter at zero, which is active at once if every node already serves its range, and
      otherwise pending while the active one stays; every node is told its range. */
  lemma RebalanceExactly(m: Manager, ids: seq<NodeId>)
    requires Inv(m) && DistinctIds(ids)
    ensures var (after, sends) := Rebalance(m, ids);
      if ids == [] then
        after.active == None && after.pending == None && sends == []
        && after.counters == m.counters && after.nextGen == m.nextGen
      else
        && after.nextGen == m.nextGen + 1 && after.counters == m.counters[m.nextGen := 0]
        && exists slots :: Formed(m, ids, slots) && Sends(m, slots, sends) && Placed(m, after, slots)
  {
    if ids != [] {
      MarkedFormed(m, ids);
      PlacedByInstall(m, Marked(Current(m.active), Split(ids)));
    }
  }

  predicate Placed(m: Manager, after: Manager, slots: seq<NodeSlot>) {
    if Ready(slots) then after.active == Some(Generation(m.nextGen, slots, Active)) && after.pending == None
    else after.active == m.active && after.pending == Some(Generation(m.nextGen, slots, Forming))
  }

  lemma PlacedByInstall(m: Manager, slots: seq<NodeSlot>)
    ensures Placed(m, Install(m, slots), slots)
  {
  }

  // ---- reports ----

  predicate Lists(g: Option<Generation>, id: NodeId, i: nat) {
    g.Some? && i < |g.value.slots| && g.value.slots[i].nodeId == id
  }

  lemma {:induction false} SetFirstSets(slots: seq<NodeSlot>, id: NodeId, st: InfraState, i: nat)
    requires DistinctNodes(slots) && i < |slots| && slots[i].nodeId == id
    ensures SetFirst(slots, id, st) == slots[i := slots[i].(infraState := st)]
  {
    if slots[0].nodeId == id {
      assert i == 0;
    } else {
      SetFirstSets(slots[1..], id, st, i - 1);
    }
  }

  lemma {:induction false} SetFirstMisses(slots: seq<NodeSlot>, id: NodeId, st: InfraState)
    requires forall i :: 0 <= i < |slots| ==> slots[i].nodeId != id
    ensures SetFirst(slots, id, st) == slots
  {
    if slots != [] {
      SetFirstMisses(slots[1..], id, st);
    }
  }

  /** A ready report from the i-th node of the pending generation makes that slot ready; it promotes the
      generation exactly if all the others were ready, and touches nothing else. */
  lemma ReadyExactly(m: Manager, id: NodeId, i: nat)
    requires Inv(m) && Lists(m.pending, id, i)
    ensures var (after, promoted) := NodeReady(m, id);
      var g := m.pending.value;
      var slots := g.slots[i := g.slots[i].(infraState := InCluster)];
      && (promoted <==> forall k :: 0 <= k < |g.slots| && k != i ==> g.slots[k].infraState == InCluster)
      && after.counters == m.counters && after.nextGen == m.nextGen
      && if promoted then after.active == Some(g.(slots := slots, state := Active)) && after.pending == None
         else after.active == m.active && after.pending == Some(g.(slots := slots))
  {
    SetFirstSets(m.pending.value.slots, id, InCluster, i);
    assert Holds(m.pending, id);
    var g := m.pending.value;
    assert forall k :: 0 <= k < |g.slots| && k != i ==>
      g.slots[i := g.slots[i].(infraState := InCluster)][k] == g.slots[k];
  }

  /** Reports from other nodes change nothing. */
  lemma ReadyElsewhere(m: Manager, id: NodeId)
    requires m.pending.Some? ==> forall k :: 0 <= k < |m.pending.value.slots| ==> m.pending.value.slots[k].nodeId != id
    ensures NodeReady(m, id) == (m, false)
  {
  }

  /** A report that a node loads again reaches the pending generation if that has the node, else the active
      one, where exactly the node's slot is no longer ready. */
  lemma ReinitExactly(m: Manager, id: NodeId, i: nat)
    requires Inv(m) && (Lists(m.pending, id, i) || (!Holds(m.pending, id) && Lists(m.active, id, i)))
    ensures var after := NodeReinitializing(m, id);
      if Lists(m.pending, id, i) then
        after == m.(pending := Some(Unready(m.pending.value, i)))
      else
        after == m.(active := Some(Unready(m.active.value, i)))
  {
    var g := if Lists(m.pending, id, i) then m.pending.value else m.active.value;
    SetFirstSets(g.slots, id, Reinitializing, i);
    if Lists(m.pending, id, i) {
      assert Holds(m.pending, id);
    }
  }

  function Unready(g: Generation, i: nat): Generation
    requires i < |g.slots|
  {
    g.(slots := g.slots[i := g.slots[i].(infraState := Reinitializing)])
  }

  lemma ReinitElsewhere(m: Manager, id: NodeId)
    requires !Holds(m.pending, id) && !Holds(m.active, id)
    ensures NodeReinitializing(m, id) == m
  {
    if m.active.Some? {
      SetFirstMisses(m.active.value.slots, id, Reinitializing);
    }
  }

  // ---- requests ----

  /** Admission takes a guard on the active generation and on no other; without one it is refused. */
  lemma StartExactly(m: Manager)
    requires Inv(m)
    ensures var (after, guard) := RequestStart(m);
      && (guard.None? <==> m.active.None?)
      && (guard.None? ==> after == m)
      && (guard.Some? ==> guard.value == m.active.value.gen && Moves(m, after, guard.value, ONE_MORE))
  {
  }

  /** The counter of one generation changes, and nothing else. */
  predicate Moves(m: Manager, after: Manager, gen: nat, step: nat -> nat) {
    && after == m.(counters := after.counters) && after.counters.Keys == m.counters.Keys
    && (forall g :: g in m.counters && g != gen ==> after.counters[g] == m.counters[g])
    && gen in m.counters && after.counters[gen] == step(m.counters[gen])
  }

  const ONE_MORE: nat -> nat := c => if c == U32 - 1 then 0 else c + 1
  const ONE_LESS: nat -> nat := c => if c == 0 then 0 else c - 1

  /** Giving a guard back takes one off its generation's counter, unless that is zero, and off no other. */
  lemma EndExactly(m: Manager, gen: nat)
    requires Inv(m) && gen in m.counters
    ensures Moves(m, RequestEnd(m, gen), gen, ONE_LESS)
  {
  }
}
