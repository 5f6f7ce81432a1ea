/** What the manager's state says about routing: the coverage scan, the chain that a request takes, and
    how a rebalance affects the routed ranges (server/coordinator/src/serving_clusters.rs). */
module ClusterRouting {
  import opened Wrappers
  import opened ServingClusters

  // ---- tilings, front to back ----

  ghost predicate TileFrom(slots: seq<NodeSlot>, lo: nat) {
    if slots == [] then lo == TOTAL_LAYERS
    else slots[0].layerStart == lo && lo <= slots[0].layerEnd && TileFrom(slots[1..], slots[0].layerEnd)
  }

  lemma {:induction false} TilesFromIndex(slots: seq<NodeSlot>, k: nat)
    requires Tiles(slots) && k <= |slots|
    ensures TileFrom(slots[k..], if k == |slots| then TOTAL_LAYERS else slots[k].layerStart)
    decreases |slots| - k
  {
    if k < |slots| {
      TilesFromIndex(slots, k + 1);
      assert slots[k..][1..] == slots[k + 1..];
    }
  }

  lemma TilesFromStart(slots: seq<NodeSlot>)
    requires Tiles(slots)
    ensures TileFrom(slots, 0)
  {
    TilesFromIndex(slots, 0);
    assert slots[0..] == slots;
  }

  lemma {:induction false} TileFromBound(slots: seq<NodeSlot>, lo: nat)
    requires TileFrom(slots, lo)
    ensures lo <= TOTAL_LAYERS
    ensures forall i :: 0 <= i < |slots| ==> lo <= slots[i].layerStart <= slots[i].layerEnd <= TOTAL_LAYERS
  {
    if slots != [] {
      TileFromBound(slots[1..], slots[0].layerEnd);
    }
  }

  predicate IsEmpty(s: NodeSlot) { s.layerStart == s.layerEnd }

  /** Every slot that has layers is in the cluster. */
  ghost predicate Staffed(slots: seq<NodeSlot>) {
    forall i :: 0 <= i < |slots| && !IsEmpty(slots[i]) ==> slots[i].infraState == InCluster
  }

  // ---- the sort ----

  ghost predicate SortedByStart(slots: seq<ActiveSlot>) {
    forall i, j :: 0 <= i < j < |slots| ==> slots[i].layerStart <= slots[j].layerStart
  }

  /** Slots that are in order already stay as they are. */
  lemma {:induction false} SortOfSorted(slots: seq<ActiveSlot>)
    requires SortedByStart(slots)
    ensures SortByStart(slots) == slots
  {
    if slots != [] {
      var early, last := slots[..|slots| - 1], slots[|slots| - 1];
      SortOfSorted(early);
      InsertLast(early, last);
      assert slots == early + [last];
    }
  }

  lemma InsertLast(early: seq<ActiveSlot>, last: ActiveSlot)
    requires early != [] ==> early[|early| - 1].layerStart <= last.layerStart
    ensures InsertByStart(early, last) == early + [last]
  {
  }

  lemma {:induction false} ReadySorted(slots: seq<NodeSlot>, lo: nat, gen: nat)
    requires TileFrom(slots, lo)
    ensures SortedByStart(ReadySlots(slots, gen))
    ensures forall i :: 0 <= i < |ReadySlots(slots, gen)| ==> lo <= ReadySlots(slots, gen)[i].layerStart
  {
    if slots != [] {
      ReadySorted(slots[1..], slots[0].layerEnd, gen);
    }
  }

  /** In a reachable state the sort changes nothing: slots are made in layer order. */
  lemma ActiveSlotsAreReady(m: Manager)
    requires Inv(m) && m.active.Some?
    ensures ActiveSlots(m) == ReadySlots(m.active.value.slots, m.active.value.gen)
  {
    var g := m.active.value;
    TilesFromStart(g.slots);
    ReadySorted(g.slots, 0, g.gen);
    SortOfSorted(ReadySlots(g.slots, g.gen));
  }

  // ---- the coverage scan ----

  /** Once a gap opened before lo, the scan fails or never gets past its cursor. */
  lemma {:induction false} ScanStops(slots: seq<NodeSlot>, lo: nat, gen: nat, cursor: nat)
    requires TileFrom(slots, lo) && cursor < lo
    ensures Covered(ReadySlots(slots, gen), cursor) in {None, Some(cursor)}
  {
    if slots != [] {
      TileFromBound(slots[1..], slots[0].layerEnd);
      if slots[0].infraState == InCluster {
        assert ReadySlots(slots, gen)[0].layerStart == lo;
      } else {
        assert ReadySlots(slots, gen) == ReadySlots(slots[1..], gen);
        ScanStops(slots[1..], slots[0].layerEnd, gen, cursor);
      }
    }
  }

  lemma {:induction false} ScanExact(slots: seq<NodeSlot>, lo: nat, gen: nat)
    requires TileFrom(slots, lo)
    ensures (exists end :: end >= TOTAL_LAYERS && Covered(ReadySlots(slots, gen), lo) == Some(end)) <==> Staffed(slots)
  {
    if slots == [] {
      assert Covered(ReadySlots(slots, gen), lo) == Some(lo);
    } else {
      var s := slots[0];
      TileFromBound(slots, lo);
      TileFromBound(slots[1..], s.layerEnd);
      assert Staffed(slots) <==> (IsEmpty(s) || s.infraState == InCluster) && Staffed(slots[1..]);
      if s.infraState == InCluster {
        var ready := ReadySlots(slots, gen);
        assert ready[1..] == ReadySlots(slots[1..], gen);
        ScanExact(slots[1..], s.layerEnd, gen);
      } else {
        assert ReadySlots(slots, gen) == ReadySlots(slots[1..], gen);
        if IsEmpty(s) {
          ScanExact(slots[1..], lo, gen);
        } else {
          ScanStops(slots[1..], s.layerEnd, gen, lo);
        }
      }
    }
  }

  /** Contiguous ranges from lo to all the layers. */
  ghost predicate Route(slots: seq<ActiveSlot>, lo: nat) {
    if slots == [] then lo == TOTAL_LAYERS
    else slots[0].layerStart == lo && lo <= slots[0].layerEnd && Route(slots[1..], slots[0].layerEnd)
  }

  lemma {:induction false} ReadyRoute(slots: seq<NodeSlot>, lo: nat, gen: nat)
    requires TileFrom(slots, lo) && Staffed(slots)
    ensures Route(ReadySlots(slots, gen), lo)
  {
    if slots != [] {
      var s := slots[0];
      assert forall i :: 0 <= i < |slots| - 1 ==> slots[1..][i] == slots[i + 1];
      ReadyRoute(slots[1..], s.layerEnd, gen);
      if s.infraState == InCluster {
        assert ReadySlots(slots, gen)[1..] == ReadySlots(slots[1..], gen);
      } else {
        assert IsEmpty(s) && ReadySlots(slots, gen) == ReadySlots(slots[1..], gen);
      }
    }
  }

  lemma {:induction false} RouteEnds(slots: seq<ActiveSlot>, lo: nat)
    requires Route(slots, lo) && slots != []
    ensures slots[0].layerStart == lo && slots[|slots| - 1].layerEnd == TOTAL_LAYERS
  {
    if |slots| > 1 {
      RouteEnds(slots[1..], slots[0].layerEnd);
    }
  }

  /** The scan answers yes exactly when there is an active generation whose slots with layers are all
      in the cluster; then the routed slots tile the layers. */
  lemma OperationalExactly(m: Manager)
    requires Inv(m)
    ensures IsOperational(m) <==> m.active.Some? && Staffed(m.active.value.slots)
    ensures IsOperational(m) ==> ActiveSlots(m) != [] && Route(ActiveSlots(m), 0)
  {
    if m.active.Some? {
      var g := m.active.value;
      ActiveSlotsAreReady(m);
      TilesFromStart(g.slots);
      ScanExact(g.slots, 0, g.gen);
      if Staffed(g.slots) {
        ReadyRoute(g.slots, 0, g.gen);
        RouteEnds(ActiveSlots(m), 0);
      }
    }
  }

  /** The last-hop test of the chain builder. */
  predicate MarkedLast(s: ActiveSlot) { s.layerEnd >= TOTAL_LAYERS }

  predicate OnlyLastMarked(slots: seq<ActiveSlot>) {
    forall k :: 0 <= k < |slots| ==> (MarkedLast(slots[k]) <==> k == |slots| - 1)
  }

  lemma {:induction false} RouteMarks(slots: seq<ActiveSlot>, lo: nat)
    requires Route(slots, lo)
    ensures lo <= TOTAL_LAYERS
    ensures (forall k :: 0 <= k < |slots| ==> slots[k].layerStart < TOTAL_LAYERS)
      <==> OnlyLastMarked(slots) && (slots != [] ==> lo < TOTAL_LAYERS)
  {
    if slots != [] {
      var tail := slots[1..];
      RouteMarks(tail, slots[0].layerEnd);
      assert forall k :: 0 < k < |slots| ==> slots[k] == tail[k - 1];
      if tail != [] {
        assert tail[0].layerStart == slots[0].layerEnd;
      }
    }
  }

  /** Exactly the final hop of an operational route is marked last if and only if no routed slot starts
      past the layers; so with at most 28 nodes always. */
  lemma OnlyFinalHopIsLast(m: Manager)
    requires Inv(m) && IsOperational(m)
    ensures var route := ActiveSlots(m);
      (forall k :: 0 <= k < |route| ==> (MarkedLast(route[k]) <==> k == |route| - 1))
      <==> (forall k :: 0 <= k < |route| ==> route[k].layerStart < TOTAL_LAYERS)
    ensures |m.active.value.slots| <= TOTAL_LAYERS ==>
      forall k :: 0 <= k < |ActiveSlots(m)| ==> ActiveSlots(m)[k].layerStart < ActiveSlots(m)[k].layerEnd
  {
    OperationalExactly(m);
    RouteMarks(ActiveSlots(m), 0);
    if |m.active.value.slots| <= TOTAL_LAYERS {
      NoEmptySlots(m.active.value.slots);
      ActiveSlotsAreReady(m);
      ReadyNonEmpty(m.active.value.slots, m.active.value.gen);
    }
  }

  /** Up to 28 nodes, an even tiling leaves no node without layers. */
  lemma NoEmptySlots(slots: seq<NodeSlot>)
    requires Tiles(slots) && Even(slots) && |slots| <= TOTAL_LAYERS
    ensures forall i :: 0 <= i < |slots| ==> !IsEmpty(slots[i])
  {
    if i :| 0 <= i < |slots| && IsEmpty(slots[i]) {
      var last := |slots| - 1;
      assert slots[last].layerEnd - slots[last].layerStart == 0 by {
        assert i < last ==> slots[last].layerEnd - slots[last].layerStart <= slots[i].layerEnd - slots[i].layerStart;
      }
      assert forall k :: 0 <= k < last ==> slots[k].layerEnd - slots[k].layerStart <= 1;
      SmallSizes(slots, last);
    }
  }

  lemma {:induction false} SmallSizes(slots: seq<NodeSlot>, k: nat)
    requires Tiles(slots) && k < |slots|
    requires forall i :: 0 <= i < k ==> slots[i].layerEnd - slots[i].layerStart <= 1
    ensures slots[k].layerStart <= k
  {
    if k > 0 {
      SmallSizes(slots, k - 1);
    }
  }

  lemma {:induction false} ReadyNonEmpty(slots: seq<NodeSlot>, gen: nat)
    requires forall i :: 0 <= i < |slots| ==> slots[i].layerStart < slots[i].layerEnd
    ensures forall k :: 0 <= k < |ReadySlots(slots, gen)| ==>
      ReadySlots(slots, gen)[k].layerStart < ReadySlots(slots, gen)[k].layerEnd
  {
    if slots != [] {
      ReadyNonEmpty(slots[1..], gen);
    }
  }

  // ---- rebalancing and the routed ranges ----

  datatype Leg = Leg(nodeId: NodeId, lo: nat, hi: nat)

  /** The routed ranges that have layers. */
  function Legs(slots: seq<NodeSlot>): seq<Leg> {
    if slots == [] then []
    else
      var s := slots[0];
      (if s.infraState == InCluster && !IsEmpty(s) then [Leg(s.nodeId, s.layerStart, s.layerEnd)] else [])
        + Legs(slots[1..])
  }

  function Routed(m: Manager): seq<Leg> {
    if m.active.Some? then Legs(m.active.value.slots) else []
  }

  lemma {:induction false} ByNodeFinds(slots: seq<NodeSlot>, id: NodeId)
    ensures id in ByNode(slots) ==> ByNode(slots)[id] in slots && ByNode(slots)[id].nodeId == id
  {
    if slots != [] {
      ByNodeFinds(slots[..|slots| - 1], id);
    }
  }

  lemma {:induction false} NoLegsLeft(slots: seq<NodeSlot>)
    requires TileFrom(slots, TOTAL_LAYERS)
    ensures Legs(slots) == []
  {
    if slots != [] {
      TileFromBound(slots, TOTAL_LAYERS);
      NoLegsLeft(slots[1..]);
    }
  }

  /** A tiling of ready slots, each of which with layers is also a slot of another tiling, is the whole
      of that tiling up to slots without layers. */
  lemma {:induction false} SubsetThatTilesIsWhole(next: seq<NodeSlot>, prev: seq<NodeSlot>, lo: nat)
    requires TileFrom(next, lo) && TileFrom(prev, lo) && AllReady(next)
    requires forall s :: s in next && !IsEmpty(s) ==> s in prev
    ensures Legs(next) == Legs(prev)
    decreases |next| + |prev|
  {
    if lo == TOTAL_LAYERS {
      NoLegsLeft(next);
      NoLegsLeft(prev);
    } else if IsEmpty(next[0]) {
      SubsetThatTilesIsWhole(next[1..], prev, lo);
      assert Legs(next) == Legs(next[1..]);
    } else if IsEmpty(prev[0]) {
      SubsetThatTilesIsWhole(next, prev[1..], lo);
      assert Legs(prev) == Legs(prev[1..]);
    } else {
      TileFromBound(next[1..], next[0].layerEnd);
      TileFromBound(prev[1..], prev[0].layerEnd);
      assert next[0] in next && next[0] in prev;
      assert forall s :: s in prev[1..] ==> s.layerStart > lo;
      assert next[0] == prev[0];
      assert forall s :: s in next[1..] ==> s.layerStart > lo && s in next;
      SubsetThatTilesIsWhole(next[1..], prev[1..], next[0].layerEnd);
    }
  }

  /** A rebalance that cannot promote at once leaves the active generation, and with it every routed
      range, as it was; one that promotes at once routes the same ranges over the same nodes. */
  lemma RebalanceKeepsRoutes(m: Manager, ids: seq<NodeId>)
    requires Inv(m) && ids != [] && DistinctIds(ids)
    ensures var after := Rebalance(m, ids).0;
      if after.pending.Some? then after.active == m.active
      else m.active.Some? && after.active.Some? && after.active.value.gen == m.nextGen && Routed(after) == Routed(m)
  {
    var after := Rebalance(m, ids).0;
    if after.pending.None? {
      var current, slots := Current(m.active), Split(ids);
      var next := Marked(current, slots);
      SplitTilesEvenly(ids);
      AllKept(current, slots);
      assert Keeps(current, slots[0]);
      var prev := m.active.value.slots;
      KeptAreOld(prev, slots);
      SameRangesOk(slots, next);
      TilesFromStart(next);
      TilesFromStart(prev);
      SubsetThatTilesIsWhole(next, prev, 0);
    }
  }

  /** Slots that start out reinitializing are all ready only if every one is kept. */
  lemma AllKept(current: map<NodeId, NodeSlot>, slots: seq<NodeSlot>)
    requires AllReady(Marked(current, slots)) && forall i :: 0 <= i < |slots| ==> slots[i].infraState == Reinitializing
    ensures forall i :: 0 <= i < |slots| ==> Keeps(current, slots[i])
  {
    forall i | 0 <= i < |slots| ensures Keeps(current, slots[i]) {
      assert Marked(current, slots)[i].infraState == InCluster;
    }
  }

  lemma KeptAreOld(prev: seq<NodeSlot>, slots: seq<NodeSlot>)
    requires forall i :: 0 <= i < |slots| ==> Keeps(ByNode(prev), slots[i])
    ensures forall s :: s in Marked(ByNode(prev), slots) ==> s in prev
  {
    var next := Marked(ByNode(prev), slots);
    forall s | s in next ensures s in prev {
      var i :| 0 <= i < |next| && next[i] == s;
      ByNodeFinds(prev, slots[i].nodeId);
      assert ByNode(prev)[slots[i].nodeId] == s;
    }
  }
}
