/** Cluster generations (server/coordinator/src/serving_clusters.rs) as values: what each operation of
    the manager does to its state. In-flight counters are kept by generation number; they live on
    after the generation has left every slot, as the shared counters do. */
module ServingClusters {
  import opened Wrappers

  const TOTAL_LAYERS: nat := 28
  const U32: nat := 0x1_0000_0000

  datatype NodeId = NodeId(n: nat)

  datatype InfraState = Available | InCluster | Reinitializing

  datatype NodeSlot = NodeSlot(nodeId: NodeId, layerStart: nat, layerEnd: nat, infraState: InfraState)

  datatype GenState = Forming | Active | Draining

  datatype Generation = Generation(gen: nat, slots: seq<NodeSlot>, state: GenState)

  datatype Manager = Manager(
    nextGen: nat,
    active: Option<Generation>,
    pending: Option<Generation>,
    draining: Option<Generation>,
    counters: map<nat, nat>)  // generation number to in-flight count

  datatype Assignment = Assignment(nodeId: NodeId, layerStart: nat, layerEnd: nat, skipDownload: bool, gen: nat)

  const FRESH := Manager(1, None, None, None, map[])

  function CounterOf(m: Manager, gen: nat): nat {
    if gen in m.counters then m.counters[gen] else 0
  }

  // ---- rebalance ----

  /** How many layers the i-th of n nodes gets. */
  function Share(n: nat, i: nat): nat
    requires n > 0
  {
    TOTAL_LAYERS / n + if i < TOTAL_LAYERS % n then 1 else 0
  }

  function SplitFrom(ids: seq<NodeId>, i: nat, start: nat): (slots: seq<NodeSlot>)
    requires i <= |ids|
    ensures |slots| == |ids| - i
    decreases |ids| - i
  {
    if i == |ids| then []
    else
      var end := start + Share(|ids|, i);
      [NodeSlot(ids[i], start, end, Reinitializing)] + SplitFrom(ids, i + 1, end)
  }

  function Split(ids: seq<NodeId>): seq<NodeSlot> { SplitFrom(ids, 0, 0) }

  /** The active generation's slots by node. */
  function ByNode(slots: seq<NodeSlot>): map<NodeId, NodeSlot> {
    if slots == [] then map[]
    else ByNode(slots[..|slots| - 1])[slots[|slots| - 1].nodeId := slots[|slots| - 1]]
  }

  function Current(active: Option<Generation>): map<NodeId, NodeSlot> {
    if active.Some? then ByNode(active.value.slots) else map[]
  }

  /** The node already serves exactly this range in the active generation. */
  predicate Keeps(current: map<NodeId, NodeSlot>, slot: NodeSlot) {
    && slot.nodeId in current
    && current[slot.nodeId].layerStart == slot.layerStart
    && current[slot.nodeId].layerEnd == slot.layerEnd
    && current[slot.nodeId].infraState == InCluster
  }

  function Marked(current: map<NodeId, NodeSlot>, slots: seq<NodeSlot>): (r: seq<NodeSlot>)
    ensures |r| == |slots|
  {
    seq(|slots|, i requires 0 <= i < |slots| => if Keeps(current, slots[i]) then slots[i].(infraState := InCluster)
      else slots[i])
  }

  function Assignments(current: map<NodeId, NodeSlot>, slots: seq<NodeSlot>, gen: nat): seq<Assignment> {
    seq(|slots|, i requires 0 <= i < |slots| =>
      Assignment(slots[i].nodeId, slots[i].layerStart, slots[i].layerEnd, Keeps(current, slots[i]), gen))
  }

  predicate AllReady(slots: seq<NodeSlot>) {
    forall i :: 0 <= i < |slots| ==> slots[i].infraState == InCluster
  }

  /** The draining slot after the previous generation has lost the active one: overwritten only if
      requests are in flight. */
  function RetireOrDrain(m: Manager, previous: Option<Generation>): Option<Generation> {
    if previous.None? || CounterOf(m, previous.value.gen) == 0 then m.draining
    else Some(previous.value.(state := Draining))
  }

  /** A new generation over the slots: active at once when all of them are ready, else pending. */
  function Install(m: Manager, slots: seq<NodeSlot>): Manager {
    var counted := m.(nextGen := m.nextGen + 1, counters := m.counters[m.nextGen := 0]);
    if AllReady(slots) then
      counted.(active := Some(Generation(m.nextGen, slots, Active)), pending := None,
        draining := RetireOrDrain(m, m.active))
    else
      counted.(pending := Some(Generation(m.nextGen, slots, Forming)))
  }

  function Rebalance(m: Manager, ids: seq<NodeId>): (Manager, seq<Assignment>) {
    if ids == [] then
      (m.(active := None, pending := None, draining := RetireOrDrain(m, m.active)), [])
    else
      var current := Current(m.active);
      (Install(m, Marked(current, Split(ids))), Assignments(current, Split(ids), m.nextGen))
  }

  // ---- node reports ----

  /** The first slot of the node gets the state. */
  function SetFirst(slots: seq<NodeSlot>, id: NodeId, st: InfraState): (r: seq<NodeSlot>)
    ensures |r| == |slots|
  {
    if slots == [] then []
    else if slots[0].nodeId == id then [slots[0].(infraState := st)] + slots[1..]
    else [slots[0]] + SetFirst(slots[1..], id, st)
  }

  predicate Holds(g: Option<Generation>, id: NodeId) {
    g.Some? && exists i :: 0 <= i < |g.value.slots| && g.value.slots[i].nodeId == id
  }

  function SetIn(g: Generation, id: NodeId, st: InfraState): Generation {
    g.(slots := SetFirst(g.slots, id, st))
  }

  function NodeReady(m: Manager, id: NodeId): (Manager, bool) {
    if !Holds(m.pending, id) then (m, false)
    else
      var g := SetIn(m.pending.value, id, InCluster);
      if !AllReady(g.slots) then (m.(pending := Some(g)), false)
      else (m.(active := Some(g.(state := Active)), pending := None, draining := RetireOrDrain(m, m.active)), true)
  }

  function NodeReinitializing(m: Manager, id: NodeId): Manager {
    if Holds(m.pending, id) then m.(pending := Some(SetIn(m.pending.value, id, Reinitializing)))
    else if m.active.Some? then m.(active := Some(SetIn(m.active.value, id, Reinitializing)))
    else m
  }

  // ---- requests ----

  function FetchAdd(count: nat): nat { (count + 1) % U32 }

  /** `fetch_sub` with the underflow repair: a zero counter ends as zero. */
  function FetchSub(count: nat): nat { if count == 0 then 0 else count - 1 }

  function RequestStart(m: Manager): (Manager, Option<nat>) {
    if m.active.None? || m.active.value.state != Active then (m, None)
    else
      var gen := m.active.value.gen;
      (m.(counters := m.counters[gen := FetchAdd(CounterOf(m, gen))]), Some(gen))
  }

  function RequestEnd(m: Manager, gen: nat): Manager {
    m.(counters := m.counters[gen := FetchSub(CounterOf(m, gen))])
  }

  function MaybeRetireDraining(m: Manager): Manager {
    if m.draining.Some? && CounterOf(m, m.draining.value.gen) == 0 then m.(draining := None) else m
  }

  // ---- routing ----

  datatype ActiveSlot = ActiveSlot(nodeId: NodeId, layerStart: nat, layerEnd: nat, gen: nat)

  function ReadySlots(slots: seq<NodeSlot>, gen: nat): seq<ActiveSlot> {
    if slots == [] then []
    else
      var s := slots[0];
      (if s.infraState == InCluster then [ActiveSlot(s.nodeId, s.layerStart, s.layerEnd, gen)] else [])
        + ReadySlots(slots[1..], gen)
  }

  /** Stable insertion of a slot behind those that start no later. */
  function InsertByStart(slots: seq<ActiveSlot>, s: ActiveSlot): seq<ActiveSlot> {
    if slots == [] || slots[|slots| - 1].layerStart <= s.layerStart then slots + [s]
    else InsertByStart(slots[..|slots| - 1], s) + [slots[|slots| - 1]]
  }

  function SortByStart(slots: seq<ActiveSlot>): seq<ActiveSlot> {
    if slots == [] then [] else InsertByStart(SortByStart(slots[..|slots| - 1]), slots[|slots| - 1])
  }

  function ActiveSlots(m: Manager): seq<ActiveSlot> {
    if m.active.None? || m.active.value.state != Active then []
    else SortByStart(ReadySlots(m.active.value.slots, m.active.value.gen))
  }

  /** The cursor scan: no slot starts beyond what the slots before it cover. */
  function Covered(slots: seq<ActiveSlot>, cursor: nat): Option<nat> {
    if slots == [] then Some(cursor)
    else if slots[0].layerStart > cursor then None
    else Covered(slots[1..], if cursor < slots[0].layerEnd then slots[0].layerEnd else cursor)
  }

  predicate IsOperational(m: Manager) {
    var slots := ActiveSlots(m);
    && slots != []
    && slots[0].layerStart == 0
    && slots[|slots| - 1].layerEnd >= TOTAL_LAYERS
    && Covered(slots, 0).Some?
    && Covered(slots, 0).value >= TOTAL_LAYERS
  }

  // ---- invariants ----

  /** Contiguous ranges from 0 to all the layers, in slot order. */
  ghost predicate Tiles(slots: seq<NodeSlot>) {
    && slots != []
    && slots[0].layerStart == 0
    && slots[|slots| - 1].layerEnd == TOTAL_LAYERS
    && (forall i :: 0 <= i < |slots| ==> slots[i].layerStart <= slots[i].layerEnd)
    && (forall i :: 0 <= i < |slots| - 1 ==> slots[i].layerEnd == slots[i + 1].layerStart)
  }

  /** Range sizes differ by at most one, the larger ones first. */
  ghost predicate Even(slots: seq<NodeSlot>) {
    forall i, j :: 0 <= i < j < |slots| ==>
      var a, b := slots[i].layerEnd - slots[i].layerStart, slots[j].layerEnd - slots[j].layerStart;
      b <= a <= b + 1
  }

  ghost predicate DistinctNodes(slots: seq<NodeSlot>) {
    forall i, j :: 0 <= i < j < |slots| ==> slots[i].nodeId != slots[j].nodeId
  }

  ghost predicate SlotsOk(slots: seq<NodeSlot>) {
    Tiles(slots) && Even(slots) && DistinctNodes(slots)
  }

  ghost predicate Holding(g: Option<Generation>, st: GenState) {
    g.Some? ==> g.value.state == st && SlotsOk(g.value.slots)
  }

  predicate Before(a: Option<Generation>, b: Option<Generation>) {
    a.Some? && b.Some? ==> a.value.gen < b.value.gen
  }

  ghost predicate Made(m: Manager, g: Option<Generation>) {
    g.Some? ==> g.value.gen in m.counters
  }

  /** The three slots hold generations of their own state, in order of age. */
  ghost predicate SlotsInv(m: Manager) {
    && Holding(m.active, Active) && Holding(m.pending, Forming) && Holding(m.draining, Draining)
    && Before(m.draining, m.active) && Before(m.draining, m.pending) && Before(m.active, m.pending)
    && (m.pending.Some? ==> !AllReady(m.pending.value.slots))
  }

  /** There is one counter for every generation made so far. */
  ghost predicate CountersInv(m: Manager) {
    && Made(m, m.active) && Made(m, m.pending) && Made(m, m.draining)
    && m.nextGen >= 1
    && (forall g :: g in m.counters <==> 1 <= g < m.nextGen)
    && (forall g :: g in m.counters ==> m.counters[g] < U32)
  }

  ghost predicate Inv(m: Manager) { SlotsInv(m) && CountersInv(m) }

  /** Where the i-th of n ranges starts. */
  function Start(n: nat, i: nat): nat
    requires n > 0
  {
    if i == 0 then 0 else Start(n, i - 1) + Share(n, i - 1)
  }

  lemma OnceMore(i: nat, x: nat)
    requires i > 0
    ensures i * x == (i - 1) * x + x
  {
  }

  lemma {:induction false} StartClosed(n: nat, i: nat)
    requires n > 0
    ensures Start(n, i) == i * (TOTAL_LAYERS / n) + if i < TOTAL_LAYERS % n then i else TOTAL_LAYERS % n
  {
    if i > 0 {
      StartClosed(n, i - 1);
      OnceMore(i, TOTAL_LAYERS / n);
    }
  }

  function SlotAt(ids: seq<NodeId>, k: nat): NodeSlot
    requires k < |ids|
  {
    NodeSlot(ids[k], Start(|ids|, k), Start(|ids|, k + 1), Reinitializing)
  }

  lemma {:induction false} SplitFromAt(ids: seq<NodeId>, i: nat, k: nat)
    requires i <= k < |ids|
    ensures SplitFrom(ids, i, Start(|ids|, i))[k - i] == SlotAt(ids, k)
    decreases |ids| - i
  {
    var rest := SplitFrom(ids, i + 1, Start(|ids|, i + 1));
    assert SplitFrom(ids, i, Start(|ids|, i)) == [SlotAt(ids, i)] + rest;
    if i < k {
      SplitFromAt(ids, i + 1, k);
    }
  }

  ghost predicate DistinctIds(ids: seq<NodeId>) {
    forall i, j :: 0 <= i < j < |ids| ==> ids[i] != ids[j]
  }

  lemma StartEnds(n: nat)
    requires n > 0
    ensures Start(n, n) == TOTAL_LAYERS
  {
    StartClosed(n, n);
    assert n * (TOTAL_LAYERS / n) + TOTAL_LAYERS % n == TOTAL_LAYERS;
  }

  lemma SplitAt(ids: seq<NodeId>)
    ensures |Split(ids)| == |ids| && forall i: nat :: i < |ids| ==> Split(ids)[i] == SlotAt(ids, i)
  {
    forall i: nat | i < |ids| ensures Split(ids)[i] == SlotAt(ids, i) {
      SplitFromAt(ids, 0, i);
    }
  }

  lemma SizeAt(ids: seq<NodeId>, i: nat)
    requires i < |ids|
    ensures SlotAt(ids, i).layerEnd - SlotAt(ids, i).layerStart == Share(|ids|, i)
  {
  }

  /** The split hands out all the layers in node order, as evenly as possible. */
  lemma SplitTilesEvenly(ids: seq<NodeId>)
    requires ids != [] && DistinctIds(ids)
    ensures SlotsOk(Split(ids)) && |Split(ids)| == |ids|
    ensures forall i :: 0 <= i < |ids| ==> Split(ids)[i].nodeId == ids[i] && Split(ids)[i].infraState == Reinitializing
  {
    SplitAt(ids);
    SplitTiles(ids);
    SplitEven(ids);
  }

  lemma SplitTiles(ids: seq<NodeId>)
    requires ids != []
    ensures Tiles(Split(ids))
  {
    SplitAt(ids);
    StartEnds(|ids|);
  }

  lemma SplitEven(ids: seq<NodeId>)
    requires ids != []
    ensures Even(Split(ids))
  {
    SplitAt(ids);
    var slots := Split(ids);
    forall i, j | 0 <= i < j < |slots|
      ensures var a, b := slots[i].layerEnd - slots[i].layerStart, slots[j].layerEnd - slots[j].layerStart;
        b <= a <= b + 1
    {
      SizeAt(ids, i);
      SizeAt(ids, j);
    }
  }

  /** Same nodes and ranges, whatever the infra states. */
  ghost predicate SameRanges(a: seq<NodeSlot>, b: seq<NodeSlot>) {
    && |a| == |b|
    && forall i :: 0 <= i < |a| ==>
      a[i].nodeId == b[i].nodeId && a[i].layerStart == b[i].layerStart && a[i].layerEnd == b[i].layerEnd
  }

  lemma SameRangesOk(a: seq<NodeSlot>, b: seq<NodeSlot>)
    requires SlotsOk(a) && SameRanges(a, b)
    ensures SlotsOk(b)
  {
    SameRangesEven(a, b);
    SameRangesDistinct(a, b);
  }

  lemma SameRangesEven(a: seq<NodeSlot>, b: seq<NodeSlot>)
    requires Even(a) && SameRanges(a, b)
    ensures Even(b)
  {
    forall i, j | 0 <= i < j < |b|
      ensures b[j].layerEnd - b[j].layerStart <= b[i].layerEnd - b[i].layerStart <= b[j].layerEnd - b[j].layerStart + 1
    {
      assert a[i].layerEnd - a[i].layerStart >= a[j].layerEnd - a[j].layerStart;
    }
  }

  lemma SameRangesDistinct(a: seq<NodeSlot>, b: seq<NodeSlot>)
    requires DistinctNodes(a) && SameRanges(a, b)
    ensures DistinctNodes(b)
  {
    forall i, j | 0 <= i < j < |b| ensures b[i].nodeId != b[j].nodeId {
      assert a[i].nodeId != a[j].nodeId;
    }
  }

  lemma {:induction false} SetFirstAt(slots: seq<NodeSlot>, id: NodeId, st: InfraState, i: nat)
    requires i < |slots| && DistinctNodes(slots)
    ensures SetFirst(slots, id, st)[i] == if slots[i].nodeId == id then slots[i].(infraState := st) else slots[i]
  {
    if slots[0].nodeId == id {
      assert i > 0 ==> slots[i].nodeId != id;
    } else if i > 0 {
      SetFirstAt(slots[1..], id, st, i - 1);
    }
  }

  lemma SetFirstOk(slots: seq<NodeSlot>, id: NodeId, st: InfraState)
    requires SlotsOk(slots)
    ensures SlotsOk(SetFirst(slots, id, st))
  {
    forall i: nat | i < |slots|
      ensures SetFirst(slots, id, st)[i] == if slots[i].nodeId == id then slots[i].(infraState := st) else slots[i]
    {
      SetFirstAt(slots, id, st, i);
    }
    SameRangesOk(slots, SetFirst(slots, id, st));
  }

  // ---- runs ----

  datatype Op =
    | DoRebalance(ids: seq<NodeId>)
    | DoReady(id: NodeId)
    | DoReinit(id: NodeId)
    | DoStart
    | DoEnd(gen: nat)
    | DoRetire

  /** Node ids come from the keys of a map; a guard belongs to a generation that was made. */
  ghost predicate Allowed(m: Manager, op: Op) {
    match op
    case DoRebalance(ids) => DistinctIds(ids)
    case DoEnd(gen) => gen in m.counters
    case _ => true
  }

  function Apply(m: Manager, op: Op): Manager {
    match op
    case DoRebalance(ids) => Rebalance(m, ids).0
    case DoReady(id) => NodeReady(m, id).0
    case DoReinit(id) => NodeReinitializing(m, id)
    case DoStart => RequestStart(m).0
    case DoEnd(gen) => RequestEnd(m, gen)
    case DoRetire => MaybeRetireDraining(m)
  }

  lemma InstallKeepsInv(m: Manager, slots: seq<NodeSlot>)
    requires Inv(m) && SlotsOk(slots)
    ensures Inv(Install(m, slots))
  {
    InstallKeepsCounters(m, slots);
    InstallKeepsSlots(m, slots);
  }

  lemma InstallKeepsCounters(m: Manager, slots: seq<NodeSlot>)
    requires CountersInv(m)
    ensures CountersInv(Install(m, slots))
  {
  }

  lemma InstallKeepsSlots(m: Manager, slots: seq<NodeSlot>)
    requires SlotsInv(m) && CountersInv(m) && SlotsOk(slots)
    ensures SlotsInv(Install(m, slots))
  {
  }

  lemma RebalanceKeepsInv(m: Manager, ids: seq<NodeId>)
    requires Inv(m) && DistinctIds(ids)
    ensures Inv(Rebalance(m, ids).0)
  {
    if ids != [] {
      SplitTilesEvenly(ids);
      SameRangesOk(Split(ids), Marked(Current(m.active), Split(ids)));
      InstallKeepsInv(m, Marked(Current(m.active), Split(ids)));
    }
  }

  lemma ReadyKeepsInv(m: Manager, id: NodeId)
    requires Inv(m)
    ensures Inv(NodeReady(m, id).0)
  {
    if Holds(m.pending, id) {
      SetFirstOk(m.pending.value.slots, id, InCluster);
      ReadyKeepsSlots(m, id);
    }
  }

  lemma ReadyKeepsSlots(m: Manager, id: NodeId)
    requires SlotsInv(m) && Holds(m.pending, id) && SlotsOk(SetFirst(m.pending.value.slots, id, InCluster))
    ensures SlotsInv(NodeReady(m, id).0)
  {
  }

  lemma ReinitKeepsInv(m: Manager, id: NodeId)
    requires Inv(m)
    ensures Inv(NodeReinitializing(m, id))
  {
    if Holds(m.pending, id) {
      var slots := m.pending.value.slots;
      SetFirstOk(slots, id, Reinitializing);
      var i: nat :| i < |slots| && slots[i].infraState != InCluster;
      SetFirstAt(slots, id, Reinitializing, i);
      assert SetFirst(slots, id, Reinitializing)[i].infraState != InCluster;
    } else if m.active.Some? {
      SetFirstOk(m.active.value.slots, id, Reinitializing);
    }
  }

  /** Every operation keeps the invariant. */
  lemma ApplyKeepsInv(m: Manager, op: Op)
    requires Inv(m) && Allowed(m, op)
    ensures Inv(Apply(m, op))
  {
    match op
    case DoRebalance(ids) => RebalanceKeepsInv(m, ids);
    case DoReady(id) => ReadyKeepsInv(m, id);
    case DoReinit(id) => ReinitKeepsInv(m, id);
    case DoStart =>
    case DoEnd(gen) =>
    case DoRetire =>
  }

  function Run(ops: seq<Op>): Manager {
    if ops == [] then FRESH else Apply(Run(ops[..|ops| - 1]), ops[|ops| - 1])
  }

  /** Every run of the manager: the slots hold generations of their own state, ordered by number, each
      a tiling of the layers over distinct nodes, and a pending generation is never fully ready. */
  lemma {:induction false} EveryRunKeepsInv(ops: seq<Op>)
    requires forall k :: 0 <= k < |ops| ==> Allowed(Run(ops[..k]), ops[k])
    ensures Inv(Run(ops))
  {
    if ops != [] {
      var last := |ops| - 1;
      assert forall k :: 0 <= k < last ==> ops[..last][..k] == ops[..k];
      EveryRunKeepsInv(ops[..last]);
      ApplyKeepsInv(Run(ops[..last]), ops[last]);
    }
  }
}
