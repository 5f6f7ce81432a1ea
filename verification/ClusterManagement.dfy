/** The manager as the object it is: generations move between its slots while their in-flight counters
    are shared, heap-allocated cells that requests keep after their generation has gone. Each method is
    proved to do to the object what ServingClusters says it does to the state. */
module ClusterManagement {
  import opened Wrappers
  import opened ServingClusters

  /** An atomic counter; it knows, for the proof, the generation it was made for. */
  class Counter {
    ghost const gen: nat
    var count: nat

    constructor (ghost gen: nat)
      ensures this.gen == gen && count == 0
    {
      this.gen := gen;
      count := 0;
    }
  }

  datatype LiveGeneration = LiveGeneration(gen: nat, slots: seq<NodeSlot>, inFlight: Counter, state: GenState) {
    function Plain(): Generation { Generation(gen, slots, state) }
  }

  function PlainOption(g: Option<LiveGeneration>): Option<Generation> {
    if g.Some? then Some(g.value.Plain()) else None
  }

  class ClusterManager {
    var nextGen: nat
    var active: Option<LiveGeneration>
    var pending: Option<LiveGeneration>
    var draining: Option<LiveGeneration>
    ghost var made: map<nat, Counter>  // every counter ever made

    ghost predicate Linked(g: Option<LiveGeneration>)
      reads this
    {
      g.Some? ==> g.value.gen in made && made[g.value.gen] == g.value.inFlight
    }

    ghost predicate Valid()
      reads this
    {
      && Linked(active) && Linked(pending) && Linked(draining)
      && (forall g :: g in made ==> made[g].gen == g && g < nextGen)
    }

    /** The state this object represents. */
    ghost function State(): Manager
      reads this, made.Values
      requires Valid()
    {
      Manager(nextGen, PlainOption(active), PlainOption(pending), PlainOption(draining),
        map g | g in made :: made[g].count)
    }

    constructor ()
      ensures Valid() && State() == FRESH && made == map[]
    {
      nextGen := 1;
      active, pending, draining := None, None, None;
      made := map[];
    }

    /** The previous active generation drains if requests still hold its counter, else it is dropped. */
    method RetireOrDrainOld(previous: Option<LiveGeneration>)
      requires Valid() && Linked(previous)
      modifies this`draining
      ensures Valid() && made == old(made)
      ensures previous.Some? && previous.value.inFlight.count > 0 ==>
        draining == Some(previous.value.(state := Draining))
      ensures previous.None? || previous.value.inFlight.count == 0 ==> draining == old(draining)
      ensures PlainOption(draining) == RetireOrDrain(old(State()), PlainOption(previous))
    {
      if previous.Some? && previous.value.inFlight.count != 0 {
        draining := Some(previous.value.(state := Draining));
      }
    }

    method Install(slots: seq<NodeSlot>)
      requires Valid()
      modifies this
      ensures Valid() && State() == ServingClusters.Install(old(State()), slots)
      ensures old(nextGen) in made && fresh(made[old(nextGen)]) && made == old(made)[old(nextGen) := made[old(nextGen)]]
    {
      var gen := nextGen;
      var counter := MakeCounter();
      if AllReady(slots) {
        Promote(LiveGeneration(gen, slots, counter, Active));
      } else {
        pending := Some(LiveGeneration(gen, slots, counter, Forming));
        assert State().counters == old(State()).counters[gen := 0];
      }
    }

    /** A new generation's number, and its counter. */
    method MakeCounter() returns (counter: Counter)
      requires Valid()
      modifies this`nextGen, this`made
      ensures Valid() && fresh(counter) && nextGen == old(nextGen) + 1 && made == old(made)[old(nextGen) := counter]
      ensures State() == old(State()).(nextGen := nextGen, counters := old(State()).counters[old(nextGen) := 0])
    {
      counter := new Counter(nextGen);
      made := made[nextGen := counter];
      nextGen := nextGen + 1;
      assert State().counters == old(State()).counters[old(nextGen) := 0];
    }

    /** The generation takes the active slot. */
    method Promote(g: LiveGeneration)
      requires Valid() && Linked(Some(g))
      modifies this`active, this`pending, this`draining
      ensures Valid() && active == Some(g) && pending == None
      ensures draining == if old(active.Some? && active.value.inFlight.count > 0) then
          Some(old(active).value.(state := Draining))
        else old(draining)
      ensures State() == old(State()).(active := Some(g.Plain()), pending := None,
                                       draining := RetireOrDrain(old(State()), old(State()).active))
    {
      RetireOrDrainOld(active);
      active, pending := Some(g), None;
      assert State().counters == old(State()).counters;
    }

    method Rebalance(ids: seq<NodeId>) returns (assignments: seq<Assignment>)
      requires Valid()
      modifies this
      ensures Valid()
      ensures (State(), assignments) == ServingClusters.Rebalance(old(State()), ids)
      ensures ids == [] ==> made == old(made)
      ensures ids != [] ==>
        old(nextGen) in made && fresh(made[old(nextGen)]) && made == old(made)[old(nextGen) := made[old(nextGen)]]
    {
      assignments := [];
      if ids == [] {
        RetireOrDrainOld(active);
        active, pending := None, None;
        assert State().counters == old(State()).counters;
      } else {
        var slots := SplitLayers(ids);
        slots, assignments := MarkKept(Current(PlainOption(active)), slots, nextGen);
        Install(slots);
      }
    }

    method NodeReady(id: NodeId) returns (promoted: bool)
      requires Valid()
      modifies this
      ensures Valid() && made == old(made)
      ensures (State(), promoted) == ServingClusters.NodeReady(old(State()), id)
    {
      promoted := false;
      if !Holds(PlainOption(pending), id) {
        return;
      }
      var slots := SetFirstSlot(pending.value.slots, id, InCluster);
      pending := Some(pending.value.(slots := slots));
      assert State().counters == old(State()).counters;
      if AllReady(slots) {
        Promote(pending.value.(state := Active));
        promoted := true;
      }
    }

    method NodeReinitializing(id: NodeId)
      requires Valid()
      modifies this
      ensures Valid() && made == old(made)
      ensures State() == ServingClusters.NodeReinitializing(old(State()), id)
    {
      if Holds(PlainOption(pending), id) {
        var slots := SetFirstSlot(pending.value.slots, id, Reinitializing);
        pending := Some(pending.value.(slots := slots));
      } else if active.Some? {
        var slots := SetFirstSlot(active.value.slots, id, Reinitializing);
        active := Some(active.value.(slots := slots));
      }
      assert State().counters == old(State()).counters;
    }

    /** Takes a guard on the active generation: its counter, one higher. */
    method RequestStart() returns (guard: Option<Counter>)
      requires Valid()
      modifies made.Values
      ensures Valid() && made == old(made)
      ensures guard.Some? ==> guard.value.gen in made && made[guard.value.gen] == guard.value
      ensures (State(), if guard.Some? then Some(guard.value.gen) else None)
        == ServingClusters.RequestStart(old(State()))
    {
      if active.None? || active.value.state != Active {
        return None;
      }
      var counter := active.value.inFlight;
      counter.count := FetchAdd(counter.count);
      guard := Some(counter);
      assert State().counters == old(State()).counters[counter.gen := counter.count];
    }

    /** Gives a guard back, whichever slot its generation is in by now. */
    method RequestEnd(guard: Counter)
      requires Valid() && guard.gen in made && made[guard.gen] == guard
      modifies guard
      ensures Valid()
      ensures State() == ServingClusters.RequestEnd(old(State()), guard.gen)
    {
      var prev := guard.count;
      guard.count := if prev == 0 then U32 - 1 else prev - 1;
      if prev == 0 {
        guard.count := FetchAdd(guard.count);
      }
      assert State().counters == old(State()).counters[guard.gen := guard.count];
    }

    /** The state under the read lock. */
    method Snapshot() returns (m: Manager)
      requires Valid()
      ensures m.(counters := State().counters) == State()
    {
      m := Manager(nextGen, PlainOption(active), PlainOption(pending), PlainOption(draining), map[]);
    }

    method MaybeRetireDraining()
      requires Valid()
      modifies this
      ensures Valid() && made == old(made)
      ensures State() == ServingClusters.MaybeRetireDraining(old(State()))
    {
      if draining.Some? && draining.value.inFlight.count == 0 {
        draining := None;
      }
      assert State().counters == old(State()).counters;
    }
  }

  /** The split loop with its running start. */
  method SplitLayers(ids: seq<NodeId>) returns (slots: seq<NodeSlot>)
    requires ids != []
    ensures slots == Split(ids)
  {
    slots := [];
    var start: nat := 0;
    var n := |ids|;
    for i := 0 to n
      invariant slots + SplitFrom(ids, i, start) == Split(ids)
    {
      var extra := if i < TOTAL_LAYERS % n then 1 else 0;
      var end := start + TOTAL_LAYERS / n + extra;
      slots := slots + [NodeSlot(ids[i], start, end, Reinitializing)];
      start := end;
    }
  }

  /** The second loop of rebalance: mark the slots that keep their range and list what to send. */
  method MarkKept(
    current: map<NodeId, NodeSlot>, slots: seq<NodeSlot>, gen: nat)
    returns (marked: seq<NodeSlot>, sends: seq<Assignment>)
    ensures marked == Marked(current, slots) && sends == Assignments(current, slots, gen)
  {
    marked, sends := [], [];
    for i := 0 to |slots|
      invariant marked == Marked(current, slots)[..i] && sends == Assignments(current, slots, gen)[..i]
    {
      var skip := Keeps(current, slots[i]);
      marked := marked + [if skip then slots[i].(infraState := InCluster) else slots[i]];
      sends := sends + [Assignment(slots[i].nodeId, slots[i].layerStart, slots[i].layerEnd, skip, gen)];
    }
  }

  /** The report loops: set the state of the node's first slot and stop. */
  method SetFirstSlot(slots: seq<NodeSlot>, id: NodeId, st: InfraState) returns (r: seq<NodeSlot>)
    ensures r == SetFirst(slots, id, st)
  {
    r := slots;
    for i := 0 to |slots|
      invariant r == slots
      invariant forall k :: 0 <= k < i ==> slots[k].nodeId != id
    {
      if slots[i].nodeId == id {
        r := slots[i := slots[i].(infraState := st)];
        FirstAt(slots, i, id, st);
        return;
      }
    }
    FirstAt(slots, |slots|, id, st);
  }

  lemma {:induction false} FirstAt(slots: seq<NodeSlot>, i: nat, id: NodeId, st: InfraState)
    requires i <= |slots| && (i < |slots| ==> slots[i].nodeId == id)
    requires forall k :: 0 <= k < i ==> slots[k].nodeId != id
    ensures SetFirst(slots, id, st) == if i < |slots| then slots[i := slots[i].(infraState := st)] else slots
  {
    if slots != [] {
      if i > 0 {
        FirstAt(slots[1..], i - 1, id, st);
      }
    }
  }
}
