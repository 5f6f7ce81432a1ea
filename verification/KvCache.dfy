/** The per-request KV cache store of a node: an ordered dictionary kept in recency order, with
    capacity eviction from the front and an idle reaper (inference/node_forward.py), and the
    timestamp map that plays the same part in the candle server (client/candle-server/src/model.rs). */
module KvCache {

  datatype Id = Id(n: nat)  // a request id: only compared for equality

  datatype Item<V> = Item(id: Id, cache: V, lastAccess: int)

  /** Python's OrderedDict as its items in order; the front is the least recently used end. */
  type OrderedDict<V> = seq<Item<V>>

  ghost predicate Valid<V>(od: OrderedDict<V>) {
    forall i, j :: 0 <= i < j < |od| ==> od[i].id != od[j].id
  }

  /** Position of an id, or the length when it is absent. */
  function Find<V>(od: OrderedDict<V>, id: Id): (k: nat)
    ensures k <= |od|
    ensures k < |od| ==> od[k].id == id
    ensures forall i :: 0 <= i < k ==> od[i].id != id
  {
    if od == [] || od[0].id == id then 0 else 1 + Find(od[1..], id)
  }

  predicate Has<V>(od: OrderedDict<V>, id: Id) { Find(od, id) < |od| }

  function Get<V>(od: OrderedDict<V>, id: Id): V
    requires Has(od, id)
  {
    od[Find(od, id)].cache
  }

  function Pop<V>(od: OrderedDict<V>, id: Id): OrderedDict<V> {
    var k := Find(od, id);
    if k < |od| then od[..k] + od[k + 1..] else od
  }

  function Touch<V>(od: OrderedDict<V>, id: Id, now: int): OrderedDict<V>
    requires Has(od, id)
  {
    Pop(od, id) + [Item(id, Get(od, id), now)]
  }

  function EvictOver<V>(od: OrderedDict<V>, max: nat): OrderedDict<V> {
    if |od| <= max then od else od[|od| - max..]
  }

  /** Entering a forward pass: drop on reset, then insert-and-evict or touch. */
  function Enter<V>(od: OrderedDict<V>, id: Id, reset: bool, empty: V, now: int, max: nat): OrderedDict<V> {
    var od := if reset then Pop(od, id) else od;
    if Has(od, id) then Touch(od, id, now) else EvictOver(od + [Item(id, empty, now)], max)
  }

  /** The items idle for no longer than the timeout, in order. */
  function Fresh<V>(od: OrderedDict<V>, now: int, timeout: nat): OrderedDict<V> {
    if od == [] then []
    else (if now - od[0].lastAccess > timeout then [] else [od[0]]) + Fresh(od[1..], now, timeout)
  }

  /** What a reaper round leaves; with a timeout of zero the reaper never runs. */
  function Reaped<V>(od: OrderedDict<V>, now: int, timeout: nat): OrderedDict<V> {
    if timeout == 0 then od else Fresh(od, now, timeout)
  }

  /** The eviction loop of `_lru_evict`: pop the front while the dictionary is over capacity. */
  method LruEvict<V>(od: OrderedDict<V>, max: nat) returns (left: OrderedDict<V>, evicted: seq<Id>)
    ensures left == EvictOver(od, max) && left == if |od| <= max then od else od[|od| - max..]
    ensures |evicted| == |od| - |left| && forall i :: 0 <= i < |evicted| ==> evicted[i] == od[i].id
  {
    left, evicted := od, [];
    while |left| > max
      invariant |evicted| <= |od| && left == od[|evicted|..]
      invariant evicted != [] ==> |left| >= max
      invariant forall i :: 0 <= i < |evicted| ==> evicted[i] == od[i].id
    {
      left, evicted := left[1..], evicted + [left[0].id];
    }
  }

  /** One round of the reaper thread: list the stale ids, then pop them one by one. */
  method ReapIdle<V>(od: OrderedDict<V>, now: int, timeout: nat) returns (left: OrderedDict<V>)
    requires Valid(od)
    ensures left == Reaped(od, now, timeout)
  {
    left := od;
    if timeout == 0 {
      return;
    }
    var stale := ListStale(od, now, timeout);
    for i := 0 to |stale|
      invariant PopAll(left, stale[i..]) == PopAll(od, stale)
    {
      assert stale[i..][1..] == stale[i + 1..];
      left := Pop(left, stale[i]);
    }
    PopStale(od, now, timeout);
  }

  method ListStale<V>(od: OrderedDict<V>, now: int, timeout: nat) returns (stale: seq<Id>)
    ensures stale == Stale(od, now, timeout)
  {
    stale := [];
    for i := 0 to |od|
      invariant stale + Stale(od[i..], now, timeout) == Stale(od, now, timeout)
    {
      StaleFrom(od, now, timeout, i);
      if now - od[i].lastAccess > timeout {
        stale := stale + [od[i].id];
      }
    }
    assert Stale(od[|od|..], now, timeout) == [];
  }

  lemma StaleFrom<V>(od: OrderedDict<V>, now: int, timeout: nat, i: nat)
    requires i < |od|
    ensures Stale(od[i..], now, timeout)
      == (if now - od[i].lastAccess > timeout then [od[i].id] else []) + Stale(od[i + 1..], now, timeout)
  {
    assert od[i..][1..] == od[i + 1..];
  }

  function Stale<V>(od: OrderedDict<V>, now: int, timeout: nat): seq<Id> {
    if od == [] then []
    else (if now - od[0].lastAccess > timeout then [od[0].id] else []) + Stale(od[1..], now, timeout)
  }

  function PopAll<V>(od: OrderedDict<V>, ids: seq<Id>): OrderedDict<V> {
    if ids == [] then od else PopAll(Pop(od, ids[0]), ids[1..])
  }

  lemma {:induction false} PopStale<V>(od: OrderedDict<V>, now: int, timeout: nat)
    requires Valid(od)
    ensures PopAll(od, Stale(od, now, timeout)) == Fresh(od, now, timeout)
  {
    if od != [] {
      PopStale(od[1..], now, timeout);
      var rest := Stale(od[1..], now, timeout);
      StaleAreThere(od[1..], now, timeout);
      if now - od[0].lastAccess > timeout {
        assert Pop(od, od[0].id) == od[1..];
        assert ([od[0].id] + rest)[1..] == rest;
      } else {
        PopAllTail(od, rest);
        assert [] + rest == rest;
      }
    }
  }

  lemma {:induction false} StaleAreThere<V>(od: OrderedDict<V>, now: int, timeout: nat)
    ensures forall id :: id in Stale(od, now, timeout) ==> Has(od, id)
  {
    if od != [] {
      StaleAreThere(od[1..], now, timeout);
    }
  }

  lemma PopTail<V>(od: OrderedDict<V>, id: Id)
    requires od != [] && od[0].id != id
    ensures Pop(od, id) == [od[0]] + Pop(od[1..], id)
  {
    var tail, k := od[1..], Find(od[1..], id);
    assert Find(od, id) == 1 + k;
    if k < |tail| {
      Cut(od[0], tail, k);
    }
    assert od == [od[0]] + tail;
  }

  lemma Cut<T>(x: T, s: seq<T>, k: nat)
    requires k < |s|
    ensures ([x] + s)[..k + 1] + ([x] + s)[k + 2..] == [x] + (s[..k] + s[k + 1..])
  {
  }

  lemma {:induction false} PopAllTail<V>(od: OrderedDict<V>, ids: seq<Id>)
    requires od != [] && od[0].id !in ids
    ensures PopAll(od, ids) == [od[0]] + PopAll(od[1..], ids)
  {
    if ids != [] {
      PopTail(od, ids[0]);
      var popped := Pop(od, ids[0]);
      assert popped[1..] == Pop(od[1..], ids[0]);
      PopAllTail(popped, ids[1..]);
    }
  }

  // ---- runs of the store ----

  datatype Op = Use(id: Id, reset: bool, now: int) | Clear(id: Id) | Reap(now: int)

  function Apply<V>(od: OrderedDict<V>, op: Op, empty: V, max: nat, timeout: nat): OrderedDict<V> {
    match op
    case Use(id, reset, now) => Enter(od, id, reset, empty, now, max)
    case Clear(id) => Pop(od, id)
    case Reap(now) => Reaped(od, now, timeout)
  }

  function Run<V>(log: seq<Op>, empty: V, max: nat, timeout: nat): OrderedDict<V> {
    if log == [] then []
    else Apply(Run(log[..|log| - 1], empty, max, timeout), log[|log| - 1], empty, max, timeout)
  }

  /** Index in the log of the last use of id, or -1. */
  function LastUse(log: seq<Op>, id: Id): (r: int)
    ensures -1 <= r < |log|
    ensures r >= 0 ==> log[r].Use? && log[r].id == id
    ensures forall i :: r < i < |log| && log[i].Use? ==> log[i].id != id
  {
    if log == [] then -1
    else
      var last := |log| - 1;
      if log[last].Use? && log[last].id == id then last else LastUse(log[..last], id)
  }

  /** Every cached id has been used, its item carries the time of that use, and items are in order of last use. */
  ghost predicate InUseOrder<V>(od: OrderedDict<V>, use: Id -> int, time: Id -> int) {
    && (forall i :: 0 <= i < |od| ==> use(od[i].id) >= 0 && od[i].lastAccess == time(od[i].id))
    && (forall i, j :: 0 <= i < j < |od| ==> use(od[i].id) < use(od[j].id))
  }

  function Uses(log: seq<Op>): Id -> int { id => LastUse(log, id) }

  function Times(log: seq<Op>): Id -> int { id => if LastUse(log, id) >= 0 then log[LastUse(log, id)].now else 0 }

  lemma UsesExtend(log: seq<Op>, op: Op)
    ensures forall id :: Uses(log + [op])(id) == if op.Use? && op.id == id then |log| else Uses(log)(id)
    ensures forall id :: Times(log + [op])(id) == if op.Use? && op.id == id then op.now else Times(log)(id)
  {
    assert (log + [op])[..|log|] == log;
  }

  lemma PopAt<V>(od: OrderedDict<V>, id: Id, i: nat)
    requires i < |Pop(od, id)|
    ensures var j := if i < Find(od, id) then i else i + 1;
      j < |od| && Pop(od, id)[i] == od[j]
  {
    WithoutAt(od, Find(od, id), Pop(od, id), i);
  }

  lemma WithoutAt<T>(xs: seq<T>, k: nat, left: seq<T>, i: nat)
    requires k <= |xs| && left == (if k < |xs| then xs[..k] + xs[k + 1..] else xs) && i < |left|
    ensures var j := if i < k then i else i + 1; j < |xs| && left[i] == xs[j]
  {
  }

  lemma PopKeepsUseOrder<V>(od: OrderedDict<V>, id: Id, use: Id -> int, time: Id -> int)
    requires InUseOrder(od, use, time)
    ensures InUseOrder(Pop(od, id), use, time)
    ensures forall i :: 0 <= i < |Pop(od, id)| ==> Pop(od, id)[i].id != id
    ensures |Pop(od, id)| == if Has(od, id) then |od| - 1 else |od|
  {
    var k, popped := Find(od, id), Pop(od, id);
    forall i | 0 <= i < |popped| ensures popped[i] == od[if i < k then i else i + 1] && popped[i].id != id {
      PopAt(od, id, i);
      if k <= i {
        assert use(od[k].id) < use(od[i + 1].id);
      }
    }
  }

  lemma FrontKeepsUseOrder<V>(x: Item<V>, od: OrderedDict<V>, use: Id -> int, time: Id -> int)
    requires InUseOrder(od, use, time)
    requires use(x.id) >= 0 && x.lastAccess == time(x.id) && (od != [] ==> use(x.id) < use(od[0].id))
    ensures InUseOrder([x] + od, use, time)
  {
    var all := [x] + od;
    assert forall i :: 0 < i < |all| ==> all[i] == od[i - 1];
    assert forall i :: 0 <= i < |od| ==> use(od[0].id) <= use(od[i].id);
  }

  lemma {:induction false} FreshKeepsUseOrder<V>(
    od: OrderedDict<V>, now: int, timeout: nat, use: Id -> int, time: Id -> int)
    requires InUseOrder(od, use, time)
    ensures var left := Fresh(od, now, timeout);
      InUseOrder(left, use, time) && |left| <= |od| && (left != [] ==> use(od[0].id) <= use(left[0].id))
  {
    if od != [] {
      var left := Fresh(od[1..], now, timeout);
      TailUseOrder(od, use, time);
      FreshKeepsUseOrder(od[1..], now, timeout, use, time);
      if now - od[0].lastAccess > timeout {
        assert Fresh(od, now, timeout) == left;
      } else {
        FrontKeepsUseOrder(od[0], left, use, time);
        assert Fresh(od, now, timeout) == [od[0]] + left;
      }
    }
  }

  lemma TailUseOrder<V>(od: OrderedDict<V>, use: Id -> int, time: Id -> int)
    requires InUseOrder(od, use, time) && od != []
    ensures InUseOrder(od[1..], use, time) && (od[1..] != [] ==> use(od[0].id) < use(od[1..][0].id))
  {
  }

  lemma BackKeepsUseOrder<V>(od: OrderedDict<V>, x: Item<V>, use: Id -> int, time: Id -> int)
    requires InUseOrder(od, use, time)
    requires use(x.id) >= 0 && x.lastAccess == time(x.id) && forall i :: 0 <= i < |od| ==> use(od[i].id) < use(x.id)
    ensures InUseOrder(od + [x], use, time)
  {
  }

  lemma EvictKeepsUseOrder<V>(od: OrderedDict<V>, max: nat, use: Id -> int, time: Id -> int)
    requires max >= 1 && od != [] && InUseOrder(od, use, time)
    ensures var left := EvictOver(od, max);
      InUseOrder(left, use, time) && 1 <= |left| <= max && left[|left| - 1] == od[|od| - 1]
  {
  }

  lemma EnterKeepsUseOrder<V>(od: OrderedDict<V>, op: Op, empty: V, max: nat, use: Id -> int, time: Id -> int)
    requires max >= 1 && |od| <= max && op.Use? && InUseOrder(Pop(od, op.id), use, time)
    requires forall i :: 0 <= i < |Pop(od, op.id)| ==> use(Pop(od, op.id)[i].id) < use(op.id)
    requires use(op.id) >= 0 && time(op.id) == op.now
    ensures var after := Enter(od, op.id, op.reset, empty, op.now, max);
      && InUseOrder(after, use, time) && 1 <= |after| <= max && after[|after| - 1].id == op.id
  {
    assert !Has(Pop(od, op.id), op.id);
    var x := EnteredAtBack(od, op, empty, max);
    BackKeepsUseOrder(Pop(od, op.id), x, use, time);
    EvictKeepsUseOrder(Pop(od, op.id) + [x], max, use, time);
  }

  lemma EnteredAtBack<V>(od: OrderedDict<V>, op: Op, empty: V, max: nat) returns (x: Item<V>)
    requires max >= 1 && |od| <= max && op.Use? && !Has(Pop(od, op.id), op.id)
    ensures x.id == op.id && x.lastAccess == op.now
    ensures Enter(od, op.id, op.reset, empty, op.now, max) == EvictOver(Pop(od, op.id) + [x], max)
  {
    x := Item(op.id, if !op.reset && Has(od, op.id) then Get(od, op.id) else empty, op.now);
  }

  lemma ApplyKeepsUseOrder<V>(od: OrderedDict<V>, op: Op, empty: V, max: nat, timeout: nat,
                              use: Id -> int, time: Id -> int, use': Id -> int, time': Id -> int, index: nat)
    requires max >= 1 && InUseOrder(od, use, time) && |od| <= max
    requires forall id :: use(id) < index
    requires forall id :: use'(id) == if op.Use? && id == op.id then index else use(id)
    requires forall id :: time'(id) == if op.Use? && id == op.id then op.now else time(id)
    ensures InUseOrder(Apply(od, op, empty, max, timeout), use', time')
    ensures |Apply(od, op, empty, max, timeout)| <= max
    ensures op.Use? ==> var after := Apply(od, op, empty, max, timeout); after != [] && after[|after| - 1].id == op.id
  {
    match op
    case Use(id, reset, now) =>
      PopUseOrder(od, id, use, time, use', time');
      EnterKeepsUseOrder(od, op, empty, max, use', time');
    case Clear(id) =>
      PopUseOrder(od, id, use, time, use', time');
    case Reap(now) =>
      FreshKeepsUseOrder(od, now, timeout, use, time);
      SameUseOrder(Reaped(od, now, timeout), use, time, use', time');
  }

  /** Without the id, what is left may be read with times that differ for that id only. */
  lemma PopUseOrder<V>(
    od: OrderedDict<V>, id: Id, use: Id -> int, time: Id -> int, use': Id -> int, time': Id -> int)
    requires InUseOrder(od, use, time)
    requires forall x :: x != id ==> use'(x) == use(x) && time'(x) == time(x)
    ensures InUseOrder(Pop(od, id), use', time') && |Pop(od, id)| <= |od|
    ensures forall i :: 0 <= i < |Pop(od, id)| ==>
      Pop(od, id)[i].id != id && use'(Pop(od, id)[i].id) == use(Pop(od, id)[i].id)
  {
    PopKeepsUseOrder(od, id, use, time);
    SameUseOrder(Pop(od, id), use, time, use', time');
  }

  lemma SameUseOrder<V>(od: OrderedDict<V>, use: Id -> int, time: Id -> int, use': Id -> int, time': Id -> int)
    requires InUseOrder(od, use, time)
    requires forall i :: 0 <= i < |od| ==> use'(od[i].id) == use(od[i].id) && time'(od[i].id) == time(od[i].id)
    ensures InUseOrder(od, use', time')
  {
  }

  /** After every run the dictionary is in order of last use and within capacity. */
  lemma {:induction false} RunInUseOrder<V>(log: seq<Op>, empty: V, max: nat, timeout: nat)
    requires max >= 1
    ensures InUseOrder(Run(log, empty, max, timeout), Uses(log), Times(log))
    ensures |Run(log, empty, max, timeout)| <= max
    ensures Valid(Run(log, empty, max, timeout))
  {
    if log != [] {
      var last := |log| - 1;
      RunInUseOrder(log[..last], empty, max, timeout);
      assert log[..last] + [log[last]] == log;
      UsesExtend(log[..last], log[last]);
      ApplyKeepsUseOrder(Run(log[..last], empty, max, timeout), log[last], empty, max, timeout,
                         Uses(log[..last]), Times(log[..last]), Uses(log), Times(log), last);
    }
  }

  /** The ids used after position `from` of the log. */
  function UsedSince(log: seq<Op>, from: int): set<Id> {
    set i | 0 <= i < |log| && from < i && log[i].Use? :: log[i].id
  }

  /** A use never loses the item it looked up, and it drops another one only from the front and
      only if at least `max` distinct other ids were used since that item was. */
  lemma EvictedWasLeastRecent<V>(log: seq<Op>, op: Op, empty: V, max: nat, timeout: nat, victim: Id)
    requires max >= 1 && op.Use?
    ensures
      var before, after := Run(log, empty, max, timeout), Run(log + [op], empty, max, timeout);
      && Has(after, op.id)
      && (Has(before, victim) && !Has(after, victim) ==>
        && victim == before[0].id
        && victim !in UsedSince(log + [op], LastUse(log, victim))
        && |UsedSince(log + [op], LastUse(log, victim))| >= max)
  {
    UseStays(log, op, empty, max, timeout);
    if Has(Run(log, empty, max, timeout), victim) && !Has(Run(log + [op], empty, max, timeout), victim) {
      LostFromFront(log, op, empty, max, timeout, victim);
    }
  }

  lemma UseStays<V>(log: seq<Op>, op: Op, empty: V, max: nat, timeout: nat)
    requires max >= 1 && op.Use?
    ensures var before, after := Run(log, empty, max, timeout), Run(log + [op], empty, max, timeout);
      after == Apply(before, op, empty, max, timeout) && Has(after, op.id)
  {
    var log' := log + [op];
    assert log'[..|log|] == log && log'[|log|] == op;
    RunInUseOrder(log, empty, max, timeout);
    UsesExtend(log, op);
    var before, after := Run(log, empty, max, timeout), Run(log', empty, max, timeout);
    ApplyKeepsUseOrder(before, op, empty, max, timeout, Uses(log), Times(log), Uses(log'), Times(log'), |log|);
    HasAt(after, |after| - 1);
  }

  lemma LostFromFront<V>(log: seq<Op>, op: Op, empty: V, max: nat, timeout: nat, victim: Id)
    requires max >= 1 && op.Use?
    requires Has(Run(log, empty, max, timeout), victim) && !Has(Run(log + [op], empty, max, timeout), victim)
    ensures victim == Run(log, empty, max, timeout)[0].id
    ensures victim !in UsedSince(log + [op], LastUse(log, victim))
    ensures |UsedSince(log + [op], LastUse(log, victim))| >= max
  {
    var log' := log + [op];
    UseStays(log, op, empty, max, timeout);
    RunInUseOrder(log, empty, max, timeout);
    RunInUseOrder(log', empty, max, timeout);
    UsesExtend(log, op);
    var before, after := Run(log, empty, max, timeout), Run(log', empty, max, timeout);
    EnterKeepsOthers(before, op, empty, max, victim);
    AllLaterThanFront(before, after, Uses(log), Uses(log'), op.id);
    forall i | 0 <= i < |after|
      ensures after[i].id in UsedSince(log', Uses(log)(victim))
    {
      UsedIfLater(log', after[i].id, Uses(log)(victim));
    }
    DistinctIdsFit(after, UsedSince(log', Uses(log)(victim)));
    NotUsedSinceLastUse(log', victim);
  }

  lemma AllLaterThanFront<V>(before: OrderedDict<V>, after: OrderedDict<V>, use: Id -> int, use': Id -> int, id: Id)
    requires before != [] && |after| == |before| && after[|after| - 1].id == id && after[..|after| - 1] == before[1..]
    requires forall i :: 0 < i < |before| ==> use(before[0].id) < use(before[i].id)
    requires use(before[0].id) < use'(id)
    requires forall other :: other != id ==> use'(other) == use(other)
    ensures forall i :: 0 <= i < |after| ==> use(before[0].id) < use'(after[i].id)
  {
    forall i | 0 <= i < |after| ensures use(before[0].id) < use'(after[i].id) {
      if i < |after| - 1 {
        assert after[i] == after[..|after| - 1][i] == before[i + 1];
      }
    }
  }

  lemma UsedIfLater(log: seq<Op>, id: Id, from: int)
    requires from >= -1 && from < LastUse(log, id)
    ensures id in UsedSince(log, from)
  {
    var u := LastUse(log, id);
    assert log[u].Use? && log[u].id == id;
  }

  lemma NotUsedSinceLastUse(log: seq<Op>, id: Id)
    ensures id !in UsedSince(log, LastUse(log, id))
  {
  }

  lemma HasAt<V>(od: OrderedDict<V>, k: nat)
    requires k < |od|
    ensures Has(od, od[k].id)
  {
  }

  /** Popping loses no other id. */
  lemma PopKeepsOthers<V>(od: OrderedDict<V>, id: Id, other: Id)
    requires other != id && Has(od, other)
    ensures Has(Pop(od, id), other)
  {
    var k, j := Find(od, other), Find(od, id);
    if j < |od| {
      var at := if k < j then k else k - 1;
      assert Pop(od, id)[at] == od[k];
      HasAt(Pop(od, id), at);
    }
  }

  /** Entering for one id keeps every other id, save the front one of a full dictionary that lacks the id. */
  lemma EnterKeepsOthers<V>(od: OrderedDict<V>, op: Op, empty: V, max: nat, other: Id)
    requires Valid(od) && |od| <= max && op.Use? && op.id != other && Has(od, other)
    ensures var after := Enter(od, op.id, op.reset, empty, op.now, max);
      || Has(after, other)
      || (!Has(od, op.id) && |od| == max && other == od[0].id && after == od[1..] + [Item(op.id, empty, op.now)])
  {
    var popped := Pop(od, op.id);
    var y := EnterShape(od, op, empty, max);
    if |popped| < max {
      PopKeepsOthers(od, op.id, other);
      PushKeepsItem(popped, y, other);
    } else {
      PushKeepsItem(od[1..], y, other);
    }
  }

  lemma {:induction false} DistinctIdsFit<V>(od: OrderedDict<V>, ids: set<Id>)
    requires Valid(od) && forall i :: 0 <= i < |od| ==> od[i].id in ids
    ensures |od| <= |ids|
  {
    if od != [] {
      DistinctIdsFit(od[1..], ids - {od[0].id});
    }
  }

  /** With a clock that does not run backwards, the reaper removes exactly a prefix of the order:
      the items idle for longer than the timeout. */
  lemma ReaperTakesPrefix<V>(log: seq<Op>, empty: V, max: nat, timeout: nat, now: int) returns (k: nat)
    requires max >= 1 && timeout > 0
    requires forall i, j :: 0 <= i < j < |log| && log[i].Use? && log[j].Use? ==> log[i].now <= log[j].now
    ensures var od := Run(log, empty, max, timeout);
      && k <= |od|
      && (forall i :: 0 <= i < |od| ==> (now - od[i].lastAccess > timeout <==> i < k))
      && Reaped(od, now, timeout) == od[k..]
  {
    RunInUseOrder(log, empty, max, timeout);
    k := FreshSuffix(Run(log, empty, max, timeout), now, timeout);
  }

  lemma {:induction false} FreshSuffix<V>(od: OrderedDict<V>, now: int, timeout: nat) returns (k: nat)
    requires forall i, j :: 0 <= i < j < |od| ==> od[i].lastAccess <= od[j].lastAccess
    ensures k <= |od| && forall i :: 0 <= i < |od| ==> (now - od[i].lastAccess > timeout <==> i < k)
    ensures Fresh(od, now, timeout) == od[k..]
  {
    k := 0;
    if od != [] {
      var tail := od[1..];
      k := FreshSuffix(tail, now, timeout);
      if now - od[0].lastAccess > timeout {
        assert tail[k..] == od[k + 1..];
        k := k + 1;
      } else {
        assert tail != [] ==> od[1] == tail[0];
        assert k == 0 && tail[0..] == tail && [od[0]] + tail == od == od[0..];
      }
    }
  }

  lemma PopForgets<V>(od: OrderedDict<V>, id: Id)
    requires Valid(od)
    ensures Valid(Pop(od, id)) && !Has(Pop(od, id), id)
  {
  }

  /** The items of one dictionary are items of another, in the same order. */
  ghost predicate InOrder<V>(few: OrderedDict<V>, many: OrderedDict<V>) {
    few == [] || (many != [] && (if few[0] == many[0] then InOrder(few[1..], many[1..]) else InOrder(few, many[1..])))
  }

  lemma {:induction false} InOrderSelf<V>(od: OrderedDict<V>)
    ensures InOrder(od, od)
  {
    if od != [] {
      InOrderSelf(od[1..]);
    }
  }

  lemma {:induction false} PopInOrder<V>(od: OrderedDict<V>, id: Id)
    ensures InOrder(Pop(od, id), od)
  {
    if od != [] {
      if od[0].id == id {
        assert Pop(od, id) == od[1..];
        InOrderSelf(od[1..]);
        TailInOrder(od[1..], od[0]);
      } else {
        PopTail(od, id);
        PopInOrder(od[1..], id);
        assert Pop(od, id)[1..] == Pop(od[1..], id);
      }
    }
  }

  lemma {:induction false} TailInOrder<V>(od: OrderedDict<V>, x: Item<V>)
    ensures InOrder(od, [x] + od)
  {
    assert ([x] + od)[1..] == od;
    if od != [] {
      if od[0] == x {
        TailInOrder(od[1..], x);
        assert od == [x] + od[1..];
      } else {
        InOrderSelf(od);
      }
    }
  }

  /** Popping forgets the id and keeps every other one, with its cache, in the old order. */
  lemma PopMeans<V>(od: OrderedDict<V>, id: Id)
    requires Valid(od)
    ensures Valid(Pop(od, id)) && !Has(Pop(od, id), id) && InOrder(Pop(od, id), od)
    ensures forall x :: x != id ==>
      (Has(Pop(od, id), x) <==> Has(od, x)) && (Has(od, x) ==> Get(Pop(od, id), x) == Get(od, x))
  {
    PopForgets(od, id);
    PopInOrder(od, id);
    forall x | x != id
      ensures (Has(Pop(od, id), x) <==> Has(od, x)) && (Has(od, x) ==> Get(Pop(od, id), x) == Get(od, x))
    {
      PopKeepsItem(od, id, x);
    }
  }

  lemma {:induction false} PopKeepsItem<V>(od: OrderedDict<V>, id: Id, x: Id)
    requires x != id
    ensures Has(Pop(od, id), x) <==> Has(od, x)
    ensures Has(od, x) ==> Pop(od, id)[Find(Pop(od, id), x)] == od[Find(od, x)]
  {
    if od != [] {
      if od[0].id == id {
        assert Pop(od, id) == od[1..];
      } else {
        PopTail(od, id);
        PopKeepsItem(od[1..], id, x);
        FrontItem(od[0], Pop(od[1..], id), x);
        FrontItem(od[0], od[1..], x);
        assert od == [od[0]] + od[1..];
      }
    }
  }

  lemma FrontItem<V>(y: Item<V>, od: OrderedDict<V>, x: Id)
    ensures Has([y] + od, x) <==> y.id == x || Has(od, x)
    ensures Has([y] + od, x) ==> ([y] + od)[Find([y] + od, x)] == if y.id == x then y else od[Find(od, x)]
  {
    assert ([y] + od)[1..] == od;
  }

  /** The same ids in the same order with the same times; only the caches may differ. */
  predicate SameItems<V, W>(od: OrderedDict<V>, od': OrderedDict<W>) {
    |od| == |od'| && forall i :: 0 <= i < |od| ==> od[i].id == od'[i].id && od[i].lastAccess == od'[i].lastAccess
  }

  lemma {:induction false} SameItemsFind<V, W>(od: OrderedDict<V>, od': OrderedDict<W>, id: Id)
    requires SameItems(od, od')
    ensures Find(od, id) == Find(od', id)
  {
    if od != [] && od[0].id != id {
      SameItemsFind(od[1..], od'[1..], id);
    }
  }

  /** Entering for one id leaves every other id its cache, or evicts it. */
  lemma EnterKeepsCaches<V>(od: OrderedDict<V>, op: Op, empty: V, max: nat, x: Id)
    requires max >= 1 && Valid(od) && |od| <= max && op.Use? && op.id != x
    ensures var after := Enter(od, op.id, op.reset, empty, op.now, max);
      && (Has(after, x) ==> Has(od, x) && Get(after, x) == Get(od, x))
      && (Has(od, x) && !Has(after, x) ==> !Has(od, op.id) && |od| == max && x == od[0].id)
  {
    var after, popped := Enter(od, op.id, op.reset, empty, op.now, max), Pop(od, op.id);
    var y := EnterShape(od, op, empty, max);
    PopKeepsItem(od, op.id, x);
    PushKeepsItem(popped, y, x);
    if |popped| >= max {
      PushKeepsItem(od[1..], y, x);
      if Has(od[1..], x) {
        TailKeepsItem(od, x);
      }
    }
    if Has(od, x) {
      EnterKeepsOthers(od, op, empty, max, x);
    }
  }

  lemma {:induction false} PushKeepsItem<V>(od: OrderedDict<V>, y: Item<V>, x: Id)
    requires y.id != x
    ensures Has(od + [y], x) <==> Has(od, x)
    ensures Has(od, x) ==> (od + [y])[Find(od + [y], x)] == od[Find(od, x)]
  {
    if od != [] {
      assert (od + [y])[1..] == od[1..] + [y];
      PushKeepsItem(od[1..], y, x);
    }
  }

  lemma TailKeepsItem<V>(od: OrderedDict<V>, x: Id)
    requires od != [] && Valid(od) && Has(od[1..], x)
    ensures Has(od, x) && od[Find(od, x)] == od[1..][Find(od[1..], x)]
  {
    assert od[1..][Find(od[1..], x)].id == x;
    assert od[0].id != x;
  }

  lemma EnterShape<V>(od: OrderedDict<V>, op: Op, empty: V, max: nat) returns (x: Item<V>)
    requires max >= 1 && |od| <= max && op.Use? && Valid(od)
    ensures x == Item(op.id, if !op.reset && Has(od, op.id) then Get(od, op.id) else empty, op.now)
    ensures Enter(od, op.id, op.reset, empty, op.now, max) ==
      if |Pop(od, op.id)| < max then Pop(od, op.id) + [x] else od[1..] + [x]
  {
    PopForgets(od, op.id);
    x := if !op.reset && Has(od, op.id) then Item(op.id, Get(od, op.id), op.now) else Item(op.id, empty, op.now);
  }

  /** After entering, the dictionary is within capacity and holds the id with its old cache, or with an empty one. */
  lemma EnterFinds<V>(od: OrderedDict<V>, op: Op, empty: V, max: nat)
    requires max >= 1 && |od| <= max && op.Use? && Valid(od)
    ensures var after := Enter(od, op.id, op.reset, empty, op.now, max);
      && Valid(after) && |after| <= max && Has(after, op.id)
      && Get(after, op.id) == if !op.reset && Has(od, op.id) then Get(od, op.id) else empty
  {
    var popped := Pop(od, op.id);
    var x := EnterShape(od, op, empty, max);
    PopForgets(od, op.id);
    if |popped| < max {
      FindPushed(popped, x);
    } else {
      AbsentFromTail(od, op.id);
      FindPushed(od[1..], x);
    }
  }

  lemma FindPushed<V>(od: OrderedDict<V>, x: Item<V>)
    requires Valid(od) && !Has(od, x.id)
    ensures Valid(od + [x]) && Find(od + [x], x.id) == |od|
  {
    assert (od + [x])[|od|].id == x.id;
    HasAt(od + [x], |od|);
  }

  lemma AbsentFromTail<V>(od: OrderedDict<V>, id: Id)
    requires od != [] && !Has(od, id)
    ensures !Has(od[1..], id)
  {
  }

  // ---- the timestamp map of the candle server ----

  /** A map sorted by key; ids are numbered in key order. */
  type Stamped<V> = map<Id, (V, int)>

  /** An entry with the oldest stamp; among several, the one that comes first in key order. */
  ghost predicate Oldest<V>(entries: Stamped<V>, k: Id) {
    && k in entries
    && forall x :: x in entries ==> Older(entries, k, x)
  }

  predicate Older<V>(entries: Stamped<V>, k: Id, x: Id)
    requires k in entries && x in entries
  {
    entries[k].1 < entries[x].1 || (entries[k].1 == entries[x].1 && k.n <= x.n)
  }

  lemma OldestUnique<V>(entries: Stamped<V>, k: Id, k': Id)
    requires Oldest(entries, k) && Oldest(entries, k')
    ensures k == k'
  {
    assert Older(entries, k, k') && Older(entries, k', k);
  }

  /** Inserting: a full store that lacks the id first drops its oldest entry. */
  ghost predicate Inserted<V>(entries: Stamped<V>, left: Stamped<V>, id: Id, v: V, now: int, max: nat) {
    if |entries| >= max && id !in entries && entries != map[] then
      exists k :: Oldest(entries, k) && left == (entries - {k})[id := (v, now)]
    else
      left == entries[id := (v, now)]
  }

  /** What is left after an insertion is determined. */
  lemma InsertedUnique<V>(entries: Stamped<V>, a: Stamped<V>, b: Stamped<V>, id: Id, v: V, now: int, max: nat)
    requires Inserted(entries, a, id, v, now, max) && Inserted(entries, b, id, v, now, max)
    ensures a == b
  {
    if |entries| >= max && id !in entries && entries != map[] {
      var k :| Oldest(entries, k) && a == (entries - {k})[id := (v, now)];
      var k' :| Oldest(entries, k') && b == (entries - {k'})[id := (v, now)];
      OldestUnique(entries, k, k');
    }
  }

  /** The same entries, but for the stamp of one id if it is there. */
  ghost predicate Touched<V>(entries: Stamped<V>, left: Stamped<V>, id: Id, now: int) {
    && left.Keys == entries.Keys
    && forall x :: x in left ==> left[x].0 == entries[x].0 && left[x].1 == if x == id then now else entries[x].1
  }

  function IdleIds<V>(entries: Stamped<V>, now: int, timeout: nat): set<Id> {
    set id | id in entries && now - entries[id].1 >= timeout
  }

  class KvStore<V> {
    var entries: Stamped<V>
    const maxEntries: nat
    const idleTimeout: nat

    constructor (max: nat, timeout: nat)
      ensures entries == map[] && maxEntries == max && idleTimeout == timeout
    {
      entries := map[];
      maxEntries := max;
      idleTimeout := timeout;
    }

    method Insert(id: Id, kvs: V, now: int)
      modifies this
      ensures Inserted(old(entries), entries, id, kvs, now, maxEntries)
    {
      if |entries| >= maxEntries && id !in entries && entries != map[] {
        var rest := entries.Keys;
        var oldest :| oldest in rest;
        rest := rest - {oldest};
        while rest != {}
          invariant rest <= entries.Keys && oldest in entries
          invariant forall x :: x in entries && x !in rest ==> Older(entries, oldest, x)
          decreases |rest|
        {
          var k :| k in rest;
          if !Older(entries, oldest, k) {
            oldest := k;
          }
          rest := rest - {k};
        }
        assert Oldest(entries, oldest);
        entries := entries - {oldest};
      }
      entries := entries[id := (kvs, now)];
    }

    /** A touched entry is not the next to go while some entry is older. */
    method Touch(id: Id, now: int)
      modifies this
      ensures Touched(old(entries), entries, id, now)
      ensures (exists x :: x in entries && entries[x].1 < now) && id in entries ==> !Oldest(entries, id)
    {
      if id in entries {
        entries := entries[id := (entries[id].0, now)];
      }
    }

    /** Drops exactly the entries that were not used for the timeout or longer, and counts them. */
    method EvictIdle(now: int) returns (dropped: int)
      modifies this
      ensures entries.Keys == old(entries).Keys - IdleIds(old(entries), now, idleTimeout)
      ensures forall id :: id in entries ==> entries[id] == old(entries)[id]
      ensures dropped == |IdleIds(old(entries), now, idleTimeout)| && IdleIds(entries, now, idleTimeout) == {}
    {
      var before := |entries|;
      ghost var idle := IdleIds(entries, now, idleTimeout);
      ghost var all := entries.Keys;
      entries := map id | id in entries && now - entries[id].1 < idleTimeout :: entries[id];
      assert all == entries.Keys + idle && entries.Keys !! idle;
      dropped := before - |entries|;
    }
  }

  /** The two stores hold the same ids with the same times of last use. */
  ghost predicate Twins<V, W>(od: OrderedDict<V>, entries: Stamped<W>) {
    && (forall i :: 0 <= i < |od| ==> od[i].id in entries && entries[od[i].id].1 == od[i].lastAccess)
    && (forall id :: id in entries ==> Has(od, id))
  }

  /** Under strictly increasing times both stores keep the same ids after every sequence of uses,
      so they drop the same victims for capacity. */
  lemma {:induction false} TwinStores<V, W(!new)>(
    log: seq<Op>, ws: seq<W>, stores: seq<Stamped<W>>, empty: V, max: nat, timeout: nat)
    requires max >= 1
    requires forall i :: 0 <= i < |log| ==> log[i].Use?
    requires forall i, j :: 0 <= i < j < |log| ==> log[i].now < log[j].now
    requires |stores| == |ws| + 1 == |log| + 1 && stores[0] == map[]
    requires forall i :: 0 <= i < |log| ==> Inserted(stores[i], stores[i + 1], log[i].id, ws[i], log[i].now, max)
    ensures Twins(Run(log, empty, max, timeout), stores[|log|])
  {
    if log != [] {
      var last := |log| - 1;
      TwinStores(log[..last], ws[..last], stores[..|log|], empty, max, timeout);
      RunInUseOrder(log[..last], empty, max, timeout);
      var od := Run(log[..last], empty, max, timeout);
      UseOrderIsTimeOrder(od, log[..last]);
      TwinStep(od, stores[last], stores[|log|], log[last], ws[last], empty, max);
    }
  }

  lemma UseOrderIsTimeOrder<V>(od: OrderedDict<V>, log: seq<Op>)
    requires InUseOrder(od, Uses(log), Times(log))
    requires forall i, j :: 0 <= i < j < |log| && log[i].Use? && log[j].Use? ==> log[i].now < log[j].now
    ensures forall i, j :: 0 <= i < j < |od| ==> od[i].lastAccess < od[j].lastAccess
  {
    forall i, j | 0 <= i < j < |od| ensures od[i].lastAccess < od[j].lastAccess {
      var a, b := Uses(log)(od[i].id), Uses(log)(od[j].id);
      assert log[a].now < log[b].now;
    }
  }

  lemma TwinStep<V, W>(od: OrderedDict<V>, e: Stamped<W>, e': Stamped<W>, op: Op, w: W, empty: V, max: nat)
    requires max >= 1 && |od| <= max && op.Use? && Valid(od)
    requires forall i, j :: 0 <= i < j < |od| ==> od[i].lastAccess < od[j].lastAccess
    requires Twins(od, e) && Inserted(e, e', op.id, w, op.now, max)
    ensures Twins(Enter(od, op.id, op.reset, empty, op.now, max), e')
  {
    var popped := Pop(od, op.id);
    IdsCount(od, e.Keys);
    TwinPop(od, e, op.id);
    var x := EnterShape(od, op, empty, max);
    if |popped| < max {
      TwinReplace(popped, e, e', x, w, max);
    } else {
      TwinEvict(od, e, e', x, w, max);
    }
  }

  lemma TwinReplace<V, W>(popped: OrderedDict<V>, e: Stamped<W>, e': Stamped<W>, x: Item<V>, w: W, max: nat)
    requires x.id in e || |e| < max
    requires Twins(popped, e - {x.id}) && !Has(popped, x.id) && Inserted(e, e', x.id, w, x.lastAccess, max)
    ensures Twins(popped + [x], e')
  {
    assert e' == (e - {x.id})[x.id := (w, x.lastAccess)];
    TwinPush(popped, e - {x.id}, x, w);
  }

  lemma TwinEvict<V, W>(od: OrderedDict<V>, e: Stamped<W>, e': Stamped<W>, x: Item<V>, w: W, max: nat)
    requires max >= 1 && |od| == |e| == max && Valid(od) && x.id !in e && !Has(od, x.id)
    requires forall i, j :: 0 <= i < j < |od| ==> od[i].lastAccess < od[j].lastAccess
    requires Twins(od, e) && Inserted(e, e', x.id, w, x.lastAccess, max)
    ensures Twins(od[1..] + [x], e')
  {
    var k :| Oldest(e, k) && e' == (e - {k})[x.id := (w, x.lastAccess)];
    OldestIsFront(od, e, k);
    TwinPop(od, e, k);
    PopKeepsAbsent(od, k, x.id);
    TwinPush(od[1..], e - {k}, x, w);
  }

  lemma PopKeepsAbsent<V>(od: OrderedDict<V>, id: Id, other: Id)
    requires Valid(od) && !Has(od, other)
    ensures !Has(Pop(od, id), other)
  {
    PopForgets(od, id);
  }

  lemma OldestIsFront<V, W>(od: OrderedDict<V>, e: Stamped<W>, k: Id)
    requires forall i, j :: 0 <= i < j < |od| ==> od[i].lastAccess < od[j].lastAccess
    requires Twins(od, e) && Oldest(e, k)
    ensures od != [] && od[0].id == k && Pop(od, k) == od[1..]
  {
    assert od[Find(od, k)].id == k;
    assert od[0].id in e;
  }

  lemma {:induction false} IdsCount<V>(od: OrderedDict<V>, ids: set<Id>)
    requires Valid(od)
    requires forall i :: 0 <= i < |od| ==> od[i].id in ids
    requires forall id :: id in ids ==> Has(od, id)
    ensures |od| == |ids|
  {
    if od == [] {
      assert ids == {};
    } else {
      forall id | id in ids - {od[0].id} ensures Has(od[1..], id) {
        assert Find(od, id) == 1 + Find(od[1..], id);
      }
      IdsCount(od[1..], ids - {od[0].id});
    }
  }

  lemma PoppedFrom<V>(od: OrderedDict<V>, id: Id, i: nat) returns (j: nat)
    requires Valid(od) && i < |Pop(od, id)|
    ensures j < |od| && od[j] == Pop(od, id)[i] && od[j].id != id
  {
    PopForgets(od, id);
    HasAt(Pop(od, id), i);
    j := if i < Find(od, id) then i else i + 1;
  }

  lemma TwinPop<V, W>(od: OrderedDict<V>, e: Stamped<W>, id: Id)
    requires Valid(od) && Twins(od, e)
    ensures Twins(Pop(od, id), e - {id}) && !Has(Pop(od, id), id)
    ensures |Pop(od, id)| == if id in e then |od| - 1 else |od|
  {
    var popped := Pop(od, id);
    forall other | other in e - {id} ensures Has(popped, other) {
      PopKeepsOthers(od, id, other);
    }
    forall i | 0 <= i < |popped|
      ensures popped[i].id in e - {id} && e[popped[i].id].1 == popped[i].lastAccess
    {
      var j := PoppedFrom(od, id, i);
    }
    TwinsHaveSame(od, e, id);
    PopForgets(od, id);
  }

  lemma TwinsHaveSame<V, W>(od: OrderedDict<V>, e: Stamped<W>, id: Id)
    requires Twins(od, e)
    ensures Has(od, id) <==> id in e
  {
    if Has(od, id) {
      assert od[Find(od, id)].id in e;
    }
  }

  lemma TwinPush<V, W>(od: OrderedDict<V>, e: Stamped<W>, x: Item<V>, w: W)
    requires Twins(od, e) && !Has(od, x.id) && x.id !in e
    ensures Twins(od + [x], e[x.id := (w, x.lastAccess)])
  {
    var od', e' := od + [x], e[x.id := (w, x.lastAccess)];
    assert e'.Keys == e.Keys + {x.id};
    forall id | id in e' ensures Has(od', id) {
      var k := if id == x.id then |od| else Find(od, id);
      assert od'[k].id == id;
      HasAt(od', k);
    }
  }

  lemma TouchedAgain<W>(e: Stamped<W>, e': Stamped<W>, id: Id, now: int)
    requires id in e && Touched(e, e', id, now)
    ensures e' == (e - {id})[id := (e[id].0, now)]
  {
    assert e'.Keys == (e - {id}).Keys + {id};
  }

  /** Looking an entry up keeps the two stores in step as well. */
  lemma TwinTouch<V, W>(od: OrderedDict<V>, e: Stamped<W>, e': Stamped<W>, id: Id, now: int)
    requires Valid(od) && Twins(od, e) && Has(od, id) && Touched(e, e', id, now)
    ensures Twins(Touch(od, id, now), e')
  {
    TwinsHaveSame(od, e, id);
    TwinPop(od, e, id);
    TouchedAgain(e, e', id, now);
    TwinPush(Pop(od, id), e - {id}, Item(id, Get(od, id), now), e[id].0);
  }

  /** The Python reaper keeps an item idle for exactly the timeout and the Rust one drops it: from
      the same contents they keep the same ids if and only if nothing has just that age. */
  lemma ReapersDifferAtTheTimeout<V, W>(od: OrderedDict<V>, entries: Stamped<W>, now: int, timeout: nat)
    requires Twins(od, entries) && Valid(od) && timeout > 0
    ensures
      (forall id :: Has(Reaped(od, now, timeout), id) <==> id in entries && now - entries[id].1 < timeout)
      <==> (forall id :: id in entries ==> now - entries[id].1 != timeout)
  {
    FreshHas(od, now, timeout);
    assert forall id :: Has(od, id) ==> od[Find(od, id)].lastAccess == entries[id].1;
    assert forall id :: Has(Fresh(od, now, timeout), id) <==> id in entries && now - entries[id].1 <= timeout;
  }

  predicate IsFresh<V>(od: OrderedDict<V>, now: int, timeout: nat, id: Id) {
    Has(od, id) && now - od[Find(od, id)].lastAccess <= timeout
  }

  lemma {:induction false} FreshHas<V>(od: OrderedDict<V>, now: int, timeout: nat)
    requires Valid(od)
    ensures forall id :: Has(Fresh(od, now, timeout), id) <==> IsFresh(od, now, timeout, id)
  {
    if od != [] {
      var tail := od[1..];
      FreshHas(tail, now, timeout);
      var rest := Fresh(tail, now, timeout);
      assert !Has(tail, od[0].id);
      forall id ensures Has(Fresh(od, now, timeout), id) <==> IsFresh(od, now, timeout, id) {
        assert Has(rest, id) <==> IsFresh(tail, now, timeout, id);
        if now - od[0].lastAccess <= timeout {
          assert ([od[0]] + rest)[1..] == rest;
        } else {
          assert Fresh(od, now, timeout) == rest;
        }
        if id != od[0].id {
          assert Find(od, id) == 1 + Find(tail, id);
        }
      }
    }
  }

  lemma {:induction false} FreshItems<V>(od: OrderedDict<V>, now: int, timeout: nat)
    requires Valid(od)
    ensures forall x :: x in Fresh(od, now, timeout) <==> x in od && now - x.lastAccess <= timeout
    ensures InOrder(Fresh(od, now, timeout), od)
  {
    if od != [] {
      var rest := Fresh(od[1..], now, timeout);
      FreshItems(od[1..], now, timeout);
      assert od == [od[0]] + od[1..];
      if now - od[0].lastAccess <= timeout {
        assert Fresh(od, now, timeout) == [od[0]] + rest;
      } else {
        assert Fresh(od, now, timeout) == rest;
        assert rest != [] ==> rest[0] in rest && rest[0] != od[0];
      }
    }
  }

  /** A reaper round leaves just the items idle for no longer than the timeout, as they were and in order;
      with a timeout of zero it leaves everything. */
  lemma ReapedIs<V>(od: OrderedDict<V>, now: int, timeout: nat)
    requires Valid(od)
    ensures forall x :: x in Reaped(od, now, timeout) <==> x in od && (timeout == 0 || now - x.lastAccess <= timeout)
    ensures InOrder(Reaped(od, now, timeout), od)
  {
    FreshItems(od, now, timeout);
    InOrderSelf(od);
  }
}
