/** Requests that share the stores of the nodes they go through (inference/node_forward.py). Each node
    has its own log of passes, clears and reaper rounds; a request whose entry is not pushed out between
    two of its passes gets the values of the one causal pass, whatever else the nodes do meanwhile. */
module SharedStores {
  import opened CausalModel
  import opened KvCache
  import opened NodeForward

  datatype Event<H> = Passing(id: Id, reset: bool, now: int, hs: seq<H>) | Clearing(id: Id) | Reaping(now: int)

  /** A node: its layers, the limits of its store, and what happened on it so far. */
  datatype NodeLog<H> = NodeLog(shard: Shard, max: nat, timeout: nat, events: seq<Event<H>>)

  function OpOf<H>(e: Event<H>): Op {
    match e
    case Passing(id, reset, now, _) => Use(id, reset, now)
    case Clearing(id) => Clear(id)
    case Reaping(now) => Reap(now)
  }

  function Ops<H>(events: seq<Event<H>>): (ops: seq<Op>)
    ensures |ops| == |events|
  {
    seq(|events|, i requires 0 <= i < |events| => OpOf(events[i]))
  }

  function Before<H>(n: NodeLog<H>): NodeLog<H>
    requires n.events != []
  {
    n.(events := n.events[..|n.events| - 1])
  }

  /** One event on a store; a node without layers stores nothing. */
  function Stepped<H, K>(m: Model<H, K>, env: MaskEnv, n: NodeLog<H>, e: Event<H>, kv: OrderedDict<Cache<K>>)
    : OrderedDict<Cache<K>>
  {
    match e
    case Passing(id, reset, now, hs) =>
      if n.shard.lo < n.shard.hi then ForwardKv(m, env, n.shard, hs, kv, Use(id, reset, now), n.max).1 else kv
    case Clearing(id) => Pop(kv, id)
    case Reaping(now) => Reaped(kv, now, n.timeout)
  }

  /** The store after the log. */
  function StoreAfter<H, K>(m: Model<H, K>, env: MaskEnv, n: NodeLog<H>): OrderedDict<Cache<K>>
    decreases |n.events|
  {
    if n.events == [] then [] else Stepped(m, env, n, n.events[|n.events| - 1], StoreAfter(m, env, Before(n)))
  }

  predicate Caching<H>(n: NodeLog<H>) { n.max >= 1 && n.shard.lo < n.shard.hi }

  predicate IsPass<H>(e: Event<H>, id: Id) { e.Passing? && e.id == id }

  /** What the node answered to the passes of a request, in order. */
  function Answers<H, K>(m: Model<H, K>, env: MaskEnv, n: NodeLog<H>, id: Id): seq<seq<H>>
    decreases |n.events|
  {
    if n.events == [] then []
    else
      var e := n.events[|n.events| - 1];
      Answers(m, env, Before(n), id)
      + if IsPass(e, id) then [Pass(m, env, n.shard, e.hs, Entered(StoreAfter(m, env, Before(n)), id, e.reset)).0]
        else []
  }

  /** What a request asked the node. */
  function Asked<H>(events: seq<Event<H>>, id: Id): seq<seq<H>> {
    if events == [] then []
    else
      var e := events[|events| - 1];
      Asked(events[..|events| - 1], id) + if IsPass(e, id) then [e.hs] else []
  }

  // ---- a request that is not pushed out ----

  /** Between its use at u and now: fewer than max other ids used, not cleared, not idle for too long. */
  ghost predicate Near(ops: seq<Op>, id: Id, u: nat, max: nat, timeout: nat)
    requires u < |ops| && ops[u].Use?
  {
    && |UsedSince(ops, u)| < max
    && forall i :: u < i < |ops| ==> Spares(ops[i], id, ops[u].now, timeout)
  }

  predicate Spares(op: Op, id: Id, lastUse: int, timeout: nat) {
    match op
    case Use(_, _, _) => true
    case Clear(x) => x != id
    case Reap(now) => timeout == 0 || now - lastUse <= timeout
  }

  predicate FirstUse(ops: seq<Op>, id: Id) { LastUse(ops, id) < 0 }

  /** Every pass that goes on with the request comes near the one before. */
  ghost predicate Unbroken<H>(n: NodeLog<H>, id: Id) {
    forall k :: 0 <= k < |n.events| && IsPass(n.events[k], id) ==>
      Continues(Ops(n.events)[..k], n.events[k].reset, id, n)
  }

  /** Only a request's first pass resets its cache. */
  ghost predicate Continues<H>(ops: seq<Op>, reset: bool, id: Id, n: NodeLog<H>) {
    FirstUse(ops, id) || (!reset && Near(ops, id, LastUse(ops, id), n.max, n.timeout))
  }

  lemma UsedSincePrefix(ops: seq<Op>, u: int)
    requires ops != []
    ensures UsedSince(ops[..|ops| - 1], u) <= UsedSince(ops, u)
    ensures |UsedSince(ops[..|ops| - 1], u)| <= |UsedSince(ops, u)|
  {
    var few, many := UsedSince(ops[..|ops| - 1], u), UsedSince(ops, u);
    assert many == few + (many - few);
  }

  lemma {:induction false} StillThere<V>(ops: seq<Op>, id: Id, empty: V, max: nat, timeout: nat)
    requires max >= 1 && !FirstUse(ops, id) && Near(ops, id, LastUse(ops, id), max, timeout)
    ensures Has(Run(ops, empty, max, timeout), id)
  {
    var last := |ops| - 1;
    var before, op := ops[..last], ops[last];
    assert before + [op] == ops;
    if op.Use? {
      EvictedWasLeastRecent(before, op, empty, max, timeout, id);
    }
    if !(op.Use? && op.id == id) {
      UsedSincePrefix(ops, LastUse(ops, id));
      StillThere(before, id, empty, max, timeout);
      if !op.Use? {
        SparedStays(before, op, id, empty, max, timeout);
      }
    }
  }

  lemma SparedStays<V>(before: seq<Op>, op: Op, id: Id, empty: V, max: nat, timeout: nat)
    requires max >= 1 && !op.Use? && !FirstUse(before, id) && Has(Run(before, empty, max, timeout), id)
    requires Spares(op, id, before[LastUse(before, id)].now, timeout)
    ensures Has(Apply(Run(before, empty, max, timeout), op, empty, max, timeout), id)
  {
    var od := Run(before, empty, max, timeout);
    RunInUseOrder(before, empty, max, timeout);
    match op
    case Clear(x) => PopKeepsItem(od, x, id);
    case Reap(now) =>
      FreshHas(od, now, timeout);
      assert od[Find(od, id)].lastAccess == Times(before)(od[Find(od, id)].id);
  }

  // ---- the store with grown caches has the items of the plain run ----

  lemma {:induction false} SamePop<V, W>(od: OrderedDict<V>, od': OrderedDict<W>, id: Id)
    requires SameItems(od, od')
    ensures SameItems(Pop(od, id), Pop(od', id))
  {
    SameItemsFind(od, od', id);
    forall i | 0 <= i < |Pop(od, id)|
      ensures Pop(od, id)[i].id == Pop(od', id)[i].id && Pop(od, id)[i].lastAccess == Pop(od', id)[i].lastAccess
    {
      PopAt(od, id, i);
      PopAt(od', id, i);
    }
  }

  lemma SamePush<V, W>(od: OrderedDict<V>, od': OrderedDict<W>, x: Item<V>, x': Item<W>, max: nat)
    requires SameItems(od, od') && x.id == x'.id && x.lastAccess == x'.lastAccess
    ensures SameItems(od + [x], od' + [x']) && SameItems(EvictOver(od + [x], max), EvictOver(od' + [x'], max))
  {
  }

  lemma SameEnter<V, W>(od: OrderedDict<V>, od': OrderedDict<W>, op: Op, empty: V, empty': W, max: nat)
    requires SameItems(od, od') && op.Use?
    ensures SameItems(Enter(od, op.id, op.reset, empty, op.now, max), Enter(od', op.id, op.reset, empty', op.now, max))
  {
    SamePop(od, od', op.id);
    var left, left' := if op.reset then Pop(od, op.id) else od, if op.reset then Pop(od', op.id) else od';
    SameItemsFind(left, left', op.id);
    if Has(left, op.id) {
      SamePop(left, left', op.id);
      SamePush(Pop(left, op.id), Pop(left', op.id),
               Item(op.id, Get(left, op.id), op.now), Item(op.id, Get(left', op.id), op.now), max);
    } else {
      SamePush(left, left', Item(op.id, empty, op.now), Item(op.id, empty', op.now), max);
    }
  }

  lemma {:induction false} SameFresh<V, W>(od: OrderedDict<V>, od': OrderedDict<W>, now: int, timeout: nat)
    requires SameItems(od, od')
    ensures SameItems(Fresh(od, now, timeout), Fresh(od', now, timeout))
  {
    if od != [] {
      SameFresh(od[1..], od'[1..], now, timeout);
    }
  }

  lemma SteppedSame<H, K>(
    m: Model<H, K>, env: MaskEnv, n: NodeLog<H>, e: Event<H>, kv: OrderedDict<Cache<K>>, od: OrderedDict<Cache<K>>)
    requires Caching(n) && SameItems(kv, od) && Valid(kv) && |kv| <= n.max
    ensures SameItems(Stepped(m, env, n, e, kv), Apply(od, OpOf(e), map[], n.max, n.timeout))
  {
    match e
    case Passing(id, reset, now, hs) =>
      var use := Use(id, reset, now);
      var after := Enter(kv, id, reset, map[], now, n.max);
      SameEnter(kv, od, use, map[], map[], n.max);
      EnteredBy(kv, use, n.max);
      WithCacheKeeps(after, id, Pass(m, env, n.shard, hs, Entered(kv, id, reset)).1);
      SameTrans(Stepped(m, env, n, e, kv), after, Enter(od, id, reset, map[], now, n.max));
    case Clearing(id) => SamePop(kv, od, id);
    case Reaping(now) => SameFresh(kv, od, now, n.timeout);
  }

  lemma SameTrans<V, W, X>(a: OrderedDict<V>, b: OrderedDict<W>, c: OrderedDict<X>)
    requires SameItems(b, a) && SameItems(b, c)
    ensures SameItems(a, c)
  {
  }

  lemma SameValid<V, W>(a: OrderedDict<V>, b: OrderedDict<W>)
    requires SameItems(a, b) && Valid(b)
    ensures Valid(a)
  {
  }

  function PlainRun<H, K>(n: NodeLog<H>): OrderedDict<Cache<K>> { Run(Ops(n.events), map[], n.max, n.timeout) }

  lemma PlainRunStep<H, K>(n: NodeLog<H>)
    requires n.events != []
    ensures PlainRun<H, K>(n)
      == Apply(PlainRun<H, K>(Before(n)), OpOf(n.events[|n.events| - 1]), map[], n.max, n.timeout)
  {
    assert Ops(n.events)[..|n.events| - 1] == Ops(Before(n).events);
  }

  /** Whatever the caches hold, the store has the items of the plain run. */
  lemma {:induction false} StoreIsRun<H, K>(m: Model<H, K>, env: MaskEnv, n: NodeLog<H>)
    requires Caching(n)
    ensures var kv := StoreAfter(m, env, n); SameItems(kv, PlainRun<H, K>(n)) && Valid(kv) && |kv| <= n.max
    decreases |n.events|
  {
    RunInUseOrder<Cache<K>>(Ops(n.events), map[], n.max, n.timeout);
    if n.events != [] {
      StoreIsRun(m, env, Before(n));
      PlainRunStep<H, K>(n);
      SteppedSame(m, env, n, n.events[|n.events| - 1], StoreAfter(m, env, Before(n)), PlainRun(Before(n)));
    }
    SameValid(StoreAfter(m, env, n), PlainRun<H, K>(n));
  }

  lemma StoreHas<H, K>(m: Model<H, K>, env: MaskEnv, n: NodeLog<H>, id: Id)
    requires Caching(n)
    ensures Has(StoreAfter(m, env, n), id) <==> Has(PlainRun<H, K>(n), id)
  {
    StoreIsRun(m, env, n);
    SameItemsFind(StoreAfter(m, env, n), PlainRun<H, K>(n), id);
  }

  // ---- a request's own passes ----

  /** The passes of one request, as if it had the node to itself. */
  function Passes<H, K>(m: Model<H, K>, env: MaskEnv, s: Shard, inputs: seq<seq<H>>): (seq<seq<H>>, Cache<K>) {
    if inputs == [] then ([], map[])
    else
      var last := |inputs| - 1;
      var (outs, cache) := Passes(m, env, s, inputs[..last]);
      var (out, grown) := Pass(m, env, s, inputs[last], cache);
      (outs + [out], grown)
  }

  function Own<H, K>(m: Model<H, K>, env: MaskEnv, n: NodeLog<H>, id: Id): Cache<K> {
    Passes(m, env, n.shard, Asked(n.events, id)).1
  }

  lemma AskedOnce<H>(events: seq<Event<H>>, id: Id)
    ensures FirstUse(Ops(events), id) ==> Asked(events, id) == []
  {
    if events != [] {
      assert Ops(events)[..|events| - 1] == Ops(events[..|events| - 1]);
      AskedOnce(events[..|events| - 1], id);
    }
  }

  lemma UnbrokenBefore<H>(n: NodeLog<H>, id: Id)
    requires n.events != [] && Unbroken(n, id)
    ensures Unbroken(Before(n), id)
    ensures IsPass(n.events[|n.events| - 1], id) ==>
      Continues(Ops(Before(n).events), n.events[|n.events| - 1].reset, id, n)
  {
    var last := |n.events| - 1;
    assert Ops(n.events)[..last] == Ops(Before(n).events);
    forall k | 0 <= k < last && IsPass(n.events[k], id)
      ensures Continues(Ops(Before(n).events)[..k], n.events[k].reset, id, Before(n))
    {
      assert Ops(n.events)[..k] == Ops(Before(n).events)[..k];
      assert Continues(Ops(n.events)[..k], n.events[k].reset, id, n);
    }
  }

  ghost predicate EntryOwn<H, K>(m: Model<H, K>, env: MaskEnv, n: NodeLog<H>, id: Id) {
    var kv := StoreAfter(m, env, n);
    Has(kv, id) ==> Get(kv, id) == Own(m, env, n, id)
  }

  /** A request's entry, while it is there, is what its own passes made of it; and each of its passes
      is answered from just that. */
  lemma {:induction false} EntryIsOwn<H, K>(m: Model<H, K>, env: MaskEnv, n: NodeLog<H>, id: Id)
    requires Caching(n) && Unbroken(n, id)
    ensures EntryOwn(m, env, n, id)
    ensures Answers(m, env, n, id) == Passes(m, env, n.shard, Asked(n.events, id)).0
    decreases |n.events|
  {
    if n.events != [] {
      var e := n.events[|n.events| - 1];
      UnbrokenBefore(n, id);
      EntryIsOwn(m, env, Before(n), id);
      if IsPass(e, id) {
        OwnPass(m, env, n, e, id);
      } else {
        OwnElsewhere(m, env, n, e, id);
      }
    }
  }

  lemma OwnElsewhere<H, K>(m: Model<H, K>, env: MaskEnv, n: NodeLog<H>, e: Event<H>, id: Id)
    requires Caching(n) && n.events != [] && e == n.events[|n.events| - 1] && !IsPass(e, id)
    requires EntryOwn(m, env, Before(n), id)
    requires Answers(m, env, Before(n), id) == Passes(m, env, n.shard, Asked(Before(n).events, id)).0
    ensures EntryOwn(m, env, n, id)
    ensures Answers(m, env, n, id) == Passes(m, env, n.shard, Asked(n.events, id)).0
  {
    StoreIsRun(m, env, Before(n));
    OthersKeep(m, env, n, e, StoreAfter(m, env, Before(n)), id);
    AskedElsewhere(n.events, id);
    AnsweredElsewhere(m, env, n, id);
  }

  lemma AnsweredElsewhere<H, K>(m: Model<H, K>, env: MaskEnv, n: NodeLog<H>, id: Id)
    requires n.events != [] && !IsPass(n.events[|n.events| - 1], id)
    ensures Answers<H, K>(m, env, n, id) == Answers(m, env, Before(n), id)
  {
  }

  lemma AskedElsewhere<H>(events: seq<Event<H>>, id: Id)
    requires events != [] && !IsPass(events[|events| - 1], id)
    ensures Asked(events, id) == Asked(events[..|events| - 1], id)
  {
  }

  lemma OwnPass<H, K>(m: Model<H, K>, env: MaskEnv, n: NodeLog<H>, e: Event<H>, id: Id)
    requires Caching(n) && n.events != [] && e == n.events[|n.events| - 1] && IsPass(e, id)
    requires Continues(Ops(Before(n).events), e.reset, id, n) && EntryOwn(m, env, Before(n), id)
    requires Answers(m, env, Before(n), id) == Passes(m, env, n.shard, Asked(Before(n).events, id)).0
    ensures EntryOwn(m, env, n, id)
    ensures Answers(m, env, n, id) == Passes(m, env, n.shard, Asked(n.events, id)).0
  {
    var b := Before(n);
    StoreIsRun(m, env, b);
    PassEntersOwn(m, env, b, e, id);
    ForwardKvStores(m, env, n.shard, e.hs, StoreAfter(m, env, b), Use(id, e.reset, e.now), n.max);
    AskedMore<H, K>(m, env, n, id);
  }

  lemma PassEntersOwn<H, K>(m: Model<H, K>, env: MaskEnv, b: NodeLog<H>, e: Event<H>, id: Id)
    requires Caching(b) && IsPass(e, id) && Continues(Ops(b.events), e.reset, id, b)
    requires EntryOwn(m, env, b, id)
    ensures Entered(StoreAfter(m, env, b), id, e.reset) == Own(m, env, b, id)
  {
    StoreHas(m, env, b, id);
    if FirstUse(Ops(b.events), id) {
      AskedOnce(b.events, id);
      RunInUseOrder<Cache<K>>(Ops(b.events), map[], b.max, b.timeout);
      var od: OrderedDict<Cache<K>> := PlainRun(b);
      forall k | 0 <= k < |od| ensures od[k].id != id {
        assert Uses(Ops(b.events))(od[k].id) >= 0;
      }
    } else {
      StillThere<Cache<K>>(Ops(b.events), id, map[], b.max, b.timeout);
    }
  }

  lemma AskedMore<H, K>(m: Model<H, K>, env: MaskEnv, n: NodeLog<H>, id: Id)
    requires n.events != [] && IsPass(n.events[|n.events| - 1], id)
    ensures var (outs, cache) := Passes<H, K>(m, env, n.shard, Asked(Before(n).events, id));
      var (out, grown) := Pass(m, env, n.shard, n.events[|n.events| - 1].hs, cache);
      Passes(m, env, n.shard, Asked(n.events, id)) == (outs + [out], grown)
  {
    var before, e := Asked(Before(n).events, id), n.events[|n.events| - 1];
    assert (before + [e.hs])[..|before|] == before;
  }

  lemma OthersKeep<H, K>(m: Model<H, K>, env: MaskEnv, n: NodeLog<H>, e: Event<H>, kv: OrderedDict<Cache<K>>, id: Id)
    requires Caching(n) && Valid(kv) && |kv| <= n.max && !IsPass(e, id)
    ensures var kv' := Stepped(m, env, n, e, kv); Has(kv', id) ==> Has(kv, id) && Get(kv', id) == Get(kv, id)
  {
    match e
    case Passing(x, reset, now, hs) => ForwardKvStores(m, env, n.shard, hs, kv, Use(x, reset, now), n.max);
    case Clearing(x) => PopMeans(kv, x);
    case Reaping(now) =>
      if n.timeout > 0 && Has(Fresh(kv, now, n.timeout), id) {
        FreshKeepsItem(kv, now, n.timeout, id);
      }
  }

  lemma {:induction false} FreshKeepsItem<V>(od: OrderedDict<V>, now: int, timeout: nat, id: Id)
    requires Valid(od) && Has(Fresh(od, now, timeout), id)
    ensures Has(od, id) && Get(Fresh(od, now, timeout), id) == Get(od, id)
  {
    if od != [] {
      var rest := Fresh(od[1..], now, timeout);
      if now - od[0].lastAccess > timeout {
        assert Fresh(od, now, timeout) == rest;
        FreshKeepsItem(od[1..], now, timeout, id);
        TailKeepsItem(od, id);
      } else if od[0].id != id {
        assert ([od[0]] + rest)[1..] == rest;
        FreshKeepsItem(od[1..], now, timeout, id);
      }
    }
  }

  // ---- requests through a chain of such nodes ----

  /** Chunk by chunk, the part of the causal pass at layer l that belongs to it. */
  function Slices<H, K>(m: Model<H, K>, l: nat, chunks: seq<seq<H>>): (slices: seq<seq<H>>)
    ensures |slices| == |chunks|
    ensures forall j :: 0 <= j < |chunks| ==> |slices[j]| == |chunks[j]|
  {
    seq(|chunks|, j requires 0 <= j < |chunks| => Slice(m, l, chunks[..j], chunks[j]))
  }

  function Slice<H, K>(m: Model<H, K>, l: nat, early: seq<seq<H>>, chunk: seq<H>): (slice: seq<H>)
    ensures |slice| == |chunk|
  {
    Hidden(m, l, Flat(early) + chunk)[|Flat(early)|..]
  }

  lemma SlicesGrow<H, K>(m: Model<H, K>, l: nat, chunks: seq<seq<H>>)
    requires chunks != []
    ensures var early, chunk := chunks[..|chunks| - 1], chunks[|chunks| - 1];
      Slices(m, l, chunks) == Slices(m, l, early) + [Slice(m, l, early, chunk)]
  {
    var last := |chunks| - 1;
    var slices, early := Slices(m, l, chunks), Slices(m, l, chunks[..last]);
    forall j | 0 <= j < last ensures slices[j] == early[j] {
      EarlierSlice(m, l, chunks, j);
    }
    OneMore(slices, early, Slice(m, l, chunks[..last], chunks[last]));
  }

  lemma OneMore<T>(all: seq<T>, early: seq<T>, last: T)
    requires |all| == |early| + 1 && all[|early|] == last && forall j :: 0 <= j < |early| ==> all[j] == early[j]
    ensures all == early + [last]
  {
  }

  lemma EarlierSlice<H, K>(m: Model<H, K>, l: nat, chunks: seq<seq<H>>, j: nat)
    requires j < |chunks| - 1
    ensures Slices(m, l, chunks)[j] == Slices(m, l, chunks[..|chunks| - 1])[j]
  {
    EarlierPrefix(chunks, j);
  }

  lemma EarlierPrefix<T>(chunks: seq<T>, j: nat)
    requires j < |chunks| - 1
    ensures chunks[..|chunks| - 1][..j] == chunks[..j] && chunks[..|chunks| - 1][j] == chunks[j]
  {
  }

  /** One node, asked for the slices that enter its layers, answers with those that leave them. */
  lemma {:induction false} PassesExact<H, K>(m: Model<H, K>, env: MaskEnv, s: Shard, layers: nat, chunks: seq<seq<H>>)
    requires s.hi <= layers && Guarded(m, env, layers, chunks)
    ensures Passes(m, env, s, Slices(m, s.lo, chunks)).0 == Slices(m, s.hi, chunks)
    ensures CacheExact(m, Passes(m, env, s, Slices(m, s.lo, chunks)).1, s.lo, s.hi, Flat(chunks))
  {
    if chunks == [] {
      NothingCached(m, s);
    } else {
      var early, chunk := chunks[..|chunks| - 1], chunks[|chunks| - 1];
      GuardedPrefix(m, env, layers, chunks, |chunks| - 1);
      PassesExact(m, env, s, layers, early);
      OnePassMore(m, env, s, chunks);
      assert Flat(chunks) == Flat(early) + chunk;
    }
  }

  lemma OnePassMore<H, K>(m: Model<H, K>, env: MaskEnv, s: Shard, chunks: seq<seq<H>>)
    requires chunks != []
    requires var early, chunk := chunks[..|chunks| - 1], chunks[|chunks| - 1];
      && Passes(m, env, s, Slices(m, s.lo, early)).0 == Slices(m, s.hi, early)
      && CacheExact(m, Passes(m, env, s, Slices(m, s.lo, early)).1, s.lo, s.hi, Flat(early))
      && forall l: nat :: s.lo <= l < s.hi ==> MaskGuard(env, m.kind(l), |Flat(early)|, |chunk|)
    ensures Passes(m, env, s, Slices(m, s.lo, chunks)).0 == Slices(m, s.hi, chunks)
    ensures CacheExact(m, Passes(m, env, s, Slices(m, s.lo, chunks)).1, s.lo, s.hi,
                       Flat(chunks[..|chunks| - 1]) + chunks[|chunks| - 1])
  {
    var early, chunk := chunks[..|chunks| - 1], chunks[|chunks| - 1];
    SlicesGrow(m, s.lo, chunks);
    SlicesGrow(m, s.hi, chunks);
    PassesGrow(m, env, s, Slices(m, s.lo, early), Slice(m, s.lo, early, chunk));
    PassExact(m, env, s, early, chunk, Passes(m, env, s, Slices(m, s.lo, early)).1);
  }

  lemma PassesGrow<H, K>(m: Model<H, K>, env: MaskEnv, s: Shard, inputs: seq<seq<H>>, input: seq<H>)
    ensures var (outs, cache) := Passes(m, env, s, inputs);
      var (out, grown) := Pass(m, env, s, input, cache);
      Passes(m, env, s, inputs + [input]) == (outs + [out], grown)
  {
    assert (inputs + [input])[..|inputs|] == inputs;
  }

  lemma NothingCached<H, K>(m: Model<H, K>, s: Shard)
    ensures CacheExact(m, map[], s.lo, s.hi, [])
  {
    assert forall l: nat :: Keys(m, l, Hidden(m, l, [])) == [];
  }

  lemma PassExact<H, K>(m: Model<H, K>, env: MaskEnv, s: Shard, early: seq<seq<H>>, chunk: seq<H>, cache: Cache<K>)
    requires CacheExact(m, cache, s.lo, s.hi, Flat(early))
    requires forall l: nat :: s.lo <= l < s.hi ==> MaskGuard(env, m.kind(l), |Flat(early)|, |chunk|)
    ensures var (out, grown) := Pass(m, env, s, Slice(m, s.lo, early, chunk), cache);
      out == Slice(m, s.hi, early, chunk) && CacheExact(m, grown, s.lo, s.hi, Flat(early) + chunk)
  {
    var xs, past := Flat(early) + chunk, |Flat(early)|;
    assert xs[..past] == Flat(early);
    NodeExact(m, env, s, past, xs, Slice(m, s.lo, early, chunk), cache);
  }

  /** The nodes of one request's chain: each one's answers are what the next one is asked. */
  ghost predicate Served<H, K>(m: Model<H, K>, env: MaskEnv, nodes: seq<NodeLog<H>>, id: Id, inputs: seq<seq<H>>) {
    nodes != [] ==>
      && nodes[0].max >= 1 && Unbroken(nodes[0], id)
      && Asked(nodes[0].events, id) == inputs
      && Served(m, env, nodes[1..], id, Answers<H, K>(m, env, nodes[0], id))
  }

  function Last<H, K>(m: Model<H, K>, env: MaskEnv, nodes: seq<NodeLog<H>>, id: Id): seq<seq<H>>
    requires nodes != []
  {
    Answers(m, env, nodes[|nodes| - 1], id)
  }

  function Shards<H>(nodes: seq<NodeLog<H>>): (shards: seq<Shard>)
    ensures |shards| == |nodes|
  {
    seq(|nodes|, k requires 0 <= k < |nodes| => nodes[k].shard)
  }

  /** A node without layers answers with what it is asked. */
  lemma {:induction false} EmptyNode<H, K>(m: Model<H, K>, env: MaskEnv, n: NodeLog<H>, id: Id)
    requires n.shard.lo == n.shard.hi
    ensures Answers<H, K>(m, env, n, id) == Asked(n.events, id)
    decreases |n.events|
  {
    if n.events != [] {
      EmptyNode<H, K>(m, env, Before(n), id);
    }
  }

  lemma {:induction false} PassesLength<H, K>(m: Model<H, K>, env: MaskEnv, s: Shard, inputs: seq<seq<H>>)
    ensures |Passes(m, env, s, inputs).0| == |inputs|
  {
    if inputs != [] {
      PassesLength(m, env, s, inputs[..|inputs| - 1]);
    }
  }

  lemma TakeEarly<T>(early: seq<T>, last: T, n: nat)
    requires n <= |early|
    ensures (early + [last])[..n] == early[..n]
  {
  }

  lemma OnePassFewer<H, K>(m: Model<H, K>, env: MaskEnv, s: Shard, early: seq<seq<H>>, last: seq<H>, n: nat)
    requires n <= |early| == |Passes(m, env, s, early).0|
    ensures |Passes(m, env, s, early + [last]).0| == |early| + 1
    ensures Passes(m, env, s, early + [last]).0[..n] == Passes(m, env, s, early).0[..n]
  {
    var (outs, cache) := Passes(m, env, s, early);
    PassesGrow(m, env, s, early, last);
    TakeEarly(outs, Pass(m, env, s, last, cache).0, n);
  }

  /** The first answers are those to the first inputs. */
  lemma {:induction false} PassesTake<H, K>(m: Model<H, K>, env: MaskEnv, s: Shard, inputs: seq<seq<H>>, n: nat)
    requires n <= |inputs|
    ensures |Passes(m, env, s, inputs).0| == |inputs|
    ensures Passes(m, env, s, inputs).0[..n] == Passes(m, env, s, inputs[..n]).0
    decreases |inputs|
  {
    PassesLength(m, env, s, inputs);
    if n == |inputs| {
      assert inputs[..n] == inputs;
    } else {
      var early, last := inputs[..|inputs| - 1], inputs[|inputs| - 1];
      PassesTake(m, env, s, early, n);
      OnePassFewer(m, env, s, early, last, n);
      SplitLast(inputs, n);
    }
  }

  lemma SplitLast<T>(s: seq<T>, n: nat)
    requires n < |s|
    ensures s == s[..|s| - 1] + [s[|s| - 1]] && s[..|s| - 1][..n] == s[..n]
  {
  }

  /** As far as the node was asked for slices of the causal pass, it answered with them. */
  lemma NodeServes<H, K>(m: Model<H, K>, env: MaskEnv, n: NodeLog<H>, id: Id, layers: nat, chunks: seq<seq<H>>)
    requires n.max >= 1 && Unbroken(n, id) && n.shard.hi <= layers && Guarded(m, env, layers, chunks)
    requires |chunks| <= |Asked(n.events, id)| && Asked(n.events, id)[..|chunks|] == Slices(m, n.shard.lo, chunks)
    ensures |Answers<H, K>(m, env, n, id)| == |Asked(n.events, id)|
    ensures Answers(m, env, n, id)[..|chunks|] == Slices(m, n.shard.hi, chunks)
  {
    if n.shard.lo < n.shard.hi {
      EntryIsOwn(m, env, n, id);
      PassesTake(m, env, n.shard, Asked(n.events, id), |chunks|);
      PassesExact(m, env, n.shard, layers, chunks);
    } else {
      EmptyNode<H, K>(m, env, n, id);
    }
  }

  lemma {:induction false} ChainServes<H, K>(
    m: Model<H, K>, env: MaskEnv, nodes: seq<NodeLog<H>>, id: Id, lo: nat, layers: nat,
    chunks: seq<seq<H>>, inputs: seq<seq<H>>)
    requires nodes != [] && Tile(Shards(nodes), lo, layers) && Guarded(m, env, layers, chunks)
    requires Served(m, env, nodes, id, inputs) && |chunks| <= |inputs| && inputs[..|chunks|] == Slices(m, lo, chunks)
    ensures |Last(m, env, nodes, id)| == |inputs|
    ensures Last(m, env, nodes, id)[..|chunks|] == Slices(m, layers, chunks)
  {
    var n := nodes[0];
    assert Shards(nodes)[1..] == Shards(nodes[1..]);
    TileOrder(Shards(nodes[1..]), n.shard.hi, layers);
    NodeServes(m, env, n, id, layers, chunks);
    if |nodes| > 1 {
      ChainServes(m, env, nodes[1..], id, n.shard.hi, layers, chunks, Answers<H, K>(m, env, n, id));
    }
  }

  lemma {:induction false} FlatSlices<H, K>(m: Model<H, K>, l: nat, chunks: seq<seq<H>>)
    ensures Flat(Slices(m, l, chunks)) == Hidden(m, l, Flat(chunks))
  {
    if chunks == [] {
      assert Hidden(m, l, []) == [];
    } else {
      var early, chunk := chunks[..|chunks| - 1], chunks[|chunks| - 1];
      FlatSlices(m, l, early);
      SlicesGrow(m, l, chunks);
      FlatMore(Slices(m, l, early), Slice(m, l, early, chunk));
      HiddenSplits(m, l, Flat(early), chunk);
    }
  }

  lemma FlatMore<T>(chunks: seq<seq<T>>, chunk: seq<T>)
    ensures Flat(chunks + [chunk]) == Flat(chunks) + chunk
  {
    assert (chunks + [chunk])[..|chunks|] == chunks;
  }

  lemma SlicesEnter<H, K>(m: Model<H, K>, chunks: seq<seq<H>>)
    ensures Slices(m, 0, chunks) == chunks
  {
  }

  /** Requests interleave on every node in any way, with clears, reaper rounds and evictions. A request
      that comes back to each node before max other ids were used there, and that is neither cleared nor
      idle for too long, gets from the last node the values of one causal pass over all its chunks. */
  lemma SharedRunIsOnePass<H, K>(
    m: Model<H, K>, env: MaskEnv, nodes: seq<NodeLog<H>>, id: Id, layers: nat, chunks: seq<seq<H>>)
    requires nodes != [] && Tile(Shards(nodes), 0, layers) && Guarded(m, env, layers, chunks)
    requires Served(m, env, nodes, id, chunks)
    ensures Flat(Last(m, env, nodes, id)) == Hidden(m, layers, Flat(chunks))
  {
    SlicesEnter(m, chunks);
    assert chunks[..|chunks|] == chunks;
    ChainServes(m, env, nodes, id, 0, layers, chunks, chunks);
    assert Last(m, env, nodes, id)[..|chunks|] == Last(m, env, nodes, id);
    FlatSlices(m, layers, chunks);
  }
}
