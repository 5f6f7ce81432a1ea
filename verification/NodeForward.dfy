/** A node that holds a contiguous range of layers and answers forward passes from per-request,
    per-layer caches (inference/node_forward.py), and the refinement of the one-machine causal
    pass by a chain of such nodes fed chunk by chunk. */
module NodeForward {
  import opened CausalModel
  import opened KvCache

  /** Whether the library and the model configuration offer a mask builder for sliding windows. */
  datatype MaskEnv = MaskEnv(sliding: bool)

  predicate IsDecodeStep(past: nat, n: nat) { n == 1 && past > 0 }

  /** Row i of the mask for a chunk of n positions after `past` cached ones. The single-token shortcut
      makes no mask, so every cached column is visible; a full mask also serves sliding layers when
      there is no builder for them. */
  function MaskRow(env: MaskEnv, kind: LayerKind, past: nat, n: nat, i: nat): nat -> bool {
    if IsDecodeStep(past, n) then j => true
    else if kind.Sliding? && env.sliding then j => (j < past || j - past <= i) && past + i - j < kind.window
    else j => j < past || j - past <= i
  }

  /** The per-layer caches of one request: DynamicCache, indexed by global layer number. */
  type Cache<K> = map<nat, seq<K>>

  function Stored<K>(cache: Cache<K>, l: nat): seq<K> {
    if l in cache then cache[l] else []
  }

  function Appended<H, K>(m: Model<H, K>, l: nat, past: nat, hs: seq<H>, ks: seq<K>): seq<K> {
    ks + seq(|hs|, i requires 0 <= i < |hs| => m.project(l, past + i, hs[i]))
  }

  /** One layer on a chunk: append to its cache, then let every position attend to what its row shows. */
  function LayerStep<H, K>(m: Model<H, K>, env: MaskEnv, l: nat, past: nat, hs: seq<H>, ks: seq<K>): (out: seq<H>)
    ensures |out| == |hs|
  {
    var all := Appended(m, l, past, hs, ks);
    seq(|hs|, i requires 0 <= i < |hs| =>
      m.attend(l, past + i, hs[i], Visible(all, MaskRow(env, m.kind(l), past, |hs|, i))))
  }

  /** Layers lo..hi on a chunk; returns the hidden values and the grown caches. */
  function Layers<H, K>(
    m: Model<H, K>, env: MaskEnv, lo: nat, hi: nat, past: nat, hs: seq<H>, cache: Cache<K>)
    : (r: (seq<H>, Cache<K>))
    requires lo <= hi
    ensures |r.0| == |hs|
    ensures forall l :: !(lo <= l < hi) ==> (l in r.1 <==> l in cache) && (l in cache ==> r.1[l] == cache[l])
    decreases hi - lo
  {
    if lo == hi then (hs, cache)
    else
      var (mid, grown) := Layers(m, env, lo, hi - 1, past, hs, cache);
      var l := hi - 1;
      (LayerStep(m, env, l, past, mid, Stored(grown, l)), grown[l := Appended(m, l, past, mid, Stored(grown, l))])
  }

  datatype Bounds = Shard(lo: nat, hi: nat)
  type Shard = b: Bounds | b.lo <= b.hi witness Shard(0, 0)

  function NormAll<H, K>(m: Model<H, K>, hs: seq<H>): seq<H> {
    seq(|hs|, i requires 0 <= i < |hs| => m.norm(hs[i]))
  }

  /** One layer of `run_forward_legacy`: positions from 0, an explicit causal mask for every kind. */
  function LegacyStep<H, K>(m: Model<H, K>, l: nat, hs: seq<H>): (out: seq<H>)
    ensures |out| == |hs|
  {
    seq(|hs|, i requires 0 <= i < |hs| => m.attend(l, i, hs[i], Visible(Keys(m, l, hs), CausalRow(Full, i))))
  }

  /** Layers lo..hi without caches, where the library has none. */
  function LegacyLayers<H, K>(m: Model<H, K>, lo: nat, hi: nat, hs: seq<H>): (out: seq<H>)
    requires lo <= hi
    ensures |out| == |hs|
    decreases hi - lo
  {
    if lo == hi then hs else LegacyStep(m, hi - 1, LegacyLayers(m, lo, hi - 1, hs))
  }

  /** The cache a forward pass of request id starts from. */
  function Entered<K>(kv: OrderedDict<Cache<K>>, id: Id, reset: bool): Cache<K> {
    if !reset && Has(kv, id) then Get(kv, id) else map[]
  }

  function WithCache<K>(kv: OrderedDict<Cache<K>>, id: Id, cache: Cache<K>): OrderedDict<Cache<K>> {
    var k := Find(kv, id);
    if k < |kv| then kv[k := kv[k].(cache := cache)] else kv
  }

  /** The layers on the entry the request starts from, and the store with that entry's cache grown. */
  function ForwardKv<H, K>(
    m: Model<H, K>, env: MaskEnv, s: Shard, hs: seq<H>, kv: OrderedDict<Cache<K>>, use: Op, max: nat)
    : (seq<H>, OrderedDict<Cache<K>>)
    requires use.Use?
  {
    var cache := Entered(kv, use.id, use.reset);
    var (out, grown) := Pass(m, env, s, hs, cache);
    (out, WithCache(Enter(kv, use.id, use.reset, map[], use.now, max), use.id, grown))
  }

  /** A node's layers on a chunk; the position offset is the length of its first layer's cache. */
  function Pass<H, K>(m: Model<H, K>, env: MaskEnv, s: Shard, hs: seq<H>, cache: Cache<K>): (seq<H>, Cache<K>) {
    Layers(m, env, s.lo, s.hi, |Stored(cache, s.lo)|, hs, cache)
  }

  lemma EnteredBy<K>(kv: OrderedDict<Cache<K>>, use: Op, max: nat)
    requires use.Use? && max >= 1 && |kv| <= max && Valid(kv)
    ensures var after := Enter(kv, use.id, use.reset, map[], use.now, max);
      Valid(after) && |after| <= max && Has(after, use.id) && Get(after, use.id) == Entered(kv, use.id, use.reset)
  {
    EnterFinds(kv, use, map[], max);
  }

  /** Replacing one entry's cache: the same ids in the same order with the same times. */
  lemma WithCacheKeeps<K>(kv: OrderedDict<Cache<K>>, id: Id, cache: Cache<K>)
    requires Valid(kv)
    ensures var kv' := WithCache(kv, id, cache);
      && Valid(kv') && SameItems(kv, kv')
      && (forall x :: Has(kv', x) <==> Has(kv, x))
      && (forall x :: Has(kv, x) ==> Get(kv', x) == if x == id then cache else Get(kv, x))
  {
    var kv' := WithCache(kv, id, cache);
    forall x ensures Find(kv', x) == Find(kv, x) {
      SameItemsFind(kv, kv', x);
    }
  }

  /** After a pass the store is in order and holds the grown cache under the request's id; every other
      request keeps its cache, unless it was the front of a full store that lacked this id. */
  lemma ForwardKvStores<H, K>(
    m: Model<H, K>, env: MaskEnv, s: Shard, hs: seq<H>, kv: OrderedDict<Cache<K>>, use: Op, max: nat)
    requires use.Use? && max >= 1 && |kv| <= max && Valid(kv)
    ensures var kv' := ForwardKv(m, env, s, hs, kv, use, max).1;
      && Valid(kv') && |kv'| <= max
      && Entered(kv', use.id, false) == Pass(m, env, s, hs, Entered(kv, use.id, use.reset)).1
      && (forall x :: x != use.id && Has(kv', x) ==> Has(kv, x) && Get(kv', x) == Get(kv, x))
      && (forall x :: x != use.id && Has(kv, x) && !Has(kv', x) ==>
            !Has(kv, use.id) && |kv| == max && x == kv[0].id)
  {
    var after := Enter(kv, use.id, use.reset, map[], use.now, max);
    EnteredBy(kv, use, max);
    WithCacheKeeps(after, use.id, Pass(m, env, s, hs, Entered(kv, use.id, use.reset)).1);
    forall x | x != use.id
      ensures Has(after, x) ==> Has(kv, x) && Get(after, x) == Get(kv, x)
      ensures Has(kv, x) && !Has(after, x) ==> !Has(kv, use.id) && |kv| == max && x == kv[0].id
    {
      EnterKeepsCaches(kv, use, map[], max, x);
    }
  }

  class Node<H, K> {
    const m: Model<H, K>
    const env: MaskEnv
    const caching: bool
    const shard: Shard
    const maxEntries: nat
    var kv: OrderedDict<Cache<K>>

    constructor (m: Model<H, K>, env: MaskEnv, caching: bool, shard: Shard, max: nat)
      ensures this.m == m && this.env == env && this.caching == caching && this.shard == shard
      ensures kv == [] && maxEntries == if max < 1 then 1 else max
    {
      this.m, this.env, this.caching, this.shard := m, env, caching, shard;
      maxEntries := if max < 1 then 1 else max;
      kv := [];
    }

    predicate Ready()
      reads this
    {
      1 <= maxEntries && |kv| <= maxEntries
    }

    /** The layer loop of `run_forward_kv`. */
    method RunLayers(hs: seq<H>, cache: Cache<K>) returns (out: seq<H>, grown: Cache<K>)
      ensures (out, grown) == Pass(m, env, shard, hs, cache)
    {
      out, grown := hs, cache;
      var past := |Stored(cache, shard.lo)|;
      for l := shard.lo to shard.hi
        invariant (out, grown) == Layers(m, env, shard.lo, l, past, hs, cache)
      {
        var ks := Stored(grown, l);
        grown := grown[l := Appended(m, l, past, out, ks)];
        out := LayerStep(m, env, l, past, out, ks);
      }
    }

    /** `run_forward_kv` up to the final norm: look the request up, run the layers, keep the grown cache. */
    method RunForwardKv(hs: seq<H>, id: Id, reset: bool, now: int) returns (out: seq<H>)
      requires Ready() && Valid(kv)
      modifies this
      ensures (out, kv) == ForwardKv(m, env, shard, hs, old(kv), Use(id, reset, now), maxEntries)
    {
      EnteredBy(kv, Use(id, reset, now), maxEntries);
      kv := Enter(kv, id, reset, map[], now, maxEntries);
      var cache := Get(kv, id);
      out, cache := RunLayers(hs, cache);
      kv := WithCache(kv, id, cache);
    }

    /** `run_forward_legacy` up to the final norm. */
    method RunForwardLegacy(hs: seq<H>) returns (out: seq<H>)
      ensures out == LegacyLayers(m, shard.lo, shard.hi, hs)
    {
      out := hs;
      for l := shard.lo to shard.hi
        invariant out == LegacyLayers(m, shard.lo, l, hs)
      {
        out := LegacyStep(m, l, out);
      }
    }

    /** `run_forward`: without a cache library, and on a node without layers, nothing is stored. */
    method RunForward(hs: seq<H>, id: Id, isGenerate: bool, reset: bool, now: int) returns (out: seq<H>)
      requires Ready() && Valid(kv)
      modifies this
      ensures var cached := caching && shard.lo < shard.hi;
        var pass := ForwardKv(m, env, shard, hs, old(kv), Use(id, reset, now), maxEntries);
        var result := if cached then pass.0 else LegacyLayers(m, shard.lo, shard.hi, hs);
        && |out| == |result|
        && (forall i :: 0 <= i < |out| ==> out[i] == if isGenerate then m.norm(result[i]) else result[i])
        && kv == (if cached then pass.1 else old(kv))
      ensures Ready() && Valid(kv)
    {
      if caching && shard.lo < shard.hi {
        ForwardKvStores(m, env, shard, hs, kv, Use(id, reset, now), maxEntries);
        out := RunForwardKv(hs, id, reset, now);
      } else {
        out := RunForwardLegacy(hs);
      }
      if isGenerate {
        out := NormAll(m, out);
      }
    }

    /** `clear_cache`: the request starts from nothing again, and every other one from what it had. */
    method ClearCache(id: Id)
      requires Valid(kv)
      modifies this
      ensures Valid(kv) && Entered(kv, id, false) == map[] && !Has(kv, id)
      ensures forall x :: x != id ==>
        (Has(kv, x) <==> Has(old(kv), x)) && Entered(kv, x, false) == Entered(old(kv), x, false)
      ensures InOrder(kv, old(kv))
    {
      PopMeans(kv, id);
      kv := Pop(kv, id);
    }
  }

  // ---- one node against the causal pass ----

  /** The code's rows for a chunk show exactly what causality allows. */
  ghost predicate RowsFaithful(env: MaskEnv, kind: LayerKind, past: nat, n: nat) {
    forall i: nat, j: nat :: i < n && j < past + n ==> MaskRow(env, kind, past, n, i)(j) == CausalRow(kind, past + i)(j)
  }

  /** The same as a test on the chunk: a sliding layer needs a window that has not filled up yet, or,
      if the chunk is masked, a builder for such masks. */
  predicate MaskGuard(env: MaskEnv, kind: LayerKind, past: nat, n: nat) {
    n == 0 || kind.Full? || past + n <= kind.window || (env.sliding && !IsDecodeStep(past, n))
  }

  lemma MaskGuardIsExact(env: MaskEnv, kind: LayerKind, past: nat, n: nat)
    ensures RowsFaithful(env, kind, past, n) <==> MaskGuard(env, kind, past, n)
  {
    if RowsFaithful(env, kind, past, n) && n > 0 {
      assert MaskRow(env, kind, past, n, 0)(past + n - 1) == CausalRow(kind, past)(past + n - 1);
      assert MaskRow(env, kind, past, n, n - 1)(0) == CausalRow(kind, past + (n - 1))(0);
    }
  }

  ghost predicate CacheExact<H, K>(m: Model<H, K>, cache: Cache<K>, lo: nat, hi: nat, xs: seq<H>) {
    forall l: nat :: lo <= l < hi ==> Stored(cache, l) == Keys(m, l, Hidden(m, l, xs))
  }

  lemma AppendedExact<H, K>(m: Model<H, K>, l: nat, past: nat, ys: seq<H>, ks: seq<K>)
    requires past <= |ys| && ks == Keys(m, l, ys[..past])
    ensures Appended(m, l, past, ys[past..], ks) == Keys(m, l, ys)
  {
    LayerCausal(m, l, ys, past);
    assert forall j: nat :: j < past ==> Keys(m, l, ys)[j] == Keys(m, l, ys)[..past][j];
  }

  lemma LayerStepExact<H, K>(m: Model<H, K>, env: MaskEnv, l: nat, past: nat, xs: seq<H>, hs: seq<H>, ks: seq<K>)
    requires past <= |xs| && hs == Hidden(m, l, xs)[past..]
    requires ks == Keys(m, l, Hidden(m, l, xs[..past]))
    requires MaskGuard(env, m.kind(l), past, |hs|)
    ensures Appended(m, l, past, hs, ks) == Keys(m, l, Hidden(m, l, xs))
    ensures LayerStep(m, env, l, past, hs, ks) == Hidden(m, l + 1, xs)[past..]
  {
    var ys := Hidden(m, l, xs);
    HiddenCausal(m, l, xs, past);
    AppendedExact(m, l, past, ys, ks);
    MaskedStepExact(m, env, l, past, ys, ks);
  }

  lemma MaskedStepExact<H, K>(m: Model<H, K>, env: MaskEnv, l: nat, past: nat, ys: seq<H>, ks: seq<K>)
    requires past <= |ys| && MaskGuard(env, m.kind(l), past, |ys| - past)
    requires Appended(m, l, past, ys[past..], ks) == Keys(m, l, ys) && |ks| == past
    ensures LayerStep(m, env, l, past, ys[past..], ks) == CausalLayer(m, l, ys)[past..]
  {
    var n := |ys| - past;
    MaskGuardIsExact(env, m.kind(l), past, n);
    forall i: nat | i < n
      ensures LayerStep(m, env, l, past, ys[past..], ks)[i] == CausalLayer(m, l, ys)[past + i]
    {
      VisibleAgree(Keys(m, l, ys), MaskRow(env, m.kind(l), past, n, i), CausalRow(m.kind(l), past + i));
    }
  }

  lemma CacheExactExtends<H, K>(m: Model<H, K>, cache: Cache<K>, lo: nat, l: nat, ks: seq<K>, xs: seq<H>)
    requires CacheExact(m, cache, lo, l, xs) && ks == Keys(m, l, Hidden(m, l, xs))
    ensures CacheExact(m, cache[l := ks], lo, l + 1, xs)
  {
  }

  lemma {:induction false} LayersExact<H, K>(
    m: Model<H, K>, env: MaskEnv, lo: nat, hi: nat, past: nat, xs: seq<H>, hs: seq<H>, cache: Cache<K>)
    requires lo <= hi && past <= |xs|
    requires hs == Hidden(m, lo, xs)[past..] && CacheExact(m, cache, lo, hi, xs[..past])
    requires forall l: nat :: lo <= l < hi ==> MaskGuard(env, m.kind(l), past, |hs|)
    ensures Layers(m, env, lo, hi, past, hs, cache).0 == Hidden(m, hi, xs)[past..]
    ensures CacheExact(m, Layers(m, env, lo, hi, past, hs, cache).1, lo, hi, xs)
    decreases hi - lo
  {
    if lo < hi {
      var l := hi - 1;
      LayersExact(m, env, lo, l, past, xs, hs, cache);
      var (mid, grown) := Layers(m, env, lo, l, past, hs, cache);
      var ks := Stored(cache, l);
      assert Stored(grown, l) == ks == Keys(m, l, Hidden(m, l, xs[..past]));
      LayerStepExact(m, env, l, past, xs, mid, ks);
      CacheExactExtends(m, grown, lo, l, Appended(m, l, past, mid, ks), xs);
      assert Layers(m, env, lo, hi, past, hs, cache)
        == (LayerStep(m, env, l, past, mid, ks), grown[l := Appended(m, l, past, mid, ks)]);
    }
  }

  // ---- what a node answers ----

  /** The chunk enters the node as the new part of the causal pass, and what came before is cached. */
  ghost predicate Enters<H, K>(
    m: Model<H, K>, env: MaskEnv, s: Shard, past: nat, xs: seq<H>, hs: seq<H>, cache: Cache<K>)
  {
    && past <= |xs| && hs == Hidden(m, s.lo, xs)[past..] && CacheExact(m, cache, s.lo, s.hi, xs[..past])
    && forall l: nat :: s.lo <= l < s.hi ==> MaskGuard(env, m.kind(l), past, |hs|)
  }

  /** The answer of a caching node, position by position: the causal value at its last layer, and after
      a generate pass that value normalised. */
  lemma AnswerExact<H, K>(
    m: Model<H, K>, env: MaskEnv, s: Shard, past: nat, xs: seq<H>, hs: seq<H>, kv: OrderedDict<Cache<K>>, use: Op,
    max: nat, isGenerate: bool, out: seq<H>)
    requires use.Use? && Enters(m, env, s, past, xs, hs, Entered(kv, use.id, use.reset))
    requires var result := ForwardKv(m, env, s, hs, kv, use, max).0;
      && |out| == |result|
      && forall i :: 0 <= i < |out| ==> out[i] == if isGenerate then m.norm(result[i]) else result[i]
    ensures |out| == |hs| == |xs| - past
    ensures forall i :: 0 <= i < |out| ==>
      out[i] == if isGenerate then m.norm(Hidden(m, s.hi, xs)[past + i]) else Hidden(m, s.hi, xs)[past + i]
  {
    NodeExact(m, env, s, past, xs, hs, Entered(kv, use.id, use.reset));
  }

  // ---- a chain of nodes ----

  /** Contiguous ranges from lo to hi, possibly empty ones among them. */
  predicate Tile(shards: seq<Shard>, lo: nat, hi: nat) {
    if shards == [] then lo == hi
    else shards[0].lo == lo && Tile(shards[1..], shards[0].hi, hi)
  }

  lemma {:induction false} TileOrder(shards: seq<Shard>, lo: nat, hi: nat)
    requires Tile(shards, lo, hi)
    ensures lo <= hi
    ensures forall k :: 0 <= k < |shards| ==> lo <= shards[k].lo <= shards[k].hi <= hi
  {
    if shards != [] {
      TileOrder(shards[1..], shards[0].hi, hi);
    }
  }

  /** A chunk goes through every node; each derives the position offset from its own first layer's cache. */
  function Chain<H, K>(
    m: Model<H, K>, env: MaskEnv, shards: seq<Shard>, hs: seq<H>, caches: seq<Cache<K>>)
    : (r: (seq<H>, seq<Cache<K>>))
    requires |shards| == |caches|
    ensures |r.0| == |hs| && |r.1| == |caches|
  {
    if shards == [] then (hs, caches)
    else
      var s := shards[0];
      var (mid, cache) := Layers(m, env, s.lo, s.hi, |Stored(caches[0], s.lo)|, hs, caches[0]);
      var (out, rest) := Chain(m, env, shards[1..], mid, caches[1..]);
      (out, [cache] + rest)
  }

  /** A request's chunks go through the chain one after the other. */
  function Chunks<H, K>(
    m: Model<H, K>, env: MaskEnv, shards: seq<Shard>, chunks: seq<seq<H>>, caches: seq<Cache<K>>)
    : (r: (seq<H>, seq<Cache<K>>))
    requires |shards| == |caches|
    ensures |r.1| == |caches|
  {
    if chunks == [] then ([], caches)
    else
      var before := |chunks| - 1;
      var (out, mid) := Chunks(m, env, shards, chunks[..before], caches);
      var (last, after) := Chain(m, env, shards, chunks[before], mid);
      (out + last, after)
  }

  function Flat<T>(chunks: seq<seq<T>>): seq<T> {
    if chunks == [] then [] else Flat(chunks[..|chunks| - 1]) + chunks[|chunks| - 1]
  }

  ghost predicate CachesExact<H, K>(m: Model<H, K>, shards: seq<Shard>, caches: seq<Cache<K>>, xs: seq<H>)
    requires |shards| == |caches|
  {
    forall k :: 0 <= k < |shards| ==> CacheExact(m, caches[k], shards[k].lo, shards[k].hi, xs)
  }

  lemma {:induction false} ChainExact<H, K>(
    m: Model<H, K>, env: MaskEnv, shards: seq<Shard>, lo: nat, hi: nat, past: nat, xs: seq<H>, hs: seq<H>,
    caches: seq<Cache<K>>)
    requires |shards| == |caches| && Tile(shards, lo, hi) && past <= |xs|
    requires hs == Hidden(m, lo, xs)[past..] && CachesExact(m, shards, caches, xs[..past])
    requires forall l: nat :: lo <= l < hi ==> MaskGuard(env, m.kind(l), past, |hs|)
    ensures Chain(m, env, shards, hs, caches).0 == Hidden(m, hi, xs)[past..]
    ensures CachesExact(m, shards, Chain(m, env, shards, hs, caches).1, xs)
  {
    if shards != [] {
      var s := shards[0];
      TileOrder(shards[1..], s.hi, hi);
      NodeExact(m, env, s, past, xs, hs, caches[0]);
      var (mid, cache) := Layers(m, env, s.lo, s.hi, |Stored(caches[0], s.lo)|, hs, caches[0]);
      ChainExact(m, env, shards[1..], s.hi, hi, past, xs, mid, caches[1..]);
    }
  }

  /** One node of the chain: the offset it derives is the number of positions seen so far,
      or it has no layers and the offset does not matter. */
  lemma NodeExact<H, K>(m: Model<H, K>, env: MaskEnv, s: Shard, past: nat, xs: seq<H>, hs: seq<H>, cache: Cache<K>)
    requires past <= |xs|
    requires hs == Hidden(m, s.lo, xs)[past..] && CacheExact(m, cache, s.lo, s.hi, xs[..past])
    requires forall l: nat :: s.lo <= l < s.hi ==> MaskGuard(env, m.kind(l), past, |hs|)
    ensures s.lo < s.hi ==> |Stored(cache, s.lo)| == past
    ensures var r := Layers(m, env, s.lo, s.hi, |Stored(cache, s.lo)|, hs, cache);
      r.0 == Hidden(m, s.hi, xs)[past..] && CacheExact(m, r.1, s.lo, s.hi, xs)
  {
    if s.lo < s.hi {
      LayersExact(m, env, s.lo, s.hi, past, xs, hs, cache);
    }
  }

  /** Every chunk passes the mask test at every layer. */
  predicate Guarded<H, K>(m: Model<H, K>, env: MaskEnv, layers: nat, chunks: seq<seq<H>>) {
    forall k, l: nat :: 0 <= k < |chunks| && l < layers ==> MaskGuard(env, m.kind(l), |Flat(chunks[..k])|, |chunks[k]|)
  }

  /** A model without sliding windows passes the test whatever the chunks are. */
  lemma FullLayersAreGuarded<H, K>(m: Model<H, K>, env: MaskEnv, layers: nat, chunks: seq<seq<H>>)
    requires forall l: nat :: l < layers ==> m.kind(l).Full?
    ensures Guarded(m, env, layers, chunks)
  {
  }

  function NoCaches<K>(n: nat): seq<Cache<K>> { seq(n, _ => map[]) }

  lemma NextChunkExact<H, K>(
    m: Model<H, K>, env: MaskEnv, shards: seq<Shard>, layers: nat, early: seq<H>, chunk: seq<H>, caches: seq<Cache<K>>)
    requires |shards| == |caches| && Tile(shards, 0, layers) && CachesExact(m, shards, caches, early)
    requires forall l: nat :: l < layers ==> MaskGuard(env, m.kind(l), |early|, |chunk|)
    ensures Hidden(m, layers, early) + Chain(m, env, shards, chunk, caches).0 == Hidden(m, layers, early + chunk)
    ensures CachesExact(m, shards, Chain(m, env, shards, chunk, caches).1, early + chunk)
  {
    var xs, past := early + chunk, |early|;
    assert xs[..past] == early && xs[past..] == chunk;
    ChainExact(m, env, shards, 0, layers, past, xs, chunk, caches);
    HiddenSplits(m, layers, early, chunk);
  }

  lemma HiddenSplits<H, K>(m: Model<H, K>, l: nat, early: seq<H>, chunk: seq<H>)
    ensures Hidden(m, l, early + chunk) == Hidden(m, l, early) + Hidden(m, l, early + chunk)[|early|..]
  {
    HiddenCausal(m, l, early + chunk, |early|);
    assert (early + chunk)[..|early|] == early;
  }

  lemma CacheLengths<H, K>(m: Model<H, K>, shards: seq<Shard>, caches: seq<Cache<K>>, xs: seq<H>)
    requires |shards| == |caches| && CachesExact(m, shards, caches, xs)
    ensures forall k, l: nat :: 0 <= k < |shards| && shards[k].lo <= l < shards[k].hi ==> |Stored(caches[k], l)| == |xs|
  {
  }

  lemma NextStepExact<H, K>(m: Model<H, K>, env: MaskEnv, shards: seq<Shard>, layers: nat, chunks: seq<seq<H>>)
    requires Tile(shards, 0, layers) && Guarded(m, env, layers, chunks) && chunks != []
    requires RunExact(m, env, shards, layers, chunks[..|chunks| - 1])
    ensures RunExact(m, env, shards, layers, chunks)
  {
    var before := |chunks| - 1;
    var (out, mid) := Chunks(m, env, shards, chunks[..before], NoCaches(|shards|));
    NextChunkExact(m, env, shards, layers, Flat(chunks[..before]), chunks[before], mid);
  }

  lemma GuardedPrefix<H, K>(m: Model<H, K>, env: MaskEnv, layers: nat, chunks: seq<seq<H>>, n: nat)
    requires n <= |chunks| && Guarded(m, env, layers, chunks)
    ensures Guarded(m, env, layers, chunks[..n])
  {
    assert forall k :: 0 <= k < n ==> chunks[..n][..k] == chunks[..k] && chunks[..n][k] == chunks[k];
  }

  /** The run returned the values of one causal pass and left exactly its keys in the caches. */
  ghost predicate RunExact<H, K>(m: Model<H, K>, env: MaskEnv, shards: seq<Shard>, layers: nat, chunks: seq<seq<H>>) {
    var (out, caches) := Chunks(m, env, shards, chunks, NoCaches(|shards|));
    out == Hidden(m, layers, Flat(chunks)) && CachesExact(m, shards, caches, Flat(chunks))
  }

  /** Prefill and later steps in any chunks, over any contiguous split of the layers, give at every
      position the value of one causal pass, and every layer of every node has cached every position. */
  lemma {:induction false} ShardedRunIsOnePass<H, K>(
    m: Model<H, K>, env: MaskEnv, shards: seq<Shard>, layers: nat, chunks: seq<seq<H>>)
    requires Tile(shards, 0, layers) && Guarded(m, env, layers, chunks)
    ensures RunExact(m, env, shards, layers, chunks)
    ensures var caches := Chunks(m, env, shards, chunks, NoCaches(|shards|)).1;
      forall k, l: nat :: 0 <= k < |shards| && shards[k].lo <= l < shards[k].hi ==>
        |Stored(caches[k], l)| == |Flat(chunks)|
    decreases |chunks|
  {
    if chunks == [] {
      NoPositions(m, shards, layers);
    } else {
      GuardedPrefix(m, env, layers, chunks, |chunks| - 1);
      ShardedRunIsOnePass(m, env, shards, layers, chunks[..|chunks| - 1]);
      NextStepExact(m, env, shards, layers, chunks);
    }
    CacheLengths(m, shards, Chunks(m, env, shards, chunks, NoCaches(|shards|)).1, Flat(chunks));
  }

  lemma NoPositions<H, K>(m: Model<H, K>, shards: seq<Shard>, layers: nat)
    ensures Hidden(m, layers, []) == []
    ensures CachesExact(m, shards, NoCaches(|shards|), [])
  {
    assert forall l: nat :: Keys(m, l, Hidden(m, l, [])) == [];
  }
}
