/** The mask test of NodeForward is not only sufficient: a model whose layers add the number of
    entries they can see tells the cached run and the causal pass apart whenever the test fails. */
module MaskNecessity {
  import opened CausalModel
  import opened NodeForward

  /** Measured by val, every layer adds the number of entries that a position sees. */
  ghost predicate Counting<H(!new), K(!new)>(m: Model<H, K>, val: H -> int) {
    forall l: nat, p: nat, h: H, seen: seq<K> :: Attended(m, val, l, p, h, seen) == val(h) + |seen|
  }

  function Attended<H, K>(m: Model<H, K>, val: H -> int, l: nat, p: nat, h: H, seen: seq<K>): int {
    val(m.attend(l, p, h, seen))
  }

  function CountModel(kind: nat -> LayerKind): Model<int, int> {
    Model(kind, (l, p, h) => 0, (l, p, h, seen) => h + |seen|, h => h)
  }

  /** There are such models, with any kinds of layers. */
  lemma CountModelCounts(kind: nat -> LayerKind)
    ensures Counting(CountModel(kind), COUNT_VALUE)
  {
  }

  const COUNT_VALUE: int -> int := h => h

  function Count(n: nat, row: nat -> bool): nat {
    if n == 0 then 0 else Count(n - 1, row) + if row(n - 1) then 1 else 0
  }

  lemma {:induction false} VisibleCount<K>(ks: seq<K>, row: nat -> bool)
    ensures |Visible(ks, row)| == Count(|ks|, row)
  {
    if |ks| > 0 {
      VisibleCount(ks[..|ks| - 1], row);
    }
  }

  /** A row that shows more columns counts more, strictly so from the first extra column on. */
  lemma {:induction false} CountMonotone(n: nat, few: nat -> bool, many: nat -> bool, extra: nat)
    requires forall j: nat :: j < n && few(j) ==> many(j)
    ensures Count(n, few) <= Count(n, many)
    ensures extra < n && many(extra) && !few(extra) ==> Count(n, few) < Count(n, many)
  {
    if n > 0 {
      CountMonotone(n - 1, few, many, extra);
    }
  }

  lemma {:induction false} CountCut(n: nat, k: nat, row: nat -> bool)
    requires k <= n && forall j: nat :: k <= j < n ==> !row(j)
    ensures Count(n, row) == Count(k, row)
  {
    if k < n {
      CountCut(n - 1, k, row);
    }
  }

  /** How many entries layers lo..hi show to position p under causality. */
  function Seen<H, K>(m: Model<H, K>, lo: nat, hi: nat, p: nat): nat
    requires lo <= hi
    decreases hi - lo
  {
    if lo == hi then 0 else Seen(m, lo, hi - 1, p) + Count(p + 1, CausalRow(m.kind(hi - 1), p))
  }

  lemma {:induction false} SeenSplit<H, K>(m: Model<H, K>, lo: nat, mid: nat, hi: nat, p: nat)
    requires lo <= mid <= hi
    ensures Seen(m, lo, hi, p) == Seen(m, lo, mid, p) + Seen(m, mid, hi, p)
    decreases hi
  {
    if mid < hi {
      SeenSplit(m, lo, mid, hi - 1, p);
    }
  }

  lemma {:induction false} HiddenCounts<H(!new), K(!new)>(m: Model<H, K>, val: H -> int, l: nat, xs: seq<H>, p: nat)
    requires Counting(m, val)
    requires p < |xs|
    ensures val(Hidden(m, l, xs)[p]) == val(xs[p]) + Seen(m, 0, l, p)
  {
    if l > 0 {
      HiddenCounts(m, val, l - 1, xs, p);
      var ys := Hidden(m, l - 1, xs);
      var ks := Keys(m, l - 1, ys);
      AttendCounts(m, val, l - 1, p, ys[p], Visible(ks, CausalRow(m.kind(l - 1), p)));
      VisibleCount(ks, CausalRow(m.kind(l - 1), p));
      CountCut(|xs|, p + 1, CausalRow(m.kind(l - 1), p));
    }
  }

  /** Layer kind shows row i of the chunk a column that causality hides. */
  ghost predicate LayerLeaks(env: MaskEnv, kind: LayerKind, past: nat, n: nat, i: nat) {
    exists j: nat :: j < past + n && MaskRow(env, kind, past, n, i)(j) && !CausalRow(kind, past + i)(j)
  }

  ghost predicate Leaks<H, K>(env: MaskEnv, m: Model<H, K>, lo: nat, hi: nat, past: nat, n: nat, i: nat) {
    exists l: nat :: lo <= l < hi && LayerLeaks(env, m.kind(l), past, n, i)
  }

  lemma LeaksSplit<H, K>(env: MaskEnv, m: Model<H, K>, lo: nat, mid: nat, hi: nat, past: nat, n: nat, i: nat)
    requires lo <= mid <= hi && Leaks(env, m, lo, hi, past, n, i)
    ensures Leaks(env, m, lo, mid, past, n, i) || Leaks(env, m, mid, hi, past, n, i)
  {
  }

  lemma RowCounts(env: MaskEnv, kind: LayerKind, past: nat, n: nat, i: nat)
    requires i < n
    ensures Count(past + n, MaskRow(env, kind, past, n, i)) >= Count(past + i + 1, CausalRow(kind, past + i))
    ensures LayerLeaks(env, kind, past, n, i) ==>
      Count(past + n, MaskRow(env, kind, past, n, i)) > Count(past + i + 1, CausalRow(kind, past + i))
  {
    var few, many := CausalRow(kind, past + i), MaskRow(env, kind, past, n, i);
    CountCut(past + n, past + i + 1, few);
    var extra: nat := 0;
    if LayerLeaks(env, kind, past, n, i) {
      extra :| extra < past + n && many(extra) && !few(extra);
    }
    CountMonotone(past + n, few, many, extra);
  }

  lemma StepCounts<H(!new), K(!new)>(
    env: MaskEnv, m: Model<H, K>, val: H -> int, l: nat, past: nat, hs: seq<H>, ks: seq<K>, i: nat)
    requires Counting(m, val)
    requires i < |hs| && |ks| == past
    ensures val(LayerStep(m, env, l, past, hs, ks)[i])
         == val(hs[i]) + Count(past + |hs|, MaskRow(env, m.kind(l), past, |hs|, i))
  {
    var all, row := Appended(m, l, past, hs, ks), MaskRow(env, m.kind(l), past, |hs|, i);
    VisibleCount(all, row);
    AttendCounts(m, val, l, past + i, hs[i], Visible(all, row));
  }

  lemma AttendCounts<H(!new), K(!new)>(m: Model<H, K>, val: H -> int, l: nat, p: nat, h: H, seen: seq<K>)
    requires Counting(m, val)
    ensures val(m.attend(l, p, h, seen)) == val(h) + |seen|
  {
    assert Attended(m, val, l, p, h, seen) == val(h) + |seen|;
  }

  ghost predicate Lengths<K>(cache: Cache<K>, lo: nat, hi: nat, n: nat) {
    forall l: nat :: lo <= l < hi ==> |Stored(cache, l)| == n
  }

  lemma {:induction false} LayersLengths<H, K>(
    env: MaskEnv, m: Model<H, K>, lo: nat, hi: nat, past: nat, hs: seq<H>, cache: Cache<K>, n: nat)
    requires lo <= hi && Lengths(cache, lo, hi, n)
    ensures Lengths(Layers(m, env, lo, hi, past, hs, cache).1, lo, hi, n + |hs|)
    decreases hi - lo
  {
    if lo < hi {
      LayersLengths(env, m, lo, hi - 1, past, hs, cache, n);
      var (mid, grown) := Layers(m, env, lo, hi - 1, past, hs, cache);
      assert |Stored(grown, hi - 1)| == |Stored(cache, hi - 1)| == n;
      var ks := Appended(m, hi - 1, past, mid, Stored(grown, hi - 1));
      LengthsExtend(grown, lo, hi - 1, ks, n + |hs|);
      assert Layers(m, env, lo, hi, past, hs, cache).1 == grown[hi - 1 := ks];
    }
  }

  lemma LengthsExtend<K>(cache: Cache<K>, lo: nat, l: nat, ks: seq<K>, n: nat)
    requires Lengths(cache, lo, l, n) && |ks| == n
    ensures Lengths(cache[l := ks], lo, l + 1, n)
  {
    var grown := cache[l := ks];
    forall l': nat | lo <= l' < l + 1
      ensures |Stored(grown, l')| == n
    {
      assert l' != l ==> Stored(grown, l') == Stored(cache, l');
    }
  }

  ghost predicate ChainLengths<K>(shards: seq<Shard>, caches: seq<Cache<K>>, n: nat)
    requires |shards| == |caches|
  {
    forall k :: 0 <= k < |shards| ==> Lengths(caches[k], shards[k].lo, shards[k].hi, n)
  }

  lemma {:induction false} ChainGrows<H, K>(
    env: MaskEnv, m: Model<H, K>, shards: seq<Shard>, hs: seq<H>, caches: seq<Cache<K>>, n: nat)
    requires |shards| == |caches| && ChainLengths(shards, caches, n)
    ensures ChainLengths(shards, Chain(m, env, shards, hs, caches).1, n + |hs|)
  {
    if shards != [] {
      var s := shards[0];
      assert Lengths(caches[0], s.lo, s.hi, n);
      LayersLengths(env, m, s.lo, s.hi, |Stored(caches[0], s.lo)|, hs, caches[0], n);
      assert ChainLengths(shards[1..], caches[1..], n);
      var (mid, cache) := Layers(m, env, s.lo, s.hi, |Stored(caches[0], s.lo)|, hs, caches[0]);
      ChainGrows(env, m, shards[1..], mid, caches[1..], n);
    }
  }

  lemma {:induction false} RunGrows<H, K>(env: MaskEnv, m: Model<H, K>, shards: seq<Shard>, chunks: seq<seq<H>>)
    ensures var (out, caches) := Chunks(m, env, shards, chunks, NoCaches(|shards|));
      |out| == |Flat(chunks)| && ChainLengths(shards, caches, |out|)
  {
    if chunks != [] {
      var before := |chunks| - 1;
      RunGrows(env, m, shards, chunks[..before]);
      var (out, mid) := Chunks(m, env, shards, chunks[..before], NoCaches(|shards|));
      ChainGrows(env, m, shards, chunks[before], mid, |out|);
    }
  }

  /** A value that gained at least what causality shows, and more if some layer leaked. */
  predicate Gained(before: int, after: int, causal: nat, leaked: bool) {
    after - before >= causal && (leaked ==> after - before > causal)
  }

  lemma StepGains<H(!new), K(!new)>(
    env: MaskEnv, m: Model<H, K>, val: H -> int, l: nat, past: nat, hs: seq<H>, ks: seq<K>, i: nat)
    requires Counting(m, val)
    requires i < |hs| && |ks| == past
    ensures Gained(val(hs[i]), val(LayerStep(m, env, l, past, hs, ks)[i]),
                   Count(past + i + 1, CausalRow(m.kind(l), past + i)), LayerLeaks(env, m.kind(l), past, |hs|, i))
  {
    StepCounts(env, m, val, l, past, hs, ks, i);
    RowCounts(env, m.kind(l), past, |hs|, i);
  }

  lemma {:induction false} LayersGain<H(!new), K(!new)>(
    env: MaskEnv, m: Model<H, K>, val: H -> int, lo: nat, hi: nat, past: nat, hs: seq<H>, cache: Cache<K>, i: nat)
    requires Counting(m, val)
    requires lo <= hi && i < |hs| && Lengths(cache, lo, hi, past)
    ensures Gained(val(hs[i]), val(Layers(m, env, lo, hi, past, hs, cache).0[i]),
                   Seen(m, lo, hi, past + i), Leaks(env, m, lo, hi, past, |hs|, i))
    decreases hi - lo
  {
    if lo < hi {
      LayersGain(env, m, val, lo, hi - 1, past, hs, cache, i);
      LastLayerGains(env, m, val, lo, hi - 1, past, hs, cache, i);
    } else {
      NoLayerGains(env, m, lo, past, |hs|, i, val(hs[i]));
    }
  }

  lemma NoLayerGains<H, K>(env: MaskEnv, m: Model<H, K>, lo: nat, past: nat, n: nat, i: nat, a: int)
    ensures Gained(a, a, Seen(m, lo, lo, past + i), Leaks(env, m, lo, lo, past, n, i))
  {
  }

  lemma LastLayerGains<H(!new), K(!new)>(
    env: MaskEnv, m: Model<H, K>, val: H -> int, lo: nat, l: nat, past: nat, hs: seq<H>, cache: Cache<K>, i: nat)
    requires Counting(m, val) && lo <= l && i < |hs| && |Stored(cache, l)| == past
    requires Gained(val(hs[i]), val(Layers(m, env, lo, l, past, hs, cache).0[i]),
                    Seen(m, lo, l, past + i), Leaks(env, m, lo, l, past, |hs|, i))
    ensures Gained(val(hs[i]), val(Layers(m, env, lo, l + 1, past, hs, cache).0[i]),
                   Seen(m, lo, l + 1, past + i), Leaks(env, m, lo, l + 1, past, |hs|, i))
  {
    NextLayerGains(env, m, val, lo, l, past, val(hs[i]), Layers(m, env, lo, l, past, hs, cache).0, Stored(cache, l), i);
    LayersLast(env, m, lo, l, past, hs, cache);
  }

  lemma NextLayerGains<H(!new), K(!new)>(
    env: MaskEnv, m: Model<H, K>, val: H -> int, lo: nat, l: nat, past: nat, start: int, mid: seq<H>, ks: seq<K>,
    i: nat)
    requires Counting(m, val) && lo <= l && i < |mid| && |ks| == past
    requires Gained(start, val(mid[i]), Seen(m, lo, l, past + i), Leaks(env, m, lo, l, past, |mid|, i))
    ensures Gained(start, val(LayerStep(m, env, l, past, mid, ks)[i]), Seen(m, lo, l + 1, past + i),
      Leaks(env, m, lo, l + 1, past, |mid|, i))
  {
    StepGains(env, m, val, l, past, mid, ks, i);
    OneMoreLayer(env, m, lo, l, past, |mid|, i, start, val(mid[i]), val(LayerStep(m, env, l, past, mid, ks)[i]));
  }

  lemma LayersLast<H, K>(env: MaskEnv, m: Model<H, K>, lo: nat, l: nat, past: nat, hs: seq<H>, cache: Cache<K>)
    requires lo <= l
    ensures Layers(m, env, lo, l + 1, past, hs, cache).0
      == LayerStep(m, env, l, past, Layers(m, env, lo, l, past, hs, cache).0, Stored(cache, l))
  {
    assert Stored(Layers(m, env, lo, l, past, hs, cache).1, l) == Stored(cache, l);
  }

  lemma OneMoreLayer<H, K>(
    env: MaskEnv, m: Model<H, K>, lo: nat, l: nat, past: nat, n: nat, i: nat, a: int, b: int, c: int)
    requires lo <= l && Gained(a, b, Seen(m, lo, l, past + i), Leaks(env, m, lo, l, past, n, i))
    requires Gained(b, c, Count(past + i + 1, CausalRow(m.kind(l), past + i)), LayerLeaks(env, m.kind(l), past, n, i))
    ensures Gained(a, c, Seen(m, lo, l + 1, past + i), Leaks(env, m, lo, l + 1, past, n, i))
  {
    LastLayerLeaks(env, m, lo, l, past, n, i);
  }

  lemma LastLayerLeaks<H, K>(env: MaskEnv, m: Model<H, K>, lo: nat, l: nat, past: nat, n: nat, i: nat)
    requires lo <= l
    ensures Leaks(env, m, lo, l + 1, past, n, i) ==>
      Leaks(env, m, lo, l, past, n, i) || LayerLeaks(env, m.kind(l), past, n, i)
  {
  }

  lemma {:induction false} ChainGains<H(!new), K(!new)>(
    env: MaskEnv, m: Model<H, K>, val: H -> int, shards: seq<Shard>, lo: nat, hi: nat, past: nat, hs: seq<H>,
    caches: seq<Cache<K>>, i: nat)
    requires Counting(m, val)
    requires |shards| == |caches| && Tile(shards, lo, hi) && lo <= hi && i < |hs| && ChainLengths(shards, caches, past)
    ensures Gained(val(hs[i]), val(Chain(m, env, shards, hs, caches).0[i]),
                   Seen(m, lo, hi, past + i), Leaks(env, m, lo, hi, past, |hs|, i))
  {
    if shards != [] {
      var s := shards[0];
      TileOrder(shards[1..], s.hi, hi);
      assert Lengths(caches[0], s.lo, s.hi, past);
      NodeGains(env, m, val, s, past, hs, caches[0], i);
      var (mid, cache) := Layers(m, env, s.lo, s.hi, |Stored(caches[0], s.lo)|, hs, caches[0]);
      assert ChainLengths(shards[1..], caches[1..], past);
      ChainGains(env, m, val, shards[1..], s.hi, hi, past, mid, caches[1..], i);
      GainsAdd(env, m, lo, s.hi, hi, past, |hs|, i, val(hs[i]), val(mid[i]),
        val(Chain(m, env, shards, hs, caches).0[i]));
    }
  }

  lemma NodeGains<H(!new), K(!new)>(
    env: MaskEnv, m: Model<H, K>, val: H -> int, s: Shard, past: nat, hs: seq<H>, cache: Cache<K>, i: nat)
    requires Counting(m, val)
    requires i < |hs| && Lengths(cache, s.lo, s.hi, past)
    ensures Gained(val(hs[i]), val(Layers(m, env, s.lo, s.hi, |Stored(cache, s.lo)|, hs, cache).0[i]),
                   Seen(m, s.lo, s.hi, past + i), Leaks(env, m, s.lo, s.hi, past, |hs|, i))
  {
    if s.lo < s.hi {
      LayersGain(env, m, val, s.lo, s.hi, past, hs, cache, i);
    }
  }

  lemma GainsAdd<H, K>(
    env: MaskEnv, m: Model<H, K>, lo: nat, mid: nat, hi: nat, past: nat, n: nat, i: nat, a: int, b: int, c: int)
    requires lo <= mid <= hi
    requires Gained(a, b, Seen(m, lo, mid, past + i), Leaks(env, m, lo, mid, past, n, i))
    requires Gained(b, c, Seen(m, mid, hi, past + i), Leaks(env, m, mid, hi, past, n, i))
    ensures Gained(a, c, Seen(m, lo, hi, past + i), Leaks(env, m, lo, hi, past, n, i))
  {
    SeenSplit(m, lo, mid, hi, past + i);
    if Leaks(env, m, lo, hi, past, n, i) {
      LeaksSplit(env, m, lo, mid, hi, past, n, i);
    }
  }

  /** Row i of a chunk of n positions after `past` ones, in the outputs of a whole run on xs. */
  ghost predicate RowGains<H(!new), K(!new)>(
    env: MaskEnv, m: Model<H, K>, val: H -> int, layers: nat, xs: seq<H>, out: seq<H>, past: nat, n: nat, i: nat)
  {
    && |out| == |xs| && past + i < |xs|
    && Gained(val(xs[past + i]), val(out[past + i]), Seen(m, 0, layers, past + i), Leaks(env, m, 0, layers, past, n, i))
  }

  /** More chunks do not change what the earlier ones gave. */
  lemma RowStays<H(!new), K(!new)>(
    env: MaskEnv, m: Model<H, K>, val: H -> int, layers: nat, xs: seq<H>, out: seq<H>, past: nat, n: nat, i: nat,
    more: seq<H>, last: seq<H>)
    requires RowGains(env, m, val, layers, xs, out, past, n, i) && |more| == |last|
    ensures RowGains(env, m, val, layers, xs + more, out + last, past, n, i)
  {
    assert (xs + more)[past + i] == xs[past + i] && (out + last)[past + i] == out[past + i];
  }

  lemma RowEnds<H(!new), K(!new)>(
    env: MaskEnv, m: Model<H, K>, val: H -> int, layers: nat, xs: seq<H>, out: seq<H>, i: nat, chunk: seq<H>,
      last: seq<H>)
    requires |out| == |xs| && i < |chunk| == |last|
    requires Gained(val(chunk[i]), val(last[i]), Seen(m, 0, layers, |xs| + i),
      Leaks(env, m, 0, layers, |xs|, |chunk|, i))
    ensures RowGains(env, m, val, layers, xs + chunk, out + last, |xs|, |chunk|, i)
  {
    assert (xs + chunk)[|xs| + i] == chunk[i] && (out + last)[|xs| + i] == last[i];
  }

  /** The run on all chunks, from the run on all but the last. */
  lemma RunSplits<H, K>(env: MaskEnv, m: Model<H, K>, shards: seq<Shard>, chunks: seq<seq<H>>)
    requires chunks != []
    ensures var early := chunks[..|chunks| - 1];
      && Flat(chunks) == Flat(early) + chunks[|chunks| - 1]
      && RunOut(env, m, shards, chunks) == RunOut(env, m, shards, early) + LastOut(env, m, shards, chunks)
  {
  }

  function RunOut<H, K>(env: MaskEnv, m: Model<H, K>, shards: seq<Shard>, chunks: seq<seq<H>>): seq<H> {
    Chunks(m, env, shards, chunks, NoCaches(|shards|)).0
  }

  lemma PrefixOfEarly<T>(chunks: seq<T>, k: nat)
    requires k < |chunks|
    ensures k < |chunks| - 1 ==> chunks[..|chunks| - 1][..k] == chunks[..k]
    ensures k < |chunks| - 1 ==> chunks[..|chunks| - 1][k] == chunks[k]
  {
  }

  lemma {:induction false} ChunksGain<H(!new), K(!new)>(
    env: MaskEnv, m: Model<H, K>, val: H -> int, shards: seq<Shard>, layers: nat, chunks: seq<seq<H>>, k: nat, i: nat)
    requires Counting(m, val)
    requires Tile(shards, 0, layers) && k < |chunks| && i < |chunks[k]|
    ensures RowGains(env, m, val, layers, Flat(chunks), RunOut(env, m, shards, chunks), |Flat(chunks[..k])|,
      |chunks[k]|, i)
    decreases |chunks|
  {
    var early, chunk := chunks[..|chunks| - 1], chunks[|chunks| - 1];
    RunSplits(env, m, shards, chunks);
    RunGrows(env, m, shards, early);
    if k < |chunks| - 1 {
      PrefixOfEarly(chunks, k);
      ChunksGain(env, m, val, shards, layers, early, k, i);
      RowStays(env, m, val, layers, Flat(early), RunOut(env, m, shards, early), |Flat(chunks[..k])|, |chunks[k]|, i,
               chunk, LastOut(env, m, shards, chunks));
    } else {
      var (out, mid) := Chunks(m, env, shards, early, NoCaches(|shards|));
      LastRowGains(env, m, val, shards, layers, Flat(early), out, mid, chunk, i);
    }
  }

  /** What the last chunk of a run returns. */
  function LastOut<H, K>(env: MaskEnv, m: Model<H, K>, shards: seq<Shard>, chunks: seq<seq<H>>): (out: seq<H>)
    requires chunks != []
    ensures |out| == |chunks[|chunks| - 1]|
  {
    var mid := Chunks(m, env, shards, chunks[..|chunks| - 1], NoCaches(|shards|)).1;
    Chain(m, env, shards, chunks[|chunks| - 1], mid).0
  }

  lemma LastRowGains<H(!new), K(!new)>(
    env: MaskEnv, m: Model<H, K>, val: H -> int, shards: seq<Shard>, layers: nat, xs: seq<H>, out: seq<H>,
    mid: seq<Cache<K>>, chunk: seq<H>, i: nat)
    requires Counting(m, val) && Tile(shards, 0, layers) && i < |chunk|
    requires |mid| == |shards| && |out| == |xs| && ChainLengths(shards, mid, |xs|)
    ensures RowGains(env, m, val, layers, xs + chunk, out + Chain(m, env, shards, chunk, mid).0, |xs|, |chunk|, i)
  {
    ChainGains(env, m, val, shards, 0, layers, |xs|, chunk, mid, i);
    RowEnds(env, m, val, layers, xs, out, i, chunk, Chain(m, env, shards, chunk, mid).0);
  }

  /** Some row of an unguarded chunk shows a position that causality hides. */
  lemma LeakyRow(env: MaskEnv, kind: LayerKind, past: nat, n: nat) returns (i: nat)
    requires !MaskGuard(env, kind, past, n)
    ensures i < n && LayerLeaks(env, kind, past, n, i)
  {
    MaskGuardIsExact(env, kind, past, n);
    var j: nat;
    i, j :| i < n && j < past + n && MaskRow(env, kind, past, n, i)(j) != CausalRow(kind, past + i)(j);
  }

  lemma UnguardedChunkLeaks<H, K>(env: MaskEnv, m: Model<H, K>, layers: nat, past: nat, n: nat, l: nat) returns (i: nat)
    requires l < layers && !MaskGuard(env, m.kind(l), past, n)
    ensures i < n && Leaks(env, m, 0, layers, past, n, i)
  {
    i := LeakyRow(env, m.kind(l), past, n);
  }

  /** For a counting model the run returns the values of the one causal pass if and only if every
      chunk passes the mask test at every layer. */
  lemma CountingRunIsOnePassIffGuarded<H(!new), K(!new)>(
    env: MaskEnv, m: Model<H, K>, val: H -> int, shards: seq<Shard>, layers: nat, chunks: seq<seq<H>>)
    requires Counting(m, val) && Tile(shards, 0, layers)
    ensures Chunks(m, env, shards, chunks, NoCaches(|shards|)).0 == Hidden(m, layers, Flat(chunks))
      <==> Guarded(m, env, layers, chunks)
  {
    if Guarded(m, env, layers, chunks) {
      ShardedRunIsOnePass(m, env, shards, layers, chunks);
    } else {
      var k, l: nat :| 0 <= k < |chunks| && l < layers && !MaskGuard(env, m.kind(l), |Flat(chunks[..k])|, |chunks[k]|);
      UnguardedRunDiffers(env, m, val, shards, layers, chunks, k, l);
    }
  }

  lemma UnguardedRunDiffers<H(!new), K(!new)>(
    env: MaskEnv, m: Model<H, K>, val: H -> int, shards: seq<Shard>, layers: nat, chunks: seq<seq<H>>, k: nat, l: nat)
    requires Counting(m, val) && Tile(shards, 0, layers)
    requires k < |chunks| && l < layers && !MaskGuard(env, m.kind(l), |Flat(chunks[..k])|, |chunks[k]|)
    ensures Chunks(m, env, shards, chunks, NoCaches(|shards|)).0 != Hidden(m, layers, Flat(chunks))
  {
    var past := |Flat(chunks[..k])|;
    var i := UnguardedChunkLeaks(env, m, layers, past, |chunks[k]|, l);
    ChunksGain(env, m, val, shards, layers, chunks, k, i);
    LeakShows(env, m, val, layers, Flat(chunks), RunOut(env, m, shards, chunks), past, |chunks[k]|, i);
  }

  lemma LeakShows<H(!new), K(!new)>(
    env: MaskEnv, m: Model<H, K>, val: H -> int, layers: nat, xs: seq<H>, out: seq<H>, past: nat, n: nat, i: nat)
    requires Counting(m, val) && RowGains(env, m, val, layers, xs, out, past, n, i)
    requires Leaks(env, m, 0, layers, past, n, i)
    ensures out != Hidden(m, layers, xs)
  {
    HiddenCounts(m, val, layers, xs, past + i);
  }

  /** Such models exist for any kinds of layers, so no weaker test would do. */
  lemma CountModelRunIffGuarded(
    env: MaskEnv, kind: nat -> LayerKind, shards: seq<Shard>, layers: nat, chunks: seq<seq<int>>)
    requires Tile(shards, 0, layers)
    ensures var m := CountModel(kind);
      && (Guarded(m, env, layers, chunks) <==>
          Chunks(m, env, shards, chunks, NoCaches(|shards|)).0 == Hidden(m, layers, Flat(chunks)))
  {
    CountModelCounts(kind);
    CountingRunIsOnePassIffGuarded(env, CountModel(kind), COUNT_VALUE, shards, layers, chunks);
  }
}
