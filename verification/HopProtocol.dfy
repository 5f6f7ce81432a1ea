/** One request driven hop by hop through a chain of caching nodes and looped once per token, against
    decoding on one machine. Coordinator steps are those of ws_handler.rs (module Coordinator), node
    steps those of node_forward.py (module NodeForward). */
module HopProtocol {
  import opened Wrappers
  import opened CausalModel
  import opened Coordinator
  import ServingClusters
  import N = NodeForward

  type Cache<K> = N.Cache<K>

  /** The model, the node software, tokenization's outcome, and how tokens are drawn: `pick` gets the
      number of the draw, so sampling at random is a `pick` like any other. */
  datatype Setup<!H, !K> = Setup(
    m: Model<H, K>,
    env: N.MaskEnv,
    embed: Token -> H,
    pick: (nat, H) -> Token,
    isEos: Token -> bool,
    prompt: seq<Token>,
    maxTokens: nat)

  const LAYERS := ServingClusters.TOTAL_LAYERS

  function Embedded<H, K>(su: Setup<H, K>, tokens: seq<Token>): (hs: seq<H>)
    ensures |hs| == |tokens|
  {
    seq(|tokens|, i requires 0 <= i < |tokens| => su.embed(tokens[i]))
  }

  // ---- decoding on one machine ----

  function NextToken<H, K>(su: Setup<H, K>, generated: seq<Token>): Token
    requires su.prompt != []
  {
    var hs := Hidden(su.m, LAYERS, Embedded(su, su.prompt + generated));
    su.pick(|generated|, su.m.norm(hs[|su.prompt| + |generated| - 1]))
  }

  /** The first n tokens, each drawn after a full causal pass over everything before it. */
  function Decode<H, K>(su: Setup<H, K>, n: nat): (tokens: seq<Token>)
    requires su.prompt != []
    ensures |tokens| == n
  {
    if n == 0 then [] else Decode(su, n - 1) + [NextToken(su, Decode(su, n - 1))]
  }

  function Limit<H, K>(su: Setup<H, K>): nat { if su.maxTokens < 1 then 1 else su.maxTokens }

  /** What must be delivered: the decoded tokens up to the first end-of-sequence token or the limit. */
  ghost predicate IsResult<H, K>(su: Setup<H, K>, tokens: seq<Token>)
    requires su.prompt != []
  {
    && 1 <= |tokens| <= Limit(su)
    && tokens == Decode(su, |tokens|)
    && (forall i :: 0 <= i < |tokens| - 1 ==> !su.isEos(tokens[i]))
    && (su.isEos(tokens[|tokens| - 1]) || |tokens| == Limit(su))
  }

  // ---- the protocol ----

  datatype Work<H> = Prefill(tokens: seq<Token>) | Continue(token: Token) | Activations(hs: seq<H>)

  datatype Wire<H> = ToNode(k: nat, work: Work<H>) | FromNode(hs: seq<H>) | Drawn(token: Token) | Quiet

  /** The stored request, the request's cache on every node of its chain, and the one message under way. */
  datatype State<H, K> = State(
    pending: Option<Pending>,
    caches: seq<Cache<K>>,
    wire: Wire<H>,
    delivered: Option<seq<Token>>)

  function Initial<H, K>(su: Setup<H, K>, chain: seq<ChainStep>): State<H, K>
    requires chain != []
  {
    State(Some(Forward(chain, 0, [], su.maxTokens, 0)), N.NoCaches(|chain|), ToNode(0, Prefill(su.prompt)), None)
  }

  /** A node's layers on a chunk, from the cache it has. */
  function Node<H, K>(su: Setup<H, K>, hop: ChainStep, hs: seq<H>, cache: Cache<K>): (seq<H>, Cache<K>) {
    if hop.layerStart <= hop.layerEnd then N.Pass(su.m, su.env, N.Shard(hop.layerStart, hop.layerEnd), hs, cache)
    else (hs, cache)
  }

  /** What enters a node's layers: embedded tokens, or the activations it was sent. */
  function Feed<H, K>(su: Setup<H, K>, work: Work<H>): seq<H> {
    match work
    case Prefill(tokens) => Embedded(su, tokens)
    case Continue(token) => Embedded(su, [token])
    case Activations(hs) => hs
  }

  /** Prefill resets the request's cache. */
  function Start<H, K>(work: Work<H>, cache: Cache<K>): Cache<K> {
    if work.Prefill? then map[] else cache
  }

  /** The token that the last node draws from its answer. */
  function Draw<H, K>(su: Setup<H, K>, draw: nat, hs: seq<H>): Token
    requires hs != []
  {
    su.pick(draw, su.m.norm(hs[|hs| - 1]))
  }

  /** A node works: embedding requests are answered with hidden values, activations are turned into a
      token by the node that holds the last layer. */
  function NodeWorks<H, K>(
    su: Setup<H, K>, hop: ChainStep, work: Work<H>, cache: Cache<K>, draw: nat)
    : (Wire<H>, Cache<K>)
  {
    var (out, grown) := Node(su, hop, Feed(su, work), Start(work, cache));
    (if work.Activations? && hop.layerEnd >= LAYERS && out != [] then Drawn(Draw(su, draw, out))
      else FromNode(out), grown)
  }

  /** The next step of a request that nothing interferes with. */
  function Next<H, K>(su: Setup<H, K>, s: State<H, K>): State<H, K> {
    if s.pending.None? then s
    else
      var p := s.pending.value;
      match s.wire
      case Quiet => s
      case ToNode(k, work) =>
        if k < |p.chain| && k < |s.caches| then
          var (reply, cache) := NodeWorks(su, p.chain[k], work, s.caches[k], |p.generated|);
          s.(wire := reply, caches := s.caches[k := cache])
        else s
      case FromNode(hs) =>
        var q := Advance(p);
        s.(pending := Some(q), wire := if Target(q).Some? then ToNode(q.currentStep, Activations(hs)) else Quiet)
      case Drawn(token) =>
        var q := Push(p, token);
        if Complete(q, su.isEos(token)) then s.(pending := None, wire := Quiet, delivered := Some(q.generated))
        else s.(pending := Some(Restart(q)), wire := ToNode(0, Continue(token)))
  }

  /** The request is dropped: a send failed, a node disconnected, or the two minutes are over. */
  function Lost<H, K>(s: State<H, K>): State<H, K> { s.(pending := None, wire := Quiet) }

  // ---- the invariant ----

  /** Hops over all the layers, contiguous and none without layers. */
  ghost predicate Covers(chain: seq<ChainStep>) {
    && chain != []
    && chain[0].layerStart == 0
    && chain[|chain| - 1].layerEnd == LAYERS
    && (forall k :: 0 <= k < |chain| ==> chain[k].layerStart < chain[k].layerEnd <= LAYERS)
    && (forall k :: 0 <= k < |chain| - 1 ==> chain[k].layerEnd == chain[k + 1].layerStart)
  }

  ghost predicate Proper(chain: seq<ChainStep>) { Covers(chain) && |chain| >= 2 }

  /** Tokens of a request that goes on: decoded on one machine, none of them the last. */
  ghost predicate SoFar<H, K>(su: Setup<H, K>, generated: seq<Token>)
    requires su.prompt != []
  {
    && |generated| < Limit(su)
    && generated == Decode(su, |generated|)
    && forall i :: 0 <= i < |generated| ==> !su.isEos(generated[i])
  }

  /** Every pass that the request makes shows exactly the causal rows at every layer. */
  ghost predicate MasksExact<H, K>(su: Setup<H, K>)
    requires su.prompt != []
  {
    forall l: nat, n: nat :: l < LAYERS && SoFar(su, Decode(su, n)) ==>
      N.MaskGuard(su.env, su.m.kind(l), PastOf(su, n), |su.prompt| + n - PastOf(su, n))
  }

  /** Positions that every cache holds before the pass that draws the next of n + 1 tokens. */
  function PastOf<H, K>(su: Setup<H, K>, n: nat): (past: nat)
    ensures past <= |su.prompt| + n
  {
    if n == 0 then 0 else |su.prompt| + n - 1
  }

  /** For a model without sliding windows they always do. */
  lemma FullLayersAreExact<H, K>(su: Setup<H, K>)
    requires su.prompt != [] && forall l: nat :: l < LAYERS ==> su.m.kind(l).Full?
    ensures MasksExact(su)
  {
  }

  function Inputs<H, K>(su: Setup<H, K>, generated: seq<Token>): (hs: seq<H>)
    ensures |hs| == |su.prompt| + |generated|
  {
    Embedded(su, su.prompt + generated)
  }

  function Past<H, K>(su: Setup<H, K>, generated: seq<Token>): nat { PastOf(su, |generated|) }

  ghost predicate Holds<H, K>(su: Setup<H, K>, chain: seq<ChainStep>, caches: seq<Cache<K>>, k: nat, xs: seq<H>)
    requires k < |chain| == |caches|
  {
    N.CacheExact(su.m, caches[k], chain[k].layerStart, chain[k].layerEnd, xs)
  }

  /** The first `done` nodes have cached all inputs, the others those before the current pass. */
  ghost predicate CachesAt<H, K>(
    su: Setup<H, K>, chain: seq<ChainStep>, caches: seq<Cache<K>>, done: nat, generated: seq<Token>)
  {
    var xs := Inputs(su, generated);
    && |caches| == |chain|
    && (forall k :: 0 <= k < |chain| && k < done ==> Holds(su, chain, caches, k, xs))
    && (forall k :: 0 <= k < |chain| && k >= done ==> Holds(su, chain, caches, k, xs[..Past(su, generated)]))
  }

  ghost predicate WorkFor<H, K>(su: Setup<H, K>, chain: seq<ChainStep>, k: nat, generated: seq<Token>, work: Work<H>)
    requires k < |chain|
  {
    if k > 0 then work == Activations(Hidden(su.m, chain[k].layerStart, Inputs(su, generated))[Past(su, generated)..])
    else if generated == [] then work == Prefill(su.prompt)
    else work == Continue(generated[|generated| - 1])
  }

  ghost predicate WireFor<H, K>(
    su: Setup<H, K>, chain: seq<ChainStep>, p: Pending, caches: seq<Cache<K>>, wire: Wire<H>)
    requires su.prompt != []
  {
    var k, g := p.currentStep, p.generated;
    match wire
    case ToNode(to, work) => to == k < |chain| && WorkFor(su, chain, k, g, work) && CachesAt(su, chain, caches, k, g)
    case FromNode(hs) => k < |chain| - 1 && hs == Hidden(su.m, chain[k].layerEnd, Inputs(su, g))[Past(su, g)..]
      && CachesAt(su, chain, caches, k + 1, g)
    case Drawn(token) => k == |chain| - 1 && token == NextToken(su, g) && CachesAt(su, chain, caches, |chain|, g)
    case Quiet => false
  }

  ghost predicate Good<H, K>(su: Setup<H, K>, chain: seq<ChainStep>, s: State<H, K>)
    requires su.prompt != []
  {
    match s.pending
    case None => s.delivered.Some? ==> IsResult(su, s.delivered.value)
    case Some(p) =>
      && s.delivered == None
      && p.chain == chain && p.maxTokens == su.maxTokens
      && SoFar(su, p.generated)
      && WireFor(su, chain, p, s.caches, s.wire)
  }

  // ---- every step keeps the invariant ----

  lemma NothingCached<H, K>(su: Setup<H, K>, hop: ChainStep)
    ensures N.CacheExact(su.m, map[], hop.layerStart, hop.layerEnd, [])
  {
    assert forall l: nat :: Keys(su.m, l, Hidden(su.m, l, [])) == [];
  }

  lemma InitialGood<H, K>(su: Setup<H, K>, chain: seq<ChainStep>)
    requires su.prompt != [] && Proper(chain)
    ensures Good(su, chain, Initial(su, chain))
  {
    var xs := Inputs(su, []);
    assert xs[..0] == [];
    forall k | 0 <= k < |chain| ensures Holds(su, chain, N.NoCaches(|chain|), k, []) {
      NothingCached(su, chain[k]);
    }
  }

  lemma HopExact<H, K>(su: Setup<H, K>, hop: ChainStep, past: nat, xs: seq<H>, hs: seq<H>, cache: Cache<K>)
    requires hop.layerStart < hop.layerEnd && past <= |xs|
    requires hs == Hidden(su.m, hop.layerStart, xs)[past..]
    requires N.CacheExact(su.m, cache, hop.layerStart, hop.layerEnd, xs[..past])
    requires forall l: nat :: hop.layerStart <= l < hop.layerEnd ==> N.MaskGuard(su.env, su.m.kind(l), past, |hs|)
    ensures var r := Node(su, hop, hs, cache);
      r.0 == Hidden(su.m, hop.layerEnd, xs)[past..] && N.CacheExact(su.m, r.1, hop.layerStart, hop.layerEnd, xs)
  {
    N.NodeExact(su.m, su.env, N.Shard(hop.layerStart, hop.layerEnd), past, xs, hs, cache);
  }

  lemma PassMasked<H, K>(su: Setup<H, K>, generated: seq<Token>, l: nat)
    requires su.prompt != [] && MasksExact(su) && l < LAYERS && SoFar(su, generated)
    ensures N.MaskGuard(su.env, su.m.kind(l), Past(su, generated), |Inputs(su, generated)| - Past(su, generated))
  {
  }

  /** The work a node is sent puts the new part of the one-machine pass into its layers. */
  lemma WorkEnters<H, K>(
    su: Setup<H, K>, chain: seq<ChainStep>, k: nat, generated: seq<Token>, work: Work<H>, cache: Cache<K>)
    requires Proper(chain) && k < |chain| && WorkFor(su, chain, k, generated, work)
    requires N.CacheExact(su.m, cache, chain[k].layerStart, chain[k].layerEnd,
      Inputs(su, generated)[..Past(su, generated)])
    ensures Feed(su, work) == Hidden(su.m, chain[k].layerStart, Inputs(su, generated))[Past(su, generated)..]
    ensures N.CacheExact(su.m, Start(work, cache), chain[k].layerStart, chain[k].layerEnd,
      Inputs(su, generated)[..Past(su, generated)])
  {
    var xs, past := Inputs(su, generated), Past(su, generated);
    if k == 0 && generated == [] {
      assert su.prompt + [] == su.prompt;
      NothingCached(su, chain[0]);
      assert xs[..0] == [];
    }
  }

  lemma OnlyLastEnds(chain: seq<ChainStep>, k: nat)
    requires Proper(chain) && k < |chain|
    ensures chain[k].layerEnd >= LAYERS <==> k == |chain| - 1
  {
    if k < |chain| - 1 {
      assert chain[k].layerEnd == chain[k + 1].layerStart < chain[k + 1].layerEnd <= LAYERS;
    }
  }

  lemma NodeComputes<H, K>(
    su: Setup<H, K>, chain: seq<ChainStep>, k: nat, generated: seq<Token>, work: Work<H>, cache: Cache<K>)
    requires su.prompt != [] && Proper(chain) && MasksExact(su) && k < |chain| && SoFar(su, generated)
    requires WorkFor(su, chain, k, generated, work)
    requires N.CacheExact(su.m, cache, chain[k].layerStart, chain[k].layerEnd,
      Inputs(su, generated)[..Past(su, generated)])
    ensures var r := Node(su, chain[k], Feed(su, work), Start(work, cache));
      && r.0 == Hidden(su.m, chain[k].layerEnd, Inputs(su, generated))[Past(su, generated)..]
      && N.CacheExact(su.m, r.1, chain[k].layerStart, chain[k].layerEnd, Inputs(su, generated))
  {
    var past := Past(su, generated);
    WorkEnters(su, chain, k, generated, work, cache);
    forall l: nat | chain[k].layerStart <= l < chain[k].layerEnd
      ensures N.MaskGuard(su.env, su.m.kind(l), past, |Feed(su, work)|)
    {
      PassMasked(su, generated, l);
    }
    HopExact(su, chain[k], past, Inputs(su, generated), Feed(su, work), Start(work, cache));
  }

  /** Every node but the last passes the one-machine values on, and the last draws the next token. */
  lemma NodeReplies<H, K>(
    su: Setup<H, K>, chain: seq<ChainStep>, k: nat, generated: seq<Token>, work: Work<H>, cache: Cache<K>)
    requires su.prompt != [] && Proper(chain) && MasksExact(su) && k < |chain| && SoFar(su, generated)
    requires WorkFor(su, chain, k, generated, work)
    requires N.CacheExact(su.m, cache, chain[k].layerStart, chain[k].layerEnd,
      Inputs(su, generated)[..Past(su, generated)])
    ensures var (reply, grown) := NodeWorks(su, chain[k], work, cache, |generated|);
      && N.CacheExact(su.m, grown, chain[k].layerStart, chain[k].layerEnd, Inputs(su, generated))
      && reply == if k == |chain| - 1 then Drawn(NextToken(su, generated))
                  else FromNode(Hidden(su.m, chain[k].layerEnd, Inputs(su, generated))[Past(su, generated)..])
  {
    NodeComputes(su, chain, k, generated, work, cache);
    OnlyLastEnds(chain, k);
    Answers(su, chain[k], work, cache, generated, k == |chain| - 1);
  }

  lemma Answers<H, K>(
    su: Setup<H, K>, hop: ChainStep, work: Work<H>, cache: Cache<K>, generated: seq<Token>, last: bool)
    requires su.prompt != []
    requires Node(su, hop, Feed(su, work), Start(work, cache)).0
      == Hidden(su.m, hop.layerEnd, Inputs(su, generated))[Past(su, generated)..]
    requires if last then hop.layerEnd == LAYERS && work.Activations? else hop.layerEnd < LAYERS
    ensures var (reply, grown) := NodeWorks(su, hop, work, cache, |generated|);
      && grown == Node(su, hop, Feed(su, work), Start(work, cache)).1
      && reply == if last then Drawn(NextToken(su, generated))
                  else FromNode(Hidden(su.m, hop.layerEnd, Inputs(su, generated))[Past(su, generated)..])
  {
    if last {
      LastDraws(su, generated, Node(su, hop, Feed(su, work), Start(work, cache)).0);
    }
  }

  lemma LastDraws<H, K>(su: Setup<H, K>, generated: seq<Token>, out: seq<H>)
    requires su.prompt != [] && out == Hidden(su.m, LAYERS, Inputs(su, generated))[Past(su, generated)..]
    ensures out != [] && Draw(su, |generated|, out) == NextToken(su, generated)
  {
    SameDraw(su, |generated|, Hidden(su.m, LAYERS, Inputs(su, generated)), Past(su, generated));
  }

  lemma SameDraw<H, K>(su: Setup<H, K>, draw: nat, hs: seq<H>, past: nat)
    requires past < |hs|
    ensures Draw(su, draw, hs[past..]) == Draw(su, draw, hs)
  {
  }

  lemma CacheKept<H, K>(
    su: Setup<H, K>, chain: seq<ChainStep>, caches: seq<Cache<K>>, k: nat, generated: seq<Token>, cache: Cache<K>)
    requires k < |chain| && CachesAt(su, chain, caches, k, generated)
    requires N.CacheExact(su.m, cache, chain[k].layerStart, chain[k].layerEnd, Inputs(su, generated))
    ensures CachesAt(su, chain, caches[k := cache], k + 1, generated)
  {
    var xs, next := Inputs(su, generated), caches[k := cache];
    forall j | 0 <= j < |chain| && j < k + 1 ensures Holds(su, chain, next, j, xs) {
      if j < k {
        assert Holds(su, chain, caches, j, xs);
      }
    }
    forall j | 0 <= j < |chain| && j >= k + 1 ensures Holds(su, chain, next, j, xs[..Past(su, generated)]) {
      assert Holds(su, chain, caches, j, xs[..Past(su, generated)]);
    }
  }

  /** Between two tokens: what every node has cached is what the next pass calls the past. */
  lemma PassOver<H, K>(
    su: Setup<H, K>, chain: seq<ChainStep>, caches: seq<Cache<K>>, generated: seq<Token>, token: Token)
    requires CachesAt(su, chain, caches, |chain|, generated)
    ensures CachesAt(su, chain, caches, 0, generated + [token])
  {
    var xs, ys := Inputs(su, generated), Inputs(su, generated + [token]);
    assert ys[..Past(su, generated + [token])] == xs;
    forall k | 0 <= k < |chain| ensures Holds(su, chain, caches, k, xs) {
    }
  }

  lemma NodeStepGood<H, K>(su: Setup<H, K>, chain: seq<ChainStep>, s: State<H, K>)
    requires su.prompt != [] && Proper(chain) && MasksExact(su) && Good(su, chain, s)
    requires s.pending.Some? && s.wire.ToNode?
    ensures Good(su, chain, Next(su, s))
  {
    var p, k := s.pending.value, s.wire.k;
    assert Holds(su, chain, s.caches, k, Inputs(su, p.generated)[..Past(su, p.generated)]);
    NodeReplies(su, chain, k, p.generated, s.wire.work, s.caches[k]);
    var (reply, cache) := NodeWorks(su, chain[k], s.wire.work, s.caches[k], |p.generated|);
    CacheKept(su, chain, s.caches, k, p.generated, cache);
  }

  lemma TokenStepGood<H, K>(su: Setup<H, K>, chain: seq<ChainStep>, s: State<H, K>)
    requires su.prompt != [] && Proper(chain) && Good(su, chain, s)
    requires s.pending.Some? && s.wire.Drawn?
    ensures Good(su, chain, Next(su, s))
  {
    var p, token := s.pending.value, s.wire.token;
    var g := p.generated + [token];
    assert g == Decode(su, |g|);
    PassOver(su, chain, s.caches, p.generated, token);
  }

  lemma NextKeepsGood<H, K>(su: Setup<H, K>, chain: seq<ChainStep>, s: State<H, K>)
    requires su.prompt != [] && Proper(chain) && MasksExact(su) && Good(su, chain, s)
    ensures Good(su, chain, Next(su, s))
  {
    if s.pending.Some? {
      if s.wire.ToNode? {
        NodeStepGood(su, chain, s);
      } else if s.wire.Drawn? {
        TokenStepGood(su, chain, s);
      }
    }
  }

  // ---- runs ----

  datatype Move = Go | Lose

  function Run<H, K>(su: Setup<H, K>, s: State<H, K>, moves: seq<Move>): State<H, K> {
    if moves == [] then s
    else
      var before := Run(su, s, moves[..|moves| - 1]);
      if moves[|moves| - 1].Go? then Next(su, before) else Lost(before)
  }

  lemma {:induction false} RunGood<H, K>(su: Setup<H, K>, chain: seq<ChainStep>, moves: seq<Move>)
    requires su.prompt != [] && Proper(chain) && MasksExact(su)
    ensures Good(su, chain, Run(su, Initial(su, chain), moves))
  {
    if moves == [] {
      InitialGood(su, chain);
    } else {
      RunGood(su, chain, moves[..|moves| - 1]);
      NextKeepsGood(su, chain, Run(su, Initial(su, chain), moves[..|moves| - 1]));
    }
  }

  /** At every moment of every run the tokens so far are those of decoding on one machine, and whatever
      is delivered ends at the first end-of-sequence token or at the limit. */
  lemma RunRefinesDecode<H, K>(su: Setup<H, K>, chain: seq<ChainStep>, moves: seq<Move>)
    requires su.prompt != [] && Proper(chain) && MasksExact(su)
    ensures var s := Run(su, Initial(su, chain), moves);
      && (s.pending.Some? ==> s.pending.value.generated == Decode(su, |s.pending.value.generated|))
      && (s.delivered.Some? ==> IsResult(su, s.delivered.value))
  {
    RunGood(su, chain, moves);
  }

  lemma {:induction false} DecodePrefix<H, K>(su: Setup<H, K>, a: nat, b: nat)
    requires su.prompt != [] && a <= b
    ensures Decode(su, a) == Decode(su, b)[..a]
    decreases b
  {
    if a < b {
      DecodePrefix(su, a, b - 1);
    }
  }

  /** There is only one result. */
  lemma ResultUnique<H, K>(su: Setup<H, K>, r: seq<Token>, r': seq<Token>)
    requires su.prompt != [] && IsResult(su, r) && IsResult(su, r')
    ensures r == r'
  {
    if |r| <= |r'| {
      DecodePrefix(su, |r|, |r'|);
    } else {
      DecodePrefix(su, |r'|, |r|);
    }
  }

  // ---- termination ----

  /** Steps left inside the current pass, the draw included. */
  function HopsLeft<H>(p: Pending, wire: Wire<H>): nat
    requires p.currentStep < |p.chain|
  {
    match wire
    case ToNode(_, _) => 2 * (|p.chain| - p.currentStep)
    case FromNode(_) => 2 * (|p.chain| - p.currentStep) - 1
    case Drawn(_) => 1
    case Quiet => 0
  }

  /** Tokens left first, hops left second, as one number. */
  function Left<H, K>(su: Setup<H, K>, s: State<H, K>): nat {
    if s.pending.None? then 0
    else
      var p := s.pending.value;
      if p.currentStep >= |p.chain| || |p.generated| >= Limit(su) then 0
      else Times(Limit(su) - |p.generated| - 1, 2 * |p.chain|) + HopsLeft(p, s.wire)
  }

  function Times(passes: nat, steps: nat): nat {
    if passes == 0 then 0 else steps + Times(passes - 1, steps)
  }

  lemma {:induction false} TimesIsProduct(passes: nat, steps: nat)
    ensures Times(passes, steps) == steps * passes
  {
    if passes > 0 {
      TimesIsProduct(passes - 1, steps);
      assert steps * passes == steps + steps * (passes - 1);
    }
  }

  /** A message is under way between nodes of the chain, and tokens are left. */
  predicate UnderWay<H, K>(su: Setup<H, K>, s: State<H, K>) {
    && s.pending.Some?
    && var p := s.pending.value;
    && p.maxTokens == su.maxTokens && |p.generated| < Limit(su) && p.currentStep < |p.chain|
    && match s.wire {
         case ToNode(k, _) => k == p.currentStep && k < |s.caches|
         case FromNode(_) => p.currentStep < |p.chain| - 1
         case Drawn(_) => true
         case Quiet => false
       }
  }

  lemma StepComesCloser<H, K>(su: Setup<H, K>, s: State<H, K>)
    requires UnderWay(su, s)
    ensures Left(su, Next(su, s)) < Left(su, s)
    ensures Next(su, s).pending.Some? || Next(su, s).delivered.Some?
  {
    var p := s.pending.value;
    if s.wire.ToNode? {
      NodeNeverForwards(su, p.chain[s.wire.k], s.wire.work, s.caches[s.wire.k], |p.generated|);
    }
  }

  lemma NodeNeverForwards<H, K>(su: Setup<H, K>, hop: ChainStep, work: Work<H>, cache: Cache<K>, draw: nat)
    ensures NodeWorks(su, hop, work, cache, draw).0.FromNode? || NodeWorks(su, hop, work, cache, draw).0.Drawn?
  {
  }

  /** The message under way belongs to the current hop and carries something, whatever the masks show. */
  ghost predicate OnTrack<H, K>(su: Setup<H, K>, chain: seq<ChainStep>, s: State<H, K>) {
    match s.pending
    case None => s.delivered.Some?
    case Some(p) => UnderWay(su, s) && p.chain == chain && |s.caches| == |chain| && CarriesWork(su, p, s.wire)
  }

  predicate CarriesWork<H, K>(su: Setup<H, K>, p: Pending, wire: Wire<H>) {
    match wire
    case ToNode(k, work) => Feed(su, work) != [] && (work.Activations? <==> k > 0)
    case FromNode(hs) => hs != []
    case Drawn(_) => true
    case Quiet => true
  }

  lemma NodeKeepsLength<H, K>(su: Setup<H, K>, hop: ChainStep, hs: seq<H>, cache: Cache<K>)
    ensures |Node(su, hop, hs, cache).0| == |hs|
  {
  }

  lemma NextOnTrack<H, K>(su: Setup<H, K>, chain: seq<ChainStep>, s: State<H, K>)
    requires Proper(chain) && OnTrack(su, chain, s) && s.pending.Some?
    ensures OnTrack(su, chain, Next(su, s))
  {
    if s.wire.ToNode? {
      var k, work := s.wire.k, s.wire.work;
      OnlyLastEnds(chain, k);
      NodeKeepsLength(su, chain[k], Feed(su, work), Start(work, s.caches[k]));
      NodeNeverForwards(su, chain[k], work, s.caches[k], |s.pending.value.generated|);
    }
  }

  lemma {:induction false} GoesOn<H, K>(su: Setup<H, K>, chain: seq<ChainStep>, moves: seq<Move>)
    requires su.prompt != [] && Proper(chain) && forall i :: 0 <= i < |moves| ==> moves[i] == Go
    ensures var s := Run(su, Initial(su, chain), moves);
      OnTrack(su, chain, s) && (s.pending.Some? ==> Left(su, s) + |moves| <= 2 * |chain| * Limit(su))
  {
    if moves == [] {
      TimesIsProduct(Limit(su), 2 * |chain|);
    } else {
      var before := moves[..|moves| - 1];
      GoesOn(su, chain, before);
      var s := Run(su, Initial(su, chain), before);
      if s.pending.Some? {
        NextOnTrack(su, chain, s);
        StepComesCloser(su, s);
      }
    }
  }

  /** Left alone, a request is answered within two steps per hop and token, whatever the masks show;
      where they are exact, the answer is that of the one machine. */
  lemma UndisturbedRunDelivers<H, K>(su: Setup<H, K>, chain: seq<ChainStep>)
    requires su.prompt != [] && Proper(chain)
    ensures var s := Run(su, Initial(su, chain), seq(2 * |chain| * Limit(su), _ => Go));
      s.delivered.Some? && (MasksExact(su) ==> IsResult(su, s.delivered.value))
  {
    var moves := seq(2 * |chain| * Limit(su), _ => Go);
    var s := Run(su, Initial(su, chain), moves);
    GoesOn(su, chain, moves);
    if s.pending.Some? {
      LeftWhilePending(su, s);
    }
    if MasksExact(su) {
      RunGood(su, chain, moves);
    }
  }

  lemma LeftWhilePending<H, K>(su: Setup<H, K>, s: State<H, K>)
    requires UnderWay(su, s)
    ensures Left(su, s) > 0
  {
  }

  // ---- chains of one node ----

  /** The only node is always asked with an embedding request and answers with hidden values; the
      coordinator steps past the end of the chain and nothing more is sent. */
  lemma {:induction false} OneHopStalls<H, K>(su: Setup<H, K>, chain: seq<ChainStep>, moves: seq<Move>)
    requires |chain| == 1
    ensures var s := Run(su, Initial(su, chain), moves);
      && s.delivered == None
      && (s.pending.Some? ==> s.pending.value.chain == chain && |s.caches| == 1)
      && (s.wire == ToNode(0, Prefill(su.prompt)) || s.wire.FromNode? || s.wire.Quiet?)
      && (s.pending.Some? && s.wire.FromNode? ==> s.pending.value.currentStep == 0)
  {
    if moves != [] {
      OneHopStalls(su, chain, moves[..|moves| - 1]);
    }
  }

  /** Some run delivers exactly when the chain has at least two nodes. */
  lemma DeliversIffTwoHops<H, K>(su: Setup<H, K>, chain: seq<ChainStep>)
    requires su.prompt != [] && Covers(chain)
    ensures (exists moves :: Run(su, Initial(su, chain), moves).delivered.Some?) <==> |chain| >= 2
  {
    if |chain| >= 2 {
      UndisturbedRunDelivers(su, chain);
    } else {
      forall moves ensures Run(su, Initial(su, chain), moves).delivered == None {
        OneHopStalls(su, chain, moves);
      }
    }
  }

  // ---- chains that are built ----

  lemma {:induction false} TilesCover(chain: seq<ChainStep>, lo: nat)
    requires ChainTiles(chain, lo) && chain != []
    requires forall k :: 0 <= k < |chain| ==> chain[k].layerStart < chain[k].layerEnd
    ensures chain[0].layerStart == lo && chain[|chain| - 1].layerEnd == LAYERS
    ensures forall k :: 0 <= k < |chain| ==> chain[k].layerEnd <= LAYERS
    ensures forall k :: 0 <= k < |chain| - 1 ==> chain[k].layerEnd == chain[k + 1].layerStart
  {
    if |chain| > 1 {
      TilesCover(chain[1..], chain[0].layerEnd);
      assert chain[1..][0] == chain[1];
    }
  }

  /** Up to 28 nodes, a chain the coordinator builds is one the theorems above are about. */
  lemma BuiltChainCovers(c: Core)
    requires ServingClusters.Inv(c.mgr) && BuildChain(c) != [] && |c.mgr.active.value.slots| <= LAYERS
    ensures Covers(BuildChain(c))
  {
    BuiltChainTiles(c);
    TilesCover(BuildChain(c), 0);
  }
}
