/** Token by token over nodes that other requests use as well: what the coordinator feeds the chain and
    draws from its last node (server/coordinator/src/ws_handler.rs), on the shared stores of the nodes
    (inference/node_forward.py), is decoding on one machine. */
module SharedDecode {
  import opened CausalModel
  import opened KvCache
  import opened Coordinator
  import opened HopProtocol
  import N = NodeForward
  import S = SharedStores

  /** What the first node is asked for these tokens: the prompt, then each token but the last. */
  function Fed<H, K>(su: Setup<H, K>, tokens: seq<Token>): (chunks: seq<seq<H>>)
    ensures |chunks| == |tokens|
  {
    seq(|tokens|, j requires 0 <= j < |tokens| => FedAt(su, tokens, j))
  }

  function FedAt<H, K>(su: Setup<H, K>, tokens: seq<Token>, j: nat): (hs: seq<H>)
    requires j < |tokens|
    ensures |hs| == |su.prompt| + j - PastOf(su, j)
  {
    if j == 0 then Embedded(su, su.prompt) else Embedded(su, [tokens[j - 1]])
  }

  /** Every token is drawn from the last node's answer to its pass. */
  ghost predicate DrawnFrom<H, K>(su: Setup<H, K>, answers: seq<seq<H>>, tokens: seq<Token>) {
    |answers| == |tokens| && forall j: nat :: j < |tokens| ==> IsDraw(su, j, answers[j], tokens[j])
  }

  predicate IsDraw<H, K>(su: Setup<H, K>, j: nat, answer: seq<H>, token: Token) {
    answer != [] && token == Draw(su, j, answer)
  }

  lemma {:induction false} FedIsInput<H, K>(su: Setup<H, K>, tokens: seq<Token>, n: nat)
    requires n <= |tokens|
    ensures N.Flat(Fed(su, tokens)[..n]) == if n == 0 then [] else Inputs(su, tokens[..n - 1])
  {
    if n > 0 {
      FedIsInput(su, tokens, n - 1);
      OneMoreFed(su, tokens, n - 1);
      assert Fed(su, tokens)[..n][..n - 1] == Fed(su, tokens)[..n - 1];
    }
  }

  lemma OneMoreFed<H, K>(su: Setup<H, K>, tokens: seq<Token>, j: nat)
    requires j < |tokens|
    ensures (if j == 0 then [] else Inputs(su, tokens[..j - 1])) + FedAt(su, tokens, j) == Inputs(su, tokens[..j])
  {
    if j == 0 {
      assert su.prompt + [] == su.prompt;
    } else {
      assert su.prompt + tokens[..j] == su.prompt + tokens[..j - 1] + [tokens[j - 1]];
    }
  }

  /** A request that goes on as long as these tokens say. */
  ghost predicate GoesOn<H, K>(su: Setup<H, K>, tokens: seq<Token>) {
    |tokens| <= Limit(su) && forall i :: 0 <= i < |tokens| - 1 ==> !su.isEos(tokens[i])
  }

  lemma FedGuarded<H, K>(su: Setup<H, K>, tokens: seq<Token>, n: nat)
    requires su.prompt != [] && MasksExact(su) && GoesOn(su, tokens) && n < |tokens|
    requires tokens[..n] == Decode(su, n)
    ensures N.Guarded(su.m, su.env, LAYERS, Fed(su, tokens)[..n + 1])
  {
    var chunks := Fed(su, tokens)[..n + 1];
    forall k, l: nat | 0 <= k < |chunks| && l < LAYERS
      ensures N.MaskGuard(su.env, su.m.kind(l), |N.Flat(chunks[..k])|, |chunks[k]|)
    {
      assert chunks[..k] == Fed(su, tokens)[..k];
      PassGuarded(su, tokens, n, k, l);
    }
  }

  lemma PassGuarded<H, K>(su: Setup<H, K>, tokens: seq<Token>, n: nat, k: nat, l: nat)
    requires su.prompt != [] && MasksExact(su) && GoesOn(su, tokens) && k <= n < |tokens| && l < LAYERS
    requires tokens[..n] == Decode(su, n)
    ensures N.MaskGuard(su.env, su.m.kind(l), |N.Flat(Fed(su, tokens)[..k])|, |Fed(su, tokens)[k]|)
  {
    FedIsInput(su, tokens, k);
    DecodePrefix(su, k, n);
    assert SoFar(su, Decode(su, k));
  }

  /** The answer to pass n, and the token drawn from it. */
  lemma NextDrawn<H, K>(su: Setup<H, K>, nodes: seq<S.NodeLog<H>>, id: Id, tokens: seq<Token>, n: nat)
    requires su.prompt != [] && nodes != [] && N.Tile(S.Shards(nodes), 0, LAYERS)
    requires S.Served(su.m, su.env, nodes, id, Fed(su, tokens)) && MasksExact(su) && GoesOn(su, tokens)
    requires DrawnFrom(su, S.Last(su.m, su.env, nodes, id), tokens)
    requires n < |tokens| && tokens[..n] == Decode(su, n)
    ensures tokens[n] == NextToken(su, tokens[..n])
  {
    var past := AnswerIs(su, nodes, id, tokens, n);
    assert IsDraw(su, n, S.Last(su.m, su.env, nodes, id)[n], tokens[n]);
    SameDraw(su, n, Hidden(su.m, LAYERS, Inputs(su, tokens[..n])), past);
  }

  lemma AnswerIs<H, K>(
    su: Setup<H, K>, nodes: seq<S.NodeLog<H>>, id: Id, tokens: seq<Token>, n: nat) returns (past: nat)
    requires su.prompt != [] && nodes != [] && N.Tile(S.Shards(nodes), 0, LAYERS)
    requires S.Served(su.m, su.env, nodes, id, Fed(su, tokens)) && MasksExact(su) && GoesOn(su, tokens)
    requires n < |tokens| && tokens[..n] == Decode(su, n)
    ensures |S.Last(su.m, su.env, nodes, id)| == |tokens| && past < |Inputs(su, tokens[..n])|
    ensures S.Last(su.m, su.env, nodes, id)[n] == Hidden(su.m, LAYERS, Inputs(su, tokens[..n]))[past..]
  {
    var fed, last := Fed(su, tokens), S.Last(su.m, su.env, nodes, id);
    var chunks := fed[..n + 1];
    FedGuarded(su, tokens, n);
    S.SlicesEnter(su.m, chunks);
    S.ChainServes(su.m, su.env, nodes, id, 0, LAYERS, chunks, fed);
    assert last[..n + 1][n] == last[n];
    assert chunks[..n] == fed[..n];
    FedIsInput(su, tokens, n);
    OneMoreFed(su, tokens, n);
    past := |N.Flat(fed[..n])|;
  }

  /** Whatever else the nodes do: as long as the request is served in time, its tokens are those of
      decoding on one machine. */
  lemma {:induction false} SharedTokensAreDecode<H, K>(
    su: Setup<H, K>, nodes: seq<S.NodeLog<H>>, id: Id, tokens: seq<Token>, n: nat)
    requires su.prompt != [] && nodes != [] && N.Tile(S.Shards(nodes), 0, LAYERS)
    requires S.Served(su.m, su.env, nodes, id, Fed(su, tokens)) && MasksExact(su) && GoesOn(su, tokens)
    requires DrawnFrom(su, S.Last(su.m, su.env, nodes, id), tokens)
    requires n <= |tokens|
    ensures tokens[..n] == Decode(su, n)
    decreases n
  {
    if n > 0 {
      SharedTokensAreDecode(su, nodes, id, tokens, n - 1);
      NextDrawn(su, nodes, id, tokens, n - 1);
      OneMoreDrawn(su, tokens, n);
    }
  }

  lemma OneMoreDrawn<H, K>(su: Setup<H, K>, tokens: seq<Token>, n: nat)
    requires su.prompt != [] && 0 < n <= |tokens|
    requires tokens[..n - 1] == Decode(su, n - 1) && tokens[n - 1] == NextToken(su, tokens[..n - 1])
    ensures tokens[..n] == Decode(su, n)
  {
    assert tokens[..n] == tokens[..n - 1] + [tokens[n - 1]];
  }

  /** A request that stops where the coordinator completes it has the one result. */
  lemma SharedRequestIsResult<H, K>(su: Setup<H, K>, nodes: seq<S.NodeLog<H>>, id: Id, tokens: seq<Token>)
    requires su.prompt != [] && nodes != [] && N.Tile(S.Shards(nodes), 0, LAYERS)
    requires S.Served(su.m, su.env, nodes, id, Fed(su, tokens)) && MasksExact(su) && GoesOn(su, tokens)
    requires DrawnFrom(su, S.Last(su.m, su.env, nodes, id), tokens)
    requires tokens != [] && (su.isEos(tokens[|tokens| - 1]) || |tokens| == Limit(su))
    ensures IsResult(su, tokens)
  {
    SharedTokensAreDecode(su, nodes, id, tokens, |tokens|);
    assert tokens[..|tokens|] == tokens;
  }
}
