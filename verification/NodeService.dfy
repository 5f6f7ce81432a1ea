/** One request to a node process (`handle_inference_sync` in inference/node_forward.py, and the worker in
    client/node/src/ws_worker.rs that picks its mode): the protocol's node step, done by the node object. */
module NodeService {
  import opened Wrappers
  import opened CausalModel
  import opened KvCache
  import opened Coordinator
  import opened HopProtocol
  import N = NodeForward

  /** Prefill resets, a decode step without an entry is refused (409), and a node that holds the last
      layer draws from the normalised value of the last position. */
  method Serve<H, K>(su: Setup<H, K>, node: N.Node<H, K>, hop: ChainStep, work: Work<H>, id: Id, now: int, draw: nat)
    returns (reply: Option<Wire<H>>)
    requires node.m == su.m && node.env == su.env && node.caching && node.Ready() && Valid(node.kv)
    requires hop.layerStart == node.shard.lo < node.shard.hi == hop.layerEnd
    modifies node
    ensures node.Ready() && Valid(node.kv)
    ensures work.Continue? && !Has(old(node.kv), id) ==> reply == None && node.kv == old(node.kv)
    ensures !work.Continue? || Has(old(node.kv), id) ==>
      var (answer, grown) := NodeWorks(su, hop, work, N.Entered(old(node.kv), id, false), draw);
      && reply == Some(answer) && N.Entered(node.kv, id, false) == grown
      && forall x :: x != id && Has(node.kv, x) ==>
           Has(old(node.kv), x) && Get(node.kv, x) == Get(old(node.kv), x)
  {
    if work.Continue? && !Has(node.kv, id) {
      return None;
    }
    ghost var use, cache := Use(id, work.Prefill?, now), N.Entered(node.kv, id, false);
    var generate := work.Activations? && hop.layerEnd >= LAYERS;
    StoresWork(su, hop, node.shard, work, node.kv, use, node.maxEntries, draw);
    ghost var result := N.ForwardKv(su.m, su.env, node.shard, Feed(su, work), node.kv, use, node.maxEntries).0;
    var out := node.RunForward(Feed(su, work), id, generate, work.Prefill?, now);
    if generate && out != [] {
      reply := Some(Drawn(su.pick(draw, out[|out| - 1])));
    } else {
      assert out == result;
      reply := Some(FromNode(out));
    }
  }

  /** What the pass on the node's store has to do with the protocol's step on the request's cache. */
  lemma StoresWork<H, K>(
    su: Setup<H, K>, hop: ChainStep, s: N.Shard, work: Work<H>, kv: OrderedDict<Cache<K>>, use: Op, max: nat, draw: nat)
    requires use.Use? && use.reset == work.Prefill? && max >= 1 && |kv| <= max && Valid(kv)
    requires hop.layerStart == s.lo < s.hi == hop.layerEnd
    ensures var (result, kv') := N.ForwardKv(su.m, su.env, s, Feed(su, work), kv, use, max);
      var (answer, grown) := NodeWorks(su, hop, work, N.Entered(kv, use.id, false), draw);
      && Valid(kv') && N.Entered(kv', use.id, false) == grown
      && answer == (if work.Activations? && hop.layerEnd >= LAYERS && result != [] then Drawn(Draw(su, draw, result))
                    else FromNode(result))
      && forall x :: x != use.id && Has(kv', x) ==> Has(kv, x) && Get(kv', x) == Get(kv, x)
  {
    N.ForwardKvStores(su.m, su.env, s, Feed(su, work), kv, use, max);
    assert N.Entered(kv, use.id, use.reset) == Start(work, N.Entered(kv, use.id, false));
  }
}
