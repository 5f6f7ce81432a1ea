/** From the coordinator's handlers to the decoded tokens: in every interleaving of the handlers, what
    the shared state records of one request is what the hop-by-hop protocol says of it. */
module RequestRuns {
  import opened Wrappers
  import opened ServingClusters
  import opened CausalModel
  import opened Coordinator
  import opened Handlers
  import HopProtocol
  import SocketSafety

  type Setup<!H, !K> = HopProtocol.Setup<H, K>
  type Proto<H, K> = HopProtocol.State<H, K>

  /** The stored request and the delivered tokens are the protocol's; it knows nothing of guards. */
  ghost predicate Mirrors<H, K>(c: Core, rid: RequestId, s: Proto<H, K>) {
    && (rid in c.pending <==> s.pending.Some?)
    && (rid in c.pending ==> c.pending[rid].(guard := 0) == s.pending.value)
    && (rid in c.delivered <==> s.delivered.Some?)
    && (rid in c.delivered ==> c.delivered[rid] == s.delivered.value)
  }

  /** Where the protocol's message goes. */
  function Addressee<H, K>(s: Proto<H, K>): Option<NodeId> {
    if s.pending.Some? && s.wire.ToNode? && s.wire.k < |s.pending.value.chain| then
      Some(s.pending.value.chain[s.wire.k].nodeId)
    else None
  }

  // ---- one critical section ----

  lemma InsertMirrors<H, K>(su: Setup<H, K>, c: Core, rid: RequestId, chain: seq<ChainStep>, guard: nat)
    requires chain != [] && rid !in c.delivered
    ensures Mirrors(Insert(c, rid, chain, su.maxTokens, guard), rid, HopProtocol.Initial(su, chain))
    ensures Addressee(HopProtocol.Initial(su, chain)) == Some(chain[0].nodeId)
  {
  }

  /** Hidden states that come back move the request on, and to the node that the protocol asks next. */
  lemma RouteMirrors<H, K>(su: Setup<H, K>, c: Core, rid: RequestId, s: Proto<H, K>)
    requires Mirrors(c, rid, s) && (s.pending.Some? ==> s.wire.FromNode?)
    ensures Mirrors(Coordinator.Route(c, rid).0, rid, HopProtocol.Next(su, s))
    ensures s.pending.Some? ==> Coordinator.Route(c, rid).1 == Addressee(HopProtocol.Next(su, s))
  {
  }

  /** A token that comes back is appended; it completes the request or starts the next pass. */
  lemma TokenMirrors<H, K>(su: Setup<H, K>, c: Core, rid: RequestId, s: Proto<H, K>, t: Token)
    requires Mirrors(c, rid, s) && (s.pending.Some? ==> s.wire == HopProtocol.Drawn(t))
    ensures Mirrors(TakeToken(c, rid, t, su.isEos(t)).0, rid, HopProtocol.Next(su, s))
    ensures s.pending.Some? ==> TakeToken(c, rid, t, su.isEos(t)).1 == Addressee(HopProtocol.Next(su, s))
  {
  }

  // ---- runs of all handlers ----

  /** What a step of the coordinator is for the request: stored, a node's answer taken in, dropped, or nothing. */
  ghost function Effect<H, K>(su: Setup<H, K>, rid: RequestId, s: Sys, st: Step, p: Proto<H, K>): Proto<H, K>
    requires Enabled(s, st)
  {
    if st.Store? && st.rid == rid then HopProtocol.Initial(su, s.jobs[st.j].chain)
    else if (st.HiddenBack? || st.TokenBack?) && st.rid == rid then HopProtocol.Next(su, HopProtocol.Next(su, p))
    else if rid in s.core.pending && rid !in Next(s, st).core.pending then HopProtocol.Lost(p)
    else p
  }

  /** The request is stored with these parameters, over a chain of two nodes or more, and the replies for
      it are those of the nodes that work on it. */
  ghost predicate Honest<H, K>(su: Setup<H, K>, rid: RequestId, s: Sys, st: Step, p: Proto<H, K>)
    requires Enabled(s, st)
  {
    && (st.Store? && st.rid == rid ==> st.maxTokens == su.maxTokens && HopProtocol.Proper(s.jobs[st.j].chain))
    && ((st.HiddenBack? || st.TokenBack?) && st.rid == rid && p.pending.Some? ==> FromItsNode(su, st, p))
  }

  ghost predicate FromItsNode<H, K>(su: Setup<H, K>, st: Step, p: Proto<H, K>)
    requires st.HiddenBack? || st.TokenBack?
  {
    var reply := HopProtocol.Next(su, p).wire;
    && p.wire.ToNode?
    && if st.HiddenBack? then reply.FromNode? else reply == HopProtocol.Drawn(st.t) && st.eos == su.isEos(st.t)
  }

  /** The request in the protocol after k steps of the run. */
  ghost function After<H, K>(su: Setup<H, K>, rid: RequestId, states: seq<Sys>, steps: seq<Step>, k: nat): Proto<H, K>
    requires IsRun(states, steps) && k <= |steps|
  {
    if k == 0 then HopProtocol.State(None, [], HopProtocol.Quiet, None)
    else Effect(su, rid, states[k - 1], steps[k - 1], After(su, rid, states, steps, k - 1))
  }

  ghost predicate AllHonest<H, K>(su: Setup<H, K>, rid: RequestId, states: seq<Sys>, steps: seq<Step>)
    requires IsRun(states, steps)
  {
    forall k :: 0 <= k < |steps| ==> Honest(su, rid, states[k], steps[k], After(su, rid, states, steps, k))
  }

  lemma NodeStepMirrors<H, K>(su: Setup<H, K>, c: Core, rid: RequestId, p: Proto<H, K>)
    requires Mirrors(c, rid, p) && (p.pending.Some? ==> p.wire.ToNode?)
    ensures Mirrors(c, rid, HopProtocol.Next(su, p)) && (p.pending.Some? <==> HopProtocol.Next(su, p).pending.Some?)
  {
  }

  lemma {:induction false} DropAllDelivers(c: Core, rids: seq<RequestId>)
    ensures DropAll(c, rids).delivered == c.delivered
    decreases |rids|
  {
    if rids != [] {
      DropAllDelivers(Drop(c, rids[0]), rids[1..]);
    }
  }

  /** Only its own last token delivers a request. */
  lemma DeliveredStays(s: Sys, st: Step, rid: RequestId)
    requires Enabled(s, st) && !(st.TokenBack? && st.rid == rid)
    ensures rid in Next(s, st).core.delivered <==> rid in s.core.delivered
    ensures rid in s.core.delivered ==> Next(s, st).core.delivered[rid] == s.core.delivered[rid]
  {
    if st.FailWaiting? {
      DropAllDelivers(s.core, st.order);
    } else if st.TokenBack? {
      OtherDelivered(s.core, st.rid, st.t, st.eos, rid);
    }
  }

  lemma OtherDelivered(c: Core, rid: RequestId, t: Token, eos: bool, other: RequestId)
    requires other != rid
    ensures var d := TakeToken(c, rid, t, eos).0;
      && (other in d.delivered <==> other in c.delivered)
      && (other in c.delivered ==> d.delivered[other] == c.delivered[other])
  {
  }

  /** Ids are not used twice. */
  ghost predicate Fresh(s: Sys) {
    forall rid :: rid in s.core.pending || rid in s.core.delivered ==> rid in s.used
  }

  lemma StepKeepsFresh(s: Sys, st: Step)
    requires Enabled(s, st) && Fresh(s)
    ensures Fresh(Next(s, st))
  {
    var next := Next(s, st);
    forall rid | rid in next.core.pending || rid in next.core.delivered ensures rid in next.used {
      if !SocketSafety.Writes(st, rid) {
        DeliveredStays(s, st, rid);
        if rid in next.core.pending {
          SocketSafety.UnwrittenEntry(s, st, rid);
        }
      } else if !st.Store? {
        assert rid in s.core.pending || rid in s.core.delivered;
      }
    }
  }

  /** Every step of the coordinator does to the record of the request what its effect does in the protocol. */
  lemma StepMirrors<H, K>(su: Setup<H, K>, rid: RequestId, s: Sys, st: Step, p: Proto<H, K>)
    requires Enabled(s, st) && Fresh(s) && Mirrors(s.core, rid, p) && Honest(su, rid, s, st, p)
    ensures Mirrors(Next(s, st).core, rid, Effect(su, rid, s, st, p))
  {
    if !SocketSafety.Writes(st, rid) {
      DeliveredStays(s, st, rid);
      if rid in Next(s, st).core.pending {
        SocketSafety.UnwrittenEntry(s, st, rid);
      }
    } else if st.Store? {
      InsertMirrors(su, s.core, rid, s.jobs[st.j].chain, s.jobs[st.j].gen);
    } else {
      ReplyMirrors(su, rid, s, st, p);
    }
  }

  lemma ReplyMirrors<H, K>(su: Setup<H, K>, rid: RequestId, s: Sys, st: Step, p: Proto<H, K>)
    requires Enabled(s, st) && Mirrors(s.core, rid, p) && Honest(su, rid, s, st, p)
    requires (st.HiddenBack? || st.TokenBack?) && st.rid == rid
    ensures Mirrors(Next(s, st).core, rid, HopProtocol.Next(su, HopProtocol.Next(su, p)))
  {
    if p.pending.Some? {
      NodeStepMirrors(su, s.core, rid, p);
      var q := HopProtocol.Next(su, p);
      if st.HiddenBack? {
        RouteMirrors(su, s.core, rid, q);
      } else {
        TokenMirrors(su, s.core, rid, q, st.t);
      }
    }
  }

  // ---- when a request leaves ----

  predicate LastToken(p: Pending, st: Step) {
    st.TokenBack? && (st.eos || |p.generated| + 1 >= p.maxTokens)
  }

  predicate WaitsOn(p: Pending, n: NodeId) {
    p.currentStep < |p.chain| && p.chain[p.currentStep].nodeId == n
  }

  /** A stored request leaves with its last token, when its own handler or send gives it up, or with the
      node that its current hop waits on, and at no other step. */
  lemma LeavesIff(s: Sys, st: Step, rid: RequestId)
    requires Enabled(s, st) && Fresh(s) && rid in s.core.pending
    ensures rid !in Next(s, st).core.pending <==>
      || (st.TokenBack? && st.rid == rid && LastToken(s.core.pending[rid], st))
      || ((st.Fail? || st.Abort? || st.GiveUp?) && s.jobs[st.j].rid == rid)
      || (st.FailWaiting? && WaitsOn(s.core.pending[rid], s.jobs[st.j].node))
  {
    if st.FailWaiting? {
      SocketSafety.DropAllEntries(s.core, st.order);
      assert rid in st.order <==> rid in WaitingOn(s.core, s.jobs[st.j].node);
    } else if st.TokenBack? {
      LeavesByToken(s.core, st, rid);
    } else if st.Fail? || st.Abort? || st.GiveUp? {
      LeavesByDrop(s, st, rid);
    }
  }

  lemma LeavesByToken(c: Core, st: Step, rid: RequestId)
    requires st.TokenBack? && rid in c.pending
    ensures rid !in TakeToken(c, st.rid, st.t, st.eos).0.pending
      <==> st.rid == rid && LastToken(c.pending[rid], st)
  {
  }

  lemma LeavesByDrop(s: Sys, st: Step, rid: RequestId)
    requires Enabled(s, st) && (st.Fail? || st.Abort? || st.GiveUp?) && rid in s.core.pending
    ensures rid !in Next(s, st).core.pending <==> s.jobs[st.j].rid == rid
  {
  }

  // ---- what every run delivers ----

  ghost predicate Sound<H, K>(su: Setup<H, K>, p: Proto<H, K>)
    requires su.prompt != []
  {
    if p.pending.Some? then
      HopProtocol.Proper(p.pending.value.chain) && HopProtocol.Good(su, p.pending.value.chain, p)
    else p.delivered.Some? ==> HopProtocol.IsResult(su, p.delivered.value)
  }

  lemma NextSound<H, K>(su: Setup<H, K>, p: Proto<H, K>)
    requires su.prompt != [] && HopProtocol.MasksExact(su) && Sound(su, p)
    ensures Sound(su, HopProtocol.Next(su, p))
  {
    if p.pending.Some? {
      HopProtocol.NextKeepsGood(su, p.pending.value.chain, p);
    }
  }

  lemma EffectSound<H, K>(su: Setup<H, K>, rid: RequestId, s: Sys, st: Step, p: Proto<H, K>)
    requires su.prompt != [] && HopProtocol.MasksExact(su) && Sound(su, p)
    requires Enabled(s, st) && Honest(su, rid, s, st, p) && Mirrors(s.core, rid, p)
    ensures Sound(su, Effect(su, rid, s, st, p))
  {
    if st.Store? && st.rid == rid {
      HopProtocol.InitialGood(su, s.jobs[st.j].chain);
    } else if (st.HiddenBack? || st.TokenBack?) && st.rid == rid {
      NextSound(su, p);
      NextSound(su, HopProtocol.Next(su, p));
    } else if p.pending.Some? {
      assert p.delivered == None;
    }
  }

  lemma {:induction false} RunMirrors<H, K>(
    su: Setup<H, K>, rid: RequestId, states: seq<Sys>, steps: seq<Step>, k: nat)
    requires su.prompt != [] && HopProtocol.MasksExact(su)
    requires IsRun(states, steps) && AllHonest(su, rid, states, steps) && k <= |steps|
    ensures Fresh(states[k])
    ensures Mirrors(states[k].core, rid, After(su, rid, states, steps, k))
    ensures Sound(su, After(su, rid, states, steps, k))
  {
    if k > 0 {
      RunMirrors(su, rid, states, steps, k - 1);
      var s, st, p := states[k - 1], steps[k - 1], After(su, rid, states, steps, k - 1);
      assert Enabled(s, st) && states[k] == Next(s, st) && Honest(su, rid, s, st, p);
      StepKeepsFresh(s, st);
      StepMirrors(su, rid, s, st, p);
      EffectSound(su, rid, s, st, p);
    }
  }

  /** In every run of the coordinator, whatever other requests, nodes and clients do: as long as the
      request is stored its tokens are those of decoding on one machine and end before the limit, and what
      is delivered for it is the one result. */
  lemma EveryRunDeliversDecode<H, K>(su: Setup<H, K>, rid: RequestId, states: seq<Sys>, steps: seq<Step>, k: nat)
    requires su.prompt != [] && HopProtocol.MasksExact(su)
    requires IsRun(states, steps) && AllHonest(su, rid, states, steps) && k <= |steps|
    ensures var c := states[k].core;
      && (rid in c.pending ==> HopProtocol.SoFar(su, c.pending[rid].generated) && rid !in c.delivered)
      && (rid in c.delivered ==> HopProtocol.IsResult(su, c.delivered[rid]))
  {
    RunMirrors(su, rid, states, steps, k);
  }
}
