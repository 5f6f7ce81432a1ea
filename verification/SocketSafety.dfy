/** Over all interleavings of the handlers: a request whose current step is inside its chain waits on a
    node whose socket is open, or some handler is on its way to remove the request or to send to the node. */
module SocketSafety {
  import opened Wrappers
  import opened ServingClusters
  import opened Coordinator
  import opened Handlers

  /** The job will send to node n for the request, or remove the request. */
  predicate Attends(job: Job, rid: RequestId, n: NodeId) {
    || ((job.Sending? || job.Starting?) && job.rid == rid && job.target == n)
    || ((job.Failing? || job.Aborting?) && job.rid == rid)
    || (job.Closing? && job.node == n)
  }

  ghost predicate Attended(jobs: map<nat, Job>, rid: RequestId, n: NodeId) {
    exists j :: j in jobs && Attends(jobs[j], rid, n)
  }

  ghost predicate Leaving(jobs: map<nat, Job>, n: NodeId) {
    exists j :: j in jobs && jobs[j] == Closing(n, false)
  }

  /** Registered nodes have an open socket, or their clean-up has not reached the node map yet. */
  ghost predicate NodesConnected(s: Sys) {
    forall n :: n in s.core.nodes ==> n in s.sockets || Leaving(s.jobs, n)
  }

  ghost predicate Safe(s: Sys, rid: RequestId)
    requires rid in s.core.pending
  {
    var n := Target(s.core.pending[rid]);
    n.Some? ==> n.value in s.sockets || Attended(s.jobs, rid, n.value)
  }

  ghost predicate AllSafe(s: Sys) {
    NodesConnected(s) && forall rid :: rid in s.core.pending ==> Safe(s, rid)
  }

  /** A handler that was about to send or to remove its request vanishes with its client, while the
      request waits on a closed socket and nobody else attends to it. */
  ghost predicate Strands(s: Sys, st: Step) {
    && st.Vanish? && st.j in s.jobs && (s.jobs[st.j].Starting? || s.jobs[st.j].Aborting?)
    && s.jobs[st.j].rid in s.core.pending
    && StrandedOn(s, st.j, s.jobs[st.j].rid, Target(s.core.pending[s.jobs[st.j].rid]))
  }

  ghost predicate StrandedOn(s: Sys, j: nat, rid: RequestId, target: Option<NodeId>) {
    target.Some? && target.value !in s.sockets && !Attended(s.jobs - {j}, rid, target.value)
  }

  /** Changing one job leaves what the others attend to. */
  lemma OthersAttend(jobs: map<nat, Job>, j: nat, job: Job, rid: RequestId, n: NodeId)
    requires Attended(jobs, rid, n)
    requires j in jobs && Attends(jobs[j], rid, n) ==> Attends(job, rid, n)
    ensures Attended(jobs[j := job], rid, n)
  {
    var k :| k in jobs && Attends(jobs[k], rid, n);
    assert k in jobs[j := job] && Attends(jobs[j := job][k], rid, n);
  }

  lemma OthersAttendWithout(jobs: map<nat, Job>, j: nat, rid: RequestId, n: NodeId)
    requires Attended(jobs, rid, n)
    requires j in jobs ==> !Attends(jobs[j], rid, n)
    ensures Attended(jobs - {j}, rid, n)
  {
    var k :| k in jobs && Attends(jobs[k], rid, n);
    assert k in jobs - {j} && (jobs - {j})[k] == jobs[k];
  }

  lemma OthersLeave(jobs: map<nat, Job>, j: nat, job: Job, n: NodeId)
    requires Leaving(jobs, n) && (j in jobs && jobs[j] == Closing(n, false) ==> job == Closing(n, false))
    ensures Leaving(jobs[j := job], n)
  {
    var k :| k in jobs && jobs[k] == Closing(n, false);
    assert k in jobs[j := job] && jobs[j := job][k] == Closing(n, false);
  }

  lemma OthersLeaveWithout(jobs: map<nat, Job>, j: nat, n: NodeId)
    requires Leaving(jobs, n) && (j in jobs ==> jobs[j] != Closing(n, false))
    ensures Leaving(jobs - {j}, n)
  {
    var k :| k in jobs && jobs[k] == Closing(n, false);
    assert k in jobs - {j} && (jobs - {j})[k] == jobs[k];
  }

  /** The node map only changes on registration, reports and clean-up. */
  lemma NodesStay(s: Sys, st: Step)
    requires Enabled(s, st) && !st.DoRegister? && !st.Report? && !st.RemoveNode?
    ensures Next(s, st).core.nodes == s.core.nodes
  {
    if st.FailWaiting? {
      DropAllNodes(s.core, st.order);
    }
  }

  lemma {:induction false} DropAllNodes(c: Core, rids: seq<RequestId>)
    ensures DropAll(c, rids).nodes == c.nodes
    decreases |rids|
  {
    if rids != [] {
      DropAllNodes(Drop(c, rids[0]), rids[1..]);
    }
  }

  lemma StepKeepsNodes(s: Sys, st: Step)
    requires Enabled(s, st) && NodesConnected(s)
    ensures NodesConnected(Next(s, st))
  {
    var next := Next(s, st);
    if !st.DoRegister? && !st.Report? && !st.RemoveNode? {
      NodesStay(s, st);
    }
    forall n | n in next.core.nodes
      ensures n in next.sockets || Leaving(next.jobs, n)
    {
      if n !in next.sockets {
        if st.SocketCloses? && st.n == n {
          assert next.jobs[st.j] == Closing(n, false);
        } else {
          assert n in s.core.nodes && Leaving(s.jobs, n);
          LeavingStays(s, st, n);
        }
      }
    }
  }

  /** Only the clean-up itself takes a leaving node on. */
  lemma LeavingStays(s: Sys, st: Step, n: NodeId)
    requires Enabled(s, st) && Leaving(s.jobs, n) && !(st.RemoveNode? && s.jobs[st.j].node == n)
    ensures Leaving(Next(s, st).jobs, n)
  {
    var next := Next(s, st);
    if next.jobs != s.jobs {
      if st.j in next.jobs {
        assert next.jobs == s.jobs[st.j := next.jobs[st.j]];
        OthersLeave(s.jobs, st.j, next.jobs[st.j], n);
      } else {
        assert next.jobs == s.jobs - {st.j};
        OthersLeaveWithout(s.jobs, st.j, n);
      }
    }
  }

  /** The request's entry is written by this step. */
  predicate Writes(st: Step, rid: RequestId) {
    (st.Store? || st.HiddenBack? || st.TokenBack?) && st.rid == rid
  }

  lemma UnwrittenEntry(s: Sys, st: Step, rid: RequestId)
    requires Enabled(s, st) && !Writes(st, rid) && rid in Next(s, st).core.pending
    ensures rid in s.core.pending && Next(s, st).core.pending[rid] == s.core.pending[rid]
    ensures st.FailWaiting? ==> Target(s.core.pending[rid]) != Some(s.jobs[st.j].node)
    ensures st.Fail? || st.Abort? || st.GiveUp? ==> s.jobs[st.j].rid != rid
  {
    if st.FailWaiting? {
      UnwrittenByFailing(s, st.j, st.order, rid);
    } else if st.Fail? || st.Abort? || st.GiveUp? {
      UnwrittenByDropping(s, st, rid);
    } else if st.HiddenBack? || st.TokenBack? || st.Store? {
      UnwrittenByAnother(s, st, rid);
    }
  }

  lemma UnwrittenByDropping(s: Sys, st: Step, rid: RequestId)
    requires Enabled(s, st) && (st.Fail? || st.Abort? || st.GiveUp?) && rid in Next(s, st).core.pending
    ensures rid in s.core.pending && Next(s, st).core.pending[rid] == s.core.pending[rid] && s.jobs[st.j].rid != rid
  {
  }

  lemma UnwrittenByAnother(s: Sys, st: Step, rid: RequestId)
    requires Enabled(s, st) && (st.HiddenBack? || st.TokenBack? || st.Store?) && st.rid != rid
    requires rid in Next(s, st).core.pending
    ensures rid in s.core.pending && Next(s, st).core.pending[rid] == s.core.pending[rid]
  {
  }

  lemma UnwrittenByFailing(s: Sys, j: nat, order: seq<RequestId>, rid: RequestId)
    requires j in s.jobs && s.jobs[j].Closing? && Lists(order, WaitingOn(s.core, s.jobs[j].node))
    requires rid in DropAll(s.core, order).pending
    ensures rid in s.core.pending && DropAll(s.core, order).pending[rid] == s.core.pending[rid]
    ensures Target(s.core.pending[rid]) != Some(s.jobs[j].node)
  {
    DropAllEntries(s.core, order);
    assert rid !in WaitingOn(s.core, s.jobs[j].node);
  }

  lemma {:induction false} DropAllEntries(c: Core, rids: seq<RequestId>)
    ensures forall rid :: rid in DropAll(c, rids).pending <==> rid in c.pending && rid !in rids
    ensures forall rid :: rid in DropAll(c, rids).pending ==> DropAll(c, rids).pending[rid] == c.pending[rid]
    decreases |rids|
  {
    if rids != [] {
      DropAllEntries(Drop(c, rids[0]), rids[1..]);
    }
  }

  /** A written entry comes with a handler that will send to its current hop. */
  lemma WrittenEntrySafe(s: Sys, st: Step, rid: RequestId)
    requires Enabled(s, st) && Writes(st, rid) && rid in Next(s, st).core.pending
    requires st.HiddenBack? || st.TokenBack? ==> rid in s.core.pending
    ensures Safe(Next(s, st), rid)
  {
    var next := Next(s, st);
    var n := Target(next.core.pending[rid]);
    if n.Some? {
      assert st.j in next.jobs && Attends(next.jobs[st.j], rid, n.value);
    }
  }

  lemma AttendedStays(s: Sys, st: Step, rid: RequestId, n: NodeId)
    requires Enabled(s, st) && Attended(s.jobs, rid, n) && !st.Vanish?
    requires st.Sent? ==> !Attends(s.jobs[st.j], rid, n)
    requires st.Fail? || st.Abort? ==> s.jobs[st.j].rid != rid
    requires st.FailWaiting? ==> s.jobs[st.j].node != n
    ensures Attended(Next(s, st).jobs, rid, n)
  {
    var next := Next(s, st);
    if next.jobs != s.jobs {
      if st.j in next.jobs {
        assert next.jobs == s.jobs[st.j := next.jobs[st.j]];
        OthersAttend(s.jobs, st.j, next.jobs[st.j], rid, n);
      } else {
        assert next.jobs == s.jobs - {st.j};
        OthersAttendWithout(s.jobs, st.j, rid, n);
      }
    }
  }

  lemma UnwrittenEntrySafe(s: Sys, st: Step, rid: RequestId)
    requires Enabled(s, st) && !st.Vanish? && AllSafe(s) && !Writes(st, rid) && rid in Next(s, st).core.pending
    ensures Safe(Next(s, st), rid)
  {
    UnwrittenEntry(s, st, rid);
    var next := Next(s, st);
    var target := Target(s.core.pending[rid]);
    assert Safe(s, rid);
    if target.Some? && target.value !in next.sockets {
      var n := target.value;
      if n in s.sockets {
        assert st.j in next.jobs && Attends(next.jobs[st.j], rid, n);
      } else if st.Sent? && Attends(s.jobs[st.j], rid, n) {
        SentToRegistered(s, st.j, rid, n);
      } else {
        AttendedStays(s, st, rid, n);
      }
    }
  }

  /** A message that went out went to a registered node; if its socket is no longer open, its clean-up is due. */
  lemma SentToRegistered(s: Sys, j: nat, rid: RequestId, n: NodeId)
    requires Enabled(s, Sent(j)) && NodesConnected(s) && Attends(s.jobs[j], rid, n) && n !in s.sockets
    ensures Attended(Next(s, Sent(j)).jobs, rid, n)
  {
    var k :| k in s.jobs && s.jobs[k] == Closing(n, false);
    var next := Next(s, Sent(j));
    assert k in next.jobs && next.jobs[k] == Closing(n, false);
  }

  lemma StepKeepsSafe(s: Sys, st: Step)
    requires AllSafe(s) && Enabled(s, st) && !st.Vanish?
    ensures AllSafe(Next(s, st))
  {
    StepKeepsNodes(s, st);
    forall rid | rid in Next(s, st).core.pending ensures Safe(Next(s, st), rid) {
      if Writes(st, rid) {
        WrittenEntrySafe(s, st, rid);
      } else {
        UnwrittenEntrySafe(s, st, rid);
      }
    }
  }

  /** What a vanished handler attended to is the only request that may be stranded. */
  lemma VanishedSafeIff(s: Sys, j: nat)
    requires AllSafe(s) && Enabled(s, Vanish(j))
    ensures AllSafe(Next(s, Vanish(j))) <==> !Strands(s, Vanish(j))
  {
    var next, job := Next(s, Vanish(j)), s.jobs[j];
    StepKeepsNodes(s, Vanish(j));
    if Strands(s, Vanish(j)) {
      assert !Safe(next, job.rid);
    } else {
      forall rid | rid in next.core.pending ensures Safe(next, rid) {
        OthersStaySafe(s, j, rid);
      }
    }
  }

  lemma OthersStaySafe(s: Sys, j: nat, rid: RequestId)
    requires AllSafe(s) && Enabled(s, Vanish(j)) && !Strands(s, Vanish(j)) && rid in s.core.pending
    ensures Safe(Next(s, Vanish(j)), rid)
  {
    assert Safe(s, rid);
    var target := Target(s.core.pending[rid]);
    if target.Some? && target.value !in s.sockets && !Attends(s.jobs[j], rid, target.value) {
      OthersAttendWithout(s.jobs, j, rid, target.value);
    }
  }

  /** Every step keeps all requests safe, unless it strands one. */
  lemma StepSafeIff(s: Sys, st: Step)
    requires AllSafe(s) && Enabled(s, st)
    ensures AllSafe(Next(s, st)) <==> !Strands(s, st)
  {
    if st.Vanish? {
      VanishedSafeIff(s, st.j);
    } else {
      StepKeepsSafe(s, st);
    }
  }

  ghost predicate StrandsNobody(states: seq<Sys>, steps: seq<Step>)
    requires |states| == |steps| + 1
  {
    forall k :: 0 <= k < |steps| ==> !Strands(states[k], steps[k])
  }

  /** In every reachable state, whatever was sent, lost, re-registered or closed on the way and unless a
      vanished handler stranded a request: when no handler is busy with a request and no disconnect
      clean-up is under way, a request whose step is inside its chain waits on a node whose socket is open. */
  lemma {:induction false} PendingWaitsOnOpenSocket(states: seq<Sys>, steps: seq<Step>)
    requires IsRun(states, steps) && StrandsNobody(states, steps)
    ensures var s := states[|steps|];
      && AllSafe(s)
      && forall rid :: rid in s.core.pending ==> match Target(s.core.pending[rid])
           case Some(n) => !Attended(s.jobs, rid, n) ==> n in s.sockets
           case None => true
    decreases |steps|
  {
    var last := |steps| - 1;
    if steps != [] {
      assert states[..|steps|][last] == states[last];
      PendingWaitsOnOpenSocket(states[..|steps|], steps[..last]);
      StepSafeIff(states[last], steps[last]);
    }
    var s := states[|steps|];
    assert forall rid :: rid in s.core.pending ==> Safe(s, rid);
  }
}
