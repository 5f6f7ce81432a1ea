/** Over all interleavings of the handlers: every stored request has exactly one handler that waits with its
    client, so it is answered or given up; only a handler that vanishes leaves one behind. */
module ClientHandlers {
  import opened Wrappers
  import opened Coordinator
  import opened Handlers
  import SocketSafety
  import RequestRuns

  /** The handler that the request's client waits on. */
  predicate Serves(job: Job, rid: RequestId) {
    (job.Starting? || job.Aborting? || job.Waiting?) && job.rid == rid
  }

  ghost predicate Served(jobs: map<nat, Job>, rid: RequestId) {
    exists j :: j in jobs && Serves(jobs[j], rid)
  }

  ghost predicate AllServed(s: Sys) { forall rid :: rid in s.core.pending ==> Served(s.jobs, rid) }

  /** Handlers serve requests that were stored, no two of them the same one, and what is delivered is no
      longer stored. */
  ghost predicate Orderly(s: Sys) {
    && RequestRuns.Fresh(s)
    && (forall j :: j in s.jobs ==> Known(s.jobs[j], s.used))
    && (forall j, k :: j in s.jobs && k in s.jobs && j != k ==> Apart(s.jobs[j], s.jobs[k]))
    && (forall rid :: rid in s.core.delivered ==> rid !in s.core.pending)
  }

  predicate Known(job: Job, used: set<RequestId>) {
    job.Starting? || job.Aborting? || job.Waiting? ==> job.rid in used
  }

  ghost predicate Apart(a: Job, b: Job) { forall rid :: !(Serves(a, rid) && Serves(b, rid)) }

  // ---- keeping order ----

  /** What a step does to the jobs: the one it takes on changes, comes or goes. */
  lemma OneJob(s: Sys, st: Step)
    requires Enabled(s, st)
    ensures var next := Next(s, st);
      || next.jobs == s.jobs
      || (st.j in next.jobs && next.jobs == s.jobs[st.j := next.jobs[st.j]])
      || (st.j !in next.jobs && next.jobs == s.jobs - {st.j})
  {
  }

  /** A handler keeps its request, or takes on one that was never used. */
  lemma JobServes(s: Sys, st: Step, rid: RequestId)
    requires Enabled(s, st) && Next(s, st).jobs != s.jobs && st.j in Next(s, st).jobs
    requires Serves(Next(s, st).jobs[st.j], rid)
    ensures (st.j in s.jobs && Serves(s.jobs[st.j], rid)) || (st.Store? && st.rid == rid && rid !in s.used)
    ensures rid in Next(s, st).used || (st.j in s.jobs && Serves(s.jobs[st.j], rid))
  {
  }

  lemma UsedGrows(s: Sys, st: Step)
    requires Enabled(s, st)
    ensures s.used <= Next(s, st).used
  {
  }

  lemma StepKeepsKnown(s: Sys, st: Step)
    requires Enabled(s, st) && Orderly(s)
    ensures forall j :: j in Next(s, st).jobs ==> Known(Next(s, st).jobs[j], Next(s, st).used)
  {
    var next := Next(s, st);
    OneJob(s, st);
    UsedGrows(s, st);
    forall j | j in next.jobs ensures Known(next.jobs[j], next.used) {
      if j in s.jobs {
        assert Known(s.jobs[j], s.used);
      }
      if next.jobs != s.jobs && j == st.j && !(j in s.jobs && next.jobs[j] == s.jobs[j]) {
        NewJobKnown(s, st);
      }
    }
  }

  lemma NewJobKnown(s: Sys, st: Step)
    requires Enabled(s, st) && Orderly(s) && Next(s, st).jobs != s.jobs && st.j in Next(s, st).jobs
    ensures Known(Next(s, st).jobs[st.j], Next(s, st).used)
  {
    var job := Next(s, st).jobs[st.j];
    if job.Starting? || job.Aborting? || job.Waiting? {
      JobServes(s, st, job.rid);
      UsedGrows(s, st);
      if st.j in s.jobs {
        assert Known(s.jobs[st.j], s.used);
      }
    }
  }

  lemma StepKeepsApart(s: Sys, st: Step)
    requires Enabled(s, st) && Orderly(s)
    ensures var jobs := Next(s, st).jobs;
      forall j, k :: j in jobs && k in jobs && j != k ==> Apart(jobs[j], jobs[k])
  {
    var next := Next(s, st);
    OneJob(s, st);
    if next.jobs != s.jobs && st.j in next.jobs {
      forall k | k in s.jobs && k != st.j
        ensures Apart(next.jobs[st.j], s.jobs[k]) && Apart(s.jobs[k], next.jobs[st.j])
      {
        NewJobApart(s, st, k);
      }
    }
  }

  lemma NewJobApart(s: Sys, st: Step, k: nat)
    requires Enabled(s, st) && Orderly(s) && Next(s, st).jobs != s.jobs && st.j in Next(s, st).jobs
    requires k in s.jobs && k != st.j
    ensures Apart(Next(s, st).jobs[st.j], s.jobs[k]) && Apart(s.jobs[k], Next(s, st).jobs[st.j])
  {
    assert Known(s.jobs[k], s.used) && (st.j in s.jobs ==> Apart(s.jobs[st.j], s.jobs[k]));
    forall rid ensures !(Serves(Next(s, st).jobs[st.j], rid) && Serves(s.jobs[k], rid)) {
      if Serves(Next(s, st).jobs[st.j], rid) {
        JobServes(s, st, rid);
      }
    }
  }

  lemma StepKeepsDelivered(s: Sys, st: Step)
    requires Enabled(s, st) && Orderly(s)
    ensures forall rid :: rid in Next(s, st).core.delivered ==> rid !in Next(s, st).core.pending
  {
    var next := Next(s, st);
    forall rid | rid in next.core.delivered ensures rid !in next.core.pending {
      if !SocketSafety.Writes(st, rid) {
        RequestRuns.DeliveredStays(s, st, rid);
        if rid in next.core.pending {
          SocketSafety.UnwrittenEntry(s, st, rid);
        }
      } else if !st.TokenBack? {
        RequestRuns.DeliveredStays(s, st, rid);
      }
    }
  }

  lemma StepKeepsOrderly(s: Sys, st: Step)
    requires Enabled(s, st) && Orderly(s)
    ensures Orderly(Next(s, st))
  {
    RequestRuns.StepKeepsFresh(s, st);
    StepKeepsKnown(s, st);
    StepKeepsApart(s, st);
    StepKeepsDelivered(s, st);
  }

  // ---- nobody is left behind ----

  /** A handler that vanishes while its request is stored. */
  predicate Orphans(s: Sys, st: Step) {
    && st.Vanish? && st.j in s.jobs && (s.jobs[st.j].Starting? || s.jobs[st.j].Aborting? || s.jobs[st.j].Waiting?)
    && s.jobs[st.j].rid in s.core.pending
  }

  /** A handler that stops, other than by vanishing, leaves no request stored. */
  lemma StopsWithRequest(s: Sys, st: Step, rid: RequestId)
    requires Enabled(s, st) && Orderly(s) && !Orphans(s, st) && Next(s, st).jobs != s.jobs
    requires st.j in s.jobs && Serves(s.jobs[st.j], rid) && rid in Next(s, st).core.pending
    ensures st.j in Next(s, st).jobs && Serves(Next(s, st).jobs[st.j], rid)
  {
  }

  lemma StillServed(s: Sys, st: Step, rid: RequestId)
    requires Enabled(s, st) && Orderly(s) && !Orphans(s, st)
    requires Served(s.jobs, rid) && rid in Next(s, st).core.pending
    ensures Served(Next(s, st).jobs, rid)
  {
    var next := Next(s, st);
    var k :| k in s.jobs && Serves(s.jobs[k], rid);
    if next.jobs != s.jobs && k == st.j {
      StopsWithRequest(s, st, rid);
    } else {
      OtherJob(s, st, k);
    }
    assert k in next.jobs && Serves(next.jobs[k], rid);
  }

  lemma OtherJob(s: Sys, st: Step, k: nat)
    requires Enabled(s, st) && k in s.jobs && (Next(s, st).jobs != s.jobs ==> k != st.j)
    ensures k in Next(s, st).jobs && Next(s, st).jobs[k] == s.jobs[k]
  {
    OneJob(s, st);
  }

  /** Every step keeps every stored request served, unless it is a handler vanishing whose request is stored. */
  lemma StepServedIff(s: Sys, st: Step)
    requires Enabled(s, st) && Orderly(s) && AllServed(s)
    ensures AllServed(Next(s, st)) <==> !Orphans(s, st)
  {
    if Orphans(s, st) {
      NobodyElse(s, st.j);
    } else {
      forall rid | rid in Next(s, st).core.pending ensures Served(Next(s, st).jobs, rid) {
        if st.Store? && st.rid == rid {
          assert Serves(Next(s, st).jobs[st.j], rid);
        } else {
          StoredBefore(s, st, rid);
          StillServed(s, st, rid);
        }
      }
    }
  }

  lemma StoredBefore(s: Sys, st: Step, rid: RequestId)
    requires Enabled(s, st) && rid in Next(s, st).core.pending && !(st.Store? && st.rid == rid)
    ensures rid in s.core.pending
  {
    if !SocketSafety.Writes(st, rid) {
      SocketSafety.UnwrittenEntry(s, st, rid);
    }
  }

  lemma NobodyElse(s: Sys, j: nat)
    requires Orderly(s) && j in s.jobs && (s.jobs[j].Starting? || s.jobs[j].Aborting? || s.jobs[j].Waiting?)
    ensures !Served(s.jobs - {j}, s.jobs[j].rid)
  {
    var rid := s.jobs[j].rid;
    forall k | k in s.jobs - {j} ensures !Serves((s.jobs - {j})[k], rid) {
      assert Apart(s.jobs[j], s.jobs[k]);
      assert Serves(s.jobs[j], rid);
    }
  }

  /** In every run in which no handler vanishes from a stored request: each stored request has a handler that
      serves it, and only one. */
  lemma {:induction false} EveryRequestIsServed(states: seq<Sys>, steps: seq<Step>)
    requires IsRun(states, steps) && forall k :: 0 <= k < |steps| ==> !Orphans(states[k], steps[k])
    ensures var s := states[|steps|];
      Orderly(s) && forall rid :: rid in s.core.pending ==> Served(s.jobs, rid)
    decreases |steps|
  {
    var last := |steps| - 1;
    if steps != [] {
      assert states[..|steps|][last] == states[last];
      EveryRequestIsServed(states[..|steps|], steps[..last]);
      assert Enabled(states[last], steps[last]) && states[|steps|] == Next(states[last], steps[last]);
      StepKeepsOrderly(states[last], steps[last]);
      StepServedIff(states[last], steps[last]);
    }
  }
}
