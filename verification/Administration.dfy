/** What happens to jobs around their runs: creation, recovery of stuck jobs, cancellation, retries, and
    the cursors an incremental run is given. */
module Administration {
  import opened Cursors
  import opened MigrationProtocol

  /** Everything but the jobs is as it was. */
  predicate OnlyJobsMoved(s: Sys, s': Sys) { s' == s.(jobs := s'.jobs) && s'.jobs.Keys == s.jobs.Keys }

  /** After a restart no job is RUNNING: exactly those that were are FAILED, with their ledgers, checkpoints
      and counters, and nothing else has changed. */
  lemma RecoveryFailsStuckJobs(s: Sys)
    ensures var s' := Apply(s, RecoverStuck);
            && OnlyJobsMoved(s, s')
            && (forall j :: j in s.jobs ==>
                  && s'.jobs[j].row.status != Running
                  && (s.jobs[j].row.status != Running ==> s'.jobs[j] == s.jobs[j])
                  && (s.jobs[j].row.status == Running ==>
                        s'.jobs[j] == s.jobs[j].(row := s.jobs[j].row.(status := Failed))))
  {
    var s' := Apply(s, RecoverStuck);
    forall j | j in s.jobs ensures s'.jobs[j] == FailIfRunning(s.jobs[j]) {}
  }

  /** Recovering twice is recovering once. */
  lemma RecoveryOnce(s: Sys)
    requires forall j :: j in s.jobs ==> s.jobs[j].row.status != Running
    ensures Apply(s, RecoverStuck) == s
  {
    assert Apply(s, RecoverStuck).jobs == s.jobs;
  }

  /** Cancelling takes exactly the PENDING jobs, and a retry sets any job back to PENDING; either changes
      the status of that one job and nothing else. */
  lemma StatusOfOneJob(s: Sys, j: JobId)
    ensures j !in s.jobs ==> Apply(s, CancelPending(j)) == s && Apply(s, Requeue(j)) == s
    ensures j in s.jobs && s.jobs[j].row.status != Pending ==> Apply(s, CancelPending(j)) == s
    ensures j in s.jobs && s.jobs[j].row.status == Pending ==>
              Apply(s, CancelPending(j)) ==
              s.(jobs := s.jobs[j := s.jobs[j].(row := s.jobs[j].row.(status := Cancelled))])
    ensures j in s.jobs ==>
              Apply(s, Requeue(j)) == s.(jobs := s.jobs[j := s.jobs[j].(row := s.jobs[j].row.(status := Pending))])
  {
  }

  /** A new job is PENDING, with nothing counted, recorded or marked, and a name is taken once. */
  lemma CreationStartsEmpty(s: Sys, j: JobId, incremental: bool, maxErrors: int)
    ensures var s' := Apply(s, Create(j, incremental, maxErrors));
            && j in s'.jobs && s' == s.(jobs := s.jobs[j := s'.jobs[j]])
            && (j in s.jobs ==> s'.jobs[j] == s.jobs[j])
            && (j !in s.jobs ==>
                  && s'.jobs[j].row.status == Pending
                  && s'.jobs[j].row.ledger == {} && s'.jobs[j].row.checkpoints == map[]
                  && s'.jobs[j].row.migrated == s'.jobs[j].row.skipped == s'.jobs[j].row.failed == 0
                  && s'.jobs[j].incremental == incremental && s'.jobs[j].maxErrors == maxErrors)
  {
    if j in s.jobs { assert s.jobs[j := s.jobs[j]] == s.jobs; }
  }

  // ---------------------------------------------------------------- the cursors of an incremental run

  /** A worker starts unless its name is taken, its job does not exist, or its job is incremental on a base
      job that is missing or not COMPLETED; in those cases nothing changes. */
  lemma StartsExactly(s: Sys, w: Wid, j: JobId, plan: seq<Col>, base: Option<JobId>)
    ensures var s' := Apply(s, Start(w, j, plan, base));
            var noBase := j in s.jobs && s.jobs[j].incremental && base.Some?
                          && (base.value !in s.jobs || s.jobs[base.value].row.status != Completed);
            if w in s.workers || j !in s.jobs || noBase then s' == s
            else
              && w in s'.workers && s' == s.(workers := s.workers[w := s'.workers[w]])
              && FreshOn(s'.workers[w], j, plan) && CursorsFor(s, j, base, s'.workers[w].cursors)
  {
  }

  /** About to make its first call, with nothing done. */
  predicate FreshOn(r: Worker, j: JobId, plan: seq<Col>) {
    && r.job == j && r.plan == plan && r.pc == Load && !r.crashed
    && r.runFailures == r.pulled == r.passedOver == r.migrated == r.skipped == 0 && r.spans == []
  }

  /** The cursors a run of job j gets: none in full mode, the shared ones without a base job, and
      otherwise the checkpoints of a base job that is COMPLETED. */
  predicate CursorsFor(s: Sys, j: JobId, base: Option<JobId>, cursors: map<Col, Id>) {
    && j in s.jobs
    && (!s.jobs[j].incremental ==> cursors == map[])
    && (s.jobs[j].incremental && base.None? ==> cursors == s.cursors)
    && (s.jobs[j].incremental && base.Some? ==>
          && base.value in s.jobs && s.jobs[base.value].row.status == Completed
          && cursors == s.jobs[base.value].row.checkpoints)
  }

  /** Action n started worker w, with the cursors that were right then. */
  ghost predicate StartedAt(source: map<Col, seq<Item>>, acts: seq<Action>, n: nat, w: Wid, r: Worker) {
    && n < |acts| && acts[n].Start? && acts[n].w == w && acts[n].j == r.job && acts[n].plan == r.plan
    && CursorsFor(Execute(Initial(source), acts[..n]), r.job, acts[n].base, r.cursors)
  }

  /** In every history every worker was started by some action, keeps the plan it was started with, and
      uses the cursors that were right at that moment, whatever has happened to the shared cursors, the
      base job and its own job since. */
  lemma {:induction false} CursorsResolvedAtStart(source: map<Col, seq<Item>>, acts: seq<Action>, w: Wid)
    returns (n: nat)
    requires w in Execute(Initial(source), acts).workers
    ensures StartedAt(source, acts, n, w, Execute(Initial(source), acts).workers[w])
  {
    var k := |acts| - 1;
    var t, a := Execute(Initial(source), acts[..k]), acts[k];
    if w in t.workers {
      n := CursorsResolvedAtStart(source, acts[..k], w);
      assert acts[..k][..n] == acts[..n];
      KeepsItsStart(t, a, w);
    } else {
      n := k;
      NewFromStart(t, a, w);
    }
  }

  lemma KeepsItsStart(t: Sys, a: Action, w: Wid)
    requires w in t.workers
    ensures var t' := Apply(t, a);
            w in t'.workers && t'.workers[w].job == t.workers[w].job
            && t'.workers[w].plan == t.workers[w].plan && t'.workers[w].cursors == t.workers[w].cursors
  {
    if !a.Work? {
      OtherActionsAreSteady(t, a);
      assert SameButCrashed(t.workers[w], Apply(t, a).workers[w]);
    } else if a.w == w && !t.workers[w].crashed && t.workers[w].job in t.jobs {
      StepKeepsIdentity(ViewOf(t, w), t.source, a.ch);
    }
  }

  lemma NewFromStart(t: Sys, a: Action, w: Wid)
    requires w !in t.workers && w in Apply(t, a).workers
    ensures a.Start? && a.w == w
    ensures var r := Apply(t, a).workers[w];
            r.job == a.j && r.plan == a.plan && CursorsFor(t, r.job, a.base, r.cursors)
  {
    if !a.Work? {
      OtherActionsAreSteady(t, a);
      assert IsNewWorker(t, a, w, Apply(t, a).workers[w]);
    }
  }
}
