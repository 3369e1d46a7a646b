/** What each request does to the runs of the job manager, over all its histories: which runs are told to
    stop, which are admitted, and which failed runs are tried again. */
module JobSignals {
  import opened Cursors
  import opened JobManager

  predicate Signalled(m: Manager, run: RunId) {
    run in m.live && m.live[run] in m.stopEvents && m.stopEvents[m.live[run]]
  }

  predicate HasRun(m: Manager, job: JobId) { job in m.live.Values }

  lemma RunsAreFutures(m: Manager, job: JobId)
    requires BookOk(m)
    ensures HasRun(m, job) <==> job in m.futures
    ensures HasRun(m, job) <==> job in m.stopEvents
    ensures HasRun(m, job) <==> job in m.contexts
    ensures job in m.futures ==> m.futures[job] in m.live
  {
    if job in m.futures { assert m.live[m.futures[job]] == job; }
  }

  // ---------------------------------------------------------------- who is told to stop

  /** Someone cancelled the job while this run of it was live. */
  ghost predicate CancelledWhileLive(acts: seq<Action>, run: RunId, job: JobId) {
    exists k :: 0 <= k < |acts| && acts[k] == Cancel(job) && LiveAt(acts, k, run)
  }

  predicate LiveAt(acts: seq<Action>, k: nat, run: RunId) {
    k <= |acts| && run in Execute(EMPTY, acts[..k]).live
  }

  lemma CancelledOneMore(acts: seq<Action>, run: RunId, job: JobId)
    requires acts != []
    ensures var front, last := acts[..|acts| - 1], acts[|acts| - 1];
            CancelledWhileLive(acts, run, job) <==>
            CancelledWhileLive(front, run, job) || (last == Cancel(job) && run in Execute(EMPTY, front).live)
  {
    var front, n := acts[..|acts| - 1], |acts| - 1;
    if k :| 0 <= k < |acts| && acts[k] == Cancel(job) && LiveAt(acts, k, run) {
      if k < n { SameBefore(acts, k, run); }
    }
    if k :| 0 <= k < n && front[k] == Cancel(job) && LiveAt(front, k, run) { SameBefore(acts, k, run); }
    assert LiveAt(acts, n, run) == (run in Execute(EMPTY, front).live);
  }

  lemma SameBefore(acts: seq<Action>, k: nat, run: RunId)
    requires k < |acts| - 1
    ensures var front := acts[..|acts| - 1]; LiveAt(front, k, run) == LiveAt(acts, k, run) && front[k] == acts[k]
  {
    assert acts[..|acts| - 1][..k] == acts[..k];
  }

  /** What one action does to the signal of a run that is live after it. */
  lemma SignalStep(m: Manager, a: Action, run: RunId)
    requires BookOk(m) && run in Apply(m, a).live
    ensures var m' := Apply(m, a);
            && (run in m.live ==> m'.live[run] == m.live[run])
            && (run in m.live ==> (Signalled(m', run) <==> Signalled(m, run) || a == Cancel(m.live[run])))
            && (run !in m.live ==> run == m.nextRun && !Signalled(m', run) && !a.Cancel?)
  {
    match a {
      case NewSubmission(job, maxRetries) => SubmissionSignals(m, job, maxRetries, run);
      case RunEnds(ended, excepted) => if ended in m.live { EndingSignals(m, ended, excepted, run); }
      case TimerFires(chain) => if chain in m.timers { RetrySignals(m, chain, run); }
      case Cancel(job) => CancelSignals(m, job, run);
      case StartDraining =>
      case StatusChanges(_, _) =>
    }
  }

  lemma CancelSignals(m: Manager, job: JobId, run: RunId)
    requires BookOk(m) && run in CancelJob(m, job).live
    ensures var m' := CancelJob(m, job);
            run in m.live && m'.live == m.live && (Signalled(m', run) <==> Signalled(m, run) || job == m.live[run])
  {
  }

  lemma SubmitSignals(m: Manager, job: JobId, c: Context, run: RunId)
    requires BookOk(m) && Submit(m, job, c).Accepted? && run in Submit(m, job, c).m.live
    ensures var m' := Submit(m, job, c).m;
            if run == m.nextRun then run !in m.live && !Signalled(m', run)
            else run in m.live && m'.live[run] == m.live[run] && Signalled(m', run) == Signalled(m, run)
  {
  }

  lemma SubmissionSignals(m: Manager, job: JobId, maxRetries: int, run: RunId)
    requires BookOk(m) && run in SubmitNew(m, job, maxRetries).live
    ensures var m' := SubmitNew(m, job, maxRetries);
            if run !in m.live then run == m.nextRun && !Signalled(m', run)
            else m'.live[run] == m.live[run] && Signalled(m', run) == Signalled(m, run)
  {
    var c := Context(maxRetries, 0, |m.chains|);
    if Submit(m, job, c).Accepted? { SubmitSignals(m, job, c, run); }
  }

  lemma EndingSignals(m: Manager, ended: RunId, excepted: bool, run: RunId)
    requires BookOk(m) && ended in m.live && run in Finish(m, ended, excepted).live
    ensures var m' := Finish(m, ended, excepted);
            run in m.live && m'.live[run] == m.live[run] && Signalled(m', run) == Signalled(m, run)
  {
    EndedRunIsGone(m, ended, excepted);
  }

  lemma RetrySignals(m: Manager, chain: ChainId, run: RunId)
    requires BookOk(m) && chain in m.timers && run in ScheduleRetry(m, chain).live
    ensures var m' := ScheduleRetry(m, chain);
            if run !in m.live then run == m.nextRun && !Signalled(m', run)
            else m'.live[run] == m.live[run] && Signalled(m', run) == Signalled(m, run)
  {
    var t := m.timers[chain];
    var p := m.(timers := m.timers - {chain});
    var q := if t.job in p.statuses then p.(statuses := p.statuses[t.job := Pending]) else p;
    if Submit(q, t.job, t.context).Accepted? { SubmitSignals(q, t.job, t.context, run); }
  }

  /** In every history the stop event of a live run is set if and only if its job was cancelled while
      that run was live: a cancel reaches the run there is and stays until that run ends, a run is
      admitted unsignalled, and nothing that is done to other jobs signals it or takes the signal back. */
  lemma {:induction false} SignalledExactly(acts: seq<Action>, run: RunId)
    requires run in Execute(EMPTY, acts).live
    ensures var m := Execute(EMPTY, acts); Signalled(m, run) <==> CancelledWhileLive(acts, run, m.live[run])
  {
    var front, last := acts[..|acts| - 1], acts[|acts| - 1];
    var m := Execute(EMPTY, front);
    BookAlways(front);
    SignalStep(m, last, run);
    CancelledOneMore(acts, run, Execute(EMPTY, acts).live[run]);
    if run in m.live { SignalledExactly(front, run); }
    else { NotLiveBefore(front, run, Execute(EMPTY, acts).live[run]); }
  }

  /** A run that is about to be admitted was never live before. */
  lemma NotLiveBefore(acts: seq<Action>, run: RunId, job: JobId)
    requires run == Execute(EMPTY, acts).nextRun
    ensures !CancelledWhileLive(acts, run, job)
  {
    forall k: nat | k < |acts| ensures !LiveAt(acts, k, run) {
      assert acts[..k] + acts[k..] == acts;
      NumbersGrow(acts, k);
      BookAlways(acts[..k]);
    }
  }

  lemma {:induction false} NumbersGrow(acts: seq<Action>, k: nat)
    requires k <= |acts|
    ensures Execute(EMPTY, acts[..k]).nextRun <= Execute(EMPTY, acts).nextRun
  {
    if k == |acts| {
      assert acts[..k] == acts;
    } else {
      var front := acts[..|acts| - 1];
      assert front[..k] == acts[..k];
      NumbersGrow(front, k);
      NumberStep(Execute(EMPTY, front), acts[|acts| - 1]);
    }
  }

  lemma NumberStep(m: Manager, a: Action)
    ensures m.nextRun <= Apply(m, a).nextRun
  {
    match a {
      case NewSubmission(_, _) => case RunEnds(_, _) => case TimerFires(_) =>
      case Cancel(_) => case StartDraining => case StatusChanges(_, _) =>
    }
  }

  /** A cancel tells the job's live run to stop and does nothing else. Without a live run it turns a PENDING
      job CANCELLED and leaves every other one as it is. */
  lemma CancelExactly(acts: seq<Action>, job: JobId)
    ensures var m := Execute(EMPTY, acts);
            var m' := Apply(m, Cancel(job));
            && m' == m.(stopEvents := m'.stopEvents, statuses := m'.statuses)
            && (HasRun(m, job) ==> m'.statuses == m.statuses && m'.stopEvents == m.stopEvents[job := true])
            && (!HasRun(m, job) ==> m'.stopEvents == m.stopEvents)
            && (!HasRun(m, job) && job in m.statuses && m.statuses[job] == Pending ==>
                  m'.statuses == m.statuses[job := Cancelled])
            && (!HasRun(m, job) && (job !in m.statuses || m.statuses[job] != Pending) ==> m'.statuses == m.statuses)
  {
    BookAlways(acts);
    RunsAreFutures(Execute(EMPTY, acts), job);
  }

  // ---------------------------------------------------------------- who is admitted

  /** A submission is admitted if and only if the manager accepts work and the job has no live run; it then
      is a first attempt, with its stop event unset, and otherwise nothing changes. */
  lemma AdmittedExactly(acts: seq<Action>, job: JobId, maxRetries: int)
    ensures var m := Execute(EMPTY, acts);
            var m' := Apply(m, NewSubmission(job, maxRetries));
            if m.accepting && !HasRun(m, job)
            then m'.live == m.live[m.nextRun := job] && m.nextRun !in m.live
                 && m'.stopEvents == m.stopEvents[job := false] && m'.timers == m.timers && m'.statuses == m.statuses
                 && m'.contexts == m.contexts[job := Context(maxRetries, 0, |m.chains|)]
            else m' == m
  {
    BookAlways(acts);
    RunsAreFutures(Execute(EMPTY, acts), job);
  }

  lemma EndedRunIsGone(m: Manager, run: RunId, excepted: bool)
    requires BookOk(m) && run in m.live
    ensures var m', job := Finish(m, run, excepted), m.live[run];
            && m'.live == m.live - {run} && m'.stopEvents == m.stopEvents - {job} && m'.futures == m.futures - {job}
            && m'.contexts == m.contexts - {job} && m'.statuses == m.statuses && m'.accepting == m.accepting
  {
  }

  /** The context of a live run: which attempt it is and how many retries it was given. */
  function ContextOf(m: Manager, run: RunId): Context
    requires run in m.live && m.live[run] in m.contexts
  {
    m.contexts[m.live[run]]
  }

  /** A run that ends is forgotten. It is tried again if and only if it ended without an exception, its job
      is FAILED and fewer than `max_retries` retries were made; the next attempt then waits 30 seconds,
      twice as long after each further failure, but never more than 300. */
  lemma RetriedExactly(acts: seq<Action>, run: RunId, excepted: bool)
    requires run in Execute(EMPTY, acts).live
    ensures var m := Execute(EMPTY, acts);
            var m' := Apply(m, RunEnds(run, excepted));
            var job := m.live[run];
            && job in m.contexts && ContextOf(m, run).chain < |m.chains|
            && m'.live == m.live - {run} && !HasRun(m', job) && m'.statuses == m.statuses
            && (var c := ContextOf(m, run);
                var next := if 30 * Pow2(c.attempt) < 300 then 30 * Pow2(c.attempt) else 300;
                if !excepted && job in m.statuses && m.statuses[job] == Failed && c.attempt < c.maxRetries
                then m'.timers == m.timers[c.chain := Timer(job, Context(c.maxRetries, c.attempt + 1, c.chain))]
                     && m'.chains[c.chain].delays == m.chains[c.chain].delays + [next]
                else m'.timers == m.timers && m'.chains == m.chains)
  {
    ChainsAlways(acts);
    var m := Execute(EMPTY, acts);
    var job := m.live[run];
    assert RunningOk(m.chains, m.timers, m.contexts[job]);
    EndedRunIsGone(m, run, excepted);
    RunsAreFutures(m, job);
    FinishPlan(m, run, excepted);
    ApplyKeepsBook(m, RunEnds(run, excepted));
    RunsAreFutures(Apply(m, RunEnds(run, excepted)), job);
  }

  /** A retry that falls due does nothing once draining. Otherwise its job is PENDING, and it runs again
      as that attempt, with its stop event unset, if and only if the job has no live run. */
  lemma RetryRunsExactly(acts: seq<Action>, chain: ChainId)
    requires chain in Execute(EMPTY, acts).timers
    ensures var m := Execute(EMPTY, acts);
            var m' := Apply(m, TimerFires(chain));
            var t := m.timers[chain];
            && m'.timers == m.timers - {chain}
            && (!m.accepting ==> m' == m.(timers := m'.timers))
            && (m.accepting ==> m'.statuses == if t.job in m.statuses then m.statuses[t.job := Pending] else m.statuses)
            && (m.accepting && !HasRun(m, t.job) ==>
                  && m'.live == m.live[m.nextRun := t.job] && m'.stopEvents == m.stopEvents[t.job := false]
                  && m'.contexts == m.contexts[t.job := t.context])
            && (m.accepting && HasRun(m, t.job) ==>
                  m'.live == m.live && m'.stopEvents == m.stopEvents && m'.contexts == m.contexts)
  {
    var m := Execute(EMPTY, acts);
    BookAlways(acts);
    RunsAreFutures(m, m.timers[chain].job);
    if m.accepting {
      if m.timers[chain].job in m.futures { RetryRefused(m, chain); } else { RetryRuns(m, chain); }
    }
  }

  lemma RetryRefused(m: Manager, chain: ChainId)
    requires BookOk(m) && chain in m.timers && m.accepting && m.timers[chain].job in m.futures
    ensures var m', t := ScheduleRetry(m, chain), m.timers[chain];
            && m'.timers == m.timers - {chain}
            && m'.statuses == (if t.job in m.statuses then m.statuses[t.job := Pending] else m.statuses)
            && m'.live == m.live && m'.stopEvents == m.stopEvents && m'.contexts == m.contexts
  {
  }

  lemma RetryRuns(m: Manager, chain: ChainId)
    requires chain in m.timers && m.accepting && m.timers[chain].job !in m.futures
    ensures var m', t := ScheduleRetry(m, chain), m.timers[chain];
            && m'.timers == m.timers - {chain}
            && m'.statuses == (if t.job in m.statuses then m.statuses[t.job := Pending] else m.statuses)
            && m'.live == m.live[m.nextRun := t.job] && m'.stopEvents == m.stopEvents[t.job := false]
            && m'.contexts == m.contexts[t.job := t.context]
  {
    var t := m.timers[chain];
    var statuses := if t.job in m.statuses then m.statuses[t.job := Pending] else m.statuses;
    SubmitIdle(m.(timers := m.timers - {chain}, statuses := statuses), t.job, t.context);
  }

  lemma SubmitIdle(m: Manager, job: JobId, c: Context)
    requires m.accepting && job !in m.futures
    ensures var r := Submit(m, job, c);
            && r.Accepted? && r.m.timers == m.timers && r.m.statuses == m.statuses && r.m.chains == m.chains
            && r.m.live == m.live[m.nextRun := job] && r.m.stopEvents == m.stopEvents[job := false]
            && r.m.contexts == m.contexts[job := c]
  {
  }

  /** Draining changes nothing but that no more work is accepted, and it is never taken back. */
  lemma {:induction false} DrainingIsFinal(m: Manager, acts: seq<Action>)
    ensures Apply(m, StartDraining) == m.(accepting := false)
    ensures Execute(m, acts).accepting <==> m.accepting && StartDraining !in acts
  {
    if acts != [] {
      var front := acts[..|acts| - 1];
      DrainingIsFinal(m, front);
      assert acts == front + [acts[|acts| - 1]];
      AcceptingStep(Execute(m, front), acts[|acts| - 1]);
    }
  }

  lemma AcceptingStep(m: Manager, a: Action)
    ensures Apply(m, a).accepting <==> m.accepting && a != StartDraining
  {
    match a {
      case NewSubmission(_, _) => case RunEnds(_, _) => case TimerFires(_) =>
      case Cancel(_) => case StartDraining => case StatusChanges(_, _) =>
    }
  }
}
