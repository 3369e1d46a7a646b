/** The background job manager: bookkeeping of live runs under a lock, retries with capped backoff,
    cancellation and draining. A future's completion and its callback are one step here, and handing
    a run to the executor does not raise. */
module JobManager {
  import opened Cursors

  type JobId = string
  type RunId = nat
  type ChainId = nat

  datatype Status = Pending | Running | Completed | Failed | Cancelled

  const RETRY_BASE_DELAY := 30
  const RETRY_MAX_DELAY := 300

  function Pow2(n: nat): nat { if n == 0 then 1 else 2 * Pow2(n - 1) }

  function Backoff(attempt: nat): nat {
    if RETRY_BASE_DELAY * Pow2(attempt) < RETRY_MAX_DELAY then RETRY_BASE_DELAY * Pow2(attempt) else RETRY_MAX_DELAY
  }

  /** What is kept for a running job: how often it may be retried, which attempt this is, and the
      submission it stems from. */
  datatype Context = Context(maxRetries: int, attempt: nat, chain: ChainId)

  datatype Timer = Timer(job: JobId, context: Context)

  /** History of one submission: its attempts, the delays before its retries and the status seen
      before each of them. */
  datatype Chain = Chain(maxRetries: int, attempts: seq<nat>, delays: seq<nat>, seen: seq<Status>)
  {
    function Planning(delay: nat, status: Status): Chain { this.(delays := delays + [delay], seen := seen + [status]) }
    function Beginning(attempt: nat): Chain { this.(attempts := attempts + [attempt]) }
  }

  datatype Manager = Manager(
    futures: map<JobId, RunId>, stopEvents: map<JobId, bool>, contexts: map<JobId, Context>, accepting: bool,
    live: map<RunId, JobId>, nextRun: RunId, timers: map<ChainId, Timer>, statuses: map<JobId, Status>,
    chains: seq<Chain>)

  datatype Submission = Accepted(m: Manager) | ShuttingDown | AlreadyRunning

  /** _submit. */
  function Submit(m: Manager, job: JobId, c: Context): Submission {
    if !m.accepting then ShuttingDown
    else if job in m.futures && m.futures[job] in m.live then AlreadyRunning
    else Accepted(m.(stopEvents := m.stopEvents[job := false], contexts := m.contexts[job := c],
                     futures := m.futures[job := m.nextRun], live := m.live[m.nextRun := job],
                     nextRun := m.nextRun + 1))
  }

  /** start_job and resume_job: the first attempt of a new submission. */
  function SubmitNew(m: Manager, job: JobId, maxRetries: int): Manager {
    match Submit(m, job, Context(maxRetries, 0, |m.chains|))
    case Accepted(m') => m'.(chains := m'.chains + [Chain(maxRetries, [0], [], [])])
    case _ => m
  }

  /** A run ends and _on_done pops its job; a failed job with retries left gets a timer. */
  function Finish(m: Manager, run: RunId, excepted: bool): Manager
    requires run in m.live
  {
    var job := m.live[run];
    var context := if job in m.contexts then Some(m.contexts[job]) else None;
    var m' := m.(futures := m.futures - {job}, stopEvents := m.stopEvents - {job}, contexts := m.contexts - {job},
                 live := m.live - {run});
    if context.None? || excepted then m' else AfterRun(m', job, context.value)
  }

  function AfterRun(m: Manager, job: JobId, c: Context): Manager {
    if c.attempt >= c.maxRetries then m
    else if job !in m.statuses || m.statuses[job] != Failed || c.chain >= |m.chains| then m
    else
      var chain := m.chains[c.chain];
      m.(timers := m.timers[c.chain := Timer(job, c.(attempt := c.attempt + 1))],
         chains := m.chains[c.chain := chain.Planning(Backoff(c.attempt), m.statuses[job])])
  }

  /** _schedule_retry, when its timer goes off: nothing once draining; otherwise the job is set pending
      and submitted again, which may be refused because somebody resumed it meanwhile. */
  function ScheduleRetry(m: Manager, chain: ChainId): Manager
    requires chain in m.timers
  {
    var t := m.timers[chain];
    var m' := m.(timers := m.timers - {chain});
    if !m'.accepting then m'
    else
      var p := if t.job in m'.statuses then m'.(statuses := m'.statuses[t.job := Pending]) else m';
      match Submit(p, t.job, t.context)
      case Accepted(q) =>
        if chain < |q.chains|
        then q.(chains := q.chains[chain := q.chains[chain].Beginning(t.context.attempt)])
        else q
      case _ => p
  }

  /** cancel_job: tell a running job to stop, or cancel a pending one in the store. */
  function CancelJob(m: Manager, job: JobId): Manager {
    if job in m.stopEvents then m.(stopEvents := m.stopEvents[job := true])
    else if job in m.statuses && m.statuses[job] == Pending then m.(statuses := m.statuses[job := Cancelled])
    else m
  }

  datatype Action =
    | NewSubmission(job: JobId, maxRetries: int)
    | RunEnds(run: RunId, excepted: bool)
    | TimerFires(chain: ChainId)
    | Cancel(job: JobId)
    | StartDraining
    | StatusChanges(job: JobId, status: Status)

  function Apply(m: Manager, a: Action): Manager {
    match a
    case NewSubmission(job, maxRetries) => SubmitNew(m, job, maxRetries)
    case RunEnds(run, excepted) => if run in m.live then Finish(m, run, excepted) else m
    case TimerFires(chain) => if chain in m.timers then ScheduleRetry(m, chain) else m
    case Cancel(job) => CancelJob(m, job)
    case StartDraining => m.(accepting := false)
    case StatusChanges(job, status) => m.(statuses := m.statuses[job := status])
  }

  const EMPTY := Manager(map[], map[], map[], true, map[], 0, map[], map[], [])

  function Execute(m: Manager, acts: seq<Action>): Manager {
    if acts == [] then m else Apply(Execute(m, acts[..|acts| - 1]), acts[|acts| - 1])
  }

  lemma ExecuteOneMore(m: Manager, acts: seq<Action>, a: Action)
    ensures Execute(m, acts + [a]) == Apply(Execute(m, acts), a)
  {
    assert (acts + [a])[..|acts + [a]| - 1] == acts;
  }

  // ---------------------------------------------------------------- bookkeeping

  ghost predicate BookOk(m: Manager) {
    && m.futures.Keys == m.stopEvents.Keys == m.contexts.Keys
    && (forall j :: j in m.futures ==> m.futures[j] in m.live && m.live[m.futures[j]] == j)
    && (forall r :: r in m.live ==> r < m.nextRun && m.live[r] in m.futures && m.futures[m.live[r]] == r)
  }

  lemma SubmitKeepsBook(m: Manager, job: JobId, c: Context)
    requires BookOk(m)
    ensures Submit(m, job, c).Accepted? ==> BookOk(Submit(m, job, c).m) && job !in m.futures
    ensures Submit(m, job, c).AlreadyRunning? <==> m.accepting && job in m.futures
  {
  }

  lemma FinishKeepsBook(m: Manager, run: RunId, excepted: bool)
    requires BookOk(m) && run in m.live
    ensures BookOk(Finish(m, run, excepted))
  {
  }

  lemma RetryKeepsBook(m: Manager, chain: ChainId)
    requires BookOk(m) && chain in m.timers
    ensures BookOk(ScheduleRetry(m, chain))
  {
    var t := m.timers[chain];
    var p := m.(timers := m.timers - {chain});
    SubmitKeepsBook(if t.job in p.statuses then p.(statuses := p.statuses[t.job := Pending]) else p, t.job, t.context);
  }

  lemma ApplyKeepsBook(m: Manager, a: Action)
    requires BookOk(m)
    ensures BookOk(Apply(m, a))
  {
    match a {
      case NewSubmission(job, maxRetries) => SubmitKeepsBook(m, job, Context(maxRetries, 0, |m.chains|));
      case RunEnds(run, excepted) => if run in m.live { FinishKeepsBook(m, run, excepted); }
      case TimerFires(chain) => if chain in m.timers { RetryKeepsBook(m, chain); }
      case Cancel(job) => assert job in m.stopEvents ==> m.stopEvents[job := true].Keys == m.stopEvents.Keys;
      case StartDraining =>
      case StatusChanges(_, _) =>
    }
  }

  lemma {:induction false} BookAlways(acts: seq<Action>)
    ensures BookOk(Execute(EMPTY, acts))
  {
    if acts == [] {
    } else {
      BookAlways(acts[..|acts| - 1]);
      ApplyKeepsBook(Execute(EMPTY, acts[..|acts| - 1]), acts[|acts| - 1]);
    }
  }

  /** In no history does a job have two live runs. */
  lemma OneLiveRunPerJob(acts: seq<Action>, r1: RunId, r2: RunId)
    requires var m := Execute(EMPTY, acts); r1 in m.live && r2 in m.live && m.live[r1] == m.live[r2]
    ensures r1 == r2
  {
    BookAlways(acts);
  }

  /** In every history the three maps speak of the same jobs, and these are the jobs with a live run. */
  lemma MapsAgree(acts: seq<Action>)
    ensures var m := Execute(EMPTY, acts); m.futures.Keys == m.stopEvents.Keys == m.contexts.Keys == m.live.Values
  {
    BookAlways(acts);
    var m := Execute(EMPTY, acts);
    forall j | j in m.futures ensures j in m.live.Values { assert m.live[m.futures[j]] == j; }
    assert m.futures.Keys == m.live.Values;
  }

  lemma DrainingStep(m: Manager, a: Action)
    requires !m.accepting
    ensures var m' := Apply(m, a); !m'.accepting && m'.live.Keys <= m.live.Keys && forall r :: r in m'.live ==>
            m'.live[r] == m.live[r]
  {
    match a {
      case NewSubmission(_, _) => case RunEnds(_, _) => case TimerFires(_) =>
      case Cancel(_) => case StartDraining => case StatusChanges(_, _) =>
    }
  }

  /** Once draining has begun nothing new is admitted and the live runs only go away. */
  lemma {:induction false} DrainingOnlyShrinks(m: Manager, acts: seq<Action>)
    requires !m.accepting
    ensures var m' := Execute(m, acts);
            !m'.accepting && m'.live.Keys <= m.live.Keys && forall r :: r in m'.live ==> m'.live[r] == m.live[r]
  {
    if acts != [] {
      DrainingOnlyShrinks(m, acts[..|acts| - 1]);
      DrainingStep(Execute(m, acts[..|acts| - 1]), acts[|acts| - 1]);
    }
  }

  // ---------------------------------------------------------------- retry chains

  function Sum(xs: seq<nat>): nat { if xs == [] then 0 else Sum(xs[..|xs| - 1]) + xs[|xs| - 1] }

  /** Attempts 0..k, each retry after a FAILED status and the backoff of the attempt before it. */
  ghost predicate ChainOk(c: Chain) {
    && |c.attempts| >= 1 && (forall i :: 0 <= i < |c.attempts| ==> c.attempts[i] == i)
    && |c.delays| == |c.seen| && |c.attempts| - 1 <= |c.delays| <= |c.attempts|
    && (c.delays == [] || |c.delays| <= c.maxRetries)
    && (forall i :: 0 <= i < |c.delays| ==> c.delays[i] == Backoff(i) && c.seen[i] == Failed)
  }

  /** A running attempt of a chain is its last, and no retry is waiting. */
  ghost predicate RunningOk(chains: seq<Chain>, timers: map<ChainId, Timer>, c: Context) {
    && c.chain < |chains| && c.maxRetries == chains[c.chain].maxRetries && c.chain !in timers
    && c.attempt + 1 == |chains[c.chain].attempts| && |chains[c.chain].delays| == c.attempt
  }

  /** A waiting retry is the next attempt, and its delay is on record. */
  ghost predicate WaitingOk(chains: seq<Chain>, chain: ChainId, t: Timer) {
    && chain < |chains| && t.context.chain == chain && t.context.maxRetries == chains[chain].maxRetries
    && t.context.attempt == |chains[chain].attempts| == |chains[chain].delays|
  }

  ghost predicate RetryOk(contexts: map<JobId, Context>, timers: map<ChainId, Timer>, chains: seq<Chain>) {
    && (forall i :: 0 <= i < |chains| ==> ChainOk(chains[i]))
    && (forall j :: j in contexts ==> RunningOk(chains, timers, contexts[j]))
    && (forall j, k :: j in contexts && k in contexts && j != k ==> contexts[j].chain != contexts[k].chain)
    && (forall c :: c in timers ==> WaitingOk(chains, c, timers[c]))
  }

  ghost predicate ChainsOk(m: Manager) { BookOk(m) && RetryOk(m.contexts, m.timers, m.chains) }

  lemma NewChain(contexts: map<JobId, Context>, timers: map<ChainId, Timer>, chains: seq<Chain>, job: JobId,
                 maxRetries: int)
    requires RetryOk(contexts, timers, chains) && job !in contexts
    ensures RetryOk(contexts[job := Context(maxRetries, 0, |chains|)], timers,
                    chains + [Chain(maxRetries, [0], [], [])])
  {
    var contexts' := contexts[job := Context(maxRetries, 0, |chains|)];
    var chains' := chains + [Chain(maxRetries, [0], [], [])];
    forall c | c in timers ensures c != |chains| { assert WaitingOk(chains, c, timers[c]); }
    forall j | j in contexts ensures RunningOk(chains', timers, contexts[j]) && contexts[j].chain < |chains| {
      assert RunningOk(chains, timers, contexts[j]);
    }
    forall c | c in timers ensures WaitingOk(chains', c, timers[c]) { assert WaitingOk(chains, c, timers[c]); }
  }

  lemma SubmissionKeepsChains(m: Manager, job: JobId, maxRetries: int)
    requires ChainsOk(m)
    ensures ChainsOk(SubmitNew(m, job, maxRetries))
  {
    ApplyKeepsBook(m, NewSubmission(job, maxRetries));
    SubmitKeepsBook(m, job, Context(maxRetries, 0, |m.chains|));
    if Submit(m, job, Context(maxRetries, 0, |m.chains|)).Accepted? {
      NewChain(m.contexts, m.timers, m.chains, job, maxRetries);
    }
  }

  lemma ContextGone(contexts: map<JobId, Context>, timers: map<ChainId, Timer>, chains: seq<Chain>, job: JobId)
    requires RetryOk(contexts, timers, chains)
    ensures RetryOk(contexts - {job}, timers, chains)
  {
  }

  /** The run of `job` failed with a retry left: its chain gets a delay and a timer. */
  lemma RetryPlanned(contexts: map<JobId, Context>, timers: map<ChainId, Timer>, chains: seq<Chain>, job: JobId)
    requires RetryOk(contexts, timers, chains) && job in contexts && contexts[job].attempt < contexts[job].maxRetries
    ensures contexts[job].chain < |chains|
    ensures var c := contexts[job];
            var chain := chains[c.chain];
            RetryOk(contexts - {job}, timers[c.chain := Timer(job, c.(attempt := c.attempt + 1))],
                    chains[c.chain := chain.Planning(Backoff(c.attempt), Failed)])
  {
    var c := contexts[job];
    assert RunningOk(chains, timers, c) && ChainOk(chains[c.chain]);
    var chain := chains[c.chain];
    var timers' := timers[c.chain := Timer(job, c.(attempt := c.attempt + 1))];
    var chains' := chains[c.chain := chain.Planning(Backoff(c.attempt), Failed)];
    forall j | j in contexts - {job} ensures RunningOk(chains', timers', contexts[j]) {
      assert RunningOk(chains, timers, contexts[j]) && contexts[j].chain != c.chain;
    }
    forall d | d in timers' ensures WaitingOk(chains', d, timers'[d]) {
      if d != c.chain { assert WaitingOk(chains, d, timers[d]); }
    }
  }

  lemma FinishKeepsChains(m: Manager, run: RunId, excepted: bool)
    requires ChainsOk(m) && run in m.live
    ensures ChainsOk(Finish(m, run, excepted))
  {
    ApplyKeepsBook(m, RunEnds(run, excepted));
    var job := m.live[run];
    ContextGone(m.contexts, m.timers, m.chains, job);
    if Retried(m, run, excepted) { RetryPlanned(m.contexts, m.timers, m.chains, job); }
    FinishPlan(m, run, excepted);
  }

  /** The run that ends leaves a retry behind. */
  predicate Retried(m: Manager, run: RunId, excepted: bool)
    requires run in m.live && m.live[run] in m.contexts
  {
    var job, c := m.live[run], m.contexts[m.live[run]];
    !excepted && c.attempt < c.maxRetries && job in m.statuses && m.statuses[job] == Failed && c.chain < |m.chains|
  }

  lemma FinishPlan(m: Manager, run: RunId, excepted: bool)
    requires run in m.live && m.live[run] in m.contexts
    ensures var m', job, c := Finish(m, run, excepted), m.live[run], m.contexts[m.live[run]];
            && m'.contexts == m.contexts - {job}
            && (!Retried(m, run, excepted) ==> m'.timers == m.timers && m'.chains == m.chains)
            && (Retried(m, run, excepted) ==>
                  && m'.timers == m.timers[c.chain := Timer(job, c.(attempt := c.attempt + 1))]
                  && m'.chains == m.chains[c.chain := m.chains[c.chain].Planning(Backoff(c.attempt), Failed)])
  {
  }

  lemma TimerGone(contexts: map<JobId, Context>, timers: map<ChainId, Timer>, chains: seq<Chain>, chain: ChainId)
    requires RetryOk(contexts, timers, chains)
    ensures RetryOk(contexts, timers - {chain}, chains)
  {
    forall j | j in contexts ensures RunningOk(chains, timers - {chain}, contexts[j]) {
      assert RunningOk(chains, timers, contexts[j]);
    }
  }

  /** The waiting retry of `chain` becomes the running attempt of its job. */
  lemma RetryStarted(contexts: map<JobId, Context>, timers: map<ChainId, Timer>, chains: seq<Chain>, chain: ChainId)
    requires RetryOk(contexts, timers, chains) && chain in timers && timers[chain].job !in contexts
    ensures chain < |chains|
    ensures var t := timers[chain];
            RetryOk(contexts[t.job := t.context], timers - {chain},
                    chains[chain := chains[chain].Beginning(t.context.attempt)])
  {
    var t := timers[chain];
    assert WaitingOk(chains, chain, t) && ChainOk(chains[chain]);
    var timers' := timers - {chain};
    var chains' := chains[chain := chains[chain].Beginning(t.context.attempt)];
    forall j | j in contexts ensures RunningOk(chains', timers', contexts[j]) && contexts[j].chain != chain {
      assert RunningOk(chains, timers, contexts[j]);
    }
    forall d | d in timers' ensures WaitingOk(chains', d, timers'[d]) { assert WaitingOk(chains, d, timers[d]); }
  }

  lemma RetryKeepsChains(m: Manager, chain: ChainId)
    requires ChainsOk(m) && chain in m.timers
    ensures ChainsOk(ScheduleRetry(m, chain))
  {
    RetryKeepsBook(m, chain);
    TimerGone(m.contexts, m.timers, m.chains, chain);
    if m.timers[chain].job !in m.contexts { RetryStarted(m.contexts, m.timers, m.chains, chain); }
    RetryPlan(m, chain);
  }

  /** The retry is submitted, or only its timer is gone. */
  lemma RetryPlan(m: Manager, chain: ChainId)
    requires BookOk(m) && chain in m.timers && chain < |m.chains|
    ensures var m', t := ScheduleRetry(m, chain), m.timers[chain];
            && m'.timers == m.timers - {chain}
            && (!m.accepting || t.job in m.contexts ==> m'.contexts == m.contexts && m'.chains == m.chains)
            && (m.accepting && t.job !in m.contexts ==>
                  && m'.contexts == m.contexts[t.job := t.context]
                  && m'.chains == m.chains[chain := m.chains[chain].Beginning(t.context.attempt)])
  {
  }

  lemma ChainsStep(m: Manager, a: Action)
    requires ChainsOk(m)
    ensures ChainsOk(Apply(m, a))
  {
    match a {
      case NewSubmission(job, maxRetries) => SubmissionKeepsChains(m, job, maxRetries);
      case RunEnds(run, excepted) => if run in m.live { FinishKeepsChains(m, run, excepted); }
      case TimerFires(chain) => if chain in m.timers { RetryKeepsChains(m, chain); }
      case _ => ApplyKeepsBook(m, a);
    }
  }

  lemma {:induction false} ChainsAlways(acts: seq<Action>)
    ensures ChainsOk(Execute(EMPTY, acts))
  {
    if acts == [] {
    } else {
      ChainsAlways(acts[..|acts| - 1]);
      ChainsStep(Execute(EMPTY, acts[..|acts| - 1]), acts[|acts| - 1]);
    }
  }

  lemma {:induction false} SumBounded(xs: seq<nat>, most: nat)
    requires forall i :: 0 <= i < |xs| ==> xs[i] <= most
    ensures Sum(xs) <= most * |xs|
  {
    if xs != [] { SumBounded(xs[..|xs| - 1], most); }
  }

  /** Every submission, in every history: attempts 0, 1, .., k with k at most max_retries, each retry
      after an observed FAILED and a delay of min(30 * 2^n, 300), at most 300 * max_retries in all. */
  lemma RetryChains(acts: seq<Action>, i: nat)
    requires i < |Execute(EMPTY, acts).chains|
    ensures var c := Execute(EMPTY, acts).chains[i];
            && ChainOk(c)
            && (|c.attempts| - 1 == 0 || |c.attempts| - 1 <= c.maxRetries)
            && Sum(c.delays) <= RETRY_MAX_DELAY * (if c.maxRetries > 0 then c.maxRetries else 0)
  {
    ChainsAlways(acts);
    var c := Execute(EMPTY, acts).chains[i];
    assert ChainOk(c);
    SumBounded(c.delays, RETRY_MAX_DELAY);
  }

  /** The backoff doubles from 30 seconds and reaches its cap at the fourth retry. */
  lemma {:induction false} BackoffValues(n: nat)
    ensures Backoff(0) == 30 && Backoff(1) == 60 && Backoff(2) == 120 && Backoff(3) == 240
    ensures n >= 4 ==> Backoff(n) == 300
    ensures Backoff(n) <= Backoff(n + 1) <= 300
  {
    assert Pow2(1) == 2 && Pow2(2) == 4 && Pow2(3) == 8 && Pow2(4) == 16;
    PowGrows(n);
  }

  lemma {:induction false} PowGrows(n: nat)
    ensures 1 <= Pow2(n) && (n >= 4 ==> Pow2(n) >= 16)
  {
    if n > 0 {
      PowGrows(n - 1);
      if n == 4 { assert Pow2(3) == 8 by { assert Pow2(1) == 2 && Pow2(2) == 4; } }
    }
  }

  /** What is left of a submission: retries still allowed and not yet made. Waiting for a retry spends
      one and making it spends none, so every submission comes to an end. */
  function RetriesLeft(c: Chain): int { c.maxRetries - |c.delays| }

  lemma RetriesRunOut(m: Manager, a: Action, i: nat)
    requires ChainsOk(m) && i < |m.chains|
    ensures i < |Apply(m, a).chains|
    ensures var c, c' := m.chains[i], Apply(m, a).chains[i];
            && RetriesLeft(c') <= RetriesLeft(c)
            && (i in Apply(m, a).timers && i !in m.timers ==>
                  RetriesLeft(c') == RetriesLeft(c) - 1 && RetriesLeft(c') >= 0)
            && (c'.attempts != c.attempts ==> i in m.timers && i !in Apply(m, a).timers)
  {
    match a {
      case RunEnds(run, excepted) => if run in m.live { FinishSpends(m, run, excepted, i); }
      case TimerFires(chain) => if chain in m.timers { RetrySpendsNothing(m, chain, i); }
      case _ => OthersSpendNothing(m, a, i);
    }
  }

  lemma OthersSpendNothing(m: Manager, a: Action, i: nat)
    requires !a.RunEnds? && !a.TimerFires? && i < |m.chains|
    ensures i < |Apply(m, a).chains| && Apply(m, a).chains[i] == m.chains[i] && Apply(m, a).timers == m.timers
  {
    if a.NewSubmission? { SubmissionSpendsNothing(m, a.job, a.maxRetries, i); }
  }

  lemma SubmissionSpendsNothing(m: Manager, job: JobId, maxRetries: int, i: nat)
    requires i < |m.chains|
    ensures var m' := SubmitNew(m, job, maxRetries);
            i < |m'.chains| && m'.chains[i] == m.chains[i] && m'.timers == m.timers
  {
  }

  lemma FinishSpends(m: Manager, run: RunId, excepted: bool, i: nat)
    requires ChainsOk(m) && run in m.live && i < |m.chains|
    ensures var m' := Finish(m, run, excepted);
            && i < |m'.chains| && m'.chains[i].maxRetries == m.chains[i].maxRetries
                && m'.chains[i].attempts == m.chains[i].attempts
            && (if i in m'.timers && i !in m.timers
                then |m'.chains[i].delays| == |m.chains[i].delays| + 1 <= m.chains[i].maxRetries
                else m'.chains[i].delays == m.chains[i].delays)
  {
    assert RunningOk(m.chains, m.timers, m.contexts[m.live[run]]);
  }

  lemma RetrySpendsNothing(m: Manager, chain: ChainId, i: nat)
    requires ChainsOk(m) && chain in m.timers && i < |m.chains|
    ensures var m' := ScheduleRetry(m, chain);
            && i < |m'.chains| && m'.chains[i].maxRetries == m.chains[i].maxRetries
                && m'.chains[i].delays == m.chains[i].delays
            && m'.timers == m.timers - {chain} && (i != chain ==> m'.chains[i] == m.chains[i])
  {
    assert WaitingOk(m.chains, chain, m.timers[chain]);
  }

  // ---------------------------------------------------------------- the manager as an object

  class BackgroundJobManager {
    var futures: map<JobId, RunId>
    var stopEvents: map<JobId, bool>
    var jobContexts: map<JobId, Context>
    var accepting: bool
    // The executor, the timers and the store, as far as the manager sees them.
    var live: map<RunId, JobId>
    var nextRun: RunId
    var timers: map<ChainId, Timer>
    var statuses: map<JobId, Status>
    var chains: seq<Chain>   // log of the submissions

    ghost function View(): Manager
      reads this
    { Manager(futures, stopEvents, jobContexts, accepting, live, nextRun, timers, statuses, chains) }

    constructor ()
      ensures View() == EMPTY
    {
      futures, stopEvents, jobContexts, accepting := map[], map[], map[], true;
      live, nextRun, timers, statuses, chains := map[], 0, map[], map[], [];
    }

    /** _submit, under the lock; the error is what it raises. */
    method SubmitRun(job: JobId, c: Context) returns (error: Option<string>)
      modifies this
      ensures match Submit(old(View()), job, c)
              case Accepted(m) => error == None && View() == m
              case _ => error.Some? && View() == old(View())
    {
      if !accepting { return Some("Job manager is shutting down."); }
      if job in futures && futures[job] in live { return Some("Job is already running."); }
      stopEvents := stopEvents[job := false];
      jobContexts := jobContexts[job := c];
      live := live[nextRun := job];
      futures := futures[job := nextRun];
      nextRun := nextRun + 1;
      error := None;
    }

    /** start_job and resume_job once the job row exists. */
    method StartOrResume(job: JobId, maxRetries: int) returns (error: Option<string>)
      modifies this
      ensures View() == SubmitNew(old(View()), job, maxRetries)
      ensures error == None <==> old(accepting) && !(job in old(futures) && old(futures)[job] in old(live))
    {
      error := SubmitRun(job, Context(maxRetries, 0, |chains|));
      if error == None { chains := chains + [Chain(maxRetries, [0], [], [])]; }
    }

    /** The future of a run completes and its callback runs. */
    method OnDone(run: RunId, excepted: bool)
      requires run in live
      modifies this
      ensures View() == Finish(old(View()), run, excepted)
    {
      var job := live[run];
      var context := if job in jobContexts then Some(jobContexts[job]) else None;
      live := live - {run};
      futures, stopEvents, jobContexts := futures - {job}, stopEvents - {job}, jobContexts - {job};
      if context.None? || excepted { return; }
      var c := context.value;
      if c.attempt >= c.maxRetries { return; }
      if job !in statuses || statuses[job] != Failed { return; }
      PlanRetry(job, c);
    }

    method PlanRetry(job: JobId, c: Context)
      requires c.attempt < c.maxRetries && job in statuses && statuses[job] == Failed
      modifies this
      ensures View() == AfterRun(old(View()), job, c)
    {
      if c.chain >= |chains| { return; }
      var delay := RETRY_BASE_DELAY * Pow2(c.attempt);
      if delay > RETRY_MAX_DELAY { delay := RETRY_MAX_DELAY; }
      timers := timers[c.chain := Timer(job, c.(attempt := c.attempt + 1))];
      var chain := chains[c.chain];
      chains := chains[c.chain := chain.Planning(delay, statuses[job])];
    }

    /** _schedule_retry: the timer of `chain` goes off. */
    method FireTimer(chain: ChainId)
      requires chain in timers
      modifies this
      ensures View() == ScheduleRetry(old(View()), chain)
    {
      var t := timers[chain];
      timers := timers - {chain};
      if !accepting { return; }
      if t.job in statuses { statuses := statuses[t.job := Pending]; }
      var error := SubmitRun(t.job, t.context);
      if error == None && chain < |chains| {
        chains := chains[chain := chains[chain].Beginning(t.context.attempt)];
      }
    }

    method RequestCancel(job: JobId) returns (actioned: bool)
      modifies this
      ensures View() == CancelJob(old(View()), job)
      ensures actioned <==> job in old(stopEvents) || (job in old(statuses) && old(statuses)[job] == Pending)
    {
      if job in stopEvents {
        stopEvents := stopEvents[job := true];
        return true;
      }
      actioned := job in statuses && statuses[job] == Pending;
      if actioned { statuses := statuses[job := Cancelled]; }
    }

    /** Whatever else happens to the manager while somebody sleeps. */
    method Perform(a: Action)
      modifies this
      ensures View() == Apply(old(View()), a)
    {
      match a {
        case NewSubmission(job, maxRetries) => var _ := StartOrResume(job, maxRetries);
        case RunEnds(run, excepted) => if run in live { OnDone(run, excepted); }
        case TimerFires(chain) => if chain in timers { FireTimer(chain); }
        case Cancel(job) => var _ := RequestCancel(job);
        case StartDraining => accepting := false;
        case StatusChanges(job, status) => statuses := statuses[job := status];
      }
    }

    method RunningCount() returns (n: nat)
      requires BookOk(View())
      ensures n == |live|
    {
      n := |set j | j in futures && futures[j] in live|;
      LiveIsFutures(View());
    }

    /** Refuse new work, then poll until nothing runs or the time is up; `naps` says what happens in
        each pause between two polls. Returns how many runs are left. */
    method Drain(naps: seq<seq<Action>>) returns (left: nat)
      requires BookOk(View())
      modifies this
      ensures BookOk(View()) && !accepting && left == |live| && live.Keys <= old(live.Keys)
      ensures exists n :: 0 <= n <= |naps| && (n < |naps| ==> left == 0)
                          && View() == Execute(Apply(old(View()), StartDraining), Flatten(naps[..n]))
    {
      accepting := false;
      ghost var begun := View();
      var n := 0;
      while n < |naps|
        invariant n <= |naps| && BookOk(View()) && !accepting
        invariant View() == Execute(begun, Flatten(naps[..n]))
      {
        if forall j :: j in futures ==> futures[j] !in live { break; }
        Sleep(naps[n], begun, Flatten(naps[..n]));
        assert naps[..n + 1][..n] == naps[..n];
        n := n + 1;
      }
      left := RunningCount();
      DrainingOnlyShrinks(begun, Flatten(naps[..n]));
      if n < |naps| { LiveIsFutures(View()); }
    }

    method Sleep(acts: seq<Action>, ghost begun: Manager, ghost done: seq<Action>)
      requires BookOk(View()) && View() == Execute(begun, done) && !begun.accepting
      modifies this
      ensures BookOk(View()) && !accepting && View() == Execute(begun, done + acts)
    {
      assert done + acts[..0] == done;
      for i := 0 to |acts|
        invariant BookOk(View()) && View() == Execute(begun, done + acts[..i])
      {
        ApplyKeepsBook(View(), acts[i]);
        ExecuteOneMore(begun, done + acts[..i], acts[i]);
        assert done + acts[..i + 1] == done + acts[..i] + [acts[i]];
        Perform(acts[i]);
      }
      assert acts[..|acts|] == acts;
      DrainingOnlyShrinks(begun, done + acts);
    }
  }

  function Flatten(xss: seq<seq<Action>>): seq<Action> {
    if xss == [] then [] else Flatten(xss[..|xss| - 1]) + xss[|xss| - 1]
  }

  /** There is one future per live run. */
  lemma LiveIsFutures(m: Manager)
    requires BookOk(m)
    ensures |set j | j in m.futures && m.futures[j] in m.live| == |m.live|
    ensures (forall j :: j in m.futures ==> m.futures[j] !in m.live) ==> m.live == map[]
  {
    var running := set j | j in m.futures && m.futures[j] in m.live;
    Paired(running, m.live.Keys, m.futures, m.live);
    if forall j :: j in m.futures ==> m.futures[j] !in m.live {
      forall r ensures r !in m.live { if r in m.live { assert false; } }
    }
  }

  lemma {:induction false} Paired(js: set<JobId>, rs: set<RunId>, futures: map<JobId, RunId>, live: map<RunId, JobId>)
    requires forall j :: j in js ==> j in futures && futures[j] in rs && futures[j] in live && live[futures[j]] == j
    requires forall r :: r in rs ==> r in live && live[r] in js && live[r] in futures && futures[live[r]] == r
    ensures |js| == |rs|
  {
    if rs == {} {
      forall j ensures j !in js { if j in js { assert false; } }
    } else {
      var r :| r in rs;
      var j := live[r];
      Paired(js - {j}, rs - {r}, futures, live);
    }
  }
}
