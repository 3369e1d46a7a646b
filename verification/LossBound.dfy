/** What a checkpoint and a sync cursor promise: everything at or before them is in a ledger, except
    the positions a run failed on and, below its error threshold, went past. */
module LossBound {
  import opened Cursors
  import opened MigrationProtocol
  import RunAccounting

  function Items(s: Sys, c: Col): seq<Item> { ItemsIn(s.source, c) }

  /** The job has the item, or went past its position: after a failure, or because the iterator did. */
  predicate Holds(job: Job, c: Col, i: nat, fp: Fp) {
    fp in job.row.ledger || (c, i) in job.forgiven || (c, i) in job.passed
  }

  /** One of the jobs in `js` holds the item at position i of collection c. */
  ghost predicate Covered(s: Sys, js: set<JobId>, c: Col, i: nat) {
    i < |Items(s, c)| && exists b :: b in js && b in s.jobs && Holds(s.jobs[b], c, i, Items(s, c)[i].fp)
  }

  ghost predicate Prefix(s: Sys, js: set<JobId>, c: Col, p: nat) {
    p <= |Items(s, c)| && forall i :: 0 <= i < p ==> Covered(s, js, c, i)
  }

  /** A cursor that names an item of the source and promises everything up to it. */
  ghost predicate Marked(s: Sys, js: set<JobId>, c: Col, id: Id) {
    id in Ids(Items(s, c)) && Prefix(s, js, c, After(Items(s, c), Some(id)))
  }

  /** A full-mode job answers for itself; an incremental one builds on every job before it. */
  function Basis(s: Sys, j: JobId): set<JobId>
    requires j in s.jobs
  {
    if s.jobs[j].incremental then s.jobs.Keys else {j}
  }

  /** How many of the opened collections were iterated to the end. */
  function Finished(w: Worker): nat {
    if w.pc.Next? || w.pc.InItem? || w.pc.SetFailed? || (w.pc.Done? && w.pc.outcome.RanFailed?)
    then (if w.spans == [] then 0 else |w.spans| - 1)
    else |w.spans|
  }

  ghost predicate InHandOk(s: Sys, w: Worker, js: set<JobId>) {
    match w.pc
    case Open(i, resume) => resume.Some? ==> Marked(s, js, w.Collection(i), resume.value)
    case Next(i, k, snap) => snap <= Items(s, w.Collection(i)) && Prefix(s, js, w.Collection(i), k)
    case InItem(i, k, snap, item, stage) =>
      && k < |snap| && snap <= Items(s, w.Collection(i)) && item == snap[k]
      && Prefix(s, js, w.Collection(i), k)
      && (stage in {CountSkip, CountNew, CountDup, Mark} ==> Covered(s, js, w.Collection(i), k))
    case Publish(todo) => CursorsOk(s, todo)
    case _ => true
  }

  ghost predicate CursorsOk(s: Sys, cursors: map<Col, Id>) {
    forall c :: c in cursors ==> Marked(s, s.jobs.Keys, c, cursors[c])
  }

  ghost predicate SpanCovered(s: Sys, js: set<JobId>, plan: seq<Col>, spans: seq<Span>, i: nat) {
    i < |plan| && i < |spans| && Prefix(s, js, plan[i], spans[i].hi)
  }

  ghost predicate FinishedOk(s: Sys, w: Worker, js: set<JobId>) {
    forall i :: 0 <= i < Finished(w) ==> SpanCovered(s, js, w.plan, w.spans, i)
  }

  ghost predicate WorkerOk(s: Sys, w: Worker) {
    && w.job in s.jobs
    && (!s.jobs[w.job].incremental ==> w.cursors == map[])
    && CursorsOk(s, w.cursors)
    && FinishedOk(s, w, Basis(s, w.job))
    && InHandOk(s, w, Basis(s, w.job))
  }

  ghost predicate JobOk(s: Sys, j: JobId)
    requires j in s.jobs
  {
    && (forall c :: c in s.jobs[j].row.checkpoints ==> Marked(s, Basis(s, j), c, s.jobs[j].row.checkpoints[c]))
    && |s.jobs[j].forgiven| <= s.jobs[j].row.failed
    && (s.jobs[j].forgiven != {} ==> Threshold(s.jobs[j].maxErrors) > 1)
  }

  ghost predicate SourceOk(source: map<Col, seq<Item>>) {
    forall c :: c in source ==> Distinct(Ids(source[c]))
  }

  ghost predicate Inv(s: Sys) {
    && SourceOk(s.source)
    && (forall j :: j in s.jobs ==> JobOk(s, j))
    && CursorsOk(s, s.cursors)
    && (forall w :: w in s.workers ==> WorkerOk(s, s.workers[w]))
  }

  // ---------------------------------------------------------------- nothing covered is ever uncovered

  predicate JobGrows(a: Job, b: Job) {
    && b.incremental == a.incremental && b.maxErrors == a.maxErrors
    && a.row.ledger <= b.row.ledger && a.forgiven <= b.forgiven && a.passed <= b.passed
  }

  ghost predicate Extends(s: Sys, s': Sys) {
    && (forall j :: j in s.jobs ==> j in s'.jobs && JobGrows(s.jobs[j], s'.jobs[j]))
    && (forall c :: Items(s, c) <= Items(s', c))
  }

  lemma CoveredGrows(s: Sys, s': Sys, js: set<JobId>, js': set<JobId>, c: Col, i: nat)
    requires Extends(s, s') && js <= js' && Covered(s, js, c, i)
    ensures Covered(s', js', c, i)
  {
    var b :| b in js && b in s.jobs && Holds(s.jobs[b], c, i, Items(s, c)[i].fp);
    assert JobGrows(s.jobs[b], s'.jobs[b]);
    assert Items(s, c) <= Items(s', c);
    assert Holds(s'.jobs[b], c, i, Items(s', c)[i].fp);
  }

  lemma PrefixGrows(s: Sys, s': Sys, js: set<JobId>, js': set<JobId>, c: Col, p: nat)
    requires Extends(s, s') && js <= js' && Prefix(s, js, c, p)
    ensures Prefix(s', js', c, p)
  {
    assert Items(s, c) <= Items(s', c);
    forall i | 0 <= i < p ensures Covered(s', js', c, i) { CoveredGrows(s, s', js, js', c, i); }
  }

  lemma MarkedGrows(s: Sys, s': Sys, js: set<JobId>, js': set<JobId>, c: Col, id: Id)
    requires Extends(s, s') && js <= js' && Marked(s, js, c, id)
    ensures Marked(s', js', c, id)
  {
    assert Items(s, c) <= Items(s', c);
    IndexOfStable(Ids(Items(s, c)), Ids(Items(s', c)), id);
    PrefixGrows(s, s', js, js', c, After(Items(s, c), Some(id)));
  }

  lemma BasisGrows(s: Sys, s': Sys, j: JobId)
    requires Extends(s, s') && j in s.jobs
    ensures j in s'.jobs && Basis(s, j) <= Basis(s', j) && s.jobs.Keys <= s'.jobs.Keys
  {
    assert JobGrows(s.jobs[j], s'.jobs[j]);
  }

  lemma WorkerGrows(s: Sys, s': Sys, w: Worker)
    requires Extends(s, s') && WorkerOk(s, w)
    ensures WorkerOk(s', w)
  {
    BasisGrows(s, s', w.job);
    assert JobGrows(s.jobs[w.job], s'.jobs[w.job]);
    CursorsGrow(s, s', w.cursors);
    FinishedGrow(s, s', w, Basis(s, w.job), Basis(s', w.job));
    InHandGrows(s, s', w, Basis(s, w.job), Basis(s', w.job));
  }

  lemma CursorsGrow(s: Sys, s': Sys, cursors: map<Col, Id>)
    requires Extends(s, s') && CursorsOk(s, cursors)
    ensures CursorsOk(s', cursors)
  {
    forall c | c in cursors ensures Marked(s', s'.jobs.Keys, c, cursors[c]) {
      MarkedGrows(s, s', s.jobs.Keys, s'.jobs.Keys, c, cursors[c]);
    }
  }

  lemma FinishedGrow(s: Sys, s': Sys, w: Worker, js: set<JobId>, js': set<JobId>)
    requires Extends(s, s') && js <= js' && FinishedOk(s, w, js)
    ensures FinishedOk(s', w, js')
  {
    forall i | 0 <= i < Finished(w) ensures SpanCovered(s', js', w.plan, w.spans, i) {
      assert SpanCovered(s, js, w.plan, w.spans, i);
      PrefixGrows(s, s', js, js', w.plan[i], w.spans[i].hi);
    }
  }

  lemma InHandGrows(s: Sys, s': Sys, w: Worker, js: set<JobId>, js': set<JobId>)
    requires Extends(s, s') && js <= js' && InHandOk(s, w, js)
    ensures InHandOk(s', w, js')
  {
    match w.pc {
      case Open(i, resume) =>
        if resume.Some? { MarkedGrows(s, s', js, js', w.Collection(i), resume.value); }
      case Next(i, k, snap) =>
        PrefixGrows(s, s', js, js', w.Collection(i), k);
        assert Items(s, w.Collection(i)) <= Items(s', w.Collection(i));
      case InItem(i, k, snap, item, stage) =>
        PrefixGrows(s, s', js, js', w.Collection(i), k);
        assert Items(s, w.Collection(i)) <= Items(s', w.Collection(i));
        if Covered(s, js, w.Collection(i), k) { CoveredGrows(s, s', js, js', w.Collection(i), k); }
      case Publish(todo) =>
        CursorsGrow(s, s', todo);
      case _ =>
    }
  }

  lemma JobRowGrows(s: Sys, s': Sys, j: JobId, c: Col, id: Id)
    requires Extends(s, s') && j in s.jobs && Marked(s, Basis(s, j), c, id)
    ensures Marked(s', Basis(s', j), c, id)
  {
    BasisGrows(s, s', j);
    MarkedGrows(s, s', Basis(s, j), Basis(s', j), c, id);
  }

  // ---------------------------------------------------------------- the steps of other actions

  lemma SteadyKeepsInv(s: Sys, a: Action, s': Sys)
    requires Inv(s) && Steady(s, a, s') && SourceOk(s'.source) && (forall c :: Items(s, c) <= Items(s', c))
    ensures Inv(s')
  {
    forall j | j in s.jobs ensures j in s'.jobs && JobGrows(s.jobs[j], s'.jobs[j]) {
      assert SameButStatus(s.jobs[j], s'.jobs[j]);
    }
    forall j | j in s'.jobs ensures JobOk(s', j) { SteadyJob(s, a, s', j); }
    CursorsGrow(s, s', s.cursors);
    forall w | w in s'.workers ensures WorkerOk(s', s'.workers[w]) { SteadyWorker(s, a, s', w); }
  }

  lemma SteadyJob(s: Sys, a: Action, s': Sys, j: JobId)
    requires Inv(s) && Steady(s, a, s') && Extends(s, s') && j in s'.jobs
    ensures JobOk(s', j)
  {
    if j in s.jobs {
      assert JobOk(s, j) && SameButStatus(s.jobs[j], s'.jobs[j]);
      forall c | c in s'.jobs[j].row.checkpoints ensures Marked(s', Basis(s', j), c, s'.jobs[j].row.checkpoints[c]) {
        JobRowGrows(s, s', j, c, s.jobs[j].row.checkpoints[c]);
      }
    }
  }

  lemma SteadyWorker(s: Sys, a: Action, s': Sys, w: Wid)
    requires Inv(s) && Steady(s, a, s') && Extends(s, s') && w in s'.workers
    ensures WorkerOk(s', s'.workers[w])
  {
    if w in s.workers {
      WorkerGrows(s, s', s.workers[w]);
      assert SameButCrashed(s.workers[w], s'.workers[w]);
      SameButCrashedOk(s', s.workers[w], s'.workers[w]);
    } else {
      assert IsNewWorker(s, a, w, s'.workers[w]);
      NewWorkerOk(s, s', s'.workers[w], a);
    }
  }

  lemma SameButCrashedOk(s: Sys, a: Worker, b: Worker)
    requires WorkerOk(s, a) && SameButCrashed(a, b)
    ensures WorkerOk(s, b)
  {
    FinishedCarries(s, a, b);
  }

  lemma FinishedCarries(s: Sys, a: Worker, b: Worker)
    requires a.job in s.jobs && FinishedOk(s, a, Basis(s, a.job)) && b.job == a.job && b.plan == a.plan
    requires Finished(b) <= Finished(a) && |a.spans| <= |b.spans| && b.spans[..|a.spans|] == a.spans
    ensures FinishedOk(s, b, Basis(s, b.job))
  {
    forall i | 0 <= i < Finished(b) ensures SpanCovered(s, Basis(s, b.job), b.plan, b.spans, i) {
      assert SpanCovered(s, Basis(s, a.job), a.plan, a.spans, i);
      assert b.spans[i] == b.spans[..|a.spans|][i];
    }
  }

  lemma NewWorkerOk(s: Sys, s': Sys, r: Worker, a: Action)
    requires Inv(s) && Extends(s, s') && a.Start? && IsNewWorker(s, a, a.w, r)
    ensures WorkerOk(s', r)
  {
    BasisGrows(s, s', a.j);
    assert JobGrows(s.jobs[a.j], s'.jobs[a.j]);
    if s.jobs[a.j].incremental {
      if a.base.Some? {
        assert JobOk(s, a.base.value);
        forall c | c in r.cursors ensures Marked(s, s.jobs.Keys, c, r.cursors[c]) {
          MarkedGrows(s, s, Basis(s, a.base.value), s.jobs.Keys, c, r.cursors[c]);
        }
      }
      CursorsGrow(s, s', r.cursors);
    }
  }

  // ---------------------------------------------------------------- the steps of a worker

  /** What a worker's own call must leave true for its job, its cursors and itself. */
  lemma PutKeepsInv(s: Sys, w: Wid, v': View)
    requires Inv(s) && w in s.workers && SameIdentity(ViewOf(s, w), v')
    requires Extends(s, Put(s, w, v'))
    requires JobOk(Put(s, w, v'), s.workers[w].job) && WorkerOk(Put(s, w, v'), v'.worker)
    requires CursorsOk(s, v'.cursors)
    ensures Inv(Put(s, w, v'))
  {
    var s' := Put(s, w, v');
    forall j | j in s'.jobs ensures JobOk(s', j) {
      if j != s.workers[w].job {
        assert JobOk(s, j);
        forall c | c in s.jobs[j].row.checkpoints ensures Marked(s', Basis(s', j), c, s.jobs[j].row.checkpoints[c]) {
          JobRowGrows(s, s', j, c, s.jobs[j].row.checkpoints[c]);
        }
      }
    }
    CursorsGrow(s, s', v'.cursors);
    forall u | u in s'.workers ensures WorkerOk(s', s'.workers[u]) {
      if u != w { WorkerGrows(s, s', s.workers[u]); }
    }
  }

  lemma OwnCovered(s: Sys, j: JobId, c: Col, i: nat)
    requires j in s.jobs && i < |Items(s, c)| && Holds(s.jobs[j], c, i, Items(s, c)[i].fp)
    ensures Covered(s, Basis(s, j), c, i)
  {
  }

  /** Marking the item in hand moves the promise on by exactly one covered position. */
  lemma MarkPromises(s: Sys, js: set<JobId>, c: Col, k: nat)
    requires SourceOk(s.source) && k < |Items(s, c)| && Prefix(s, js, c, k) && Covered(s, js, c, k)
    ensures Prefix(s, js, c, k + 1) && Marked(s, js, c, Items(s, c)[k].id)
  {
    var ids := Ids(Items(s, c));
    assert ids[k] == Items(s, c)[k].id;
    IndexOfUnique(ids, k);
  }

  lemma PutExtends(s: Sys, w: Wid, v': View)
    requires w in s.workers && s.workers[w].job in s.jobs && JobGrows(s.jobs[s.workers[w].job], v'.job)
    ensures Extends(s, Put(s, w, v'))
  {
  }

  lemma ItemWork(s: Sys, w: Wid, ch: Choice)
    requires Inv(s) && w in s.workers && s.workers[w].pc.InItem?
    requires RunAccounting.Accounted(s.workers[w], s.jobs[s.workers[w].job].maxErrors)
    ensures Inv(Put(s, w, ItemStep(ViewOf(s, w), ch)))
  {
    var v := ViewOf(s, w);
    var v' := ItemStep(v, ch);
    var s' := Put(s, w, v');
    ItemStepGrows(v, ch);
    ItemStepKeepsIdentity(v, ch);
    PutExtends(s, w, v');
    WorkerGrows(s, s', v.worker);
    assert JobOk(s, v.worker.job);
    ItemCovered(s, s', v, ch);
    PutKeepsInv(s, w, v');
  }

  lemma ItemStepGrows(v: View, ch: Choice)
    requires v.worker.pc.InItem?
    ensures var v' := ItemStep(v, ch);
            JobGrows(v.job, v'.job) && v'.cursors == v.cursors && v'.worker.spans == v.worker.spans
            && (v'.worker.pc.InItem? || v'.worker.pc.Next? || v'.worker.pc.SetFailed?)
  {
    match v.worker.pc.stage {
      case Check => case CountSkip => case Upsert => case Record =>
      case CountNew => case CountDup => case Mark => case CountFailure =>
    }
  }

  /** s' is s after the call of `v`, whose own job is already known to have only grown. */
  ghost predicate Stepped(s: Sys, s': Sys, v: View, v': View) {
    && v.worker.job in s.jobs && v.job == s.jobs[v.worker.job] && JobOk(s, v.worker.job)
    && Extends(s, s') && SourceOk(s'.source) && WorkerOk(s', v.worker)
    && s'.jobs[v.worker.job] == v'.job && SameIdentity(v, v') && v'.worker.spans == v.worker.spans
    && RunAccounting.Accounted(v.worker, v.job.maxErrors)
  }

  lemma OldCheckpointsKept(s: Sys, s': Sys, j: JobId)
    requires j in s.jobs && JobOk(s, j) && Extends(s, s')
    ensures forall d :: d in s.jobs[j].row.checkpoints ==> Marked(s', Basis(s', j), d, s.jobs[j].row.checkpoints[d])
  {
    forall d | d in s.jobs[j].row.checkpoints ensures Marked(s', Basis(s', j), d, s.jobs[j].row.checkpoints[d]) {
      JobRowGrows(s, s', j, d, s.jobs[j].row.checkpoints[d]);
    }
  }

  lemma ItemCovered(s: Sys, s': Sys, v: View, ch: Choice)
    requires v.worker.pc.InItem? && Stepped(s, s', v, ItemStep(v, ch))
    ensures JobOk(s', v.worker.job) && WorkerOk(s', ItemStep(v, ch).worker)
  {
    ItemStepGrows(v, ch);
    var j, c, w' := v.worker.job, v.worker.Collection(v.worker.pc.i), ItemStep(v, ch).worker;
    FinishedCarries(s', v.worker, w');
    match v.worker.pc.stage {
      case Mark => MarkCovered(s, s', v, ch); MarkedRowOk(s, s', j, c, v.worker.pc.item.id);
      case CountFailure => FailureCovered(s, s', v, ch); FailedRowOk(s, s', j);
      case _ => StageFrame(v, ch); StageCovered(s, s', v, ch); SameRowOk(s, s', j);
    }
    WorkerCarries(s', v.worker, w');
  }

  lemma WorkerCarries(s: Sys, a: Worker, b: Worker)
    requires WorkerOk(s, a) && b.job == a.job && b.cursors == a.cursors
    requires FinishedOk(s, b, Basis(s, b.job)) && InHandOk(s, b, Basis(s, b.job))
    ensures WorkerOk(s, b)
  {
  }

  lemma MarkedRowOk(s: Sys, s': Sys, j: JobId, c: Col, id: Id)
    requires j in s.jobs && JobOk(s, j) && Extends(s, s') && Marked(s', Basis(s', j), c, id)
    requires s'.jobs[j].row.checkpoints == s.jobs[j].row.checkpoints[c := id]
    requires s'.jobs[j].row.failed == s.jobs[j].row.failed && s'.jobs[j].forgiven == s.jobs[j].forgiven
    ensures JobOk(s', j)
  {
    OldCheckpointsKept(s, s', j);
    assert JobGrows(s.jobs[j], s'.jobs[j]);
  }

  lemma FailedRowOk(s: Sys, s': Sys, j: JobId)
    requires j in s.jobs && JobOk(s, j) && Extends(s, s')
    requires s'.jobs[j].row.checkpoints == s.jobs[j].row.checkpoints
    requires |s'.jobs[j].forgiven| <= s'.jobs[j].row.failed
    requires s'.jobs[j].forgiven != {} ==> Threshold(s'.jobs[j].maxErrors) > 1
    ensures JobOk(s', j)
  {
    OldCheckpointsKept(s, s', j);
  }

  /** A job whose checkpoints, failures and tolerated positions did not change is still all right. */
  lemma SameRowOk(s: Sys, s': Sys, j: JobId)
    requires j in s.jobs && JobOk(s, j) && Extends(s, s')
    requires s'.jobs[j].row.checkpoints == s.jobs[j].row.checkpoints && s'.jobs[j].row.failed == s.jobs[j].row.failed
    requires s'.jobs[j].forgiven == s.jobs[j].forgiven
    ensures JobOk(s', j)
  {
    OldCheckpointsKept(s, s', j);
    assert JobGrows(s.jobs[j], s'.jobs[j]);
  }

  lemma StageFrame(v: View, ch: Choice)
    requires v.worker.pc.InItem? && v.worker.pc.stage !in {Mark, CountFailure}
    ensures var v' := ItemStep(v, ch);
            v'.job.row.checkpoints == v.job.row.checkpoints && v'.job.forgiven == v.job.forgiven
                && v'.job.row.failed == v.job.row.failed
  {
    match v.worker.pc.stage {
      case Check => case CountSkip => case Upsert => case Record => case CountNew => case CountDup =>
    }
  }

  lemma StageCovered(s: Sys, s': Sys, v: View, ch: Choice)
    requires v.worker.pc.InItem? && v.worker.pc.stage !in {Mark, CountFailure} && Stepped(s, s', v, ItemStep(v, ch))
    ensures InHandOk(s', ItemStep(v, ch).worker, Basis(s', v.worker.job))
  {
    match v.worker.pc.stage {
      case Check => LookupCovered(s, s', v, ch);
      case Record => RecordCovered(s, s', v, ch);
      case Upsert => UpsertCovered(s, s', v, ch);
      case _ => CountCovered(s, s', v, ch);
    }
  }

  lemma CountCovered(s: Sys, s': Sys, v: View, ch: Choice)
    requires v.worker.pc.InItem? && v.worker.pc.stage in {CountSkip, CountNew, CountDup}
             && Stepped(s, s', v, ItemStep(v, ch))
    ensures InHandOk(s', ItemStep(v, ch).worker, Basis(s', v.worker.job))
  {
    assert ItemStep(v, ch).worker.pc == v.worker.pc.(stage := Mark);
  }

  lemma UpsertCovered(s: Sys, s': Sys, v: View, ch: Choice)
    requires v.worker.pc.InItem? && v.worker.pc.stage == Upsert && Stepped(s, s', v, ItemStep(v, ch))
    ensures InHandOk(s', ItemStep(v, ch).worker, Basis(s', v.worker.job))
  {
  }

  lemma LookupCovered(s: Sys, s': Sys, v: View, ch: Choice)
    requires v.worker.pc.InItem? && v.worker.pc.stage == Check && Stepped(s, s', v, ItemStep(v, ch))
    ensures InHandOk(s', ItemStep(v, ch).worker, Basis(s', v.worker.job))
  {
    var j, c, k := v.worker.job, v.worker.Collection(v.worker.pc.i), v.worker.pc.k;
    assert Items(s', c)[k] == v.worker.pc.item;
    if v.worker.pc.item.fp in s'.jobs[j].row.ledger { OwnCovered(s', j, c, k); }
  }

  lemma RecordCovered(s: Sys, s': Sys, v: View, ch: Choice)
    requires v.worker.pc.InItem? && v.worker.pc.stage == Record && Stepped(s, s', v, ItemStep(v, ch))
    ensures InHandOk(s', ItemStep(v, ch).worker, Basis(s', v.worker.job))
  {
    RecordPlace(s', v, ch);
  }

  /** Once recorded, the item in hand covers its position. */
  lemma RecordPlace(s': Sys, v: View, ch: Choice)
    requires v.worker.pc.InItem? && v.worker.pc.stage == Record && WorkerOk(s', v.worker)
    requires s'.jobs[v.worker.job] == ItemStep(v, ch).job
    ensures InHandOk(s', ItemStep(v, ch).worker, Basis(s', v.worker.job))
  {
    var j, c, k := v.worker.job, v.worker.Collection(v.worker.pc.i), v.worker.pc.k;
    assert Items(s', c)[k] == v.worker.pc.item;
    OwnCovered(s', j, c, k);
  }

  lemma MarkCovered(s: Sys, s': Sys, v: View, ch: Choice)
    requires v.worker.pc.InItem? && v.worker.pc.stage == Mark && Stepped(s, s', v, ItemStep(v, ch))
    ensures InHandOk(s', ItemStep(v, ch).worker, Basis(s', v.worker.job))
    ensures var v', c := ItemStep(v, ch), v.worker.Collection(v.worker.pc.i);
            && v'.job.row.checkpoints == v.job.row.checkpoints[c := v.worker.pc.item.id]
            && Marked(s', Basis(s', v.worker.job), c, v.worker.pc.item.id)
            && v'.job.forgiven == v.job.forgiven && v'.job.row.failed == v.job.row.failed
  {
    MarkPromises(s', Basis(s', v.worker.job), v.worker.Collection(v.worker.pc.i), v.worker.pc.k);
  }

  lemma FailureFrame(v: View, ch: Choice)
    requires v.worker.pc.InItem? && v.worker.pc.stage == CountFailure && |v.job.forgiven| <= v.job.row.failed
    requires v.job.forgiven != {} ==> Threshold(v.job.maxErrors) > 1
    requires v.worker.runFailures < Threshold(v.job.maxErrors)
    ensures var v' := ItemStep(v, ch);
            && v'.job.row.checkpoints == v.job.row.checkpoints && |v'.job.forgiven| <= v'.job.row.failed
            && (v'.job.forgiven != {} ==> Threshold(v.job.maxErrors) > 1)
  {
  }

  lemma FailureCovered(s: Sys, s': Sys, v: View, ch: Choice)
    requires v.worker.pc.InItem? && v.worker.pc.stage == CountFailure && Stepped(s, s', v, ItemStep(v, ch))
    ensures InHandOk(s', ItemStep(v, ch).worker, Basis(s', v.worker.job))
    ensures var v' := ItemStep(v, ch);
            && v'.job.row.checkpoints == v.job.row.checkpoints && |v'.job.forgiven| <= v'.job.row.failed
            && (v'.job.forgiven != {} ==> Threshold(v.job.maxErrors) > 1)
  {
    FailureFrame(v, ch);
    FailurePlace(s', v, ch);
  }

  /** Going past a tolerated failure covers its position. */
  lemma FailurePlace(s': Sys, v: View, ch: Choice)
    requires v.worker.pc.InItem? && v.worker.pc.stage == CountFailure && WorkerOk(s', v.worker) && SourceOk(s'.source)
    requires s'.jobs[v.worker.job] == ItemStep(v, ch).job
    ensures InHandOk(s', ItemStep(v, ch).worker, Basis(s', v.worker.job))
  {
    if ItemStep(v, ch).worker.pc.Next? {
      var j, c, k := v.worker.job, v.worker.Collection(v.worker.pc.i), v.worker.pc.k;
      OwnCovered(s', j, c, k);
      MarkPromises(s', Basis(s', j), c, k);
    }
  }

  lemma CollectionWork(s: Sys, w: Wid, ch: Choice)
    requires Inv(s) && w in s.workers && InCollection(s.workers[w].pc)
    requires RunAccounting.Accounted(s.workers[w], s.jobs[s.workers[w].job].maxErrors)
    ensures Inv(Put(s, w, CollectionStep(ViewOf(s, w), s.source, ch)))
  {
    var v := ViewOf(s, w);
    var v' := CollectionStep(v, s.source, ch);
    var s' := Put(s, w, v');
    var j := v.worker.job;
    CollectionStepIsLocal(v, s.source, ch);
    PutExtends(s, w, v');
    WorkerGrows(s, s', v.worker);
    assert JobOk(s, j);
    OldCheckpointsKept(s, s', j);
    match v.worker.pc {
      case Open(_, _) => OpenCovered(s, s', v, ch);
      case Next(_, _, _) => NextCovered(s, s', v, ch);
      case _ => ChooseCovered(s, s', v, ch);
    }
    PutKeepsInv(s, w, v');
  }

  /** Choosing and seeding the cursor a collection resumes from. */
  lemma ChooseCovered(s: Sys, s': Sys, v: View, ch: Choice)
    requires InCollection(v.worker.pc) && !v.worker.pc.Open? && !v.worker.pc.Next?
    requires v.worker.job in s.jobs && v.job == s.jobs[v.worker.job] && JobOk(s, v.worker.job)
    requires SameIdentity(v, CollectionStep(v, s.source, ch))
    requires Extends(s, s') && WorkerOk(s', v.worker) && s'.jobs[v.worker.job] == CollectionStep(v, s.source, ch).job
    ensures WorkerOk(s', CollectionStep(v, s.source, ch).worker) && JobOk(s', v.worker.job)
  {
    OldCheckpointsKept(s, s', v.worker.job);
    assert JobGrows(v.job, s'.jobs[v.worker.job]);
    ChooseFrame(v, s.source, ch);
    FinishedCarries(s', v.worker, CollectionStep(v, s.source, ch).worker);
    if v.worker.pc.Seed? { SeedCovered(s', v, s.source, ch); } else { ReadCovered(s', v, s.source, ch); }
  }

  lemma ReadCovered(s': Sys, v: View, source: map<Col, seq<Item>>, ch: Choice)
    requires (v.worker.pc.Top? || v.worker.pc.ReadCheckpoint?) && v.worker.job in s'.jobs
    requires forall c :: c in v.job.row.checkpoints ==> Marked(s', Basis(s', v.worker.job), c, v.job.row.checkpoints[c])
    ensures InHandOk(s', CollectionStep(v, source, ch).worker, Basis(s', v.worker.job))
    ensures CollectionStep(v, source, ch).job == v.job
  {
  }

  lemma SeedCovered(s': Sys, v: View, source: map<Col, seq<Item>>, ch: Choice)
    requires v.worker.pc.Seed? && WorkerOk(s', v.worker) && s'.jobs[v.worker.job] == CollectionStep(v, source, ch).job
    requires s'.jobs[v.worker.job].incremental == v.job.incremental
    requires forall c :: c in v.job.row.checkpoints ==> Marked(s', Basis(s', v.worker.job), c, v.job.row.checkpoints[c])
    requires |v.job.forgiven| <= v.job.row.failed && (v.job.forgiven != {} ==> Threshold(v.job.maxErrors) > 1)
    ensures InHandOk(s', CollectionStep(v, source, ch).worker, Basis(s', v.worker.job)) && JobOk(s', v.worker.job)
  {
    var c := v.worker.Collection(v.worker.pc.i);
    if c in v.worker.cursors { assert Marked(s', s'.jobs.Keys, c, v.worker.cursors[c]); }
  }

  lemma ChooseFrame(v: View, source: map<Col, seq<Item>>, ch: Choice)
    requires InCollection(v.worker.pc) && !v.worker.pc.Open? && !v.worker.pc.Next?
    ensures var w' := CollectionStep(v, source, ch).worker;
            w'.spans == v.worker.spans && Finished(w') == Finished(v.worker)
  {
    match v.worker.pc {
      case Top(_) => case ReadCheckpoint(_) => case Seed(_) =>
    }
  }

  lemma OpenCovered(s: Sys, s': Sys, v: View, ch: Choice)
    requires v.worker.pc.Open? && Extends(s, s') && s'.source == s.source && WorkerOk(s', v.worker)
    requires RunAccounting.Placed(v.worker)
    ensures WorkerOk(s', CollectionStep(v, s.source, ch).worker)
  {
    var w' := CollectionStep(v, s.source, ch).worker;
    FinishedCarries(s', v.worker, w');
  }

  lemma NextCovered(s: Sys, s': Sys, v: View, ch: Choice)
    requires v.worker.pc.Next? && Extends(s, s') && s'.source == s.source && WorkerOk(s', v.worker)
    requires RunAccounting.Placed(v.worker) && s'.jobs[v.worker.job] == CollectionStep(v, s.source, ch).job
    ensures WorkerOk(s', CollectionStep(v, s.source, ch).worker)
  {
    var w, w' := v.worker, CollectionStep(v, s.source, ch).worker;
    NextFrame(v, s.source, ch);
    var js := Basis(s', w.job);
    if w'.pc.Next? { OwnCovered(s', w.job, w.Collection(w.pc.i), w.pc.k); }
    forall i | 0 <= i < Finished(w') ensures SpanCovered(s', js, w'.plan, w'.spans, i) {
      if i < Finished(w) { assert SpanCovered(s', js, w.plan, w.spans, i); }
    }
  }

  /** The iterator passed over the position it stood at. */
  predicate PassedAt(v: View, v': View) {
    v.worker.pc.Next? && (v.worker.Collection(v.worker.pc.i), v.worker.pc.k) in v'.job.passed
  }

  /** The last span is finished when its listing ends. */
  lemma NextFrame(v: View, source: map<Col, seq<Item>>, ch: Choice)
    requires v.worker.pc.Next? && RunAccounting.Placed(v.worker)
    ensures var w, w' := v.worker, CollectionStep(v, source, ch).worker;
            && w'.spans == w.spans && w'.plan == w.plan && w'.job == w.job && w'.cursors == w.cursors
            && (w'.pc.Top? || w'.pc.SetFailed? || w'.pc == Next(w.pc.i, w.pc.k + 1, w.pc.snap)
                || (w'.pc.InItem? && w'.pc == InItem(w.pc.i, w.pc.k, w.pc.snap, w'.pc.item, Check)))
            && (w'.pc.Next? ==> w.pc.k < |w.pc.snap| && PassedAt(v, CollectionStep(v, source, ch)))
            && (w'.pc.InItem? ==> w.pc.k < |w.pc.snap| && w'.pc.item == w.pc.snap[w.pc.k])
            && Finished(w) == w.pc.i && |w.spans| == w.pc.i + 1
            && Finished(w') <= w.pc.i + 1
            && (Finished(w') == w.pc.i + 1 ==> w.pc.k == w.spans[w.pc.i].hi)
  {
  }

  lemma JobWork(s: Sys, w: Wid, ch: Choice)
    requires Inv(s) && w in s.workers && !s.workers[w].pc.InItem? && !InCollection(s.workers[w].pc)
    ensures Inv(Put(s, w, JobStep(ViewOf(s, w), ch)))
  {
    var v := ViewOf(s, w);
    var v' := JobStep(v, ch);
    var s' := Put(s, w, v');
    JobStepIsLocal(v, ch);
    PutExtends(s, w, v');
    WorkerGrows(s, s', v.worker);
    assert JobOk(s, v.worker.job);
    OldCheckpointsKept(s, s', v.worker.job);
    JobStepCovered(s, s', v, ch);
    PutKeepsInv(s, w, v');
  }

  lemma JobStepCovered(s: Sys, s': Sys, v: View, ch: Choice)
    requires !v.worker.pc.InItem? && !InCollection(v.worker.pc) && v.worker.job in s.jobs
             && v.job == s.jobs[v.worker.job]
    requires JobOk(s, v.worker.job) && CursorsOk(s, v.cursors) && WorkerOk(s, v.worker)
    requires Extends(s, s') && WorkerOk(s', v.worker) && SameIdentity(v, JobStep(v, ch))
    ensures WorkerOk(s', JobStep(v, ch).worker) && CursorsOk(s, JobStep(v, ch).cursors)
  {
    JobStepFrame(v, ch);
    FinishedCarries(s', v.worker, JobStep(v, ch).worker);
    if v.worker.pc.ReadCheckpoints? {
      BasisGrows(s, s', v.worker.job);
      forall c | c in v.job.row.checkpoints ensures Marked(s', s'.jobs.Keys, c, v.job.row.checkpoints[c]) {
        MarkedGrows(s, s', Basis(s, v.worker.job), s'.jobs.Keys, c, v.job.row.checkpoints[c]);
      }
    }
  }

  lemma JobStepFrame(v: View, ch: Choice)
    requires !v.worker.pc.InItem? && !InCollection(v.worker.pc)
    ensures var v' := JobStep(v, ch);
            && v'.worker.spans == v.worker.spans && Finished(v'.worker) <= Finished(v.worker) && !v'.worker.pc.Open?
            && (v.worker.pc.ReadCheckpoints? ==> v'.worker.pc == Publish(v.job.row.checkpoints))
            && (v'.worker.pc.Publish? && !v.worker.pc.ReadCheckpoints? ==>
                  v.worker.pc.Publish? && forall c :: c in v'.worker.pc.todo ==>
                    c in v.worker.pc.todo && v'.worker.pc.todo[c] == v.worker.pc.todo[c])
            && (forall c :: c in v'.cursors ==>
                  (c in v.cursors && v'.cursors[c] == v.cursors[c])
                  || (v.worker.pc.Publish? && c in v.worker.pc.todo && v'.cursors[c] == v.worker.pc.todo[c]))
            && !v'.worker.pc.Next? && !v'.worker.pc.InItem?
  {
    match v.worker.pc {
      case Load => case SetRunning => case Validate => case SetCompleted => case ReadCheckpoints =>
      case Publish(_) => case SetFailed(_) => case SetCancelled(_) => case Done(_) =>
    }
  }

  // ---------------------------------------------------------------- every run over an append-only source

  predicate AppendOnly(acts: seq<Action>) { forall i :: 0 <= i < |acts| ==> !acts[i].Rewrite? }

  lemma AppendKeepsOrder(s: Sys, a: Action)
    requires !a.Work? && !a.Rewrite? && SourceOk(s.source)
    ensures var s' := Apply(s, a); SourceOk(s'.source) && forall c :: Items(s, c) <= Items(s', c)
  {
  }

  lemma {:induction false} Always(source: map<Col, seq<Item>>, acts: seq<Action>)
    requires SourceOk(source) && AppendOnly(acts)
    ensures Inv(Execute(Initial(source), acts))
  {
    if acts == [] {
    } else {
      var before, last := Execute(Initial(source), acts[..|acts| - 1]), acts[|acts| - 1];
      Always(source, acts[..|acts| - 1]);
      RunAccounting.Always(source, acts[..|acts| - 1]);
      if !last.Work? {
        OtherActionsAreSteady(before, last);
        AppendKeepsOrder(before, last);
        SteadyKeepsInv(before, last, Apply(before, last));
      } else if last.w in before.workers && !before.workers[last.w].crashed {
        var pc := before.workers[last.w].pc;
        if pc.InItem? { ItemWork(before, last.w, last.ch); }
        else if InCollection(pc) { CollectionWork(before, last.w, last.ch); }
        else { JobWork(before, last.w, last.ch); }
      }
    }
  }

  /** Items at or before a checkpoint of job j whose fingerprint is not in its ledger. */
  ghost function Lost(s: Sys, j: JobId): set<(Col, nat)>
    requires j in s.jobs
  {
    set c, i: nat | c in s.jobs[j].row.checkpoints && 0 <= i < After(Items(s, c), Some(s.jobs[j].row.checkpoints[c]))
                    && Items(s, c)[i].fp !in s.jobs[j].row.ledger :: (c, i)
  }

  /** The loss bound of a full-mode job, over every interleaving, crash, failure and resume: what is lost
      was failed on and tolerated, or passed over by an iterator. */
  lemma LostAtMostFailed(source: map<Col, seq<Item>>, acts: seq<Action>, j: JobId)
    requires SourceOk(source) && AppendOnly(acts)
    requires var s := Execute(Initial(source), acts); j in s.jobs && !s.jobs[j].incremental
    ensures var s := Execute(Initial(source), acts);
            && Lost(s, j) <= s.jobs[j].forgiven + s.jobs[j].passed
            && |Lost(s, j)| <= s.jobs[j].row.failed + |s.jobs[j].passed|
            && (s.jobs[j].maxErrors <= 1 ==> Lost(s, j) <= s.jobs[j].passed)
  {
    Always(source, acts);
    var s := Execute(Initial(source), acts);
    assert JobOk(s, j);
    forall c, i: nat | (c, i) in Lost(s, j) ensures (c, i) in s.jobs[j].forgiven + s.jobs[j].passed {
      assert Marked(s, {j}, c, s.jobs[j].row.checkpoints[c]);
      assert Covered(s, {j}, c, i);
    }
    UnionBound(Lost(s, j), s.jobs[j].forgiven, s.jobs[j].passed);
  }

  lemma UnionBound<T>(x: set<T>, a: set<T>, b: set<T>)
    requires x <= a + b
    ensures |x| <= |a| + |b|
  {
    SubsetSmaller(x - a, b);
    SubsetSmaller(x * a, a);
    assert x == (x - a) + (x * a);
  }

  lemma SubsetSmaller<T>(a: set<T>, b: set<T>)
    requires a <= b
    ensures |a| <= |b|
  {
    assert b == a + (b - a);
  }

  // ---------------------------------------------------------------- the same for the shared cursors

  /** Items at or before a sync cursor whose fingerprint is in no job's ledger. */
  ghost function Missed(s: Sys): set<(Col, nat)> {
    set c, i: nat | c in s.cursors && 0 <= i < After(Items(s, c), Some(s.cursors[c]))
                    && !InSomeLedger(s, Items(s, c)[i].fp) :: (c, i)
  }

  ghost predicate InSomeLedger(s: Sys, fp: Fp) { exists j :: j in s.jobs && fp in s.jobs[j].row.ledger }

  /** Job j failed on this position and went past it, or its iterator passed over it. */
  ghost predicate WentPast(s: Sys, j: JobId, p: (Col, nat)) {
    j in s.jobs && (p in s.jobs[j].forgiven || p in s.jobs[j].passed)
  }

  /** Failures and passed positions of the listed jobs, in all. */
  function Allowance(jobs: map<JobId, Job>, listed: seq<JobId>): nat {
    if listed == [] then 0
    else
      (if listed[0] in jobs then jobs[listed[0]].row.failed + |jobs[listed[0]].passed| else 0)
          + Allowance(jobs, listed[1..])
  }

  lemma {:induction false} AllowanceBounds(s: Sys, x: set<(Col, nat)>, listed: seq<JobId>)
    requires forall j :: j in s.jobs ==> JobOk(s, j)
    requires forall p :: p in x ==> exists j :: j in listed && WentPast(s, j, p)
    ensures |x| <= Allowance(s.jobs, listed)
  {
    if listed == [] {
      assert x == {};
    } else {
      var j := listed[0];
      var own := set p | p in x && WentPast(s, j, p);
      forall p | p in x - own ensures exists k :: k in listed[1..] && WentPast(s, k, p) {
        var k :| k in listed && WentPast(s, k, p);
        assert k != j && k in listed[1..];
      }
      AllowanceBounds(s, x - own, listed[1..]);
      if j in s.jobs {
        assert JobOk(s, j);
        UnionBound(own, s.jobs[j].forgiven, s.jobs[j].passed);
      } else {
        assert own == {};
      }
      assert x == own + (x - own);
    }
  }

  /** The loss bound of the shared cursors, whatever the error thresholds of the jobs: an item at or
      before a cursor that is in no ledger was gone past by some job, so they number at most what all
      jobs together failed on or passed over. */
  lemma MissedAtMostFailed(source: map<Col, seq<Item>>, acts: seq<Action>, listed: seq<JobId>)
    requires SourceOk(source) && AppendOnly(acts)
    requires forall j :: j in Execute(Initial(source), acts).jobs ==> j in listed
    ensures var s := Execute(Initial(source), acts);
            && (forall p :: p in Missed(s) ==> exists j :: WentPast(s, j, p))
            && |Missed(s)| <= Allowance(s.jobs, listed)
  {
    Always(source, acts);
    var s := Execute(Initial(source), acts);
    forall c, i: nat | (c, i) in Missed(s) ensures exists j :: j in listed && WentPast(s, j, (c, i)) {
      MissedGonePast(s, c, i);
    }
    AllowanceBounds(s, Missed(s), listed);
  }

  lemma MissedGonePast(s: Sys, c: Col, i: nat)
    requires Inv(s) && (c, i) in Missed(s)
    ensures exists j :: WentPast(s, j, (c, i))
  {
    assert Marked(s, s.jobs.Keys, c, s.cursors[c]);
    assert Covered(s, s.jobs.Keys, c, i);
    var b :| b in s.jobs && Holds(s.jobs[b], c, i, Items(s, c)[i].fp);
    assert WentPast(s, b, (c, i));
  }
}
