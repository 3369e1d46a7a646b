/** How runs end. A run in which no call raises takes its job to COMPLETED, or to CANCELLED exactly when it
    met a stop request with a collection left to begin; and nothing that happens to a job puts it out of
    reach: cancelled, failed, crashed or marked as stuck, it can be resumed. */
module Progress {
  import opened Cursors
  import opened MigrationProtocol
  import RunAccounting

  /** Not failing. */
  predicate OnTrack(pc: PC) {
    && !pc.SetFailed? && !(pc.InItem? && pc.stage == CountFailure)
    && (pc.Done? ==> !pc.outcome.RanFailed?)
  }

  /** The status that goes with a worker's place: RUNNING from the first call to the last but one. */
  predicate StatusAgrees(v: View) {
    match v.worker.pc
    case Load => true
    case SetRunning => true
    case SetFailed(_) => true
    case ReadCheckpoints => v.job.row.status == Completed
    case Publish(_) => v.job.row.status == Completed
    case Done(outcome) => outcome.RanFailed? || v.job.row.status == StatusOf(outcome)
    case _ => v.job.row.status == Running
  }

  // ---------------------------------------------------------------- how far a run still has to go

  function Phase(pc: PC): nat {
    match pc
    case Load => 7
    case SetRunning => 6
    case Validate => 5
    case SetCompleted => 3
    case ReadCheckpoints => 2
    case Publish(_) => 1
    case SetFailed(_) => 1
    case SetCancelled(_) => 1
    case Done(_) => 0
    case _ => 4
  }

  function CollectionsLeft(w: Worker): nat {
    var i := match w.pc
             case Top(i) => i
             case ReadCheckpoint(i) => i
             case Seed(i) => i
             case Open(i, _) => i
             case Next(i, _, _) => i
             case InItem(i, _, _, _, _) => i
             case _ => 0;
    if i < |w.plan| then |w.plan| - i else 0
  }

  function Opening(pc: PC): nat {
    match pc case Top(_) => 4 case ReadCheckpoint(_) => 3 case Seed(_) => 2 case Open(_, _) => 1 case _ => 0
  }

  function ItemsLeft(pc: PC): nat {
    match pc
    case Next(_, k, snap) => if k < |snap| then |snap| - k else 0
    case InItem(_, k, snap, _, _) => if k < |snap| then |snap| - k else 0
    case Publish(todo) => |todo|
    case _ => 0
  }

  function StagesLeft(pc: PC): nat {
    match pc
    case Next(_, _, _) => 6
    case InItem(_, _, _, _, Check) => 5
    case InItem(_, _, _, _, Upsert) => 4
    case InItem(_, _, _, _, Record) => 3
    case InItem(_, _, _, _, Mark) => 1
    case InItem(_, _, _, _, _) => 2
    case _ => 0
  }

  predicate Nearer(a: Worker, b: Worker) {
    || Phase(b.pc) < Phase(a.pc)
    || (Phase(b.pc) == Phase(a.pc) &&
         (|| CollectionsLeft(b) < CollectionsLeft(a)
          || (CollectionsLeft(b) == CollectionsLeft(a) &&
               (|| Opening(b.pc) < Opening(a.pc)
                || (Opening(b.pc) == Opening(a.pc) &&
                     (|| ItemsLeft(b.pc) < ItemsLeft(a.pc)
                      || (ItemsLeft(b.pc) == ItemsLeft(a.pc) && StagesLeft(b.pc) < StagesLeft(a.pc))))))))
  }

  // ---------------------------------------------------------------- one call that does not raise

  lemma CalmItemStep(v: View, ch: Choice)
    requires v.worker.pc.InItem? && OnTrack(v.worker.pc) && !ch.raises && v.worker.pc.k < |v.worker.pc.snap|
    requires StatusAgrees(v)
    ensures var v' := ItemStep(v, ch); OnTrack(v'.worker.pc) && Nearer(v.worker, v'.worker) && StatusAgrees(v')
  {
    match v.worker.pc.stage {
      case Upsert => CalmWrite(v, ch);
      case Record => CalmWrite(v, ch);
      case Mark => CalmMark(v, ch);
      case Check => case CountSkip => case CountNew => case CountDup =>
    }
  }

  lemma CalmWrite(v: View, ch: Choice)
    requires v.worker.pc.InItem? && v.worker.pc.stage in {Upsert, Record} && !ch.raises && StatusAgrees(v)
    ensures var v' := ItemStep(v, ch); OnTrack(v'.worker.pc) && Nearer(v.worker, v'.worker) && StatusAgrees(v')
  {
  }

  lemma CalmMark(v: View, ch: Choice)
    requires v.worker.pc.InItem? && v.worker.pc.stage == Mark && v.worker.pc.k < |v.worker.pc.snap| && StatusAgrees(v)
    ensures var v' := ItemStep(v, ch); OnTrack(v'.worker.pc) && Nearer(v.worker, v'.worker) && StatusAgrees(v')
  {
  }

  lemma CalmCollectionStep(v: View, source: map<Col, seq<Item>>, ch: Choice)
    requires InCollection(v.worker.pc) && !ch.raises && RunAccounting.Placed(v.worker) && StatusAgrees(v)
    ensures var v' := CollectionStep(v, source, ch);
            OnTrack(v'.worker.pc) && Nearer(v.worker, v'.worker) && StatusAgrees(v')
  {
    match v.worker.pc {
      case Open(_, _) => CalmOpening(v, source, ch);
      case Next(_, _, _) => CalmPull(v, source, ch);
      case Top(_) => CalmTop(v, source, ch);
      case ReadCheckpoint(_) => CalmChoosing(v, source, ch);
      case Seed(_) => CalmSeeding(v, source, ch);
    }
  }

  lemma CalmTop(v: View, source: map<Col, seq<Item>>, ch: Choice)
    requires v.worker.pc.Top? && StatusAgrees(v)
    ensures var v' := CollectionStep(v, source, ch);
            OnTrack(v'.worker.pc) && Nearer(v.worker, v'.worker) && StatusAgrees(v')
  {
  }

  lemma CalmChoosing(v: View, source: map<Col, seq<Item>>, ch: Choice)
    requires v.worker.pc.ReadCheckpoint? && StatusAgrees(v)
    ensures var v' := CollectionStep(v, source, ch);
            OnTrack(v'.worker.pc) && Nearer(v.worker, v'.worker) && StatusAgrees(v')
  {
  }

  lemma CalmSeeding(v: View, source: map<Col, seq<Item>>, ch: Choice)
    requires v.worker.pc.Seed? && StatusAgrees(v)
    ensures var v' := CollectionStep(v, source, ch);
            OnTrack(v'.worker.pc) && Nearer(v.worker, v'.worker) && StatusAgrees(v')
  {
  }

  lemma CalmOpening(v: View, source: map<Col, seq<Item>>, ch: Choice)
    requires v.worker.pc.Open? && !ch.raises && StatusAgrees(v)
    ensures var v' := CollectionStep(v, source, ch);
            OnTrack(v'.worker.pc) && Nearer(v.worker, v'.worker) && StatusAgrees(v')
  {
  }

  lemma CalmPull(v: View, source: map<Col, seq<Item>>, ch: Choice)
    requires v.worker.pc.Next? && !ch.raises && RunAccounting.Placed(v.worker) && StatusAgrees(v)
    ensures var v' := CollectionStep(v, source, ch);
            OnTrack(v'.worker.pc) && Nearer(v.worker, v'.worker) && StatusAgrees(v')
  {
  }

  lemma CalmJobStep(v: View, ch: Choice)
    requires !v.worker.pc.InItem? && !InCollection(v.worker.pc) && !v.worker.pc.Done?
    requires OnTrack(v.worker.pc) && StatusAgrees(v) && !ch.raises
    ensures var v' := JobStep(v, ch); OnTrack(v'.worker.pc) && Nearer(v.worker, v'.worker) && StatusAgrees(v')
  {
    match v.worker.pc {
      case Publish(_) => CalmPublishing(v, ch);
      case Load => case SetRunning => case Validate => case SetCompleted =>
      case ReadCheckpoints => case SetCancelled(_) =>
    }
  }

  lemma CalmPublishing(v: View, ch: Choice)
    requires v.worker.pc.Publish? && StatusAgrees(v)
    ensures var v' := JobStep(v, ch); OnTrack(v'.worker.pc) && Nearer(v.worker, v'.worker) && StatusAgrees(v')
  {
    var todo := v.worker.pc.todo;
    if todo != map[] { CalmPublishOne(v, ch, todo, LeastKey(todo)); }
  }

  lemma CalmPublishOne(v: View, ch: Choice, todo: map<Col, Id>, c: Col)
    requires v.worker.pc == Publish(todo) && todo != map[] && c == LeastKey(todo) && StatusAgrees(v)
    ensures var v' := JobStep(v, ch); OnTrack(v'.worker.pc) && Nearer(v.worker, v'.worker) && StatusAgrees(v')
  {
    Fewer(todo, c);
    assert JobStep(v, ch) == v.(cursors := v.cursors[c := todo[c]]).To(Publish(todo - {c}));
  }

  lemma Fewer(todo: map<Col, Id>, c: Col)
    requires c in todo
    ensures |todo - {c}| < |todo|
  {
    assert todo == (todo - {c})[c := todo[c]];
  }

  ghost predicate Underway(s: Sys, w: Wid) {
    && w in s.workers && !s.workers[w].crashed && s.workers[w].job in s.jobs
    && RunAccounting.Accounted(s.workers[w], s.jobs[s.workers[w].job].maxErrors)
    && OnTrack(s.workers[w].pc) && StatusAgrees(ViewOf(s, w))
  }

  lemma CalmStep(s: Sys, w: Wid, ch: Choice)
    requires Underway(s, w) && !s.workers[w].pc.Done? && !ch.raises
    ensures var s' := Apply(s, Work(w, ch));
            Underway(s', w) && Nearer(s.workers[w], s'.workers[w]) && s'.workers[w].job == s.workers[w].job
  {
    var v := ViewOf(s, w);
    StepKeepsIdentity(v, s.source, ch);
    if v.worker.pc.InItem? {
      CalmItemStep(v, ch);
      RunAccounting.ItemStepAccounted(v, ch);
    } else if InCollection(v.worker.pc) {
      CalmCollectionStep(v, s.source, ch);
      RunAccounting.CollectionStepAccounted(v, s.source, ch);
    } else {
      CalmJobStep(v, ch);
      RunAccounting.JobStepAccounted(v, ch);
    }
    assert ViewOf(Apply(s, Work(w, ch)), w) == LocalStep(v, s.source, ch);
  }

  // ---------------------------------------------------------------- which requests and raises a run met

  /** The answer finds the worker about to begin a collection and requests a stop. */
  predicate StopsAt(t: Sys, w: Wid, ch: Choice) {
    w in t.workers && t.workers[w].pc.Top? && t.workers[w].pc.i < |t.workers[w].plan| && ch.stop
  }

  /** The answer raises where nothing but the outer try catches it. */
  predicate RaisesAt(t: Sys, w: Wid, ch: Choice) {
    && w in t.workers && ch.raises
    && (t.workers[w].pc.Validate? || t.workers[w].pc.Open? || t.workers[w].pc.Next?)
  }

  /** One of the first n answers stopped the run. */
  predicate StopMet(s: Sys, w: Wid, answers: nat -> Choice, n: nat) {
    n > 0 && (StopMet(s, w, answers, n - 1) || StopsAt(Course(s, w, answers, n - 1), w, answers(n - 1)))
  }

  predicate RaiseMet(s: Sys, w: Wid, answers: nat -> Choice, n: nat) {
    n > 0 && (RaiseMet(s, w, answers, n - 1) || RaisesAt(Course(s, w, answers, n - 1), w, answers(n - 1)))
  }

  predicate Cancelling(pc: PC) { pc.SetCancelled? || pc == Done(RanCancelled) }

  predicate Breaking(pc: PC) { pc == SetFailed(false) || pc == Done(RanFailed(false)) }

  lemma ItemEnds(v: View, ch: Choice)
    requires v.worker.pc.InItem?
    ensures !Cancelling(ItemStep(v, ch).worker.pc) && !Breaking(ItemStep(v, ch).worker.pc)
  {
    match v.worker.pc.stage {
      case Check => case CountSkip => case Upsert => case Record =>
      case CountNew => case CountDup => case Mark => case CountFailure =>
    }
  }

  lemma CollectionEnds(v: View, source: map<Col, seq<Item>>, ch: Choice)
    requires InCollection(v.worker.pc)
    ensures var pc, pc' := v.worker.pc, CollectionStep(v, source, ch).worker.pc;
            && (Cancelling(pc') <==> pc.Top? && pc.i < |v.worker.plan| && ch.stop)
            && (Breaking(pc') <==> (pc.Open? || pc.Next?) && ch.raises)
  {
    match v.worker.pc {
      case Open(_, _) => ListingEnds(v, source, ch);
      case Next(_, _, _) => ListingEnds(v, source, ch);
      case _ => ChoosingEnds(v, source, ch);
    }
  }

  lemma ListingEnds(v: View, source: map<Col, seq<Item>>, ch: Choice)
    requires v.worker.pc.Open? || v.worker.pc.Next?
    ensures var pc' := CollectionStep(v, source, ch).worker.pc; !Cancelling(pc') && (Breaking(pc') <==> ch.raises)
  {
  }

  lemma ChoosingEnds(v: View, source: map<Col, seq<Item>>, ch: Choice)
    requires v.worker.pc.Top? || v.worker.pc.ReadCheckpoint? || v.worker.pc.Seed?
    ensures var pc, pc' := v.worker.pc, CollectionStep(v, source, ch).worker.pc;
            !Breaking(pc') && (Cancelling(pc') <==> pc.Top? && pc.i < |v.worker.plan| && ch.stop)
  {
  }

  lemma JobEnds(v: View, ch: Choice)
    requires !v.worker.pc.InItem? && !InCollection(v.worker.pc)
    ensures var pc, pc' := v.worker.pc, JobStep(v, ch).worker.pc;
            && (Cancelling(pc') <==> Cancelling(pc))
            && (Breaking(pc') <==> Breaking(pc) || (pc.Validate? && ch.raises))
  {
    match v.worker.pc {
      case Load => case SetRunning => case Validate => case SetCompleted => case ReadCheckpoints =>
      case Publish(_) => case SetFailed(_) => case SetCancelled(_) => case Done(_) =>
    }
  }

  ghost predicate OnCourse(s: Sys, w: Wid) { w in s.workers && !s.workers[w].crashed && s.workers[w].job in s.jobs }

  /** How the worker's run is ending: stopped, broken by a raise, or neither. */
  ghost predicate EndsBy(t: Sys, w: Wid, j: JobId, stopped: bool, raised: bool) {
    && OnCourse(t, w) && t.workers[w].job == j
    && (Cancelling(t.workers[w].pc) <==> stopped) && (Breaking(t.workers[w].pc) <==> raised)
  }

  lemma EndingStep(s: Sys, w: Wid, ch: Choice, stopped: bool, raised: bool)
    requires w in s.workers && EndsBy(s, w, s.workers[w].job, stopped, raised)
    ensures EndsBy(Apply(s, Work(w, ch)), w, s.workers[w].job,
                   stopped || StopsAt(s, w, ch), raised || RaisesAt(s, w, ch))
  {
    var v := ViewOf(s, w);
    StepKeepsIdentity(v, s.source, ch);
    if v.worker.pc.InItem? { ItemEnds(v, ch); }
    else if InCollection(v.worker.pc) { CollectionEnds(v, s.source, ch); }
    else { JobEnds(v, ch); }
  }

  lemma EndingNext(t: Sys, w: Wid, j: JobId, ch: Choice, stopped: bool, raised: bool,
                   t': Sys, stopped': bool, raised': bool)
    requires EndsBy(t, w, j, stopped, raised) && t' == Apply(t, Work(w, ch))
    requires (stopped' <==> stopped || StopsAt(t, w, ch)) && (raised' <==> raised || RaisesAt(t, w, ch))
    ensures EndsBy(t', w, j, stopped', raised')
  {
    EndingStep(t, w, ch, stopped, raised);
  }

  lemma {:induction false} EndsFrom(s: Sys, w: Wid, j: JobId, answers: nat -> Choice, sofar: nat, n: nat)
    requires sofar <= n
    requires EndsBy(Course(s, w, answers, sofar), w, j, StopMet(s, w, answers, sofar), RaiseMet(s, w, answers, sofar))
    ensures EndsBy(Course(s, w, answers, n), w, j, StopMet(s, w, answers, n), RaiseMet(s, w, answers, n))
    decreases n - sofar
  {
    if sofar < n {
      var m := sofar + 1;
      EndingNext(Course(s, w, answers, sofar), w, j, answers(sofar),
                 StopMet(s, w, answers, sofar), RaiseMet(s, w, answers, sofar),
                 Course(s, w, answers, m), StopMet(s, w, answers, m), RaiseMet(s, w, answers, m));
      EndsFrom(s, w, j, answers, m, n);
    }
  }

  lemma EndsAtStart(s: Sys, w: Wid, answers: nat -> Choice)
    requires OnCourse(s, w) && !Cancelling(s.workers[w].pc) && !Breaking(s.workers[w].pc)
    ensures EndsBy(Course(s, w, answers, 0), w, s.workers[w].job, StopMet(s, w, answers, 0), RaiseMet(s, w, answers, 0))
  {
  }

  /** A run, whatever its answers, is ending CANCELLED exactly when one of them stopped it before a
      collection, and FAILED without having reached its threshold exactly when one of them raised. */
  lemma EndsExactly(s: Sys, w: Wid, answers: nat -> Choice, n: nat)
    requires OnCourse(s, w) && !Cancelling(s.workers[w].pc) && !Breaking(s.workers[w].pc)
    ensures EndsBy(Course(s, w, answers, n), w, s.workers[w].job, StopMet(s, w, answers, n), RaiseMet(s, w, answers, n))
  {
    EndsAtStart(s, w, answers);
    EndsFrom(s, w, s.workers[w].job, answers, 0, n);
  }

  // ---------------------------------------------------------------- every run in which no call raises

  /** As long as the run goes on, no answer raises. */
  ghost predicate AlwaysCalm(s: Sys, w: Wid, answers: nat -> Choice) { forall n: nat :: CalmAnswer(s, w, answers, n) }

  predicate CalmAnswer(s: Sys, w: Wid, answers: nat -> Choice, n: nat) {
    GoesOn(Course(s, w, answers, n), w) ==> !answers(n).raises
  }

  predicate GoesOn(t: Sys, w: Wid) { w in t.workers && !t.workers[w].pc.Done? }

  /** A run that is left alone and in which no call raises ends after finitely many calls, and not
      FAILED, whatever else the environment answers. */
  lemma {:induction false} CalmRunEnds(s: Sys, w: Wid, answers: nat -> Choice, sofar: nat) returns (n: nat)
    requires AlwaysCalm(s, w, answers) && Underway(Course(s, w, answers, sofar), w)
    ensures sofar <= n
    ensures var t := Course(s, w, answers, n);
            && Underway(t, w) && t.workers[w].pc.Done?
            && t.workers[w].job == Course(s, w, answers, sofar).workers[w].job
    decreases Phase(At(s, w, answers, sofar).pc), CollectionsLeft(At(s, w, answers, sofar)),
              Opening(At(s, w, answers, sofar).pc), ItemsLeft(At(s, w, answers, sofar).pc),
              StagesLeft(At(s, w, answers, sofar).pc)
  {
    var t := Course(s, w, answers, sofar);
    if t.workers[w].pc.Done? {
      n := sofar;
    } else {
      assert CalmAnswer(s, w, answers, sofar);
      CalmStep(t, w, answers(sofar));
      assert Course(s, w, answers, sofar + 1) == Apply(t, Work(w, answers(sofar)));
      n := CalmRunEnds(s, w, answers, sofar + 1);
    }
  }

  /** The worker after n calls. */
  function At(s: Sys, w: Wid, answers: nat -> Choice, n: nat): Worker {
    var t := Course(s, w, answers, n); if w in t.workers then t.workers[w] else NewWorker("", map[], [])
  }

  /** As long as the run goes on, no answer raises and none requests a stop. */
  ghost predicate AlwaysFine(s: Sys, w: Wid, answers: nat -> Choice) { forall n: nat :: FineAnswer(s, w, answers, n) }

  predicate FineAnswer(s: Sys, w: Wid, answers: nat -> Choice, n: nat) {
    GoesOn(Course(s, w, answers, n), w) ==> !answers(n).raises && !answers(n).stop
  }

  /** Every run that is left alone, in which no call raises and no stop is requested, ends after
      finitely many calls with its job COMPLETED, whatever else the environment answers. */
  lemma FineRunCompletes(s: Sys, w: Wid, answers: nat -> Choice) returns (n: nat)
    requires Underway(s, w) && !Cancelling(s.workers[w].pc) && AlwaysFine(s, w, answers)
    ensures CompletedBy(s.workers[w].job, Course(s, w, answers, n), w)
  {
    forall n: nat ensures CalmAnswer(s, w, answers, n) { assert FineAnswer(s, w, answers, n); }
    n := CalmRunEnds(s, w, answers, 0);
    EndsExactly(s, w, answers, n);
    NoStopMet(s, w, answers, n);
    EndedCompleted(Course(s, w, answers, n), w, s.workers[w].job, RaiseMet(s, w, answers, n));
  }

  /** The worker has ended and its job is COMPLETED. */
  ghost predicate CompletedBy(j: JobId, t: Sys, w: Wid) {
    && w in t.workers && t.workers[w].pc.Done? && t.workers[w].job == j
    && j in t.jobs && t.jobs[j].row.status == Completed
  }

  lemma {:induction false} NoStopMet(s: Sys, w: Wid, answers: nat -> Choice, n: nat)
    requires AlwaysFine(s, w, answers)
    ensures !StopMet(s, w, answers, n)
  {
    if n > 0 {
      NoStopMet(s, w, answers, n - 1);
      assert FineAnswer(s, w, answers, n - 1);
    }
  }

  lemma EndedCompleted(t: Sys, w: Wid, j: JobId, raised: bool)
    requires EndsBy(t, w, j, false, raised) && Underway(t, w) && t.workers[w].pc.Done?
    ensures CompletedBy(j, t, w)
  {
  }

  // ---------------------------------------------------------------- every job can be completed

  lemma CompletingRun(s: Sys, w: Wid) returns (acts: seq<Action>)
    requires Underway(s, w) && !Cancelling(s.workers[w].pc)
    ensures RunAccounting.Alone(acts, w) && CompletedBy(s.workers[w].job, Execute(s, acts), w)
  {
    var answers := (n: nat) => Choice(false, false, false, 0);
    assert AlwaysFine(s, w, answers);
    var n := FineRunCompletes(s, w, answers);
    CourseIsExecution(s, w, answers, n);
    acts := Answered(w, answers, n);
  }

  /** From every reachable state every job can be resumed to COMPLETED by a fresh worker. */
  lemma ResumeCanComplete(source: map<Col, seq<Item>>, before: seq<Action>, j: JobId, w: Wid, plan: seq<Col>)
    returns (acts: seq<Action>)
    requires j in Execute(Initial(source), before).jobs && w !in Execute(Initial(source), before).workers
    ensures RunAccounting.Alone(acts, w)
    ensures var s := Execute(Initial(source), before + [Start(w, j, plan, None)] + acts);
            && j in s.jobs && s.jobs[j].row.status == Completed
            && w in s.workers && s.workers[w].pc.Done? && s.workers[w].job == j
  {
    var first := before + [Start(w, j, plan, None)];
    var s := Execute(Initial(source), first);
    StartedUnderway(source, before, j, w, plan);
    acts := CompletingRun(s, w);
    ExecuteMore(Initial(source), first, acts);
  }

  lemma StartedUnderway(source: map<Col, seq<Item>>, before: seq<Action>, j: JobId, w: Wid, plan: seq<Col>)
    requires j in Execute(Initial(source), before).jobs && w !in Execute(Initial(source), before).workers
    ensures var s := Execute(Initial(source), before + [Start(w, j, plan, None)]);
            Underway(s, w) && s.workers[w].job == j && s.workers[w].pc == Load && s.workers[w].plan == plan
  {
    var first := before + [Start(w, j, plan, None)];
    assert first[..|first| - 1] == before;
    RunAccounting.Always(source, first);
  }

  /** A resumed run that nothing disturbs always completes the job, from every reachable state. */
  lemma ResumedRunCompletes(source: map<Col, seq<Item>>, before: seq<Action>, j: JobId, w: Wid, plan: seq<Col>,
                            answers: nat -> Choice) returns (n: nat)
    requires j in Execute(Initial(source), before).jobs && w !in Execute(Initial(source), before).workers
    requires AlwaysFine(Execute(Initial(source), before + [Start(w, j, plan, None)]), w, answers)
    ensures CompletedBy(j, Course(Execute(Initial(source), before + [Start(w, j, plan, None)]), w, answers, n), w)
  {
    StartedUnderway(source, before, j, w, plan);
    n := FineRunCompletes(Execute(Initial(source), before + [Start(w, j, plan, None)]), w, answers);
  }
}
