/** What one run counts, pulls and opens, in every reachable state, whatever other workers do. */
module RunAccounting {
  import opened MigrationProtocol

  function SumSpans(spans: seq<Span>): int {
    if spans == [] then 0 else SumSpans(spans[..|spans| - 1]) + (spans[|spans| - 1].hi - spans[|spans| - 1].lo)
  }

  /** The item in hand has been pulled and not been counted yet. */
  function InHand(pc: PC): nat { if pc.InItem? && pc.stage != Mark then 1 else 0 }

  /** The iterator of collection i is open, its next position is k, and everything before was pulled
      or passed over. */
  predicate Reading(w: Worker, i: nat, k: nat, snap: seq<Item>, ahead: nat) {
    && i < |w.plan| && |w.spans| == i + 1
    && w.spans[i].lo <= k && k + ahead <= w.spans[i].hi == |snap|
    && w.pulled + w.passedOver == SumSpans(w.spans[..i]) + (k - w.spans[i].lo) + ahead
  }

  /** Collections 0..i-1 were iterated to the end and no later one was opened. */
  predicate Between(w: Worker, i: nat) {
    i <= |w.plan| && |w.spans| == i && w.pulled + w.passedOver == SumSpans(w.spans)
  }

  predicate Placed(w: Worker) {
    match w.pc
    case Load => Between(w, 0)
    case SetRunning => Between(w, 0)
    case Validate => Between(w, 0)
    case Top(i) => Between(w, i)
    case ReadCheckpoint(i) => Between(w, i) && i < |w.plan|
    case Seed(i) => Between(w, i) && i < |w.plan|
    case Open(i, _) => Between(w, i) && i < |w.plan|
    case Next(i, k, snap) => Reading(w, i, k, snap, 0)
    case InItem(i, k, snap, item, _) => Reading(w, i, k, snap, 1) && item == snap[k]
    case SetCompleted => Between(w, |w.plan|)
    case ReadCheckpoints => Between(w, |w.plan|)
    case Publish(_) => Between(w, |w.plan|)
    case SetFailed(_) => true
    case SetCancelled(i) => Between(w, i) && i < |w.plan|
    case Done(outcome) =>
      match outcome
      case AlreadyCompleted => Between(w, 0)
      case RanCompleted => Between(w, |w.plan|)
      case RanFailed(_) => true
      case RanCancelled => Between(w, |w.spans|) && |w.spans| < |w.plan|
  }

  predicate StoppedByThreshold(pc: PC) { pc == SetFailed(true) || pc == Done(RanFailed(true)) }

  predicate Accounted(w: Worker, maxErrors: int) {
    && w.pulled == w.migrated + w.skipped + w.runFailures + InHand(w.pc)
    && (if StoppedByThreshold(w.pc) then w.runFailures == Threshold(maxErrors)
        else w.runFailures < Threshold(maxErrors))
    && Placed(w)
  }

  ghost predicate Inv(s: Sys) {
    forall w :: w in s.workers ==>
      s.workers[w].job in s.jobs && Accounted(s.workers[w], s.jobs[s.workers[w].job].maxErrors)
  }

  lemma JobStepAccounted(v: View, ch: Choice)
    requires !v.worker.pc.InItem? && !InCollection(v.worker.pc) && Accounted(v.worker, v.job.maxErrors)
    ensures Accounted(JobStep(v, ch).worker, v.job.maxErrors)
  {
    match v.worker.pc {
      case Load => StartupAccounted(v, ch);
      case SetRunning => StartupAccounted(v, ch);
      case Validate => StartupAccounted(v, ch);
      case SetFailed(_) => FinalStatusAccounted(v, ch);
      case SetCancelled(_) => FinalStatusAccounted(v, ch);
      case _ => CompletionAccounted(v, ch);
    }
  }

  lemma CompletionAccounted(v: View, ch: Choice)
    requires v.worker.pc.SetCompleted? || v.worker.pc.ReadCheckpoints? || v.worker.pc.Publish? || v.worker.pc.Done?
    requires Accounted(v.worker, v.job.maxErrors)
    ensures Accounted(JobStep(v, ch).worker, v.job.maxErrors)
  {
    var w' := JobStep(v, ch).worker;
    assert w' == v.worker.(pc := w'.pc);
    match v.worker.pc {
      case SetCompleted => case ReadCheckpoints => case Publish(_) => case Done(_) =>
    }
  }

  lemma StartupAccounted(v: View, ch: Choice)
    requires (v.worker.pc.Load? || v.worker.pc.SetRunning? || v.worker.pc.Validate?)
             && Accounted(v.worker, v.job.maxErrors)
    ensures Accounted(JobStep(v, ch).worker, v.job.maxErrors)
  {
  }

  lemma FinalStatusAccounted(v: View, ch: Choice)
    requires (v.worker.pc.SetFailed? || v.worker.pc.SetCancelled?) && Accounted(v.worker, v.job.maxErrors)
    ensures Accounted(JobStep(v, ch).worker, v.job.maxErrors)
  {
  }

  lemma CollectionStepAccounted(v: View, source: map<Col, seq<Item>>, ch: Choice)
    requires InCollection(v.worker.pc) && Accounted(v.worker, v.job.maxErrors)
    ensures Accounted(CollectionStep(v, source, ch).worker, v.job.maxErrors)
  {
    match v.worker.pc {
      case Top(_) => TopAccounted(v, source, ch);
      case ReadCheckpoint(_) => ChoiceAccounted(v, source, ch);
      case Seed(_) => SeedAccounted(v, source, ch);
      case Open(_, _) => OpenAccounted(v, source, ch);
      case Next(_, _, _) => NextAccounted(v, source, ch);
    }
  }

  lemma TopAccounted(v: View, source: map<Col, seq<Item>>, ch: Choice)
    requires v.worker.pc.Top? && Accounted(v.worker, v.job.maxErrors)
    ensures Accounted(CollectionStep(v, source, ch).worker, v.job.maxErrors)
  {
  }

  lemma ChoiceAccounted(v: View, source: map<Col, seq<Item>>, ch: Choice)
    requires v.worker.pc.ReadCheckpoint? && Accounted(v.worker, v.job.maxErrors)
    ensures Accounted(CollectionStep(v, source, ch).worker, v.job.maxErrors)
  {
  }

  lemma SeedAccounted(v: View, source: map<Col, seq<Item>>, ch: Choice)
    requires v.worker.pc.Seed? && Accounted(v.worker, v.job.maxErrors)
    ensures Accounted(CollectionStep(v, source, ch).worker, v.job.maxErrors)
  {
  }

  lemma OpenAccounted(v: View, source: map<Col, seq<Item>>, ch: Choice)
    requires v.worker.pc.Open? && Accounted(v.worker, v.job.maxErrors)
    ensures Accounted(CollectionStep(v, source, ch).worker, v.job.maxErrors)
  {
    var w' := CollectionStep(v, source, ch).worker;
    if w'.pc.Next? { assert w'.spans[..v.worker.pc.i] == v.worker.spans; }
  }

  lemma NextAccounted(v: View, source: map<Col, seq<Item>>, ch: Choice)
    requires v.worker.pc.Next? && Accounted(v.worker, v.job.maxErrors)
    ensures Accounted(CollectionStep(v, source, ch).worker, v.job.maxErrors)
  {
    var w, w' := v.worker, CollectionStep(v, source, ch).worker;
    if w'.pc.Top? { assert w.spans[..w.pc.i + 1] == w.spans; }
  }

  lemma ItemStepAccounted(v: View, ch: Choice)
    requires v.worker.pc.InItem? && Accounted(v.worker, v.job.maxErrors)
    ensures Accounted(ItemStep(v, ch).worker, v.job.maxErrors)
  {
    match v.worker.pc.stage {
      case Mark => MarkAccounted(v, ch);
      case CountFailure => FailureAccounted(v, ch);
      case CountSkip => CountAccounted(v, ch);
      case CountNew => CountAccounted(v, ch);
      case CountDup => CountAccounted(v, ch);
      case _ => LookAccounted(v, ch);
    }
  }

  lemma LookAccounted(v: View, ch: Choice)
    requires v.worker.pc.InItem? && v.worker.pc.stage in {Check, Upsert, Record} && Accounted(v.worker, v.job.maxErrors)
    ensures Accounted(ItemStep(v, ch).worker, v.job.maxErrors)
  {
    LookMovesOn(v, ch);
    OtherStage(v.worker, v.job.maxErrors, ItemStep(v, ch).worker.pc.stage);
  }

  lemma LookMovesOn(v: View, ch: Choice)
    requires v.worker.pc.InItem? && v.worker.pc.stage in {Check, Upsert, Record}
    ensures var r := ItemStep(v, ch).worker;
            r.pc.InItem? && r.pc.stage != Mark && r == v.worker.(pc := v.worker.pc.(stage := r.pc.stage))
  {
  }

  lemma OtherStage(w: Worker, maxErrors: int, st: Stage)
    requires w.pc.InItem? && Accounted(w, maxErrors) && w.pc.stage != Mark && st != Mark
    ensures Accounted(w.(pc := w.pc.(stage := st)), maxErrors)
  {
  }

  lemma CountAccounted(v: View, ch: Choice)
    requires v.worker.pc.InItem? && v.worker.pc.stage in {CountSkip, CountNew, CountDup}
             && Accounted(v.worker, v.job.maxErrors)
    ensures Accounted(ItemStep(v, ch).worker, v.job.maxErrors)
  {
  }

  lemma MarkAccounted(v: View, ch: Choice)
    requires v.worker.pc.InItem? && v.worker.pc.stage == Mark && Accounted(v.worker, v.job.maxErrors)
    ensures Accounted(ItemStep(v, ch).worker, v.job.maxErrors)
  {
  }

  lemma FailureAccounted(v: View, ch: Choice)
    requires v.worker.pc.InItem? && v.worker.pc.stage == CountFailure && Accounted(v.worker, v.job.maxErrors)
    ensures Accounted(ItemStep(v, ch).worker, v.job.maxErrors)
  {
  }

  lemma PutKeepsInv(s: Sys, w: Wid, v': View)
    requires Inv(s) && w in s.workers && v'.worker.job == s.workers[w].job
    requires v'.job.maxErrors == s.jobs[v'.worker.job].maxErrors && Accounted(v'.worker, v'.job.maxErrors)
    ensures Inv(Put(s, w, v'))
  {
  }

  lemma SteadyKeepsInv(s: Sys, a: Action, s': Sys)
    requires Inv(s) && Steady(s, a, s')
    ensures Inv(s')
  {
    forall w | w in s'.workers
      ensures s'.workers[w].job in s'.jobs && Accounted(s'.workers[w], s'.jobs[s'.workers[w].job].maxErrors)
    {
      if w in s.workers { assert SameButCrashed(s.workers[w], s'.workers[w]); }
    }
  }

  lemma ApplyKeepsInv(s: Sys, a: Action)
    requires Inv(s)
    ensures Inv(Apply(s, a))
  {
    if !a.Work? {
      OtherActionsAreSteady(s, a);
      SteadyKeepsInv(s, a, Apply(s, a));
    } else if a.w in s.workers && !s.workers[a.w].crashed {
      var v := ViewOf(s, a.w);
      if v.worker.pc.InItem? { ItemStepAccounted(v, a.ch); }
      else if InCollection(v.worker.pc) { CollectionStepAccounted(v, s.source, a.ch); }
      else { JobStepAccounted(v, a.ch); }
      StepKeepsIdentity(v, s.source, a.ch);
      PutKeepsInv(s, a.w, LocalStep(v, s.source, a.ch));
    }
  }

  lemma {:induction false} KeptFrom(s: Sys, acts: seq<Action>)
    requires Inv(s)
    ensures Inv(Execute(s, acts))
  {
    if acts == [] {
    } else {
      KeptFrom(s, acts[..|acts| - 1]);
      ApplyKeepsInv(Execute(s, acts[..|acts| - 1]), acts[|acts| - 1]);
    }
  }

  lemma Always(source: map<Col, seq<Item>>, acts: seq<Action>)
    ensures Inv(Execute(Initial(source), acts))
  {
    KeptFrom(Initial(source), acts);
  }

  // ---------------------------------------------------------------- a run nobody interferes with

  predicate Alone(acts: seq<Action>, w: Wid) { forall k :: 0 <= k < |acts| ==> acts[k].Work? && acts[k].w == w }

  /** While one worker works alone, its job's counters move exactly with the worker's own. */
  ghost predicate CountsTogether(s: Sys, s': Sys, w: Wid) {
    && w in s.workers && w in s'.workers && s'.workers[w].job == s.workers[w].job
    && s.workers[w].job in s.jobs && s.workers[w].job in s'.jobs
    && (var a, b := s.jobs[s.workers[w].job].row, s'.jobs[s.workers[w].job].row;
        && b.migrated - a.migrated == s'.workers[w].migrated - s.workers[w].migrated
        && b.skipped - a.skipped == s'.workers[w].skipped - s.workers[w].skipped
        && b.failed - a.failed == s'.workers[w].runFailures - s.workers[w].runFailures)
  }

  predicate CountsMove(v: View, v': View) {
    && v'.job.row.migrated - v.job.row.migrated == v'.worker.migrated - v.worker.migrated
    && v'.job.row.skipped - v.job.row.skipped == v'.worker.skipped - v.worker.skipped
    && v'.job.row.failed - v.job.row.failed == v'.worker.runFailures - v.worker.runFailures
  }

  lemma ItemCounts(v: View, ch: Choice)
    requires v.worker.pc.InItem?
    ensures CountsMove(v, ItemStep(v, ch))
  {
    match v.worker.pc.stage {
      case CountSkip => CountingCounts(v, ch);
      case CountNew => CountingCounts(v, ch);
      case CountDup => CountingCounts(v, ch);
      case CountFailure => CountingCounts(v, ch);
      case Check => case Upsert => case Record => case Mark =>
    }
  }

  lemma CountingCounts(v: View, ch: Choice)
    requires v.worker.pc.InItem? && v.worker.pc.stage in {CountSkip, CountNew, CountDup, CountFailure}
    ensures CountsMove(v, ItemStep(v, ch))
  {
  }

  lemma LocalCounts(v: View, source: map<Col, seq<Item>>, ch: Choice)
    ensures CountsMove(v, LocalStep(v, source, ch))
  {
    if v.worker.pc.InItem? {
      ItemCounts(v, ch);
    } else if InCollection(v.worker.pc) {
      CollectionCounts(v, source, ch);
    } else {
      JobStepCounts(v, ch);
    }
  }

  lemma CollectionCounts(v: View, source: map<Col, seq<Item>>, ch: Choice)
    requires InCollection(v.worker.pc)
    ensures var v' := CollectionStep(v, source, ch);
            && v'.job.row == v.job.row.(checkpoints := v'.job.row.checkpoints)
            && v'.worker.migrated == v.worker.migrated && v'.worker.skipped == v.worker.skipped
            && v'.worker.runFailures == v.worker.runFailures
  {
    match v.worker.pc {
      case Open(_, _) => ListingCounts(v, source, ch);
      case Next(_, _, _) => ListingCounts(v, source, ch);
      case Top(_) => case ReadCheckpoint(_) => case Seed(_) =>
    }
  }

  lemma ListingCounts(v: View, source: map<Col, seq<Item>>, ch: Choice)
    requires v.worker.pc.Open? || v.worker.pc.Next?
    ensures var v' := CollectionStep(v, source, ch);
            && v'.job.row == v.job.row
            && v'.worker.migrated == v.worker.migrated && v'.worker.skipped == v.worker.skipped
            && v'.worker.runFailures == v.worker.runFailures
  {
  }

  lemma JobStepCounts(v: View, ch: Choice)
    requires !v.worker.pc.InItem? && !InCollection(v.worker.pc)
    ensures var v' := JobStep(v, ch);
            && SameButStatus(v.job, v'.job)
            && v'.worker.migrated == v.worker.migrated && v'.worker.skipped == v.worker.skipped
            && v'.worker.runFailures == v.worker.runFailures
  {
    match v.worker.pc {
      case Load => case SetRunning => case Validate => case SetCompleted => case ReadCheckpoints =>
      case Publish(_) => case SetFailed(_) => case SetCancelled(_) => case Done(_) =>
    }
  }

  lemma {:induction false} AloneCountsTogether(s: Sys, acts: seq<Action>, w: Wid)
    requires Alone(acts, w) && w in s.workers && s.workers[w].job in s.jobs
    ensures CountsTogether(s, Execute(s, acts), w)
  {
    if acts == [] {
    } else {
      var before, last := Execute(s, acts[..|acts| - 1]), acts[|acts| - 1];
      AloneCountsTogether(s, acts[..|acts| - 1], w);
      if !before.workers[w].crashed {
        StepKeepsIdentity(ViewOf(before, w), before.source, last.ch);
        LocalCounts(ViewOf(before, w), before.source, last.ch);
      }
    }
  }

  /** A run that ended counted every item it pulled exactly once: as migrated, skipped or failed.
      COMPLETED means fewer failures than the threshold and every listing pulled or passed over to its
      end, and the threshold stops a run exactly there. */
  lemma EndedRunAccounting(source: map<Col, seq<Item>>, acts: seq<Action>, w: Wid)
    requires var s := Execute(Initial(source), acts); w in s.workers && s.workers[w].pc.Done?
    ensures var s := Execute(Initial(source), acts);
            var r := s.workers[w];
            && r.job in s.jobs
            && r.pulled == r.migrated + r.skipped + r.runFailures
            && (var most := if s.jobs[r.job].maxErrors < 1 then 1 else s.jobs[r.job].maxErrors;
                if r.pc.outcome == RanFailed(true) then r.runFailures == most else r.runFailures < most)
            && (r.pc.outcome == RanCompleted ==> |r.spans| == |r.plan| && r.pulled + r.passedOver == SumSpans(r.spans))
  {
    Always(source, acts);
  }

  /** A cancelled run iterated a proper prefix of its plan to the end and opened none of the rest. */
  lemma CancellationCut(source: map<Col, seq<Item>>, acts: seq<Action>, w: Wid)
    requires var s := Execute(Initial(source), acts); w in s.workers && s.workers[w].pc == Done(RanCancelled)
    ensures var r := Execute(Initial(source), acts).workers[w];
            |r.spans| < |r.plan| && r.pulled + r.passedOver == SumSpans(r.spans)
  {
    Always(source, acts);
  }
}
