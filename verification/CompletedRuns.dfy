/** What a COMPLETED status and a published sync cursor mean for the source's items. */
module CompletedRuns {
  import opened Cursors
  import opened MigrationProtocol
  import RunAccounting
  import opened LossBound

  /** The run has set COMPLETED, whether or not it went on to publish its cursors. */
  predicate Ended(pc: PC) { pc.ReadCheckpoints? || pc.Publish? || pc == Done(RanCompleted) }

  ghost predicate EndedRun(s: Sys, j: JobId, w: Wid) {
    w in s.workers && s.workers[w].job == j && Ended(s.workers[w].pc)
  }

  ghost predicate CompletedByRun(s: Sys) {
    forall j :: j in s.jobs && s.jobs[j].row.status == Completed ==> exists w :: EndedRun(s, j, w)
  }

  lemma LocalCompletion(v: View, source: map<Col, seq<Item>>, ch: Choice)
    ensures var v' := LocalStep(v, source, ch);
            && (Ended(v.worker.pc) ==> Ended(v'.worker.pc))
            && (v'.job.row.status == Completed ==> v.job.row.status == Completed || Ended(v'.worker.pc))
  {
    if v.worker.pc.InItem? { ItemKeepsStatus(v, ch); }
    else if InCollection(v.worker.pc) { CollectionStepIsLocal(v, source, ch); }
    else { JobCompletion(v, ch); }
  }

  lemma ItemKeepsStatus(v: View, ch: Choice)
    requires v.worker.pc.InItem?
    ensures ItemStep(v, ch).job.row.status == v.job.row.status
  {
    match v.worker.pc.stage {
      case Check => case CountSkip => case Upsert => case Record =>
      case CountNew => case CountDup => case Mark => case CountFailure =>
    }
  }

  lemma JobCompletion(v: View, ch: Choice)
    requires !v.worker.pc.InItem? && !InCollection(v.worker.pc)
    ensures var v' := JobStep(v, ch);
            && (Ended(v.worker.pc) ==> Ended(v'.worker.pc))
            && (v'.job.row.status == Completed ==> v.job.row.status == Completed || Ended(v'.worker.pc))
  {
    match v.worker.pc {
      case Load => case SetRunning => case Validate => case SetCompleted => case ReadCheckpoints =>
      case Publish(_) => case SetFailed(_) => case SetCancelled(_) => case Done(_) =>
    }
  }

  lemma WorkKeepsCompleted(s: Sys, w: Wid, v': View)
    requires CompletedByRun(s) && w in s.workers && s.workers[w].job in s.jobs && v'.worker.job == s.workers[w].job
    requires Ended(s.workers[w].pc) ==> Ended(v'.worker.pc)
    requires v'.job.row.status == Completed ==> s.jobs[v'.worker.job].row.status == Completed || Ended(v'.worker.pc)
    ensures CompletedByRun(Put(s, w, v'))
  {
    var s' := Put(s, w, v');
    forall j | j in s'.jobs && s'.jobs[j].row.status == Completed ensures exists u :: EndedRun(s', j, u) {
      if s.jobs[j].row.status == Completed {
        var u :| EndedRun(s, j, u);
        assert EndedRun(s', j, u);
      } else {
        assert EndedRun(s', j, w);
      }
    }
  }

  lemma SteadyKeepsCompleted(s: Sys, a: Action, s': Sys)
    requires CompletedByRun(s) && Steady(s, a, s')
    requires forall j :: j in s.jobs && j in s'.jobs && s'.jobs[j].row.status == Completed ==>
             s.jobs[j].row.status == Completed
    ensures CompletedByRun(s')
  {
    forall j | j in s'.jobs && s'.jobs[j].row.status == Completed ensures exists u :: EndedRun(s', j, u) {
      assert j in s.jobs;
      var u :| EndedRun(s, j, u);
      assert SameButCrashed(s.workers[u], s'.workers[u]);
      assert EndedRun(s', j, u);
    }
  }

  lemma OthersNeverComplete(s: Sys, a: Action, j: JobId)
    requires !a.Work? && j in s.jobs && j in Apply(s, a).jobs
    ensures Apply(s, a).jobs[j].row.status == Completed ==> s.jobs[j].row.status == Completed
  {
  }

  lemma {:induction false} CompletedAlways(source: map<Col, seq<Item>>, acts: seq<Action>)
    ensures CompletedByRun(Execute(Initial(source), acts))
  {
    if acts == [] {
    } else {
      var before, last := Execute(Initial(source), acts[..|acts| - 1]), acts[|acts| - 1];
      CompletedAlways(source, acts[..|acts| - 1]);
      if !last.Work? {
        OtherActionsAreSteady(before, last);
        forall j | j in before.jobs && j in Apply(before, last).jobs
            && Apply(before, last).jobs[j].row.status == Completed
          ensures before.jobs[j].row.status == Completed { OthersNeverComplete(before, last, j); }
        SteadyKeepsCompleted(before, last, Apply(before, last));
      } else if last.w in before.workers && !before.workers[last.w].crashed
          && before.workers[last.w].job in before.jobs {
        var v := ViewOf(before, last.w);
        StepKeepsIdentity(v, before.source, last.ch);
        LocalCompletion(v, before.source, last.ch);
        WorkKeepsCompleted(before, last.w, LocalStep(v, before.source, last.ch));
      }
    }
  }

  /** COMPLETED on a full-mode job: some run of it iterated its whole plan, and every item those
      iterators ranged over is in the job's ledger, was failed on and tolerated, or was passed over. */
  lemma CompletedCoversItsPlan(source: map<Col, seq<Item>>, acts: seq<Action>, j: JobId) returns (w: Wid)
    requires SourceOk(source) && AppendOnly(acts)
    requires var s := Execute(Initial(source), acts);
             j in s.jobs && !s.jobs[j].incremental && s.jobs[j].row.status == Completed
    ensures var s := Execute(Initial(source), acts);
            && EndedRun(s, j, w) && |s.workers[w].spans| == |s.workers[w].plan|
            && (forall i :: 0 <= i < |s.workers[w].plan| ==>
                  SpanCovered(s, {j}, s.workers[w].plan, s.workers[w].spans, i))
  {
    var s := Execute(Initial(source), acts);
    CompletedAlways(source, acts);
    Always(source, acts);
    RunAccounting.Always(source, acts);
    w :| EndedRun(s, j, w);
    assert WorkerOk(s, s.workers[w]);
    assert RunAccounting.Accounted(s.workers[w], s.jobs[j].maxErrors);
  }

  // ---------------------------------------------------------------- a source that does not change

  predicate FixedSource(acts: seq<Action>) { forall i :: 0 <= i < |acts| ==> !acts[i].Append? && !acts[i].Rewrite? }

  ghost predicate WholeListings(source: map<Col, seq<Item>>, w: Worker) {
    forall i :: 0 <= i < |w.spans| ==> w.spans[i].hi == |ItemsIn(source, w.Collection(i))|
  }

  /** Only opening an iterator adds a span. */
  lemma SpansKept(v: View, source: map<Col, seq<Item>>, ch: Choice)
    requires !v.worker.pc.Open?
    ensures LocalStep(v, source, ch).worker.spans == v.worker.spans
  {
    if v.worker.pc.InItem? {
      ItemStepGrows(v, ch);
    } else if InCollection(v.worker.pc) {
      match v.worker.pc {
        case Top(_) => case ReadCheckpoint(_) => case Seed(_) => case Next(_, _, _) =>
      }
    } else {
      JobStepFrame(v, ch);
    }
  }

  lemma LocalListing(v: View, source: map<Col, seq<Item>>, ch: Choice)
    requires WholeListings(source, v.worker) && RunAccounting.Placed(v.worker)
    ensures WholeListings(source, LocalStep(v, source, ch).worker)
  {
    StepKeepsIdentity(v, source, ch);
    if v.worker.pc.Open? {
      assert LocalStep(v, source, ch) == CollectionStep(v, source, ch);
    } else {
      SpansKept(v, source, ch);
    }
  }

  lemma {:induction false} WholeListingsAlways(source: map<Col, seq<Item>>, acts: seq<Action>)
    requires FixedSource(acts)
    ensures var s := Execute(Initial(source), acts);
            s.source == source && forall w :: w in s.workers ==> WholeListings(source, s.workers[w])
  {
    if acts == [] {
    } else {
      var before, last := Execute(Initial(source), acts[..|acts| - 1]), acts[|acts| - 1];
      WholeListingsAlways(source, acts[..|acts| - 1]);
      RunAccounting.Always(source, acts[..|acts| - 1]);
      WholeListingsStep(source, before, last);
    }
  }

  lemma WholeListingsStep(source: map<Col, seq<Item>>, s: Sys, a: Action)
    requires !a.Append? && !a.Rewrite? && s.source == source && RunAccounting.Inv(s)
    requires forall w :: w in s.workers ==> WholeListings(source, s.workers[w])
    ensures var s' := Apply(s, a); s'.source == source && forall w :: w in s'.workers ==>
            WholeListings(source, s'.workers[w])
  {
    if !a.Work? {
      OtherActionsAreSteady(s, a);
      SteadyListings(source, s, a, Apply(s, a));
    } else if a.w in s.workers && !s.workers[a.w].crashed {
      LocalListing(ViewOf(s, a.w), source, a.ch);
    }
  }

  lemma SteadyListings(source: map<Col, seq<Item>>, s: Sys, a: Action, s': Sys)
    requires Steady(s, a, s') && forall w :: w in s.workers ==> WholeListings(source, s.workers[w])
    ensures forall w :: w in s'.workers ==> WholeListings(source, s'.workers[w])
  {
    forall w | w in s'.workers ensures WholeListings(source, s'.workers[w]) {
      if w in s.workers { assert SameButCrashed(s.workers[w], s'.workers[w]); }
    }
  }

  /** COMPLETED over a source that does not change: every item of every planned collection is in the
      job's ledger, except what a run failed on and tolerated, which is nothing with max_errors 1, and
      what an iterator passed over. With max_errors 1 and nothing passed over, nothing is missing. */
  lemma CompletedMeansEverythingMigrated(source: map<Col, seq<Item>>, acts: seq<Action>, j: JobId) returns (w: Wid)
    requires SourceOk(source) && FixedSource(acts)
    requires var s := Execute(Initial(source), acts);
             j in s.jobs && !s.jobs[j].incremental && s.jobs[j].row.status == Completed
    ensures var s := Execute(Initial(source), acts);
            && EndedRun(s, j, w) && |s.jobs[j].forgiven| <= s.jobs[j].row.failed
            && (s.jobs[j].maxErrors <= 1 ==> s.jobs[j].forgiven == {})
            && forall c, k :: c in s.workers[w].plan && 0 <= k < |ItemsIn(source, c)| ==>
                 Holds(s.jobs[j], c, k, ItemsIn(source, c)[k].fp)
  {
    var s := Execute(Initial(source), acts);
    w := CompletedCoversItsPlan(source, acts, j);
    Always(source, acts);
    WholeListingsAlways(source, acts);
    assert JobOk(s, j);
    var r := s.workers[w];
    forall c, k | c in r.plan && 0 <= k < |ItemsIn(source, c)|
      ensures Holds(s.jobs[j], c, k, ItemsIn(source, c)[k].fp)
    {
      var i :| 0 <= i < |r.plan| && r.plan[i] == c;
      assert SpanCovered(s, {j}, r.plan, r.spans, i) && r.Collection(i) == c;
      assert Covered(s, {j}, c, k);
    }
  }

  /** Sync cursors never run ahead of the ledgers: with max_errors 1 in every job, each item at or
      before a cursor is in some job's ledger or was passed over by an iterator, through failed runs and
      crashes at any point, including between COMPLETED and the publication of the cursors. */
  lemma CursorSafety(source: map<Col, seq<Item>>, acts: seq<Action>, c: Col, i: nat)
    requires SourceOk(source) && AppendOnly(acts)
    requires var s := Execute(Initial(source), acts);
             && (forall j :: j in s.jobs ==> s.jobs[j].maxErrors <= 1)
             && c in s.cursors && i < After(Items(s, c), Some(s.cursors[c]))
    ensures var s := Execute(Initial(source), acts);
            && s.cursors[c] in Ids(Items(s, c))
            && (InSomeLedger(s, Items(s, c)[i].fp) || exists j :: j in s.jobs && (c, i) in s.jobs[j].passed)
  {
    var s := Execute(Initial(source), acts);
    Always(source, acts);
    assert Marked(s, s.jobs.Keys, c, s.cursors[c]);
    if !InSomeLedger(s, Items(s, c)[i].fp) {
      assert (c, i) in Missed(s);
      MissedGonePast(s, c, i);
      var j :| WentPast(s, j, (c, i));
      assert JobOk(s, j);
    }
  }
}
