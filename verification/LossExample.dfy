/** The loss bound is sharp: a COMPLETED run can leave an item out whenever a job tolerates an error, and
    also when an iterator passes over an item, whatever the job tolerates. */
module LossExample {
  import opened Cursors
  import opened MigrationProtocol
  import opened LossBound
  import opened CompletedRuns

  const FIRST := Item("1", "fp-1")
  const SECOND := Item("2", "fp-2")
  const INBOX := "INBOX"
  const SOURCE: map<Col, seq<Item>> := map[INBOX := [FIRST, SECOND]]
  const FINE := Choice(false, false, false, 0)
  const RAISES := Choice(true, false, false, 0)
  const PASSES := Choice(false, false, true, 0)

  /** How the first item gets left out, and what that leaves in the counts and the history. */
  datatype Gap = Gap(failures: nat, passes: nat, forgiven: set<(Col, nat)>, passed: set<(Col, nat)>)

  const FAILED_ON := Gap(1, 0, {(INBOX, 0)}, {})
  const PASSED_OVER := Gap(0, 1, {}, {(INBOX, 0)})

  predicate NothingPassed(acts: seq<Action>) { forall i :: 0 <= i < |acts| && acts[i].Work? ==> !acts[i].ch.passes }

  ghost predicate Shows(acts: seq<Action>, gap: Gap, s: Sys) {
    Execute(Initial(SOURCE), acts) == s && FixedSource(acts) && (gap.passes == 0 ==> NothingPassed(acts))
  }

  /** Perform one more action. */
  lemma Do(acts: seq<Action>, gap: Gap, s: Sys, a: Action) returns (acts': seq<Action>, s': Sys)
    requires Shows(acts, gap, s) && !a.Append? && !a.Rewrite? && (gap.passes == 0 && a.Work? ==> !a.ch.passes)
    ensures Shows(acts', gap, s') && s' == Apply(s, a)
  {
    acts', s' := acts + [a], Apply(s, a);
    assert acts'[..|acts'| - 1] == acts;
  }

  // ---------------------------------------------------------------- up to the open listing

  function Runner(pc: PC, spans: seq<Span>, pulled: nat): Worker {
    Worker("j", false, map[], [INBOX], 0, pc, spans, pulled, 0, 0, 0)
  }

  function Untouched(max: int, status: Status): Job {
    Job(Row(status, {}, map[], 0, 0, 0), false, max, multiset{}, multiset{}, {}, {})
  }

  function At(k: nat): PC { Next(0, k, [FIRST, SECOND]) }

  function Handling(k: nat, stage: Stage): PC {
    InItem(0, k, [FIRST, SECOND], if k == 0 then FIRST else SECOND, stage)
  }

  ghost predicate Stands(s: Sys, r: Worker, job: Job) {
    s.source == SOURCE && 0 in s.workers && s.workers[0] == r && "j" in s.jobs && s.jobs["j"] == job
  }

  lemma Begin(max: int, gap: Gap) returns (acts: seq<Action>, s: Sys)
    ensures Shows(acts, gap, s) && Stands(s, Runner(SetRunning, [], 0), Untouched(max, Pending))
  {
    acts, s := Do([], gap, Initial(SOURCE), Create("j", false, max));
    acts, s := Do(acts, gap, s, Start(0, "j", [INBOX], None));
    acts, s := Do(acts, gap, s, Work(0, FINE));
  }

  lemma Validated(max: int, gap: Gap) returns (acts: seq<Action>, s: Sys)
    ensures Shows(acts, gap, s) && Stands(s, Runner(Top(0), [], 0), Untouched(max, Running))
  {
    acts, s := Begin(max, gap);
    acts, s := Do(acts, gap, s, Work(0, FINE));
    acts, s := Do(acts, gap, s, Work(0, FINE));
  }

  lemma ReachInbox(max: int, gap: Gap) returns (acts: seq<Action>, s: Sys)
    ensures Shows(acts, gap, s) && Stands(s, Runner(ReadCheckpoint(0), [], 0), Untouched(max, Running))
  {
    acts, s := Validated(max, gap);
    acts, s := Do(acts, gap, s, Work(0, FINE));
  }

  lemma OpenInbox(max: int, gap: Gap) returns (acts: seq<Action>, s: Sys)
    ensures Shows(acts, gap, s) && Stands(s, Runner(At(0), [Span(0, 2)], 0), Untouched(max, Running))
  {
    acts, s := ReachInbox(max, gap);
    acts, s := Do(acts, gap, s, Work(0, FINE));
    acts, s := Do(acts, gap, s, Work(0, FINE));
  }

  // ---------------------------------------------------------------- the first item is left out

  /** The worker once the first item is behind it, with `pulled` more items pulled. */
  function Reading(gap: Gap, pc: PC, pulled: nat, migrated: nat): Worker {
    Worker("j", false, map[], [INBOX], gap.failures, pc, [Span(0, 2)], gap.failures + pulled, gap.passes, migrated, 0)
  }

  function Gapped(max: int, gap: Gap, row: Row, upserts: multiset<Fp>): Job {
    Job(row, false, max, upserts, multiset{}, gap.forgiven, gap.passed)
  }

  lemma UpsertRaises(max: int) returns (acts: seq<Action>, s: Sys)
    ensures Shows(acts, FAILED_ON, s)
    ensures Stands(s, Runner(Handling(0, CountFailure), [Span(0, 2)], 1), Untouched(max, Running))
  {
    acts, s := OpenInbox(max, FAILED_ON);
    acts, s := Do(acts, FAILED_ON, s, Work(0, FINE));
    acts, s := Do(acts, FAILED_ON, s, Work(0, FINE));
    acts, s := Do(acts, FAILED_ON, s, Work(0, RAISES));
  }

  lemma FailFirst(max: int) returns (acts: seq<Action>, s: Sys)
    requires max >= 2
    ensures Shows(acts, FAILED_ON, s)
    ensures Stands(s, Reading(FAILED_ON, At(1), 0, 0),
            Gapped(max, FAILED_ON, Row(Running, {}, map[], 0, 0, 1), multiset{}))
  {
    acts, s := UpsertRaises(max);
    FailureTolerated(ViewOf(s, 0), s.source, max);
    acts, s := Do(acts, FAILED_ON, s, Work(0, FINE));
  }

  lemma FailureTolerated(v: View, source: map<Col, seq<Item>>, max: int)
    requires max >= 2 && v.worker == Runner(Handling(0, CountFailure), [Span(0, 2)], 1)
             && v.job == Untouched(max, Running)
    ensures var v' := LocalStep(v, source, FINE);
            && v'.worker == Reading(FAILED_ON, At(1), 0, 0)
            && v'.job == Gapped(max, FAILED_ON, Row(Running, {}, map[], 0, 0, 1), multiset{})
  {
    assert ItemStep(v, FINE).job.forgiven == {(INBOX, 0)};
  }

  lemma PassFirst(max: int) returns (acts: seq<Action>, s: Sys)
    ensures Shows(acts, PASSED_OVER, s)
    ensures Stands(s, Reading(PASSED_OVER, At(1), 0, 0),
            Gapped(max, PASSED_OVER, Row(Running, {}, map[], 0, 0, 0), multiset{}))
  {
    acts, s := OpenInbox(max, PASSED_OVER);
    acts, s := Do(acts, PASSED_OVER, s, Work(0, PASSES));
  }

  // ---------------------------------------------------------------- the second item is migrated

  /** The first item has been left out and the worker stands before the second. */
  ghost predicate FirstLeftOut(acts: seq<Action>, s: Sys, max: int, gap: Gap) {
    && Shows(acts, gap, s)
    && Stands(s, Reading(gap, At(1), 0, 0), Gapped(max, gap, Row(Running, {}, map[], 0, 0, gap.failures), multiset{}))
  }

  lemma PullSecond(max: int, gap: Gap, acts0: seq<Action>, s0: Sys) returns (acts: seq<Action>, s: Sys)
    requires FirstLeftOut(acts0, s0, max, gap)
    ensures Shows(acts, gap, s)
    ensures Stands(s, Reading(gap, Handling(1, Check), 1, 0),
                   Gapped(max, gap, Row(Running, {}, map[], 0, 0, gap.failures), multiset{}))
  {
    acts, s := Do(acts0, gap, s0, Work(0, FINE));
  }

  lemma UpsertSecond(max: int, gap: Gap, acts0: seq<Action>, s0: Sys) returns (acts: seq<Action>, s: Sys)
    requires FirstLeftOut(acts0, s0, max, gap)
    ensures Shows(acts, gap, s)
    ensures Stands(s, Reading(gap, Handling(1, Record), 1, 0),
                   Gapped(max, gap, Row(Running, {}, map[], 0, 0, gap.failures), multiset{"fp-2"}))
  {
    acts, s := PullSecond(max, gap, acts0, s0);
    acts, s := Do(acts, gap, s, Work(0, FINE));
    acts, s := Do(acts, gap, s, Work(0, FINE));
  }

  lemma RecordSecond(max: int, gap: Gap, acts0: seq<Action>, s0: Sys) returns (acts: seq<Action>, s: Sys)
    requires FirstLeftOut(acts0, s0, max, gap)
    ensures Shows(acts, gap, s)
    ensures Stands(s, Reading(gap, Handling(1, CountNew), 1, 0),
                   Gapped(max, gap, Row(Running, {"fp-2"}, map[], 0, 0, gap.failures), multiset{"fp-2"}))
  {
    acts, s := UpsertSecond(max, gap, acts0, s0);
    acts, s := Do(acts, gap, s, Work(0, FINE));
  }

  lemma CountSecond(max: int, gap: Gap, acts0: seq<Action>, s0: Sys) returns (acts: seq<Action>, s: Sys)
    requires FirstLeftOut(acts0, s0, max, gap)
    ensures Shows(acts, gap, s)
    ensures Stands(s, Reading(gap, Handling(1, Mark), 1, 1),
                   Gapped(max, gap, Row(Running, {"fp-2"}, map[], 1, 0, gap.failures), multiset{"fp-2"}))
  {
    acts, s := RecordSecond(max, gap, acts0, s0);
    acts, s := Do(acts, gap, s, Work(0, FINE));
  }

  function Migrated(gap: Gap, status: Status): Row { Row(status, {"fp-2"}, map[INBOX := "2"], 1, 0, gap.failures) }

  lemma MigrateSecond(max: int, gap: Gap, acts0: seq<Action>, s0: Sys) returns (acts: seq<Action>, s: Sys)
    requires FirstLeftOut(acts0, s0, max, gap)
    ensures Shows(acts, gap, s)
    ensures Stands(s, Reading(gap, At(2), 1, 1), Gapped(max, gap, Migrated(gap, Running), multiset{"fp-2"}))
  {
    acts, s := CountSecond(max, gap, acts0, s0);
    acts, s := Do(acts, gap, s, Work(0, FINE));
  }

  lemma EndInbox(max: int, gap: Gap, acts0: seq<Action>, s0: Sys) returns (acts: seq<Action>, s: Sys)
    requires FirstLeftOut(acts0, s0, max, gap)
    ensures Shows(acts, gap, s)
    ensures Stands(s, Reading(gap, SetCompleted, 1, 1), Gapped(max, gap, Migrated(gap, Running), multiset{"fp-2"}))
  {
    acts, s := MigrateSecond(max, gap, acts0, s0);
    acts, s := Do(acts, gap, s, Work(0, FINE));
    acts, s := Do(acts, gap, s, Work(0, FINE));
  }

  lemma Complete(max: int, gap: Gap, acts0: seq<Action>, s0: Sys) returns (acts: seq<Action>, s: Sys)
    requires FirstLeftOut(acts0, s0, max, gap)
    ensures Shows(acts, gap, s)
    ensures Stands(s, Reading(gap, Done(RanCompleted), 1, 1),
            Gapped(max, gap, Migrated(gap, Completed), multiset{"fp-2"}))
  {
    acts, s := EndInbox(max, gap, acts0, s0);
    acts, s := Do(acts, gap, s, Work(0, FINE));
  }

  lemma FirstIsLost(s: Sys, max: int, gap: Gap)
    requires Stands(s, Reading(gap, Done(RanCompleted), 1, 1),
             Gapped(max, gap, Migrated(gap, Completed), multiset{"fp-2"}))
    ensures Lost(s, "j") == {(INBOX, 0)}
  {
    IndexOfUnique(Ids(SOURCE[INBOX]), 1);
    assert After(Items(s, INBOX), Some("2")) == 2;
  }

  /** A failure, or a FETCH that brings nothing, followed by a success moves the checkpoint past the
      first item, and the run completes. */
  lemma CompletedRunCanLoseAnItem(max: int, gap: Gap) returns (acts: seq<Action>)
    requires (gap == FAILED_ON && max >= 2) || gap == PASSED_OVER
    ensures SourceOk(SOURCE) && FixedSource(acts) && (gap == FAILED_ON ==> NothingPassed(acts))
    ensures var s := Execute(Initial(SOURCE), acts);
            && "j" in s.jobs && !s.jobs["j"].incremental && s.jobs["j"].maxErrors == max
            && s.jobs["j"].row.status == Completed
            && Lost(s, "j") == {(INBOX, 0)} && s.jobs["j"].row.failed == gap.failures
  {
    var s;
    if gap == FAILED_ON { acts, s := FailFirst(max); } else { acts, s := PassFirst(max); }
    acts, s := Complete(max, gap, acts, s);
    FirstIsLost(s, max, gap);
  }

  // ---------------------------------------------------------------- exactly when nothing is lost

  lemma PassesOnlyOnRequest(v: View, source: map<Col, seq<Item>>, ch: Choice)
    requires !ch.passes
    ensures LocalStep(v, source, ch).job.passed == v.job.passed
  {
    if v.worker.pc.InItem? { PassesNotInItem(v, ch); }
    else if InCollection(v.worker.pc) { CollectionStepIsLocal(v, source, ch); }
    else { JobStepIsLocal(v, ch); }
  }

  lemma PassesNotInItem(v: View, ch: Choice)
    requires v.worker.pc.InItem?
    ensures ItemStep(v, ch).job.passed == v.job.passed
  {
    match v.worker.pc.stage {
      case Check => case CountSkip => case Upsert => case Record =>
      case CountNew => case CountDup => case Mark => case CountFailure =>
    }
  }

  ghost predicate NoJobPassed(s: Sys) { forall j :: j in s.jobs ==> s.jobs[j].passed == {} }

  lemma SteadyPassesNothing(s: Sys, a: Action, s': Sys)
    requires NoJobPassed(s) && Steady(s, a, s')
    ensures NoJobPassed(s')
  {
    forall j | j in s'.jobs ensures s'.jobs[j].passed == {} {
      if j in s.jobs { assert SameButStatus(s.jobs[j], s'.jobs[j]); }
    }
  }

  lemma StepPassesNothing(s: Sys, a: Action)
    requires NoJobPassed(s) && (a.Work? ==> !a.ch.passes)
    ensures NoJobPassed(Apply(s, a))
  {
    if !a.Work? {
      OtherActionsAreSteady(s, a);
      SteadyPassesNothing(s, a, Apply(s, a));
    } else if a.w in s.workers && s.workers[a.w].job in s.jobs {
      PassesOnlyOnRequest(ViewOf(s, a.w), s.source, a.ch);
    }
  }

  lemma {:induction false} NonePassed(source: map<Col, seq<Item>>, acts: seq<Action>)
    requires NothingPassed(acts)
    ensures NoJobPassed(Execute(Initial(source), acts))
  {
    if acts == [] {
    } else {
      NonePassed(source, acts[..|acts| - 1]);
      StepPassesNothing(Execute(Initial(source), acts[..|acts| - 1]), acts[|acts| - 1]);
    }
  }

  ghost predicate LosesNothing(source: map<Col, seq<Item>>, acts: seq<Action>, max: int) {
    var s := Execute(Initial(source), acts);
    forall j :: j in s.jobs && !s.jobs[j].incremental && s.jobs[j].maxErrors == max ==> Lost(s, j) == {}
  }

  /** Full-mode jobs lose nothing, in every history over every append-only source, exactly when their
      max_errors is at most 1 and no iterator passes over an item of its listing. */
  lemma NothingLostExactly(max: int, mayPass: bool)
    ensures (forall source, acts :: SourceOk(source) && AppendOnly(acts) && (mayPass || NothingPassed(acts)) ==>
               LosesNothing(source, acts, max))
            <==> max <= 1 && !mayPass
  {
    if max <= 1 && !mayPass {
      forall source, acts | SourceOk(source) && AppendOnly(acts) && NothingPassed(acts)
        ensures LosesNothing(source, acts, max)
      {
        StrictJobsLoseNothing(source, acts, max);
      }
    } else {
      var acts := CompletedRunCanLoseAnItem(max, if mayPass then PASSED_OVER else FAILED_ON);
      var s := Execute(Initial(SOURCE), acts);
      assert (INBOX, 0) in Lost(s, "j");
      assert !LosesNothing(SOURCE, acts, max);
    }
  }

  lemma StrictJobsLoseNothing(source: map<Col, seq<Item>>, acts: seq<Action>, max: int)
    requires SourceOk(source) && AppendOnly(acts) && NothingPassed(acts) && max <= 1
    ensures LosesNothing(source, acts, max)
  {
    var s := Execute(Initial(source), acts);
    NonePassed(source, acts);
    forall j | j in s.jobs && !s.jobs[j].incremental && s.jobs[j].maxErrors == max ensures Lost(s, j) == {} {
      LostAtMostFailed(source, acts, j);
    }
  }
}
