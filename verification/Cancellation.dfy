/** What ends a run early: a stop request before a collection, a call that raises outside the items, and
    one failed item too many. Each law gives the whole state the ending leaves behind, whatever other
    workers do between the calls. */
module Cancellation {
  import opened Cursors
  import opened MigrationProtocol
  import RunAccounting
  import opened Progress

  /** None of these actions is worker w's own, and none kills it. */
  predicate Others(acts: seq<Action>, w: Wid) {
    forall k :: 0 <= k < |acts| ==> !(acts[k].Work? && acts[k].w == w) && !(acts[k].Crash? && acts[k].w == w)
  }

  lemma OtherAction(s: Sys, a: Action, w: Wid)
    requires w in s.workers && s.workers[w].job in s.jobs
    requires !(a.Work? && a.w == w) && !(a.Crash? && a.w == w)
    ensures var s' := Apply(s, a); w in s'.workers && s'.workers[w] == s.workers[w] && s.workers[w].job in s'.jobs
  {
    if !a.Work? { OtherActionsAreSteady(s, a); }
  }

  /** What the others do leaves a worker where it stands. */
  lemma {:induction false} OthersLeaveAlone(s: Sys, acts: seq<Action>, w: Wid)
    requires w in s.workers && s.workers[w].job in s.jobs && Others(acts, w)
    ensures var s' := Execute(s, acts);
            w in s'.workers && s'.workers[w] == s.workers[w] && s.workers[w].job in s'.jobs
  {
    if acts != [] {
      OthersLeaveAlone(s, acts[..|acts| - 1], w);
      OtherAction(Execute(s, acts[..|acts| - 1]), acts[|acts| - 1], w);
    }
  }

  /** Every history's workers run jobs that exist. */
  lemma WorksOnJob(source: map<Col, seq<Item>>, acts: seq<Action>, w: Wid)
    requires w in Execute(Initial(source), acts).workers
    ensures var s := Execute(Initial(source), acts); s.workers[w].job in s.jobs
  {
    RunAccounting.Always(source, acts);
  }

  function Moved(s: Sys, w: Wid, pc: PC): Sys
    requires w in s.workers
  {
    s.(workers := s.workers[w := s.workers[w].(pc := pc)])
  }

  /** The run has ended with this outcome and status, and nothing else has changed. */
  function Ended(s: Sys, w: Wid, outcome: Outcome, st: Status): Sys
    requires w in s.workers && s.workers[w].job in s.jobs
  {
    var j := s.workers[w].job;
    Moved(s, w, Done(outcome)).(jobs := s.jobs[j := s.jobs[j].(row := s.jobs[j].row.(status := st))])
  }

  /** A live worker about to begin a collection meets a stop request: that call changes nothing but its
      place, and its next call, whatever the others did meanwhile, ends the run CANCELLED. Ledger,
      checkpoints, counters and cursors stay as they were. */
  lemma StopCancels(source: map<Col, seq<Item>>, before: seq<Action>, w: Wid, ch: Choice,
                    later: seq<Action>, last: Choice)
    requires var s := Execute(Initial(source), before);
             w in s.workers && s.workers[w].Live() && StopsAt(s, w, ch)
    requires Others(later, w)
    ensures var s := Execute(Initial(source), before);
            Execute(Initial(source), before + [Work(w, ch)]) == Moved(s, w, SetCancelled(s.workers[w].pc.i))
    ensures var t := Execute(Initial(source), before + [Work(w, ch)] + later);
            && w in t.workers && t.workers[w].job in t.jobs
            && Execute(Initial(source), before + [Work(w, ch)] + later + [Work(w, last)]) ==
               Ended(t, w, RanCancelled, Cancelled)
  {
    var s := Execute(Initial(source), before);
    WorksOnJob(source, before, w);
    StopMoves(s, w, ch);
    EndsLater(source, before, w, ch, later, last, SetCancelled(s.workers[w].pc.i));
  }

  lemma StopMoves(s: Sys, w: Wid, ch: Choice)
    requires w in s.workers && !s.workers[w].crashed && s.workers[w].job in s.jobs && StopsAt(s, w, ch)
    ensures Apply(s, Work(w, ch)) == Moved(s, w, SetCancelled(s.workers[w].pc.i))
  {
    var v := ViewOf(s, w);
    assert LocalStep(v, s.source, ch) == v.To(SetCancelled(s.workers[w].pc.i));
    assert s.jobs[s.workers[w].job := v.job] == s.jobs;
  }

  /** A call outside the items that raises, validation of the connection, opening a collection or pulling
      from it, ends the run FAILED in the same way. */
  lemma RaiseFails(source: map<Col, seq<Item>>, before: seq<Action>, w: Wid, ch: Choice,
                   later: seq<Action>, last: Choice)
    requires var s := Execute(Initial(source), before);
             w in s.workers && s.workers[w].Live() && RaisesAt(s, w, ch)
    requires Others(later, w)
    ensures var s := Execute(Initial(source), before);
            Execute(Initial(source), before + [Work(w, ch)]) == Moved(s, w, SetFailed(false))
    ensures var t := Execute(Initial(source), before + [Work(w, ch)] + later);
            && w in t.workers && t.workers[w].job in t.jobs
            && Execute(Initial(source), before + [Work(w, ch)] + later + [Work(w, last)]) ==
               Ended(t, w, RanFailed(false), Failed)
  {
    var s := Execute(Initial(source), before);
    WorksOnJob(source, before, w);
    RaiseMoves(s, w, ch);
    EndsLater(source, before, w, ch, later, last, SetFailed(false));
  }

  lemma RaiseMoves(s: Sys, w: Wid, ch: Choice)
    requires w in s.workers && !s.workers[w].crashed && s.workers[w].job in s.jobs && RaisesAt(s, w, ch)
    ensures Apply(s, Work(w, ch)) == Moved(s, w, SetFailed(false))
  {
    var v := ViewOf(s, w);
    assert LocalStep(v, s.source, ch) == v.To(SetFailed(false));
    assert s.jobs[s.workers[w].job := v.job] == s.jobs;
  }

  lemma EndsLater(source: map<Col, seq<Item>>, before: seq<Action>, w: Wid, ch: Choice,
                  later: seq<Action>, last: Choice, pc: PC)
    requires var s := Execute(Initial(source), before);
             && w in s.workers && !s.workers[w].crashed && s.workers[w].job in s.jobs
             && Apply(s, Work(w, ch)) == Moved(s, w, pc)
    requires (pc.SetCancelled? || pc.SetFailed?) && Others(later, w)
    ensures Execute(Initial(source), before + [Work(w, ch)]) == Moved(Execute(Initial(source), before), w, pc)
    ensures var t := Execute(Initial(source), before + [Work(w, ch)] + later);
            && w in t.workers && t.workers[w].job in t.jobs
            && Execute(Initial(source), before + [Work(w, ch)] + later + [Work(w, last)]) ==
               Ended(t, w, if pc.SetCancelled? then RanCancelled else RanFailed(pc.byThreshold),
                     if pc.SetCancelled? then Cancelled else Failed)
  {
    var init, one := Initial(source), [Work(w, ch)];
    OneMore(init, before, Work(w, ch));
    ExecuteMore(init, before + one, later);
    OthersLeaveAlone(Execute(init, before + one), later, w);
    OneMore(init, before + one + later, Work(w, last));
    LastCall(Execute(init, before + one + later), w, last);
  }

  lemma OneMore(s: Sys, acts: seq<Action>, a: Action)
    ensures Execute(s, acts + [a]) == Apply(Execute(s, acts), a)
  {
    assert (acts + [a])[..|acts + [a]| - 1] == acts;
  }

  lemma LastCall(s: Sys, w: Wid, last: Choice)
    requires w in s.workers && !s.workers[w].crashed && s.workers[w].job in s.jobs
    requires s.workers[w].pc.SetCancelled? || s.workers[w].pc.SetFailed?
    ensures var pc := s.workers[w].pc;
            Apply(s, Work(w, last)) ==
              Ended(s, w, if pc.SetCancelled? then RanCancelled else RanFailed(pc.byThreshold),
                    if pc.SetCancelled? then Cancelled else Failed)
  {
  }

  // ---------------------------------------------------------------- items that cannot be written

  /** A write the destination refuses is counted by the worker's next call, in the row and in the run,
      and by nothing else; the run goes on with the next item, or stops once it has failed as often as
      the job tolerates, a job that tolerates none counting as one that tolerates one. */
  lemma RefusedWriteCounts(source: map<Col, seq<Item>>, before: seq<Action>, w: Wid, ch: Choice,
                           later: seq<Action>, next: Choice)
    requires var s := Execute(Initial(source), before);
             && w in s.workers && s.workers[w].Live() && ch.raises
             && s.workers[w].pc.InItem? && s.workers[w].pc.stage == Upsert
    requires Others(later, w)
    ensures var s := Execute(Initial(source), before);
            var t := Execute(Initial(source), before + [Work(w, ch)] + later);
            var u := Execute(Initial(source), before + [Work(w, ch)] + later + [Work(w, next)]);
            var a, pc, j := s.workers[w], s.workers[w].pc, s.workers[w].job;
            && w in t.workers && t.workers[w] == a.(pc := pc.(stage := CountFailure)) && j in t.jobs
            && w in u.workers && j in u.jobs
            && u.jobs[j].row == t.jobs[j].row.(failed := t.jobs[j].row.failed + 1)
            && u == t.(jobs := t.jobs[j := u.jobs[j]], workers := t.workers[w := u.workers[w]])
            && u.workers[w] == a.(runFailures := a.runFailures + 1, pc := u.workers[w].pc)
            && u.workers[w].pc ==
               if a.runFailures + 1 >= (if t.jobs[j].maxErrors < 1 then 1 else t.jobs[j].maxErrors) then SetFailed(true)
               else Next(pc.i, pc.k + 1, pc.snap)
  {
    var init, one, s := Initial(source), [Work(w, ch)], Execute(Initial(source), before);
    WorksOnJob(source, before, w);
    OneMore(init, before, Work(w, ch));
    RefusalMoves(s, w, ch);
    ExecuteMore(init, before + one, later);
    OthersLeaveAlone(Execute(init, before + one), later, w);
    OneMore(init, before + one + later, Work(w, next));
    FailureCounts(Execute(init, before + one + later), w, next);
  }

  lemma RefusalMoves(s: Sys, w: Wid, ch: Choice)
    requires w in s.workers && !s.workers[w].crashed && s.workers[w].job in s.jobs && ch.raises
    requires s.workers[w].pc.InItem? && s.workers[w].pc.stage == Upsert
    ensures Apply(s, Work(w, ch)) == Moved(s, w, s.workers[w].pc.(stage := CountFailure))
  {
    assert s.jobs[s.workers[w].job := s.jobs[s.workers[w].job]] == s.jobs;
  }

  lemma FailureCounts(t: Sys, w: Wid, next: Choice)
    requires w in t.workers && !t.workers[w].crashed && t.workers[w].job in t.jobs
    requires t.workers[w].pc.InItem? && t.workers[w].pc.stage == CountFailure
    ensures var u := Apply(t, Work(w, next));
            var a, pc, j := t.workers[w], t.workers[w].pc, t.workers[w].job;
            && w in u.workers && j in u.jobs
            && u.jobs[j].row == t.jobs[j].row.(failed := t.jobs[j].row.failed + 1)
            && u == t.(jobs := t.jobs[j := u.jobs[j]], workers := t.workers[w := u.workers[w]])
            && u.workers[w] == a.(runFailures := a.runFailures + 1, pc := u.workers[w].pc)
            && u.workers[w].pc ==
               if a.runFailures + 1 >= (if t.jobs[j].maxErrors < 1 then 1 else t.jobs[j].maxErrors) then SetFailed(true)
               else Next(pc.i, pc.k + 1, pc.snap)
  {
  }

  // ---------------------------------------------------------------- a stop that stays requested

  /** A collection of the plan has not been begun yet, or the run is being cancelled for one. */
  predicate LeftToBegin(v: View) {
    var n := |v.worker.plan|;
    match v.worker.pc
    case Load => v.job.row.status != Completed && n > 0
    case SetRunning => n > 0
    case Validate => n > 0
    case Top(i) => i < n
    case ReadCheckpoint(i) => i + 1 < n
    case Seed(i) => i + 1 < n
    case Open(i, _) => i + 1 < n
    case Next(i, _, _) => i + 1 < n
    case InItem(i, _, _, _, _) => i + 1 < n
    case SetCancelled(_) => true
    case Done(outcome) => outcome == RanCancelled
    case _ => false
  }

  lemma LeftKept(s: Sys, w: Wid, ch: Choice)
    requires Underway(s, w) && (s.workers[w].pc.Done? || !ch.raises) && ch.stop
    ensures var s' := Apply(s, Work(w, ch));
            Underway(s', w) && s'.workers[w].job == s.workers[w].job
            && LeftToBegin(ViewOf(s', w)) == LeftToBegin(ViewOf(s, w))
  {
    var v := ViewOf(s, w);
    if v.worker.pc.Done? {
      DoneStays(s, w, ch);
    } else {
      CalmStep(s, w, ch);
      assert ViewOf(Apply(s, Work(w, ch)), w) == LocalStep(v, s.source, ch);
      if v.worker.pc.InItem? { ItemLeft(v, ch); }
      else if InCollection(v.worker.pc) { CollectionLeft(v, s.source, ch); }
      else { JobLeft(v, ch); }
    }
  }

  lemma DoneStays(s: Sys, w: Wid, ch: Choice)
    requires w in s.workers && s.workers[w].job in s.jobs && s.workers[w].pc.Done?
    ensures Apply(s, Work(w, ch)) == s
  {
    var j := s.workers[w].job;
    assert s.jobs[j := s.jobs[j]] == s.jobs && s.workers[w := s.workers[w]] == s.workers;
  }

  lemma ItemLeft(v: View, ch: Choice)
    requires v.worker.pc.InItem? && OnTrack(v.worker.pc) && !ch.raises
    ensures LeftToBegin(ItemStep(v, ch)) == LeftToBegin(v)
  {
    match v.worker.pc.stage {
      case Check => case CountSkip => case Upsert => case Record => case CountNew => case CountDup => case Mark =>
    }
  }

  lemma CollectionLeft(v: View, source: map<Col, seq<Item>>, ch: Choice)
    requires InCollection(v.worker.pc) && !ch.raises && ch.stop
    ensures LeftToBegin(CollectionStep(v, source, ch)) == LeftToBegin(v)
  {
    match v.worker.pc {
      case Top(_) => ChoosingLeft(v, source, ch);
      case ReadCheckpoint(_) => ChoosingLeft(v, source, ch);
      case Seed(_) => SeedLeft(v, source, ch);
      case Open(_, _) => OpenLeft(v, source, ch);
      case Next(_, _, _) => NextLeft(v, source, ch);
    }
  }

  lemma ChoosingLeft(v: View, source: map<Col, seq<Item>>, ch: Choice)
    requires (v.worker.pc.Top? || v.worker.pc.ReadCheckpoint?) && ch.stop
    ensures LeftToBegin(CollectionStep(v, source, ch)) == LeftToBegin(v)
  {
  }

  lemma SeedLeft(v: View, source: map<Col, seq<Item>>, ch: Choice)
    requires v.worker.pc.Seed?
    ensures LeftToBegin(CollectionStep(v, source, ch)) == LeftToBegin(v)
  {
  }

  lemma OpenLeft(v: View, source: map<Col, seq<Item>>, ch: Choice)
    requires v.worker.pc.Open? && !ch.raises
    ensures LeftToBegin(CollectionStep(v, source, ch)) == LeftToBegin(v)
  {
  }

  lemma NextLeft(v: View, source: map<Col, seq<Item>>, ch: Choice)
    requires v.worker.pc.Next? && !ch.raises
    ensures LeftToBegin(CollectionStep(v, source, ch)) == LeftToBegin(v)
  {
  }

  lemma JobLeft(v: View, ch: Choice)
    requires !v.worker.pc.InItem? && !InCollection(v.worker.pc) && OnTrack(v.worker.pc) && !ch.raises
    ensures LeftToBegin(JobStep(v, ch)) == LeftToBegin(v)
  {
    match v.worker.pc {
      case Load => case SetRunning => case Validate => case SetCompleted => case ReadCheckpoints =>
      case Publish(_) => case SetCancelled(_) => case Done(_) =>
    }
  }

  ghost predicate StopStays(answers: nat -> Choice, m: nat) { forall k: nat :: m <= k ==> answers(k).stop }

  lemma LeftNext(t: Sys, w: Wid, ch: Choice, t': Sys)
    requires Underway(t, w) && (GoesOn(t, w) ==> !ch.raises) && t' == Apply(t, Work(w, ch))
    ensures Underway(t', w) && t'.workers[w].job == t.workers[w].job
    ensures ch.stop ==> LeftToBegin(ViewOf(t', w)) == LeftToBegin(ViewOf(t, w))
  {
    if t.workers[w].pc.Done? { DoneStays(t, w, ch); } else { CalmStep(t, w, ch); }
    if ch.stop { LeftKept(t, w, ch); }
  }

  lemma {:induction false} LeftFrom(s: Sys, w: Wid, answers: nat -> Choice, m: nat, n: nat)
    requires m <= n && Underway(Course(s, w, answers, m), w) && AlwaysCalm(s, w, answers)
    ensures var a, b := Course(s, w, answers, m), Course(s, w, answers, n);
            && Underway(b, w) && b.workers[w].job == a.workers[w].job
            && (StopStays(answers, m) ==> LeftToBegin(ViewOf(b, w)) == LeftToBegin(ViewOf(a, w)))
    decreases n - m
  {
    if m < n {
      assert CalmAnswer(s, w, answers, m);
      LeftNext(Course(s, w, answers, m), w, answers(m), Course(s, w, answers, m + 1));
      LeftFrom(s, w, answers, m + 1, n);
    }
  }

  /** A run in which no call raises and a stop is requested from call m on always ends: CANCELLED if and
      only if a collection of its plan was left to begin at that call, and COMPLETED otherwise. */
  lemma StopEndsExactly(s: Sys, w: Wid, answers: nat -> Choice, m: nat) returns (n: nat)
    requires Underway(s, w) && AlwaysCalm(s, w, answers) && StopStays(answers, m)
    ensures m <= n && Underway(Course(s, w, answers, m), w)
    ensures var t := Course(s, w, answers, n);
            && w in t.workers && t.workers[w].pc.Done?
            && t.workers[w].job == s.workers[w].job && t.workers[w].job in t.jobs
            && (t.workers[w].pc == Done(RanCancelled) <==> LeftToBegin(ViewOf(Course(s, w, answers, m), w)))
            && t.jobs[t.workers[w].job].row.status ==
               if LeftToBegin(ViewOf(Course(s, w, answers, m), w)) then Cancelled else Completed
  {
    LeftFrom(s, w, answers, 0, m);
    n := CalmRunEnds(s, w, answers, m);
    LeftFrom(s, w, answers, m, n);
    EndedWith(Course(s, w, answers, n), w);
  }

  lemma EndedWith(t: Sys, w: Wid)
    requires Underway(t, w) && t.workers[w].pc.Done?
    ensures t.workers[w].pc == Done(RanCancelled) <==> LeftToBegin(ViewOf(t, w))
    ensures t.jobs[t.workers[w].job].row.status == if LeftToBegin(ViewOf(t, w)) then Cancelled else Completed
  {
  }
}
