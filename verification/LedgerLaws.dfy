/** Counting laws of the ledger, the counters and the destination. None of them depends on what the
    source yields or in which order, so they hold for every action sequence. */
module LedgerLaws {
  import opened MigrationProtocol

  /** Workers of job j, live or crashed, that inserted a ledger row and have not counted it yet. */
  ghost function Uncounted(s: Sys, j: JobId): set<Wid> {
    set w | w in s.workers && s.workers[w].job == j && s.workers[w].pc.InItem? && s.workers[w].pc.stage == CountNew
  }

  predicate Unrecorded(w: Worker, j: JobId, fp: Fp) {
    w.job == j && w.pc.InItem? && w.pc.stage == Record && w.pc.item.fp == fp
  }

  /** Workers of job j, live or crashed, between a successful upsert of fp and its record_message. */
  ghost function InFlight(s: Sys, j: JobId, fp: Fp): set<Wid> {
    set w | w in s.workers && Unrecorded(s.workers[w], j, fp)
  }

  ghost function CrashedInFlight(s: Sys, j: JobId, fp: Fp): set<Wid> {
    set w | w in s.workers && s.workers[w].crashed && Unrecorded(s.workers[w], j, fp)
  }

  function InLedger(job: Job, fp: Fp): nat { if fp in job.row.ledger then 1 else 0 }

  ghost predicate LedgerCounted(s: Sys, j: JobId)
    requires j in s.jobs
  {
    |s.jobs[j].row.ledger| == s.jobs[j].row.migrated + |Uncounted(s, j)|
  }

  ghost predicate UpsertsAccounted(s: Sys, j: JobId, fp: Fp)
    requires j in s.jobs
  {
    s.jobs[j].upserts[fp] == InLedger(s.jobs[j], fp) + |InFlight(s, j, fp)| + s.jobs[j].lostRaces[fp]
  }

  ghost predicate Inv(s: Sys) {
    && (forall w :: w in s.workers ==> s.workers[w].job in s.jobs)
    && (forall j :: j in s.jobs ==> LedgerCounted(s, j))
    && (forall j, fp :: j in s.jobs ==> UpsertsAccounted(s, j, fp))
  }

  // ---------------------------------------------------------------- one step

  function AtCountNew(w: Worker): nat { if w.pc.InItem? && w.pc.stage == CountNew then 1 else 0 }

  function AtRecord(w: Worker, fp: Fp): nat { if Unrecorded(w, w.job, fp) then 1 else 0 }

  ghost predicate Balanced(v: View, v': View, fp: Fp) {
    && |v'.job.row.ledger| - v'.job.row.migrated - AtCountNew(v'.worker)
       == |v.job.row.ledger| - v.job.row.migrated - AtCountNew(v.worker)
    && v'.job.upserts[fp] - InLedger(v'.job, fp) - AtRecord(v'.worker, fp) - v'.job.lostRaces[fp]
       == v.job.upserts[fp] - InLedger(v.job, fp) - AtRecord(v.worker, fp) - v.job.lostRaces[fp]
  }

  /** One call of one worker keeps both balances, whatever the environment answers. */
  lemma LocalBalance(v: View, source: map<Col, seq<Item>>, ch: Choice, fp: Fp)
    ensures Balanced(v, LocalStep(v, source, ch), fp)
  {
    if v.worker.pc.InItem? { ItemBalance(v, ch, fp); }
    else if InCollection(v.worker.pc) { CollectionStepIsLocal(v, source, ch); }
    else { JobStepIsLocal(v, ch); }
  }

  lemma ItemBalance(v: View, ch: Choice, fp: Fp)
    requires v.worker.pc.InItem?
    ensures Balanced(v, ItemStep(v, ch), fp)
  {
    match v.worker.pc.stage {
      case Upsert => WriteBalance(v, ch, fp);
      case Record => WriteBalance(v, ch, fp);
      case Check => case CountSkip => case CountNew => case CountDup => case Mark => case CountFailure =>
    }
  }

  lemma WriteBalance(v: View, ch: Choice, fp: Fp)
    requires v.worker.pc.InItem? && v.worker.pc.stage in {Upsert, Record}
    ensures Balanced(v, ItemStep(v, ch), fp)
  {
  }

  lemma Without(ws: set<Wid>, w: Wid)
    ensures |ws - {w}| == |ws| - (if w in ws then 1 else 0)
  {
    if w in ws { assert ws == (ws - {w}) + {w}; } else { assert ws - {w} == ws; }
  }

  lemma UncountedAfter(s: Sys, w: Wid, to: Worker, s': Sys, j: JobId)
    requires w in s.workers && s'.workers == s.workers[w := to] && to.job == s.workers[w].job
    ensures |Uncounted(s', j)| == |Uncounted(s, j)|
            + (if to.job == j then AtCountNew(to) - AtCountNew(s.workers[w]) else 0)
  {
    forall u | u != w ensures u in Uncounted(s', j) <==> u in Uncounted(s, j) {}
    assert Uncounted(s', j) - {w} == Uncounted(s, j) - {w};
    Without(Uncounted(s, j), w);
    Without(Uncounted(s', j), w);
  }

  lemma InFlightAfter(s: Sys, w: Wid, to: Worker, s': Sys, j: JobId, fp: Fp)
    requires w in s.workers && s'.workers == s.workers[w := to] && to.job == s.workers[w].job
    ensures |InFlight(s', j, fp)| == |InFlight(s, j, fp)|
            + (if to.job == j then AtRecord(to, fp) - AtRecord(s.workers[w], fp) else 0)
  {
    forall u | u != w ensures u in InFlight(s', j, fp) <==> u in InFlight(s, j, fp) {}
    assert InFlight(s', j, fp) - {w} == InFlight(s, j, fp) - {w};
    Without(InFlight(s, j, fp), w);
    Without(InFlight(s', j, fp), w);
  }

  lemma WorkKeepsInv(s: Sys, w: Wid, v': View)
    requires Inv(s) && w in s.workers
    requires v'.worker.job == s.workers[w].job
    requires forall fp :: Balanced(ViewOf(s, w), v', fp)
    ensures Inv(Put(s, w, v'))
  {
    var s' := Put(s, w, v');
    forall j | j in s'.jobs ensures LedgerCounted(s', j) {
      assert Balanced(ViewOf(s, w), v', "");
      assert LedgerCounted(s, j);
      UncountedAfter(s, w, v'.worker, s', j);
    }
    forall j, fp | j in s'.jobs ensures UpsertsAccounted(s', j, fp) {
      assert Balanced(ViewOf(s, w), v', fp);
      assert UpsertsAccounted(s, j, fp);
      InFlightAfter(s, w, v'.worker, s', j, fp);
    }
  }

  lemma SteadyCounted(s: Sys, a: Action, s': Sys, j: JobId)
    requires Inv(s) && Steady(s, a, s') && j in s'.jobs
    ensures LedgerCounted(s', j)
  {
    forall u ensures u in Uncounted(s', j) <==> u in Uncounted(s, j) {
      if u in s.workers { assert SameButCrashed(s.workers[u], s'.workers[u]); }
    }
    assert Uncounted(s', j) == Uncounted(s, j);
    if j in s.jobs { assert LedgerCounted(s, j); } else { assert Uncounted(s, j) == {}; }
  }

  lemma SteadyAccounted(s: Sys, a: Action, s': Sys, j: JobId, fp: Fp)
    requires Inv(s) && Steady(s, a, s') && j in s'.jobs
    ensures UpsertsAccounted(s', j, fp)
  {
    forall u ensures u in InFlight(s', j, fp) <==> u in InFlight(s, j, fp) {
      if u in s.workers { assert SameButCrashed(s.workers[u], s'.workers[u]); }
    }
    assert InFlight(s', j, fp) == InFlight(s, j, fp);
    if j in s.jobs { assert UpsertsAccounted(s, j, fp); } else { assert InFlight(s, j, fp) == {}; }
  }

  lemma SteadyKeepsInv(s: Sys, a: Action, s': Sys)
    requires Inv(s) && Steady(s, a, s')
    ensures Inv(s')
  {
    forall j | j in s'.jobs ensures LedgerCounted(s', j) { SteadyCounted(s, a, s', j); }
    forall j, fp | j in s'.jobs ensures UpsertsAccounted(s', j, fp) { SteadyAccounted(s, a, s', j, fp); }
  }

  lemma ApplyKeepsInv(s: Sys, a: Action)
    requires Inv(s)
    ensures Inv(Apply(s, a))
  {
    if a.Work? {
      if a.w in s.workers && !s.workers[a.w].crashed {
        var v := ViewOf(s, a.w);
        forall fp ensures Balanced(v, LocalStep(v, s.source, a.ch), fp) { LocalBalance(v, s.source, a.ch, fp); }
        StepKeepsIdentity(v, s.source, a.ch);
        WorkKeepsInv(s, a.w, LocalStep(v, s.source, a.ch));
      }
    } else {
      OtherActionsAreSteady(s, a);
      SteadyKeepsInv(s, a, Apply(s, a));
    }
  }

  lemma {:induction false} Always(source: map<Col, seq<Item>>, acts: seq<Action>)
    ensures Inv(Execute(Initial(source), acts))
  {
    if acts == [] {
    } else {
      Always(source, acts[..|acts| - 1]);
      ApplyKeepsInv(Execute(Initial(source), acts[..|acts| - 1]), acts[|acts| - 1]);
    }
  }

  ghost predicate Quiet(s: Sys, j: JobId) {
    forall w :: w in s.workers && s.workers[w].job == j ==> s.workers[w].pc.Done?
  }

  /** Ledger rows and migrated_count differ exactly by the workers caught between the two calls,
      so they agree once every worker of the job has ended without crashing. */
  lemma LedgerMatchesCounter(source: map<Col, seq<Item>>, acts: seq<Action>, j: JobId)
    requires j in Execute(Initial(source), acts).jobs
    ensures var s := Execute(Initial(source), acts);
            && |s.jobs[j].row.ledger| == s.jobs[j].row.migrated + |Uncounted(s, j)|
            && (Quiet(s, j) ==> |s.jobs[j].row.ledger| == s.jobs[j].row.migrated)
  {
    Always(source, acts);
    var s := Execute(Initial(source), acts);
    assert LedgerCounted(s, j);
    if Quiet(s, j) { assert Uncounted(s, j) == {}; }
  }

  /** Every destination write of a fingerprint is recorded, in flight, or lost a race to record it. */
  lemma UpsertConservation(source: map<Col, seq<Item>>, acts: seq<Action>, j: JobId, fp: Fp)
    requires j in Execute(Initial(source), acts).jobs
    ensures var s := Execute(Initial(source), acts);
            s.jobs[j].upserts[fp] == InLedger(s.jobs[j], fp) + |InFlight(s, j, fp)| + s.jobs[j].lostRaces[fp]
  {
    Always(source, acts);
    assert UpsertsAccounted(Execute(Initial(source), acts), j, fp);
  }

  // ---------------------------------------------------------------- sequential runs

  ghost predicate NoneLive(s: Sys, j: JobId) {
    forall w :: w in s.workers && s.workers[w].job == j ==> !s.workers[w].Live()
  }

  /** No run of job j starts while another one is live. */
  ghost predicate Sequential(source: map<Col, seq<Item>>, acts: seq<Action>, j: JobId) {
    acts == [] ||
    (var last, before := acts[|acts| - 1], acts[..|acts| - 1];
     && Sequential(source, before, j)
     && (last.Start? && last.j == j ==> NoneLive(Execute(Initial(source), before), j)))
  }

  predicate Writing(w: Worker) { w.pc.InItem? && w.pc.stage in {Upsert, Record} }

  ghost predicate LiveOn(s: Sys, j: JobId, w: Wid) {
    w in s.workers && s.workers[w].job == j && s.workers[w].Live()
  }

  /** One live worker at most; what it is about to write is not in the ledger; no race was lost. */
  ghost predicate SeqInv(s: Sys, j: JobId) {
    && (forall w1, w2 :: LiveOn(s, j, w1) && LiveOn(s, j, w2) ==> w1 == w2)
    && (j in s.jobs ==> s.jobs[j].lostRaces == multiset{})
    && (forall w :: j in s.jobs && LiveOn(s, j, w) && Writing(s.workers[w]) ==>
          s.workers[w].pc.item.fp !in s.jobs[j].row.ledger)
  }

  ghost predicate Fresh(v: View) {
    v.job.lostRaces == multiset{} && (Writing(v.worker) ==> v.worker.pc.item.fp !in v.job.row.ledger)
  }

  lemma LocalSequential(v: View, source: map<Col, seq<Item>>, ch: Choice)
    requires Fresh(v)
    ensures Fresh(LocalStep(v, source, ch))
  {
    if v.worker.pc.InItem? {
      match v.worker.pc.stage {
        case Check => case CountSkip => case Upsert => case Record =>
        case CountNew => case CountDup => case Mark => case CountFailure =>
      }
    } else if InCollection(v.worker.pc) {
      CollectionStepIsLocal(v, source, ch);
    } else {
      JobStepIsLocal(v, ch);
    }
  }

  lemma SteadyKeepsSequential(s: Sys, a: Action, s': Sys, j: JobId)
    requires Inv(s) && SeqInv(s, j) && Steady(s, a, s') && (a.Start? && a.j == j ==> NoneLive(s, j))
    ensures SeqInv(s', j)
  {
    forall w1, w2 | LiveOn(s', j, w1) && LiveOn(s', j, w2) ensures w1 == w2 {
      SteadyLive(s, a, s', j, w1);
      SteadyLive(s, a, s', j, w2);
    }
    forall w | j in s'.jobs && LiveOn(s', j, w) && Writing(s'.workers[w])
      ensures s'.workers[w].pc.item.fp !in s'.jobs[j].row.ledger
    {
      SteadyLive(s, a, s', j, w);
      if a.Start? && w == a.w && w !in s.workers { assert false; }
      assert SameButStatus(s.jobs[j], s'.jobs[j]);
    }
  }

  lemma SteadyLive(s: Sys, a: Action, s': Sys, j: JobId, w: Wid)
    requires Steady(s, a, s') && LiveOn(s', j, w)
    ensures if w in s.workers then LiveOn(s, j, w) && s'.workers[w].pc == s.workers[w].pc
            else a.Start? && a.j == j && w == a.w && s'.workers[w].pc == Load
  {
    if w in s.workers { assert SameButCrashed(s.workers[w], s'.workers[w]); }
    else { assert IsNewWorker(s, a, w, s'.workers[w]); }
  }

  lemma WorkKeepsSequential(s: Sys, w: Wid, ch: Choice, j: JobId)
    requires w in s.workers && s.workers[w].job in s.jobs && !s.workers[w].crashed && SeqInv(s, j)
    ensures SeqInv(Apply(s, Work(w, ch)), j)
  {
    var s', v := Apply(s, Work(w, ch)), ViewOf(s, w);
    var v' := LocalStep(v, s.source, ch);
    StepKeepsIdentity(v, s.source, ch);
    if !s.workers[w].pc.Done? && v.worker.job == j {
      assert LiveOn(s, j, w);
      LocalSequential(v, s.source, ch);
    }
    forall u | LiveOn(s', j, u) ensures LiveOn(s, j, u) {}
  }

  lemma {:induction false} SequentialAlways(source: map<Col, seq<Item>>, acts: seq<Action>, j: JobId)
    requires Sequential(source, acts, j)
    ensures SeqInv(Execute(Initial(source), acts), j)
  {
    if acts == [] {
    } else {
      var before, last := Execute(Initial(source), acts[..|acts| - 1]), acts[|acts| - 1];
      SequentialAlways(source, acts[..|acts| - 1], j);
      Always(source, acts[..|acts| - 1]);
      if !last.Work? {
        OtherActionsAreSteady(before, last);
        SteadyKeepsSequential(before, last, Apply(before, last), j);
      } else if last.w in before.workers && !before.workers[last.w].crashed {
        WorkKeepsSequential(before, last.w, last.ch, j);
      }
    }
  }

  /** At-most-once: over sequential runs a fingerprint is written at most once more than there were
      crashes between its upsert and its record_message, whatever the source yields or replays. */
  lemma AtMostOnceUpsert(source: map<Col, seq<Item>>, acts: seq<Action>, j: JobId, fp: Fp)
    requires Sequential(source, acts, j) && j in Execute(Initial(source), acts).jobs
    ensures var s := Execute(Initial(source), acts);
            s.jobs[j].upserts[fp] <= 1 + |CrashedInFlight(s, j, fp)|
  {
    var s := Execute(Initial(source), acts);
    Always(source, acts);
    SequentialAlways(source, acts, j);
    var live := InFlight(s, j, fp) - CrashedInFlight(s, j, fp);
    assert InFlight(s, j, fp) == live + CrashedInFlight(s, j, fp);
    assert UpsertsAccounted(s, j, fp);
    OneLiveWriter(s, j, fp, live);
  }

  lemma OneLiveWriter(s: Sys, j: JobId, fp: Fp, live: set<Wid>)
    requires SeqInv(s, j) && j in s.jobs && live == InFlight(s, j, fp) - CrashedInFlight(s, j, fp)
    ensures |live| + InLedger(s.jobs[j], fp) <= 1 && s.jobs[j].lostRaces == multiset{}
  {
    if live != {} {
      var w :| w in live;
      assert LiveOn(s, j, w);
      forall u | u in live ensures u == w { assert LiveOn(s, j, u); }
      assert live == {w};
    }
  }
}
