/** The migration run as a protocol over the shared job state.

    Each store call is one atomic step (the store takes a lock and commits one transaction), but a
    run is a long sequence of them. The machine below lets any number of workers, on any number of
    jobs over one source, interleave at that granularity and crash between any two calls.
    `upserts`, `lostRaces`, `forgiven`, `visits` and the bookkeeping part of a worker are history:
    they record what happened and no step decides anything from them. */
module MigrationProtocol {
  import opened Cursors
  import opened Text

  type Col = string
  type Id = string
  type Fp = string
  type JobId = string
  type Wid = nat

  datatype Status = Pending | Running | Completed | Failed | Cancelled

  /** What an iterator yields: the source id and the fingerprint computed from it. */
  datatype Item = Item(id: Id, fp: Fp)

  /** The persistent row of one job: status, counters, message_migrations and checkpoints. */
  datatype Row = Row(
    status: Status, ledger: set<Fp>, checkpoints: map<Col, Id>,
    migrated: nat, skipped: nat, failed: nat)
  {
    function WithStatus(st: Status): Row { this.(status := st) }
    function WithCheckpoint(c: Col, id: Id): Row { this.(checkpoints := checkpoints[c := id]) }
    function WithFingerprint(fp: Fp): Row { this.(ledger := ledger + {fp}) }
    function Counting(m: nat, s: nat, f: nat): Row {
      this.(migrated := migrated + m, skipped := skipped + s, failed := failed + f)
    }
  }

  datatype Job = Job(
    row: Row, incremental: bool, maxErrors: int,
    upserts: multiset<Fp>,      // successful destination writes
    lostRaces: multiset<Fp>,    // record_message calls that found the fingerprint present
    forgiven: set<(Col, nat)>,  // positions a run failed on and went past
    passed: set<(Col, nat)>)    // positions an iterator passed over without yielding them

  datatype Outcome = AlreadyCompleted | RanCompleted | RanFailed(byThreshold: bool) | RanCancelled

  /** Where a worker stands between the pull of an item and the next pull. Each name is the
      store or destination call about to be made. */
  datatype Stage = Check | CountSkip | Upsert | Record | CountNew | CountDup | Mark | CountFailure

  datatype PC =
    | Load
    | SetRunning
    | Validate
    | Top(i: nat)
    | ReadCheckpoint(i: nat)
    | Seed(i: nat)
    | Open(i: nat, resume: Option<Id>)
    | Next(i: nat, k: nat, snap: seq<Item>)
    | InItem(i: nat, k: nat, snap: seq<Item>, item: Item, stage: Stage)
    | SetCompleted
    | ReadCheckpoints
    | Publish(todo: map<Col, Id>)
    | SetFailed(byThreshold: bool)
    | SetCancelled(i: nat)
    | Done(outcome: Outcome)

  /** The positions [lo, hi) of its listing that an opened iterator ranges over. */
  datatype Span = Span(lo: nat, hi: nat)

  datatype Worker = Worker(
    job: JobId, crashed: bool, cursors: map<Col, Id>, plan: seq<Col>, runFailures: nat, pc: PC,
    spans: seq<Span>, pulled: nat, passedOver: nat, migrated: nat, skipped: nat)
  {
    function Collection(i: nat): Col { if i < |plan| then plan[i] else "" }
    predicate Live() { !crashed && !pc.Done? }
  }

  datatype Sys = Sys(
    source: map<Col, seq<Item>>, jobs: map<JobId, Job>, cursors: map<Col, Id>,
    workers: map<Wid, Worker>, visits: map<Col, seq<nat>>)

  function ItemsIn(source: map<Col, seq<Item>>, c: Col): seq<Item> {
    if c in source then source[c] else []
  }

  function Ids(items: seq<Item>): (ids: seq<Id>)
    ensures |ids| == |items| && forall k :: 0 <= k < |items| ==> ids[k] == items[k].id
  {
    seq(|items|, k requires 0 <= k < |items| => items[k].id)
  }

  /** Position just after the item with this id. */
  function After(items: seq<Item>, cursor: Option<Id>): (k: nat)
    ensures k <= |items|
  {
    ResumeIndex(Ids(items), cursor)
  }

  function Lookup(m: map<Col, Id>, c: Col): Option<Id> {
    if c in m then Some(m[c]) else None
  }

  function VisitsIn(visits: map<Col, seq<nat>>, c: Col): seq<nat> {
    if c in visits then visits[c] else []
  }

  function Threshold(maxErrors: int): (t: nat)
    ensures t >= 1
  {
    if maxErrors < 1 then 1 else maxErrors
  }

  // ---------------------------------------------------------------- one worker's next call

  /** What the environment answers to a call: whether it raises, whether the stop event is set, whether
      an iterator passes over the next position of its listing (a FETCH that fails or is empty), and
      where it starts when the source does not know the cursor. */
  datatype Choice = Choice(raises: bool, stop: bool, passes: bool, at: nat)

  lemma {:induction false} FindLeast(todo: map<Col, Id>) returns (c: Col)
    requires todo != map[]
    ensures c in todo && forall d :: d in todo ==> LexLe(c, d)
    decreases |todo|
  {
    c :| c in todo;
    var rest := todo - {c};
    assert todo == rest[c := todo[c]];
    LexReflexive(c);
    if rest != map[] {
      var e := FindLeast(rest);
      LeastOfBoth(rest, c, e);
      if !LexLe(c, e) { c := e; }
    }
  }

  lemma LeastOfBoth(rest: map<Col, Id>, c: Col, e: Col)
    requires e in rest && forall d :: d in rest ==> LexLe(e, d)
    ensures if LexLe(c, e) then forall d :: d in rest ==> LexLe(c, d) else LexLe(e, c)
  {
    LexTotal(c, e);
    if LexLe(c, e) {
      forall d | d in rest ensures LexLe(c, d) { LexTransitive(c, e, d); }
    }
  }

  lemma LeastExists(todo: map<Col, Id>)
    requires todo != map[]
    ensures exists c :: c in todo && forall d :: d in todo ==> LexLe(c, d)
  {
    var c := FindLeast(todo);
  }

  /** Checkpoints are read in the order of their collections. */
  function LeastKey(todo: map<Col, Id>): (c: Col)
    requires todo != map[]
    ensures c in todo && forall d :: d in todo ==> LexLe(c, d)
  {
    LeastExists(todo);
    assert forall a, b :: LexLe(a, b) && LexLe(b, a) ==> a == b by {
      forall a, b | LexLe(a, b) && LexLe(b, a) ensures a == b { LexTotal(a, b); }
    }
    var c :| c in todo && forall d :: d in todo ==> LexLe(c, d); c
  }

  /** The part of the system one worker's step can touch. */
  datatype View = View(job: Job, worker: Worker, cursors: map<Col, Id>, visits: map<Col, seq<nat>>)
  {
    function To(pc: PC): View { this.(worker := worker.(pc := pc)) }
    function SetStatus(st: Status): View { this.(job := job.(row := job.row.WithStatus(st))) }
    function SetCheckpoint(c: Col, id: Id): View {
      this.(job := job.(row := job.row.WithCheckpoint(c, id)))
    }
    function AddMigrated(): View {
      this.(job := job.(row := job.row.Counting(1, 0, 0)),
            worker := worker.(migrated := worker.migrated + 1))
    }
    function AddSkipped(): View {
      this.(job := job.(row := job.row.Counting(0, 1, 0)),
            worker := worker.(skipped := worker.skipped + 1))
    }
    function AddFailed(): View {
      this.(job := job.(row := job.row.Counting(0, 0, 1)),
            worker := worker.(runFailures := worker.runFailures + 1))
    }
  }

  predicate InCollection(pc: PC) { pc.Top? || pc.ReadCheckpoint? || pc.Seed? || pc.Open? || pc.Next? }

  function LocalStep(v: View, source: map<Col, seq<Item>>, ch: Choice): View {
    if v.worker.pc.InItem? then ItemStep(v, ch)
    else if InCollection(v.worker.pc) then CollectionStep(v, source, ch)
    else JobStep(v, ch)
  }

  /** The calls a run makes before the first and after the last collection. */
  function JobStep(v: View, ch: Choice): View
    requires !v.worker.pc.InItem? && !InCollection(v.worker.pc)
  {
    match v.worker.pc
    case Load =>
      if v.job.row.status == Completed then v.To(Done(AlreadyCompleted)) else v.To(SetRunning)
    case SetRunning => v.SetStatus(Running).To(Validate)
    case Validate => if ch.raises then v.To(SetFailed(false)) else v.To(Top(0))
    case SetCompleted =>
      v.SetStatus(Completed).To(if v.job.incremental then ReadCheckpoints else Done(RanCompleted))
    case ReadCheckpoints => v.To(Publish(v.job.row.checkpoints))
    case Publish(todo) =>
      if todo == map[] then v.To(Done(RanCompleted))
      else var c := LeastKey(todo); v.(cursors := v.cursors[c := todo[c]]).To(Publish(todo - {c}))
    case SetFailed(byThreshold) => v.SetStatus(Failed).To(Done(RanFailed(byThreshold)))
    case SetCancelled(_) => v.SetStatus(Cancelled).To(Done(RanCancelled))
    case Done(_) => v
  }

  /** The calls a run makes to choose, seed, open and advance a collection. */
  function CollectionStep(v: View, source: map<Col, seq<Item>>, ch: Choice): View
    requires InCollection(v.worker.pc)
  {
    var w := v.worker;
    match w.pc
    case Top(i) =>
      if |w.plan| <= i then v.To(SetCompleted)
      else if ch.stop then v.To(SetCancelled(i))
      else v.To(ReadCheckpoint(i))
    case ReadCheckpoint(i) =>
      var c := w.Collection(i);
      var checkpoint := Lookup(v.job.row.checkpoints, c);
      if checkpoint == None && c in w.cursors then v.To(Seed(i)) else v.To(Open(i, checkpoint))
    case Seed(i) =>
      var c := w.Collection(i);
      if c in w.cursors then v.SetCheckpoint(c, w.cursors[c]).To(Open(i, Some(w.cursors[c])))
      else v.To(Open(i, None))
    case Open(i, resume) =>
      if ch.raises then v.To(SetFailed(false))
      else
        var items := ItemsIn(source, w.Collection(i));
        var k := StartOf(items, resume, ch);
        v.(worker := w.(pc := Next(i, k, items), spans := w.spans + [Span(k, |items|)]))
    case Next(i, k, snap) =>
      if ch.raises then v.To(SetFailed(false))
      else if |snap| <= k then v.To(Top(i + 1))
      else
        var c := w.Collection(i);
        if ch.passes then
          v.(worker := w.(pc := Next(i, k + 1, snap), passedOver := w.passedOver + 1),
             job := v.job.(passed := v.job.passed + {(c, k)}))
        else
          v.(worker := w.(pc := InItem(i, k, snap, snap[k], Check), pulled := w.pulled + 1),
             visits := v.visits[c := VisitsIn(v.visits, c) + [k]])
  }

  /** A cursor the source knows is resumed after; with none the iteration starts at the beginning;
      one it does not know may start anywhere (POP3 replays, IMAP and DAV compare). */
  function StartOf(items: seq<Item>, resume: Option<Id>, ch: Choice): (k: nat)
    ensures k <= |items|
  {
    if resume.None? || resume.value in Ids(items) then After(items, resume)
    else if ch.at <= |items| then ch.at else 0
  }

  /** The calls a run makes for one item. */
  function ItemStep(v: View, ch: Choice): View
    requires v.worker.pc.InItem?
  {
    var InItem(i, k, snap, item, stage) := v.worker.pc;
    var c := v.worker.Collection(i);
    match stage
    case Check =>
      if item.fp in v.job.row.ledger then v.To(InItem(i, k, snap, item, CountSkip))
      else v.To(InItem(i, k, snap, item, Upsert))
    case CountSkip => v.AddSkipped().To(InItem(i, k, snap, item, Mark))
    case Upsert =>
      if ch.raises then v.To(InItem(i, k, snap, item, CountFailure))
      else v.(job := v.job.(upserts := v.job.upserts + multiset{item.fp})).To(InItem(i, k, snap, item, Record))
    case Record =>
      if item.fp in v.job.row.ledger then
        v.(job := v.job.(lostRaces := v.job.lostRaces + multiset{item.fp})).To(InItem(i, k, snap, item, CountDup))
      else
        v.(job := v.job.(row := v.job.row.WithFingerprint(item.fp)))
         .To(InItem(i, k, snap, item, CountNew))
    case CountNew => v.AddMigrated().To(InItem(i, k, snap, item, Mark))
    case CountDup => v.AddSkipped().To(InItem(i, k, snap, item, Mark))
    case Mark => v.SetCheckpoint(c, item.id).To(Next(i, k + 1, snap))
    case CountFailure =>
      var u := v.AddFailed();
      if u.worker.runFailures >= Threshold(v.job.maxErrors) then u.To(SetFailed(true))
      else u.(job := u.job.(forgiven := u.job.forgiven + {(c, k)})).To(Next(i, k + 1, snap))
  }

  predicate SameIdentity(v: View, v': View) {
    && v'.worker.job == v.worker.job && v'.worker.crashed == v.worker.crashed
    && v'.worker.plan == v.worker.plan && v'.worker.cursors == v.worker.cursors
    && v'.job.incremental == v.job.incremental && v'.job.maxErrors == v.job.maxErrors
  }

  /** No call changes which job a worker runs or revives it. */
  lemma StepKeepsIdentity(v: View, source: map<Col, seq<Item>>, ch: Choice)
    ensures SameIdentity(v, LocalStep(v, source, ch))
  {
    if v.worker.pc.InItem? { ItemStepKeepsIdentity(v, ch); }
    else if InCollection(v.worker.pc) { CollectionStepIsLocal(v, source, ch); }
    else { JobStepIsLocal(v, ch); }
  }

  lemma ItemStepKeepsIdentity(v: View, ch: Choice)
    requires v.worker.pc.InItem?
    ensures SameIdentity(v, ItemStep(v, ch))
  {
    match v.worker.pc.stage {
      case Check => case CountSkip => case Upsert => case Record =>
      case CountNew => case CountDup => case Mark => case CountFailure =>
    }
  }

  /** Around the collections a worker changes nothing of its job but the status. */
  lemma JobStepIsLocal(v: View, ch: Choice)
    requires !v.worker.pc.InItem? && !InCollection(v.worker.pc)
    ensures var v' := JobStep(v, ch);
            SameIdentity(v, v') && SameButStatus(v.job, v'.job) && v'.visits == v.visits && !v'.worker.pc.InItem?
  {
    match v.worker.pc {
      case Load => case SetRunning => case Validate => case SetCompleted => case ReadCheckpoints =>
      case Publish(_) => case SetFailed(_) => case SetCancelled(_) => case Done(_) =>
    }
  }

  /** Between items a worker changes nothing of its job but, when seeding, one checkpoint, and the
      record of what its iterator passed over. */
  lemma CollectionStepIsLocal(v: View, source: map<Col, seq<Item>>, ch: Choice)
    requires InCollection(v.worker.pc)
    ensures var v' := CollectionStep(v, source, ch);
            && SameIdentity(v, v') && v'.cursors == v.cursors
            && v'.job == v.job.(row := v.job.row.(checkpoints := v'.job.row.checkpoints), passed := v'.job.passed)
            && (!v.worker.pc.Seed? ==> v'.job.row == v.job.row) && v.job.passed <= v'.job.passed
            && (!v.worker.pc.Next? ==> v'.job.passed == v.job.passed)
            && (v'.worker.pc.InItem? ==> v'.worker.pc.stage == Check)
  {
    match v.worker.pc {
      case Seed(_) => SeedIsLocal(v, source, ch);
      case Next(_, _, _) => NextIsLocal(v, source, ch);
      case Open(_, _) => OpenIsLocal(v, source, ch);
      case Top(_) => ChoosingIsLocal(v, source, ch);
      case ReadCheckpoint(_) => ChoosingIsLocal(v, source, ch);
    }
  }

  lemma ChoosingIsLocal(v: View, source: map<Col, seq<Item>>, ch: Choice)
    requires v.worker.pc.Top? || v.worker.pc.ReadCheckpoint?
    ensures var v' := CollectionStep(v, source, ch);
            SameIdentity(v, v') && v'.cursors == v.cursors && v'.job == v.job && !v'.worker.pc.InItem?
  {
  }

  lemma OpenIsLocal(v: View, source: map<Col, seq<Item>>, ch: Choice)
    requires v.worker.pc.Open?
    ensures var v' := CollectionStep(v, source, ch);
            SameIdentity(v, v') && v'.cursors == v.cursors && v'.job == v.job && !v'.worker.pc.InItem?
  {
  }

  lemma SeedIsLocal(v: View, source: map<Col, seq<Item>>, ch: Choice)
    requires v.worker.pc.Seed?
    ensures var v' := CollectionStep(v, source, ch);
            && SameIdentity(v, v') && v'.cursors == v.cursors && !v'.worker.pc.InItem?
            && v'.job == v.job.(row := v.job.row.(checkpoints := v'.job.row.checkpoints))
  {
  }

  lemma NextIsLocal(v: View, source: map<Col, seq<Item>>, ch: Choice)
    requires v.worker.pc.Next?
    ensures var v' := CollectionStep(v, source, ch);
            && SameIdentity(v, v') && v'.cursors == v.cursors
            && v'.job == v.job.(passed := v'.job.passed) && v.job.passed <= v'.job.passed
            && (v'.worker.pc.InItem? ==> v'.worker.pc.stage == Check)
  {
  }

  // ---------------------------------------------------------------- the whole system

  datatype Action =
    | Create(j: JobId, incremental: bool, maxErrors: int)
    | Start(w: Wid, j: JobId, plan: seq<Col>, base: Option<JobId>)
    | Work(w: Wid, ch: Choice)
    | Crash(w: Wid)
    | RecoverStuck
    | CancelPending(j: JobId)
    | Requeue(j: JobId)
    | Append(c: Col, more: seq<Item>)
    | Rewrite(source: map<Col, seq<Item>>)

  function NewJob(incremental: bool, maxErrors: int): Job {
    Job(Row(Pending, {}, map[], 0, 0, 0), incremental, maxErrors, multiset{}, multiset{}, {}, {})
  }

  function NewWorker(j: JobId, cursors: map<Col, Id>, plan: seq<Col>): Worker {
    Worker(j, false, cursors, plan, 0, Load, [], 0, 0, 0, 0)
  }

  /** resolve_incremental_cursors; None is the error for a base job that is missing or not completed. */
  function ResolveCursors(s: Sys, incremental: bool, base: Option<JobId>): Option<map<Col, Id>> {
    if !incremental then Some(map[])
    else if base.None? then Some(s.cursors)
    else if base.value in s.jobs && s.jobs[base.value].row.status == Completed
    then Some(s.jobs[base.value].row.checkpoints)
    else None
  }

  function ViewOf(s: Sys, w: Wid): View
    requires w in s.workers && s.workers[w].job in s.jobs
  {
    View(s.jobs[s.workers[w].job], s.workers[w], s.cursors, s.visits)
  }

  function Put(s: Sys, w: Wid, v: View): Sys
    requires w in s.workers
  {
    s.(jobs := s.jobs[s.workers[w].job := v.job], workers := s.workers[w := v.worker],
       cursors := v.cursors, visits := v.visits)
  }

  function SetRowStatus(s: Sys, j: JobId, st: Status): Sys
    requires j in s.jobs
  {
    s.(jobs := s.jobs[j := s.jobs[j].(row := s.jobs[j].row.(status := st))])
  }

  function FailIfRunning(job: Job): Job {
    if job.row.status == Running then job.(row := job.row.(status := Failed)) else job
  }

  /** An action that is not enabled changes nothing. */
  function Apply(s: Sys, a: Action): Sys {
    match a
    case Create(j, incremental, maxErrors) =>
      if j in s.jobs then s else s.(jobs := s.jobs[j := NewJob(incremental, maxErrors)])
    case Start(w, j, plan, base) =>
      if w in s.workers || j !in s.jobs then s
      else
        var cursors := ResolveCursors(s, s.jobs[j].incremental, base);
        if cursors.None? then s
        else s.(workers := s.workers[w := NewWorker(j, cursors.value, plan)])
    case Work(w, ch) =>
      if w in s.workers && !s.workers[w].crashed && s.workers[w].job in s.jobs
      then Put(s, w, LocalStep(ViewOf(s, w), s.source, ch)) else s
    case Crash(w) =>
      if w in s.workers && s.workers[w].Live()
      then s.(workers := s.workers[w := s.workers[w].(crashed := true)]) else s
    case RecoverStuck => s.(jobs := map j | j in s.jobs :: FailIfRunning(s.jobs[j]))
    case CancelPending(j) =>
      if j in s.jobs && s.jobs[j].row.status == Pending then SetRowStatus(s, j, Cancelled) else s
    case Requeue(j) => if j in s.jobs then SetRowStatus(s, j, Pending) else s
    case Append(c, more) =>
      if Distinct(Ids(ItemsIn(s.source, c) + more))
      then s.(source := s.source[c := ItemsIn(s.source, c) + more]) else s
    case Rewrite(source) => s.(source := source)
  }

  function Execute(s: Sys, acts: seq<Action>): Sys {
    if acts == [] then s else Apply(Execute(s, acts[..|acts| - 1]), acts[|acts| - 1])
  }

  lemma {:induction false} ExecuteFrom(s: Sys, a: Action, acts: seq<Action>)
    ensures Execute(s, [a] + acts) == Execute(Apply(s, a), acts)
  {
    var all := [a] + acts;
    if acts == [] {
      assert all[..|all| - 1] == [];
    } else {
      assert all[..|all| - 1] == [a] + acts[..|acts| - 1];
      ExecuteFrom(s, a, acts[..|acts| - 1]);
    }
  }

  lemma {:induction false} ExecuteMore(s: Sys, first: seq<Action>, acts: seq<Action>)
    ensures Execute(s, first + acts) == Execute(Execute(s, first), acts)
  {
    if acts == [] {
      assert first + acts == first;
    } else {
      assert (first + acts)[..|first + acts| - 1] == first + acts[..|acts| - 1];
      ExecuteMore(s, first, acts[..|acts| - 1]);
    }
  }

  function Initial(source: map<Col, seq<Item>>): Sys {
    Sys(source, map[], map[], map[], map[])
  }

  // ---------------------------------------------------------------- what the other actions leave alone

  predicate SameButStatus(a: Job, b: Job) { b == a.(row := a.row.(status := b.row.status)) }

  predicate SameButCrashed(a: Worker, b: Worker) { b == a.(crashed := b.crashed) && (a.crashed ==> b.crashed) }

  predicate IsNewWorker(s: Sys, a: Action, w: Wid, r: Worker) {
    && a.Start? && w == a.w && a.j in s.jobs && w !in s.workers
    && (var cursors := ResolveCursors(s, s.jobs[a.j].incremental, a.base);
        cursors.Some? && r == NewWorker(a.j, cursors.value, a.plan))
  }

  ghost predicate Steady(s: Sys, a: Action, s': Sys) {
    && s'.cursors == s.cursors && s'.visits == s.visits
    && (forall j :: j in s.jobs ==> j in s'.jobs && SameButStatus(s.jobs[j], s'.jobs[j]))
    && (forall j :: j in s'.jobs && j !in s.jobs ==> s'.jobs[j] == NewJob(s'.jobs[j].incremental, s'.jobs[j].maxErrors))
    && (forall w :: w in s.workers ==> w in s'.workers && SameButCrashed(s.workers[w], s'.workers[w]))
    && (forall w :: w in s'.workers && w !in s.workers ==> IsNewWorker(s, a, w, s'.workers[w]))
  }

  /** Only a worker's own call touches counters, ledgers, checkpoints, cursors or its place in the run. */
  lemma OtherActionsAreSteady(s: Sys, a: Action)
    requires !a.Work?
    ensures Steady(s, a, Apply(s, a))
  {
    match a {
      case Create(_, _, _) => CreationIsSteady(s, a);
      case Start(_, _, _, _) => StartIsSteady(s, a);
      case Crash(_) => CrashIsSteady(s, a);
      case RecoverStuck => RecoveryIsSteady(s, a);
      case Append(_, _) => SourceIsSteady(s, a);
      case Rewrite(_) => SourceIsSteady(s, a);
      case CancelPending(_) => CancellationIsSteady(s, a);
      case Requeue(_) => RequeueIsSteady(s, a);
    }
  }

  lemma CreationIsSteady(s: Sys, a: Action)
    requires a.Create?
    ensures Steady(s, a, Apply(s, a))
  {
  }

  lemma CrashIsSteady(s: Sys, a: Action)
    requires a.Crash?
    ensures Steady(s, a, Apply(s, a))
  {
  }

  lemma CancellationIsSteady(s: Sys, a: Action)
    requires a.CancelPending?
    ensures Steady(s, a, Apply(s, a))
  {
  }

  lemma RequeueIsSteady(s: Sys, a: Action)
    requires a.Requeue?
    ensures Steady(s, a, Apply(s, a))
  {
  }

  lemma SourceIsSteady(s: Sys, a: Action)
    requires a.Append? || a.Rewrite?
    ensures Steady(s, a, Apply(s, a))
  {
  }

  lemma StartIsSteady(s: Sys, a: Action)
    requires a.Start?
    ensures Steady(s, a, Apply(s, a))
  {
  }

  lemma RecoveryIsSteady(s: Sys, a: Action)
    requires a.RecoverStuck?
    ensures Steady(s, a, Apply(s, a))
  {
  }

  // ---------------------------------------------------------------- one worker and its environment

  /** The state after n calls of worker w and nobody else, answered one after the other. */
  function Course(s: Sys, w: Wid, answers: nat -> Choice, n: nat): Sys {
    if n == 0 then s else Apply(Course(s, w, answers, n - 1), Work(w, answers(n - 1)))
  }

  function Answered(w: Wid, answers: nat -> Choice, n: nat): (acts: seq<Action>)
    ensures |acts| == n && forall k :: 0 <= k < n ==> acts[k] == Work(w, answers(k))
  {
    seq(n, k requires 0 <= k < n => Work(w, answers(k)))
  }

  lemma {:induction false} CourseIsExecution(s: Sys, w: Wid, answers: nat -> Choice, n: nat)
    ensures Course(s, w, answers, n) == Execute(s, Answered(w, answers, n))
  {
    if n > 0 {
      CourseIsExecution(s, w, answers, n - 1);
      assert Answered(w, answers, n)[..n - 1] == Answered(w, answers, n - 1);
    }
  }

  /** The status a run leaves behind. */
  function StatusOf(outcome: Outcome): Status {
    match outcome
    case AlreadyCompleted => Completed
    case RanCompleted => Completed
    case RanFailed(_) => Failed
    case RanCancelled => Cancelled
  }
}
