/** A series of incremental jobs, one after the other, each resuming from the published cursors: as
    long as every run completes, cursors never move back and each item is visited exactly once, unless
    an iterator passed over it. `gone` stands for the positions passed over so far, by any job. */
module SyncSeries {
  import opened Cursors
  import opened MigrationProtocol
  import RunAccounting
  import LossBound

  function Range(n: nat): seq<nat> { seq(n, i => i) }

  function Position(source: map<Col, seq<Item>>, m: map<Col, Id>, c: Col): nat {
    After(ItemsIn(source, c), Lookup(m, c))
  }

  /** How far a job got in a collection: its checkpoint, or the cursor it would be seeded with. */
  function Front(source: map<Col, seq<Item>>, v: View, c: Col): nat {
    if c in v.job.row.checkpoints then Position(source, v.job.row.checkpoints, c) else Position(source, v.cursors, c)
  }

  ghost predicate Known(source: map<Col, seq<Item>>, m: map<Col, Id>) {
    forall c :: c in m ==> m[c] in Ids(ItemsIn(source, c))
  }

  /** One past the item a worker holds of this collection, or 0. */
  function InHand(w: Worker, c: Col): nat {
    if w.pc.InItem? && w.Collection(w.pc.i) == c then w.pc.k + 1 else 0
  }

  /** Everything before this position has been dealt with. */
  function Reach(source: map<Col, seq<Item>>, v: View, c: Col): nat {
    if InHand(v.worker, c) > 0 then InHand(v.worker, c) else Front(source, v, c)
  }

  /** The visits went forward only, stayed below p, and left out nothing but what was passed over. */
  ghost predicate SeenUpTo(visits: seq<nat>, gone: set<(Col, nat)>, c: Col, p: nat) {
    && (forall i, j :: 0 <= i < j < |visits| ==> visits[i] < visits[j])
    && (forall i :: 0 <= i < |visits| ==> visits[i] < p)
    && (forall i: nat :: i < p ==> i in visits || (c, i) in gone)
  }

  /** What the jobs' iterators passed over, in all. */
  ghost function AllPassed(s: Sys): set<(Col, nat)> {
    set j, p | j in s.jobs && p in s.jobs[j].passed :: p
  }

  predicate Failing(pc: PC) {
    pc.SetFailed? || pc.SetCancelled? || (pc.Done? && pc.outcome != RanCompleted)
  }

  ghost predicate VisitedUpTo(source: map<Col, seq<Item>>, v: View, gone: set<(Col, nat)>, c: Col) {
    && SeenUpTo(VisitsIn(v.visits, c), gone, c, Reach(source, v, c))
    && Position(source, v.cursors, c) <= Front(source, v, c)
  }

  ghost predicate PassedBetween(gone: set<(Col, nat)>, c: Col, from: nat, to: nat) {
    from <= to && forall i: nat :: from <= i < to ==> (c, i) in gone
  }

  ghost predicate PlaceOk(source: map<Col, seq<Item>>, v: View, gone: set<(Col, nat)>) {
    match v.worker.pc
    case Seed(i) => v.worker.Collection(i) !in v.job.row.checkpoints && v.worker.Collection(i) in v.cursors
    case Open(i, resume) =>
      var c := v.worker.Collection(i);
      After(ItemsIn(source, c), resume) == Front(source, v, c)
      && (resume.Some? ==> resume.value in Ids(ItemsIn(source, c)))
    case Next(i, k, snap) =>
      PassedBetween(gone, v.worker.Collection(i), Front(source, v, v.worker.Collection(i)), k)
    case InItem(i, k, snap, item, _) => Front(source, v, v.worker.Collection(i)) <= k
    case Publish(todo) =>
      && (forall c :: c in todo ==> c in v.job.row.checkpoints && todo[c] == v.job.row.checkpoints[c])
      && (forall c :: c in v.job.row.checkpoints && c !in todo ==>
            c in v.cursors && v.cursors[c] == v.job.row.checkpoints[c])
    case _ => true
  }

  ghost predicate ActiveOk(source: map<Col, seq<Item>>, v: View, gone: set<(Col, nat)>) {
    && (forall c :: VisitedUpTo(source, v, gone, c))
    && (!v.worker.pc.Publish? ==> v.worker.cursors == v.cursors)
    && v.job.incremental && v.job.maxErrors <= 1
    && PlaceOk(source, v, gone)
  }

  ghost predicate RestOk(source: map<Col, seq<Item>>, cursors: map<Col, Id>, visits: map<Col, seq<nat>>,
                         gone: set<(Col, nat)>) {
    forall c :: SeenUpTo(VisitsIn(visits, c), gone, c, Position(source, cursors, c))
  }

  // ---------------------------------------------------------------- one call of the active run

  /** A call that moves no checkpoint, cursor or visit and neither takes nor drops an item. */
  lemma QuietVisits(source: map<Col, seq<Item>>, v: View, v': View, gone: set<(Col, nat)>)
    requires forall c :: VisitedUpTo(source, v, gone, c)
    requires v'.visits == v.visits && v'.cursors == v.cursors && v'.job.row.checkpoints == v.job.row.checkpoints
    requires forall c :: InHand(v'.worker, c) == InHand(v.worker, c)
    ensures forall c :: VisitedUpTo(source, v', gone, c)
  {
    forall c ensures VisitedUpTo(source, v', gone, c) { assert VisitedUpTo(source, v, gone, c); }
  }

  lemma JobStepVisits(v: View, source: map<Col, seq<Item>>, ch: Choice, gone: set<(Col, nat)>)
    requires ActiveOk(source, v, gone) && !v.worker.pc.InItem? && !InCollection(v.worker.pc) && !v.worker.pc.Done?
    requires !Failing(JobStep(v, ch).worker.pc)
    ensures var v' := JobStep(v, ch);
            if v'.worker.pc.Done? then RestOk(source, v'.cursors, v'.visits, gone) else ActiveOk(source, v', gone)
  {
    var v' := JobStep(v, ch);
    JobStepIsLocal(v, ch);
    if v.worker.pc.Publish? { PublishVisits(v, source, ch, gone); } else { QuietVisits(source, v, v', gone); }
    if v'.worker.pc.Done? && v.worker.pc.Publish? {
      forall c ensures SeenUpTo(VisitsIn(v'.visits, c), gone, c, Position(source, v'.cursors, c)) {
        assert VisitedUpTo(source, v', gone, c);
      }
    }
  }

  /** Publishing a cursor catches it up with the checkpoint and moves no front. */
  lemma PublishVisits(v: View, source: map<Col, seq<Item>>, ch: Choice, gone: set<(Col, nat)>)
    requires ActiveOk(source, v, gone) && v.worker.pc.Publish?
    ensures forall c :: VisitedUpTo(source, JobStep(v, ch), gone, c)
    ensures JobStep(v, ch).worker.pc.Publish? ==> PlaceOk(source, JobStep(v, ch), gone)
    ensures forall c :: Position(source, v.cursors, c) <= Position(source, JobStep(v, ch).cursors, c)
  {
    var v' := JobStep(v, ch);
    forall c ensures VisitedUpTo(source, v', gone, c)
        && Position(source, v.cursors, c) <= Position(source, v'.cursors, c) {
      PublishVisitsOne(v, source, ch, gone, c);
    }
  }

  lemma PublishVisitsOne(v: View, source: map<Col, seq<Item>>, ch: Choice, gone: set<(Col, nat)>, c: Col)
    requires PlaceOk(source, v, gone) && VisitedUpTo(source, v, gone, c) && v.worker.pc.Publish?
    ensures VisitedUpTo(source, JobStep(v, ch), gone, c)
    ensures Position(source, v.cursors, c) <= Position(source, JobStep(v, ch).cursors, c)
  {
    PublishFrame(v, ch);
    assert Front(source, JobStep(v, ch), c) == Front(source, v, c);
  }

  /** One step of publishing writes one cursor, with the checkpoint of the same collection, or none. */
  lemma PublishFrame(v: View, ch: Choice)
    requires v.worker.pc.Publish?
    ensures var v', todo := JobStep(v, ch), v.worker.pc.todo;
            && v'.visits == v.visits && v'.job == v.job && !v'.worker.pc.InItem?
            && v'.cursors == if todo == map[] then v.cursors else v.cursors[LeastKey(todo) := todo[LeastKey(todo)]]
  {
  }

  lemma CollectionStepVisits(v: View, source: map<Col, seq<Item>>, ch: Choice, gone: set<(Col, nat)>)
    requires ActiveOk(source, v, gone) && InCollection(v.worker.pc)
    requires Known(source, v.job.row.checkpoints) && Known(source, v.cursors)
    requires !Failing(CollectionStep(v, source, ch).worker.pc) && CollectionStep(v, source, ch).job.passed <= gone
    ensures ActiveOk(source, CollectionStep(v, source, ch), gone)
  {
    var v' := CollectionStep(v, source, ch);
    CollectionStepIsLocal(v, source, ch);
    match v.worker.pc {
      case Top(_) => EnterVisits(v, source, ch, gone);
      case ReadCheckpoint(_) => QuietVisits(source, v, v', gone); ReadVisits(v, source, ch, gone);
      case Seed(_) => SeedVisits(v, source, ch, gone);
      case Open(_, _) => EnterVisits(v, source, ch, gone);
      case Next(_, k, snap) =>
        if |snap| <= k { QuietVisits(source, v, v', gone); }
        else if ch.passes { QuietVisits(source, v, v', gone); PassVisits(v, source, ch, gone); }
        else { PullVisits(v, source, ch, gone); }
    }
  }

  lemma EnterVisits(v: View, source: map<Col, seq<Item>>, ch: Choice, gone: set<(Col, nat)>)
    requires ActiveOk(source, v, gone) && (v.worker.pc.Top? || v.worker.pc.Open?)
    requires !Failing(CollectionStep(v, source, ch).worker.pc)
    ensures ActiveOk(source, CollectionStep(v, source, ch), gone)
  {
    CollectionStepIsLocal(v, source, ch);
    QuietVisits(source, v, CollectionStep(v, source, ch), gone);
  }

  lemma ReadVisits(v: View, source: map<Col, seq<Item>>, ch: Choice, gone: set<(Col, nat)>)
    requires ActiveOk(source, v, gone) && v.worker.pc.ReadCheckpoint? && Known(source, v.job.row.checkpoints)
    ensures PlaceOk(source, CollectionStep(v, source, ch), gone)
  {
  }

  /** Seeding a checkpoint with the cursor leaves the front where it was. */
  lemma SeedVisits(v: View, source: map<Col, seq<Item>>, ch: Choice, gone: set<(Col, nat)>)
    requires ActiveOk(source, v, gone) && v.worker.pc.Seed? && Known(source, v.cursors)
    ensures ActiveOk(source, CollectionStep(v, source, ch), gone)
  {
    var v' := CollectionStep(v, source, ch);
    forall c ensures VisitedUpTo(source, v', gone, c) { assert VisitedUpTo(source, v, gone, c); }
  }

  /** Passing over a position leaves the front behind and records the gap. */
  lemma PassVisits(v: View, source: map<Col, seq<Item>>, ch: Choice, gone: set<(Col, nat)>)
    requires ActiveOk(source, v, gone) && v.worker.pc.Next? && !ch.raises && ch.passes
             && v.worker.pc.k < |v.worker.pc.snap|
    requires CollectionStep(v, source, ch).job.passed <= gone
    ensures PlaceOk(source, CollectionStep(v, source, ch), gone)
  {
    assert (v.worker.Collection(v.worker.pc.i), v.worker.pc.k) in CollectionStep(v, source, ch).job.passed;
  }

  /** The item pulled lies at or past the front, where nobody has visited. */
  lemma PullVisits(v: View, source: map<Col, seq<Item>>, ch: Choice, gone: set<(Col, nat)>)
    requires ActiveOk(source, v, gone) && v.worker.pc.Next? && CollectionStep(v, source, ch).worker.pc.InItem?
    ensures ActiveOk(source, CollectionStep(v, source, ch), gone)
  {
    var v' := CollectionStep(v, source, ch);
    forall c ensures VisitedUpTo(source, v', gone, c) && Front(source, v', c) == Front(source, v, c) {
      assert VisitedUpTo(source, v, gone, c);
      PullVisitsOne(v, source, ch, gone, c);
    }
  }

  lemma PullVisitsOne(v: View, source: map<Col, seq<Item>>, ch: Choice, gone: set<(Col, nat)>, c: Col)
    requires VisitedUpTo(source, v, gone, c) && v.worker.pc.Next? && CollectionStep(v, source, ch).worker.pc.InItem?
    requires c == v.worker.Collection(v.worker.pc.i) ==> PassedBetween(gone, c, Front(source, v, c), v.worker.pc.k)
    ensures VisitedUpTo(source, CollectionStep(v, source, ch), gone, c)
    ensures Front(source, CollectionStep(v, source, ch), c) == Front(source, v, c)
  {
    if c == v.worker.Collection(v.worker.pc.i) {
      SeenNext(VisitsIn(v.visits, c), gone, c, Front(source, v, c), v.worker.pc.k);
    }
  }

  lemma SeenNext(visits: seq<nat>, gone: set<(Col, nat)>, c: Col, front: nat, k: nat)
    requires SeenUpTo(visits, gone, c, front) && PassedBetween(gone, c, front, k)
    ensures SeenUpTo(visits + [k], gone, c, k + 1)
  {
    var all := visits + [k];
    forall i: nat | i < k + 1 ensures i in all || (c, i) in gone {
      if i == k { assert all[|visits|] == k; }
    }
  }

  lemma ItemStepVisits(v: View, source: map<Col, seq<Item>>, ch: Choice, gone: set<(Col, nat)>)
    requires ActiveOk(source, v, gone) && v.worker.pc.InItem? && LossBound.SourceOk(source)
    requires v.worker.pc.snap <= ItemsIn(source, v.worker.Collection(v.worker.pc.i))
    requires v.worker.pc.k < |v.worker.pc.snap| && v.worker.pc.item == v.worker.pc.snap[v.worker.pc.k]
    requires !Failing(ItemStep(v, ch).worker.pc)
    ensures ActiveOk(source, ItemStep(v, ch), gone)
  {
    var v' := ItemStep(v, ch);
    ItemStepKeepsIdentity(v, ch);
    if v.worker.pc.stage == Mark {
      MarkVisits(v, source, ch, gone);
    } else {
      StageVisits(v, ch);
      QuietVisits(source, v, v', gone);
    }
  }

  lemma StageVisits(v: View, ch: Choice)
    requires v.worker.pc.InItem? && v.worker.pc.stage != Mark && v.job.maxErrors <= 1
             && !Failing(ItemStep(v, ch).worker.pc)
    ensures var v' := ItemStep(v, ch);
            && v'.visits == v.visits && v'.cursors == v.cursors && v'.job.row.checkpoints == v.job.row.checkpoints
            && v'.worker.pc.InItem? && v'.worker.pc == v.worker.pc.(stage := v'.worker.pc.stage)
  {
    match v.worker.pc.stage {
      case Upsert => WriteVisits(v, ch);
      case Record => WriteVisits(v, ch);
      case CountFailure => WriteVisits(v, ch);
      case Check => case CountSkip => case CountNew => case CountDup =>
    }
  }

  lemma WriteVisits(v: View, ch: Choice)
    requires v.worker.pc.InItem? && v.worker.pc.stage in {Upsert, Record, CountFailure}
    requires v.job.maxErrors <= 1 && !Failing(ItemStep(v, ch).worker.pc)
    ensures var v' := ItemStep(v, ch);
            && v'.visits == v.visits && v'.cursors == v.cursors && v'.job.row.checkpoints == v.job.row.checkpoints
            && v'.worker.pc.InItem? && v'.worker.pc == v.worker.pc.(stage := v'.worker.pc.stage)
  {
  }

  /** Marking an item moves the front just past it. */
  lemma MarkVisits(v: View, source: map<Col, seq<Item>>, ch: Choice, gone: set<(Col, nat)>)
    requires ActiveOk(source, v, gone) && v.worker.pc.InItem? && v.worker.pc.stage == Mark && LossBound.SourceOk(source)
    requires v.worker.pc.snap <= ItemsIn(source, v.worker.Collection(v.worker.pc.i))
    requires v.worker.pc.k < |v.worker.pc.snap| && v.worker.pc.item == v.worker.pc.snap[v.worker.pc.k]
    ensures ActiveOk(source, ItemStep(v, ch), gone)
  {
    var v' := ItemStep(v, ch);
    var c0, k := v.worker.Collection(v.worker.pc.i), v.worker.pc.k;
    IndexOfUnique(Ids(ItemsIn(source, c0)), k);
    assert Front(source, v', c0) == k + 1;
    forall c ensures VisitedUpTo(source, v', gone, c) { assert VisitedUpTo(source, v, gone, c); }
  }

  // ---------------------------------------------------------------- the whole series

  ghost predicate Idle(s: Sys) { forall w :: w in s.workers ==> s.workers[w].pc == Done(RanCompleted) }

  ghost predicate Unused(s: Sys, j: JobId) { forall w :: w in s.workers ==> s.workers[w].job != j }

  ghost predicate Broken(s: Sys) { exists w :: w in s.workers && Failing(s.workers[w].pc) }

  ghost predicate Active(s: Sys, w: Wid) { w in s.workers && !s.workers[w].pc.Done? }

  /** Strict incremental jobs, each run once from the published cursors after the previous run
      completed, while the source may grow. */
  ghost predicate Series(source: map<Col, seq<Item>>, acts: seq<Action>) {
    acts == [] ||
    (var before, last := acts[..|acts| - 1], acts[|acts| - 1];
     && Series(source, before)
     && match last
        case Create(_, incremental, maxErrors) => incremental && maxErrors <= 1
        case Start(_, j, _, base) =>
          base == None && Idle(Execute(Initial(source), before)) && Unused(Execute(Initial(source), before), j)
        case Work(_, _) => true
        case Append(_, _) => true
        case _ => false)
  }

  ghost predicate Healthy(s: Sys) {
    && (forall j :: j in s.jobs ==> s.jobs[j].incremental && s.jobs[j].maxErrors <= 1)
    && (forall j :: j in s.jobs && Unused(s, j) ==> s.jobs[j].row.checkpoints == map[])
    && (forall w :: w in s.workers ==> s.workers[w].job in s.jobs && !s.workers[w].crashed)
    && (forall w1, w2 :: Active(s, w1) && Active(s, w2) ==> w1 == w2)
    && (forall w :: Active(s, w) ==> ActiveOk(s.source, ViewOf(s, w), AllPassed(s)))
    && (Idle(s) ==> RestOk(s.source, s.cursors, s.visits, AllPassed(s)))
  }

  ghost predicate SeriesInv(s: Sys) { Broken(s) || Healthy(s) }

  lemma AllKnown(s: Sys)
    requires LossBound.Inv(s)
    ensures Known(s.source, s.cursors)
    ensures forall j :: j in s.jobs ==> Known(s.source, s.jobs[j].row.checkpoints)
  {
    forall c | c in s.cursors ensures s.cursors[c] in Ids(ItemsIn(s.source, c)) {
      assert LossBound.Marked(s, s.jobs.Keys, c, s.cursors[c]);
    }
    forall j, c | j in s.jobs && c in s.jobs[j].row.checkpoints
      ensures s.jobs[j].row.checkpoints[c] in Ids(ItemsIn(s.source, c))
    {
      assert LossBound.JobOk(s, j) && LossBound.Marked(s, LossBound.Basis(s, j), c, s.jobs[j].row.checkpoints[c]);
    }
  }

  /** What one call passes over joins what was passed over before. */
  lemma PassedGrows(s: Sys, w: Wid, v': View)
    requires w in s.workers && s.workers[w].job in s.jobs && s.jobs[s.workers[w].job].passed <= v'.job.passed
    ensures AllPassed(s) <= AllPassed(Put(s, w, v')) && v'.job.passed <= AllPassed(Put(s, w, v'))
  {
    var s', own := Put(s, w, v'), s.workers[w].job;
    forall p | p in AllPassed(s) ensures p in AllPassed(s') {
      var j :| j in s.jobs && p in s.jobs[j].passed;
      assert j in s'.jobs && p in s'.jobs[j].passed;
    }
    forall p | p in v'.job.passed ensures p in AllPassed(s') { assert own in s'.jobs && p in s'.jobs[own].passed; }
  }

  lemma StepOnlyPasses(v: View, source: map<Col, seq<Item>>, ch: Choice)
    ensures v.job.passed <= LocalStep(v, source, ch).job.passed
  {
    if v.worker.pc.InItem? { LossBound.ItemStepGrows(v, ch); }
    else if InCollection(v.worker.pc) { CollectionStepIsLocal(v, source, ch); }
    else { JobStepIsLocal(v, ch); }
  }

  lemma MoreGoneActive(source: map<Col, seq<Item>>, v: View, gone: set<(Col, nat)>, more: set<(Col, nat)>)
    requires ActiveOk(source, v, gone) && gone <= more
    ensures ActiveOk(source, v, more)
  {
    forall c ensures VisitedUpTo(source, v, more, c) { assert VisitedUpTo(source, v, gone, c); }
  }

  lemma WorkKeepsHealth(s: Sys, w: Wid, ch: Choice)
    requires LossBound.Inv(s) && w in s.workers && Healthy(s) && !Broken(s)
    requires Active(s, w) && !Failing(LocalStep(ViewOf(s, w), s.source, ch).worker.pc)
    ensures Healthy(Put(s, w, LocalStep(ViewOf(s, w), s.source, ch)))
  {
    var v := ViewOf(s, w);
    var v' := LocalStep(v, s.source, ch);
    var gone := AllPassed(Put(s, w, v'));
    AllKnown(s);
    StepKeepsIdentity(v, s.source, ch);
    StepOnlyPasses(v, s.source, ch);
    PassedGrows(s, w, v');
    MoreGoneActive(s.source, v, AllPassed(s), gone);
    assert LossBound.WorkerOk(s, v.worker);
    StepVisits(s, w, ch, gone);
    PutHealthy(s, w, v');
  }

  lemma StepVisits(s: Sys, w: Wid, ch: Choice, gone: set<(Col, nat)>)
    requires LossBound.SourceOk(s.source) && w in s.workers && s.workers[w].job in s.jobs
             && LossBound.WorkerOk(s, s.workers[w])
    requires ActiveOk(s.source, ViewOf(s, w), gone) && !s.workers[w].pc.Done?
    requires Known(s.source, s.cursors) && Known(s.source, s.jobs[s.workers[w].job].row.checkpoints)
    requires var v' := LocalStep(ViewOf(s, w), s.source, ch); v'.job.passed <= gone && !Failing(v'.worker.pc)
    ensures var v' := LocalStep(ViewOf(s, w), s.source, ch);
            if v'.worker.pc.Done? then RestOk(s.source, v'.cursors, v'.visits, gone) else ActiveOk(s.source, v', gone)
  {
    var v := ViewOf(s, w);
    if v.worker.pc.InItem? { ItemStepVisits(v, s.source, ch, gone); ItemStaysActive(v, ch); }
    else if InCollection(v.worker.pc) {
      CollectionStepVisits(v, s.source, ch, gone);
      CollectionStaysActive(v, s.source, ch);
    }
    else { JobStepVisits(v, s.source, ch, gone); }
  }

  lemma ItemStaysActive(v: View, ch: Choice)
    requires v.worker.pc.InItem?
    ensures !ItemStep(v, ch).worker.pc.Done?
  {
    LossBound.ItemStepGrows(v, ch);
  }

  lemma CollectionStaysActive(v: View, source: map<Col, seq<Item>>, ch: Choice)
    requires InCollection(v.worker.pc)
    ensures !CollectionStep(v, source, ch).worker.pc.Done?
  {
  }

  lemma StillUnused(s: Sys, s': Sys, w: Wid, j: JobId)
    requires w in s.workers && w in s'.workers && s'.workers == s.workers[w := s'.workers[w]]
             && s'.workers[w].job == s.workers[w].job
    requires Unused(s', j)
    ensures Unused(s, j) && s.workers[w].job != j
  {
    forall u | u in s.workers ensures s.workers[u].job != j { assert s'.workers[u].job != j; }
  }

  lemma PutHealthy(s: Sys, w: Wid, v': View)
    requires Healthy(s) && Active(s, w) && SameIdentity(ViewOf(s, w), v')
    requires var gone := AllPassed(Put(s, w, v'));
             if v'.worker.pc.Done? then RestOk(s.source, v'.cursors, v'.visits, gone) else ActiveOk(s.source, v', gone)
    ensures Healthy(Put(s, w, v'))
  {
    var s' := Put(s, w, v');
    forall j | j in s'.jobs && Unused(s', j) ensures s'.jobs[j].row.checkpoints == map[] { StillUnused(s, s', w, j); }
    PutActive(s, w, v');
  }

  /** Nobody else is active. */
  lemma PutActive(s: Sys, w: Wid, v': View)
    requires Healthy(s) && Active(s, w) && SameIdentity(ViewOf(s, w), v')
    ensures var s' := Put(s, w, v');
            && (forall u :: Active(s', u) ==> u == w && !v'.worker.pc.Done?) && (Idle(s') ==> v'.worker.pc.Done?)
            && s'.workers[w].job in s'.jobs && ViewOf(s', w) == v'
  {
    var s' := Put(s, w, v');
    forall u | Active(s', u) ensures u == w { assert u != w ==> Active(s, u); }
    if Idle(s') { assert s'.workers[w].pc == Done(RanCompleted); }
  }

  lemma PositionStable(source: map<Col, seq<Item>>, source': map<Col, seq<Item>>, id: Option<Id>, c: Col)
    requires ItemsIn(source, c) <= ItemsIn(source', c) && (id.Some? ==> id.value in Ids(ItemsIn(source, c)))
    ensures After(ItemsIn(source', c), id) == After(ItemsIn(source, c), id)
    ensures id.Some? ==> id.value in Ids(ItemsIn(source', c))
  {
    if id.Some? { IndexOfStable(Ids(ItemsIn(source, c)), Ids(ItemsIn(source', c)), id.value); }
  }

  /** New items behind every cursor disturb neither the active run nor the resting state. */
  lemma GrowthKeepsActive(source: map<Col, seq<Item>>, source': map<Col, seq<Item>>, v: View, gone: set<(Col, nat)>)
    requires ActiveOk(source, v, gone) && Known(source, v.cursors) && Known(source, v.job.row.checkpoints)
    requires forall c :: ItemsIn(source, c) <= ItemsIn(source', c)
    ensures ActiveOk(source', v, gone)
  {
    forall c ensures VisitedUpTo(source', v, gone, c) && Front(source', v, c) == Front(source, v, c) {
      assert VisitedUpTo(source, v, gone, c);
      GrowthKeepsFront(source, source', v, c);
    }
    if v.worker.pc.Open? {
      var c := v.worker.Collection(v.worker.pc.i);
      assert ItemsIn(source, c) <= ItemsIn(source', c);
      PositionStable(source, source', v.worker.pc.resume, c);
    }
  }

  lemma GrowthKeepsFront(source: map<Col, seq<Item>>, source': map<Col, seq<Item>>, v: View, c: Col)
    requires Known(source, v.cursors) && Known(source, v.job.row.checkpoints)
    requires ItemsIn(source, c) <= ItemsIn(source', c)
    ensures Position(source', v.cursors, c) == Position(source, v.cursors, c)
    ensures Front(source', v, c) == Front(source, v, c)
  {
    PositionStable(source, source', Lookup(v.cursors, c), c);
    PositionStable(source, source', Lookup(v.job.row.checkpoints, c), c);
  }

  lemma GrowthKeepsRest(source: map<Col, seq<Item>>, source': map<Col, seq<Item>>, cursors: map<Col, Id>,
                        visits: map<Col, seq<nat>>, gone: set<(Col, nat)>)
    requires RestOk(source, cursors, visits, gone) && Known(source, cursors)
    requires forall c :: ItemsIn(source, c) <= ItemsIn(source', c)
    ensures RestOk(source', cursors, visits, gone)
  {
    forall c ensures SeenUpTo(VisitsIn(visits, c), gone, c, Position(source', cursors, c)) {
      assert ItemsIn(source, c) <= ItemsIn(source', c);
      PositionStable(source, source', Lookup(cursors, c), c);
    }
  }

  /** Neither growing the source nor creating a job moves a worker. */
  lemma SameWorkersKeepHealth(s: Sys, s': Sys)
    requires Healthy(s) && s'.workers == s.workers && s'.cursors == s.cursors && s'.visits == s.visits
    requires forall j :: j in s.jobs ==> j in s'.jobs && s'.jobs[j] == s.jobs[j]
    requires forall j :: j in s'.jobs && j !in s.jobs ==>
               s'.jobs[j].incremental && s'.jobs[j].maxErrors <= 1 && s'.jobs[j].row.checkpoints == map[]
                   && s'.jobs[j].passed == {}
    requires forall w :: Active(s, w) ==> ActiveOk(s'.source, ViewOf(s, w), AllPassed(s))
    requires Idle(s) ==> RestOk(s'.source, s.cursors, s.visits, AllPassed(s))
    ensures Healthy(s')
  {
    SamePassed(s, s');
    forall w ensures Active(s', w) == Active(s, w) {}
    forall w | Active(s', w) ensures ActiveOk(s'.source, ViewOf(s', w), AllPassed(s')) {
      assert ViewOf(s', w) == ViewOf(s, w);
    }
    forall j | j in s'.jobs && Unused(s', j) ensures s'.jobs[j].row.checkpoints == map[] {
      if j in s.jobs { assert Unused(s, j); }
    }
    if Idle(s') { assert Idle(s); }
  }

  lemma SamePassed(s: Sys, s': Sys)
    requires forall j :: j in s.jobs ==> j in s'.jobs && s'.jobs[j].passed == s.jobs[j].passed
    requires forall j :: j in s'.jobs && j !in s.jobs ==> s'.jobs[j].passed == {}
    ensures AllPassed(s') == AllPassed(s)
  {
    forall p ensures p in AllPassed(s') <==> p in AllPassed(s) {
      if p in AllPassed(s) {
        var j :| j in s.jobs && p in s.jobs[j].passed;
        assert j in s'.jobs && p in s'.jobs[j].passed;
      }
      if p in AllPassed(s') {
        var j :| j in s'.jobs && p in s'.jobs[j].passed;
        assert j in s.jobs && p in s.jobs[j].passed;
      }
    }
  }

  lemma ActiveGrows(s: Sys, s': Sys, w: Wid)
    requires Healthy(s) && Active(s, w) && Known(s.source, s.cursors)
    requires forall j :: j in s.jobs ==> Known(s.source, s.jobs[j].row.checkpoints)
    requires forall c :: ItemsIn(s.source, c) <= ItemsIn(s'.source, c)
    ensures ActiveOk(s'.source, ViewOf(s, w), AllPassed(s))
  {
    GrowthKeepsActive(s.source, s'.source, ViewOf(s, w), AllPassed(s));
  }

  lemma AppendKeepsHealth(s: Sys, a: Action)
    requires a.Append? && LossBound.Inv(s) && Healthy(s)
    ensures Healthy(Apply(s, a))
  {
    var s' := Apply(s, a);
    AllKnown(s);
    AppendOnlyGrows(s, a);
    GrownKeepsHealth(s, s');
  }

  lemma AppendOnlyGrows(s: Sys, a: Action)
    requires a.Append? && LossBound.SourceOk(s.source)
    ensures var s' := Apply(s, a);
            s' == s.(source := s'.source) && forall c :: ItemsIn(s.source, c) <= ItemsIn(s'.source, c)
  {
    var s' := Apply(s, a);
    LossBound.AppendKeepsOrder(s, a);
    forall c ensures ItemsIn(s.source, c) <= ItemsIn(s'.source, c) {
      assert LossBound.Items(s, c) <= LossBound.Items(s', c);
    }
  }

  lemma GrownKeepsHealth(s: Sys, s': Sys)
    requires Healthy(s) && Known(s.source, s.cursors) && s' == s.(source := s'.source)
    requires forall j :: j in s.jobs ==> Known(s.source, s.jobs[j].row.checkpoints)
    requires forall c :: ItemsIn(s.source, c) <= ItemsIn(s'.source, c)
    ensures Healthy(s')
  {
    forall w | Active(s, w) ensures ActiveOk(s'.source, ViewOf(s, w), AllPassed(s)) { ActiveGrows(s, s', w); }
    if Idle(s) { GrowthKeepsRest(s.source, s'.source, s.cursors, s.visits, AllPassed(s)); }
    SameWorkersKeepHealth(s, s');
  }

  lemma CreateKeepsHealth(s: Sys, a: Action)
    requires a.Create? && a.incremental && a.maxErrors <= 1 && Healthy(s)
    ensures Healthy(Apply(s, a))
  {
    var s' := Apply(s, a);
    CreateShape(s, a);
    SameWorkersKeepHealth(s, s');
  }

  lemma CreateShape(s: Sys, a: Action)
    requires a.Create?
    ensures var s' := Apply(s, a);
            && s' == s.(jobs := s'.jobs) && (forall j :: j in s.jobs ==> j in s'.jobs && s'.jobs[j] == s.jobs[j])
            && (forall j :: j in s'.jobs && j !in s.jobs ==> s'.jobs[j] == NewJob(a.incremental, a.maxErrors))
  {
  }

  lemma StartKeepsHealth(s: Sys, a: Action)
    requires a.Start? && a.base == None && Idle(s) && Unused(s, a.j) && Healthy(s)
    ensures Healthy(Apply(s, a))
  {
    var s' := Apply(s, a);
    if s' != s {
      assert a.w in s'.workers && a.w !in s.workers && s'.workers[a.w].pc == Load;
      forall j | j in s'.jobs && Unused(s', j) ensures s'.jobs[j].row.checkpoints == map[] {
        forall w | w in s.workers ensures s.workers[w].job != j { assert s'.workers[w].job != j; }
        assert Unused(s, j);
      }
      forall w | Active(s', w) ensures w == a.w {}
      SamePassed(s, s');
      FreshWorkerVisits(s', ViewOf(s', a.w), AllPassed(s'));
    }
  }

  /** A worker that has just started finds its job untouched and the visits where the cursors are. */
  lemma FreshWorkerVisits(s: Sys, v: View, gone: set<(Col, nat)>)
    requires RestOk(s.source, v.cursors, v.visits, gone) && v.worker.pc == Load && v.worker.cursors == v.cursors
    requires v.job.row.checkpoints == map[] && v.job.incremental && v.job.maxErrors <= 1
    ensures ActiveOk(s.source, v, gone)
  {
    forall c ensures VisitedUpTo(s.source, v, gone, c) {
      assert SeenUpTo(VisitsIn(v.visits, c), gone, c, Position(s.source, v.cursors, c));
    }
  }

  lemma BrokenStays(s: Sys, a: Action)
    requires Broken(s) && (a.Work? || a.Create? || a.Append?)
    ensures Broken(Apply(s, a))
  {
    var w :| w in s.workers && Failing(s.workers[w].pc);
    var s' := Apply(s, a);
    if a.Work? && a.w == w && !s.workers[w].crashed && s.workers[w].job in s.jobs {
      assert s' == Put(s, w, JobStep(ViewOf(s, w), a.ch));
    }
    assert w in s'.workers && Failing(s'.workers[w].pc);
  }

  lemma {:induction false} SeriesAppendOnly(source: map<Col, seq<Item>>, acts: seq<Action>)
    requires Series(source, acts)
    ensures LossBound.AppendOnly(acts)
  {
    if acts != [] { SeriesAppendOnly(source, acts[..|acts| - 1]); }
  }

  lemma {:induction false} Always(source: map<Col, seq<Item>>, acts: seq<Action>)
    requires Series(source, acts) && LossBound.SourceOk(source)
    ensures SeriesInv(Execute(Initial(source), acts))
  {
    if acts == [] {
    } else {
      var before, last := Execute(Initial(source), acts[..|acts| - 1]), acts[|acts| - 1];
      Always(source, acts[..|acts| - 1]);
      SeriesAppendOnly(source, acts[..|acts| - 1]);
      LossBound.Always(source, acts[..|acts| - 1]);
      SeriesStep(before, last);
    }
  }

  lemma SeriesStep(s: Sys, a: Action)
    requires SeriesInv(s) && LossBound.Inv(s)
    requires a.Create? ==> a.incremental && a.maxErrors <= 1
    requires a.Start? ==> a.base == None && Idle(s) && Unused(s, a.j)
    requires a.Create? || a.Start? || a.Work? || a.Append?
    ensures SeriesInv(Apply(s, a))
  {
    if Broken(s) {
      if a.Start? { assert false; }
      BrokenStays(s, a);
    } else {
      match a {
        case Create(_, _, _) => CreateKeepsHealth(s, a);
        case Start(_, _, _, _) => StartKeepsHealth(s, a);
        case Append(_, _) => AppendKeepsHealth(s, a);
        case Work(w, ch) => if w in s.workers { WorkStep(s, w, ch); }
      }
    }
  }

  lemma EndedStays(s: Sys, w: Wid, ch: Choice)
    requires w in s.workers && s.workers[w].job in s.jobs && s.workers[w].pc.Done?
    ensures Put(s, w, LocalStep(ViewOf(s, w), s.source, ch)) == s
  {
    assert LocalStep(ViewOf(s, w), s.source, ch) == ViewOf(s, w);
  }

  lemma WorkStep(s: Sys, w: Wid, ch: Choice)
    requires Healthy(s) && !Broken(s) && LossBound.Inv(s) && w in s.workers
    ensures SeriesInv(Put(s, w, LocalStep(ViewOf(s, w), s.source, ch)))
  {
    var v' := LocalStep(ViewOf(s, w), s.source, ch);
    if !Active(s, w) { EndedStays(s, w, ch); }
    else if Failing(v'.worker.pc) { assert w in Put(s, w, v').workers && Failing(Put(s, w, v').workers[w].pc); }
    else { WorkKeepsHealth(s, w, ch); }
  }

  /** Between two runs of the series, the visits of every collection went forward to its published
      cursor: no item twice, and none left out that no iterator passed over. Where nothing was passed
      over, they are exactly the positions before the cursor, each once and in order. */
  lemma EachItemVisitedOnce(source: map<Col, seq<Item>>, acts: seq<Action>, c: Col)
    requires Series(source, acts) && LossBound.SourceOk(source) && Idle(Execute(Initial(source), acts))
    ensures var s := Execute(Initial(source), acts);
            && SeenUpTo(VisitsIn(s.visits, c), AllPassed(s), c, Position(s.source, s.cursors, c))
            && ((forall i: nat :: (c, i) !in AllPassed(s)) ==>
                VisitsIn(s.visits, c) == Range(Position(s.source, s.cursors, c)))
  {
    Always(source, acts);
    var s := Execute(Initial(source), acts);
    if forall i: nat :: (c, i) !in AllPassed(s) {
      SeenWithoutGap(VisitsIn(s.visits, c), AllPassed(s), c, Position(s.source, s.cursors, c));
    }
  }

  lemma SeenWithoutGap(visits: seq<nat>, gone: set<(Col, nat)>, c: Col, p: nat)
    requires SeenUpTo(visits, gone, c, p) && forall i: nat :: (c, i) !in gone
    ensures visits == Range(p)
  {
    forall k | 0 <= k < |visits| ensures visits[k] == k { GapFree(visits, gone, c, p, k); }
    if visits != [] { assert visits[|visits| - 1] < p; }
    if p > 0 {
      var last: nat := p - 1;
      assert (c, last) !in gone && last in visits;
      var j :| 0 <= j < |visits| && visits[j] == last;
    }
  }

  lemma {:induction false} GapFree(visits: seq<nat>, gone: set<(Col, nat)>, c: Col, p: nat, k: nat)
    requires SeenUpTo(visits, gone, c, p) && (forall i: nat :: (c, i) !in gone) && k < |visits|
    ensures visits[k] == k
  {
    if k > 0 {
      GapFree(visits, gone, c, p, k - 1);
      assert visits[k - 1] < visits[k];
    }
    assert k <= visits[k] < p;
    assert (c, k) !in gone && k in visits;
    var i :| 0 <= i < |visits| && visits[i] == k;
    if i < k { GapFree(visits, gone, c, p, i); }
  }

  /** No step of a series whose runs complete moves a cursor back. */
  lemma CursorsNeverMoveBack(source: map<Col, seq<Item>>, acts: seq<Action>, a: Action, c: Col)
    requires Series(source, acts + [a]) && LossBound.SourceOk(source)
    requires !Broken(Execute(Initial(source), acts + [a]))
    ensures var s, s' := Execute(Initial(source), acts), Execute(Initial(source), acts + [a]);
            Position(s.source, s.cursors, c) <= Position(s'.source, s'.cursors, c)
  {
    var s, s' := Execute(Initial(source), acts), Execute(Initial(source), acts + [a]);
    assert (acts + [a])[..|acts + [a]| - 1] == acts;
    assert s' == Apply(s, a);
    Always(source, acts);
    SeriesAppendOnly(source, acts);
    LossBound.Always(source, acts);
    AllKnown(s);
    if Broken(s) && !a.Start? { BrokenStays(s, a); }
    ActionMovesCursorsForward(s, a, c);
  }

  lemma ActionMovesCursorsForward(s: Sys, a: Action, c: Col)
    requires LossBound.SourceOk(s.source) && Known(s.source, s.cursors) && (a.Work? ==> Healthy(s))
    requires a.Create? || a.Start? || a.Work? || a.Append?
    ensures Position(s.source, s.cursors, c) <= Position(Apply(s, a).source, Apply(s, a).cursors, c)
  {
    match a {
      case Append(_, _) =>
        AppendOnlyGrows(s, a);
        PositionStable(s.source, Apply(s, a).source, Lookup(s.cursors, c), c);
      case Work(w, ch) =>
        if w in s.workers && s.workers[w].job in s.jobs && !s.workers[w].crashed {
          StepMovesCursorsForward(s.source, ViewOf(s, w), ch, AllPassed(s), c, Active(s, w));
        }
      case Create(_, _, _) => case Start(_, _, _, _) =>
    }
  }

  lemma StepMovesCursorsForward(source: map<Col, seq<Item>>, v: View, ch: Choice, gone: set<(Col, nat)>,
                                c: Col, active: bool)
    requires active == !v.worker.pc.Done? && (active ==> ActiveOk(source, v, gone))
    ensures Position(source, v.cursors, c) <= Position(source, LocalStep(v, source, ch).cursors, c)
  {
    if v.worker.pc.InItem? { LossBound.ItemStepGrows(v, ch); }
    else if InCollection(v.worker.pc) { CollectionStepIsLocal(v, source, ch); }
    else if v.worker.pc.Publish? { PublishVisits(v, source, ch, gone); }
  }

  // ---------------------------------------------------------------- nothing a completed run listed is left out

  ghost predicate ListingSeen(visits: map<Col, seq<nat>>, gone: set<(Col, nat)>, c: Col, hi: nat) {
    forall p: nat :: p < hi ==> p in VisitsIn(visits, c) || (c, p) in gone
  }

  ghost predicate ListingsVisited(w: Worker, visits: map<Col, seq<nat>>, gone: set<(Col, nat)>) {
    forall i :: 0 <= i < LossBound.Finished(w) ==>
      i < |w.spans| && ListingSeen(visits, gone, w.Collection(i), w.spans[i].hi)
  }

  lemma SeenGrows(visits: map<Col, seq<nat>>, gone: set<(Col, nat)>, visits': map<Col, seq<nat>>,
                  gone': set<(Col, nat)>, c: Col, hi: nat)
    requires ListingSeen(visits, gone, c, hi) && VisitsIn(visits, c) <= VisitsIn(visits', c) && gone <= gone'
    ensures ListingSeen(visits', gone', c, hi)
  {
  }

  lemma VisitsGrow(v: View, source: map<Col, seq<Item>>, ch: Choice, c: Col)
    ensures VisitsIn(v.visits, c) <= VisitsIn(LocalStep(v, source, ch).visits, c)
  {
    if v.worker.pc.InItem? {
      match v.worker.pc.stage {
        case Check => case CountSkip => case Upsert => case Record =>
        case CountNew => case CountDup => case Mark => case CountFailure =>
      }
    } else if InCollection(v.worker.pc) {
      match v.worker.pc {
        case Top(_) => case ReadCheckpoint(_) => case Seed(_) => case Open(_, _) => case Next(_, _, _) =>
      }
    } else {
      JobStepIsLocal(v, ch);
    }
  }

  lemma LocalListings(v: View, source: map<Col, seq<Item>>, ch: Choice, gone: set<(Col, nat)>)
    requires ListingsVisited(v.worker, v.visits, gone) && RunAccounting.Placed(v.worker)
    requires v.worker.pc.Next? ==> ListingSeen(v.visits, gone, v.worker.Collection(v.worker.pc.i), v.worker.pc.k)
    ensures ListingsVisited(LocalStep(v, source, ch).worker, LocalStep(v, source, ch).visits, gone)
  {
    var v' := LocalStep(v, source, ch);
    StepKeepsIdentity(v, source, ch);
    FinishedGrowsAtEnd(v, source, ch);
    forall i | 0 <= i < LossBound.Finished(v'.worker)
      ensures i < |v'.worker.spans| && ListingSeen(v'.visits, gone, v'.worker.Collection(i), v'.worker.spans[i].hi)
    {
      VisitsGrow(v, source, ch, v.worker.Collection(i));
      SeenGrows(v.visits, gone, v'.visits, gone, v.worker.Collection(i), v.worker.spans[i].hi);
    }
  }

  lemma OpenAddsUnfinished(v: View, source: map<Col, seq<Item>>, ch: Choice)
    requires RunAccounting.Placed(v.worker) && v.worker.pc.Open?
    ensures var w, w' := v.worker, CollectionStep(v, source, ch).worker;
            w.spans <= w'.spans && LossBound.Finished(w') <= LossBound.Finished(w)
  {
  }

  lemma FinishedGrowsAtEnd(v: View, source: map<Col, seq<Item>>, ch: Choice)
    requires RunAccounting.Placed(v.worker)
    ensures var w, w' := v.worker, LocalStep(v, source, ch).worker;
            && w.spans <= w'.spans
            && LossBound.Finished(w') <= LossBound.Finished(w) + (if w.pc.Next? && |w.pc.snap| <= w.pc.k then 1 else 0)
  {
    if v.worker.pc.InItem? {
      LossBound.ItemStepGrows(v, ch);
    } else if InCollection(v.worker.pc) {
      match v.worker.pc {
        case Next(_, _, _) => LossBound.NextFrame(v, source, ch);
        case Open(_, _) => OpenAddsUnfinished(v, source, ch);
        case _ => LossBound.ChooseFrame(v, source, ch);
      }
    } else {
      LossBound.JobStepFrame(v, ch);
    }
  }

  ghost predicate AllListingsVisited(s: Sys) {
    forall w :: w in s.workers ==> ListingsVisited(s.workers[w], s.visits, AllPassed(s))
  }

  lemma {:induction false} ListingsAlways(source: map<Col, seq<Item>>, acts: seq<Action>)
    requires Series(source, acts) && LossBound.SourceOk(source)
    ensures var s := Execute(Initial(source), acts); Broken(s) || AllListingsVisited(s)
  {
    if acts == [] {
    } else {
      var s, a := Execute(Initial(source), acts[..|acts| - 1]), acts[|acts| - 1];
      ListingsAlways(source, acts[..|acts| - 1]);
      Always(source, acts[..|acts| - 1]);
      RunAccounting.Always(source, acts[..|acts| - 1]);
      if Broken(s) {
        if a.Start? { assert false; }
        BrokenStays(s, a);
      } else {
        ListingsStep(s, a);
      }
    }
  }

  lemma ListingsStep(s: Sys, a: Action)
    requires !Broken(s) && Healthy(s) && RunAccounting.Inv(s) && AllListingsVisited(s)
    ensures AllListingsVisited(Apply(s, a))
  {
    if !a.Work? {
      OtherActionsAreSteady(s, a);
      SteadyListings(s, a, Apply(s, a));
    } else if a.w in s.workers {
      WorkListings(s, a.w, a.ch);
    }
  }

  lemma WorkListings(s: Sys, w: Wid, ch: Choice)
    requires Healthy(s) && RunAccounting.Inv(s) && AllListingsVisited(s) && w in s.workers
    ensures AllListingsVisited(Put(s, w, LocalStep(ViewOf(s, w), s.source, ch)))
  {
    var v := ViewOf(s, w);
    var v' := LocalStep(v, s.source, ch);
    if v.worker.pc.Next? {
      assert Active(s, w);
      assert VisitedUpTo(s.source, v, AllPassed(s), v.worker.Collection(v.worker.pc.i));
    }
    assert ListingsVisited(v.worker, v.visits, AllPassed(s));
    LocalListings(v, s.source, ch, AllPassed(s));
    forall c ensures VisitsIn(s.visits, c) <= VisitsIn(v'.visits, c) { VisitsGrow(v, s.source, ch, c); }
    StepOnlyPasses(v, s.source, ch);
    PassedGrows(s, w, v');
    PutListings(s, w, v');
  }

  lemma SteadyListings(s: Sys, a: Action, s': Sys)
    requires Steady(s, a, s') && AllListingsVisited(s)
    ensures AllListingsVisited(s')
  {
    forall j | j in s.jobs ensures s'.jobs[j].passed == s.jobs[j].passed {
      assert SameButStatus(s.jobs[j], s'.jobs[j]);
    }
    SamePassed(s, s');
    forall w | w in s'.workers ensures ListingsVisited(s'.workers[w], s'.visits, AllPassed(s')) {
      if w in s.workers { SameListings(s.workers[w], s'.workers[w], s.visits, AllPassed(s)); }
      else { FreshListings(s, a, w, s'.workers[w], s'.visits, AllPassed(s')); }
    }
  }

  lemma FreshListings(s: Sys, a: Action, w: Wid, r: Worker, visits: map<Col, seq<nat>>, gone: set<(Col, nat)>)
    requires IsNewWorker(s, a, w, r)
    ensures ListingsVisited(r, visits, gone)
  {
    assert LossBound.Finished(r) == 0;
  }

  lemma SameListings(a: Worker, b: Worker, visits: map<Col, seq<nat>>, gone: set<(Col, nat)>)
    requires SameButCrashed(a, b) && ListingsVisited(a, visits, gone)
    ensures ListingsVisited(b, visits, gone)
  {
    assert LossBound.Finished(b) == LossBound.Finished(a);
    forall i | 0 <= i < LossBound.Finished(b)
      ensures i < |b.spans| && ListingSeen(visits, gone, b.Collection(i), b.spans[i].hi)
    {
      assert ListingSeen(visits, gone, a.Collection(i), a.spans[i].hi) && b.Collection(i) == a.Collection(i);
    }
  }

  lemma MoreListingsVisited(w: Worker, visits: map<Col, seq<nat>>, gone: set<(Col, nat)>,
                            visits': map<Col, seq<nat>>, gone': set<(Col, nat)>)
    requires ListingsVisited(w, visits, gone) && gone <= gone'
             && forall c :: VisitsIn(visits, c) <= VisitsIn(visits', c)
    ensures ListingsVisited(w, visits', gone')
  {
    forall i | 0 <= i < LossBound.Finished(w)
      ensures i < |w.spans| && ListingSeen(visits', gone', w.Collection(i), w.spans[i].hi)
    {
      assert VisitsIn(visits, w.Collection(i)) <= VisitsIn(visits', w.Collection(i));
      SeenGrows(visits, gone, visits', gone', w.Collection(i), w.spans[i].hi);
    }
  }

  lemma PutListings(s: Sys, w: Wid, v': View)
    requires w in s.workers && AllListingsVisited(s) && ListingsVisited(v'.worker, v'.visits, AllPassed(s))
    requires AllPassed(s) <= AllPassed(Put(s, w, v')) && forall c :: VisitsIn(s.visits, c) <= VisitsIn(v'.visits, c)
    ensures AllListingsVisited(Put(s, w, v'))
  {
    var s' := Put(s, w, v');
    forall u | u in s'.workers ensures ListingsVisited(s'.workers[u], s'.visits, AllPassed(s')) {
      if u == w { MoreListingsVisited(v'.worker, v'.visits, AllPassed(s), v'.visits, AllPassed(s')); }
      else { MoreListingsVisited(s.workers[u], s.visits, AllPassed(s), s'.visits, AllPassed(s')); }
    }
  }

  /** Between two runs, whatever a completed run listed lies before the published cursor, except for
      positions that were passed over. */
  lemma CompletedListingsPublished(source: map<Col, seq<Item>>, acts: seq<Action>, w: Wid, i: nat)
    requires Series(source, acts) && LossBound.SourceOk(source)
    requires var s := Execute(Initial(source), acts); Idle(s) && w in s.workers && i < |s.workers[w].plan|
    ensures var s := Execute(Initial(source), acts);
            var c := s.workers[w].plan[i];
            i < |s.workers[w].spans| && forall p: nat :: p < s.workers[w].spans[i].hi ==>
              p < Position(s.source, s.cursors, c) || (c, p) in AllPassed(s)
  {
    var s := Execute(Initial(source), acts);
    ListingsAlways(source, acts);
    RunAccounting.Always(source, acts);
    EachItemVisitedOnce(source, acts, s.workers[w].plan[i]);
    assert !Broken(s);
    assert ListingsVisited(s.workers[w], s.visits, AllPassed(s));
  }
}
