/** The run as the program performs it: loops over collections and items, calling a mutable state
    store and a destination that may refuse a write. Every call takes one step of the protocol, so
    whatever holds of all its histories holds of what this method leaves in the store. */
module MigrationRunner {
  import opened Cursors
  import opened MigrationProtocol
  import LossBound
  import Progress
  import RunAccounting

  class StateStore {
    var rows: map<JobId, Row>
    var cursors: map<Col, Id>

    constructor ()
      ensures rows == map[] && cursors == map[]
    {
      rows, cursors := map[], map[];
    }

    method GetJob(j: JobId) returns (row: Option<Row>)
      ensures row == if j in rows then Some(rows[j]) else None
    {
      if j in rows { return Some(rows[j]); }
      return None;
    }

    method SetJobStatus(j: JobId, status: Status)
      requires j in rows
      modifies this`rows
      ensures rows == old(rows)[j := old(rows)[j].WithStatus(status)]
    {
      rows := rows[j := rows[j].WithStatus(status)];
    }

    method GetCheckpoint(j: JobId, c: Col) returns (id: Option<Id>)
      requires j in rows
      ensures id == Lookup(rows[j].checkpoints, c)
    {
      id := Lookup(rows[j].checkpoints, c);
    }

    method SetCheckpoint(j: JobId, c: Col, id: Id)
      requires j in rows
      modifies this`rows
      ensures rows == old(rows)[j := old(rows)[j].WithCheckpoint(c, id)]
    {
      rows := rows[j := rows[j].WithCheckpoint(c, id)];
    }

    method HasFingerprint(j: JobId, fp: Fp) returns (found: bool)
      requires j in rows
      ensures found == (fp in rows[j].ledger)
    {
      found := fp in rows[j].ledger;
    }

    /** INSERT OR IGNORE: true when the fingerprint was not there yet. */
    method RecordMessage(j: JobId, fp: Fp) returns (inserted: bool)
      requires j in rows
      modifies this`rows
      ensures inserted == (fp !in old(rows)[j].ledger)
      ensures rows == old(rows)[j := old(rows)[j].WithFingerprint(fp)]
    {
      inserted := fp !in rows[j].ledger;
      rows := rows[j := rows[j].WithFingerprint(fp)];
    }

    method IncrementCounters(j: JobId, migrated: nat, skipped: nat, failed: nat)
      requires j in rows
      modifies this`rows
      ensures rows == old(rows)[j := old(rows)[j].Counting(migrated, skipped, failed)]
    {
      rows := rows[j := rows[j].Counting(migrated, skipped, failed)];
    }

    method GetJobCheckpoints(j: JobId) returns (checkpoints: map<Col, Id>)
      requires j in rows
      ensures checkpoints == rows[j].checkpoints
    {
      checkpoints := rows[j].checkpoints;
    }

    method SetSyncCursor(c: Col, id: Id)
      modifies this`cursors
      ensures cursors == old(cursors)[c := id]
    {
      cursors := cursors[c := id];
    }
  }

  /** The destination mailbox or collection; a write may be refused. */
  class Destination {
    var writes: multiset<Fp>

    constructor ()
      ensures writes == multiset{}
    {
      writes := multiset{};
    }

    method UpsertItem(item: Item, refused: bool)
      modifies this
      ensures writes == if refused then old(writes) else old(writes) + multiset{item.fp}
    {
      if !refused { writes := writes + multiset{item.fp}; }
    }
  }

  datatype Report = Report(status: Status, migrated: nat, skipped: nat, failed: nat, errors: seq<string>)

  /** The status a run is about to set. */
  function StatusDue(pc: PC): Option<Status> {
    match pc
    case SetRunning => Some(Running)
    case SetCompleted => Some(Completed)
    case SetFailed(_) => Some(Failed)
    case SetCancelled(_) => Some(Cancelled)
    case _ => None
  }

  /** The iterator yields the item at its position. */
  predicate Yields(ch: Choice) { !ch.raises && !ch.passes }

  /** At most one message was added, and it names this item. */
  predicate NamesOnly(errors: seq<string>, messages: seq<string>, item: string) {
    messages == errors || messages == errors + [item]
  }

  /** The run is about to end with this status. */
  predicate Ending(pc: PC, status: Status) {
    (status == Completed && pc.SetCompleted?) || (status == Failed && pc.SetFailed?)
        || (status == Cancelled && pc.SetCancelled?)
  }

  lemma MarkLeads(v: View, source: map<Col, seq<Item>>, ch: Choice, c: Col, i: nat, k: nat, items: seq<Item>)
    requires k < |items| && v.worker.pc == InItem(i, k, items, items[k], Mark) && v.worker.Collection(i) == c
    ensures LocalStep(v, source, ch) == v.SetCheckpoint(c, items[k].id).To(Next(i, k + 1, items))
  {
  }

  lemma OwnCall(t: Sys, w: Wid, ch: Choice)
    requires w in t.workers && !t.workers[w].crashed && t.workers[w].job in t.jobs
    ensures var v' := LocalStep(ViewOf(t, w), t.source, ch);
            Apply(t, Work(w, ch)) == Put(t, w, v') && SameIdentity(ViewOf(t, w), v')
  {
    StepKeepsIdentity(ViewOf(t, w), t.source, ch);
  }

  lemma CourseMore(s: Sys, w: Wid, answers: nat -> Choice, n: nat, t: Sys)
    requires t == Course(s, w, answers, n)
    ensures Course(s, w, answers, n + 1) == Apply(t, Work(w, answers(n)))
  {
  }

  lemma EndMeans(t: Sys, w: Wid, j: JobId, stopped: bool, raised: bool)
    requires Progress.EndsBy(t, w, j, stopped, raised) && t.workers[w].pc.Done?
    ensures StatusOf(t.workers[w].pc.outcome) == Cancelled <==> stopped
    ensures t.workers[w].pc.outcome == RanFailed(false) <==> raised
  {
  }

  lemma MergeOne(cursors: map<Col, Id>, todo: map<Col, Id>, c: Col)
    requires c in todo
    ensures cursors[c := todo[c]] + (todo - {c}) == cursors + todo
  {
  }

  lemma RecordLeads(v: View, source: map<Col, seq<Item>>, ch: Choice, i: nat, k: nat, items: seq<Item>)
    requires k < |items| && v.worker.pc == InItem(i, k, items, items[k], Record)
    ensures var v' := LocalStep(v, source, ch);
            && v'.job.row == v.job.row.WithFingerprint(items[k].fp) && v'.job.upserts == v.job.upserts
            && v'.cursors == v.cursors && v'.worker.runFailures == v.worker.runFailures
            && v'.worker.pc == InItem(i, k, items, items[k], if items[k].fp in v.job.row.ledger then CountDup
                else CountNew)
  {
  }

  lemma PublishLeads(v: View, source: map<Col, seq<Item>>, ch: Choice, c: Col, todo: map<Col, Id>)
    requires v.worker.pc == Publish(todo) && c in todo && c == LeastKey(todo)
    ensures LocalStep(v, source, ch) ==
            v.(cursors := v.cursors[c := todo[c]]).To(Publish(todo - {c}))
  {
  }

  lemma FailureLeads(v: View, source: map<Col, seq<Item>>, ch: Choice, i: nat, k: nat, items: seq<Item>)
    requires k < |items| && v.worker.pc == InItem(i, k, items, items[k], CountFailure)
    ensures var v' := LocalStep(v, source, ch);
            && v'.job.row == v.job.row.Counting(0, 0, 1) && v'.job.upserts == v.job.upserts && v'.cursors == v.cursors
            && v'.worker.runFailures == v.worker.runFailures + 1
            && v'.worker.pc == if v.worker.runFailures + 1 >= Threshold(v.job.maxErrors) then SetFailed(true)
                else Next(i, k + 1, items)
  {
  }

  class Runner {
    const store: StateStore
    const destination: Destination
    const job: JobId
    const incremental: bool
    const maxErrors: int
    const source: map<Col, seq<Item>>
    const plan: seq<Col>
    const cursors: map<Col, Id>
    /** What the environment answers to this run's calls, one after the other. */
    const answers: nat -> Choice
    var calls: nat
    ghost const w: Wid
    ghost const start: Sys
    ghost var sys: Sys

    /** Only this worker's calls were made since `start`, and they led to `sys`. */
    ghost predicate Traced()
      reads this
    {
      && sys == Course(start, w, answers, calls)
      && w in sys.workers && !sys.workers[w].crashed && sys.workers[w].job == job && job in sys.jobs
      && sys.workers[w].plan == plan && sys.workers[w].cursors == cursors && sys.source == source
      && sys.jobs[job].incremental == incremental && sys.jobs[job].maxErrors == maxErrors
    }

    ghost predicate RowsMatch()
      reads this, store
    {
      store.rows.Keys == sys.jobs.Keys && forall j :: j in sys.jobs ==> store.rows[j] == sys.jobs[j].row
    }

    /** The store and the destination are exactly what the protocol says they are. */
    ghost predicate Linked()
      reads this, store, destination
    {
      Traced() && RowsMatch() && sys.cursors == store.cursors && destination.writes == sys.jobs[job].upserts
    }

    ghost function Pc(): PC
      reads this
      requires w in sys.workers
    { sys.workers[w].pc }

    constructor (store: StateStore, destination: Destination, job: JobId, source: map<Col, seq<Item>>,
                 incremental: bool, maxErrors: int, plan: seq<Col>, cursors: map<Col, Id>,
                 answers: nat -> Choice, ghost w: Wid, ghost s: Sys)
      requires w in s.workers && s.workers[w] == NewWorker(job, cursors, plan) && job in s.jobs && s.source == source
      requires s.jobs[job].incremental == incremental && s.jobs[job].maxErrors == maxErrors
      requires s.cursors == store.cursors && destination.writes == s.jobs[job].upserts
      requires store.rows.Keys == s.jobs.Keys && (forall j :: j in s.jobs ==> store.rows[j] == s.jobs[j].row)
      ensures Linked() && calls == 0 && sys == s == start && sys.workers[w] == NewWorker(job, this.cursors, plan)
      ensures this.store == store && this.destination == destination && this.job == job && this.w == w
      ensures this.maxErrors == maxErrors && this.plan == plan && this.incremental == incremental
      ensures this.answers == answers
    {
      this.store, this.destination, this.job, this.source := store, destination, job, source;
      this.incremental, this.maxErrors, this.plan, this.cursors := incremental, maxErrors, plan, cursors;
      this.answers, this.calls, this.w, this.start, this.sys := answers, 0, w, s, s;
    }

    /** One call of the protocol, which takes the next answer. */
    method Step()
      requires Traced()
      modifies this`sys, this`calls
      ensures Traced() && calls == old(calls) + 1
      ensures sys == Put(old(sys), w, LocalStep(ViewOf(old(sys), w), old(sys).source, answers(old(calls))))
    {
      CourseMore(start, w, answers, calls, sys);
      OwnCall(sys, w, answers(calls));
      sys := Put(sys, w, LocalStep(ViewOf(sys, w), sys.source, answers(calls)));
      calls := calls + 1;
    }

    // -------------------------------------------------------------- one item

    method CountSkipped(i: nat, k: nat, items: seq<Item>)
      requires Linked() && k < |items|
      requires Pc() == InItem(i, k, items, items[k], CountSkip) || Pc() == InItem(i, k, items, items[k], CountDup)
      modifies this`sys, this`calls, store`rows
      ensures Linked() && sys.workers[w].runFailures == old(sys.workers[w].runFailures)
      ensures Pc() == InItem(i, k, items, items[k], Mark)
    {
      store.IncrementCounters(job, 0, 1, 0);
      Step();
    }

    method CountMigrated(i: nat, k: nat, items: seq<Item>)
      requires Linked() && k < |items| && Pc() == InItem(i, k, items, items[k], CountNew)
      modifies this`sys, this`calls, store`rows
      ensures Linked() && sys.workers[w].runFailures == old(sys.workers[w].runFailures)
      ensures Pc() == InItem(i, k, items, items[k], Mark)
    {
      store.IncrementCounters(job, 1, 0, 0);
      Step();
    }

    method MarkItem(c: Col, i: nat, k: nat, items: seq<Item>)
      requires Linked() && i < |plan| && plan[i] == c && k < |items| && Pc() == InItem(i, k, items, items[k], Mark)
      modifies this`sys, this`calls, store`rows
      ensures Linked() && sys.workers[w].runFailures == old(sys.workers[w].runFailures)
      ensures Pc() == Next(i, k + 1, items)
    {
      MarkLeads(ViewOf(sys, w), source, answers(calls), c, i, k, items);
      store.SetCheckpoint(job, c, items[k].id);
      Step();
    }

    /** One write to the destination, which may refuse it. */
    method Write(i: nat, k: nat, items: seq<Item>) returns (raised: bool)
      requires Linked() && k < |items| && Pc() == InItem(i, k, items, items[k], Upsert)
      modifies this`sys, this`calls, destination
      ensures Linked() && sys.workers[w].runFailures == old(sys.workers[w].runFailures)
      ensures raised == answers(old(calls)).raises
      ensures Pc() == InItem(i, k, items, items[k], if raised then CountFailure else MigrationProtocol.Record)
    {
      raised := answers(calls).raises;
      destination.UpsertItem(items[k], raised);
      Step();
    }

    method Record(i: nat, k: nat, items: seq<Item>) returns (inserted: bool)
      requires Linked() && k < |items| && Pc() == InItem(i, k, items, items[k], MigrationProtocol.Record)
      modifies this`sys, this`calls, store`rows
      ensures Linked() && sys.workers[w].runFailures == old(sys.workers[w].runFailures)
      ensures Pc() == InItem(i, k, items, items[k], if inserted then CountNew else CountDup)
    {
      RecordLeads(ViewOf(sys, w), source, answers(calls), i, k, items);
      inserted := store.RecordMessage(job, items[k].fp);
      Step();
    }

    /** Count the failure; the run stops once it has failed `threshold` times. */
    method FailItem(i: nat, k: nat, items: seq<Item>, runFailures: nat) returns (stop: bool)
      requires Linked() && k < |items| && Pc() == InItem(i, k, items, items[k], CountFailure)
      requires sys.workers[w].runFailures == runFailures
      modifies this`sys, this`calls, store`rows
      ensures Linked() && sys.workers[w].runFailures == runFailures + 1
      ensures stop == (runFailures + 1 >= Threshold(maxErrors))
      ensures Pc() == if stop then SetFailed(true) else Next(i, k + 1, items)
    {
      stop := runFailures + 1 >= Threshold(maxErrors);
      FailureLeads(ViewOf(sys, w), source, answers(calls), i, k, items);
      store.IncrementCounters(job, 0, 0, 1);
      Step();
    }

    /** Pull the next item and look its fingerprint up. */
    method PullAndLookUp(i: nat, k: nat, items: seq<Item>) returns (found: bool)
      requires Linked() && k < |items| && Pc() == Next(i, k, items) && Yields(answers(calls))
      modifies this`sys, this`calls
      ensures Linked() && sys.workers[w].runFailures == old(sys.workers[w].runFailures)
      ensures Pc() == InItem(i, k, items, items[k], if found then CountSkip else Upsert)
    {
      Step();
      found := store.HasFingerprint(job, items[k].fp);
      Step();
    }

    /** One turn of the item loop. */
    method HandleItem(c: Col, i: nat, k: nat, items: seq<Item>, errors: seq<string>)
      returns (stop: bool, messages: seq<string>)
      requires Linked() && i < |plan| && plan[i] == c && k < |items| && Pc() == Next(i, k, items)
      requires sys.workers[w].runFailures == |errors| && Yields(answers(calls))
      modifies this`sys, this`calls, store`rows, destination
      ensures Linked() && sys.workers[w].runFailures == |messages|
      ensures errors <= messages && NamesOnly(errors, messages, c + ":" + items[k].id)
      ensures Pc() == if stop then SetFailed(true) else Next(i, k + 1, items)
    {
      stop, messages := false, errors;
      var found := PullAndLookUp(i, k, items);
      if found {
        CountSkipped(i, k, items);
        MarkItem(c, i, k, items);
        return;
      }
      var raised := Write(i, k, items);
      if raised {
        stop := FailItem(i, k, items, |errors|);
        messages := errors + [c + ":" + items[k].id];
        return;
      }
      var inserted := Record(i, k, items);
      if inserted { CountMigrated(i, k, items); } else { CountSkipped(i, k, items); }
      MarkItem(c, i, k, items);
    }

    // -------------------------------------------------------------- one collection

    /** The cursor to resume from: the job's checkpoint, or else the incremental cursor, which then
        becomes the checkpoint. */
    method ResumeCursor(c: Col, i: nat) returns (checkpoint: Option<Id>)
      requires Linked() && i < |plan| && plan[i] == c && Pc() == ReadCheckpoint(i)
      modifies this`sys, this`calls, store`rows
      ensures Linked() && Pc() == Open(i, checkpoint) && sys.workers[w].runFailures == old(sys.workers[w].runFailures)
      ensures var own := Lookup(old(store.rows[job].checkpoints), c);
              && checkpoint == (if own.Some? then own else Lookup(cursors, c))
              && store.rows == if own.None? && checkpoint.Some?
                               then old(store.rows)[job := old(store.rows)[job].WithCheckpoint(c, checkpoint.value)]
                               else old(store.rows)
    {
      checkpoint := store.GetCheckpoint(job, c);
      Step();
      if checkpoint.None? && c in cursors {
        checkpoint := Some(cursors[c]);
        SeedCheckpoint(c, i);
      }
    }

    method SeedCheckpoint(c: Col, i: nat)
      requires Linked() && i < |plan| && plan[i] == c && Pc() == Seed(i) && c in cursors
      modifies this`sys, this`calls, store`rows
      ensures Linked() && Pc() == Open(i, Some(cursors[c]))
              && sys.workers[w].runFailures == old(sys.workers[w].runFailures)
      ensures store.rows == old(store.rows)[job := old(store.rows)[job].WithCheckpoint(c, cursors[c])]
    {
      store.SetCheckpoint(job, c, cursors[c]);
      Step();
    }

    /** Ensure the destination collection and open the iterator; either may raise. */
    method OpenIterator(c: Col, i: nat, resume: Option<Id>) returns (raised: bool, k: nat, items: seq<Item>)
      requires Linked() && i < |plan| && plan[i] == c && Pc() == Open(i, resume)
      modifies this`sys, this`calls
      ensures Linked() && sys.workers[w].runFailures == old(sys.workers[w].runFailures)
      ensures Pc() == if raised then SetFailed(false) else Next(i, k, items)
      ensures k <= |items| && raised == answers(old(calls)).raises
    {
      var ch := answers(calls);
      Step();
      raised := ch.raises;
      items := ItemsIn(source, c);
      k := StartOf(items, resume, ch);
    }

    /** The iterator goes past a position of its listing without yielding it. */
    method PassOver(i: nat, k: nat, items: seq<Item>)
      requires Linked() && k < |items| && Pc() == Next(i, k, items) && !answers(calls).raises && answers(calls).passes
      modifies this`sys, this`calls
      ensures Linked() && sys.workers[w].runFailures == old(sys.workers[w].runFailures)
      ensures Pc() == Next(i, k + 1, items)
    {
      Step();
    }

    /** Ask the iterator, which stands at position k, for another item. It may pass over positions whose
        message it cannot fetch, raise, or have nothing left; `at` is where it stands then. */
    method Advance(i: nat, k: nat, items: seq<Item>) returns (raised: bool, ended: bool, at: nat)
      requires Linked() && k <= |items| && Pc() == Next(i, k, items)
      modifies this`sys, this`calls
      ensures Linked() && sys.workers[w].runFailures == old(sys.workers[w].runFailures)
      ensures k <= at <= |items| && (!raised ==> ended == (at == |items|))
      ensures Pc() == if raised then SetFailed(false) else if ended then Top(i + 1) else Next(i, at, items)
      ensures !raised && !ended ==> Yields(answers(calls))
    {
      at := SkipUnfetched(i, k, items);
      raised, ended := answers(calls).raises, at == |items|;
      if raised || ended { LeaveIterator(i, at, items); }
    }

    method LeaveIterator(i: nat, k: nat, items: seq<Item>)
      requires Linked() && Pc() == Next(i, k, items) && (answers(calls).raises || k == |items|)
      modifies this`sys, this`calls
      ensures Linked() && sys.workers[w].runFailures == old(sys.workers[w].runFailures)
      ensures Pc() == if answers(old(calls)).raises then SetFailed(false) else Top(i + 1)
    {
      Step();
    }

    method SkipUnfetched(i: nat, k: nat, items: seq<Item>) returns (at: nat)
      requires Linked() && k <= |items| && Pc() == Next(i, k, items)
      modifies this`sys, this`calls
      ensures Linked() && sys.workers[w].runFailures == old(sys.workers[w].runFailures)
      ensures k <= at <= |items| && Pc() == Next(i, at, items)
      ensures at == |items| || answers(calls).raises || !answers(calls).passes
    {
      at := k;
      while at < |items| && !answers(calls).raises && answers(calls).passes
        invariant Linked() && sys.workers[w].runFailures == old(sys.workers[w].runFailures)
        invariant k <= at <= |items| && Pc() == Next(i, at, items)
      {
        PassOver(i, at, items);
        at := at + 1;
      }
    }

    /** The body of the collection loop; `failed` leaves the outer try, `byThreshold` says why. */
    method IterateCollection(c: Col, i: nat, errors: seq<string>)
      returns (failed: bool, byThreshold: bool, messages: seq<string>)
      requires Linked() && i < |plan| && plan[i] == c && Pc() == ReadCheckpoint(i)
      requires sys.workers[w].runFailures == |errors|
      modifies this`sys, this`calls, store`rows, destination
      ensures Linked() && sys.workers[w].runFailures == |messages| && errors <= messages
      ensures Pc() == if failed then SetFailed(byThreshold) else Top(i + 1)
    {
      failed, byThreshold, messages := false, false, errors;
      var checkpoint := ResumeCursor(c, i);
      var raised, k, items := OpenIterator(c, i, checkpoint);
      if raised { failed := true; return; }
      failed, byThreshold, messages := IterateItems(c, i, k, items, messages);
    }

    /** The item loop, from position `first` of the listing on. */
    method IterateItems(c: Col, i: nat, first: nat, items: seq<Item>, errors: seq<string>)
      returns (failed: bool, byThreshold: bool, messages: seq<string>)
      requires Linked() && i < |plan| && plan[i] == c && Pc() == Next(i, first, items) && first <= |items|
      requires sys.workers[w].runFailures == |errors|
      modifies this`sys, this`calls, store`rows, destination
      ensures Linked() && sys.workers[w].runFailures == |messages| && errors <= messages
      ensures Pc() == if failed then SetFailed(byThreshold) else Top(i + 1)
    {
      failed, byThreshold, messages := false, false, errors;
      var k := first;
      while true
        invariant Linked() && Pc() == Next(i, k, items) && k <= |items|
        invariant sys.workers[w].runFailures == |messages| && errors <= messages
        decreases |items| - k
      {
        var over;
        over, failed, byThreshold, messages, k := ItemTurn(c, i, k, items, messages);
        if over { return; }
      }
    }

    /** One turn of the item loop with the pull before it; `over` leaves the loop. */
    method ItemTurn(c: Col, i: nat, k: nat, items: seq<Item>, errors: seq<string>)
      returns (over: bool, failed: bool, byThreshold: bool, messages: seq<string>, next: nat)
      requires Linked() && i < |plan| && plan[i] == c && Pc() == Next(i, k, items) && k <= |items|
      requires sys.workers[w].runFailures == |errors|
      modifies this`sys, this`calls, store`rows, destination
      ensures Linked() && sys.workers[w].runFailures == |messages| && errors <= messages
      ensures !over ==> k < next <= |items| && !failed && Pc() == Next(i, next, items)
      ensures over ==> Pc() == if failed then SetFailed(byThreshold) else Top(i + 1)
    {
      over, failed, byThreshold, messages, next := true, false, false, errors, k;
      var raised, ended, at := Advance(i, k, items);
      if raised { failed := true; return; }
      if ended { return; }
      var stop;
      stop, messages := HandleItem(c, i, at, items, messages);
      over, failed, byThreshold, next := stop, stop, stop, at + 1;
    }

    // -------------------------------------------------------------- the job

    /** update_sync_cursors_from_job: copy every checkpoint of the job to the shared cursors. */
    method PublishCursors()
      requires Linked() && Pc() == ReadCheckpoints
      modifies this`sys, this`calls, store`cursors
      ensures Linked() && Pc() == Done(RanCompleted) && sys.workers[w].runFailures == old(sys.workers[w].runFailures)
      ensures store.cursors == old(store.cursors) + store.rows[job].checkpoints
    {
      var checkpoints := ReadOwnCheckpoints();
      PublishAll(checkpoints);
      EndPublishing();
    }

    method PublishAll(checkpoints: map<Col, Id>)
      requires Linked() && Pc() == Publish(checkpoints)
      modifies this`sys, this`calls, store`cursors
      ensures Linked() && Pc() == Publish(map[]) && sys.workers[w].runFailures == old(sys.workers[w].runFailures)
      ensures store.cursors == old(store.cursors) + checkpoints
    {
      var todo := checkpoints;
      while todo != map[]
        invariant Linked() && Pc() == Publish(todo) && sys.workers[w].runFailures == old(sys.workers[w].runFailures)
        invariant store.cursors + todo == old(store.cursors) + checkpoints
        decreases todo.Keys
      {
        var c := LeastKey(todo);
        PublishOne(c, todo);
        todo := todo - {c};
      }
    }

    method ReadOwnCheckpoints() returns (todo: map<Col, Id>)
      requires Linked() && Pc() == ReadCheckpoints
      modifies this`sys, this`calls
      ensures Linked() && Pc() == Publish(todo) && sys.workers[w].runFailures == old(sys.workers[w].runFailures)
      ensures todo == store.rows[job].checkpoints
    {
      todo := store.GetJobCheckpoints(job);
      Step();
    }

    method EndPublishing()
      requires Linked() && Pc() == Publish(map[])
      modifies this`sys, this`calls
      ensures Linked() && Pc() == Done(RanCompleted) && sys.workers[w].runFailures == old(sys.workers[w].runFailures)
    {
      Step();
    }

    method PublishOne(c: Col, todo: map<Col, Id>)
      requires Linked() && Pc() == Publish(todo) && c in todo && c == LeastKey(todo)
      modifies this`sys, this`calls, store`cursors
      ensures Linked() && Pc() == Publish(todo - {c}) && sys.workers[w].runFailures == old(sys.workers[w].runFailures)
      ensures store.cursors + (todo - {c}) == old(store.cursors) + todo
    {
      PublishLeads(ViewOf(sys, w), source, answers(calls), c, todo);
      MergeOne(store.cursors, todo, c);
      store.SetSyncCursor(c, todo[c]);
      Step();
    }

    method SetStatus(status: Status)
      requires Linked() && StatusDue(Pc()) == Some(status)
      modifies this`sys, this`calls, store`rows
      ensures Linked() && sys.workers[w].runFailures == old(sys.workers[w].runFailures)
      ensures store.rows[job].status == status
      ensures Pc() == match old(Pc())
                      case SetRunning => Validate
                      case SetCompleted => if incremental then ReadCheckpoints else Done(RanCompleted)
                      case SetFailed(byThreshold) => Done(RanFailed(byThreshold))
                      case _ => Done(RanCancelled)
    {
      store.SetJobStatus(job, status);
      Step();
    }

    method ValidateEnds() returns (invalid: bool)
      requires Linked() && Pc() == Validate
      modifies this`sys, this`calls
      ensures Linked() && sys.workers[w].runFailures == old(sys.workers[w].runFailures)
      ensures Pc() == if invalid then SetFailed(false) else Top(0)
      ensures invalid == answers(old(calls)).raises
    {
      invalid := answers(calls).raises;
      Step();
    }

    /** The stop event is looked at between collections only. */
    method StopRequested(i: nat) returns (stop: bool)
      requires Linked() && i < |plan| && Pc() == Top(i)
      modifies this`sys, this`calls
      ensures Linked() && sys.workers[w].runFailures == old(sys.workers[w].runFailures)
      ensures Pc() == if stop then SetCancelled(i) else ReadCheckpoint(i)
      ensures stop == answers(old(calls)).stop
    {
      stop := answers(calls).stop;
      Step();
    }

    method PlanDone()
      requires Linked() && Pc() == Top(|plan|)
      modifies this`sys, this`calls
      ensures Linked() && sys.workers[w].runFailures == old(sys.workers[w].runFailures) && Pc() == SetCompleted
    {
      Step();
    }

    /** One turn of the collection loop. */
    method CollectionTurn(i: nat, before: seq<string>) returns (goesOn: bool, status: Status, errors: seq<string>)
      requires Linked() && i < |plan| && Pc() == Top(i) && sys.workers[w].runFailures == |before|
      modifies this`sys, this`calls, store`rows, destination
      ensures Linked() && sys.workers[w].runFailures == |errors| && before <= errors
      ensures if goesOn then Pc() == Top(i + 1) else Ending(Pc(), status)
    {
      goesOn, errors, status := false, before, Cancelled;
      var stop := StopRequested(i);
      if stop { return; }
      var failed, byThreshold;
      failed, byThreshold, errors := IterateCollection(plan[i], i, errors);
      if failed { status := Failed; } else { goesOn := true; }
    }

    /** The collection loop: until a collection fails, a stop is requested or the plan is done. */
    method IteratePlan() returns (status: Status, errors: seq<string>)
      requires Linked() && Pc() == Top(0) && sys.workers[w].runFailures == 0
      modifies this`sys, this`calls, store`rows, destination
      ensures Linked() && sys.workers[w].runFailures == |errors| && Ending(Pc(), status)
    {
      errors := [];
      var i := 0;
      while i < |plan|
        invariant Linked() && i <= |plan| && Pc() == Top(i) && sys.workers[w].runFailures == |errors|
      {
        var goesOn;
        goesOn, status, errors := CollectionTurn(i, errors);
        if !goesOn { return; }
        i := i + 1;
      }
      PlanDone();
      status := Completed;
    }

    method LoadJob() returns (completed: bool)
      requires Linked() && Pc() == Load
      modifies this`sys, this`calls
      ensures Linked() && sys.workers[w].runFailures == old(sys.workers[w].runFailures)
      ensures completed == (store.rows[job].status == Completed)
      ensures Pc() == if completed then Done(AlreadyCompleted) else SetRunning
    {
      var existing := store.GetJob(job);
      completed := existing.value.status == Completed;
      Step();
    }

    /** Everything between the running status and the final one. */
    method RunPlan() returns (status: Status, errors: seq<string>)
      requires Linked() && Pc() == SetRunning && sys.workers[w].runFailures == 0
      modifies this`sys, this`calls, store`rows, destination
      ensures Linked() && sys.workers[w].runFailures == |errors| && Ending(Pc(), status)
    {
      SetStatus(Running);
      var invalid := ValidateEnds();
      if invalid { return Failed, []; }
      status, errors := IteratePlan();
    }

    method Finish(status: Status)
      requires Linked() && Ending(Pc(), status)
      modifies this`sys, this`calls, store
      ensures Linked() && Pc().Done? && sys.workers[w].runFailures == old(sys.workers[w].runFailures)
      ensures store.rows[job].status == status && StatusOf(Pc().outcome) == status
      ensures store.cursors == Published(old(store.cursors), store.rows[job], Pc().outcome)
    {
      SetStatus(status);
      if status == Completed && incremental { PublishCursors(); }
    }

    /** Only a completed incremental run moves cursors: to its job's checkpoints. */
    function Published(cursors: map<Col, Id>, row: Row, outcome: Outcome): map<Col, Id> {
      if incremental && outcome == RanCompleted then cursors + row.checkpoints else cursors
    }

    method RunToEnd() returns (errors: seq<string>)
      requires Linked() && Pc() == SetRunning && sys.workers[w].runFailures == 0
      modifies this`sys, this`calls, store, destination
      ensures Linked() && Pc().Done? && store.rows[job].status == StatusOf(Pc().outcome)
      ensures store.cursors == Published(old(store.cursors), store.rows[job], Pc().outcome)
      ensures |errors| == if Pc().outcome.RanFailed?
              && sys.workers[w].runFailures == 0 then 1 else sys.workers[w].runFailures
    {
      var status;
      status, errors := RunPlan();
      Finish(status);
      if status == Failed && errors == [] { errors := ["The run could not go on."]; }
    }

    /** `run` on an existing job. A completed job is left alone. Otherwise the job ends COMPLETED,
        FAILED or CANCELLED: CANCELLED exactly when a stop was requested before one of the collections,
        and FAILED below the threshold exactly when a call outside the items raised. An incremental job
        that completed has published its cursors. */
    method Run() returns (report: Report)
      requires Linked() && calls == 0 && sys == start
      requires sys.workers[w] == NewWorker(job, cursors, plan) && RunAccounting.Inv(start)
      modifies this`sys, this`calls, store, destination
      ensures Linked() && Pc().Done? && RunAccounting.Inv(sys)
      ensures var row := store.rows[job];
              report == Report(row.status, row.migrated, row.skipped, row.failed, report.errors)
      ensures report.status == StatusOf(Pc().outcome)
      ensures report.status == Cancelled <==> Progress.StopMet(start, w, answers, calls)
      ensures Pc().outcome == RanFailed(false) <==> Progress.RaiseMet(start, w, answers, calls)
      ensures store.cursors == Published(old(store.cursors), store.rows[job], Pc().outcome)
      ensures old(store.rows[job].status) == Completed ==>
                store.rows == old(store.rows) && destination.writes == old(destination.writes)
      ensures Accounts(start.jobs[job].row, store.rows[job], sys.workers[w], |report.errors|)
    {
      var completed := LoadJob();
      var errors: seq<string> := [];
      if !completed { errors := RunToEnd(); }
      AccountsHold(|errors|);
      EndsAsMet();
      var row := store.GetJob(job);
      report := Report(row.value.status, row.value.migrated, row.value.skipped, row.value.failed, errors);
    }

    lemma AccountsHold(errors: nat)
      requires Linked() && Pc().Done? && RunAccounting.Inv(start)
      requires w in start.workers && start.workers[w] == NewWorker(job, cursors, plan) && job in start.jobs
      requires Pc().outcome.RanFailed? ==> store.rows[job].status == Failed
      requires errors == if Pc().outcome.RanFailed?
               && sys.workers[w].runFailures == 0 then 1 else sys.workers[w].runFailures
      ensures RunAccounting.Inv(sys) && Accounts(start.jobs[job].row, store.rows[job], sys.workers[w], errors)
    {
      CourseIsExecution(start, w, answers, calls);
      RunAccounting.KeptFrom(start, Answered(w, answers, calls));
      RunAccounting.AloneCountsTogether(start, Answered(w, answers, calls), w);
    }

    lemma EndsAsMet()
      requires Linked() && Pc().Done? && job in start.jobs
      requires w in start.workers && start.workers[w] == NewWorker(job, cursors, plan)
      ensures StatusOf(Pc().outcome) == Cancelled <==> Progress.StopMet(start, w, answers, calls)
      ensures Pc().outcome == RanFailed(false) <==> Progress.RaiseMet(start, w, answers, calls)
    {
      Progress.EndsExactly(start, w, answers, calls);
      EndMeans(sys, w, job, Progress.StopMet(start, w, answers, calls), Progress.RaiseMet(start, w, answers, calls));
    }

    /** What the counters gained is what this run pulled, item for item. */
    ghost predicate Accounts(before: Row, after: Row, r: Worker, errors: nat) {
      && r.pc.Done? && r.pulled == (after.migrated - before.migrated) + (after.skipped - before.skipped)
          + (after.failed - before.failed)
      && errors == (if r.pc.outcome.RanFailed?
          && after.failed == before.failed then 1 else after.failed - before.failed)
      && (after.status == Completed ==> after.failed - before.failed < (if maxErrors < 1 then 1 else maxErrors))
      && (r.pc.outcome == RanFailed(true) ==> after.failed - before.failed == (if maxErrors < 1 then 1 else maxErrors))
    }
  }

  /** What this run adds to a history is a history again, so every theorem about histories speaks about
      the rows it leaves in the store: here, the loss bound. */
  lemma RunKeepsLossBound(r: Runner, before: seq<Action>, initial: map<Col, seq<Item>>)
    requires r.Linked() && r.start == Execute(Initial(initial), before) && !r.incremental
    requires LossBound.SourceOk(initial) && LossBound.AppendOnly(before)
    ensures var row := r.store.rows[r.job];
            var acts := before + Answered(r.w, r.answers, r.calls);
            && LossBound.AppendOnly(acts) && r.sys == Execute(Initial(initial), acts)
            && row == r.sys.jobs[r.job].row
            && |LossBound.Lost(r.sys, r.job)| <= row.failed + |r.sys.jobs[r.job].passed|
            && (r.maxErrors <= 1 ==> LossBound.Lost(r.sys, r.job) <= r.sys.jobs[r.job].passed)
  {
    var acts := Answered(r.w, r.answers, r.calls);
    CourseIsExecution(r.start, r.w, r.answers, r.calls);
    ExecuteMore(Initial(initial), before, acts);
    LossBound.LostAtMostFailed(initial, before + acts, r.job);
  }
}
