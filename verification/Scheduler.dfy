/** One tick of the scheduler: list what is due, fire each schedule once, move it past the present. */
module Scheduler {
  import opened Cursors
  import opened Calendar
  import opened Intervals
  import opened IsoTime
  import opened Text
  import Cron

  datatype Spec = Interval(n: int, unit: Unit) | CronSpec(e: Cron.Expr)

  /** A row of scheduled_jobs. */
  datatype Schedule = Schedule(active: bool, nextRun: string, spec: Spec)

  type Id = string

  predicate IsDue(row: Schedule, before: string) { row.active && LexLe(row.nextRun, before) }

  predicate WellFormedSpec(s: Spec) { s.CronSpec? ==> Cron.WellFormed(s.e) }

  predicate MovesForward(s: Spec) { s.Interval? ==> s.n > 0 }

  /** `next` is the time the spec allows for a schedule fired at `now`: so many days, hours, minutes or
      seconds of the calendar on, or the first later minute that matches. */
  ghost predicate IsNextRun(s: Spec, now: Stamp, next: Stamp)
    requires ValidStamp(now) && WellFormedSpec(s)
  {
    match s
    case Interval(n, u) => Steps(now, n, u) == Some(next)
    case CronSpec(e) =>
      && Valid(next.at) && next.second == next.micro == 0 && Less(now.at, next.at) && Cron.Match(e, next.at)
      && forall t :: Valid(t) && Less(now.at, t) && Less(t, next.at) ==> !Cron.Match(e, t)
  }

  /** No minute after `now` matches the cron expression, or the interval leaves the calendar. */
  ghost predicate NoNextRun(s: Spec, now: Stamp)
    requires ValidStamp(now) && WellFormedSpec(s)
  {
    match s
    case Interval(n, u) => Steps(now, n, u).None?
    case CronSpec(e) => forall t :: Valid(t) && Less(now.at, t) ==> !Cron.Match(e, t)
  }

  lemma NeverMatches(e: Cron.Expr)
    requires Cron.WellFormed(e) && !Cron.Satisfiable(e)
    ensures forall t :: Valid(t) ==> !Cron.Match(e, t)
  {
    forall t | Valid(t) ensures !Cron.Match(e, t) {
      if Cron.Match(e, t) { Cron.MatchMakesSatisfiable(e, t); }
    }
  }

  /** What is computed for a cron schedule or a positive interval lies strictly after `now`. */
  lemma NextRunIsLater(s: Spec, now: Stamp, next: Stamp)
    requires ValidStamp(now) && WellFormedSpec(s) && IsNextRun(s, now, next)
    ensures ValidStamp(next)
    ensures AbsMicro(now) < AbsMicro(next) <==> MovesForward(s)
  {
    match s {
      case Interval(n, u) => StepsLength(now, n, u); OneUnitLess(n, u);
      case CronSpec(e) => LessIsEarlier(now.at, next.at);
    }
  }

  /** A schedule fired no earlier than `now` and moved on is not due at `now`. */
  lemma NotDueAgain(s: Spec, fired: Stamp, next: Stamp, now: Stamp)
    requires ValidStamp(fired) && ValidStamp(now) && WellFormedSpec(s) && IsNextRun(s, fired, next)
    requires AbsMicro(now) <= AbsMicro(fired)
    ensures ValidStamp(next) && (MovesForward(s) ==> !LexLe(Iso(next), Iso(now)))
  {
    NextRunIsLater(s, fired, next);
    StringOrderIsTimeOrder(next, now);
  }

  class Clock {
    var last: Stamp

    predicate Ticking()
      reads this
    { ValidStamp(last) }

    constructor (now: Stamp)
      requires ValidStamp(now)
      ensures Ticking() && last == now
    {
      last := now;
    }

    /** datetime.now(timezone.utc): never earlier than before. */
    method Now() returns (now: Stamp)
      requires Ticking()
      modifies this
      ensures Ticking() && now == last && AbsMicro(old(last)) <= AbsMicro(now)
    {
      var reading: Stamp := *;
      if ValidStamp(reading) && AbsMicro(last) <= AbsMicro(reading) { last := reading; }
      now := last;
    }
  }

  /** _next_run_after_now: raises when the expression has no next time or the calendar ends. */
  method NextRunAfter(s: Spec, now: Stamp) returns (next: Option<Stamp>)
    requires ValidStamp(now) && WellFormedSpec(s)
    ensures next.Some? ==> IsNextRun(s, now, next.value)
    ensures next.None? <==> NoNextRun(s, now)
  {
    match s {
      case Interval(n, u) =>
        next := PlusSeconds(now, IntervalSeconds(n, u));
        IntervalIsSteps(now, n, u);
      case CronSpec(e) =>
        var r := Cron.CronNext(e, now.at);
        if r.NoMatch? { NeverMatches(e); }
        next := if r.Next? then Some(Stamp(r.at, 0, 0)) else None;
    }
  }

  /** A schedule is due exactly when it is active and its next run is no later than the present. */
  lemma DueExactly(row: Schedule, t: Stamp, now: Stamp)
    requires ValidStamp(t) && ValidStamp(now) && row.nextRun == Iso(t)
    ensures IsDue(row, Iso(now)) <==> row.active && AbsMicro(t) <= AbsMicro(now)
  {
    StringOrderIsTimeOrder(t, now);
  }

  predicate Ordered(ids: seq<Id>, rows: map<Id, Schedule>) {
    && (forall i :: 0 <= i < |ids| ==> ids[i] in rows)
    && (forall i, j :: 0 <= i < j < |ids| ==> LexLe(rows[ids[i]].nextRun, rows[ids[j]].nextRun))
  }

  /** Where id belongs in a list ordered by next run. */
  function Place(ids: seq<Id>, rows: map<Id, Schedule>, id: Id): (k: nat)
    requires Ordered(ids, rows) && id in rows
    ensures k <= |ids|
    ensures forall i :: 0 <= i < k ==> !LexLe(rows[id].nextRun, rows[ids[i]].nextRun)
    ensures k < |ids| ==> LexLe(rows[id].nextRun, rows[ids[k]].nextRun)
  {
    if ids == [] || LexLe(rows[id].nextRun, rows[ids[0]].nextRun) then 0 else 1 + Place(ids[1..], rows, id)
  }

  lemma PlacedOnce(ids: seq<Id>, k: nat, id: Id)
    requires Distinct(ids) && id !in ids && k <= |ids|
    ensures var ids' := ids[..k] + [id] + ids[k..]; Distinct(ids') && forall x :: x in ids' <==> x == id || x in ids
  {
    assert ids == ids[..k] + ids[k..];
  }

  lemma PlacedInOrder(ids: seq<Id>, rows: map<Id, Schedule>, id: Id)
    requires Ordered(ids, rows) && id in rows
    ensures var k := Place(ids, rows, id); Ordered(ids[..k] + [id] + ids[k..], rows)
  {
    var k := Place(ids, rows, id);
    forall i | 0 <= i < k ensures LexLe(rows[ids[i]].nextRun, rows[id].nextRun) {
      LexTotal(rows[ids[i]].nextRun, rows[id].nextRun);
    }
    forall i | k <= i < |ids| ensures LexLe(rows[id].nextRun, rows[ids[i]].nextRun) {
      if i > k { LexTransitive(rows[id].nextRun, rows[ids[k]].nextRun, rows[ids[i]].nextRun); }
    }
  }

  class ScheduleStore {
    var rows: map<Id, Schedule>

    constructor (rows: map<Id, Schedule>)
      ensures this.rows == rows
    {
      this.rows := rows;
    }

    /** Active schedules whose next run is at or before `before`, earliest first. */
    method ListDue(before: string) returns (ids: seq<Id>)
      ensures Ordered(ids, rows) && Distinct(ids)
      ensures forall id :: id in ids <==> id in rows && rows[id].active && LexLe(rows[id].nextRun, before)
    {
      ids := [];
      var todo := set id | id in rows && IsDue(rows[id], before);
      while todo != {}
        invariant Ordered(ids, rows) && Distinct(ids)
        invariant forall id :: id in ids || id in todo <==> id in rows && IsDue(rows[id], before)
        invariant forall id :: id in ids ==> id !in todo
        decreases todo
      {
        var id :| id in todo;
        var k := Place(ids, rows, id);
        PlacedInOrder(ids, rows, id);
        PlacedOnce(ids, k, id);
        ids := ids[..k] + [id] + ids[k..];
        todo := todo - {id};
      }
    }

    method UpdateAfterFire(id: Id, nextRun: string)
      requires id in rows
      modifies this
      ensures rows == old(rows)[id := old(rows)[id].(nextRun := nextRun)]
    {
      rows := rows[id := rows[id].(nextRun := nextRun)];
    }
  }

  /** What a tick at `now` leaves of a schedule that was due: if its fire raised it is as it was, and
      otherwise it is due no more, unless its interval does not move forward. */
  ghost predicate Settled(before: Schedule, after: Schedule, raised: bool, now: Stamp)
    requires ValidStamp(now)
  {
    && (raised ==> after == before)
    && (!raised ==> after.active == before.active && after.spec == before.spec
                    && (MovesForward(before.spec) ==> !IsDue(after, Iso(now))))
  }

  /** The first i attempted schedules are settled and nothing else has changed. */
  ghost predicate SettledUpTo(before: map<Id, Schedule>, rows: map<Id, Schedule>, attempted: seq<Id>, i: nat,
                              raised: set<Id>, now: Stamp)
    requires ValidStamp(now)
  {
    && i <= |attempted| && rows.Keys == before.Keys && (forall k :: 0 <= k < |attempted| ==> attempted[k] in before)
    && raised <= (set k | 0 <= k < i :: attempted[k])
    && (forall id :: id in before && id !in attempted[..i] ==> rows[id] == before[id])
    && (forall k :: 0 <= k < i ==> Settled(before[attempted[k]], rows[attempted[k]], attempted[k] in raised, now))
  }

  lemma OneMoreSettled(before: map<Id, Schedule>, rows: map<Id, Schedule>, rows': map<Id, Schedule>,
                       attempted: seq<Id>, i: nat,
                       raised: set<Id>, failed: bool, now: Stamp)
    requires ValidStamp(now) && Distinct(attempted) && i < |attempted|
             && SettledUpTo(before, rows, attempted, i, raised, now)
    requires attempted[i] in rows && attempted[i] in rows' && rows' == rows[attempted[i] := rows'[attempted[i]]]
    requires Settled(rows[attempted[i]], rows'[attempted[i]], failed, now)
    ensures SettledUpTo(before, rows', attempted, i + 1, if failed then raised + {attempted[i]} else raised, now)
    ensures attempted[..i + 1] == attempted[..i] + [attempted[i]]
  {
    assert attempted[i] !in attempted[..i];
    assert attempted[..i + 1] == attempted[..i] + [attempted[i]];
  }

  /** When nothing raised and everything moves forward, nothing is due any more. */
  lemma NoneLeft(before: map<Id, Schedule>, rows: map<Id, Schedule>, attempted: seq<Id>, raised: set<Id>, now: Stamp)
    requires ValidStamp(now) && SettledUpTo(before, rows, attempted, |attempted|, raised, now)
    requires forall id :: id in attempted <==> id in before && IsDue(before[id], Iso(now))
    ensures raised == {} && (forall id :: id in attempted ==> MovesForward(before[id].spec)) ==>
              forall id :: id in rows ==> !IsDue(rows[id], Iso(now))
  {
    if raised == {} && (forall id :: id in attempted ==> MovesForward(before[id].spec)) {
      forall id | id in rows ensures !IsDue(rows[id], Iso(now)) {
        if id in attempted {
          var k :| 0 <= k < |attempted| && attempted[k] == id;
          assert Settled(before[attempted[k]], rows[attempted[k]], attempted[k] in raised, now);
        } else {
          assert id !in attempted[..|attempted|];
        }
      }
    }
  }

  /** These ids, in their order. */
  function Among(ids: seq<Id>, chosen: set<Id>): seq<Id> {
    if ids == [] then []
    else Among(ids[..|ids| - 1], chosen) + (if ids[|ids| - 1] in chosen then [ids[|ids| - 1]] else [])
  }

  lemma {:induction false} AmongOthers(ids: seq<Id>, chosen: set<Id>, id: Id)
    requires id !in ids
    ensures Among(ids, chosen + {id}) == Among(ids, chosen)
  {
    if ids != [] { AmongOthers(ids[..|ids| - 1], chosen, id); }
  }

  lemma OneMoreAmong(ids: seq<Id>, i: nat, chosen: set<Id>, began: bool)
    requires Distinct(ids) && i < |ids| && chosen <= (set k | 0 <= k < i :: ids[k])
    ensures Among(ids[..i + 1], if began then chosen + {ids[i]} else chosen) ==
            Among(ids[..i], chosen) + (if began then [ids[i]] else [])
  {
    assert ids[..i + 1][..i] == ids[..i] && ids[i] !in ids[..i];
    AmongOthers(ids[..i], chosen, ids[i]);
  }

  /** The jobs started for the first i attempted schedules: of all that did not raise, at least. */
  ghost predicate StartedUpTo(before: seq<Id>, started: seq<Id>, attempted: seq<Id>, i: nat, raised: set<Id>,
                              begun: set<Id>)
  {
    && i <= |attempted| && started == before + Among(attempted[..i], begun)
    && begun <= (set k | 0 <= k < i :: attempted[k])
    && forall k :: 0 <= k < i && attempted[k] !in raised ==> attempted[k] in begun
  }

  lemma OneMoreStarted(before: seq<Id>, started: seq<Id>, started': seq<Id>, attempted: seq<Id>, i: nat,
                       raised: set<Id>, begun: set<Id>, failed: bool, began: bool)
    requires Distinct(attempted) && i < |attempted| && StartedUpTo(before, started, attempted, i, raised, begun)
    requires started' == started + (if began then [attempted[i]] else []) && (began || failed)
    ensures StartedUpTo(before, started', attempted, i + 1, if failed then raised + {attempted[i]} else raised,
                        if began then begun + {attempted[i]} else begun)
  {
    OneMoreAmong(attempted, i, begun, began);
    assert attempted[..i + 1] == attempted[..i] + [attempted[i]];
  }

  class SchedulerThread {
    const store: ScheduleStore
    const clock: Clock
    var started: seq<Id>   // jobs handed to the job manager

    constructor (store: ScheduleStore, clock: Clock)
      ensures this.store == store && this.clock == clock && started == []
    {
      this.store, this.clock, started := store, clock, [];
    }

    /** Start the job, then move the schedule on. Reading the request or starting the job may raise, and
        once the job has started only the lack of a next time does: the schedule then keeps its time. */
    method Fire(id: Id) returns (raised: bool, ghost now: Stamp, ghost next: Stamp)
      requires clock.Ticking() && id in store.rows && WellFormedSpec(store.rows[id].spec)
      modifies this, store, clock
      ensures clock.Ticking() && AbsMicro(old(clock.last)) <= AbsMicro(clock.last)
      ensures raised ==> store.rows == old(store.rows) && (started == old(started) || started == old(started) + [id])
      ensures raised && started != old(started) ==>
                ValidStamp(now) && AbsMicro(old(clock.last)) <= AbsMicro(now)
                    && NoNextRun(old(store.rows)[id].spec, now)
      ensures !raised ==> started == old(started) + [id] && ValidStamp(now) && ValidStamp(next)
                          && AbsMicro(old(clock.last)) <= AbsMicro(now)
                              && IsNextRun(old(store.rows)[id].spec, now, next)
                          && store.rows == old(store.rows)[id := old(store.rows)[id].(nextRun := Iso(next))]
    {
      raised, now, next := *, clock.last, clock.last;
      if raised { return; }
      started := started + [id];
      var reading := clock.Now();
      now := reading;
      var r := NextRunAfter(store.rows[id].spec, reading);
      if r.None? { raised := true; return; }
      next := r.value;
      NextRunIsLater(store.rows[id].spec, reading, r.value);
      store.UpdateAfterFire(id, Iso(r.value));
    }

    /** One turn of the tick's loop. */
    method FireDue(id: Id, now: Stamp) returns (failed: bool)
      requires clock.Ticking() && ValidStamp(now) && AbsMicro(now) <= AbsMicro(clock.last)
      requires id in store.rows && WellFormedSpec(store.rows[id].spec)
      modifies this, store, clock
      ensures clock.Ticking() && AbsMicro(now) <= AbsMicro(clock.last)
      ensures id in store.rows && store.rows == old(store.rows)[id := store.rows[id]]
      ensures Settled(old(store.rows)[id], store.rows[id], failed, now)
      ensures started == old(started) + [id] || (failed && started == old(started))
    {
      ghost var fired, next;
      failed, fired, next := Fire(id);
      if !failed { NotDueAgain(old(store.rows)[id].spec, fired, next, now); }
    }

    /** Fire everything that is due at one reading of the clock, earliest first. The jobs started are those
        of the due schedules in `begun`: of all that did not raise, and of those that raised afterwards. */
    method Tick() returns (now: Stamp, attempted: seq<Id>, raised: set<Id>, ghost begun: set<Id>)
      requires clock.Ticking() && forall id :: id in store.rows ==> WellFormedSpec(store.rows[id].spec)
      modifies this, store, clock
      ensures ValidStamp(now) && AbsMicro(old(clock.last)) <= AbsMicro(now)
      ensures Distinct(attempted) && Ordered(attempted, old(store.rows)) && raised <= (set id | id in attempted)
      ensures forall id :: id in attempted <==>
                id in old(store.rows) && old(store.rows)[id].active && LexLe(old(store.rows)[id].nextRun, Iso(now))
      ensures store.rows.Keys == old(store.rows).Keys
      ensures forall id :: id in old(store.rows) && id !in attempted ==> store.rows[id] == old(store.rows)[id]
      ensures forall id :: id in attempted ==> Settled(old(store.rows)[id], store.rows[id], id in raised, now)
      ensures started == old(started) + Among(attempted, begun)
      ensures forall id :: id in attempted && id !in raised ==> id in begun
      ensures raised == {} && (forall id :: id in attempted ==> MovesForward(old(store.rows)[id].spec)) ==>
                forall id :: id in store.rows ==> !IsDue(store.rows[id], Iso(now))
    {
      now := clock.Now();
      attempted := store.ListDue(Iso(now));
      raised, begun := {}, {};
      ghost var before := store.rows;
      for i := 0 to |attempted|
        invariant clock.Ticking() && AbsMicro(now) <= AbsMicro(clock.last)
        invariant SettledUpTo(before, store.rows, attempted, i, raised, now)
        invariant StartedUpTo(old(started), started, attempted, i, raised, begun)
      {
        ghost var rows, raisedBefore, jobs := store.rows, raised, started;
        var failed := FireDue(attempted[i], now);
        if failed { raised := raised + {attempted[i]}; }
        ghost var began := started != jobs;
        OneMoreStarted(old(started), jobs, started, attempted, i, raisedBefore, begun, failed, began);
        if began { begun := begun + {attempted[i]}; }
        OneMoreSettled(before, rows, store.rows, attempted, i, raisedBefore, failed, now);
      }
      assert attempted[..|attempted|] == attempted;
      NoneLeft(before, store.rows, attempted, raised, now);
    }
  }
}
