/** Exactly when a login attempt is let in: stated over the history of an address alone, by counting. */
module LimiterHistory {
  import opened Cursors
  import opened RateLimiter

  function VerdictOf(cfg: Config, calls: seq<Call>, ip: string, now: real): Verdict {
    Check(cfg, After(cfg, calls), ip, now).1
  }

  /** The times of the attempts from ip accepted since it was last cleared or locked. */
  function AcceptedSinceReset(cfg: Config, calls: seq<Call>, ip: string): seq<real> {
    if calls == [] then []
    else
      var front := calls[..|calls| - 1];
      var before := AcceptedSinceReset(cfg, front, ip);
      match calls[|calls| - 1]
      case Reset(from) => if from == ip then [] else before
      case Attempt(from, now) =>
        if from != ip then before
        else match VerdictOf(cfg, front, ip, now)
          case Accepted => before + [now]
          case Tripped => []
          case StillLocked(_) => before
  }

  /** When ip tripped the limiter last, unless it was cleared since. */
  function LastTrip(cfg: Config, calls: seq<Call>, ip: string): Option<real> {
    if calls == [] then None
    else
      var front := calls[..|calls| - 1];
      match calls[|calls| - 1]
      case Reset(from) => if from == ip then None else LastTrip(cfg, front, ip)
      case Attempt(from, now) =>
        if from == ip && VerdictOf(cfg, front, ip, now) == Tripped then Some(now) else LastTrip(cfg, front, ip)
  }

  /** How many of these times are later than the given one. */
  function CountLater(times: seq<real>, than: real): nat { |set i: nat | 0 <= i < |times| && times[i] > than| }

  // ---------------------------------------------------------------- the lock

  lemma {:induction false} LockFromHistory(cfg: Config, calls: seq<Call>, ip: string)
    ensures var trip := LastTrip(cfg, calls, ip);
            LockOf(After(cfg, calls), ip) == if trip.Some? then trip.value + cfg.lockout else 0.0
  {
    if calls != [] {
      var front, last := calls[..|calls| - 1], calls[|calls| - 1];
      LockFromHistory(cfg, front, ip);
      if last.ip != ip {
        OtherAddressUntouched(cfg, After(cfg, front), last.ip, if last.Attempt? then last.now else 0.0, ip);
      }
    }
  }

  // ---------------------------------------------------------------- the window

  /** Some attempt came a window or more after this time. */
  ghost predicate Outdated(cfg: Config, calls: seq<Call>, t: real) {
    exists k :: 0 <= k < |calls| && calls[k].Attempt? && t + cfg.window <= calls[k].now
  }

  lemma StaysOutdated(cfg: Config, calls: seq<Call>, t: real)
    requires calls != [] && Outdated(cfg, calls[..|calls| - 1], t)
    ensures Outdated(cfg, calls, t)
  {
    var front := calls[..|calls| - 1];
    var k :| 0 <= k < |front| && front[k].Attempt? && t + cfg.window <= front[k].now;
    assert calls[k] == front[k];
  }

  /** What is held of ip is what was accepted since the reset, except for times that are outdated. */
  ghost predicate HeldOk(cfg: Config, calls: seq<Call>, held: seq<real>, accepted: seq<real>) {
    && |held| <= |accepted| && held == accepted[|accepted| - |held|..]
    && forall i :: 0 <= i < |accepted| - |held| ==> Outdated(cfg, calls, accepted[i])
  }

  lemma {:induction false} SinceResetIsSuffix(cfg: Config, calls: seq<Call>, ip: string)
    ensures var a, b := AcceptedSinceReset(cfg, calls, ip), AcceptedSinceClear(cfg, calls, ip);
            |a| <= |b| && a == b[|b| - |a|..]
  {
    if calls != [] { SinceResetIsSuffix(cfg, calls[..|calls| - 1], ip); }
  }

  lemma RisingSinceReset(cfg: Config, calls: seq<Call>, ip: string)
    requires Monotonic(calls)
    ensures Rising(AcceptedSinceReset(cfg, calls, ip))
  {
    SinceResetIsSuffix(cfg, calls, ip);
    AcceptedRising(cfg, calls, ip);
  }

  lemma AcceptKeepsHeld(cfg: Config, calls: seq<Call>, held: seq<real>, accepted: seq<real>)
    requires calls != [] && calls[|calls| - 1].Attempt? && Rising(accepted)
    requires HeldOk(cfg, calls[..|calls| - 1], held, accepted)
    ensures var now := calls[|calls| - 1].now;
            HeldOk(cfg, calls, Recent(held, now - cfg.window) + [now], accepted + [now])
  {
    var now := calls[|calls| - 1].now;
    KeptIsSuffix(accepted, held, now - cfg.window);
    var r := Recent(held, now - cfg.window);
    assert r + [now] == (accepted + [now])[|accepted| - |r|..];
    forall i | 0 <= i < |accepted| - |r| ensures Outdated(cfg, calls, (accepted + [now])[i]) {
      if i < |accepted| - |held| { StaysOutdated(cfg, calls, accepted[i]); }
      else { assert calls[|calls| - 1].Attempt? && accepted[i] + cfg.window <= now; }
    }
  }

  lemma SameHeld(cfg: Config, calls: seq<Call>, held: seq<real>, accepted: seq<real>)
    requires calls != [] && HeldOk(cfg, calls[..|calls| - 1], held, accepted)
    ensures HeldOk(cfg, calls, held, accepted)
  {
    forall i | 0 <= i < |accepted| - |held| ensures Outdated(cfg, calls, accepted[i]) {
      StaysOutdated(cfg, calls, accepted[i]);
    }
  }

  lemma {:induction false} HeldAlways(cfg: Config, calls: seq<Call>, ip: string)
    requires Monotonic(calls)
    ensures HeldOk(cfg, calls, AttemptsOf(After(cfg, calls), ip), AcceptedSinceReset(cfg, calls, ip))
  {
    if calls != [] {
      var front, last := calls[..|calls| - 1], calls[|calls| - 1];
      HeldAlways(cfg, front, ip);
      RisingSinceReset(cfg, front, ip);
      var l := After(cfg, front);
      if last.ip != ip {
        OtherAddressUntouched(cfg, l, last.ip, if last.Attempt? then last.now else 0.0, ip);
        SameHeld(cfg, calls, AttemptsOf(l, ip), AcceptedSinceReset(cfg, front, ip));
      } else if last.Attempt? && !VerdictOf(cfg, front, ip, last.now).Tripped? {
        AcceptKeepsHeld(cfg, calls, AttemptsOf(l, ip), AcceptedSinceReset(cfg, front, ip));
        SameHeld(cfg, calls, AttemptsOf(l, ip), AcceptedSinceReset(cfg, front, ip));
      }
    }
  }

  // ---------------------------------------------------------------- counting

  lemma {:induction false} RecentLater(times: seq<real>, cutoff: real)
    ensures forall i :: 0 <= i < |Recent(times, cutoff)| ==> Recent(times, cutoff)[i] > cutoff
  {
    if times != [] { RecentLater(times[1..], cutoff); }
  }

  /** The numbers from lo up to, but not including, hi. */
  function Between(lo: nat, hi: nat): (s: set<nat>)
    requires lo <= hi
    ensures |s| == hi - lo && forall i :: i in s <==> lo <= i < hi
  {
    if lo == hi then {} else Between(lo, hi - 1) + {hi - 1}
  }

  lemma LaterFrom(times: seq<real>, than: real, from: nat)
    requires from <= |times| && forall i :: 0 <= i < |times| ==> (times[i] > than <==> from <= i)
    ensures CountLater(times, than) == |times| - from
  {
    assert (set i: nat | 0 <= i < |times| && times[i] > than) == Between(from, |times|);
  }

  lemma InsideExactly(cfg: Config, calls: seq<Call>, held: seq<real>, accepted: seq<real>, now: real)
    requires HeldOk(cfg, calls, held, accepted) && Rising(accepted)
    requires forall k :: 0 <= k < |calls| && calls[k].Attempt? ==> calls[k].now <= now
    ensures var r := Recent(held, now - cfg.window);
            |r| <= |accepted|
            && forall i :: 0 <= i < |accepted| ==> (accepted[i] > now - cfg.window <==> |accepted| - |r| <= i)
  {
    var cutoff := now - cfg.window;
    var r := Recent(held, cutoff);
    KeptIsSuffix(accepted, held, cutoff);
    RecentLater(held, cutoff);
    var from := |accepted| - |r|;
    forall i | 0 <= i < |accepted| ensures accepted[i] > cutoff <==> from <= i {
      if i >= from { assert accepted[i] == r[i - from]; }
      else if i < |accepted| - |held| { assert Outdated(cfg, calls, accepted[i]); }
    }
  }

  /** What the filter keeps of the held times are exactly the accepted ones inside the window. */
  lemma KeptCounts(cfg: Config, calls: seq<Call>, held: seq<real>, accepted: seq<real>, now: real)
    requires HeldOk(cfg, calls, held, accepted) && Rising(accepted)
    requires forall k :: 0 <= k < |calls| && calls[k].Attempt? ==> calls[k].now <= now
    ensures |Recent(held, now - cfg.window)| == CountLater(accepted, now - cfg.window)
  {
    InsideExactly(cfg, calls, held, accepted, now);
    LaterFrom(accepted, now - cfg.window, |accepted| - |Recent(held, now - cfg.window)|);
  }

  /** In every history, an address is told to wait if and only if a lockout has not run out, counted from
      the attempt that tripped the limiter last, or its clock is still before zero. Otherwise it is let
      in if and only if fewer than `max` of the attempts accepted since its last clear or lock are later
      than a window ago, and trips if not. */
  lemma VerdictExactly(cfg: Config, calls: seq<Call>, ip: string, now: real)
    requires Monotonic(calls + [Attempt(ip, now)])
    ensures var trip := LastTrip(cfg, calls, ip);
            var until := if trip.Some? then trip.value + cfg.lockout else 0.0;
            var n := CountLater(AcceptedSinceReset(cfg, calls, ip), now - cfg.window);
            VerdictOf(cfg, calls, ip, now) ==
              if now < until then StillLocked((until - now).Floor) else if n < cfg.max then Accepted else Tripped
  {
    NotAfter(calls, ip, now);
    LockFromHistory(cfg, calls, ip);
    HeldAlways(cfg, calls, ip);
    RisingSinceReset(cfg, calls, ip);
    KeptCounts(cfg, calls, AttemptsOf(After(cfg, calls), ip), AcceptedSinceReset(cfg, calls, ip), now);
    Decides(cfg, After(cfg, calls), ip, now);
  }

  lemma NotAfter(calls: seq<Call>, ip: string, now: real)
    requires Monotonic(calls + [Attempt(ip, now)])
    ensures Monotonic(calls) && forall k :: 0 <= k < |calls| && calls[k].Attempt? ==> calls[k].now <= now
  {
    var all := calls + [Attempt(ip, now)];
    assert all[|calls|] == Attempt(ip, now);
    forall k | 0 <= k < |calls| && calls[k].Attempt? ensures calls[k].now <= now { assert all[k] == calls[k]; }
    forall i, j | 0 <= i < j < |calls| && calls[i].Attempt? && calls[j].Attempt? ensures calls[i].now <= calls[j].now {
      assert all[i] == calls[i] && all[j] == calls[j];
    }
  }

  lemma Decides(cfg: Config, l: Limits, ip: string, now: real)
    ensures Check(cfg, l, ip, now).1 ==
            if now < LockOf(l, ip) then StillLocked((LockOf(l, ip) - now).Floor)
            else if |Recent(AttemptsOf(l, ip), now - cfg.window)| < cfg.max then Accepted else Tripped
  {
  }

  /** After a clear an address is as new, whatever it did before. */
  lemma ClearedIsNew(cfg: Config, calls: seq<Call>, ip: string)
    ensures var after := calls + [Reset(ip)];
            && AcceptedSinceReset(cfg, after, ip) == [] && LastTrip(cfg, after, ip) == None
            && AttemptsOf(After(cfg, after), ip) == [] && LockOf(After(cfg, after), ip) == 0.0
  {
    var after := calls + [Reset(ip)];
    assert after[..|after| - 1] == calls;
  }
}
