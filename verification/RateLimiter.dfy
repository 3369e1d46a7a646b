/** The login rate limiter: a sliding window of attempts per address, and a lockout. */
module RateLimiter {

  /** The two dictionaries of the limiter. */
  datatype Limits = Limits(attempts: map<string, seq<real>>, lockedUntil: map<string, real>)

  datatype Config = Config(max: int, window: real, lockout: real)

  /** Accepted, refused while locked, or refused and locked by this very attempt. The number is the
      remaining time the response mentions. */
  datatype Verdict = Accepted | StillLocked(remaining: int) | Tripped

  function AttemptsOf(l: Limits, ip: string): seq<real> { if ip in l.attempts then l.attempts[ip] else [] }

  function LockOf(l: Limits, ip: string): real { if ip in l.lockedUntil then l.lockedUntil[ip] else 0.0 }

  function Recent(times: seq<real>, cutoff: real): seq<real> {
    if times == [] then []
    else if times[0] > cutoff then [times[0]] + Recent(times[1..], cutoff)
    else Recent(times[1..], cutoff)
  }

  function Check(cfg: Config, l: Limits, ip: string, now: real): (Limits, Verdict) {
    if now < LockOf(l, ip) then (l, StillLocked((LockOf(l, ip) - now).Floor))
    else
      var kept := Recent(AttemptsOf(l, ip), now - cfg.window) + [now];
      if |kept| > cfg.max
      then (Limits(l.attempts - {ip}, l.lockedUntil[ip := now + cfg.lockout]), Tripped)
      else (l.(attempts := l.attempts[ip := kept]), Accepted)
  }

  function Clear(l: Limits, ip: string): Limits { Limits(l.attempts - {ip}, l.lockedUntil - {ip}) }

  class LoginRateLimiter {
    const cfg: Config
    var attempts: map<string, seq<real>>
    var lockedUntil: map<string, real>

    ghost function View(): Limits
      reads this
    { Limits(attempts, lockedUntil) }

    constructor (cfg: Config)
      ensures this.cfg == cfg && View() == Limits(map[], map[])
    {
      this.cfg, attempts, lockedUntil := cfg, map[], map[];
    }

    method CheckAndRecord(ip: string, now: real) returns (verdict: Verdict)
      modifies this
      ensures (View(), verdict) == Check(cfg, old(View()), ip, now)
    {
      var until := if ip in lockedUntil then lockedUntil[ip] else 0.0;
      if now < until { return StillLocked((until - now).Floor); }
      attempts := attempts[ip := Recent(if ip in attempts then attempts[ip] else [], now - cfg.window)];
      attempts := attempts[ip := attempts[ip] + [now]];
      assert attempts == old(attempts)[ip := Recent(AttemptsOf(old(View()), ip), now - cfg.window) + [now]];
      if |attempts[ip]| > cfg.max {
        lockedUntil := lockedUntil[ip := now + cfg.lockout];
        attempts := attempts - {ip};
        assert attempts == old(attempts) - {ip};
        return Tripped;
      }
      return Accepted;
    }

    method ClearAttempts(ip: string)
      modifies this
      ensures View() == Clear(old(View()), ip)
    {
      attempts := attempts - {ip};
      lockedUntil := lockedUntil - {ip};
    }
  }

  // ---------------------------------------------------------------- histories of calls

  datatype Call = Attempt(ip: string, now: real) | Reset(ip: string)

  function After(cfg: Config, calls: seq<Call>): Limits {
    if calls == [] then Limits(map[], map[])
    else
      var l := After(cfg, calls[..|calls| - 1]);
      match calls[|calls| - 1]
      case Attempt(ip, now) => Check(cfg, l, ip, now).0
      case Reset(ip) => Clear(l, ip)
  }

  /** The times of the attempts from ip accepted since its last clear. */
  function AcceptedSinceClear(cfg: Config, calls: seq<Call>, ip: string): seq<real> {
    if calls == [] then []
    else
      var before := AcceptedSinceClear(cfg, calls[..|calls| - 1], ip);
      match calls[|calls| - 1]
      case Attempt(from, now) =>
        if from == ip && Check(cfg, After(cfg, calls[..|calls| - 1]), ip, now).1 == Accepted then before + [now]
            else before
      case Reset(from) => if from == ip then [] else before
  }

  /** The clock never runs backwards. */
  ghost predicate Monotonic(calls: seq<Call>) {
    forall i, j :: 0 <= i < j < |calls| && calls[i].Attempt? && calls[j].Attempt? ==> calls[i].now <= calls[j].now
  }

  function Latest(calls: seq<Call>): real {
    if calls == [] then 0.0
    else if calls[|calls| - 1].Attempt? then calls[|calls| - 1].now
    else Latest(calls[..|calls| - 1])
  }

  predicate Rising(times: seq<real>) { forall i, j :: 0 <= i < j < |times| ==> times[i] <= times[j] }

  /** Any max + 1 successive accepted attempts span at least the window. */
  predicate Spread(cfg: Config, times: seq<real>) {
    forall i, j :: 0 <= i <= j < |times| && j - i >= cfg.max ==> times[j] - times[i] >= cfg.window
  }

  lemma {:induction false} RecentIsSuffix(times: seq<real>, cutoff: real)
    requires Rising(times)
    ensures var r := Recent(times, cutoff);
            && |r| <= |times| && r == times[|times| - |r|..]
            && forall i :: 0 <= i < |times| - |r| ==> times[i] <= cutoff
  {
    if times == [] {
    } else if times[0] > cutoff {
      RecentAll(times, cutoff);
    } else {
      RecentIsSuffix(times[1..], cutoff);
    }
  }

  lemma {:induction false} RecentAll(times: seq<real>, cutoff: real)
    requires forall i :: 0 <= i < |times| ==> times[i] > cutoff
    ensures Recent(times, cutoff) == times
  {
    if times != [] { RecentAll(times[1..], cutoff); }
  }

  function Max(a: real, b: real): real { if a < b then b else a }

  /** The window held for ip is a suffix of its accepted attempts; whatever fell out of it is at least
      one window older than any attempt that can still be accepted. */
  ghost predicate WindowOk(cfg: Config, l: Limits, accepted: seq<real>, clock: real, ip: string) {
    && Rising(accepted) && (forall i :: 0 <= i < |accepted| ==> accepted[i] <= clock)
    && |AttemptsOf(l, ip)| <= |accepted| && (AttemptsOf(l, ip) == [] || |AttemptsOf(l, ip)| <= cfg.max)
    && AttemptsOf(l, ip) == accepted[|accepted| - |AttemptsOf(l, ip)|..]
    && (forall i :: 0 <= i < |accepted| - |AttemptsOf(l, ip)| ==> accepted[i] + cfg.window <= Max(clock, LockOf(l, ip)))
    && Spread(cfg, accepted)
  }

  /** Filtering the held suffix by the cutoff leaves a suffix, and drops only what is old enough. */
  lemma KeptIsSuffix(accepted: seq<real>, held: seq<real>, cutoff: real)
    requires Rising(accepted) && |held| <= |accepted| && held == accepted[|accepted| - |held|..]
    ensures var r := Recent(held, cutoff);
            && |r| <= |held| && r == accepted[|accepted| - |r|..]
            && forall i :: |accepted| - |held| <= i < |accepted| - |r| ==> accepted[i] <= cutoff
  {
    RecentIsSuffix(held, cutoff);
    var r := Recent(held, cutoff);
    var gone := |accepted| - |held|;
    assert r == held[|held| - |r|..] == accepted[|accepted| - |r|..];
    forall i | gone <= i < |accepted| - |r| ensures accepted[i] <= cutoff { assert accepted[i] == held[i - gone]; }
  }

  lemma SpreadGrows(cfg: Config, accepted: seq<real>, now: real, dropped: nat)
    requires Spread(cfg, accepted) && dropped <= |accepted| && |accepted| + 1 - dropped <= cfg.max
    requires forall i :: 0 <= i < dropped ==> accepted[i] + cfg.window <= now
    ensures Spread(cfg, accepted + [now])
  {
    var all := accepted + [now];
    forall i, j | 0 <= i <= j < |all| && j - i >= cfg.max ensures all[j] - all[i] >= cfg.window {
      if j == |accepted| { assert i < dropped; assert all[i] == accepted[i]; }
      else { assert all[i] == accepted[i] && all[j] == accepted[j]; }
    }
  }

  lemma AcceptKeepsWindow(cfg: Config, l: Limits, accepted: seq<real>, clock: real, ip: string, now: real)
    requires WindowOk(cfg, l, accepted, clock, ip) && clock <= now && Check(cfg, l, ip, now).1 == Accepted
    ensures WindowOk(cfg, Check(cfg, l, ip, now).0, accepted + [now], now, ip)
  {
    var held := AttemptsOf(l, ip);
    KeptIsSuffix(accepted, held, now - cfg.window);
    var r := Recent(held, now - cfg.window);
    var dropped := |accepted| - |r|;
    forall i | 0 <= i < dropped ensures accepted[i] + cfg.window <= now {
      ExpiredBy(cfg, l, accepted, clock, ip, now, i);
    }
    SpreadGrows(cfg, accepted, now, dropped);
    assert r + [now] == (accepted + [now])[dropped..];
    Appended(cfg, l, accepted, ip, now, r);
  }

  lemma ExpiredBy(cfg: Config, l: Limits, accepted: seq<real>, clock: real, ip: string, now: real, i: nat)
    requires WindowOk(cfg, l, accepted, clock, ip) && clock <= now && LockOf(l, ip) <= now
    requires i < |accepted| - |Recent(AttemptsOf(l, ip), now - cfg.window)|
    ensures accepted[i] + cfg.window <= now
  {
    KeptIsSuffix(accepted, AttemptsOf(l, ip), now - cfg.window);
  }

  lemma Appended(cfg: Config, l: Limits, accepted: seq<real>, ip: string, now: real, r: seq<real>)
    requires Rising(accepted) && (forall i :: 0 <= i < |accepted| ==> accepted[i] <= now)
    requires |r| <= |accepted| && r + [now] == (accepted + [now])[|accepted| - |r|..] && |r| + 1 <= cfg.max
    requires forall i :: 0 <= i < |accepted| - |r| ==> accepted[i] + cfg.window <= now
    requires Spread(cfg, accepted + [now])
    ensures WindowOk(cfg, l.(attempts := l.attempts[ip := r + [now]]), accepted + [now], now, ip)
  {
  }

  lemma TripKeepsWindow(cfg: Config, l: Limits, accepted: seq<real>, clock: real, ip: string, now: real)
    requires cfg.lockout >= cfg.window
    requires WindowOk(cfg, l, accepted, clock, ip) && clock <= now && Check(cfg, l, ip, now).1 == Tripped
    ensures WindowOk(cfg, Check(cfg, l, ip, now).0, accepted, now, ip)
  {
  }

  lemma OtherAddressUntouched(cfg: Config, l: Limits, ip: string, now: real, other: string)
    requires other != ip
    ensures AttemptsOf(Check(cfg, l, ip, now).0, other) == AttemptsOf(l, other)
    ensures LockOf(Check(cfg, l, ip, now).0, other) == LockOf(l, other)
    ensures AttemptsOf(Clear(l, ip), other) == AttemptsOf(l, other) && LockOf(Clear(l, ip), other) == LockOf(l, other)
  {
  }

  lemma {:induction false} LatestIsAnAttempt(cfg: Config, calls: seq<Call>, ip: string)
    ensures AcceptedSinceClear(cfg, calls, ip) == []
            || exists i :: 0 <= i < |calls| && calls[i].Attempt? && calls[i].now == Latest(calls)
  {
    if calls == [] {
    } else if calls[|calls| - 1].Attempt? {
      assert calls[|calls| - 1].now == Latest(calls);
    } else {
      var before := calls[..|calls| - 1];
      LatestIsAnAttempt(cfg, before, ip);
      if i :| 0 <= i < |before| && before[i].Attempt? && before[i].now == Latest(before) {
        assert calls[i] == before[i];
      }
    }
  }

  lemma {:induction false} LatestBounds(calls: seq<Call>)
    requires Monotonic(calls)
    ensures forall i :: 0 <= i < |calls| && calls[i].Attempt? ==> calls[i].now <= Latest(calls)
  {
    if calls != [] {
      var before := calls[..|calls| - 1];
      LatestBounds(before);
      forall i | 0 <= i < |calls| && calls[i].Attempt? ensures calls[i].now <= Latest(calls) {
        if i < |before| { assert before[i] == calls[i]; }
      }
    }
  }

  lemma {:induction false} WindowAlways(cfg: Config, calls: seq<Call>, ip: string)
    requires Monotonic(calls) && cfg.lockout >= cfg.window
    ensures WindowOk(cfg, After(cfg, calls), AcceptedSinceClear(cfg, calls, ip), Latest(calls), ip)
  {
    if calls == [] {
    } else {
      var before, last := calls[..|calls| - 1], calls[|calls| - 1];
      var l := After(cfg, before);
      WindowAlways(cfg, before, ip);
      match last {
        case Reset(from) =>
          if from != ip { OtherAddressUntouched(cfg, l, from, 0.0, ip); }
        case Attempt(from, now) =>
          var accepted := AcceptedSinceClear(cfg, before, ip);
          ClockBefore(cfg, calls, ip);
          AttemptKeepsWindow(cfg, l, accepted, if accepted == [] then now else Latest(before), ip, from, now);
      }
    }
  }

  /** The last attempt comes no earlier than the latest one before it. */
  lemma ClockBefore(cfg: Config, calls: seq<Call>, ip: string)
    requires Monotonic(calls) && calls != [] && calls[|calls| - 1].Attempt?
    ensures var before := calls[..|calls| - 1];
            AcceptedSinceClear(cfg, before, ip) != [] ==> Latest(before) <= calls[|calls| - 1].now
  {
    var before := calls[..|calls| - 1];
    LatestIsAnAttempt(cfg, before, ip);
    if i :| 0 <= i < |before| && before[i].Attempt? && before[i].now == Latest(before) {
      assert calls[i] == before[i];
    }
  }

  lemma AttemptKeepsWindow(cfg: Config, l: Limits, accepted: seq<real>, clock: real, ip: string, from: string,
                           now: real)
    requires cfg.lockout >= cfg.window && WindowOk(cfg, l, accepted, clock, ip) && clock <= now
    ensures WindowOk(cfg, Check(cfg, l, from, now).0,
                     if from == ip && Check(cfg, l, ip, now).1 == Accepted then accepted + [now] else accepted, now, ip)
  {
    if from != ip { OtherAddressUntouched(cfg, l, from, now, ip); }
    else if Check(cfg, l, ip, now).1 == Accepted { AcceptKeepsWindow(cfg, l, accepted, clock, ip, now); }
    else if Check(cfg, l, ip, now).1 == Tripped { TripKeepsWindow(cfg, l, accepted, clock, ip, now); }
  }

  /** The sliding window over any history: however calls, trips and lockouts interleave, max + 1
      successive accepted attempts from one address with no clear between them span the window. */
  lemma AcceptedAttemptsSpread(cfg: Config, calls: seq<Call>, ip: string, i: nat, j: nat)
    requires Monotonic(calls) && cfg.lockout >= cfg.window
    requires i <= j < |AcceptedSinceClear(cfg, calls, ip)| && j - i >= cfg.max
    ensures AcceptedSinceClear(cfg, calls, ip)[j] - AcceptedSinceClear(cfg, calls, ip)[i] >= cfg.window
  {
    WindowAlways(cfg, calls, ip);
  }

  // ---------------------------------------------------------------- exactly when the guarantee holds

  function Burst(ip: string, n: nat): seq<Call> { seq(n, i => Attempt(ip, 0.0)) }

  function Zeros(n: nat): seq<real> { seq(n, i => 0.0) }

  lemma ZerosKept(cfg: Config, l: Limits, ip: string, n: nat)
    requires cfg.window > 0.0 && AttemptsOf(l, ip) == Zeros(n) && LockOf(l, ip) == 0.0 && n < cfg.max
    ensures Check(cfg, l, ip, 0.0) == (l.(attempts := l.attempts[ip := Zeros(n + 1)]), Accepted)
    ensures Zeros(n) + [0.0] == Zeros(n + 1)
  {
    RecentAll(Zeros(n), 0.0 - cfg.window);
    assert Zeros(n) + [0.0] == Zeros(n + 1);
  }

  lemma {:induction false} BurstAccepted(cfg: Config, ip: string, n: nat)
    requires cfg.window > 0.0 && n <= cfg.max
    ensures AttemptsOf(After(cfg, Burst(ip, n)), ip) == Zeros(n) == AcceptedSinceClear(cfg, Burst(ip, n), ip)
    ensures LockOf(After(cfg, Burst(ip, n)), ip) == 0.0
  {
    if n > 0 {
      BurstAccepted(cfg, ip, n - 1);
      assert Burst(ip, n)[..n - 1] == Burst(ip, n - 1);
      assert Burst(ip, n)[n - 1] == Attempt(ip, 0.0);
      ZerosKept(cfg, After(cfg, Burst(ip, n - 1)), ip, n - 1);
    }
  }

  lemma BurstTrips(cfg: Config, ip: string)
    requires cfg.max >= 1 && cfg.window > 0.0
    ensures var calls := Burst(ip, cfg.max + 1);
            LockOf(After(cfg, calls), ip) == cfg.lockout && AttemptsOf(After(cfg, calls), ip) == []
            && AcceptedSinceClear(cfg, calls, ip) == Zeros(cfg.max)
  {
    var n := cfg.max;
    var calls := Burst(ip, n + 1);
    BurstAccepted(cfg, ip, n);
    assert calls[..n] == Burst(ip, n) && calls[n] == Attempt(ip, 0.0);
    FullWindowTrips(cfg, After(cfg, Burst(ip, n)), ip);
  }

  lemma FullWindowTrips(cfg: Config, l: Limits, ip: string)
    requires cfg.max >= 1 && cfg.window > 0.0 && AttemptsOf(l, ip) == Zeros(cfg.max) && LockOf(l, ip) == 0.0
    ensures Check(cfg, l, ip, 0.0) == (Limits(l.attempts - {ip}, l.lockedUntil[ip := 0.0 + cfg.lockout]), Tripped)
  {
    RecentAll(Zeros(cfg.max), 0.0 - cfg.window);
  }

  /** With a lockout shorter than the window, max attempts at one instant, one more that trips, and one
      when the lockout expires put max + 1 accepted attempts inside one window. */
  lemma ShortLockoutAdmitsTooMany(cfg: Config, ip: string) returns (calls: seq<Call>)
    requires cfg.max >= 1 && cfg.window > 0.0 && cfg.lockout < cfg.window
    ensures Monotonic(calls) && !Spread(cfg, AcceptedSinceClear(cfg, calls, ip))
  {
    var n, t := cfg.max, Max(0.0, cfg.lockout);
    calls := Burst(ip, n + 1) + [Attempt(ip, t)];
    BurstTrips(cfg, ip);
    assert calls[..n + 1] == Burst(ip, n + 1);
    assert Check(cfg, After(cfg, Burst(ip, n + 1)), ip, t).1 == Accepted;
    var accepted := AcceptedSinceClear(cfg, calls, ip);
    assert accepted == Zeros(n) + [t];
    assert accepted[n] - accepted[0] < cfg.window;
  }

  lemma {:induction false} AcceptedRising(cfg: Config, calls: seq<Call>, ip: string)
    requires Monotonic(calls)
    ensures var a := AcceptedSinceClear(cfg, calls, ip);
            Rising(a) && (cfg.max <= 0 ==> a == []) && forall i :: 0 <= i < |a| ==> IsAttemptTime(calls, a[i])
  {
    if calls != [] {
      var before := calls[..|calls| - 1];
      AcceptedRising(cfg, before, ip);
      var a, b := AcceptedSinceClear(cfg, before, ip), AcceptedSinceClear(cfg, calls, ip);
      forall i | 0 <= i < |a| ensures IsAttemptTime(calls, a[i]) && a[i] <= Ceiling(calls, a[i]) {
        AttemptBefore(calls, a[i]);
      }
      if |b| > |a| { assert b == a + [calls[|calls| - 1].now]; assert calls[|calls| - 1].Attempt?; }
    }
  }

  predicate IsAttemptTime(calls: seq<Call>, t: real) {
    exists k :: 0 <= k < |calls| && calls[k].Attempt? && calls[k].now == t
  }

  /** The time of the last call, if it was an attempt. */
  function Ceiling(calls: seq<Call>, t: real): real {
    if calls != [] && calls[|calls| - 1].Attempt? then calls[|calls| - 1].now else t
  }

  lemma AttemptBefore(calls: seq<Call>, t: real)
    requires calls != [] && Monotonic(calls) && IsAttemptTime(calls[..|calls| - 1], t)
    ensures IsAttemptTime(calls, t) && t <= Ceiling(calls, t)
  {
    var before := calls[..|calls| - 1];
    var k :| 0 <= k < |before| && before[k].Attempt? && before[k].now == t;
    assert calls[k] == before[k];
  }

  /** The limiter keeps its promise in every history exactly when the lockout is at least the window,
      leaving aside configurations whose window is empty or that accept nothing. */
  lemma GuaranteeExactly(cfg: Config, ip: string)
    ensures (forall calls :: Monotonic(calls) ==> Spread(cfg, AcceptedSinceClear(cfg, calls, ip)))
            <==> cfg.lockout >= cfg.window || cfg.window <= 0.0 || cfg.max <= 0
  {
    if cfg.lockout >= cfg.window || cfg.window <= 0.0 || cfg.max <= 0 {
      forall calls | Monotonic(calls) ensures Spread(cfg, AcceptedSinceClear(cfg, calls, ip)) {
        if cfg.lockout >= cfg.window { WindowAlways(cfg, calls, ip); } else { AcceptedRising(cfg, calls, ip); }
      }
    } else {
      var calls := ShortLockoutAdmitsTooMany(cfg, ip);
    }
  }

  /** From the attempt that trips the limiter until the lockout expires, every attempt from that
      address is refused and changes nothing, and no attempt from elsewhere shortens the lock. */
  lemma {:induction false} LockHolds(cfg: Config, before: seq<Call>, ip: string, now: real, later: seq<Call>)
    requires Check(cfg, After(cfg, before), ip, now).1 == Tripped
    requires forall i :: 0 <= i < |later| ==>
             if later[i].Attempt? then later[i].now < now + cfg.lockout else later[i].ip != ip
    ensures LockOf(After(cfg, before + [Attempt(ip, now)] + later), ip) == now + cfg.lockout
    ensures AcceptedSinceClear(cfg, before + [Attempt(ip, now)] + later, ip) == AcceptedSinceClear(cfg, before, ip)
    ensures forall at :: at < now + cfg.lockout ==>
              var l := After(cfg, before + [Attempt(ip, now)] + later);
              Check(cfg, l, ip, at) == (l, StillLocked((now + cfg.lockout - at).Floor))
  {
    var calls := before + [Attempt(ip, now)] + later;
    if later == [] {
      assert calls[..|calls| - 1] == before;
    } else {
      var front := later[..|later| - 1];
      LockHolds(cfg, before, ip, now, front);
      assert calls[..|calls| - 1] == before + [Attempt(ip, now)] + front;
      var last := later[|later| - 1];
      if last.ip != ip {
        OtherAddressUntouched(cfg, After(cfg, calls[..|calls| - 1]), last.ip, if last.Attempt? then last.now
            else 0.0, ip);
      }
    }
  }

  /** An address that has tripped is never let in by what other addresses do, and the other way round:
      what one address may do depends on its own calls only. */
  lemma {:induction false} AddressesIndependent(cfg: Config, calls: seq<Call>, ip: string)
    ensures var own := OwnCalls(calls, ip);
            && AttemptsOf(After(cfg, calls), ip) == AttemptsOf(After(cfg, own), ip)
            && LockOf(After(cfg, calls), ip) == LockOf(After(cfg, own), ip)
  {
    if calls == [] {
    } else {
      var before, last := calls[..|calls| - 1], calls[|calls| - 1];
      AddressesIndependent(cfg, before, ip);
      var own := OwnCalls(before, ip);
      if last.ip == ip {
        assert (own + [last])[..|own + [last]| - 1] == own;
      } else {
        OtherAddressUntouched(cfg, After(cfg, before), last.ip, if last.Attempt? then last.now else 0.0, ip);
      }
    }
  }

  function OwnCalls(calls: seq<Call>, ip: string): seq<Call> {
    if calls == [] then []
    else
      var own := OwnCalls(calls[..|calls| - 1], ip);
      if calls[|calls| - 1].ip == ip then own + [calls[|calls| - 1]] else own
  }
}
