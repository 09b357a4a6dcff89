/**
 * Progressive account lockout over a store with expiry (auth/lockout.ts and the
 * in-memory store of transport/sessionStore.ts).
 *
 * One clock drives both: the store reads milliseconds, the lockout whole seconds.
 * Every operation is one atomic read-modify-write.
 */
module Lockout {
  import opened Prelude
  import opened Arithmetic

  datatype Config = Config(maxFailures: int, windowSeconds: int, baseLockSeconds: int, maxLockSeconds: int) {
    /** All settings at least one. The environment can break this: a fraction below one is floored to zero. */
    predicate Valid() {
      maxFailures >= 1 && windowSeconds >= 1 && baseLockSeconds >= 1 && maxLockSeconds >= 1
    }

    function TtlSeconds(): int {
      Max(windowSeconds, maxLockSeconds) + 60
    }

    /** The shortest lock that can be imposed. */
    function ShortestLock(): int {
      Min(baseLockSeconds, maxLockSeconds)
    }
  }

  datatype State = State(failures: int, firstFailureAt: int, lockedUntil: Option<int>, lockLevel: nat)

  datatype Entry = Entry(value: State, expiresAt: int)

  datatype Status = Locked(retryAfterSeconds: int) | Open(remainingAttempts: int)

  function Seconds(ms: int): int {
    ms / 1000
  }

  function LockDuration(cfg: Config, level: int): int {
    Min(cfg.maxLockSeconds, cfg.baseLockSeconds * Pow2(Max(0, level - 1)))
  }

  /** What the store returns: nothing once the entry has expired. */
  function View(e: Option<Entry>, ms: int): Option<State> {
    if e.Some? && e.value.expiresAt > ms then Some(e.value.value) else None
  }

  /** A deadline of zero counts as absent, as any falsy number does. */
  predicate LiveLock(s: Option<State>, now: int) {
    s.Some? && s.value.lockedUntil.Some? && s.value.lockedUntil.value != 0 && s.value.lockedUntil.value > now
  }

  function ActiveFailures(cfg: Config, s: Option<State>, now: int): int {
    if s.None? || now - s.value.firstFailureAt > cfg.windowSeconds then 0 else s.value.failures
  }

  function Inspect(cfg: Config, e: Option<Entry>, ms: int): Status {
    var s := View(e, ms);
    var now := Seconds(ms);
    if LiveLock(s, now) then Locked(s.value.lockedUntil.value - now)
    else Open(Max(0, cfg.maxFailures - ActiveFailures(cfg, s, now)))
  }

  /** The streak after one more counted failure, before the threshold is tested. */
  function Continue(cfg: Config, s: Option<State>, now: int): State {
    if s.Some? && now - s.value.firstFailureAt <= cfg.windowSeconds then
      s.value.(failures := s.value.failures + 1)
    else
      State(1, now, None, if s.Some? then s.value.lockLevel else 0)
  }

  function Trip(cfg: Config, next: State, now: int): State {
    State(0, now, Some(now + LockDuration(cfg, next.lockLevel + 1)), next.lockLevel + 1)
  }

  predicate Trips(cfg: Config, s: Option<State>, now: int) {
    !LiveLock(s, now) && Continue(cfg, s, now).failures >= cfg.maxFailures
  }

  function Fail(cfg: Config, e: Option<Entry>, ms: int): Option<Entry> {
    var s := View(e, ms);
    var now := Seconds(ms);
    if LiveLock(s, now) then e
    else
      var next := Continue(cfg, s, now);
      Some(Entry(if Trips(cfg, s, now) then Trip(cfg, next, now) else next, ms + 1000 * cfg.TtlSeconds()))
  }

  class AccountLockout {
    const cfg: Config
    var store: map<string, Entry>

    constructor (cfg: Config)
      ensures this.cfg == cfg && store == map[]
    {
      this.cfg := cfg;
      store := map[];
    }

    function Of(username: string): Option<Entry>
      reads this
    {
      if username in store then Some(store[username]) else None
    }

    method Check(username: string, ms: int) returns (r: Status)
      ensures r == Inspect(cfg, Of(username), ms)
    {
      var s := View(Of(username), ms);
      var now := Seconds(ms);
      if s.Some? && s.value.lockedUntil.Some? && s.value.lockedUntil.value != 0 && s.value.lockedUntil.value > now {
        return Locked(s.value.lockedUntil.value - now);
      }
      var failures := ActiveFailures(cfg, s, now);
      return Open(Max(0, cfg.maxFailures - failures));
    }

    method RecordFailure(username: string, ms: int) returns (r: Status)
      modifies this`store
      ensures Of(username) == Fail(cfg, old(Of(username)), ms)
      ensures forall u :: u != username ==> Of(u) == old(Of(u))
      ensures cfg.Valid() && ms >= 0 ==>
        match r {
          case Locked(s) => Inspect(cfg, Of(username), ms) == Locked(s)
          case Open(n) => n >= 1 && Inspect(cfg, Of(username), ms) == Open(n)
        }
    {
      var now := Seconds(ms);
      var prev := View(Of(username), ms);
      if LiveLock(prev, now) {
        return Locked(prev.value.lockedUntil.value - now);
      }
      var windowOpen := prev.Some? && now - prev.value.firstFailureAt <= cfg.windowSeconds;
      var next := if windowOpen then prev.value.(failures := prev.value.failures + 1)
                  else State(1, now, None, if prev.Some? then prev.value.lockLevel else 0);
      DurationBounds(cfg, next.lockLevel + 1);
      if next.failures >= cfg.maxFailures {
        next := next.(lockLevel := next.lockLevel + 1);
        var duration := LockDuration(cfg, next.lockLevel);
        next := next.(lockedUntil := Some(now + duration));
        next := next.(failures := 0);
        next := next.(firstFailureAt := now);
        store := store[username := Entry(next, ms + 1000 * cfg.TtlSeconds())];
        return Locked(duration);
      }
      store := store[username := Entry(next, ms + 1000 * cfg.TtlSeconds())];
      return Open(cfg.maxFailures - next.failures);
    }

    method RecordSuccess(username: string)
      modifies this`store
      ensures Of(username) == None
      ensures forall u :: u != username ==> Of(u) == old(Of(u))
    {
      store := store - {username};
    }
  }

  lemma DurationBounds(cfg: Config, level: int)
    ensures cfg.Valid() ==> 1 <= cfg.ShortestLock() <= LockDuration(cfg, level) <= cfg.maxLockSeconds
  {
    if cfg.Valid() {
      var p := Pow2(Max(0, level - 1));
      Scale(cfg.baseLockSeconds, 1, p);
    }
  }

  // ----- Runs of one username -----

  datatype Event = Failure(ms: int) | Success(ms: int) | Look(ms: int)

  predicate Clocked(from: int, run: seq<Event>) {
    && 0 <= from
    && (forall i :: 0 <= i < |run| ==> from <= run[i].ms)
    && (forall i, j :: 0 <= i < j < |run| ==> run[i].ms <= run[j].ms)
  }

  function Step(cfg: Config, e: Option<Entry>, ev: Event): Option<Entry> {
    match ev
    case Failure(ms) => Fail(cfg, e, ms)
    case Success(_) => None
    case Look(_) => e
  }

  function After(cfg: Config, e: Option<Entry>, run: seq<Event>): Option<Entry>
    decreases |run|
  {
    if run == [] then e else After(cfg, Step(cfg, e, run[0]), run[1..])
  }

  predicate Counted(e: Option<Entry>, ev: Event) {
    ev.Failure? && !LiveLock(View(e, ev.ms), Seconds(ev.ms))
  }

  /** Failures of the run that were not absorbed by a live lock, in the closed span [lo, hi] of seconds. */
  ghost function CountedIn(cfg: Config, e: Option<Entry>, run: seq<Event>, lo: int, hi: int): nat
    decreases |run|
  {
    if run == [] then 0
    else
      (if Counted(e, run[0]) && lo <= Seconds(run[0].ms) <= hi then 1 else 0)
      + CountedIn(cfg, Step(cfg, e, run[0]), run[1..], lo, hi)
  }

  ghost function SuccessesIn(run: seq<Event>, lo: int, hi: int): nat {
    if run == [] then 0
    else (if run[0].Success? && lo <= Seconds(run[0].ms) <= hi then 1 else 0) + SuccessesIn(run[1..], lo, hi)
  }

  /** What every reachable entry satisfies at millisecond `ms`. */
  ghost predicate Inv(cfg: Config, e: Option<Entry>, ms: int) {
    e.Some? ==>
      var s := e.value.value;
      var written := e.value.expiresAt - 1000 * cfg.TtlSeconds();
      && 0 <= s.failures < cfg.maxFailures && (s.failures == 0 ==> s.lockedUntil.Some?)
      && 0 <= s.firstFailureAt <= Seconds(written) && written <= ms
      && (s.lockedUntil.Some? ==>
            && s.firstFailureAt + cfg.ShortestLock() <= s.lockedUntil.value <= s.firstFailureAt + cfg.maxLockSeconds
            && (s.failures > 0 ==> s.lockedUntil.value <= Seconds(written)))
  }

  lemma StepInv(cfg: Config, e: Option<Entry>, before: int, ev: Event)
    requires cfg.Valid() && Inv(cfg, e, before) && 0 <= before <= ev.ms
    ensures Inv(cfg, Step(cfg, e, ev), ev.ms)
  {
    if ev.Failure? {
      var s := View(e, ev.ms);
      DurationBounds(cfg, Continue(cfg, s, Seconds(ev.ms)).lockLevel + 1);
    }
  }

  /** A visible entry is never gone before its window has lapsed and its lock has ended. */
  lemma ExpiredIsOver(cfg: Config, e: Option<Entry>, before: int, ms: int)
    requires cfg.Valid() && Inv(cfg, e, before) && before <= ms && e.Some? && View(e, ms) == None
    ensures Seconds(ms) > e.value.value.firstFailureAt + cfg.windowSeconds
    ensures e.value.value.lockedUntil.Some? ==> Seconds(ms) >= e.value.value.lockedUntil.value
  {
  }

  /** While a lock is live, failed logins and look-ups neither move its deadline nor lose it. */
  lemma {:induction false} LiveLockIsFixed(cfg: Config, e: Option<Entry>, before: int, run: seq<Event>, ms: int)
    requires cfg.Valid() && Inv(cfg, e, before) && Clocked(before, run) && before <= ms
    requires e.Some? && e.value.value.lockedUntil.Some?
    requires var until := e.value.value.lockedUntil.value;
             Seconds(ms) < until && forall i :: 0 <= i < |run| ==> !run[i].Success? && Seconds(run[i].ms) < until
    ensures After(cfg, e, run) == e
    ensures Inspect(cfg, e, ms) == Locked(e.value.value.lockedUntil.value - Seconds(ms))
  {
    if run != [] {
      assert Step(cfg, e, run[0]) == e;
      LiveLockIsFixed(cfg, e, before, run[1..], ms);
    }
  }

  lemma {:induction false} RunInv(cfg: Config, e: Option<Entry>, before: int, run: seq<Event>)
    requires cfg.Valid() && Inv(cfg, e, before) && Clocked(before, run)
    ensures Inv(cfg, After(cfg, e, run), if run == [] then before else run[|run| - 1].ms)
    decreases |run|
  {
    if run != [] {
      StepInv(cfg, e, before, run[0]);
      RunInv(cfg, Step(cfg, e, run[0]), run[0].ms, run[1..]);
    }
  }

  // ----- Progressive backoff -----

  /** No success, and every event still finds the entry that the previous one left. */
  predicate Unforgotten(cfg: Config, e: Option<Entry>, run: seq<Event>)
    decreases |run|
  {
    run != [] ==>
      && !run[0].Success?
      && (e.Some? ==> View(e, run[0].ms).Some?)
      && Unforgotten(cfg, Step(cfg, e, run[0]), run[1..])
  }

  function LocksIn(cfg: Config, e: Option<Entry>, run: seq<Event>): nat
    decreases |run|
  {
    if run == [] then 0
    else
      (if run[0].Failure? && Trips(cfg, View(e, run[0].ms), Seconds(run[0].ms)) then 1 else 0)
      + LocksIn(cfg, Step(cfg, e, run[0]), run[1..])
  }

  function Level(e: Option<Entry>): nat {
    if e.Some? then e.value.value.lockLevel else 0
  }

  lemma {:induction false} LevelCountsLocks(cfg: Config, e: Option<Entry>, run: seq<Event>)
    requires Unforgotten(cfg, e, run)
    ensures Level(After(cfg, e, run)) == Level(e) + LocksIn(cfg, e, run)
    decreases |run|
  {
    if run != [] {
      LevelCountsLocks(cfg, Step(cfg, e, run[0]), run[1..]);
    }
  }

  /** After `k` locks the next one lasts base * 2^k seconds, capped, whatever happened in between. */
  lemma NextLockDoubles(cfg: Config, run: seq<Event>, ms: int)
    requires cfg.Valid() && Unforgotten(cfg, None, run)
    requires var e := After(cfg, None, run);
             (e.Some? ==> View(e, ms).Some?) && Trips(cfg, View(e, ms), Seconds(ms))
    ensures Fail(cfg, After(cfg, None, run), ms).value.value.lockedUntil ==
      Some(Seconds(ms) + Min(cfg.maxLockSeconds, cfg.baseLockSeconds * Pow2(LocksIn(cfg, None, run))))
  {
    LevelCountsLocks(cfg, None, run);
  }

  // ----- The amortised bound -----

  /** No lock can be tripped before this second. */
  ghost function EarliestTrip(cfg: Config, e: Option<Entry>, now: int): int {
    if e.Some? && e.value.value.lockedUntil.Some? then Max(now, e.value.value.firstFailureAt + cfg.ShortestLock())
    else now
  }

  /** The streak cannot lapse before this second plus the window. */
  ghost function StreakStart(cfg: Config, e: Option<Entry>, now: int, lo: int): int {
    if e.Some? then Max(e.value.value.firstFailureAt, lo - cfg.windowSeconds - 1) else now
  }

  ghost function Streak(e: Option<Entry>): int {
    if e.Some? then e.value.value.failures else 0
  }

  /** How many intervals of length `d` fit in `x`; minus one when `x` is negative. */
  ghost function Fit(x: int, d: int): (n: int)
    requires d > 0
    ensures n >= -1 && (x >= 0 ==> n >= 0)
    decreases if x < 0 then 0 else x + 1
  {
    if x < 0 then -1 else 1 + Fit(x - d, d)
  }

  /** Whole streaks still possible: one running, one per lock that fits and one per window that fits. */
  ghost function Streaks(cfg: Config, e: Option<Entry>, now: int, lo: int, hi: int): int
    requires cfg.Valid()
  {
    1 + Fit(hi - EarliestTrip(cfg, e, now), cfg.ShortestLock())
      + Fit(hi - StreakStart(cfg, e, now, lo), cfg.windowSeconds + 1)
  }

  /** The failures that can still be counted in [lo, hi] when no success intervenes. */
  ghost function Credit(cfg: Config, e: Option<Entry>, now: int, lo: int, hi: int): int
    requires cfg.Valid()
  {
    cfg.maxFailures * Streaks(cfg, e, now, lo, hi) - Streak(e)
  }

  lemma {:induction false} FitMono(x: int, y: int, d: int)
    requires d > 0 && x <= y
    ensures Fit(x, d) <= Fit(y, d)
    decreases if y < 0 then 0 else y + 1
  {
    if x >= 0 {
      FitMono(x - d, y - d, d);
    }
  }

  lemma {:induction false} FitIsQuotient(x: int, d: int)
    requires d > 0 && x >= 0
    ensures Fit(x, d) == x / d
    decreases x
  {
    QuotientStep(x, d);
    if x >= d {
      FitIsQuotient(x - d, d);
    }
  }

  lemma QuotientStep(x: int, d: int)
    requires d > 0 && x >= 0
    ensures x < d ==> x / d == 0
    ensures x >= d ==> x / d == (x - d) / d + 1
  {
    if x >= d {
      var q, r := (x - d) / d, (x - d) % d;
      assert x == d * (q + 1) + r;
      QuotientUnique(x, d, q + 1, r);
    } else {
      QuotientUnique(x, d, 0, x);
    }
  }

  lemma CreditNonnegative(cfg: Config, e: Option<Entry>, ms: int, lo: int, hi: int)
    requires cfg.Valid() && Inv(cfg, e, ms) && lo <= Seconds(ms) <= hi
    ensures Credit(cfg, e, Seconds(ms), lo, hi) >= 0
  {
    var n := Streaks(cfg, e, Seconds(ms), lo, hi);
    if EarliestTrip(cfg, e, Seconds(ms)) <= Seconds(ms) {
      Scale(cfg.maxFailures, 1, n);
    } else {
      Scale(cfg.maxFailures, 0, n);
    }
  }

  /** Waiting or being blocked never adds credit. */
  lemma CreditOnIdle(cfg: Config, e: Option<Entry>, now: int, later: int, lo: int, hi: int)
    requires cfg.Valid() && now <= later
    ensures Credit(cfg, e, later, lo, hi) <= Credit(cfg, e, now, lo, hi)
  {
    FitMono(hi - EarliestTrip(cfg, e, later), hi - EarliestTrip(cfg, e, now), cfg.ShortestLock());
    FitMono(hi - StreakStart(cfg, e, later, lo), hi - StreakStart(cfg, e, now, lo), cfg.windowSeconds + 1);
    Scale(cfg.maxFailures, Streaks(cfg, e, later, lo, hi), Streaks(cfg, e, now, lo, hi));
  }

  /** A trip needs a free lock interval and a lapse a free window: either buys a new streak. */
  lemma StreaksOnCounted(cfg: Config, e: Option<Entry>, before: int, ev: Event, lo: int, hi: int)
    requires cfg.Valid() && Inv(cfg, e, before) && 0 <= before <= ev.ms
    requires Counted(e, ev) && lo <= Seconds(before) && Seconds(ev.ms) <= hi
    ensures var s := View(e, ev.ms);
            var now := Seconds(ev.ms);
            var e' := Step(cfg, e, ev);
            var n, n' := Streaks(cfg, e, Seconds(before), lo, hi), Streaks(cfg, e', now, lo, hi);
            && n' <= n
            && (Trips(cfg, s, now) ==> n' <= n - 1)
            && (e.Some? && (s.None? || now - s.value.firstFailureAt > cfg.windowSeconds) ==> n' <= n - 1)
  {
    hide LockDuration, Fit, Level;
    var since, now := Seconds(before), Seconds(ev.ms);
    var s := View(e, ev.ms);
    var e' := Step(cfg, e, ev);
    DurationBounds(cfg, Continue(cfg, s, now).lockLevel + 1);
    if e.Some? && s == None {
      ExpiredIsOver(cfg, e, before, ev.ms);
    }
    TripsFit(cfg, EarliestTrip(cfg, e, since), EarliestTrip(cfg, e', now), now, Trips(cfg, s, now), hi);
    LapsesFit(cfg, StreakStart(cfg, e, since, lo), StreakStart(cfg, e', now, lo), hi,
              e.Some? && (s.None? || now - s.value.firstFailureAt > cfg.windowSeconds));
  }

  lemma TripsFit(cfg: Config, trip: int, trip': int, now: int, tripped: bool, hi: int)
    requires cfg.Valid() && trip <= now <= hi && trip <= trip' && (tripped ==> trip' == now + cfg.ShortestLock())
    ensures Fit(hi - trip', cfg.ShortestLock()) <= Fit(hi - trip, cfg.ShortestLock())
    ensures tripped ==> Fit(hi - trip', cfg.ShortestLock()) <= Fit(hi - trip, cfg.ShortestLock()) - 1
  {
    if tripped {
      FitMono(hi - now, hi - trip, cfg.ShortestLock());
    } else {
      FitMono(hi - trip', hi - trip, cfg.ShortestLock());
    }
  }

  lemma LapsesFit(cfg: Config, start: int, start': int, hi: int, lapsed: bool)
    requires cfg.Valid() && start <= start' <= hi && (lapsed ==> start' >= start + cfg.windowSeconds + 1)
    ensures Fit(hi - start', cfg.windowSeconds + 1) <= Fit(hi - start, cfg.windowSeconds + 1)
    ensures lapsed ==> Fit(hi - start', cfg.windowSeconds + 1) <= Fit(hi - start, cfg.windowSeconds + 1) - 1
  {
    var w := cfg.windowSeconds + 1;
    if lapsed {
      FitMono(hi - start', hi - start - w, w);
    } else {
      FitMono(hi - start', hi - start, w);
    }
  }

  /** Every counted failure spends one unit of credit. */
  lemma CreditOnCounted(cfg: Config, e: Option<Entry>, before: int, ev: Event, lo: int, hi: int)
    requires cfg.Valid() && Inv(cfg, e, before) && 0 <= before <= ev.ms
    requires Counted(e, ev) && lo <= Seconds(before) && Seconds(ev.ms) <= hi
    ensures Credit(cfg, Step(cfg, e, ev), Seconds(ev.ms), lo, hi) + 1 <= Credit(cfg, e, Seconds(before), lo, hi)
  {
    var now := Seconds(ev.ms);
    var s := View(e, ev.ms);
    var n, n' := Streaks(cfg, e, Seconds(before), lo, hi), Streaks(cfg, Step(cfg, e, ev), now, lo, hi);
    StreaksOnCounted(cfg, e, before, ev, lo, hi);
    Spend(cfg.maxFailures, n', n);
    var f, f' := Streak(e), Streak(Step(cfg, e, ev));
    assert (f' == f + 1) || (n' < n && f' <= 1);
  }

  lemma Spend(m: int, a: int, b: int)
    requires m >= 1 && a <= b
    ensures m * a <= m * b
    ensures a < b ==> m * a + m <= m * b
  {
    Scale(m, a, b);
    if a < b {
      Scale(m, a + 1, b);
      assert m * (a + 1) == m * a + m;
    }
  }

  /** A successful login buys back at most one streak. */
  lemma CreditOnSuccess(cfg: Config, e: Option<Entry>, before: int, ms: int, lo: int, hi: int)
    requires cfg.Valid() && Inv(cfg, e, before) && 0 <= before <= ms && lo <= Seconds(before)
    ensures Credit(cfg, None, Seconds(ms), lo, hi) <= Credit(cfg, e, Seconds(before), lo, hi) + cfg.maxFailures
  {
    var since, now := Seconds(before), Seconds(ms);
    var m := cfg.ShortestLock();
    var trip := EarliestTrip(cfg, e, since);
    var n, n' := Streaks(cfg, e, since, lo, hi), Streaks(cfg, None, now, lo, hi);
    FitMono(hi - now, hi - StreakStart(cfg, e, since, lo), cfg.windowSeconds + 1);
    if trip <= now {
      FitMono(hi - now, hi - trip, m);
    } else {
      assert trip <= now + m;
      FitMono(hi - now - m, hi - trip, m);
    }
    assert n' <= n + 1 && (Streak(e) > 0 ==> n' <= n);
    BuyBack(cfg.maxFailures, n', n);
  }

  lemma BuyBack(m: int, a: int, b: int)
    requires m >= 1 && a <= b + 1
    ensures m * a <= m * b + m
    ensures a <= b ==> m * a <= m * b
  {
    Scale(m, a, b + 1);
    assert m * (b + 1) == m * b + m;
    if a <= b {
      Scale(m, a, b);
    }
  }

  lemma {:induction false} NothingAfter(cfg: Config, e: Option<Entry>, from: int, run: seq<Event>, lo: int, hi: int)
    requires Clocked(from, run) && Seconds(from) > hi
    ensures CountedIn(cfg, e, run, lo, hi) == 0
    decreases |run|
  {
    if run != [] {
      NothingAfter(cfg, Step(cfg, e, run[0]), from, run[1..], lo, hi);
    }
  }

  /** One streak for each success of the run in [lo, hi]. */
  ghost function Bought(cfg: Config, run: seq<Event>, lo: int, hi: int): int {
    if run == [] then 0
    else
      (if run[0].Success? && lo <= Seconds(run[0].ms) <= hi then cfg.maxFailures else 0)
      + Bought(cfg, run[1..], lo, hi)
  }

  lemma {:induction false} BoughtIsProduct(cfg: Config, run: seq<Event>, lo: int, hi: int)
    requires cfg.Valid()
    ensures Bought(cfg, run, lo, hi) == cfg.maxFailures * SuccessesIn(run, lo, hi) >= 0
  {
    if run != [] {
      BoughtIsProduct(cfg, run[1..], lo, hi);
      Distribute(cfg.maxFailures, 1, SuccessesIn(run[1..], lo, hi));
    }
  }

  lemma {:induction false} CreditCovers(cfg: Config, e: Option<Entry>, before: int, run: seq<Event>, lo: int, hi: int)
    requires cfg.Valid() && Inv(cfg, e, before) && Clocked(before, run) && lo <= Seconds(before) <= hi
    ensures CountedIn(cfg, e, run, lo, hi)
         <= Credit(cfg, e, Seconds(before), lo, hi) + Bought(cfg, run, lo, hi)
    decreases |run|
  {
    CreditNonnegative(cfg, e, before, lo, hi);
    BoughtIsProduct(cfg, run, lo, hi);
    if run != [] && Seconds(run[0].ms) > hi {
      NothingAfter(cfg, e, run[0].ms, run, lo, hi);
    } else if run != [] {
      var ev := run[0];
      StepInv(cfg, e, before, ev);
      CreditCovers(cfg, Step(cfg, e, ev), ev.ms, run[1..], lo, hi);
      CreditStep(cfg, e, before, ev, lo, hi);
    }
  }

  /** Each event moves the credit by at most what it counts or buys. */
  lemma CreditStep(cfg: Config, e: Option<Entry>, before: int, ev: Event, lo: int, hi: int)
    requires cfg.Valid() && Inv(cfg, e, before) && 0 <= before <= ev.ms
    requires lo <= Seconds(before) && Seconds(ev.ms) <= hi
    ensures Credit(cfg, Step(cfg, e, ev), Seconds(ev.ms), lo, hi) + (if Counted(e, ev) then 1 else 0)
         <= Credit(cfg, e, Seconds(before), lo, hi) + (if ev.Success? then cfg.maxFailures else 0)
  {
    if Counted(e, ev) {
      CreditOnCounted(cfg, e, before, ev, lo, hi);
    } else if ev.Success? {
      CreditOnSuccess(cfg, e, before, ev.ms, lo, hi);
    } else {
      CreditOnIdle(cfg, e, Seconds(before), Seconds(ev.ms), lo, hi);
    }
  }

  lemma {:induction false} FailureCredit(cfg: Config, e: Option<Entry>, before: int, run: seq<Event>, lo: int, hi: int)
    requires cfg.Valid() && Inv(cfg, e, before) && Clocked(before, run) && 0 <= lo <= hi
    ensures CountedIn(cfg, e, run, lo, hi) <= cfg.maxFailures * SuccessesIn(run, lo, hi) +
      cfg.maxFailures * (2 + Fit(hi - lo, cfg.ShortestLock()) + Fit(hi - lo, cfg.windowSeconds + 1))
    decreases |run|
  {
    if run != [] && Seconds(run[0].ms) < lo {
      StepInv(cfg, e, before, run[0]);
      FailureCredit(cfg, Step(cfg, e, run[0]), run[0].ms, run[1..], lo, hi);
    } else {
      var from := Max(before, 1000 * lo);
      if Seconds(from) > hi {
        NothingAfter(cfg, e, before, run, lo, hi);
        Scale(cfg.maxFailures, 0, 2 + Fit(hi - lo, cfg.ShortestLock()) + Fit(hi - lo, cfg.windowSeconds + 1));
        BoughtIsProduct(cfg, run, lo, hi);
      } else {
        CreditCovers(cfg, e, from, run, lo, hi);
        BoughtIsProduct(cfg, run, lo, hi);
        InitialCredit(cfg, e, from, lo, hi);
      }
    }
  }

  lemma InitialCredit(cfg: Config, e: Option<Entry>, from: int, lo: int, hi: int)
    requires cfg.Valid() && Inv(cfg, e, from) && lo <= Seconds(from)
    ensures Credit(cfg, e, Seconds(from), lo, hi) <=
      cfg.maxFailures * (2 + Fit(hi - lo, cfg.ShortestLock()) + Fit(hi - lo, cfg.windowSeconds + 1))
  {
    var m, w := cfg.ShortestLock(), cfg.windowSeconds + 1;
    var now := Seconds(from);
    FitMono(hi - EarliestTrip(cfg, e, now), hi - lo, m);
    FitMono(hi - StreakStart(cfg, e, now, lo), hi - lo + w, w);
    Scale(cfg.maxFailures, Streaks(cfg, e, now, lo, hi), 2 + Fit(hi - lo, m) + Fit(hi - lo, w));
  }

  /**
   * Over any run, any closed span of `d` seconds counts at most
   * maxFailures * (2 + successes + d / shortest lock + d / (window + 1)) failures.
   */
  lemma FailureBound(cfg: Config, e: Option<Entry>, before: int, run: seq<Event>, lo: nat, d: nat)
    requires cfg.Valid() && Inv(cfg, e, before) && Clocked(before, run)
    ensures CountedIn(cfg, e, run, lo, lo + d) <=
      cfg.maxFailures * (2 + SuccessesIn(run, lo, lo + d) + d / cfg.ShortestLock() + d / (cfg.windowSeconds + 1))
  {
    FailureCredit(cfg, e, before, run, lo, lo + d);
    FitIsQuotient(d, cfg.ShortestLock());
    FitIsQuotient(d, cfg.windowSeconds + 1);
    Distribute(cfg.maxFailures, SuccessesIn(run, lo, lo + d),
               2 + d / cfg.ShortestLock() + d / (cfg.windowSeconds + 1));
  }

  // ----- What a look-up announces -----

  function Burst(ms: int, n: nat): seq<Event> {
    if n == 0 then [] else [Failure(ms)] + Burst(ms, n - 1)
  }

  /** Any failure below the announced number leaves one attempt less, and the last one locks. */
  lemma OneAttemptLess(cfg: Config, e: Option<Entry>, before: int, ms: int, n: int)
    requires cfg.Valid() && Inv(cfg, e, before) && 0 <= before <= ms && Inspect(cfg, e, ms) == Open(n)
    ensures n >= 1 && (Trips(cfg, View(e, ms), Seconds(ms)) <==> n == 1)
    ensures n > 1 ==> Inspect(cfg, Fail(cfg, e, ms), ms) == Open(n - 1)
  {
  }

  lemma {:induction false} AttemptsUsed(cfg: Config, e: Option<Entry>, before: int, ms: int, n: int, k: nat)
    requires cfg.Valid() && Inv(cfg, e, before) && 0 <= before <= ms && Inspect(cfg, e, ms) == Open(n) && k <= n
    ensures LocksIn(cfg, e, Burst(ms, k)) == if k < n then 0 else 1
    decreases k
  {
    hide Inv, Inspect, Fail, Trips, View;
    OneAttemptLess(cfg, e, before, ms, n);
    if k > 0 {
      StepInv(cfg, e, before, Failure(ms));
      assert Burst(ms, k)[0] == Failure(ms) && Burst(ms, k)[1..] == Burst(ms, k - 1);
      if n > 1 {
        AttemptsUsed(cfg, Fail(cfg, e, ms), ms, ms, n - 1, k - 1);
      } else {
        assert Burst(ms, k - 1) == [] && LocksIn(cfg, Step(cfg, e, Failure(ms)), []) == 0;
      }
    }
  }

  /** The attempts left are those that impose no lock but for the last: one less is harmless, all of them lock. */
  lemma AttemptsLeftExact(cfg: Config, e: Option<Entry>, before: int, ms: int, n: int)
    requires cfg.Valid() && Inv(cfg, e, before) && 0 <= before <= ms && Inspect(cfg, e, ms) == Open(n)
    ensures n >= 1
    ensures LocksIn(cfg, e, Burst(ms, n - 1)) == 0 && LocksIn(cfg, e, Burst(ms, n)) == 1
  {
    hide *;
    OneAttemptLess(cfg, e, before, ms, n);
    AttemptsUsed(cfg, e, before, ms, n, n - 1);
    AttemptsUsed(cfg, e, before, ms, n, n);
  }

  /** The seconds announced by a lock are those during which failures are not counted. */
  lemma RetryAfterLockExact(cfg: Config, e: Option<Entry>, before: int, ms: int, seconds: int, later: int)
    requires cfg.Valid() && Inv(cfg, e, before) && 0 <= before <= ms <= later && Inspect(cfg, e, ms) == Locked(seconds)
    ensures seconds > 0 && (Counted(e, Failure(later)) <==> Seconds(later) >= Seconds(ms) + seconds)
  {
    if View(e, later).None? {
      ExpiredIsOver(cfg, e, before, later);
    }
  }

  /** The store keeps what a counted failure wrote for the longer of window and longest lock, and one minute more. */
  lemma KeptExactly(cfg: Config, e: Option<Entry>, ms: int, later: int)
    requires cfg.Valid() && Counted(e, Failure(ms))
    ensures View(Step(cfg, e, Failure(ms)), later).Some? <==>
            later < ms + 1000 * Max(cfg.windowSeconds, cfg.maxLockSeconds) + 60_000
  {
  }

  // ----- The window tumbles -----

  /** In the span no login succeeds and no failure trips a lock. */
  ghost predicate Quiet(cfg: Config, e: Option<Entry>, run: seq<Event>, lo: int, hi: int)
    decreases |run|
  {
    run == [] ||
    (&& (lo <= Seconds(run[0].ms) <= hi ==>
           !run[0].Success? && (run[0].Failure? ==> !Trips(cfg, View(e, run[0].ms), Seconds(run[0].ms))))
     && Quiet(cfg, Step(cfg, e, run[0]), run[1..], lo, hi))
  }

  /** A streak that began in the span cannot lapse in it. */
  lemma {:induction false} OneStreak(cfg: Config, e: Option<Entry>, before: int, run: seq<Event>, lo: int, hi: int)
    requires cfg.Valid() && Inv(cfg, e, before) && Clocked(before, run) && hi - lo <= cfg.windowSeconds
    requires e.Some? && e.value.value.firstFailureAt >= lo && Quiet(cfg, e, run, lo, hi)
    ensures CountedIn(cfg, e, run, lo, hi) <= cfg.maxFailures - 1 - Streak(e)
    decreases |run|
  {
    if run != [] {
      hide LockDuration;
      var ev := run[0];
      if Seconds(ev.ms) > hi {
        NothingAfter(cfg, e, ev.ms, run, lo, hi);
      } else {
        StepInv(cfg, e, before, ev);
        if View(e, ev.ms).None? {
          ExpiredIsOver(cfg, e, before, ev.ms);
        }
        OneStreak(cfg, Step(cfg, e, ev), ev.ms, run[1..], lo, hi);
      }
    }
  }

  /** Once the span has begun, the running streak and one more can count in it. */
  lemma {:induction false} TwoStreaks(cfg: Config, e: Option<Entry>, before: int, run: seq<Event>, lo: int, hi: int)
    requires cfg.Valid() && Inv(cfg, e, before) && Clocked(before, run) && hi - lo <= cfg.windowSeconds
    requires lo <= Seconds(before) && Quiet(cfg, e, run, lo, hi)
    ensures CountedIn(cfg, e, run, lo, hi) <= 2 * (cfg.maxFailures - 1) - Streak(e)
    decreases |run|
  {
    if run != [] {
      hide LockDuration;
      var ev := run[0];
      if Seconds(ev.ms) > hi {
        NothingAfter(cfg, e, ev.ms, run, lo, hi);
      } else {
        var e' := Step(cfg, e, ev);
        StepInv(cfg, e, before, ev);
        if e'.Some? && e'.value.value.firstFailureAt >= lo {
          OneStreak(cfg, e', ev.ms, run[1..], lo, hi);
        } else {
          TwoStreaks(cfg, e', ev.ms, run[1..], lo, hi);
        }
      }
    }
  }

  /** A lock longer than the window leaves no streak to continue when it ends. */
  lemma {:induction false} NewStreak(cfg: Config, e: Option<Entry>, before: int, run: seq<Event>, lo: int, hi: int)
    requires cfg.Valid() && Inv(cfg, e, before) && Clocked(before, run) && hi - lo <= cfg.windowSeconds
    requires lo <= Seconds(before) && Quiet(cfg, e, run, lo, hi)
    requires Streak(e) == 0 && cfg.ShortestLock() > cfg.windowSeconds
    ensures CountedIn(cfg, e, run, lo, hi) <= cfg.maxFailures - 1
    decreases |run|
  {
    if run != [] {
      hide LockDuration;
      var ev := run[0];
      if Seconds(ev.ms) > hi {
        NothingAfter(cfg, e, ev.ms, run, lo, hi);
      } else {
        StepInv(cfg, e, before, ev);
        if Counted(e, ev) {
          OneStreak(cfg, Step(cfg, e, ev), ev.ms, run[1..], lo, hi);
        } else {
          NewStreak(cfg, Step(cfg, e, ev), ev.ms, run[1..], lo, hi);
        }
      }
    }
  }

  /** The most failures that a quiet span of the length of the window can count. */
  function QuietCap(cfg: Config): int
    requires cfg.Valid()
  {
    if cfg.maxFailures == 1 then 0
    else if cfg.ShortestLock() <= cfg.windowSeconds then 2 * cfg.maxFailures - 2
    else 2 * cfg.maxFailures - 3
  }

  /**
   * A failure count is kept per streak, not per window: without a lock or a success in it, a
   * span of the length of the window counts up to twice as many failures as one streak may
   * have, and one less if no lock ends within the window.
   */
  lemma {:induction false} QuietSpanBound(
      cfg: Config, e: Option<Entry>, before: int, run: seq<Event>, lo: int, hi: int)
    requires cfg.Valid() && Inv(cfg, e, before) && Clocked(before, run) && hi - lo <= cfg.windowSeconds
    requires Quiet(cfg, e, run, lo, hi)
    ensures CountedIn(cfg, e, run, lo, hi) <= QuietCap(cfg)
    decreases |run|
  {
    if run != [] {
      hide Inv, Step, Quiet, CountedIn, Config.ShortestLock;
      var ev := run[0];
      if Seconds(ev.ms) < lo {
        QuietLater(cfg, e, before, run, lo, hi);
        QuietSpanBound(cfg, Step(cfg, e, ev), ev.ms, run[1..], lo, hi);
      } else {
        QuietFrom(cfg, e, before, run, lo, hi);
      }
    } else {
      assert CountedIn(cfg, e, run, lo, hi) == 0;
    }
  }

  lemma QuietLater(cfg: Config, e: Option<Entry>, before: int, run: seq<Event>, lo: int, hi: int)
    requires cfg.Valid() && Inv(cfg, e, before) && Clocked(before, run) && Quiet(cfg, e, run, lo, hi)
    requires run != [] && Seconds(run[0].ms) < lo
    ensures var e' := Step(cfg, e, run[0]);
            && Inv(cfg, e', run[0].ms) && Clocked(run[0].ms, run[1..]) && Quiet(cfg, e', run[1..], lo, hi)
            && CountedIn(cfg, e, run, lo, hi) == CountedIn(cfg, e', run[1..], lo, hi)
  {
    hide Inv, Step;
    StepInv(cfg, e, before, run[0]);
  }

  lemma QuietFrom(cfg: Config, e: Option<Entry>, before: int, run: seq<Event>, lo: int, hi: int)
    requires cfg.Valid() && Inv(cfg, e, before) && Clocked(before, run) && hi - lo <= cfg.windowSeconds
    requires Quiet(cfg, e, run, lo, hi) && run != [] && Seconds(run[0].ms) >= lo
    ensures CountedIn(cfg, e, run, lo, hi) <= QuietCap(cfg)
  {
    hide Step, Quiet, CountedIn, Config.ShortestLock;
    var now := run[0].ms;
    TwoStreaks(cfg, e, now, run, lo, hi);
    if Streak(e) == 0 && cfg.ShortestLock() > cfg.windowSeconds {
      NewStreak(cfg, e, now, run, lo, hi);
    }
  }

  lemma CountFirst(cfg: Config, e: Option<Entry>, ev: Event, rest: seq<Event>, lo: int, hi: int)
    ensures CountedIn(cfg, e, [ev] + rest, lo, hi)
         == (if Counted(e, ev) && lo <= Seconds(ev.ms) <= hi then 1 else 0)
            + CountedIn(cfg, Step(cfg, e, ev), rest, lo, hi)
    ensures Quiet(cfg, e, [ev] + rest, lo, hi) <==>
            && (lo <= Seconds(ev.ms) <= hi ==>
                  !ev.Success? && (ev.Failure? ==> !Trips(cfg, View(e, ev.ms), Seconds(ev.ms))))
            && Quiet(cfg, Step(cfg, e, ev), rest, lo, hi)
  {
    hide Step, Counted, Trips, View;
    assert ([ev] + rest)[1..] == rest;
  }

  /** A counted failure below the threshold raises the count of its streak. */
  lemma Raises(cfg: Config, s: State, expiresAt: int, ms: int)
    requires cfg.Valid() && s.failures + 1 < cfg.maxFailures && expiresAt > ms
    requires !LiveLock(Some(s), Seconds(ms)) && Seconds(ms) - s.firstFailureAt <= cfg.windowSeconds
    ensures var e := Some(Entry(s, expiresAt));
            && Counted(e, Failure(ms)) && !Trips(cfg, View(e, ms), Seconds(ms))
            && Step(cfg, e, Failure(ms)) == Some(Entry(s.(failures := s.failures + 1), ms + 1000 * cfg.TtlSeconds()))
  {
  }

  lemma TtlPositive(cfg: Config)
    requires cfg.Valid()
    ensures cfg.TtlSeconds() >= cfg.windowSeconds + 60 && cfg.TtlSeconds() >= cfg.ShortestLock() + 60
  {
  }

  /** A burst of failures that stays below the threshold only raises the count of its streak. */
  lemma {:induction false} BurstFills(
      cfg: Config, s: State, expiresAt: int, ms: int, n: nat, rest: seq<Event>, lo: int, hi: int)
    requires cfg.Valid() && s.failures + n < cfg.maxFailures && expiresAt > ms
    requires !LiveLock(Some(s), Seconds(ms)) && Seconds(ms) - s.firstFailureAt <= cfg.windowSeconds
    ensures var e := Some(Entry(s, expiresAt));
            var e' := if n == 0 then e else Some(Entry(s.(failures := s.failures + n), ms + 1000 * cfg.TtlSeconds()));
            && CountedIn(cfg, e, Burst(ms, n) + rest, lo, hi)
               == (if lo <= Seconds(ms) <= hi then n else 0) + CountedIn(cfg, e', rest, lo, hi)
            && (Quiet(cfg, e, Burst(ms, n) + rest, lo, hi) <==> Quiet(cfg, e', rest, lo, hi))
    decreases n
  {
    hide CountedIn, Quiet, Step, Trips, Counted, Seconds, Config.TtlSeconds;
    if n == 0 {
      assert Burst(ms, n) + rest == rest;
    } else {
      var tail := Burst(ms, n - 1) + rest;
      assert Burst(ms, n) + rest == [Failure(ms)] + tail;
      Raises(cfg, s, expiresAt, ms);
      TtlPositive(cfg);
      CountFirst(cfg, Some(Entry(s, expiresAt)), Failure(ms), tail, lo, hi);
      BurstFills(cfg, s.(failures := s.failures + 1), ms + 1000 * cfg.TtlSeconds(), ms, n - 1, rest, lo, hi);
    }
  }

  /**
   * A streak that opens with a lock, if one can end within the window, and else with a failure;
   * then just too few failures for a lock at the end of its window, and again after it.
   */
  function Straddling(cfg: Config): seq<Event>
    requires cfg.Valid() && cfg.maxFailures >= 2
  {
    var first := if cfg.ShortestLock() <= cfg.windowSeconds then cfg.maxFailures else 1;
    Burst(0, first)
    + (Burst(1000 * cfg.windowSeconds, QuietCap(cfg) - (cfg.maxFailures - 1))
       + Burst(1000 * (cfg.windowSeconds + 1), cfg.maxFailures - 1))
  }

  lemma {:induction false} BurstClocked(ms: int, n: nat)
    ensures |Burst(ms, n)| == n && forall i :: 0 <= i < n ==> Burst(ms, n)[i] == Failure(ms)
  {
    if n > 0 {
      BurstClocked(ms, n - 1);
    }
  }

  lemma FirstFailure(cfg: Config)
    requires cfg.Valid() && cfg.maxFailures >= 2
    ensures Step(cfg, None, Failure(0)) == Some(Entry(State(1, 0, None, 0), 1000 * cfg.TtlSeconds()))
  {
  }

  lemma TrippingFailure(cfg: Config)
    requires cfg.Valid() && cfg.maxFailures >= 2
    ensures var e := Some(Entry(State(cfg.maxFailures - 1, 0, None, 0), 1000 * cfg.TtlSeconds()));
            Step(cfg, e, Failure(0)) == Some(Entry(State(0, 0, Some(cfg.ShortestLock()), 1), 1000 * cfg.TtlSeconds()))
  {
    assert Pow2(0) == 1;
  }

  /** The first lock, and what is counted afterwards. */
  lemma FirstLock(cfg: Config, rest: seq<Event>, lo: int, hi: int)
    requires cfg.Valid() && cfg.maxFailures >= 2 && lo > 0
    ensures var e := Some(Entry(State(0, 0, Some(cfg.ShortestLock()), 1), 1000 * cfg.TtlSeconds()));
            && CountedIn(cfg, None, Burst(0, cfg.maxFailures) + rest, lo, hi) == CountedIn(cfg, e, rest, lo, hi)
            && (Quiet(cfg, None, Burst(0, cfg.maxFailures) + rest, lo, hi) <==> Quiet(cfg, e, rest, lo, hi))
  {
    hide CountedIn, Quiet, Step, Trips, Counted, Burst, Config.TtlSeconds, Config.ShortestLock;
    var m, ttl := cfg.maxFailures, 1000 * cfg.TtlSeconds();
    var last := [Failure(0)] + rest;
    BurstSplit(0, 1, m - 1);
    BurstSplit(0, m - 2, 1);
    assert Burst(0, m) + rest == [Failure(0)] + (Burst(0, m - 2) + last);
    TtlPositive(cfg);
    FirstFailure(cfg);
    CountFirst(cfg, None, Failure(0), Burst(0, m - 2) + last, lo, hi);
    BurstFills(cfg, State(1, 0, None, 0), ttl, 0, m - 2, last, lo, hi);
    TrippingFailure(cfg);
    CountFirst(cfg, Some(Entry(State(m - 1, 0, None, 0), ttl)), Failure(0), rest, lo, hi);
  }

  lemma {:induction false} BurstSplit(ms: int, n: nat, k: nat)
    ensures Burst(ms, n + k) == Burst(ms, n) + Burst(ms, k)
    ensures Burst(ms, 1) == [Failure(ms)]
  {
    assert Burst(ms, 0) == [] && Burst(ms, 1) == [Failure(ms)] + Burst(ms, 0);
    if n == 0 {
      assert Burst(ms, 0) + Burst(ms, k) == Burst(ms, k);
    } else {
      BurstSplit(ms, n - 1, k);
      assert [Failure(ms)] + Burst(ms, n - 1) + Burst(ms, k) == [Failure(ms)] + (Burst(ms, n - 1) + Burst(ms, k));
    }
  }

  lemma StraddlingClocked(cfg: Config)
    requires cfg.Valid() && cfg.maxFailures >= 2
    ensures Clocked(0, Straddling(cfg))
  {
    hide Burst;
    BurstClocked(0, if cfg.ShortestLock() <= cfg.windowSeconds then cfg.maxFailures else 1);
    BurstClocked(1000 * cfg.windowSeconds, QuietCap(cfg) - (cfg.maxFailures - 1));
    BurstClocked(1000 * (cfg.windowSeconds + 1), cfg.maxFailures - 1);
  }

  /** For all settings some run meets the bound, within two seconds. */
  lemma QuietSpanReached(cfg: Config) returns (run: seq<Event>)
    requires cfg.Valid()
    ensures var w := cfg.windowSeconds;
            && Clocked(0, run) && Quiet(cfg, None, run, w, w + 1)
            && CountedIn(cfg, None, run, w, w + 1) == QuietCap(cfg)
  {
    if cfg.maxFailures == 1 {
      run := [];
    } else {
      run := Straddling(cfg);
      StraddlingClocked(cfg);
      if cfg.ShortestLock() <= cfg.windowSeconds {
        AfterALock(cfg);
      } else {
        AfterAFailure(cfg);
      }
    }
  }

  lemma AfterALock(cfg: Config)
    requires cfg.Valid() && cfg.maxFailures >= 2 && cfg.ShortestLock() <= cfg.windowSeconds
    ensures var w := cfg.windowSeconds;
            && Quiet(cfg, None, Straddling(cfg), w, w + 1)
            && CountedIn(cfg, None, Straddling(cfg), w, w + 1) == 2 * cfg.maxFailures - 2
  {
    hide CountedIn, Quiet, Burst, Config.TtlSeconds, Config.ShortestLock;
    var m, w, ttl := cfg.maxFailures, cfg.windowSeconds, 1000 * cfg.TtlSeconds();
    var late := Burst(1000 * (w + 1), m - 1);
    var s := State(0, 0, Some(cfg.ShortestLock()), 1);
    TtlPositive(cfg);
    FirstLock(cfg, Burst(1000 * w, m - 1) + late, w, w + 1);
    BurstFills(cfg, s, ttl, 1000 * w, m - 1, late, w, w + 1);
    LateBurst(cfg, s.(failures := m - 1), 1000 * w + ttl, w, w + 1);
  }

  lemma AfterAFailure(cfg: Config)
    requires cfg.Valid() && cfg.maxFailures >= 2 && cfg.ShortestLock() > cfg.windowSeconds
    ensures var w := cfg.windowSeconds;
            && Quiet(cfg, None, Straddling(cfg), w, w + 1)
            && CountedIn(cfg, None, Straddling(cfg), w, w + 1) == 2 * cfg.maxFailures - 3
  {
    hide CountedIn, Quiet, Burst, Step, Config.TtlSeconds, Config.ShortestLock;
    var m, w, ttl := cfg.maxFailures, cfg.windowSeconds, 1000 * cfg.TtlSeconds();
    var late := Burst(1000 * (w + 1), m - 1);
    var rest := Burst(1000 * w, m - 2) + late;
    TtlPositive(cfg);
    BurstSplit(0, 0, 1);
    FirstFailure(cfg);
    CountFirst(cfg, None, Failure(0), rest, w, w + 1);
    BurstFills(cfg, State(1, 0, None, 0), ttl, 1000 * w, m - 2, late, w, w + 1);
    LateBurst(cfg, State(m - 1, 0, None, 0), if m == 2 then ttl else 1000 * w + ttl, w, w + 1);
  }

  /** The window has lapsed: the next failures start a streak of their own. */
  lemma LateBurst(cfg: Config, s: State, expiresAt: int, lo: int, hi: int)
    requires cfg.Valid() && cfg.maxFailures >= 2 && lo <= cfg.windowSeconds + 1 <= hi
    requires s.firstFailureAt == 0 && !LiveLock(Some(s), cfg.windowSeconds + 1)
    requires expiresAt > 1000 * (cfg.windowSeconds + 1)
    ensures var e, late := Some(Entry(s, expiresAt)), Burst(1000 * (cfg.windowSeconds + 1), cfg.maxFailures - 1);
            CountedIn(cfg, e, late, lo, hi) == cfg.maxFailures - 1 && Quiet(cfg, e, late, lo, hi)
  {
    var m, ms := cfg.maxFailures, 1000 * (cfg.windowSeconds + 1);
    var late := Burst(ms, m - 1);
    assert late[0] == Failure(ms) && late[1..] == Burst(ms, m - 2);
    assert Burst(ms, m - 2) + [] == Burst(ms, m - 2);
    var next := State(1, cfg.windowSeconds + 1, None, s.lockLevel);
    BurstFills(cfg, next, ms + 1000 * cfg.TtlSeconds(), ms, m - 2, [], lo, hi);
  }
}
