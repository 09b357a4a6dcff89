/**
 * The per-identity sliding-window rate limiter (quota/limiter.ts).
 *
 * The class keeps one pruned list of call times per identity. The lemmas compare
 * that list with the complete history of admitted calls of one identity.
 */
module RateLimiter {
  import opened Prelude

  datatype Limit = Finite(calls: int) | Unlimited {
    predicate Reached(count: nat) {
      Finite? && count >= calls
    }

    predicate Override() {
      Finite? ==> calls >= 1
    }
  }

  /** `retryAfterSeconds` is None where the source computes NaN: a reached limit with an empty window. */
  datatype CheckResult = CheckResult(
    allowed: bool, count: nat, limit: Limit, windowMs: int, retryAfterSeconds: Option<int>)

  function CeilSeconds(ms: int): int {
    (ms + 999) / 1000
  }

  /** Drops the expired entries at the front of the list. */
  function DropExpired(times: seq<int>, cutoff: int): (live: seq<int>)
    ensures |live| <= |times|
  {
    if times != [] && times[0] <= cutoff then DropExpired(times[1..], cutoff) else times
  }

  predicate Admits(bucket: seq<int>, limit: Limit, windowMs: int, now: int) {
    !limit.Reached(|DropExpired(bucket, now - windowMs)|)
  }

  function NextBucket(bucket: seq<int>, limit: Limit, windowMs: int, now: int): seq<int> {
    var live := DropExpired(bucket, now - windowMs);
    if Admits(bucket, limit, windowMs, now) then live + [now] else live
  }

  /** Whole seconds until the oldest counted call leaves the window. */
  function RetryAfter(live: seq<int>, windowMs: int, now: int): Option<int> {
    if live == [] then None else Some(Max(1, CeilSeconds(live[0] + windowMs - now)))
  }

  /** The times in the half-open window (lo, hi]. */
  function Within(times: seq<int>, lo: int, hi: int): seq<int> {
    if times == [] then []
    else
      var n := |times| - 1;
      Within(times[..n], lo, hi) + (if lo < times[n] <= hi then [times[n]] else [])
  }

  class IdentityRateLimiter {
    const defaultLimit: Limit
    const windowMs: int
    const limitFor: string -> Option<Limit>
    var buckets: map<string, seq<int>>

    constructor (limit: Limit, windowMs: int, limitFor: string -> Option<Limit>)
      ensures buckets == map[]
      ensures this.defaultLimit == limit && this.windowMs == windowMs && this.limitFor == limitFor
    {
      this.defaultLimit := limit;
      this.windowMs := windowMs;
      this.limitFor := limitFor;
      buckets := map[];
    }

    /** The override wins when it is at least one (or unlimited). */
    function ResolveLimit(identity: string): Limit {
      var v := limitFor(identity);
      if v.Some? && v.value.Override() then v.value else defaultLimit
    }

    function Bucket(identity: string): seq<int>
      reads this
    {
      if identity in buckets then buckets[identity] else []
    }

    method Check(identity: string, now: int) returns (r: CheckResult)
      modifies this`buckets
      ensures buckets == old(buckets)[identity := NextBucket(old(Bucket(identity)), ResolveLimit(identity), windowMs, now)]
      ensures r.allowed == Admits(old(Bucket(identity)), ResolveLimit(identity), windowMs, now)
      ensures r.count == |Bucket(identity)| && r.limit == ResolveLimit(identity) && r.windowMs == windowMs
      ensures r.allowed ==> r.retryAfterSeconds == Some(0)
      ensures !r.allowed ==> r.retryAfterSeconds == RetryAfter(Bucket(identity), windowMs, now)
    {
      var cutoff := now - windowMs;
      var bucket := Bucket(identity);
      var i := 0;
      while i < |bucket| && bucket[i] <= cutoff
        invariant 0 <= i <= |bucket|
        invariant DropExpired(bucket[i..], cutoff) == DropExpired(bucket, cutoff)
      {
        i := i + 1;
      }
      var live := bucket[i..];
      assert live == DropExpired(bucket, cutoff);
      var limit := ResolveLimit(identity);
      if limit.Reached(|live|) {
        buckets := buckets[identity := live];
        return CheckResult(false, |live|, limit, windowMs, RetryAfter(live, windowMs, now));
      }
      live := live + [now];
      buckets := buckets[identity := live];
      return CheckResult(true, |live|, limit, windowMs, Some(0));
    }

    /** Read-only count of the entries not yet expired: the window ending at `now`, if none is later. */
    method Inspect(identity: string, now: int) returns (count: nat, limit: Limit)
      ensures count == Since(Bucket(identity), now - windowMs)
      ensures AllUpTo(Bucket(identity), now) ==> count == |Within(Bucket(identity), now - windowMs, now)|
      ensures limit == ResolveLimit(identity)
    {
      var bucket := Bucket(identity);
      var cutoff := now - windowMs;
      count := 0;
      for i := 0 to |bucket|
        invariant count == Since(bucket[..i], cutoff)
      {
        assert bucket[..i + 1][..i] == bucket[..i];
        if bucket[i] > cutoff {
          count := count + 1;
        }
      }
      assert bucket[..|bucket|] == bucket;
      if AllUpTo(bucket, now) {
        SinceIsWithin(bucket, cutoff, now);
      }
      limit := ResolveLimit(identity);
    }
  }

  /** How many times are later than `lo`. */
  function Since(times: seq<int>, lo: int): nat {
    if times == [] then 0 else Since(times[..|times| - 1], lo) + (if times[|times| - 1] > lo then 1 else 0)
  }

  lemma {:induction false} SinceIsWithin(times: seq<int>, lo: int, hi: int)
    requires AllUpTo(times, hi)
    ensures Since(times, lo) == |Within(times, lo, hi)|
  {
    if times != [] {
      SinceIsWithin(times[..|times| - 1], lo, hi);
    }
  }

  // ----- Runs of one identity under a fixed limit -----

  predicate Nondecreasing(times: seq<int>) {
    forall i, j :: 0 <= i <= j < |times| ==> times[i] <= times[j]
  }

  predicate AllUpTo(times: seq<int>, hi: int) {
    forall i :: 0 <= i < |times| ==> times[i] <= hi
  }

  /** The kept list and the complete history of admitted calls after the calls at `times`. */
  datatype Run = Run(bucket: seq<int>, allowed: seq<int>)

  function RunOf(limit: Limit, windowMs: int, times: seq<int>): Run {
    if times == [] then Run([], [])
    else
      var n := |times| - 1;
      var before := RunOf(limit, windowMs, times[..n]);
      Run(NextBucket(before.bucket, limit, windowMs, times[n]),
          if Admits(before.bucket, limit, windowMs, times[n]) then before.allowed + [times[n]] else before.allowed)
  }

  lemma {:induction false} DropTwice(s: seq<int>, c: int, d: int)
    requires c <= d
    ensures DropExpired(DropExpired(s, c), d) == DropExpired(s, d)
  {
    if s != [] && s[0] <= c {
      DropTwice(s[1..], c, d);
    }
  }

  lemma {:induction false} DropSnoc(s: seq<int>, t: int, c: int)
    requires Nondecreasing(s + [t])
    ensures DropExpired(s + [t], c) == if t > c then DropExpired(s, c) + [t] else []
  {
    if s == [] {
      assert (s + [t])[1..] == [];
    } else {
      assert (s + [t])[0] == s[0] && (s + [t])[|s|] == t;
      if s[0] <= c {
        assert (s + [t])[1..] == s[1..] + [t];
        assert Nondecreasing(s[1..] + [t]) by {
          forall i, j | 0 <= i <= j < |s| ensures (s[1..] + [t])[i] <= (s[1..] + [t])[j] {
            assert (s + [t])[i + 1] <= (s + [t])[j + 1];
          }
        }
        DropSnoc(s[1..], t, c);
      }
    }
  }

  /** On an ordered list, dropping from the front keeps exactly the entries of the window. */
  lemma {:induction false} DropIsWithin(s: seq<int>, lo: int, hi: int)
    requires Nondecreasing(s) && AllUpTo(s, hi)
    ensures DropExpired(s, lo) == Within(s, lo, hi)
  {
    if s != [] {
      var n := |s| - 1;
      assert s == s[..n] + [s[n]];
      DropIsWithin(s[..n], lo, hi);
      DropSnoc(s[..n], s[n], lo);
      if s[n] <= lo {
        WithinEmpty(s, lo, hi);
      }
    }
  }

  lemma {:induction false} WithinEmpty(s: seq<int>, lo: int, hi: int)
    requires forall i :: 0 <= i < |s| ==> s[i] <= lo || s[i] > hi
    ensures Within(s, lo, hi) == []
  {
    if s != [] {
      WithinEmpty(s[..|s| - 1], lo, hi);
    }
  }

  lemma {:induction false} WithinMonotone(s: seq<int>, lo: int, hi: int, lo': int, hi': int)
    requires lo' <= lo && forall i :: 0 <= i < |s| && s[i] <= hi ==> s[i] <= hi'
    ensures |Within(s, lo, hi)| <= |Within(s, lo', hi')|
  {
    if s != [] {
      WithinMonotone(s[..|s| - 1], lo, hi, lo', hi');
    }
  }

  lemma DropNothing()
    ensures forall c :: DropExpired([], c) == []
  {
  }

  lemma {:induction false} RunShape(limit: Limit, windowMs: int, times: seq<int>)
    requires windowMs > 0 && Nondecreasing(times)
    ensures var r := RunOf(limit, windowMs, times);
            && Nondecreasing(r.allowed)
            && (times == [] ==> r == Run([], []))
            && (times != [] ==>
                  var last := times[|times| - 1];
                  AllUpTo(r.allowed, last) && r.bucket == DropExpired(r.allowed, last - windowMs))
  {
    hide DropExpired;
    DropNothing();
    if times != [] {
      var n := |times| - 1;
      var t := times[n];
      var before := RunOf(limit, windowMs, times[..n]);
      RunShape(limit, windowMs, times[..n]);
      if n > 0 {
        assert times[..n][n - 1] <= t;
        DropTwice(before.allowed, times[n - 1] - windowMs, t - windowMs);
      }
      assert DropExpired(before.bucket, t - windowMs) == DropExpired(before.allowed, t - windowMs);
      if Admits(before.bucket, limit, windowMs, t) {
        assert Nondecreasing(before.allowed + [t]);
        DropSnoc(before.allowed, t, t - windowMs);
      }
    }
  }

  /** The entries a later call counts are exactly the admitted calls of its window. */
  lemma BucketIsHistory(limit: Limit, windowMs: int, times: seq<int>, now: int)
    requires windowMs > 0 && Nondecreasing(times) && AllUpTo(times, now)
    ensures var r := RunOf(limit, windowMs, times);
            DropExpired(r.bucket, now - windowMs) == Within(r.allowed, now - windowMs, now)
  {
    hide DropExpired, Within;
    DropNothing();
    WithinEmpty([], now - windowMs, now);
    var r := RunOf(limit, windowMs, times);
    RunShape(limit, windowMs, times);
    if times != [] {
      DropTwice(r.allowed, times[|times| - 1] - windowMs, now - windowMs);
      DropIsWithin(r.allowed, now - windowMs, now);
    }
  }

  /** After its last call a run keeps exactly the admitted calls of the window that ends there. */
  lemma KeptIsWindow(limit: Limit, windowMs: int, times: seq<int>)
    requires windowMs > 0 && Nondecreasing(times) && times != []
    ensures var r := RunOf(limit, windowMs, times);
            var last := times[|times| - 1];
            r.bucket == Within(r.allowed, last - windowMs, last)
  {
    hide RunOf, Within, DropExpired;
    var last := times[|times| - 1];
    RunShape(limit, windowMs, times);
    DropIsWithin(RunOf(limit, windowMs, times).allowed, last - windowMs, last);
  }

  lemma KeptBoundsWindow(limit: Limit, windowMs: int, times: seq<int>, t: int)
    requires windowMs > 0 && Nondecreasing(times) && times != [] && times[|times| - 1] <= t
    ensures var r := RunOf(limit, windowMs, times);
            |Within(r.allowed, t - windowMs, t)| <= |r.bucket|
  {
    hide RunOf, Within, DropExpired;
    var last := times[|times| - 1];
    RunShape(limit, windowMs, times);
    KeptIsWindow(limit, windowMs, times);
    WithinMonotone(RunOf(limit, windowMs, times).allowed, t - windowMs, t, last - windowMs, last);
  }

  /** Safety: no half-open window of any run holds more than the limit. */
  lemma {:induction false} WindowBound(limit: int, windowMs: int, times: seq<int>, t: int)
    requires limit >= 1 && windowMs > 0 && Nondecreasing(times)
    ensures |Within(RunOf(Finite(limit), windowMs, times).allowed, t - windowMs, t)| <= limit
  {
    var r := RunOf(Finite(limit), windowMs, times);
    if times != [] {
      var n := |times| - 1;
      var before := RunOf(Finite(limit), windowMs, times[..n]);
      WindowBound(limit, windowMs, times[..n], t);
      if Admits(before.bucket, Finite(limit), windowMs, times[n]) {
        if times[n] <= t {
          assert |r.bucket| <= limit;
          KeptBoundsWindow(Finite(limit), windowMs, times, t);
        } else {
          assert r.allowed[..|before.allowed|] == before.allowed;
        }
      }
    }
  }

  /** A call is denied exactly when the window that ends with it already holds `limit` admitted calls. */
  lemma DeniedExactlyWhenFull(limit: int, windowMs: int, times: seq<int>, now: int)
    requires limit >= 1 && windowMs > 0 && Nondecreasing(times) && AllUpTo(times, now)
    ensures var r := RunOf(Finite(limit), windowMs, times);
            !Admits(r.bucket, Finite(limit), windowMs, now) <==> |Within(r.allowed, now - windowMs, now)| == limit
  {
    BucketIsHistory(Finite(limit), windowMs, times, now);
    WindowBound(limit, windowMs, times, now);
  }

  /**
   * Wake-up time: after a denial the same call is admitted at a later moment exactly
   * when the oldest counted call has left the window. The announced number of seconds is the
   * least whole one, from one on, that is enough.
   */
  lemma RetryExact(limit: int, windowMs: int, times: seq<int>, now: int, later: int)
    requires limit >= 1 && windowMs > 0 && Nondecreasing(times) && AllUpTo(times, now) && now <= later
    requires !Admits(RunOf(Finite(limit), windowMs, times).bucket, Finite(limit), windowMs, now)
    ensures var kept := NextBucket(RunOf(Finite(limit), windowMs, times).bucket, Finite(limit), windowMs, now);
            && kept != []
            && (Admits(kept, Finite(limit), windowMs, later) <==> later >= kept[0] + windowMs)
            && var s := RetryAfter(kept, windowMs, now).value;
               && s >= 1 && Admits(kept, Finite(limit), windowMs, now + 1000 * s)
               && (s > 1 ==> !Admits(kept, Finite(limit), windowMs, now + 1000 * (s - 1)))
  {
    var r := RunOf(Finite(limit), windowMs, times);
    var kept := NextBucket(r.bucket, Finite(limit), windowMs, now);
    BucketIsHistory(Finite(limit), windowMs, times, now);
    DeniedExactlyWhenFull(limit, windowMs, times, now);
    assert kept == DropExpired(r.bucket, now - windowMs);
    assert |kept| == limit;
  }

  /**
   * The limit in force is the override of the identity where there is one of at least one call
   * or without bound, and else the default: a run of that identity is denied at just that number.
   */
  lemma OverrideInForce(limiter: IdentityRateLimiter, identity: string, times: seq<int>, now: int)
    requires limiter.windowMs > 0 && Nondecreasing(times) && AllUpTo(times, now)
    ensures var limit, window := limiter.ResolveLimit(identity), limiter.windowMs;
            var r := RunOf(limit, window, times);
            var denied := !Admits(r.bucket, limit, window, now);
            match limiter.limitFor(identity)
            case Some(Unlimited) => !denied
            case Some(Finite(n)) =>
              if n >= 1 then denied <==> |Within(r.allowed, now - window, now)| == n else limit == limiter.defaultLimit
            case None => limit == limiter.defaultLimit
  {
    hide RunOf, Within, DropExpired;
    match limiter.limitFor(identity)
    case Some(Finite(n)) =>
      if n >= 1 {
        DeniedExactlyWhenFull(n, limiter.windowMs, times, now);
      }
    case _ =>
  }
}
