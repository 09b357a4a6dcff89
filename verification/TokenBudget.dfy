/**
 * The per-identity daily token budget (quota/token-budget.ts): charges are grouped
 * in hour-aligned buckets and a bucket is forgotten once it starts more than 24 hours
 * before the call. Times are integer milliseconds, tokens are exact reals.
 */
module TokenBudgets {
  import opened Prelude
  import opened Sorting

  const HOUR_MS: int := 3_600_000
  const WINDOW_MS: int := 24 * HOUR_MS

  datatype Bucket = Bucket(at: int, tokens: real)

  datatype CheckResult = CheckResult(
    allowed: bool, used: real, limit: nat, retryAfterSeconds: int, freedAtRetry: real)

  datatype Headroom = Headroom(waitMs: int, freed: real)

  function HourOf(now: int): (at: int)
    ensures at <= now < at + HOUR_MS && at % HOUR_MS == 0
  {
    now / HOUR_MS * HOUR_MS
  }

  function Total(b: seq<Bucket>): real {
    if b == [] then 0.0 else b[0].tokens + Total(b[1..])
  }

  /** Drops the buckets at the front that start before `cutoff`. */
  function Prune(b: seq<Bucket>, cutoff: int): (kept: seq<Bucket>)
    ensures |kept| <= |b|
  {
    if b != [] && b[0].at < cutoff then Prune(b[1..], cutoff) else b
  }

  function Record(b: seq<Bucket>, tokens: real, now: int): seq<Bucket> {
    if tokens <= 0.0 then b
    else
      var live := Prune(b, now - WINDOW_MS);
      var n := |live| - 1;
      if n >= 0 && live[n].at == HourOf(now) then live[n := Bucket(live[n].at, live[n].tokens + tokens)]
      else live + [Bucket(HourOf(now), tokens)]
  }

  /** The request size that a capped budget charges. */
  function SafeTokens(tokens: real): (n: nat)
  {
    if tokens > 0.0 then tokens.Floor else 0
  }

  function Used(b: seq<Bucket>, now: int): real {
    Total(Prune(b, now - WINDOW_MS))
  }

  predicate Admits(b: seq<Bucket>, limit: nat, tokens: real, now: int) {
    limit == 0 || Used(b, now) + SafeTokens(tokens) as real <= limit as real
  }

  /** What an admitted request adds to the buckets: whole tokens when capped, the raw number otherwise. */
  function Charge(limit: nat, tokens: real): (c: real)
    ensures c >= 0.0
  {
    if limit > 0 then SafeTokens(tokens) as real else if tokens > 0.0 then tokens else 0.0
  }

  /** The buckets of one identity after a request. */
  function After(b: seq<Bucket>, limit: nat, tokens: real, now: int): seq<Bucket> {
    var live := Prune(b, now - WINDOW_MS);
    if Admits(b, limit, tokens, now) then Record(live, Charge(limit, tokens), now) else live
  }

  /** Oldest first, the first bucket whose departure brings the freed amount to `needed`. */
  function NextEnoughHeadroom(live: seq<Bucket>, now: int, needed: real, freed: real): Headroom {
    if live == [] then Headroom(0, freed)
    else
      var sum := freed + live[0].tokens;
      if sum >= needed || |live| == 1 then Headroom(Max(0, live[0].at + WINDOW_MS - now), sum)
      else NextEnoughHeadroom(live[1..], now, needed, sum)
  }

  function RetrySeconds(waitMs: int): int {
    if waitMs > 0 then Max(1, (waitMs + 999) / 1000) else 1
  }

  class TokenBudget {
    const limit: nat
    var buckets: map<string, seq<Bucket>>

    constructor (dailyLimit: Option<real>)
      ensures buckets == map[]
      ensures limit == if dailyLimit.Some? then SafeTokens(dailyLimit.value) else 0
    {
      limit := if dailyLimit.Some? then SafeTokens(dailyLimit.value) else 0;
      buckets := map[];
    }

    function Of(identity: string): seq<Bucket>
      reads this
    {
      if identity in buckets then buckets[identity] else []
    }

    method PruneOld(identity: string, now: int) returns (live: seq<Bucket>)
      modifies this`buckets
      ensures live == Of(identity) == Prune(old(Of(identity)), now - WINDOW_MS)
      ensures forall id :: id != identity ==> Of(id) == old(Of(id))
    {
      var cutoff := now - WINDOW_MS;
      var b := Of(identity);
      var i := 0;
      while i < |b| && b[i].at < cutoff
        invariant 0 <= i <= |b|
        invariant Prune(b[i..], cutoff) == Prune(b, cutoff)
      {
        i := i + 1;
      }
      if i == 0 {
        return b;
      }
      live := b[i..];
      buckets := buckets[identity := live];
    }

    method UsedInWindow(identity: string, now: int) returns (total: real)
      modifies this`buckets
      ensures total == Used(old(Of(identity)), now)
      ensures Of(identity) == Prune(old(Of(identity)), now - WINDOW_MS)
      ensures forall id :: id != identity ==> Of(id) == old(Of(id))
    {
      var live := PruneOld(identity, now);
      total := 0.0;
      for i := 0 to |live|
        invariant total + Total(live[i..]) == Total(live)
      {
        total := total + live[i].tokens;
      }
    }

    method RecordTokens(identity: string, tokens: real, now: int)
      modifies this`buckets
      ensures Of(identity) == Record(old(Of(identity)), tokens, now)
      ensures forall id :: id != identity ==> Of(id) == old(Of(id))
    {
      if tokens <= 0.0 {
        return;
      }
      var hourAt := HourOf(now);
      var live := PruneOld(identity, now);
      var n := |live| - 1;
      if n >= 0 && live[n].at == hourAt {
        live := live[n := Bucket(live[n].at, live[n].tokens + tokens)];
      } else {
        live := live + [Bucket(hourAt, tokens)];
      }
      buckets := buckets[identity := live];
    }

    method Wait(live: seq<Bucket>, now: int, needed: real) returns (h: Headroom)
      ensures h == NextEnoughHeadroom(live, now, needed, 0.0)
    {
      if live == [] {
        return Headroom(0, 0.0);
      }
      var freed := 0.0;
      for i := 0 to |live|
        invariant i < |live| ==>
            NextEnoughHeadroom(live, now, needed, 0.0) == NextEnoughHeadroom(live[i..], now, needed, freed)
        invariant i == |live| ==>
            NextEnoughHeadroom(live, now, needed, 0.0) == Headroom(Max(0, live[i - 1].at + WINDOW_MS - now), freed)
      {
        freed := freed + live[i].tokens;
        if freed >= needed {
          return Headroom(Max(0, live[i].at + WINDOW_MS - now), freed);
        }
      }
      var newest := live[|live| - 1];
      return Headroom(Max(0, newest.at + WINDOW_MS - now), freed);
    }

    method Check(identity: string, tokens: real, now: int) returns (r: CheckResult)
      modifies this`buckets
      ensures Of(identity) == After(old(Of(identity)), limit, tokens, now)
      ensures forall id :: id != identity ==> Of(id) == old(Of(id))
      ensures r.allowed == Admits(old(Of(identity)), limit, tokens, now) && r.limit == limit
      ensures limit > 0 ==> r.used == Used(old(Of(identity)), now) + if r.allowed then Charge(limit, tokens) else 0.0
      ensures limit == 0 ==> r.used == Used(Of(identity), now)
      ensures r.allowed ==> r.retryAfterSeconds == 0 && r.freedAtRetry == 0.0
      ensures !r.allowed ==>
          var needed := r.used + SafeTokens(tokens) as real - limit as real;
          var h := NextEnoughHeadroom(Of(identity), now, needed, 0.0);
          r.retryAfterSeconds == RetrySeconds(h.waitMs) && r.freedAtRetry == h.freed
    {
      ghost var b := Of(identity);
      PruneTwice(b, now - WINDOW_MS, now - WINDOW_MS);
      if limit <= 0 {
        RecordTokens(identity, tokens, now);
        RecordPruned(b, tokens, now);
        var u := UsedInWindow(identity, now);
        PruneTwice(Of(identity), now - WINDOW_MS, now - WINDOW_MS);
        return CheckResult(true, u, 0, 0, 0.0);
      }
      var safe := SafeTokens(tokens);
      var existing := UsedInWindow(identity, now);
      if existing + safe as real > limit as real {
        var needed := existing + safe as real - limit as real;
        var live := PruneOld(identity, now);
        var h := Wait(live, now, needed);
        return CheckResult(false, existing, limit, RetrySeconds(h.waitMs), h.freed);
      }
      RecordTokens(identity, safe as real, now);
      return CheckResult(true, existing + safe as real, limit, 0, 0.0);
    }
  }

  lemma {:induction false} PruneTwice(b: seq<Bucket>, c: int, d: int)
    requires c <= d
    ensures Prune(Prune(b, c), d) == Prune(b, d)
  {
    if b != [] && b[0].at < c {
      PruneTwice(b[1..], c, d);
    }
  }

  lemma RecordPruned(b: seq<Bucket>, tokens: real, now: int)
    ensures Prune(Record(b, tokens, now), now - WINDOW_MS)
         == Record(Prune(b, now - WINDOW_MS), if tokens > 0.0 then tokens else 0.0, now)
  {
    PruneTwice(b, now - WINDOW_MS, now - WINDOW_MS);
    PruneFirst(b, now - WINDOW_MS);
  }

  lemma {:induction false} PruneFirst(b: seq<Bucket>, cutoff: int)
    ensures var live := Prune(b, cutoff); live == [] || live[0].at >= cutoff
  {
    if b != [] && b[0].at < cutoff {
      PruneFirst(b[1..], cutoff);
    }
  }

  // ----- The bucket list as a table of charges -----

  /** Hour-aligned, strictly ascending, positive charges, none later than `last`. */
  ghost predicate Orderly(b: seq<Bucket>, last: int) {
    && (forall i :: 0 <= i < |b| ==> b[i].at % HOUR_MS == 0 && b[i].at <= last && b[i].tokens > 0.0)
    && (forall i, j :: 0 <= i < j < |b| ==> b[i].at < b[j].at)
  }

  /** Tokens of the buckets that start at `x` or later. */
  ghost function TotalFrom(b: seq<Bucket>, x: int): real {
    if b == [] then 0.0 else (if b[0].at >= x then b[0].tokens else 0.0) + TotalFrom(b[1..], x)
  }

  lemma {:induction false} TotalFromSnoc(b: seq<Bucket>, e: Bucket, x: int)
    ensures TotalFrom(b + [e], x) == TotalFrom(b, x) + if e.at >= x then e.tokens else 0.0
  {
    if b == [] {
      assert b + [e] == [e] && [e][1..] == [];
    } else {
      assert (b + [e])[1..] == b[1..] + [e];
      TotalFromSnoc(b[1..], e, x);
    }
  }

  lemma {:induction false} PruneFacts(b: seq<Bucket>, cutoff: int, last: int)
    requires Orderly(b, last)
    ensures var live := Prune(b, cutoff);
            && Orderly(live, last)
            && (forall i :: 0 <= i < |live| ==> live[i].at >= cutoff)
            && Total(live) == TotalFrom(b, cutoff) >= 0.0
  {
    if b != [] {
      PruneFacts(b[1..], cutoff, last);
      if b[0].at >= cutoff {
        PruneNothing(b[1..], cutoff);
      }
    }
  }

  lemma PruneNothing(b: seq<Bucket>, cutoff: int)
    requires forall i :: 0 <= i < |b| ==> b[i].at >= cutoff
    ensures Prune(b, cutoff) == b
  {
  }

  lemma {:induction false} PruneKeepsLater(b: seq<Bucket>, cutoff: int, x: int)
    requires cutoff <= x
    ensures TotalFrom(Prune(b, cutoff), x) == TotalFrom(b, x)
  {
    if b != [] && b[0].at < cutoff {
      PruneKeepsLater(b[1..], cutoff, x);
    }
  }

  lemma RecordOrderly(b: seq<Bucket>, tokens: real, now: int)
    requires Orderly(b, now) && Prune(b, now - WINDOW_MS) == b && tokens >= 0.0
    ensures Orderly(Record(b, tokens, now), now)
  {
    hide HourOf, Prune;
    var n := |b| - 1;
    var hour := HourOf(now);
    if n >= 0 {
      AlignedBelow(b[n].at, now);
    }
  }

  lemma RecordTotal(b: seq<Bucket>, tokens: real, now: int, x: int)
    requires Prune(b, now - WINDOW_MS) == b && tokens >= 0.0
    ensures TotalFrom(Record(b, tokens, now), x) == TotalFrom(b, x) + if HourOf(now) >= x then tokens else 0.0
  {
    var n := |b| - 1;
    var hour := HourOf(now);
    if tokens > 0.0 {
      if n >= 0 && b[n].at == hour {
        var merged := Bucket(b[n].at, b[n].tokens + tokens);
        assert b == b[..n] + [b[n]];
        TotalFromSnoc(b[..n], b[n], x);
        TotalFromSnoc(b[..n], merged, x);
        assert b[n := merged] == b[..n] + [merged];
      } else {
        TotalFromSnoc(b, Bucket(hour, tokens), x);
      }
    }
  }

  /** One request moves the table of charges by exactly what it was charged. */
  lemma AfterFacts(b: seq<Bucket>, limit: nat, tokens: real, now: int, x: int)
    requires Orderly(b, now) && x >= now - WINDOW_MS
    ensures Orderly(After(b, limit, tokens, now), now)
    ensures TotalFrom(After(b, limit, tokens, now), x) == TotalFrom(b, x) +
              if Admits(b, limit, tokens, now) && HourOf(now) >= x then Charge(limit, tokens) else 0.0
  {
    var live := Prune(b, now - WINDOW_MS);
    PruneFacts(b, now - WINDOW_MS, now);
    PruneKeepsLater(b, now - WINDOW_MS, x);
    PruneTwice(b, now - WINDOW_MS, now - WINDOW_MS);
    RecordOrderly(live, Charge(limit, tokens), now);
    RecordTotal(live, Charge(limit, tokens), now, x);
  }

  lemma AlignedBelow(at: int, now: int)
    requires at % HOUR_MS == 0 && at <= now
    ensures at <= HourOf(now)
  {
  }

  // ----- Runs of one identity -----

  datatype Call = Call(now: int, tokens: real)

  predicate Clocked(calls: seq<Call>) {
    forall i, j :: 0 <= i <= j < |calls| ==> calls[i].now <= calls[j].now
  }

  function StateAfter(limit: nat, calls: seq<Call>): seq<Bucket> {
    if calls == [] then []
    else
      var c := calls[|calls| - 1];
      After(StateAfter(limit, calls[..|calls| - 1]), limit, c.tokens, c.now)
  }

  function ChargeOfLast(limit: nat, calls: seq<Call>): (c: real)
    requires calls != []
    ensures c >= 0.0
  {
    var c := calls[|calls| - 1];
    if Admits(StateAfter(limit, calls[..|calls| - 1]), limit, c.tokens, c.now) then Charge(limit, c.tokens) else 0.0
  }

  /** Everything admitted by calls whose hour started at `x` or later. */
  ghost function ChargedSince(limit: nat, calls: seq<Call>, x: int): real {
    if calls == [] then 0.0
    else
      ChargedSince(limit, calls[..|calls| - 1], x) +
      if HourOf(calls[|calls| - 1].now) >= x then ChargeOfLast(limit, calls) else 0.0
  }

  /** Everything admitted by calls made in the closed interval [lo, hi]. */
  ghost function AdmittedIn(limit: nat, calls: seq<Call>, lo: int, hi: int): real {
    if calls == [] then 0.0
    else
      AdmittedIn(limit, calls[..|calls| - 1], lo, hi) +
      if lo <= calls[|calls| - 1].now <= hi then ChargeOfLast(limit, calls) else 0.0
  }

  /** The buckets are the hourly totals of exactly the admitted charges that can still count. */
  lemma {:induction false} BucketsAreCharges(limit: nat, calls: seq<Call>, x: int)
    requires Clocked(calls) && (calls != [] ==> x >= calls[|calls| - 1].now - WINDOW_MS)
    ensures calls != [] ==> Orderly(StateAfter(limit, calls), calls[|calls| - 1].now)
    ensures TotalFrom(StateAfter(limit, calls), x) == ChargedSince(limit, calls, x)
  {
    if calls != [] {
      var n := |calls| - 1;
      var c := calls[n];
      var b := StateAfter(limit, calls[..n]);
      assert n > 0 ==> calls[..n][n - 1].now <= c.now;
      BucketsAreCharges(limit, calls[..n], x);
      assert Orderly(b, c.now);
      AfterFacts(b, limit, c.tokens, c.now, x);
    }
  }

  /** What a call finds used is exactly what was charged in hours that started within the last 24. */
  lemma UsedIsCharged(limit: nat, calls: seq<Call>, now: int)
    requires Clocked(calls) && (calls != [] ==> calls[|calls| - 1].now <= now)
    ensures Used(StateAfter(limit, calls), now) == ChargedSince(limit, calls, now - WINDOW_MS)
  {
    BucketsAreCharges(limit, calls, now - WINDOW_MS);
    PruneFacts(StateAfter(limit, calls), now - WINDOW_MS, now);
  }

  lemma {:induction false} AdmittedAtMostCharged(limit: nat, calls: seq<Call>, lo: int, hi: int, x: int)
    requires x <= HourOf(lo)
    ensures AdmittedIn(limit, calls, lo, hi) <= ChargedSince(limit, calls, x)
  {
    if calls != [] {
      var now := calls[|calls| - 1].now;
      AdmittedAtMostCharged(limit, calls[..|calls| - 1], lo, hi, x);
      if lo <= now {
        AlignedBelow(HourOf(lo), now);
      }
    }
  }

  /** Whatever is admitted up to 24 hours after the hour in which the interval starts stays within the limit. */
  lemma {:induction false} BudgetHolds(limit: nat, calls: seq<Call>, lo: int, hi: int)
    requires limit > 0 && Clocked(calls) && hi <= HourOf(lo) + WINDOW_MS
    ensures AdmittedIn(limit, calls, lo, hi) <= limit as real
  {
    if calls != [] {
      var n := |calls| - 1;
      var c := calls[n];
      BudgetHolds(limit, calls[..n], lo, hi);
      if lo <= c.now <= hi && Admits(StateAfter(limit, calls[..n]), limit, c.tokens, c.now) {
        assert n > 0 ==> calls[..n][n - 1].now <= c.now;
        UsedIsCharged(limit, calls[..n], c.now);
        AdmittedAtMostCharged(limit, calls[..n], lo, hi, c.now - WINDOW_MS);
      }
    }
  }

  /** A whole budget at the start and another one as soon as the first is forgotten. */
  function TwoBudgets(limit: nat, lo: int): seq<Call> {
    [Call(lo, limit as real), Call(HourOf(lo) + WINDOW_MS + 1, limit as real)]
  }

  lemma TwoBudgetsFit(limit: nat, lo: int, hi: int)
    requires limit > 0 && hi > HourOf(lo) + WINDOW_MS
    ensures Clocked(TwoBudgets(limit, lo))
    ensures AdmittedIn(limit, TwoBudgets(limit, lo), lo, hi) == 2.0 * limit as real
  {
    hide HourOf;
    var l, at := limit as real, HourOf(lo);
    var first, calls := [Call(lo, l)], TwoBudgets(limit, lo);
    assert first[..0] == [] && calls[..1] == first;
    assert SafeTokens(l) == limit;
    assert StateAfter(limit, first) == [Bucket(at, l)];
    assert Prune([Bucket(at, l)], at + 1) == [] by {
      assert [Bucket(at, l)][1..] == [];
    }
    assert ChargeOfLast(limit, first) == l && ChargeOfLast(limit, calls) == l;
    assert AdmittedIn(limit, first, lo, hi) == l;
  }

  /**
   * Safety, exactly: every run stays within the limit over a closed interval if and only if
   * the interval ends no later than 24 hours after the start of the hour in which it begins.
   */
  lemma BudgetBoundExact(limit: nat, lo: int, hi: int)
    requires limit > 0
    ensures (forall calls :: Clocked(calls) ==> AdmittedIn(limit, calls, lo, hi) <= limit as real)
       <==> hi <= HourOf(lo) + WINDOW_MS
  {
    hide HourOf, AdmittedIn, Clocked;
    if hi <= HourOf(lo) + WINDOW_MS {
      forall calls | Clocked(calls) ensures AdmittedIn(limit, calls, lo, hi) <= limit as real {
        BudgetHolds(limit, calls, lo, hi);
      }
    } else {
      TwoBudgetsFit(limit, lo, hi);
    }
  }

  /** So any interval of at most 23 hours and one millisecond is capped, and a day that starts on the hour is. */
  lemma BudgetBound(limit: nat, calls: seq<Call>, lo: int, hi: int)
    requires limit > 0 && Clocked(calls)
    requires hi - lo <= 82_800_001 || (lo % 3_600_000 == 0 && hi - lo <= 86_400_000)
    ensures AdmittedIn(limit, calls, lo, hi) <= limit as real
  {
    if lo % HOUR_MS == 0 {
      AlignedBelow(lo, lo);
    }
    BudgetHolds(limit, calls, lo, hi);
  }

  /** And no longer length is capped wherever it starts: two whole budgets fit. */
  lemma BudgetBoundTight(limit: nat, length: int)
    requires limit > 0 && length > 82_800_001
    ensures var lo := 3_599_999;
            && Clocked(TwoBudgets(limit, lo))
            && AdmittedIn(limit, TwoBudgets(limit, lo), lo, lo + length) == 2.0 * limit as real
  {
    assert HourOf(HOUR_MS - 1) == 0;
    TwoBudgetsFit(limit, HOUR_MS - 1, HOUR_MS - 1 + length);
  }

  /** A denied call changes nothing that any later call counts. */
  lemma DenialChangesNothing(b: seq<Bucket>, limit: nat, tokens: real, now: int, later: int)
    requires !Admits(b, limit, tokens, now) && now <= later
    ensures Prune(After(b, limit, tokens, now), later - WINDOW_MS) == Prune(b, later - WINDOW_MS)
  {
    PruneTwice(b, now - WINDOW_MS, later - WINDOW_MS);
  }

  /** From an empty start never more than 25 buckets are held, strictly ordered. */
  lemma AtMost25Buckets(limit: nat, calls: seq<Call>)
    requires Clocked(calls) && calls != []
    ensures |StateAfter(limit, calls)| <= 25
    ensures Orderly(StateAfter(limit, calls), calls[|calls| - 1].now)
  {
    var c := calls[|calls| - 1];
    var b := StateAfter(limit, calls[..|calls| - 1]);
    BucketsAreCharges(limit, calls, c.now);
    BucketsAreCharges(limit, calls[..|calls| - 1], c.now);
    if |calls| > 1 {
      assert calls[..|calls| - 1][|calls| - 2].now <= c.now;
    }
    var s := StateAfter(limit, calls);
    AfterIsRecent(b, limit, c.tokens, c.now);
    if s != [] {
      Spread(s, c.now, |s| - 1);
    }
  }

  lemma AfterIsRecent(b: seq<Bucket>, limit: nat, tokens: real, now: int)
    requires Orderly(b, now)
    ensures var s := After(b, limit, tokens, now); forall i :: 0 <= i < |s| ==> s[i].at >= now - WINDOW_MS
  {
    PruneFacts(b, now - WINDOW_MS, now);
    PruneTwice(b, now - WINDOW_MS, now - WINDOW_MS);
  }

  lemma {:induction false} Spread(b: seq<Bucket>, last: int, i: nat)
    requires Orderly(b, last) && i < |b|
    ensures b[i].at >= b[0].at + i * HOUR_MS
  {
    if i > 0 {
      Spread(b, last, i - 1);
      assert b[i - 1].at < b[i].at;
      NextMultiple(b[i - 1].at, b[i].at);
    }
  }

  lemma NextMultiple(x: int, y: int)
    requires x % HOUR_MS == 0 && y % HOUR_MS == 0 && x < y
    ensures y >= x + HOUR_MS
  {
  }

  // ----- What a request charges -----

  /** A capped request charges its tokens rounded down, an uncapped one exactly what it asks; neither is negative. */
  lemma ChargeExact(limit: nat, tokens: real) returns (n: nat)
    ensures tokens <= 0.0 ==> Charge(limit, tokens) == 0.0
    ensures tokens > 0.0 && limit == 0 ==> Charge(limit, tokens) == tokens
    ensures tokens > 0.0 && limit > 0 ==>
              Charge(limit, tokens) == n as real && n as real <= tokens < n as real + 1.0
    ensures limit > 0 ==> Charge(limit, tokens) == SafeTokens(tokens) as real
  {
    n := SafeTokens(tokens);
  }

  /** What all requests of hours that start at `x` or later asked for. */
  ghost function AskedSince(calls: seq<Call>, x: int): real {
    if calls == [] then 0.0
    else
      var c := calls[|calls| - 1];
      AskedSince(calls[..|calls| - 1], x)
      + if c.now - c.now % 3_600_000 >= x && c.tokens > 0.0 then c.tokens else 0.0
  }

  /** Without a cap nothing is refused, and what is used is all that was asked for in the hours of the last 24 h. */
  lemma UncappedUse(calls: seq<Call>, now: int, tokens: real)
    requires Clocked(calls) && (calls != [] ==> calls[|calls| - 1].now <= now)
    ensures Admits(StateAfter(0, calls), 0, tokens, now)
    ensures Used(StateAfter(0, calls), now) == AskedSince(calls, now - 86_400_000)
  {
    UsedIsCharged(0, calls, now);
    AskedIsCharged(calls, now - 86_400_000);
  }

  lemma {:induction false} AskedIsCharged(calls: seq<Call>, x: int)
    ensures AskedSince(calls, x) == ChargedSince(0, calls, x)
  {
    if calls != [] {
      hide StateAfter;
      var c := calls[|calls| - 1];
      AskedIsCharged(calls[..|calls| - 1], x);
      var _ := ChargeExact(0, c.tokens);
      assert HourOf(c.now) == c.now - c.now % 3_600_000;
    }
  }

  // ----- The announced wait -----

  lemma {:induction false} PruneShrinks(b: seq<Bucket>, cutoff: int, last: int)
    requires Orderly(b, last)
    ensures 0.0 <= Total(Prune(b, cutoff)) <= Total(b)
  {
    if b != [] {
      PruneShrinks(b[1..], cutoff, last);
    }
  }

  /** With nothing else charged, the wait is the exact boundary between refusal and admission. */
  lemma {:induction false} HeadroomExact(live: seq<Bucket>, now: int, last: int, needed: real, freed: real, t: int)
    requires Orderly(live, last) && (forall i :: 0 <= i < |live| ==> live[i].at >= now - WINDOW_MS)
    requires live != [] && freed < needed <= freed + Total(live) && now <= t
    ensures var h := NextEnoughHeadroom(live, now, needed, freed);
            && (t <= now + h.waitMs ==> freed + Total(live) - Total(Prune(live, t - WINDOW_MS)) < needed)
            && (t > now + h.waitMs ==> freed + Total(live) - Total(Prune(live, t - WINDOW_MS)) >= needed)
            && needed <= h.freed <= freed + Total(live)
            && h.freed == freed + Total(live) - Total(Prune(live, now + h.waitMs + 1 - WINDOW_MS))
  {
    var rest := live[1..];
    PruneShrinks(live, t - WINDOW_MS, last);
    PruneShrinks(rest, t - WINDOW_MS, last);
    if freed + live[0].tokens >= needed {
      if t <= live[0].at + WINDOW_MS {
        assert Prune(live, t - WINDOW_MS) == live;
      }
    } else {
      HeadroomExact(rest, now, last, needed, freed + live[0].tokens, t);
    }
  }

  /** When all that is held is too little, the wait ends with the last of it, and all of it is freed. */
  lemma {:induction false} OversizedHeadroom(live: seq<Bucket>, now: int, last: int, needed: real, freed: real, t: int)
    requires Orderly(live, last) && (forall i :: 0 <= i < |live| ==> live[i].at >= now - WINDOW_MS)
    requires live != [] && freed + Total(live) < needed && now <= t
    ensures var h := NextEnoughHeadroom(live, now, needed, freed);
            h.freed == freed + Total(live) && (Prune(live, t - WINDOW_MS) == [] <==> t > now + h.waitMs)
  {
    var rest := live[1..];
    if rest == [] {
      assert Total(rest) == 0.0;
    } else {
      assert Total(rest) >= 0.0 by {
        PruneShrinks(rest, 0, last);
      }
      OversizedHeadroom(rest, now, last, needed, freed + live[0].tokens, t);
      assert rest[|rest| - 1].at > live[0].at;
    }
  }

  /**
   * A request within the limit that is denied at `now`, with nothing else charged, is
   * refused up to and including the end of the wait and admitted at every later moment.
   */
  lemma WaitIsExact(limit: nat, calls: seq<Call>, now: int, tokens: real, t: int)
    requires limit > 0 && Clocked(calls) && (calls != [] ==> calls[|calls| - 1].now <= now) && now <= t
    requires !Admits(StateAfter(limit, calls), limit, tokens, now) && SafeTokens(tokens) <= limit
    ensures var b := StateAfter(limit, calls);
            var live := After(b, limit, tokens, now);
            var needed := Used(b, now) + SafeTokens(tokens) as real - limit as real;
            var h := NextEnoughHeadroom(live, now, needed, 0.0);
            && (Admits(live, limit, tokens, t) <==> t > now + h.waitMs)
            && Total(live) - h.freed + SafeTokens(tokens) as real <= limit as real
  {
    var b := StateAfter(limit, calls);
    var live := After(b, limit, tokens, now);
    BucketsAreCharges(limit, calls, now);
    assert Orderly(b, now);
    PruneFacts(b, now - WINDOW_MS, now);
    PruneTwice(b, now - WINDOW_MS, now - WINDOW_MS);
    var needed := Used(b, now) + SafeTokens(tokens) as real - limit as real;
    HeadroomExact(live, now, now, needed, 0.0, t);
  }

  /** Everything admitted in the hour that starts exactly at `x`. */
  ghost function ChargedAt(limit: nat, calls: seq<Call>, x: int): real {
    if calls == [] then 0.0
    else
      ChargedAt(limit, calls[..|calls| - 1], x) +
      if HourOf(calls[|calls| - 1].now) == x then ChargeOfLast(limit, calls) else 0.0
  }

  lemma {:induction false} ChargedAtIsDifference(limit: nat, calls: seq<Call>, x: int)
    ensures ChargedAt(limit, calls, x) == ChargedSince(limit, calls, x) - ChargedSince(limit, calls, x + 1)
  {
    if calls != [] {
      ChargedAtIsDifference(limit, calls[..|calls| - 1], x);
    }
  }

  lemma {:induction false} WaitAligned(live: seq<Bucket>, now: int, last: int, needed: real, freed: real)
    requires Orderly(live, last) && (forall i :: 0 <= i < |live| ==> live[i].at >= now - WINDOW_MS) && live != []
    ensures var wait := NextEnoughHeadroom(live, now, needed, freed).waitMs;
            wait >= 0 && (wait + now) % 1000 == 0
  {
    if |live| > 1 {
      WaitAligned(live[1..], now, last, needed, freed + live[0].tokens);
    }
    ThousandInHour(live[0].at);
  }

  lemma ThousandInHour(at: int)
    requires at % HOUR_MS == 0
    ensures (at + WINDOW_MS) % 1000 == 0
  {
  }

  /** The wait is over at once exactly when the bucket that is just 24 hours old frees enough. */
  lemma NoWait(live: seq<Bucket>, now: int, last: int, needed: real)
    requires Orderly(live, last) && (forall i :: 0 <= i < |live| ==> live[i].at >= now - WINDOW_MS) && live != []
    requires 0.0 < needed <= Total(live)
    ensures NextEnoughHeadroom(live, now, needed, 0.0).waitMs == 0 <==>
            TotalFrom(live, now - WINDOW_MS) - TotalFrom(live, now - WINDOW_MS + 1) >= needed
  {
    HeadroomExact(live, now, last, needed, 0.0, now + 1);
    PruneFacts(live, now - WINDOW_MS, last);
    PruneFacts(live, now - WINDOW_MS + 1, last);
    PruneNothing(live, now - WINDOW_MS);
    HeadroomExact(live, now, last, needed, 0.0, now);
  }

  /**
   * Retrying after the announced whole seconds is too early exactly when the clock stands at
   * a whole second and the hour that began just 24 hours ago does not free enough by itself:
   * the bucket that would free enough still counts at the very end of its 24 hours.
   */
  lemma RetryAfterExact(limit: nat, calls: seq<Call>, now: int, tokens: real)
    requires limit > 0 && Clocked(calls) && (calls != [] ==> calls[|calls| - 1].now <= now)
    requires !Admits(StateAfter(limit, calls), limit, tokens, now) && SafeTokens(tokens) <= limit
    ensures var b := StateAfter(limit, calls);
            var live := After(b, limit, tokens, now);
            var needed := Used(b, now) + SafeTokens(tokens) as real - limit as real;
            var wait := NextEnoughHeadroom(live, now, needed, 0.0).waitMs;
            Admits(live, limit, tokens, now + 1000 * RetrySeconds(wait)) <==>
            now % 1000 != 0 || ChargedAt(limit, calls, now - WINDOW_MS) >= needed
  {
    hide NextEnoughHeadroom, After, StateAfter, Used, Admits, SafeTokens, Clocked, ChargedSince, ChargedAt;
    var b := StateAfter(limit, calls);
    var live := After(b, limit, tokens, now);
    var needed := Used(b, now) + SafeTokens(tokens) as real - limit as real;
    var wait := NextEnoughHeadroom(live, now, needed, 0.0).waitMs;
    WaitIsExact(limit, calls, now, tokens, now + 1000 * RetrySeconds(wait));
    DeniedLive(limit, calls, now, tokens);
    WaitAligned(live, now, now, needed, 0.0);
    NoWait(live, now, now, needed);
    ChargedAtIsDifference(limit, calls, now - WINDOW_MS);
    WholeSeconds(wait, now);
  }

  lemma WholeSeconds(wait: int, now: int)
    requires wait >= 0 && (wait + now) % 1000 == 0
    ensures 1000 * RetrySeconds(wait) > wait <==> now % 1000 != 0 || wait == 0
  {
  }

  /** The buckets left by a denial, in terms of the charges of the run. */
  lemma DeniedLive(limit: nat, calls: seq<Call>, now: int, tokens: real)
    requires limit > 0 && Clocked(calls) && (calls != [] ==> calls[|calls| - 1].now <= now)
    requires !Admits(StateAfter(limit, calls), limit, tokens, now) && SafeTokens(tokens) <= limit
    ensures var b := StateAfter(limit, calls);
            var live := After(b, limit, tokens, now);
            var needed := Used(b, now) + SafeTokens(tokens) as real - limit as real;
            && Orderly(live, now) && (forall i :: 0 <= i < |live| ==> live[i].at >= now - WINDOW_MS)
            && live != [] && 0.0 < needed <= Total(live)
            && TotalFrom(live, now - WINDOW_MS) == ChargedSince(limit, calls, now - WINDOW_MS)
            && TotalFrom(live, now - WINDOW_MS + 1) == ChargedSince(limit, calls, now - WINDOW_MS + 1)
  {
    var b := StateAfter(limit, calls);
    BucketsAreCharges(limit, calls, now - WINDOW_MS);
    BucketsAreCharges(limit, calls, now - WINDOW_MS + 1);
    assert Orderly(b, now);
    PruneFacts(b, now - WINDOW_MS, now);
    PruneKeepsLater(b, now - WINDOW_MS, now - WINDOW_MS);
    PruneKeepsLater(b, now - WINDOW_MS, now - WINDOW_MS + 1);
  }

  /** It happens: a budget spent and asked for again on the hour is refused once more 24 hours later. */
  lemma RetryTooEarly()
    ensures var b := StateAfter(10, [Call(HOUR_MS, 10.0)]);
            var live := After(b, 10, 1.0, HOUR_MS);
            var wait := NextEnoughHeadroom(live, HOUR_MS, 1.0, 0.0).waitMs;
            && !Admits(b, 10, 1.0, HOUR_MS)
            && !Admits(live, 10, 1.0, HOUR_MS + 1000 * RetrySeconds(wait))
  {
    var calls := [Call(HOUR_MS, 10.0)];
    assert calls[..0] == [];
    assert HourOf(HOUR_MS) == HOUR_MS && SafeTokens(10.0) == 10 && SafeTokens(1.0) == 1;
    assert StateAfter(10, calls) == [Bucket(HOUR_MS, 10.0)];
    assert Used([Bucket(HOUR_MS, 10.0)], HOUR_MS) == 10.0 by {
      assert [Bucket(HOUR_MS, 10.0)][1..] == [];
    }
    assert ChargedAt(10, calls, HOUR_MS - WINDOW_MS) == 0.0;
    RetryAfterExact(10, calls, HOUR_MS, 1.0);
  }

  /** A request above the limit is refused in every reachable state and at every time. */
  lemma OversizedAlwaysRefused(limit: nat, calls: seq<Call>, now: int, tokens: real)
    requires limit > 0 && Clocked(calls) && SafeTokens(tokens) > limit
    ensures !Admits(StateAfter(limit, calls), limit, tokens, now)
  {
    if calls != [] {
      var last := calls[|calls| - 1].now;
      BucketsAreCharges(limit, calls, last);
      PruneFacts(StateAfter(limit, calls), now - WINDOW_MS, last);
    }
  }

  // ----- Restart from a snapshot -----

  /** One cell of a snapshot file: what survives the type checks of `bootstrap`, or None. */
  function Restored(cells: seq<Option<Bucket>>, cutoff: int): seq<Bucket> {
    if cells == [] then []
    else
      (if cells[0].Some? && cells[0].value.tokens > 0.0 && cells[0].value.at >= cutoff then [cells[0].value] else [])
      + Restored(cells[1..], cutoff)
  }

  predicate Earlier(x: Bucket, y: Bucket) {
    x.at <= y.at
  }

  /** The buckets of one identity as written to the snapshot. */
  function Stored(b: seq<Bucket>): seq<Option<Bucket>> {
    seq(|b|, i requires 0 <= i < |b| => Some(b[i]))
  }

  /** What a restart makes of one identity's list: filter, then sort by start. */
  function Bootstrap(cells: seq<Option<Bucket>>, now: int): seq<Bucket> {
    Sort(Earlier, Restored(cells, now - WINDOW_MS))
  }

  lemma {:induction false} RestoredIsPruned(b: seq<Bucket>, cutoff: int, last: int)
    requires Orderly(b, last)
    ensures Restored(Stored(b), cutoff) == Prune(b, cutoff)
  {
    if b != [] {
      hide Orderly;
      var cells := Stored(b);
      assert cells[1..] == Stored(b[1..]);
      LaterBuckets(b, last);
      RestoredIsPruned(b[1..], cutoff, last);
      if b[0].at >= cutoff {
        PruneNothing(b[1..], cutoff);
      }
    }
  }

  lemma LaterBuckets(b: seq<Bucket>, last: int)
    requires Orderly(b, last) && b != []
    ensures Orderly(b[1..], last) && b[0].tokens > 0.0
    ensures forall i :: 0 <= i < |b[1..]| ==> b[1..][i].at > b[0].at
  {
  }

  lemma {:induction false} RestoredMembers(cells: seq<Option<Bucket>>, cutoff: int, b: Bucket)
    ensures b in Restored(cells, cutoff) <==> Some(b) in cells && b.tokens > 0.0 && b.at >= cutoff
  {
    if cells != [] {
      RestoredMembers(cells[1..], cutoff, b);
      assert cells == [cells[0]] + cells[1..];
    }
  }

  /** Of any stored list a restart takes the cells that hold a positive amount and are young enough, by start. */
  lemma BootstrapExact(cells: seq<Option<Bucket>>, now: int, b: Bucket)
    ensures var kept := Bootstrap(cells, now);
            && (forall i, j :: 0 <= i < j < |kept| ==> kept[i].at <= kept[j].at)
            && (b in kept <==> Some(b) in cells && b.tokens > 0.0 && b.at >= now - 86_400_000)
  {
    var all := Restored(cells, now - WINDOW_MS);
    RestoredMembers(cells, now - WINDOW_MS, b);
    SortSorted(Earlier, all);
    SortMembers(Earlier, all);
    var kept := Bootstrap(cells, now);
    forall i, j | 0 <= i < j < |kept| ensures kept[i].at <= kept[j].at {
      assert Earlier(kept[i], kept[j]);
    }
  }

  lemma PruningInvisible(b: seq<Bucket>, boot: int, limit: nat, now: int, tokens: real)
    requires boot <= now
    ensures var b' := Prune(b, boot - WINDOW_MS);
            && Admits(b', limit, tokens, now) == Admits(b, limit, tokens, now)
            && After(b', limit, tokens, now) == After(b, limit, tokens, now)
  {
    PruneTwice(b, boot - WINDOW_MS, now - WINDOW_MS);
  }

  lemma BootstrapPrunes(b: seq<Bucket>, boot: int, last: int)
    requires Orderly(b, last)
    ensures Bootstrap(Stored(b), boot) == Prune(b, boot - WINDOW_MS)
  {
    RestoredIsPruned(b, boot - WINDOW_MS, last);
    PruneFacts(b, boot - WINDOW_MS, last);
    SortOfSorted(Earlier, Prune(b, boot - WINDOW_MS));
  }

  /**
   * A restart from the snapshot of a reachable state is invisible: every later request
   * gets the same verdict and leaves the same buckets.
   */
  lemma RestartInvisible(limit: nat, calls: seq<Call>, boot: int, now: int, tokens: real)
    requires Clocked(calls) && calls != [] && boot <= now
    ensures var b := StateAfter(limit, calls);
            var b' := Bootstrap(Stored(b), boot);
            && Admits(b', limit, tokens, now) == Admits(b, limit, tokens, now)
            && After(b', limit, tokens, now) == After(b, limit, tokens, now)
  {
    var b := StateAfter(limit, calls);
    var last := calls[|calls| - 1].now;
    BucketsAreCharges(limit, calls, last);
    BootstrapPrunes(b, boot, last);
    PruningInvisible(b, boot, limit, now, tokens);
  }
}
