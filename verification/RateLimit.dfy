/** The token-bucket limiter.  Time is in integer nanoseconds and the refill is exact arithmetic. */
module RateLimit {
  import opened Options

  const MINUTE := 60_000_000_000

  datatype Bucket = Bucket(tokens: int, last: int)

  /** A request with the two clock readings of its critical section: the one that measures the
      elapsed time and the one that is stored in the bucket. */
  datatype Request = Request(key: string, seen: int, stamped: int)

  datatype Verdict = Verdict(bucket: Bucket, admitted: bool)

  /** The exact refill over `elapsed`, in tokens per MINUTE nanoseconds. */
  function Exact(rpm: nat, elapsed: int): int {
    rpm * elapsed
  }

  lemma ExactAdds(rpm: nat, a: int, b: int)
    ensures Exact(rpm, a) + Exact(rpm, b) == Exact(rpm, a + b)
  {
  }

  lemma ExactGrows(rpm: nat, a: int, b: int)
    requires a <= b
    ensures Exact(rpm, a) <= Exact(rpm, b)
  {
  }

  /** The whole tokens of the exact refill, truncated toward zero. */
  function Refill(rpm: nat, elapsed: int): int {
    if elapsed >= 0 then Exact(rpm, elapsed) / MINUTE else -(Exact(rpm, -elapsed) / MINUTE)
  }

  function Min(a: int, b: int): int {
    if a <= b then a else b
  }

  /** The tokens a request finds; a new bucket is full. */
  function Available(rpm: nat, bucket: Option<Bucket>, seen: int): int {
    match bucket
    case None => rpm
    case Some(b) => Min(rpm, b.tokens + Refill(rpm, seen - b.last))
  }

  function Decide(rpm: nat, bucket: Option<Bucket>, seen: int, stamped: int): Verdict {
    var tokens := Available(rpm, bucket, seen);
    if tokens <= 0 then Verdict(Bucket(tokens, stamped), false)
    else Verdict(Bucket(tokens - 1, stamped), true)
  }

  function Lookup(buckets: map<string, Bucket>, key: string): Option<Bucket> {
    if key in buckets then Some(buckets[key]) else None
  }

  class RateLimiter {
    const requestsPerMinute: nat
    var buckets: map<string, Bucket>

    constructor (requestsPerMinute: nat)
      ensures this.requestsPerMinute == requestsPerMinute && buckets == map[]
    {
      this.requestsPerMinute := requestsPerMinute;
      buckets := map[];
    }

    /** `created`, `seen` and `stamped` are the clock readings of the critical section. */
    method Allow(token: string, remoteAddr: string, created: int, seen: int, stamped: int) returns (admitted: bool)
      requires created <= seen <= stamped
      modifies this
      ensures var key := if token == "" then remoteAddr else token;
              var verdict := Decide(requestsPerMinute, Lookup(old(buckets), key), seen, stamped);
              admitted == verdict.admitted && buckets == old(buckets)[key := verdict.bucket]
    {
      var key := token;
      if key == "" {
        key := remoteAddr;
      }
      var b := Bucket(requestsPerMinute, created);
      if key in buckets {
        b := buckets[key];
      }
      var elapsed := seen - b.last;
      b := b.(tokens := b.tokens + Refill(requestsPerMinute, elapsed));
      RefillIsBounded(requestsPerMinute, elapsed);
      if b.tokens > requestsPerMinute {
        b := b.(tokens := requestsPerMinute);
      }
      b := b.(last := stamped);
      buckets := buckets[key := b];
      if b.tokens <= 0 {
        return false;
      }
      buckets := buckets[key := b.(tokens := b.tokens - 1)];
      return true;
    }
  }

  // ---------------------------------------------------------------------------------------
  // Runs
  // ---------------------------------------------------------------------------------------

  /** Critical sections are serialised by the mutex, so readings never decrease. */
  predicate Timed(trace: seq<Request>) {
    && (forall i | 0 <= i < |trace| :: trace[i].seen <= trace[i].stamped)
    && (forall i, j | 0 <= i < j < |trace| :: trace[i].stamped <= trace[j].seen)
  }

  /** The buckets after the first `n` requests. */
  function After(rpm: nat, trace: seq<Request>, n: nat): map<string, Bucket>
    requires n <= |trace|
  {
    if n == 0 then map[]
    else
      var earlier, r := After(rpm, trace, n - 1), trace[n - 1];
      earlier[r.key := Decide(rpm, Lookup(earlier, r.key), r.seen, r.stamped).bucket]
  }

  function Admitted(rpm: nat, trace: seq<Request>, i: nat): bool
    requires i < |trace|
  {
    Decide(rpm, Lookup(After(rpm, trace, i), trace[i].key), trace[i].seen, trace[i].stamped).admitted
  }

  lemma RefillIsBounded(rpm: nat, elapsed: int)
    ensures elapsed >= 0 ==> 0 <= Refill(rpm, elapsed) && Refill(rpm, elapsed) * MINUTE <= Exact(rpm, elapsed)
  {
    if elapsed >= 0 {
      ExactGrows(rpm, 0, elapsed);
      var x := Exact(rpm, elapsed);
      hide Exact;
      assert (x / MINUTE) * MINUTE <= x;
    }
  }

  /** Tokens stay between 0 and the limit, and every bucket was last touched by a past request. */
  lemma {:induction false} TokensInRange(rpm: nat, trace: seq<Request>, n: nat, key: string)
    requires n <= |trace| && Timed(trace) && key in After(rpm, trace, n)
    ensures 0 <= After(rpm, trace, n)[key].tokens <= rpm
    ensures forall i | n <= i < |trace| :: After(rpm, trace, n)[key].last <= trace[i].seen
  {
    var earlier, r := After(rpm, trace, n - 1), trace[n - 1];
    if key in earlier {
      TokensInRange(rpm, trace, n - 1, key);
      RefillIsBounded(rpm, r.seen - earlier[key].last);
    }
  }

  // ---------------------------------------------------------------------------------------
  // The bound on any interval
  // ---------------------------------------------------------------------------------------

  /** The requests for `key` admitted at times in [from, to] among the first `n`. */
  function AdmittedIn(rpm: nat, trace: seq<Request>, key: string, from: int, to: int, n: nat): nat
    requires n <= |trace|
  {
    if n == 0 then 0
    else
      AdmittedIn(rpm, trace, key, from, to, n - 1) +
      (if trace[n - 1].key == key && from <= trace[n - 1].seen <= to && Admitted(rpm, trace, n - 1) then 1 else 0)
  }

  /** The tokens left and the admissions counted since `from` are paid for by one full bucket and
      the exact refill since `from`. */
  ghost predicate PaidFor(rpm: nat, bucket: Option<Bucket>, admitted: nat, from: int, to: int) {
    && (admitted > 0 ==>
          && bucket.Some? && from <= bucket.value.last
          && (admitted + bucket.value.tokens) * MINUTE <= rpm * MINUTE + Exact(rpm, bucket.value.last - from))
    && admitted * MINUTE <= rpm * MINUTE + Exact(rpm, to - from)
  }

  lemma DecideIsPaidFor(rpm: nat, bucket: Option<Bucket>, admitted: nat, from: int, to: int, seen: int, stamped: int)
    requires PaidFor(rpm, bucket, admitted, from, to) && from <= to && seen <= stamped
    requires bucket.Some? ==> 0 <= bucket.value.tokens <= rpm && bucket.value.last <= seen
    ensures var verdict := Decide(rpm, bucket, seen, stamped);
            PaidFor(rpm, Some(verdict.bucket),
                    admitted + (if from <= seen <= to && verdict.admitted then 1 else 0), from, to)
  {
    var tokens := Available(rpm, bucket, seen);
    ExactGrows(rpm, 0, to - from);
    assert Exact(rpm, 0) == 0;
    if admitted > 0 {
      RefillIsBounded(rpm, seen - bucket.value.last);
      ExactAdds(rpm, bucket.value.last - from, seen - bucket.value.last);
    }
    if from <= seen {
      ExactGrows(rpm, 0, seen - from);
      ExactGrows(rpm, seen - from, stamped - from);
      if seen <= to {
        ExactGrows(rpm, seen - from, to - from);
      }
    }
    hide Exact;
    hide Refill;
  }

  lemma NothingAdmitted(rpm: nat, from: int, to: int)
    requires from <= to
    ensures PaidFor(rpm, None, 0, from, to)
  {
    ExactGrows(rpm, 0, to - from);
  }

  lemma {:induction false} RunIsPaidFor(rpm: nat, trace: seq<Request>, key: string, from: int, to: int, n: nat)
    requires n <= |trace| && Timed(trace) && from <= to
    ensures PaidFor(rpm, Lookup(After(rpm, trace, n), key), AdmittedIn(rpm, trace, key, from, to, n), from, to)
  {
    ExactGrows(rpm, 0, to - from);
    hide Exact;
    hide Refill;
    hide Decide;
    hide PaidFor;
    if n == 0 {
      NothingAdmitted(rpm, from, to);
    } else {
      RunIsPaidFor(rpm, trace, key, from, to, n - 1);
      if trace[n - 1].key == key {
        var r, bucket := trace[n - 1], Lookup(After(rpm, trace, n - 1), key);
        if bucket.Some? {
          TokensInRange(rpm, trace, n - 1, key);
        }
        DecideIsPaidFor(rpm, bucket, AdmittedIn(rpm, trace, key, from, to, n - 1), from, to, r.seen, r.stamped);
      }
    }
  }

  /** In any run, over all keys and spacings, the requests admitted for one key in an interval
      number at most the limit plus the whole tokens of the exact refill over that interval. */
  lemma AdmissionBound(rpm: nat, trace: seq<Request>, key: string, from: int, to: int)
    requires Timed(trace) && from <= to
    ensures AdmittedIn(rpm, trace, key, from, to, |trace|) <= rpm + Exact(rpm, to - from) / MINUTE
    ensures AdmittedIn(rpm, trace, key, from, to, |trace|) <= rpm + rpm * (to - from) / 60_000_000_000
  {
    RunIsPaidFor(rpm, trace, key, from, to, |trace|);
    var admitted, x := AdmittedIn(rpm, trace, key, from, to, |trace|), Exact(rpm, to - from);
    hide Exact;
    assert (admitted - rpm) * MINUTE <= x;
    assert admitted - rpm <= x / MINUTE;
  }

  // ---------------------------------------------------------------------------------------
  // The bound is reached
  // ---------------------------------------------------------------------------------------

  lemma {:induction false} AfterPrefix(rpm: nat, trace: seq<Request>, r: Request, n: nat)
    requires n <= |trace|
    ensures After(rpm, trace + [r], n) == After(rpm, trace, n)
  {
    hide Decide;
    if n > 0 {
      AfterPrefix(rpm, trace, r, n - 1);
    }
  }

  lemma {:induction false} AdmittedPrefix(rpm: nat, trace: seq<Request>, r: Request, key: string, to: int, n: nat)
    requires n <= |trace|
    ensures AdmittedIn(rpm, trace + [r], key, 0, to, n) == AdmittedIn(rpm, trace, key, 0, to, n)
  {
    hide Decide;
    hide After;
    if n > 0 {
      AdmittedPrefix(rpm, trace, r, key, to, n - 1);
      AfterPrefix(rpm, trace, r, n - 1);
    }
  }

  /** A run of requests for one key up to time `now`, of which `admitted` count, and which leaves this
      bucket. */
  ghost predicate Spent(rpm: nat, trace: seq<Request>, key: string, to: int, now: int, bucket: Option<Bucket>,
                        admitted: nat) {
    && Timed(trace) && (forall i | 0 <= i < |trace| :: trace[i].stamped <= now)
    && Lookup(After(rpm, trace, |trace|), key) == bucket
    && AdmittedIn(rpm, trace, key, 0, to, |trace|) == admitted
  }

  /** One more request, at one reading of the clock. */
  lemma SpendOne(rpm: nat, trace: seq<Request>, key: string, to: int, last: int, now: int, bucket: Option<Bucket>,
                 admitted: nat) returns (more: seq<Request>)
    requires Spent(rpm, trace, key, to, last, bucket, admitted) && last <= now && 0 <= now <= to
    requires Available(rpm, bucket, now) > 0
    ensures Spent(rpm, more, key, to, now, Some(Bucket(Available(rpm, bucket, now) - 1, now)), admitted + 1)
  {
    hide Available;
    hide After;
    var r := Request(key, now, now);
    more := trace + [r];
    AfterPrefix(rpm, trace, r, |trace|);
    AdmittedPrefix(rpm, trace, r, key, to, |trace|);
    AfterStep(rpm, more, key, |trace|);
  }

  lemma NoRefill(rpm: nat, tokens: int, now: int)
    requires tokens <= rpm
    ensures Available(rpm, Some(Bucket(tokens, now)), now) == tokens
  {
    assert Exact(rpm, 0) == 0;
  }

  /** `n` requests at one reading of the clock. */
  lemma {:induction false} SpendAll(rpm: nat, trace: seq<Request>, key: string, to: int, last: int, now: int,
                                    bucket: Option<Bucket>, admitted: nat, n: nat) returns (more: seq<Request>)
    requires Spent(rpm, trace, key, to, last, bucket, admitted) && last <= now && 0 <= now <= to
    requires 0 < n <= Available(rpm, bucket, now)
    ensures Spent(rpm, more, key, to, now, Some(Bucket(Available(rpm, bucket, now) - n, now)), admitted + n)
    decreases n
  {
    hide Spent;
    var tokens := Available(rpm, bucket, now);
    AvailableAtMost(rpm, bucket, now);
    hide Available;
    more := SpendOne(rpm, trace, key, to, last, now, bucket, admitted);
    if n > 1 {
      NoRefill(rpm, tokens - 1, now);
      more := SpendAll(rpm, more, key, to, now, now, Some(Bucket(tokens - 1, now)), admitted + 1, n - 1);
    }
  }

  lemma AvailableAtMost(rpm: nat, bucket: Option<Bucket>, seen: int)
    ensures Available(rpm, bucket, seen) <= rpm
  {
    hide Refill;
  }

  /** An empty bucket has the whole tokens of the exact refill, up to the limit. */
  lemma RefilledEmpty(rpm: nat, last: int, elapsed: int)
    requires 0 <= elapsed <= MINUTE
    ensures Available(rpm, Some(Bucket(0, last)), last + elapsed) == Exact(rpm, elapsed) / MINUTE <= rpm
  {
    ExactGrows(rpm, elapsed, MINUTE);
    var x := Exact(rpm, elapsed);
    assert Exact(rpm, MINUTE) == rpm * MINUTE;
    hide Exact;
    assert x / MINUTE <= rpm;
  }

  /** A full burst at each whole minute up to minute `m`. */
  lemma {:induction false} BurstEachMinute(rpm: nat, key: string, to: int, m: nat) returns (trace: seq<Request>)
    requires rpm > 0 && m * MINUTE <= to
    ensures Spent(rpm, trace, key, to, m * MINUTE, Some(Bucket(0, m * MINUTE)), rpm + rpm * m)
    decreases m
  {
    if m == 0 {
      assert Spent(rpm, [], key, to, 0, None, 0);
      trace := SpendAll(rpm, [], key, to, 0, 0, None, 0, rpm);
    } else {
      hide Spent;
      var last := (m - 1) * MINUTE;
      trace := BurstEachMinute(rpm, key, to, m - 1);
      RefilledEmpty(rpm, last, MINUTE);
      WholeMinute(rpm);
      hide Available;
      trace := SpendAll(rpm, trace, key, to, last, m * MINUTE, Some(Bucket(0, last)), rpm + rpm * (m - 1), rpm);
      OneMoreMinute(rpm, m);
    }
  }

  lemma WholeMinute(rpm: nat)
    ensures Exact(rpm, MINUTE) / MINUTE == rpm
  {
    assert Exact(rpm, MINUTE) == rpm * MINUTE;
  }

  lemma OneMoreMinute(rpm: nat, m: nat)
    requires m > 0
    ensures rpm + rpm * (m - 1) + rpm == rpm + rpm * m
  {
  }

  lemma RefillSplits(rpm: nat, m: nat, rest: nat)
    ensures Exact(rpm, m * MINUTE + rest) / MINUTE == rpm * m + Exact(rpm, rest) / MINUTE
  {
    ExactAdds(rpm, m * MINUTE, rest);
    var x := Exact(rpm, rest);
    assert Exact(rpm, m * MINUTE) == rpm * (m * MINUTE) == (rpm * m) * MINUTE;
    hide Exact;
    assert ((rpm * m) * MINUTE + x) / MINUTE == rpm * m + x / MINUTE;
  }

  /** The last burst, of the whole tokens refilled since the bucket was empty. */
  lemma SpendRest(rpm: nat, trace: seq<Request>, key: string, last: nat, rest: nat, admitted: nat)
    returns (more: seq<Request>)
    requires rpm > 0 && Spent(rpm, trace, key, last + rest, last, Some(Bucket(0, last)), admitted)
    requires rest < MINUTE && 0 <= Exact(rpm, rest)
    ensures Timed(more)
    ensures AdmittedIn(rpm, more, key, 0, last + rest, |more|) == admitted + Exact(rpm, rest) / MINUTE
  {
    RefilledEmpty(rpm, last, rest);
    hide Exact;
    hide Available;
    hide After;
    more := trace;
    var n := Exact(rpm, rest) / MINUTE;
    if n > 0 {
      more := SpendAll(rpm, trace, key, last + rest, last, last + rest, Some(Bucket(0, last)), admitted, n);
    }
  }

  /** For every limit and every length some run of one client admits exactly as many requests in a closed
      interval as the bound allows: a burst at each whole minute and one at the end. */
  lemma AdmissionBoundIsReached(rpm: nat, key: string, to: nat) returns (trace: seq<Request>)
    ensures Timed(trace)
    ensures AdmittedIn(rpm, trace, key, 0, to, |trace|) == rpm + Exact(rpm, to) / MINUTE
  {
    if rpm == 0 {
      trace := [];
      assert Exact(0, to) == 0;
    } else {
      assert Exact(rpm, 0) == 0;
      hide Exact;
      hide After;
      hide Spent;
      hide AdmittedIn;
      var m, rest := to / MINUTE, to % MINUTE;
      RefillSplits(rpm, m, rest);
      ExactGrows(rpm, 0, rest);
      trace := BurstEachMinute(rpm, key, to, m);
      trace := SpendRest(rpm, trace, key, m * MINUTE, rest, rpm + rpm * m);
    }
  }

  /** So a closed minute can admit twice the limit, and never more. */
  lemma MinuteAdmitsTwice(rpm: nat, key: string) returns (trace: seq<Request>)
    ensures Timed(trace) && AdmittedIn(rpm, trace, key, 0, 60_000_000_000, |trace|) == 2 * rpm
    ensures forall other: seq<Request> | Timed(other) ::
              AdmittedIn(rpm, other, key, 0, 60_000_000_000, |other|) <= 2 * rpm
  {
    hide Timed;
    hide AdmittedIn;
    trace := AdmissionBoundIsReached(rpm, key, 60_000_000_000);
    forall other: seq<Request> | Timed(other)
      ensures AdmittedIn(rpm, other, key, 0, 60_000_000_000, |other|) <= 2 * rpm
    {
      AdmissionBound(rpm, other, key, 0, 60_000_000_000);
    }
  }

  // ---------------------------------------------------------------------------------------
  // The keyed limiter is one independent bucket for each key
  // ---------------------------------------------------------------------------------------

  /** The requests for one key among the first `n`. */
  function Only(trace: seq<Request>, key: string, n: nat): seq<Request>
    requires n <= |trace|
  {
    if n == 0 then []
    else if trace[n - 1].key == key then Only(trace, key, n - 1) + [trace[n - 1]]
    else Only(trace, key, n - 1)
  }

  /** The decisions for one key among the first `n` requests. */
  function Decisions(rpm: nat, trace: seq<Request>, key: string, n: nat): seq<bool>
    requires n <= |trace|
  {
    if n == 0 then []
    else if trace[n - 1].key == key then Decisions(rpm, trace, key, n - 1) + [Admitted(rpm, trace, n - 1)]
    else Decisions(rpm, trace, key, n - 1)
  }

  /** One bucket, with no notion of keys, over a sequence of requests. */
  function Single(rpm: nat, requests: seq<Request>): Option<Bucket> {
    if requests == [] then None
    else
      var r := requests[|requests| - 1];
      Some(Decide(rpm, Single(rpm, requests[..|requests| - 1]), r.seen, r.stamped).bucket)
  }

  function SingleDecisions(rpm: nat, requests: seq<Request>): seq<bool> {
    if requests == [] then []
    else
      var earlier, r := requests[..|requests| - 1], requests[|requests| - 1];
      SingleDecisions(rpm, earlier) + [Decide(rpm, Single(rpm, earlier), r.seen, r.stamped).admitted]
  }

  /** The bucket of a key and its decisions on an interleaved trace are those of a single bucket run
      on that key's requests alone. */
  lemma {:induction false} KeyedIsIndependent(rpm: nat, trace: seq<Request>, key: string, n: nat)
    requires n <= |trace|
    ensures Lookup(After(rpm, trace, n), key) == Single(rpm, Only(trace, key, n))
    ensures Decisions(rpm, trace, key, n) == SingleDecisions(rpm, Only(trace, key, n))
  {
    hide Decide;
    if n != 0 {
      KeyedIsIndependent(rpm, trace, key, n - 1);
      if trace[n - 1].key == key {
        var only := Only(trace, key, n);
        assert only[..|only| - 1] == Only(trace, key, n - 1);
      }
    }
  }

  // ---------------------------------------------------------------------------------------
  // After an idle gap
  // ---------------------------------------------------------------------------------------

  /** The number of requests for the key at positions in [i, j). */
  function Between(trace: seq<Request>, key: string, i: nat, j: nat): nat
    requires i <= j <= |trace|
  {
    if i == j then 0 else Between(trace, key, i, j - 1) + (if trace[j - 1].key == key then 1 else 0)
  }

  /** The tokens that a request for the key would find at position `j`, at its own time. */
  ghost predicate Finds(rpm: nat, trace: seq<Request>, key: string, j: nat, tokens: int)
    requires j <= |trace|
  {
    forall m | j <= m < |trace| :: Available(rpm, Lookup(After(rpm, trace, j), key), trace[m].seen) >= tokens
  }

  lemma {:induction false} StillFinds(rpm: nat, trace: seq<Request>, key: string, i: nat, j: nat, tokens: nat)
    requires i <= j <= |trace| && Timed(trace) && Finds(rpm, trace, key, i, tokens) && tokens <= rpm
    requires Between(trace, key, i, j) <= tokens
    ensures Finds(rpm, trace, key, j, tokens - Between(trace, key, i, j))
  {
    hide Exact;
    hide Refill;
    if i < j {
      StillFinds(rpm, trace, key, i, j - 1, tokens);
      var r := trace[j - 1];
      if r.key == key {
        var bucket := After(rpm, trace, j)[key];
        TokensInRange(rpm, trace, j, key);
        assert bucket.tokens >= tokens - Between(trace, key, i, j);
        forall m | j <= m < |trace|
          ensures Available(rpm, Some(bucket), trace[m].seen) >= tokens - Between(trace, key, i, j)
        {
          RefillIsBounded(rpm, trace[m].seen - bucket.last);
        }
      }
    }
  }

  lemma GapRefills(rpm: nat, gap: nat, elapsed: int, k: nat)
    requires gap <= elapsed && k * MINUTE <= Exact(rpm, gap)
    ensures Refill(rpm, elapsed) >= k
  {
    ExactGrows(rpm, gap, elapsed);
    var x := Exact(rpm, elapsed);
    hide Exact;
    assert k * MINUTE <= x;
  }

  /** When a key has no bucket, or has been idle for at least k/rpm minutes, its next min(k, rpm)
      requests are all admitted, whatever their spacing and whatever other keys do. */
  lemma IdleKeyIsAdmitted(rpm: nat, trace: seq<Request>, key: string, i: nat, j: nat, gap: nat, k: nat)
    requires i <= j < |trace| && Timed(trace) && trace[j].key == key
    requires k * MINUTE <= Exact(rpm, gap)
    requires var bucket := Lookup(After(rpm, trace, i), key);
             bucket.Some? ==>
               forall m | i <= m < |trace| && trace[m].key == key :: gap <= trace[m].seen - bucket.value.last
    requires Between(trace, key, i, j) < (if key in After(rpm, trace, i) then Min(k, rpm) else rpm)
    ensures Admitted(rpm, trace, j)
  {
    hide Exact;
    hide Refill;
    hide After;
    if key !in After(rpm, trace, i) {
      assert Finds(rpm, trace, key, i, rpm);
      StillFinds(rpm, trace, key, i, j, rpm);
    } else {
      var f := NextFor(trace, key, i, j);
      NoneBetween(rpm, trace, key, i, f);
      GapFinds(rpm, trace, key, i, f, gap, k);
      BetweenSplits(trace, key, i, f, j);
      StillFinds(rpm, trace, key, f, j, Min(k, rpm));
    }
  }

  lemma GapFinds(rpm: nat, trace: seq<Request>, key: string, i: nat, f: nat, gap: nat, k: nat)
    requires i <= f < |trace| && Timed(trace) && k * MINUTE <= Exact(rpm, gap)
    requires key in After(rpm, trace, i) && Lookup(After(rpm, trace, f), key) == Lookup(After(rpm, trace, i), key)
    requires gap <= trace[f].seen - After(rpm, trace, i)[key].last
    ensures Finds(rpm, trace, key, f, Min(k, rpm))
  {
    hide Exact;
    hide Refill;
    hide After;
    var bucket := After(rpm, trace, i)[key];
    TokensInRange(rpm, trace, i, key);
    forall m | f <= m < |trace| ensures Available(rpm, Some(bucket), trace[m].seen) >= Min(k, rpm) {
      assert trace[f].seen <= trace[m].seen;
      GapRefills(rpm, gap, trace[m].seen - bucket.last, k);
    }
  }

  /** The first request for the key at or after position `i`. */
  function NextFor(trace: seq<Request>, key: string, i: nat, j: nat): (f: nat)
    requires i <= j < |trace| && trace[j].key == key
    ensures i <= f <= j && trace[f].key == key && forall m | i <= m < f :: trace[m].key != key
    decreases j - i
  {
    if trace[i].key == key then i else NextFor(trace, key, i + 1, j)
  }

  lemma {:induction false} NoneBetween(rpm: nat, trace: seq<Request>, key: string, i: nat, f: nat)
    requires i <= f <= |trace| && forall m | i <= m < f :: trace[m].key != key
    ensures Lookup(After(rpm, trace, f), key) == Lookup(After(rpm, trace, i), key)
    ensures Between(trace, key, i, f) == 0
  {
    if i < f {
      NoneBetween(rpm, trace, key, i, f - 1);
    }
  }

  lemma {:induction false} BetweenSplits(trace: seq<Request>, key: string, i: nat, f: nat, j: nat)
    requires i <= f <= j <= |trace|
    ensures Between(trace, key, i, j) == Between(trace, key, i, f) + Between(trace, key, f, j)
  {
    if f < j {
      BetweenSplits(trace, key, i, f, j - 1);
    }
  }

  // ---------------------------------------------------------------------------------------
  // A client that retries too fast
  // ---------------------------------------------------------------------------------------

  /** The requests for the key at positions in [i, j) each come before the exact refill since the
      key's previous request reaches one token. */
  ghost predicate Eager(rpm: nat, trace: seq<Request>, key: string, i: nat, j: nat)
    requires i <= j <= |trace|
  {
    forall m | i <= m < j && trace[m].key == key ::
      key in After(rpm, trace, m) && Exact(rpm, trace[m].seen - After(rpm, trace, m)[key].last) < MINUTE
  }

  /** Rejected requests move `last` too, so the fractions they truncate are lost: an empty bucket
      admits nothing for as long as its client keeps retrying faster than one token refills. */
  lemma {:induction false} EagerClientStarves(rpm: nat, trace: seq<Request>, key: string, i: nat, j: nat)
    requires i <= j <= |trace| && Timed(trace) && Eager(rpm, trace, key, i, j)
    requires key in After(rpm, trace, i) && After(rpm, trace, i)[key].tokens == 0
    ensures key in After(rpm, trace, j) && After(rpm, trace, j)[key].tokens == 0
    ensures forall m | i <= m < j && trace[m].key == key :: !Admitted(rpm, trace, m)
  {
    if i < j {
      EagerClientStarves(rpm, trace, key, i, j - 1);
      if trace[j - 1].key == key {
        TokensInRange(rpm, trace, j - 1, key);
        EmptyDecidesIff(rpm, After(rpm, trace, j - 1)[key], trace[j - 1].seen, trace[j - 1].stamped);
        hide Exact;
        hide Decide;
      }
    }
  }

  /** An empty bucket rejects a request exactly when less than one token has refilled. */
  lemma EmptyDecidesIff(rpm: nat, bucket: Bucket, seen: int, stamped: int)
    requires bucket.tokens == 0 && bucket.last <= seen
    ensures var verdict := Decide(rpm, Some(bucket), seen, stamped);
            && (!verdict.admitted <==> Exact(rpm, seen - bucket.last) < MINUTE)
            && (!verdict.admitted ==> verdict.bucket.tokens == 0)
  {
    var elapsed := seen - bucket.last;
    RefillIsBounded(rpm, elapsed);
    ExactGrows(rpm, 0, elapsed);
    assert Exact(rpm, 0) == 0;
    hide Exact;
  }

  lemma AfterStep(rpm: nat, trace: seq<Request>, key: string, m: nat)
    requires m < |trace|
    ensures var bucket, r := Lookup(After(rpm, trace, m), key), trace[m];
            && Lookup(After(rpm, trace, m + 1), key)
               == (if r.key == key then Some(Decide(rpm, bucket, r.seen, r.stamped).bucket) else bucket)
            && (r.key == key ==> Admitted(rpm, trace, m) == Decide(rpm, bucket, r.seen, r.stamped).admitted)
  {
    hide Decide;
  }

  lemma {:induction false} RejectedIsEager(rpm: nat, trace: seq<Request>, key: string, i: nat, j: nat)
    requires i <= j <= |trace| && Timed(trace)
    requires key in After(rpm, trace, i) && After(rpm, trace, i)[key].tokens == 0
    requires forall m | i <= m < j && trace[m].key == key :: !Admitted(rpm, trace, m)
    ensures Eager(rpm, trace, key, i, j)
    ensures key in After(rpm, trace, j) && After(rpm, trace, j)[key].tokens == 0
  {
    hide After;
    hide Admitted;
    hide Decide;
    hide Exact;
    if i < j {
      RejectedIsEager(rpm, trace, key, i, j - 1);
      AfterStep(rpm, trace, key, j - 1);
      var r, bucket := trace[j - 1], After(rpm, trace, j - 1)[key];
      if r.key == key {
        TokensInRange(rpm, trace, j - 1, key);
        EmptyDecidesIff(rpm, bucket, r.seen, r.stamped);
      }
    }
  }

  /** Exactly such a client is never admitted. */
  lemma StarvesIff(rpm: nat, trace: seq<Request>, key: string, i: nat, j: nat)
    requires i <= j <= |trace| && Timed(trace)
    requires key in After(rpm, trace, i) && After(rpm, trace, i)[key].tokens == 0
    ensures (forall m | i <= m < j && trace[m].key == key :: !Admitted(rpm, trace, m)) <==> Eager(rpm, trace, key, i, j)
  {
    hide After;
    hide Exact;
    hide Admitted;
    if Eager(rpm, trace, key, i, j) {
      EagerClientStarves(rpm, trace, key, i, j);
    }
    if forall m | i <= m < j && trace[m].key == key :: !Admitted(rpm, trace, m) {
      RejectedIsEager(rpm, trace, key, i, j);
    }
  }
}
