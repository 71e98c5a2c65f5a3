/**
 * The readiness poller: fetch attempts bounded by a per-attempt budget and an overall deadline,
 * with sleeps between them. Time is in milliseconds since the call; it passes only in fetches,
 * which the race with the abort timer ends by the end of their budget, and in sleeps.
 */
module ServerReadiness {

  /** What one fetch would do if nothing cut it short. */
  datatype Probe = Answers(after: nat, ok: bool) | Rejects(after: nat) | Hangs

  datatype Setup = Setup(timeoutMs: int, requestTimeoutMs: int, pollIntervalMs: int, probes: nat -> Probe)

  function Min(a: int, b: int): int { if a < b then a else b }
  function Max(a: int, b: int): int { if a < b then b else a }

  /** The budget of an attempt that starts at time `t`. */
  function Budget(c: Setup, t: int): int {
    Max(1, Min(c.requestTimeoutMs, c.timeoutMs - t))
  }

  /** How long the race between a fetch and its abort timer lasts. */
  function RaceTime(p: Probe, budget: int): int {
    match p
    case Hangs => budget
    case Answers(after, _) => Min(after, budget)
    case Rejects(after) => Min(after, budget)
  }

  predicate RaceOk(p: Probe, budget: int) {
    p.Answers? && p.ok && p.after <= budget
  }

  function SleepTime(c: Setup, t: int): int {
    Max(0, Min(c.pollIntervalMs, c.timeoutMs - t))
  }

  /** When attempt `k` starts, if it is made. */
  function StartOf(c: Setup, k: nat): int
    decreases k, 0
  {
    if k == 0 then 0 else AfterAttempt(c, k - 1) + SleepTime(c, AfterAttempt(c, k - 1))
  }

  function AfterAttempt(c: Setup, k: nat): int
    decreases k, 1
  {
    StartOf(c, k) + RaceTime(c.probes(k), Budget(c, StartOf(c, k)))
  }

  predicate Succeeds(c: Setup, k: nat) {
    RaceOk(c.probes(k), Budget(c, StartOf(c, k)))
  }

  /** Attempt `k` is made: time is left and no earlier attempt succeeded. */
  predicate Made(c: Setup, k: nat) {
    StartOf(c, k) < c.timeoutMs && (k > 0 ==> Made(c, k - 1) && !Succeeds(c, k - 1))
  }

  /** An attempt that is made starts and ends within the deadline, and so does the sleep after it. */
  lemma {:induction false} WithinDeadline(c: Setup, k: nat)
    requires Made(c, k)
    ensures 0 <= StartOf(c, k) <= AfterAttempt(c, k) <= StartOf(c, k + 1) <= c.timeoutMs
  {
    if k > 0 {
      WithinDeadline(c, k - 1);
    }
  }

  /** The longest time an attempt may take: the per-attempt limit and the deadline allow it, or it is
      one millisecond, and nothing longer is allowed. */
  predicate IsLimit(c: Setup, t: int, limit: int) {
    && limit >= 1
    && (limit == 1 || (limit <= c.requestTimeoutMs && t + limit <= c.timeoutMs))
    && (limit < c.requestTimeoutMs ==> t + limit >= c.timeoutMs)
  }

  /**
   * One attempt in full: it succeeds exactly when the server answers well within the limit; it ends
   * with the answer or the rejection, or at the limit; and the next one starts an interval later, at
   * the deadline at the latest.
   */
  lemma AttemptSpec(c: Setup, k: nat, limit: int)
    requires Made(c, k) && IsLimit(c, StartOf(c, k), limit)
    ensures var t, end, probe := StartOf(c, k), AfterAttempt(c, k), c.probes(k);
            && (Succeeds(c, k) <==> probe.Answers? && probe.ok && probe.after <= limit)
            && end == (if !probe.Hangs? && probe.after <= limit then t + probe.after else t + limit)
            && StartOf(c, k + 1) == (if c.pollIntervalMs <= 0 then end
                                     else if end + c.pollIntervalMs <= c.timeoutMs then end + c.pollIntervalMs
                                     else c.timeoutMs)
  {
    WithinDeadline(c, k);
  }

  /** There is one limit for every attempt. */
  lemma SomeLimit(c: Setup, t: int) returns (limit: int)
    ensures IsLimit(c, t, limit)
    ensures forall other :: IsLimit(c, t, other) ==> other == limit
  {
    limit := Budget(c, t);
  }

  /** With a positive interval, attempt `k` starts no earlier than `k` intervals. */
  lemma {:induction false} StartsApart(c: Setup, k: nat)
    requires c.pollIntervalMs > 0 && Made(c, k)
    ensures k * c.pollIntervalMs <= StartOf(c, k)
  {
    if k > 0 {
      StartsApart(c, k - 1);
      WithinDeadline(c, k - 1);
      assert k * c.pollIntervalMs == (k - 1) * c.pollIntervalMs + c.pollIntervalMs;
    }
  }

  /** The ceiling of `a / b`, as the number of intervals needed to cover a span. */
  function CeilDiv(a: int, b: int): int
    requires b > 0
  {
    (a + b - 1) / b
  }

  lemma AttemptsBounded(c: Setup, k: nat)
    requires c.pollIntervalMs > 0 && Made(c, k)
    ensures k + 1 <= CeilDiv(c.timeoutMs, c.pollIntervalMs)
  {
    StartsApart(c, k);
    WithinDeadline(c, k);
    var p, t := c.pollIntervalMs, c.timeoutMs;
    assert k * p < t;
    DivAtLeast(t + p - 1, p, k + 1);
  }

  lemma DivAtLeast(a: int, b: int, q: int)
    requires b > 0 && q * b <= a
    ensures q <= a / b
  {
    if a / b + 1 <= q {
      MulMonotone(a / b + 1, q, b);
      assert false;
    }
  }

  lemma MulMonotone(x: int, y: int, b: int)
    requires x <= y && b > 0
    ensures x * b <= y * b
  {
  }

  /** With every fetch rejected at once and no interval, time stands still and every attempt is made. */
  lemma {:induction false} NoIntervalNeverEnds(c: Setup, k: nat)
    requires c.pollIntervalMs <= 0 < c.timeoutMs
    requires forall i: nat :: c.probes(i) == Rejects(0)
    ensures StartOf(c, k) == 0 && Made(c, k)
  {
    if k > 0 {
      NoIntervalNeverEnds(c, k - 1);
    }
  }

  /** Some attempt is not made, so the loop ends. */
  ghost predicate Ends(c: Setup) {
    exists k: nat :: !Made(c, k)
  }

  /** The loop ends for every server behaviour exactly when the interval is positive or there is
      no time at all. */
  lemma EndsForEveryServerIff(timeoutMs: int, requestTimeoutMs: int, pollIntervalMs: int)
    ensures (forall probes: nat -> Probe :: Ends(Setup(timeoutMs, requestTimeoutMs, pollIntervalMs, probes)))
            <==> (pollIntervalMs > 0 || timeoutMs <= 0)
  {
    if pollIntervalMs > 0 || timeoutMs <= 0 {
      forall probes: nat -> Probe
        ensures Ends(Setup(timeoutMs, requestTimeoutMs, pollIntervalMs, probes))
      {
        AlwaysEnds(Setup(timeoutMs, requestTimeoutMs, pollIntervalMs, probes));
      }
    } else {
      var down: nat -> Probe := k => Rejects(0);
      var c := Setup(timeoutMs, requestTimeoutMs, pollIntervalMs, down);
      forall k: nat ensures Made(c, k) {
        NoIntervalNeverEnds(c, k);
      }
      assert !Ends(c);
    }
  }

  lemma AlwaysEnds(c: Setup)
    requires c.pollIntervalMs > 0 || c.timeoutMs <= 0
    ensures Ends(c)
  {
    if c.timeoutMs <= 0 {
      assert !Made(c, 0);
    } else {
      var bound: nat := Max(0, CeilDiv(c.timeoutMs, c.pollIntervalMs));
      if Made(c, bound) {
        AttemptsBounded(c, bound);
        assert false;
      }
    }
  }

  lemma {:induction false} MadeDownTo(c: Setup, n: nat, k: nat)
    requires n <= k && Made(c, k)
    ensures Made(c, n)
    ensures n < k ==> !Succeeds(c, n)
  {
    if n < k {
      MadeDownTo(c, n, k - 1);
    }
  }

  /** Exactly the first `n` attempts are made. */
  ghost predicate AttemptCount(c: Setup, n: nat) {
    forall k: nat :: Made(c, k) <==> k < n
  }

  /** Some attempt that is made succeeds. */
  ghost predicate SomeSuccess(c: Setup) {
    exists k: nat :: Made(c, k) && Succeeds(c, k)
  }

  /** The attempts of a loop that stopped after attempt `n - 1`. */
  lemma StoppedAfter(c: Setup, n: nat)
    requires !Made(c, n) && (n > 0 ==> Made(c, n - 1))
    ensures AttemptCount(c, n)
    ensures SomeSuccess(c) <==> n > 0 && Succeeds(c, n - 1)
    ensures c.pollIntervalMs > 0 ==> n <= CeilDiv(Max(0, c.timeoutMs), c.pollIntervalMs)
  {
    forall k: nat ensures Made(c, k) <==> k < n {
      if k < n { MadeDownTo(c, k, n - 1); }
      if k >= n && Made(c, k) { MadeDownTo(c, n, k); }
    }
    forall k: nat | k < n - 1 ensures !Succeeds(c, k) {
      MadeDownTo(c, k, n - 1);
    }
    if c.pollIntervalMs > 0 {
      if n > 0 {
        AttemptsBounded(c, n - 1);
      } else {
        DivAtLeast(Max(0, c.timeoutMs) + c.pollIntervalMs - 1, c.pollIntervalMs, 0);
      }
    }
  }

  /**
   * One round of the loop: what it leaves behind when the attempt succeeds, when the deadline is
   * reached, and when there is time for a sleep and another attempt.
   */
  lemma OneRound(c: Setup, k: nat)
    requires Made(c, k)
    ensures StartOf(c, k) < c.timeoutMs && 0 <= AfterAttempt(c, k) <= c.timeoutMs
    ensures Succeeds(c, k) || AfterAttempt(c, k) == c.timeoutMs ==> !Made(c, k + 1)
    ensures 0 <= StartOf(c, k + 1) <= c.timeoutMs
    ensures !Succeeds(c, k) && StartOf(c, k + 1) < c.timeoutMs ==> Made(c, k + 1)
  {
    WithinDeadline(c, k);
  }

  /** One fetch against its abort timer. */
  method Attempt(c: Setup, start: int, k: nat) returns (now: int, ok: bool)
    requires start == StartOf(c, k)
    ensures now == AfterAttempt(c, k) && ok == Succeeds(c, k)
  {
    var budget := Max(1, Min(c.requestTimeoutMs, c.timeoutMs - start));
    var probe := c.probes(k);
    now := start + RaceTime(probe, budget);
    ok := RaceOk(probe, budget);
  }

  /** The sleep after a fetch. */
  method Sleep(c: Setup, after: int, k: nat) returns (now: int)
    requires after == AfterAttempt(c, k)
    ensures now == StartOf(c, k + 1)
  {
    now := after + Max(0, Min(c.pollIntervalMs, c.timeoutMs - after));
  }

  /** The loop, whenever it ends: it stops after attempt `attempts - 1`. */
  method Poll(c: Setup, ghost last: nat) returns (ready: bool, now: int, attempts: nat)
    requires !Made(c, last)
    ensures !Made(c, attempts) && (attempts > 0 ==> Made(c, attempts - 1))
    ensures ready <==> attempts > 0 && Succeeds(c, attempts - 1)
    ensures 0 <= now <= Max(0, c.timeoutMs)
  {
    ready, now, attempts := false, 0, 0;
    while now < c.timeoutMs
      invariant now == StartOf(c, attempts)
      invariant 0 <= now <= Max(0, c.timeoutMs)
      invariant attempts > 0 ==> Made(c, attempts - 1) && !Succeeds(c, attempts - 1)
      decreases last - attempts
    {
      BeforeLast(c, attempts, last);
      OneRound(c, attempts);
      now, ready := Attempt(c, now, attempts);
      attempts := attempts + 1;
      if ready {
        return;
      }
      var pollRemaining := c.timeoutMs - now;
      if pollRemaining <= 0 {
        break;
      }
      now := Sleep(c, now, attempts - 1);
    }
  }

  /**
   * The poller, whenever its loop ends: it ends within the deadline, reports readiness exactly
   * when some attempt that was made succeeded, and warns exactly once otherwise. With a positive
   * interval it always ends, with at most one attempt per interval of the timeout.
   */
  method WaitForServer(c: Setup) returns (ready: bool, now: int, attempts: nat, warnings: nat)
    requires Ends(c)
    ensures AttemptCount(c, attempts)
    ensures ready <==> SomeSuccess(c)
    ensures 0 <= now <= Max(0, c.timeoutMs)
    ensures c.pollIntervalMs > 0 ==> attempts <= CeilDiv(Max(0, c.timeoutMs), c.pollIntervalMs)
    ensures warnings == if ready then 0 else 1
  {
    ghost var last: nat :| !Made(c, last);
    ready, now, attempts := Poll(c, last);
    StoppedAfter(c, attempts);
    warnings := if ready then 0 else 1;
  }

  lemma BeforeLast(c: Setup, k: nat, last: nat)
    requires Made(c, k) && !Made(c, last)
    ensures k < last
  {
    if last <= k {
      MadeDownTo(c, last, k);
    }
  }
}
