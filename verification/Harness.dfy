/**
 The provider harness of src/fastrag/harness.py: circuit breaker, deadline, backoff and the retry
 loop around one call. Time is a real number read off a monotonic clock; how long an operation takes,
 how it ends and what the jitter draws are parameters.
 */
module Harness {
  import opened Common

  /******* Circuit breaker *******/

  datatype Breaker = Breaker(threshold: int, reset: real, failures: int, openedAt: Option<real>)

  function NewBreaker(threshold: int, reset: real): Breaker { Breaker(threshold, reset, 0, None) }

  /** Reading `is_open` at `now`: a breaker whose reset time has passed half-opens. */
  function Probe(b: Breaker, now: real): Breaker {
    if b.openedAt.Some? && now - b.openedAt.value >= b.reset
    then b.(openedAt := None, failures := b.threshold - 1) else b
  }

  predicate IsOpen(b: Breaker, now: real) { Probe(b, now).openedAt.Some? }

  function RecordSuccess(b: Breaker): Breaker { b.(failures := 0, openedAt := None) }

  function RecordFailure(b: Breaker, now: real): Breaker {
    var failures := b.failures + 1;
    b.(failures := failures,
       openedAt := if failures >= b.threshold && b.openedAt.None? then Some(now) else b.openedAt)
  }

  /** Closed exactly while fewer failures than the threshold are on record. */
  predicate Coherent(b: Breaker) { b.openedAt.None? <==> b.failures < b.threshold }

  datatype BreakerEvent = Before(now: real) | Success | Failure(at: real)

  function Happen(b: Breaker, e: BreakerEvent): Breaker {
    match e
    case Before(now) => Probe(b, now)
    case Success => RecordSuccess(b)
    case Failure(at) => RecordFailure(b, at)
  }

  function HappenAll(b: Breaker, es: seq<BreakerEvent>): (r: Breaker)
    ensures r.threshold == b.threshold && r.reset == b.reset
    decreases |es|
  {
    if es == [] then b else HappenAll(Happen(b, es[0]), es[1..])
  }

  /** Under any interleaving of admissions, successes and failures, overlapping calls included, the
      breaker is closed exactly while failures < threshold; a threshold below one never is. */
  lemma {:induction false} BreakerCoherent(threshold: int, reset: real, es: seq<BreakerEvent>)
    ensures Coherent(NewBreaker(threshold, reset)) <==> threshold >= 1
    ensures threshold >= 1 ==> Coherent(HappenAll(NewBreaker(threshold, reset), es))
  {
    if threshold >= 1 {
      StaysCoherent(NewBreaker(threshold, reset), es);
    }
  }

  lemma {:induction false} StaysCoherent(b: Breaker, es: seq<BreakerEvent>)
    requires b.threshold >= 1 && Coherent(b)
    ensures Coherent(HappenAll(b, es))
    decreases |es|
  {
    if es != [] {
      StaysCoherent(Happen(b, es[0]), es[1..]);
    }
  }

  /** After the reset time the breaker lets every caller through until one of them records: with
      overlapping calls the half-open state is not a single probe. */
  lemma {:induction false} HalfOpenAdmitsAll(b: Breaker, now: real, later: seq<real>)
    requires b.openedAt.Some? && now - b.openedAt.value >= b.reset
    ensures !IsOpen(b, now)
    ensures forall i | 0 <= i < |later| ::
              !IsOpen(HappenAll(Probe(b, now), seq(i, j requires 0 <= j < i => Before(later[j]))), later[i])
  {
    forall i | 0 <= i < |later|
      ensures !IsOpen(HappenAll(Probe(b, now), seq(i, j requires 0 <= j < i => Before(later[j]))), later[i])
    {
      ProbesChangeNothing(Probe(b, now), seq(i, j requires 0 <= j < i => Before(later[j])));
    }
  }

  lemma {:induction false} ProbesChangeNothing(b: Breaker, es: seq<BreakerEvent>)
    requires b.openedAt.None? && forall e | e in es :: e.Before?
    ensures HappenAll(b, es) == b
    decreases |es|
  {
    if es != [] {
      assert Happen(b, es[0]) == b;
      ProbesChangeNothing(b, es[1..]);
    }
  }

  /** The failures on record after some events, from `n`: a success clears them. */
  function Streak(n: int, es: seq<BreakerEvent>): int
    decreases |es|
  {
    if es == [] then n
    else Streak(match es[0] case Before(_) => n case Success => 0 case Failure(_) => n + 1, es[1..])
  }

  /** Everything happens at or after `now` and less than one reset time later. */
  predicate Within(es: seq<BreakerEvent>, now: real, reset: real) {
    forall e | e in es ::
      match e case Before(t) => now <= t < now + reset case Failure(t) => now <= t < now + reset case Success => true
  }

  lemma {:induction false} StreakOnRecord(b: Breaker, es: seq<BreakerEvent>, now: real)
    requires b.threshold >= 1 && Coherent(b) && Within(es, now, b.reset)
    requires b.openedAt.Some? ==> now <= b.openedAt.value
    ensures var r := HappenAll(b, es);
      r.failures == Streak(b.failures, es) && Coherent(r) && (r.openedAt.Some? ==> now <= r.openedAt.value)
    decreases |es|
  {
    if es != [] {
      assert es[0] in es && forall e :: e in es[1..] ==> e in es;
      var next := Happen(b, es[0]);
      assert next.reset == b.reset && Within(es[1..], now, next.reset);
      StreakOnRecord(Happen(b, es[0]), es[1..], now);
    }
  }

  /** Who gets in after a half-opening, for one reset time: over any interleaving of asks, successes and
      failures, a caller is admitted exactly while the failures since the last success are fewer than
      the threshold, counting threshold - 1 from before. So until a success, exactly while no failure
      has been recorded; there is no single probe. */
  lemma HalfOpenExactly(b: Breaker, now: real, es: seq<BreakerEvent>, asks: real)
    requires b.threshold >= 1 && b.openedAt.Some? && now - b.openedAt.value >= b.reset
    requires Within(es, now, b.reset) && now <= asks < now + b.reset
    ensures !IsOpen(HappenAll(Probe(b, now), es), asks) <==> Streak(b.threshold - 1, es) < b.threshold
    ensures (forall e | e in es :: !e.Success?) ==>
              (!IsOpen(HappenAll(Probe(b, now), es), asks) <==> forall e | e in es :: !e.Failure?)
  {
    StreakOnRecord(Probe(b, now), es, now);
    if forall e | e in es :: !e.Success? {
      FailuresOnly(b.threshold - 1, es);
    }
  }

  /** Every streak of failures within `es`, started from n, stays below the threshold. */
  predicate StaysBelow(n: int, threshold: int, es: seq<BreakerEvent>)
    decreases |es|
  {
    n < threshold &&
    (es == [] || StaysBelow(match es[0] case Before(_) => n case Success => 0 case Failure(_) => n + 1, threshold, es[1..]))
  }

  /** A closed breaker trips at just the failure that completes a streak as long as the threshold, at the
      time of that failure: not before, whatever else happens. */
  lemma {:induction false} TripsExactly(b: Breaker, es: seq<BreakerEvent>, at: real)
    requires b.openedAt.None? && StaysBelow(b.failures, b.threshold, es)
    ensures var r := HappenAll(b, es);
      && r.openedAt.None? && r.failures == Streak(b.failures, es) < b.threshold
      && RecordFailure(r, at).openedAt == if r.failures + 1 >= b.threshold then Some(at) else None
    decreases |es|
  {
    if es != [] {
      TripsExactly(Happen(b, es[0]), es[1..], at);
    }
  }

  /** An open breaker stays open for just the reset time from when it tripped: failures of calls that were
      still under way do not prolong it, and only a success ends it early. */
  lemma {:induction false} OpenExactly(b: Breaker, es: seq<BreakerEvent>, asks: real)
    requires b.openedAt.Some? && forall e | e in es :: !e.Success? && (e.Before? ==> e.now - b.openedAt.value < b.reset)
    ensures IsOpen(HappenAll(b, es), asks) <==> asks - b.openedAt.value < b.reset
    ensures !IsOpen(RecordSuccess(HappenAll(b, es)), asks)
    decreases |es|
  {
    if es != [] {
      assert es[0] in es;
      OpenExactly(Happen(b, es[0]), es[1..], asks);
    }
  }

  lemma {:induction false} FailuresOnly(n: int, es: seq<BreakerEvent>)
    requires forall e | e in es :: !e.Success?
    ensures Streak(n, es) >= n && (Streak(n, es) == n <==> forall e | e in es :: !e.Failure?)
    decreases |es|
  {
    if es != [] {
      assert es[0] in es;
      FailuresOnly(if es[0].Failure? then n + 1 else n, es[1..]);
      assert forall e :: e in es <==> e == es[0] || e in es[1..];
    }
  }

  /** One call that fails if it is admitted: when it asks, and when it records. */
  datatype FailingCall = FailingCall(asks: real, records: real)

  /** Calls that do not overlap, the first no earlier than `from`, none asking after `until`. */
  predicate Sequential(calls: seq<FailingCall>, from: real, until: real)
    decreases |calls|
  {
    calls == [] ||
    (from <= calls[0].asks <= until && calls[0].asks <= calls[0].records && Sequential(calls[1..], calls[0].records, until))
  }

  function Admitted(b: Breaker, calls: seq<FailingCall>): nat
    decreases |calls|
  {
    if calls == [] then 0
    else if IsOpen(b, calls[0].asks) then Admitted(b, calls[1..])
    else 1 + Admitted(RecordFailure(Probe(b, calls[0].asks), calls[0].records), calls[1..])
  }

  /** The time n resets take. */
  function Resets(n: int, reset: real): real { n as real * reset }

  lemma OneMore(n: nat, r: real)
    ensures Resets(n + 1, r) == Resets(n, r) + r
    ensures Resets(0, r) == 0.0
  {
    assert (n + 1) as real == n as real + 1.0;
  }

  lemma {:induction false} AdmittedWhileOpen(b: Breaker, calls: seq<FailingCall>, from: real, until: real)
    requires b.threshold >= 1 && b.reset > 0.0 && b.openedAt.Some? && b.openedAt.value <= from
    requires Sequential(calls, from, until)
    ensures Admitted(b, calls) > 0 ==> Resets(Admitted(b, calls), b.reset) <= until - b.openedAt.value
    decreases |calls|
  {
    hide Resets;
    if calls != [] {
      var c := calls[0];
      if IsOpen(b, c.asks) {
        AdmittedWhileOpen(b, calls[1..], c.records, until);
      } else {
        var reopened := RecordFailure(Probe(b, c.asks), c.records);
        assert reopened.openedAt == Some(c.records);
        AdmittedWhileOpen(reopened, calls[1..], c.records, until);
        OneMore(Admitted(reopened, calls[1..]), b.reset);
      }
    }
  }

  lemma {:induction false} AdmittedWhileClosed(b: Breaker, calls: seq<FailingCall>, from: real, until: real)
    requires b.threshold >= 1 && b.reset > 0.0 && b.openedAt.None? && Coherent(b) && from >= 0.0
    requires Sequential(calls, from, until)
    ensures var extra := Admitted(b, calls) - (b.threshold - b.failures);
      extra > 0 ==> Resets(extra, b.reset) <= until
    decreases |calls|
  {
    hide Resets;
    if calls != [] {
      var c := calls[0];
      var next := RecordFailure(Probe(b, c.asks), c.records);
      if next.openedAt.None? {
        AdmittedWhileClosed(next, calls[1..], c.records, until);
      } else {
        AdmittedWhileOpen(next, calls[1..], c.records, until);
      }
    }
  }

  /** With calls that do not overlap and all fail and record, a fresh breaker admits at most
      threshold + floor(T / reset) of those that ask by time T. */
  lemma AdmissionBound(threshold: int, reset: real, calls: seq<FailingCall>, until: real)
    requires threshold >= 1 && reset > 0.0 && until >= 0.0
    requires Sequential(calls, 0.0, until)
    ensures Admitted(NewBreaker(threshold, reset), calls) <= threshold + (until / reset).Floor
  {
    AdmittedWhileClosed(NewBreaker(threshold, reset), calls, 0.0, until);
    var extra := Admitted(NewBreaker(threshold, reset), calls) - threshold;
    var ratio := until / reset;
    assert ratio * reset == until;
    if extra > 0 {
      assert extra as real <= ratio by {
        if extra as real > ratio {
          MulStrict(ratio, extra as real, reset);
        }
      }
    }
    assert ratio >= 0.0 by {
      if ratio < 0.0 {
        MulStrict(ratio, 0.0, reset);
      }
    }
  }

  lemma MulStrict(a: real, b: real, c: real)
    requires a < b && c > 0.0
    ensures a * c < b * c
  {
  }

  class CircuitBreaker {
    const threshold: int
    const resetSeconds: real
    var failures: int
    var openedAt: Option<real>

    ghost function State(): Breaker
      reads this
    {
      Breaker(threshold, resetSeconds, failures, openedAt)
    }

    constructor (threshold: int, resetSeconds: real)
      ensures State() == NewBreaker(threshold, resetSeconds)
    {
      this.threshold := threshold;
      this.resetSeconds := resetSeconds;
      failures := 0;
      openedAt := None;
    }

    /** The `is_open` property, which half-opens as it is read. */
    method CheckOpen(now: real) returns (open: bool)
      modifies this
      ensures State() == Probe(old(State()), now) && open == IsOpen(old(State()), now)
    {
      if openedAt.None? {
        return false;
      }
      if now - openedAt.value >= resetSeconds {
        openedAt := None;
        failures := threshold - 1;
        return false;
      }
      return true;
    }

    method OnSuccess()
      modifies this
      ensures State() == RecordSuccess(old(State()))
    {
      failures := 0;
      openedAt := None;
    }

    method OnFailure(now: real)
      modifies this
      ensures State() == RecordFailure(old(State()), now)
    {
      failures := failures + 1;
      if failures >= threshold && openedAt.None? {
        openedAt := Some(now);
      }
    }
  }

  /******* The retry loop *******/

  function Pow2(n: nat): nat { if n == 0 then 1 else 2 * Pow2(n - 1) }

  datatype Policy = Policy(maxAttempts: nat, initial: real, maxBackoff: real)

  function MinReal(a: real, b: real): real { if a < b then a else b }

  function Window(p: Policy, attempt: nat): real { MinReal(p.maxBackoff, p.initial * Pow2(attempt) as real) }

  /** How one attempt ends. `retryAfter` is the parsed header, never negative. */
  datatype Reply = Ok(value: string) | Err(retryable: bool, retryAfter: Option<real>)

  /** Everything the outside world decides about attempt k: how long it runs and how it ends, what
      the jitter draws, and by how much the sleep overshoots. */
  datatype Turn = Turn(took: real, reply: Reply, jitter: real, overshoot: real)

  ghost predicate Plausible(p: Policy, turns: nat -> Turn) {
    forall k: nat :: var t := turns(k);
      && t.took >= 0.0 && t.overshoot >= 0.0 && 0.0 <= t.jitter <= Window(p, k)
      && (t.reply.Err? && t.reply.retryAfter.Some? ==> t.reply.retryAfter.value >= 0.0)
  }

  /** A Retry-After of zero counts as none. */
  predicate Asked(t: Turn) {
    t.reply.Err? && t.reply.retryAfter.Some? && t.reply.retryAfter.value != 0.0
  }

  function Delay(t: Turn): real {
    if Asked(t) then t.reply.retryAfter.value else t.jitter
  }

  function Remaining(expiresAt: real, now: real): real { if expiresAt - now > 0.0 then expiresAt - now else 0.0 }

  predicate Expired(deadline: Option<real>, now: real) { deadline.Some? && Remaining(deadline.value, now) <= 0.0 }

  datatype Ending =
    | Returned(value: string)
    | CircuitOpen
    | DeadlineBefore        // the check ahead of an attempt
    | GaveUp                // not retryable, or the last attempt
    | BackoffTooLong        // the sleep would reach the deadline
    | NoAttempts            // max_attempts is zero

  datatype Sleep = Sleep(begins: real, delay: real, asked: bool)

  datatype Record = Record(success: bool, at: real)

  datatype CallLog = CallLog(starts: seq<real>, sleeps: seq<Sleep>, records: seq<Record>, ending: Ending)

  function Attempts(p: Policy, deadline: Option<real>, turns: nat -> Turn, k: nat, now: real): CallLog
    requires k <= p.maxAttempts
    decreases p.maxAttempts - k
  {
    if k == p.maxAttempts then CallLog([], [], [], NoAttempts)
    else if Expired(deadline, now) then CallLog([], [], [], DeadlineBefore)
    else
      var t := turns(k);
      var done := now + t.took;
      match t.reply
      case Ok(value) => CallLog([now], [], [Record(true, done)], Returned(value))
      case Err(retryable, _) =>
        if !retryable || k == p.maxAttempts - 1 then CallLog([now], [], [Record(false, done)], GaveUp)
        else if deadline.Some? && Delay(t) >= Remaining(deadline.value, done)
        then CallLog([now], [], [Record(false, done)], BackoffTooLong)
        else
          var rest := Attempts(p, deadline, turns, k + 1, done + Delay(t) + t.overshoot);
          CallLog([now] + rest.starts, [Sleep(done, Delay(t), Asked(t))] + rest.sleeps, rest.records, rest.ending)
  }

  function Call(p: Policy, b: Breaker, deadline: Option<real>, turns: nat -> Turn, now: real): CallLog {
    if IsOpen(b, now) then CallLog([], [], [], CircuitOpen) else Attempts(p, deadline, turns, 0, now)
  }

  /** The backoff slept without being asked for by a Retry-After header. */
  function OwnBackoff(sleeps: seq<Sleep>): real {
    if sleeps == [] then 0.0 else (if sleeps[0].asked then 0.0 else sleeps[0].delay) + OwnBackoff(sleeps[1..])
  }

  /** What every run of the loop from attempt k keeps to. */
  ghost predicate Disciplined(deadline: Option<real>, log: CallLog) {
    && (forall i | 0 <= i < |log.starts| :: deadline.Some? ==> log.starts[i] < deadline.value)
    && (forall i | 0 <= i < |log.sleeps| :: deadline.Some? ==> log.sleeps[i].begins + log.sleeps[i].delay < deadline.value)
    && (log.records == [] <==> log.ending.DeadlineBefore? || log.ending.NoAttempts? || log.ending.CircuitOpen?)
    && |log.records| <= 1
    && (log.records != [] ==> (log.records[0].success <==> log.ending.Returned?))
  }

  lemma {:induction false} AttemptsDisciplined(p: Policy, deadline: Option<real>, turns: nat -> Turn, k: nat, now: real)
    requires k <= p.maxAttempts && Plausible(p, turns)
    ensures var log := Attempts(p, deadline, turns, k, now);
      && |log.starts| <= p.maxAttempts - k
      && Disciplined(deadline, log)
      && (log.ending.NoAttempts? <==> k == p.maxAttempts)
      && !log.ending.CircuitOpen?
      && |log.sleeps| <= |log.starts|
    decreases p.maxAttempts - k
  {
    if k < p.maxAttempts && !Expired(deadline, now) {
      var t := turns(k);
      var done := now + t.took;
      if t.reply.Err? && t.reply.retryable && k < p.maxAttempts - 1
         && !(deadline.Some? && Delay(t) >= Remaining(deadline.value, done)) {
        AttemptsDisciplined(p, deadline, turns, k + 1, done + Delay(t) + t.overshoot);
      }
    }
  }

  /** Every call: at most max_attempts attempts, none started after the deadline, no sleep that would
      reach it, and exactly one record on the breaker, a success precisely when the call returns,
      unless the circuit was open, no attempt is allowed, or a deadline check ended the call. */
  lemma CallDisciplined(p: Policy, b: Breaker, deadline: Option<real>, turns: nat -> Turn, now: real)
    requires Plausible(p, turns)
    ensures var log := Call(p, b, deadline, turns, now);
      && |log.starts| <= p.maxAttempts
      && Disciplined(deadline, log)
      && (log.ending.CircuitOpen? <==> IsOpen(b, now))
      && (log.ending.NoAttempts? <==> !IsOpen(b, now) && p.maxAttempts == 0)
  {
    AttemptsDisciplined(p, deadline, turns, 0, now);
  }

  /** How long a failed attempt is followed by waiting: a positive Retry-After as it is, else the backoff. */
  function Waited(t: Turn): real {
    match t.reply
    case Err(_, Some(after)) => if after > 0.0 then after else t.jitter
    case _ => t.jitter
  }

  ghost predicate Retryable(t: Turn) { t.reply.Err? && t.reply.retryable }

  /** What a call does, read off its log: attempt i + 1 begins when attempt i has failed retryably, not as the
      last allowed one, and its wait, which ends before the deadline, is over; nothing else is retried. The
      call ends at the first success, the first failure that may not be retried, the first wait that would
      reach the deadline, or a deadline passed before an attempt. */
  ghost predicate Traced(p: Policy, deadline: Option<real>, turns: nat -> Turn, k: nat, now: real, log: CallLog) {
    && Spaced(p, deadline, turns, k, now, log.starts)
    && |log.sleeps| == (if log.ending.DeadlineBefore? || log.starts == [] then |log.starts| else |log.starts| - 1)
    && Slept(turns, k, log.starts, log.sleeps)
    && Ended(p, deadline, turns, k, now, log)
  }

  ghost predicate Spaced(p: Policy, deadline: Option<real>, turns: nat -> Turn, k: nat, now: real, starts: seq<real>) {
    && (starts != [] ==> starts[0] == now)
    && forall i | 0 <= i < |starts| - 1 :: Succeeds(p, deadline, turns(k + i), k + i, starts[i], starts[i + 1])
  }

  ghost predicate Slept(turns: nat -> Turn, k: nat, starts: seq<real>, sleeps: seq<Sleep>) {
    |sleeps| <= |starts| && forall i | 0 <= i < |sleeps| :: Sleeps(turns(k + i), starts[i], sleeps[i])
  }

  /** The wait after an attempt. */
  ghost predicate Sleeps(t: Turn, at: real, s: Sleep) { s.begins == at + t.took && s.delay == Waited(t) }

  /** The next attempt begins at `next`. */
  ghost predicate Succeeds(p: Policy, deadline: Option<real>, t: Turn, k: nat, at: real, next: real) {
    GoesOn(p, deadline, t, k, at) && next == at + t.took + Waited(t) + t.overshoot
  }

  /** Attempt k, begun at `at`, is retried. */
  ghost predicate GoesOn(p: Policy, deadline: Option<real>, t: Turn, k: nat, at: real) {
    Retryable(t) && k + 1 < p.maxAttempts && (deadline.Some? ==> at + t.took + Waited(t) < deadline.value)
  }

  ghost predicate Ended(p: Policy, deadline: Option<real>, turns: nat -> Turn, k: nat, now: real, log: CallLog) {
    var n := |log.starts|;
    if n == 0 then
      log.records == [] &&
      if k == p.maxAttempts then log.ending.NoAttempts?
      else log.ending.DeadlineBefore? && deadline.Some? && now >= deadline.value
    else
      var t, at := turns(k + n - 1), log.starts[n - 1];
      match log.ending
      case Returned(value) => t.reply == Ok(value) && log.records == [Record(true, at + t.took)]
      case GaveUp => t.reply.Err? && (!Retryable(t) || k + n == p.maxAttempts) && log.records == [Record(false, at + t.took)]
      case BackoffTooLong =>
        && Retryable(t) && k + n < p.maxAttempts && deadline.Some? && at + t.took + Waited(t) >= deadline.value
        && log.records == [Record(false, at + t.took)]
      case DeadlineBefore =>
        && GoesOn(p, deadline, t, k + n - 1, at) && log.records == []
        && deadline.Some? && at + t.took + Waited(t) + t.overshoot >= deadline.value
      case _ => false
  }

  lemma SpacedCons(p: Policy, deadline: Option<real>, turns: nat -> Turn, k: nat, now: real, next: real, starts: seq<real>)
    requires Succeeds(p, deadline, turns(k), k, now, next) && Spaced(p, deadline, turns, k + 1, next, starts)
    ensures Spaced(p, deadline, turns, k, now, [now] + starts)
  {
    hide Succeeds;
    var all := [now] + starts;
    forall i | 0 <= i < |all| - 1 ensures Succeeds(p, deadline, turns(k + i), k + i, all[i], all[i + 1]) {
      if i > 0 {
        assert Succeeds(p, deadline, turns(k + 1 + (i - 1)), k + 1 + (i - 1), starts[i - 1], starts[i]);
      }
    }
  }

  lemma SleptCons(turns: nat -> Turn, k: nat, now: real, s: Sleep, starts: seq<real>, sleeps: seq<Sleep>)
    requires Sleeps(turns(k), now, s) && Slept(turns, k + 1, starts, sleeps)
    ensures Slept(turns, k, [now] + starts, [s] + sleeps)
  {
    hide Sleeps;
    forall i | 0 <= i < |sleeps| + 1 ensures Sleeps(turns(k + i), ([now] + starts)[i], ([s] + sleeps)[i]) {
      if i > 0 {
        assert Sleeps(turns(k + 1 + (i - 1)), starts[i - 1], sleeps[i - 1]);
      }
    }
  }

  lemma EndedCons(p: Policy, deadline: Option<real>, turns: nat -> Turn, k: nat, now: real, next: real, s: Sleep, rest: CallLog)
    requires Succeeds(p, deadline, turns(k), k, now, next) && Ended(p, deadline, turns, k + 1, next, rest)
    ensures Ended(p, deadline, turns, k, now, CallLog([now] + rest.starts, [s] + rest.sleeps, rest.records, rest.ending))
  {
    hide Waited;
    var n := |rest.starts|;
    if n > 0 {
      assert ([now] + rest.starts)[n] == rest.starts[n - 1] && k + n == k + 1 + n - 1;
    }
  }

  lemma TraceCons(p: Policy, deadline: Option<real>, turns: nat -> Turn, k: nat, now: real, next: real, rest: CallLog)
    requires Succeeds(p, deadline, turns(k), k, now, next) && Traced(p, deadline, turns, k + 1, next, rest)
    ensures var t := turns(k);
      Traced(p, deadline, turns, k, now,
        CallLog([now] + rest.starts, [Sleep(now + t.took, Waited(t), Asked(t))] + rest.sleeps, rest.records, rest.ending))
  {
    hide Spaced, Slept, Waited, Asked, Succeeds;
    var s := Sleep(now + turns(k).took, Waited(turns(k)), Asked(turns(k)));
    SucceedsWithin(p, deadline, turns(k), k, now, next);
    SpacedCons(p, deadline, turns, k, now, next, rest.starts);
    SleptCons(turns, k, now, s, rest.starts, rest.sleeps);
    EndedCons(p, deadline, turns, k, now, next, s, rest);
    if rest.starts == [] {
      NoneTried(p, deadline, turns, k + 1, next, rest);
    }
  }

  lemma SucceedsWithin(p: Policy, deadline: Option<real>, t: Turn, k: nat, at: real, next: real)
    requires Succeeds(p, deadline, t, k, at, next)
    ensures k + 1 < p.maxAttempts
  {
  }

  lemma NoneTried(p: Policy, deadline: Option<real>, turns: nat -> Turn, k: nat, now: real, log: CallLog)
    requires Ended(p, deadline, turns, k, now, log) && log.starts == [] && k < p.maxAttempts
    ensures log.ending.DeadlineBefore?
  {
  }

  lemma {:induction false} AttemptsTraced(p: Policy, deadline: Option<real>, turns: nat -> Turn, k: nat, now: real)
    requires k <= p.maxAttempts && Plausible(p, turns)
    ensures Traced(p, deadline, turns, k, now, Attempts(p, deadline, turns, k, now))
    decreases p.maxAttempts - k
  {
    hide Traced;
    PlausibleDelay(p, turns, k);
    if Retries(p, deadline, turns, k, now) {
      var t := turns(k);
      var next := now + t.took + Waited(t) + t.overshoot;
      AttemptsTraced(p, deadline, turns, k + 1, next);
      TraceCons(p, deadline, turns, k, now, next, Attempts(p, deadline, turns, k + 1, next));
    } else {
      TraceEnds(p, deadline, turns, k, now);
    }
  }

  lemma PlausibleDelay(p: Policy, turns: nat -> Turn, k: nat)
    requires Plausible(p, turns)
    ensures Delay(turns(k)) == Waited(turns(k)) >= 0.0 && turns(k).took >= 0.0 && turns(k).overshoot >= 0.0
  {
  }

  lemma TraceEnds(p: Policy, deadline: Option<real>, turns: nat -> Turn, k: nat, now: real)
    requires k <= p.maxAttempts && !Retries(p, deadline, turns, k, now)
    requires Delay(turns(k)) == Waited(turns(k)) >= 0.0
    ensures Traced(p, deadline, turns, k, now, Attempts(p, deadline, turns, k, now))
  {
    hide Delay, Waited;
  }

  /** Every wait the server did not ask for is within the longest backoff and the doubled window. */
  lemma WaitsCapped(p: Policy, b: Breaker, deadline: Option<real>, turns: nat -> Turn, now: real, i: nat)
    requires Plausible(p, turns) && i < |Call(p, b, deadline, turns, now).sleeps|
    ensures var s := Call(p, b, deadline, turns, now).sleeps[i];
      s.delay == Waited(turns(i)) && (Waited(turns(i)) == turns(i).jitter ==>
        0.0 <= s.delay <= p.maxBackoff && s.delay <= p.initial * Pow2(i) as real)
  {
    hide Attempts, Ended, Spaced;
    CallTraced(p, b, deadline, turns, now);
    assert Sleeps(turns(0 + i), Call(p, b, deadline, turns, now).starts[i], Call(p, b, deadline, turns, now).sleeps[i]);
  }

  /** A call begins no attempt exactly when the breaker is open, and else does what its trace says. */
  lemma CallTraced(p: Policy, b: Breaker, deadline: Option<real>, turns: nat -> Turn, now: real)
    requires Plausible(p, turns)
    ensures var log := Call(p, b, deadline, turns, now);
      if IsOpen(b, now) then log == CallLog([], [], [], CircuitOpen) else Traced(p, deadline, turns, 0, now, log)
  {
    hide Traced, Attempts;
    AttemptsTraced(p, deadline, turns, 0, now);
  }

  /** The unclipped jitter window of attempt k. */
  function FullWindow(p: Policy, k: nat): real { p.initial * Pow2(k) as real }

  lemma FullWindowDoubles(p: Policy, k: nat)
    requires p.initial >= 0.0
    ensures FullWindow(p, k + 1) == 2.0 * FullWindow(p, k)
    ensures Window(p, k) <= FullWindow(p, k)
    ensures FullWindow(p, k) >= 0.0
  {
    assert Pow2(k + 1) == 2 * Pow2(k);
    DoubleReal(p.initial, Pow2(k));
  }

  lemma DoubleReal(i: real, n: nat)
    requires i >= 0.0
    ensures i * (2 * n) as real == 2.0 * (i * n as real)
    ensures i * n as real >= 0.0
  {
  }

  lemma {:induction false} BackoffFrom(p: Policy, deadline: Option<real>, turns: nat -> Turn, k: nat, now: real)
    requires k <= p.maxAttempts && Plausible(p, turns) && p.initial >= 0.0
    ensures var log := Attempts(p, deadline, turns, k, now);
      OwnBackoff(log.sleeps) <= FullWindow(p, k + |log.sleeps|) - FullWindow(p, k)
    ensures var log := Attempts(p, deadline, turns, k, now);
      k < p.maxAttempts ==> k + |log.sleeps| <= p.maxAttempts - 1
    decreases p.maxAttempts - k
  {
    hide Window, FullWindow, Attempts, Plausible, OwnBackoff;
    SleepsUnfold(p, deadline, turns, k, now);
    var log := Attempts(p, deadline, turns, k, now);
    if Retries(p, deadline, turns, k, now) {
      var t := turns(k);
      var next := now + t.took + Delay(t) + t.overshoot;
      var rest := Attempts(p, deadline, turns, k + 1, next);
      BackoffFrom(p, deadline, turns, k + 1, next);
      OwnBackoffCons(Sleep(now + t.took, Delay(t), Asked(t)), rest.sleeps);
      OwnWithinWindow(p, turns, k);
      FullWindowDoubles(p, k);
    } else {
      OwnBackoffNone();
    }
  }

  /** Attempt k fails in a way that is tried again. */
  predicate Retries(p: Policy, deadline: Option<real>, turns: nat -> Turn, k: nat, now: real) {
    k < p.maxAttempts && !Expired(deadline, now) &&
    var t := turns(k);
    t.reply.Err? && t.reply.retryable && k < p.maxAttempts - 1
    && !(deadline.Some? && Delay(t) >= Remaining(deadline.value, now + t.took))
  }

  lemma SleepsUnfold(p: Policy, deadline: Option<real>, turns: nat -> Turn, k: nat, now: real)
    requires k <= p.maxAttempts
    ensures var log, t := Attempts(p, deadline, turns, k, now), turns(k);
      if Retries(p, deadline, turns, k, now) then
        log.sleeps == [Sleep(now + t.took, Delay(t), Asked(t))] +
                      Attempts(p, deadline, turns, k + 1, now + t.took + Delay(t) + t.overshoot).sleeps
      else log.sleeps == []
  {
  }

  lemma OwnBackoffCons(x: Sleep, rest: seq<Sleep>)
    ensures OwnBackoff([x] + rest) == (if x.asked then 0.0 else x.delay) + OwnBackoff(rest)
  {
    assert ([x] + rest)[1..] == rest;
  }

  lemma OwnBackoffNone()
    ensures OwnBackoff([]) == 0.0
  {
  }

  lemma OwnWithinWindow(p: Policy, turns: nat -> Turn, k: nat)
    requires Plausible(p, turns)
    ensures !Asked(turns(k)) ==> 0.0 <= Delay(turns(k)) <= Window(p, k)
  {
    hide Window;
  }

  lemma {:induction false} FullWindowMonotone(p: Policy, a: nat, b: nat)
    requires a <= b && p.initial >= 0.0
    ensures FullWindow(p, a) <= FullWindow(p, b)
    decreases b
  {
    hide FullWindow;
    if a < b {
      FullWindowMonotone(p, a, b - 1);
      FullWindowDoubles(p, b - 1);
    }
  }

  /** With n attempts allowed, the backoff slept unasked totals at most initial * (2^(n-1) - 1). */
  lemma BackoffBound(p: Policy, b: Breaker, deadline: Option<real>, turns: nat -> Turn, now: real)
    requires Plausible(p, turns) && p.initial >= 0.0 && p.maxAttempts >= 1
    ensures OwnBackoff(Call(p, b, deadline, turns, now).sleeps) <= p.initial * (Pow2(p.maxAttempts - 1) - 1) as real
  {
    hide Attempts, Plausible, Pow2;
    var log := Call(p, b, deadline, turns, now);
    BackoffFrom(p, deadline, turns, 0, now);
    FullWindowMonotone(p, 0, p.maxAttempts - 1);
    if !IsOpen(b, now) {
      FullWindowMonotone(p, |log.sleeps|, p.maxAttempts - 1);
    }
    TotalWindow(p, p.maxAttempts - 1);
  }

  lemma TotalWindow(p: Policy, n: nat)
    ensures FullWindow(p, n) - FullWindow(p, 0) == p.initial * (Pow2(n) - 1) as real
  {
    hide Pow2;
    assert Pow2(0) == 1 by { PowZero(); }
    Distribute(p.initial, Pow2(n));
  }

  lemma PowZero()
    ensures Pow2(0) == 1
  {
  }

  lemma Distribute(i: real, n: nat)
    ensures i * n as real - i * 1 as real == i * (n - 1) as real
  {
  }

  /** The records of a log, applied to the breaker in turn. */
  function Apply(b: Breaker, records: seq<Record>): Breaker
    decreases |records|
  {
    if records == [] then b
    else Apply(if records[0].success then RecordSuccess(b) else RecordFailure(b, records[0].at), records[1..])
  }

  /** What a call leaves on the breaker it faced: nothing without a record, a cleared breaker after a success,
      and one failure more, tripping it at the threshold, after a failure. */
  lemma ApplyIs(b: Breaker, records: seq<Record>)
    requires |records| <= 1
    ensures var r := Apply(b, records);
      if records == [] then r == b
      else if records[0].success then r == b.(failures := 0, openedAt := None)
      else
        && r.failures == b.failures + 1
        && r.openedAt == if b.openedAt.None? && b.failures + 1 >= b.threshold then Some(records[0].at) else b.openedAt
  {
  }

  class ProviderHarness {
    const policy: Policy
    const breaker: CircuitBreaker

    constructor (policy: Policy, breaker: CircuitBreaker)
      ensures this.policy == policy && this.breaker == breaker
    {
      this.policy := policy;
      this.breaker := breaker;
    }

    method RunCall(deadline: Option<real>, turns: nat -> Turn, started: real) returns (log: CallLog)
      modifies breaker
      ensures log == Call(policy, old(breaker.State()), deadline, turns, started)
      ensures breaker.State() == Apply(Probe(old(breaker.State()), started), log.records)
    {
      var open := breaker.CheckOpen(started);
      if open {
        return CallLog([], [], [], CircuitOpen);
      }
      ghost var probed := breaker.State();
      hide Attempts, Prefixed, Probe;
      var now := started;
      var starts: seq<real>, sleeps: seq<Sleep> := [], [];
      var attempt := 0;
      PrefixNothing(Attempts(policy, deadline, turns, 0, started));
      while attempt < policy.maxAttempts
        invariant 0 <= attempt <= policy.maxAttempts
        invariant breaker.State() == probed
        invariant Attempts(policy, deadline, turns, 0, started)
               == Prefixed(starts, sleeps, Attempts(policy, deadline, turns, attempt, now))
      {
        TurnUnfolds(policy, deadline, turns, attempt, now, starts, sleeps);
        if deadline.Some? && Remaining(deadline.value, now) <= 0.0 {
          return CallLog(starts, sleeps, [], DeadlineBefore);
        }
        starts := starts + [now];
        var turn := turns(attempt);
        now := now + turn.took;
        match turn.reply {
          case Ok(value) =>
            breaker.OnSuccess();
            return CallLog(starts, sleeps, [Record(true, now)], Returned(value));
          case Err(retryable, retryAfter) =>
            if !retryable || attempt == policy.maxAttempts - 1 {
              breaker.OnFailure(now);
              return CallLog(starts, sleeps, [Record(false, now)], GaveUp);
            }
            var delay := if retryAfter.Some? && retryAfter.value != 0.0 then retryAfter.value else turn.jitter;
            if deadline.Some? && delay >= Remaining(deadline.value, now) {
              breaker.OnFailure(now);
              return CallLog(starts, sleeps, [Record(false, now)], BackoffTooLong);
            }
            sleeps := sleeps + [Sleep(now, delay, Asked(turn))];
            now := now + delay + turn.overshoot;
        }
        attempt := attempt + 1;
      }
      RunsOut(policy, deadline, turns, now, starts, sleeps);
      return CallLog(starts, sleeps, [], NoAttempts);
    }
  }

  function Prefixed(starts: seq<real>, sleeps: seq<Sleep>, log: CallLog): CallLog {
    CallLog(starts + log.starts, sleeps + log.sleeps, log.records, log.ending)
  }

  lemma PrefixNothing(log: CallLog)
    ensures Prefixed([], [], log) == log
  {
  }

  lemma RunsOut(p: Policy, deadline: Option<real>, turns: nat -> Turn, now: real, starts: seq<real>, sleeps: seq<Sleep>)
    ensures Prefixed(starts, sleeps, Attempts(p, deadline, turns, p.maxAttempts, now)) == CallLog(starts, sleeps, [], NoAttempts)
  {
  }

  /** One turn of the loop, with what came before in front. */
  lemma TurnUnfolds(p: Policy, deadline: Option<real>, turns: nat -> Turn, k: nat, now: real,
                    starts: seq<real>, sleeps: seq<Sleep>)
    requires k < p.maxAttempts
    ensures var log := Prefixed(starts, sleeps, Attempts(p, deadline, turns, k, now));
      if Expired(deadline, now) then log == CallLog(starts, sleeps, [], DeadlineBefore)
      else
        var t := turns(k);
        var done := now + t.took;
        var begun := starts + [now];
        if t.reply.Ok? then log == CallLog(begun, sleeps, [Record(true, done)], Returned(t.reply.value))
        else if !t.reply.retryable || k == p.maxAttempts - 1 then log == CallLog(begun, sleeps, [Record(false, done)], GaveUp)
        else if deadline.Some? && Delay(t) >= Remaining(deadline.value, done)
        then log == CallLog(begun, sleeps, [Record(false, done)], BackoffTooLong)
        else log == Prefixed(begun, sleeps + [Sleep(done, Delay(t), Asked(t))],
                             Attempts(p, deadline, turns, k + 1, done + Delay(t) + t.overshoot))
  {
  }
}
