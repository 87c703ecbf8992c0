/**
 Streamed generation in src/fastrag/adapters/generation.py: the retry loop that must never restart an
 answer the caller has begun to read, and the fallback from one provider to another.
 */
module Streaming {
  import opened Common
  import opened Harness

  /** An attempt that breaks off after some of its tokens. */
  datatype Break = Break(after: nat, retryable: bool, retryAfter: Option<real>)

  /** One attempt as the provider would serve it: its whole token stream, whether it breaks off, how
      long it takes, and what jitter and sleep overshoot follow it. */
  datatype Attempt = Attempt(tokens: seq<string>, failure: Option<Break>, took: real, jitter: real, overshoot: real)

  /** The tokens that reach the caller. */
  function Emitted(a: Attempt): (out: seq<string>)
    ensures out <= a.tokens && |out| == if a.failure.Some? then Min(a.failure.value.after, |a.tokens|) else |a.tokens|
  {
    if a.failure.Some? && a.failure.value.after <= |a.tokens| then a.tokens[..a.failure.value.after] else a.tokens
  }

  function RetryDelay(a: Attempt): real {
    if a.failure.Some? && a.failure.value.retryAfter.Some? && a.failure.value.retryAfter.value != 0.0
    then a.failure.value.retryAfter.value else a.jitter
  }

  datatype Why = CircuitWasOpen | DeadlinePassed | Failed

  datatype StreamEnd = Completed | Raised(why: Why) | NothingTried

  /** What each attempt delivered, in order, what was recorded, and how the stream ended. */
  datatype StreamLog = StreamLog(delivered: seq<seq<string>>, records: seq<Record>, ending: StreamEnd)

  function StreamFrom(p: Policy, deadline: Option<real>, attempts: nat -> Attempt, k: nat, now: real): StreamLog
    requires k <= p.maxAttempts
    decreases p.maxAttempts - k
  {
    if k == p.maxAttempts then StreamLog([], [], NothingTried)
    else if Expired(deadline, now) then StreamLog([], [], Raised(DeadlinePassed))
    else
      var a := attempts(k);
      var out := Emitted(a);
      var done := now + a.took;
      if a.failure.None? then StreamLog([out], [Record(true, done)], Completed)
      else if out != [] || !a.failure.value.retryable || k == p.maxAttempts - 1
              || (deadline.Some? && RetryDelay(a) >= Remaining(deadline.value, done))
      then StreamLog([out], [Record(false, done)], Raised(Failed))
      else
        var rest := StreamFrom(p, deadline, attempts, k + 1, done + RetryDelay(a) + a.overshoot);
        StreamLog([out] + rest.delivered, rest.records, rest.ending)
  }

  function StreamAll(p: Policy, b: Breaker, deadline: Option<real>, attempts: nat -> Attempt, now: real): StreamLog {
    if IsOpen(b, now) then StreamLog([], [], Raised(CircuitWasOpen)) else StreamFrom(p, deadline, attempts, 0, now)
  }

  /** All attempts but the last delivered nothing; the last delivered a prefix of its own stream, and
      all of it when the stream completed. */
  ghost predicate OnlyLastDelivers(log: StreamLog, attempts: nat -> Attempt, k: nat) {
    && (forall i | 0 <= i < |log.delivered| :: log.delivered[i] == Emitted(attempts(k + i)))
    && (forall i | 0 <= i < |log.delivered| - 1 :: log.delivered[i] == [])
    && (log.ending.Completed? ==>
          log.delivered != [] && log.delivered[|log.delivered| - 1] == attempts(k + |log.delivered| - 1).tokens)
  }

  lemma OnlyLastCons(rest: StreamLog, attempts: nat -> Attempt, k: nat)
    requires OnlyLastDelivers(rest, attempts, k + 1) && Emitted(attempts(k)) == []
    ensures OnlyLastDelivers(rest.(delivered := [[]] + rest.delivered), attempts, k)
  {
    hide Emitted;
    var log := rest.(delivered := [[]] + rest.delivered);
    forall i | 0 <= i < |log.delivered| ensures log.delivered[i] == Emitted(attempts(k + i)) {
      if i > 0 {
        assert log.delivered[i] == rest.delivered[i - 1] == Emitted(attempts(k + 1 + (i - 1)));
      }
    }
    forall i | 0 <= i < |log.delivered| - 1 ensures log.delivered[i] == [] {
      if i > 0 {
        assert log.delivered[i] == rest.delivered[i - 1];
      }
    }
  }

  /** Does attempt k, made at `now`, end the loop? */
  predicate Decides(p: Policy, deadline: Option<real>, attempts: nat -> Attempt, k: nat, now: real) {
    var a := attempts(k);
    || a.failure.None? || Emitted(a) != [] || !a.failure.value.retryable || k == p.maxAttempts - 1
    || (deadline.Some? && RetryDelay(a) >= Remaining(deadline.value, now + a.took))
  }

  function NextStart(attempts: nat -> Attempt, k: nat, now: real): real {
    now + attempts(k).took + RetryDelay(attempts(k)) + attempts(k).overshoot
  }

  lemma {:induction false} RetriesDeliverNothing(p: Policy, deadline: Option<real>, attempts: nat -> Attempt, k: nat, now: real)
    requires k <= p.maxAttempts
    ensures OnlyLastDelivers(StreamFrom(p, deadline, attempts, k, now), attempts, k)
    decreases p.maxAttempts - k
  {
    hide Emitted, Expired, RetryDelay, Remaining;
    if k < p.maxAttempts && !Expired(deadline, now) && !Decides(p, deadline, attempts, k, now) {
      RetriesDeliverNothing(p, deadline, attempts, k + 1, NextStart(attempts, k, now));
      OnlyLastCons(StreamFrom(p, deadline, attempts, k + 1, NextStart(attempts, k, now)), attempts, k);
    } else {
      FullWhenUnbroken(attempts(k));
    }
  }

  lemma FullWhenUnbroken(a: Attempt)
    ensures a.failure.None? ==> Emitted(a) == a.tokens
  {
  }

  /** Attempts are bounded, and the stream records exactly once, a success exactly when it completes,
      unless nothing was allowed or a deadline check ended it. */
  lemma {:induction false} StreamRecords(p: Policy, deadline: Option<real>, attempts: nat -> Attempt, k: nat, now: real)
    requires k <= p.maxAttempts
    ensures var log := StreamFrom(p, deadline, attempts, k, now);
      && |log.delivered| <= p.maxAttempts - k
      && (log.ending.NothingTried? <==> k == p.maxAttempts)
      && (log.records == [] <==> log.ending.NothingTried? || log.ending == Raised(DeadlinePassed))
      && |log.records| <= 1 && (log.records != [] ==> (log.records[0].success <==> log.ending.Completed?))
      && log.ending != Raised(CircuitWasOpen)
    decreases p.maxAttempts - k
  {
    hide Emitted, Expired, RetryDelay, Remaining;
    if k < p.maxAttempts && !Expired(deadline, now) && !Decides(p, deadline, attempts, k, now) {
      StreamRecords(p, deadline, attempts, k + 1, NextStart(attempts, k, now));
    }
  }

  /** Times are not negative. */
  ghost predicate Sane(attempts: nat -> Attempt) {
    forall k: nat :: var a := attempts(k);
      && a.took >= 0.0 && a.jitter >= 0.0 && a.overshoot >= 0.0
      && (a.failure.Some? && a.failure.value.retryAfter.Some? ==> a.failure.value.retryAfter.value >= 0.0)
  }

  /** How long a broken attempt is followed by waiting: a positive Retry-After as it is, else the backoff. */
  function Paused(a: Attempt): real {
    match a.failure
    case Some(Break(_, _, Some(after))) => if after > 0.0 then after else a.jitter
    case _ => a.jitter
  }

  /** When the n-th attempt after k begins, if all before it are retried. */
  function Begins(attempts: nat -> Attempt, k: nat, now: real, n: nat): real
    decreases n
  {
    if n == 0 then now
    else Begins(attempts, k + 1, now + attempts(k).took + Paused(attempts(k)) + attempts(k).overshoot, n - 1)
  }

  /** Attempt k, begun at `at`, broke before it delivered anything, may be retried, and its wait ends before
      the deadline. */
  ghost predicate TriesAgain(p: Policy, deadline: Option<real>, a: Attempt, k: nat, at: real) {
    && a.failure.Some? && (a.failure.value.after == 0 || a.tokens == []) && a.failure.value.retryable && k + 1 < p.maxAttempts
    && (deadline.Some? ==> at + a.took + Paused(a) < deadline.value)
  }

  /** What a stream does: an attempt is retried exactly when it broke retryably with nothing delivered, not
      as the last, and its wait ends before the deadline. The first that is not decides the stream. */
  ghost predicate StreamTraced(p: Policy, deadline: Option<real>, attempts: nat -> Attempt, k: nat, now: real, log: StreamLog) {
    var n := |log.delivered|;
    && (forall i | 0 <= i < n - 1 :: TriesAgain(p, deadline, attempts(k + i), k + i, Begins(attempts, k, now, i)))
    && (if log.ending == Raised(DeadlinePassed) then
          && log.records == [] && k + n < p.maxAttempts && deadline.Some? && Begins(attempts, k, now, n) >= deadline.value
          && (n > 0 ==> TriesAgain(p, deadline, attempts(k + n - 1), k + n - 1, Begins(attempts, k, now, n - 1)))
        else if n == 0 then log.ending == NothingTried && log.records == [] && k == p.maxAttempts
        else
          var a, at := attempts(k + n - 1), Begins(attempts, k, now, n - 1);
          && log.ending == (if a.failure.None? then Completed else Raised(Failed))
          && log.records == [Record(a.failure.None?, at + a.took)]
          && !TriesAgain(p, deadline, a, k + n - 1, at))
  }

  lemma StreamTraceCons(p: Policy, deadline: Option<real>, attempts: nat -> Attempt, k: nat, now: real, out: seq<string>, rest: StreamLog)
    requires TriesAgain(p, deadline, attempts(k), k, now)
    requires StreamTraced(p, deadline, attempts, k + 1, now + attempts(k).took + Paused(attempts(k)) + attempts(k).overshoot, rest)
    ensures StreamTraced(p, deadline, attempts, k, now, StreamLog([out] + rest.delivered, rest.records, rest.ending))
  {
    hide TriesAgain, Paused;
    var next := now + attempts(k).took + Paused(attempts(k)) + attempts(k).overshoot;
    var n := |rest.delivered|;
    forall i | 0 <= i < n ensures TriesAgain(p, deadline, attempts(k + i), k + i, Begins(attempts, k, now, i)) {
      if i > 0 {
        assert k + i == k + 1 + (i - 1);
        assert Begins(attempts, k, now, i) == Begins(attempts, k + 1, next, i - 1);
      }
    }
    assert k + (n + 1) == k + 1 + n && k + (n + 1) - 1 == k + n;
    if n > 0 {
      assert Begins(attempts, k, now, n) == Begins(attempts, k + 1, next, n - 1);
    }
    TriesWithin(p, deadline, attempts(k), k, now);
  }

  lemma TriesWithin(p: Policy, deadline: Option<real>, a: Attempt, k: nat, at: real)
    requires TriesAgain(p, deadline, a, k, at)
    ensures k + 1 < p.maxAttempts
  {
  }

  /** Every stream with retries does what its trace says. */
  lemma {:induction false} StreamFromTraced(p: Policy, deadline: Option<real>, attempts: nat -> Attempt, k: nat, now: real)
    requires k <= p.maxAttempts && Sane(attempts)
    ensures StreamTraced(p, deadline, attempts, k, now, StreamFrom(p, deadline, attempts, k, now))
    decreases p.maxAttempts - k
  {
    hide StreamTraced;
    SaneAttempt(attempts, k);
    if k < p.maxAttempts && !Expired(deadline, now) && !Decides(p, deadline, attempts, k, now) {
      var next := NextStart(attempts, k, now);
      StreamFromTraced(p, deadline, attempts, k + 1, next);
      StreamTraceCons(p, deadline, attempts, k, now, Emitted(attempts(k)), StreamFrom(p, deadline, attempts, k + 1, next));
    } else {
      StreamTraceEnds(p, deadline, attempts, k, now);
    }
  }

  lemma SaneAttempt(attempts: nat -> Attempt, k: nat)
    requires Sane(attempts)
    ensures RetryDelay(attempts(k)) == Paused(attempts(k)) >= 0.0 && attempts(k).took >= 0.0 && attempts(k).overshoot >= 0.0
  {
  }

  lemma StreamTraceEnds(p: Policy, deadline: Option<real>, attempts: nat -> Attempt, k: nat, now: real)
    requires k <= p.maxAttempts && (k == p.maxAttempts || Expired(deadline, now) || Decides(p, deadline, attempts, k, now))
    requires RetryDelay(attempts(k)) == Paused(attempts(k)) >= 0.0
    ensures StreamTraced(p, deadline, attempts, k, now, StreamFrom(p, deadline, attempts, k, now))
  {
    hide RetryDelay, Paused;
  }

  lemma {:induction false} FlattenLast(xss: seq<seq<string>>)
    requires forall i | 0 <= i < |xss| - 1 :: xss[i] == []
    ensures Flatten(xss) == if xss == [] then [] else xss[|xss| - 1]
    decreases |xss|
  {
    if |xss| > 1 {
      FlattenLast(xss[1..]);
    }
  }

  /** What the caller reads: a prefix of the tokens of the attempt at `at` (nothing when none ran). */
  ghost predicate ReadsOne(out: seq<string>, attempts: nat -> Attempt, log: StreamLog) {
    if log.delivered == [] then out == []
    else out <= attempts(|log.delivered| - 1).tokens
  }

  /** A stream with retries: the caller reads a prefix of exactly one attempt, the last; every earlier
      attempt delivered nothing. On a normal return it is all of that attempt, or nothing was tried
      because no attempt is allowed. */
  lemma SingleAttempt(p: Policy, b: Breaker, deadline: Option<real>, attempts: nat -> Attempt, now: real)
    ensures var log := StreamAll(p, b, deadline, attempts, now); var out := Flatten(log.delivered);
      && ReadsOne(out, attempts, log)
      && (forall i | 0 <= i < |log.delivered| - 1 :: log.delivered[i] == [])
      && (log.ending.Completed? ==> log.delivered != [] && out == attempts(|log.delivered| - 1).tokens)
      && (log.ending.NothingTried? <==> !IsOpen(b, now) && p.maxAttempts == 0)
  {
    RetriesDeliverNothing(p, deadline, attempts, 0, now);
    StreamRecords(p, deadline, attempts, 0, now);
    var log := StreamAll(p, b, deadline, attempts, now);
    FlattenLast(log.delivered);
  }

  /** Yields tokens one at a time after those already read. */
  method Relay(read: seq<string>, sent: seq<string>) returns (out: seq<string>, emitted: bool)
    ensures out == read + sent && (emitted <==> sent != [])
  {
    out, emitted := read, false;
    for i := 0 to |sent|
      invariant out == read + sent[..i]
      invariant emitted <==> i > 0
    {
      emitted := true;
      out := out + [sent[i]];
    }
  }

  class Generator {
    const name: string
    const policy: Policy
    const breaker: CircuitBreaker

    constructor (name: string, policy: Policy, breaker: CircuitBreaker)
      ensures this.name == name && this.policy == policy && this.breaker == breaker
    {
      this.name := name;
      this.policy := policy;
      this.breaker := breaker;
    }

    /** `out` is the sequence of tokens yielded to the caller. */
    method Stream(deadline: Option<real>, attempts: nat -> Attempt, started: real)
      returns (out: seq<string>, ending: StreamEnd, now: real)
      modifies breaker
      ensures var log := StreamAll(policy, old(breaker.State()), deadline, attempts, started);
        && out == Flatten(log.delivered) && ending == log.ending
        && breaker.State() == Apply(Probe(old(breaker.State()), started), log.records)
    {
      out, now := [], started;
      var open := breaker.CheckOpen(started);
      if open {
        return out, Raised(CircuitWasOpen), now;
      }
      ghost var probed := breaker.State();
      ghost var log := StreamFrom(policy, deadline, attempts, 0, started);
      hide StreamFrom, Probe, Emitted, Flatten, RetryDelay, Expired, Remaining, Continues;
      var attempt := 0;
      ContinuesFresh(log);
      while attempt < policy.maxAttempts
        invariant 0 <= attempt <= policy.maxAttempts
        invariant breaker.State() == probed
        invariant Continues(log, out, StreamFrom(policy, deadline, attempts, attempt, now))
      {
        AttemptUnfolds(policy, deadline, attempts, attempt, now);
        ghost var read, here := out, StreamFrom(policy, deadline, attempts, attempt, now);
        ContinuesMeans(log, read, here);
        if Expired(deadline, now) {
          return out, Raised(DeadlinePassed), now;
        }
        var served := attempts(attempt);
        var emitted;
        out, emitted := Relay(out, Emitted(served));
        now := now + served.took;
        if served.failure.None? {
          breaker.OnSuccess();
          return out, Completed, now;
        }
        var error := served.failure.value;
        if emitted || !error.retryable || attempt == policy.maxAttempts - 1 {
          breaker.OnFailure(now);
          return out, Raised(Failed), now;
        }
        var delay := RetryDelay(served);
        if deadline.Some? && delay >= Remaining(deadline.value, now) {
          breaker.OnFailure(now);
          return out, Raised(Failed), now;
        }
        now := now + delay + served.overshoot;
        attempt := attempt + 1;
        ContinuesMore(log, read, here, StreamFrom(policy, deadline, attempts, attempt, now));
      }
      ContinuesMeans(log, out, StreamFrom(policy, deadline, attempts, attempt, now));
      FlattenNone<string>();
      OutOfAttempts(policy, deadline, attempts, now);
      return out, NothingTried, now;
    }
  }

  /** With `out` already read, what remains to happen is `rest`. */
  ghost predicate Continues(whole: StreamLog, out: seq<string>, rest: StreamLog) {
    Flatten(whole.delivered) == out + Flatten(rest.delivered) && whole.records == rest.records && whole.ending == rest.ending
  }

  lemma ContinuesMeans(whole: StreamLog, out: seq<string>, rest: StreamLog)
    requires Continues(whole, out, rest)
    ensures Flatten(whole.delivered) == out + Flatten(rest.delivered) && whole.records == rest.records && whole.ending == rest.ending
  {
  }

  lemma ContinuesFresh(whole: StreamLog)
    ensures Continues(whole, [], whole)
  {
  }

  /** Nothing was delivered between `rest` and `next`. */
  lemma ContinuesMore(whole: StreamLog, out: seq<string>, rest: StreamLog, next: StreamLog)
    requires Continues(whole, out, rest) && Continues(rest, [], next)
    ensures Continues(whole, out + [], next)
  {
  }

  lemma OutOfAttempts(p: Policy, deadline: Option<real>, attempts: nat -> Attempt, now: real)
    ensures StreamFrom(p, deadline, attempts, p.maxAttempts, now) == StreamLog([], [], NothingTried)
  {
  }

  lemma AttemptUnfolds(p: Policy, deadline: Option<real>, attempts: nat -> Attempt, k: nat, now: real)
    requires k < p.maxAttempts
    ensures var log := StreamFrom(p, deadline, attempts, k, now);
      if Expired(deadline, now) then log == StreamLog([], [], Raised(DeadlinePassed))
      else
        var a := attempts(k);
        var out := Emitted(a);
        var done := now + a.took;
        if a.failure.None? then
          log.records == [Record(true, done)] && log.ending == Completed && Flatten(log.delivered) == out
        else if out != [] || !a.failure.value.retryable || k == p.maxAttempts - 1
                || (deadline.Some? && RetryDelay(a) >= Remaining(deadline.value, done)) then
          log.records == [Record(false, done)] && log.ending == Raised(Failed) && Flatten(log.delivered) == out
        else Continues(log, [], StreamFrom(p, deadline, attempts, k + 1, done + RetryDelay(a) + a.overshoot))
  {
    if !Expired(deadline, now) {
      var out := Emitted(attempts(k));
      assert [out][1..] == [] && Flatten([out]) == out;
    }
  }

  /******* Fallback *******/

  class FallbackGenerator {
    const primary: Generator
    const secondary: Generator
    var lastProvider: string

    constructor (primary: Generator, secondary: Generator)
      ensures this.primary == primary && this.secondary == secondary && lastProvider == primary.name
    {
      this.primary := primary;
      this.secondary := secondary;
      lastProvider := primary.name;
    }

    /** The breaker the secondary faces after the primary's records: its own, or the one they share. */
    ghost function Faced(started: real, records: seq<Record>): Breaker
      reads primary.breaker, secondary.breaker
    {
      if primary.breaker == secondary.breaker then Apply(Probe(primary.breaker.State(), started), records)
      else secondary.breaker.State()
    }

    /** The secondary is asked exactly when the primary raised before delivering anything. The caller
        reads one attempt of one provider, and `lastProvider` names the one it read. */
    method Stream(deadline: Option<real>, first: nat -> Attempt, second: nat -> Attempt, started: real)
      returns (out: seq<string>, ending: StreamEnd, ghost switched: Option<real>)
      modifies this`lastProvider, primary.breaker, secondary.breaker
      ensures var p := StreamAll(primary.policy, old(primary.breaker.State()), deadline, first, started);
        && (switched.Some? <==> p.ending.Raised? && Flatten(p.delivered) == [])
        && (switched.None? ==> out == Flatten(p.delivered) && ending == p.ending && ReadsOne(out, first, p))
        && primary.breaker.State() == (if switched.Some? && primary.breaker == secondary.breaker then secondary.breaker.State()
                                       else Apply(Probe(old(primary.breaker.State()), started), p.records))
        && (switched.None? ==> secondary.breaker.State() == old(Faced(started, p.records)))
      ensures switched.Some? ==>
        var p := StreamAll(primary.policy, old(primary.breaker.State()), deadline, first, started);
        var faced := old(Faced(started, p.records));
        var s := StreamAll(secondary.policy, faced, deadline, second, switched.value);
        && out == Flatten(s.delivered) && ending == s.ending && ReadsOne(out, second, s)
        && secondary.breaker.State() == Apply(Probe(faced, switched.value), s.records)
      ensures ending.Completed? ==> exists k: nat :: out == (if switched.None? then first(k) else second(k)).tokens
      ensures out != [] ==> lastProvider == if switched.None? then primary.name else secondary.name
    {
      hide StreamAll, Apply, Probe;
      ghost var before := primary.breaker.State();
      SingleAttempt(primary.policy, before, deadline, first, started);
      var now;
      out, ending, now := primary.Stream(deadline, first, started);
      switched := None;
      if out != [] {
        lastProvider := primary.name;
      }
      if ending.Raised? && out == [] {
        lastProvider := secondary.name;
        switched := Some(now);
        SingleAttempt(secondary.policy, secondary.breaker.State(), deadline, second, now);
        out, ending, now := secondary.Stream(deadline, second, now);
      }
    }
  }
}
