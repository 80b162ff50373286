/**
  The consumer's retry loop: handler attempts with a doubling backoff, then the dead-letter
  queue under the strict or the permissive policy.

  The environment is a sequence of attempts.  The process may be killed inside a handler call or
  inside the dead-letter publish; when the attempts run out it was killed between two of them, or
  the handler has not yet been called again.
 */
module Retry {
  import opened Prelude

  const MILLISECOND := 1_000_000
  const SECOND := 1000 * MILLISECOND

  /** The value of an `int64` expression whose exact result is `x`. */
  function Wrap64(x: int): int {
    Signed(x % TWO64)
  }

  /** Durations are nanoseconds in an `int64`. */
  datatype Config = Config(maxRetries: int, initialBackoff: int, maxBackoff: int, strict: bool, hasDlq: bool,
                           topic: string, dlqTopic: string)

  /** The defaults a new consumer fills in. */
  function WithDefaults(cfg: Config): Config {
    cfg.(initialBackoff := if cfg.initialBackoff == 0 then 100 * MILLISECOND else cfg.initialBackoff,
         maxBackoff := if cfg.maxBackoff == 0 then 30 * SECOND else cfg.maxBackoff,
         dlqTopic := if cfg.maxRetries > 0 && cfg.dlqTopic == "" then cfg.topic + ".dlq" else cfg.dlqTopic)
  }

  /** How a handler call or a publish ends; `Cut` means the process was killed inside it. */
  datatype Ending = Succeeded | Errored | Cut

  datatype Attempt = Attempt(cancelledBefore: bool, handler: Ending, cancelledInWait: bool)

  /** The first three return nil and let the record be committed; `Running` never returned. */
  datatype Verdict = Handled | DeadLettered | Dropped | Cancelled | DlqFailed | Panicked | Running

  datatype Outcome = Outcome(verdict: Verdict, calls: nat, dlqTries: nat, waits: seq<int>)

  predicate Settles(v: Verdict) {
    v in {Handled, DeadLettered, Dropped}
  }

  function NextBackoff(cfg: Config, backoff: int): int {
    var doubled := Wrap64(backoff * 2);
    if doubled > cfg.maxBackoff then cfg.maxBackoff else doubled
  }

  function OnLimit(cfg: Config, dlq: Ending): Outcome {
    if !cfg.hasDlq then
      Outcome(if cfg.strict then Panicked else Dropped, 1, 0, [])
    else
      match dlq
      case Succeeded => Outcome(DeadLettered, 1, 1, [])
      case Errored => Outcome(if cfg.strict then DlqFailed else Dropped, 1, 1, [])
      case Cut => Outcome(Running, 1, 1, [])
  }

  function RetryFrom(cfg: Config, attempts: seq<Attempt>, dlq: Ending, attempt: nat, backoff: int): Outcome
    decreases |attempts|
  {
    if attempts == [] then
      Outcome(Running, 0, 0, [])
    else if attempts[0].cancelledBefore then
      Outcome(Cancelled, 0, 0, [])
    else if attempts[0].handler.Succeeded? then
      Outcome(Handled, 1, 0, [])
    else if attempts[0].handler.Cut? then
      Outcome(Running, 1, 0, [])
    else if cfg.maxRetries > 0 && attempt + 1 >= cfg.maxRetries then
      OnLimit(cfg, dlq)
    else if attempts[0].cancelledInWait then
      Outcome(Cancelled, 1, 0, [backoff])
    else
      After(1, [backoff], RetryFrom(cfg, attempts[1..], dlq, attempt + 1, NextBackoff(cfg, backoff)))
  }

  function After(calls: nat, waits: seq<int>, o: Outcome): Outcome {
    Outcome(o.verdict, calls + o.calls, o.dlqTries, waits + o.waits)
  }

  lemma {:induction false} AfterAfter(calls: nat, waits: seq<int>, backoff: int, o: Outcome)
    ensures After(calls, waits, After(1, [backoff], o)) == After(calls + 1, waits + [backoff], o)
  {
    assert waits + ([backoff] + o.waits) == waits + [backoff] + o.waits;
  }

  function Process(cfg: Config, attempts: seq<Attempt>, dlq: Ending): Outcome {
    RetryFrom(cfg, attempts, dlq, 0, cfg.initialBackoff)
  }

  /** The loop itself. */
  method ProcessWithRetry(cfg: Config, attempts: seq<Attempt>, dlq: Ending) returns (o: Outcome)
    ensures o == Process(cfg, attempts, dlq)
  {
    var attempt: nat, backoff := 0, cfg.initialBackoff;
    var waits: seq<int> := [];
    while attempt < |attempts|
      invariant attempt <= |attempts|
      invariant Process(cfg, attempts, dlq)
             == After(attempt, waits, RetryFrom(cfg, attempts[attempt..], dlq, attempt, backoff))
    {
      var now := attempts[attempt];
      assert attempts[attempt..][0] == now && attempts[attempt..][1..] == attempts[attempt + 1..];
      assert waits + [] == waits;
      if now.cancelledBefore {
        return Outcome(Cancelled, attempt, 0, waits);
      }
      attempt := attempt + 1;
      if now.handler.Succeeded? {
        return Outcome(Handled, attempt, 0, waits);
      }
      if now.handler.Cut? {
        return Outcome(Running, attempt, 0, waits);
      }
      if cfg.maxRetries > 0 && attempt >= cfg.maxRetries {
        if !cfg.hasDlq {
          return Outcome(if cfg.strict then Panicked else Dropped, attempt, 0, waits);
        }
        if dlq.Cut? {
          return Outcome(Running, attempt, 1, waits);
        }
        if dlq.Errored? {
          return Outcome(if cfg.strict then DlqFailed else Dropped, attempt, 1, waits);
        }
        return Outcome(DeadLettered, attempt, 1, waits);
      }
      ghost var before := waits;
      waits := waits + [backoff];
      if now.cancelledInWait {
        return Outcome(Cancelled, attempt, 0, waits);
      }
      ghost var rest := RetryFrom(cfg, attempts[attempt..], dlq, attempt, NextBackoff(cfg, backoff));
      AfterAfter(attempt - 1, before, backoff, rest);
      backoff := Wrap64(backoff * 2);
      if backoff > cfg.maxBackoff {
        backoff := cfg.maxBackoff;
      }
    }
    return Outcome(Running, attempt, 0, waits);
  }

  // ---- What the loop can end with ----

  /** The attempt failed and nothing stopped the wait after it. */
  predicate GoesOn(a: Attempt) {
    a.handler.Errored? && !a.cancelledInWait
  }

  /** The handler was called `maxRetries` times and failed every time. */
  predicate Exhausted(cfg: Config, attempts: seq<Attempt>, calls: nat) {
    && cfg.maxRetries > 0 && calls == cfg.maxRetries && calls <= |attempts|
    && forall i :: 0 <= i < calls ==> attempts[i].handler.Errored?
  }

  /** A cancelled context was seen: before the next call, or in the wait after the last one. */
  predicate Stops(attempts: seq<Attempt>, calls: nat)
    requires calls <= |attempts|
  {
    || (calls < |attempts| && attempts[calls].cancelledBefore && (calls > 0 ==> GoesOn(attempts[calls - 1])))
    || (calls > 0 && attempts[calls - 1].handler.Errored? && attempts[calls - 1].cancelledInWait)
  }

  /** The process was killed: inside the last call, or with no attempt left. */
  predicate CutShort(attempts: seq<Attempt>, calls: nat)
    requires calls <= |attempts|
  {
    || (calls > 0 && attempts[calls - 1].handler.Cut?)
    || (calls == |attempts| && (calls > 0 ==> GoesOn(attempts[calls - 1])))
  }

  /** Everything that is true of an outcome, each verdict by an if-and-only-if. */
  ghost predicate OutcomeIsExact(cfg: Config, attempts: seq<Attempt>, dlq: Ending, o: Outcome) {
    && o.calls <= |attempts|
    && (cfg.maxRetries > 0 ==> o.calls <= cfg.maxRetries)
    && (forall i :: 0 <= i < o.calls ==> !attempts[i].cancelledBefore)
    && (forall i :: 0 <= i < o.calls - 1 ==> GoesOn(attempts[i]))
    && var exhausted := Exhausted(cfg, attempts, o.calls);
    && (o.verdict == Handled <==> o.calls > 0 && attempts[o.calls - 1].handler.Succeeded?)
    && (o.verdict == DeadLettered <==> exhausted && cfg.hasDlq && dlq.Succeeded?)
    && (o.verdict == Dropped <==> exhausted && !cfg.strict && (cfg.hasDlq ==> dlq.Errored?))
    && (o.verdict == DlqFailed <==> exhausted && cfg.strict && cfg.hasDlq && dlq.Errored?)
    && (o.verdict == Panicked <==> exhausted && cfg.strict && !cfg.hasDlq)
    && (o.verdict == Cancelled <==> !exhausted && Stops(attempts, o.calls))
    && (o.verdict == Running <==> if exhausted then cfg.hasDlq && dlq.Cut? else CutShort(attempts, o.calls))
    && o.dlqTries == (if exhausted && cfg.hasDlq then 1 else 0)
  }

  /** The same of a loop already `attempt` failures in. */
  lemma {:induction false} RetryIsExact(cfg: Config, attempts: seq<Attempt>, dlq: Ending, attempt: nat, backoff: int)
    requires cfg.maxRetries > 0 ==> attempt < cfg.maxRetries
    ensures OutcomeIsExact(if cfg.maxRetries > 0 then cfg.(maxRetries := cfg.maxRetries - attempt) else cfg,
                           attempts, dlq, RetryFrom(cfg, attempts, dlq, attempt, backoff))
    decreases |attempts|
  {
    var left := if cfg.maxRetries > 0 then cfg.(maxRetries := cfg.maxRetries - attempt) else cfg;
    if Retries(left, attempts) {
      RetryIsExact(cfg, attempts[1..], dlq, attempt + 1, NextBackoff(cfg, backoff));
      var rest := RetryFrom(cfg, attempts[1..], dlq, attempt + 1, NextBackoff(cfg, backoff));
      ExactAfterFailure(left, attempts, dlq, backoff, rest);
    } else {
      ExactAtEnd(left, attempts, dlq, backoff);
      EndsAlike(cfg, left, attempts, dlq, attempt, backoff);
    }
  }

  /** The first attempt fails and another follows it. */
  predicate Retries(left: Config, attempts: seq<Attempt>) {
    && attempts != [] && left.maxRetries != 1
    && attempts[0] == Attempt(false, Errored, false)
  }

  lemma {:induction false} EndsAlike(
      cfg: Config, left: Config, attempts: seq<Attempt>, dlq: Ending, attempt: nat, backoff: int)
    requires cfg.maxRetries > 0 ==> attempt < cfg.maxRetries
    requires left == if cfg.maxRetries > 0 then cfg.(maxRetries := cfg.maxRetries - attempt) else cfg
    requires !Retries(left, attempts)
    ensures RetryFrom(cfg, attempts, dlq, attempt, backoff) == RetryFrom(left, attempts, dlq, 0, backoff)
  {
    assert OnLimit(cfg, dlq) == OnLimit(left, dlq);
  }

  lemma {:induction false} ExactAtEnd(left: Config, attempts: seq<Attempt>, dlq: Ending, backoff: int)
    requires !Retries(left, attempts)
    ensures OutcomeIsExact(left, attempts, dlq, RetryFrom(left, attempts, dlq, 0, backoff))
  {
  }

  lemma {:induction false} ExactAfterFailure(
      left: Config, attempts: seq<Attempt>, dlq: Ending, backoff: int, rest: Outcome)
    requires attempts != [] && attempts[0] == Attempt(false, Errored, false) && left.maxRetries != 1
    requires OutcomeIsExact(if left.maxRetries > 0 then left.(maxRetries := left.maxRetries - 1) else left,
                            attempts[1..], dlq, rest)
    ensures OutcomeIsExact(left, attempts, dlq, After(1, [backoff], rest))
  {
    var fewer := if left.maxRetries > 0 then left.(maxRetries := left.maxRetries - 1) else left;
    assert forall i :: 1 <= i < |attempts| ==> attempts[i] == attempts[1..][i - 1];
    assert Exhausted(left, attempts, rest.calls + 1) <==> Exhausted(fewer, attempts[1..], rest.calls);
  }

  /**
    The verdict, the number of handler calls and the number of dead-letter tries, exactly, cancellation
    and kills included.
   */
  lemma {:induction false} ProcessIsExact(cfg: Config, attempts: seq<Attempt>, dlq: Ending)
    ensures OutcomeIsExact(cfg, attempts, dlq, Process(cfg, attempts, dlq))
  {
    RetryIsExact(cfg, attempts, dlq, 0, cfg.initialBackoff);
  }

  /** A loop that is called once more was not stopped. */
  lemma {:induction false} NoEarlierStop(cfg: Config, attempts: seq<Attempt>, dlq: Ending, o: Outcome, longer: Outcome)
    requires OutcomeIsExact(cfg, attempts, dlq, o) && OutcomeIsExact(cfg, attempts, dlq, longer)
    ensures o.calls >= longer.calls
  {
    if o.calls < longer.calls {
      assert false;
    }
  }

  /** The inputs leave no choice: two outcomes that are exact for them agree. */
  lemma {:induction false} OutcomeIsDetermined(
      cfg: Config, attempts: seq<Attempt>, dlq: Ending, o: Outcome, other: Outcome)
    requires OutcomeIsExact(cfg, attempts, dlq, o) && OutcomeIsExact(cfg, attempts, dlq, other)
    ensures o.verdict == other.verdict && o.calls == other.calls && o.dlqTries == other.dlqTries
  {
    if o.calls < other.calls {
      NoEarlierStop(cfg, attempts, dlq, o, other);
    } else if other.calls < o.calls {
      NoEarlierStop(cfg, attempts, dlq, other, o);
    }
  }

  predicate NeverCut(attempts: seq<Attempt>, dlq: Ending) {
    !dlq.Cut? && forall i :: 0 <= i < |attempts| ==> !attempts[i].handler.Cut?
  }

  /** With retries limited the loop ends, and in strict mode it returns nil only for a record that is safe. */
  lemma {:induction false} StrictNilMeansSafe(cfg: Config, attempts: seq<Attempt>, dlq: Ending)
    ensures var o := Process(cfg, attempts, dlq);
            && (cfg.maxRetries > 0 && cfg.maxRetries <= |attempts| && NeverCut(attempts, dlq) ==>
                  o.verdict != Running)
            && (cfg.strict && Settles(o.verdict) ==>
                  o.verdict == Handled || (o.verdict == DeadLettered && o.dlqTries == 1 && dlq.Succeeded?))
            && (cfg.maxRetries <= 0 && Settles(o.verdict) ==> o.verdict == Handled)
  {
    ProcessIsExact(cfg, attempts, dlq);
  }

  /** The fates a record can meet under a configuration. */
  function Fates(cfg: Config): set<Verdict> {
    {Handled}
    + (if cfg.maxRetries > 0 && cfg.hasDlq then {DeadLettered} else {})
    + (if cfg.maxRetries > 0 && !cfg.strict then {Dropped} else {})
  }

  lemma {:induction false} SettlesWithinFates(cfg: Config, attempts: seq<Attempt>, dlq: Ending)
    ensures Settles(Process(cfg, attempts, dlq).verdict) ==> Process(cfg, attempts, dlq).verdict in Fates(cfg)
  {
    ProcessIsExact(cfg, attempts, dlq);
  }

  /** Attempts and a publish that settle a record with the given fate. */
  function Leading(cfg: Config, fate: Verdict): (seq<Attempt>, Ending) {
    if fate == Handled || cfg.maxRetries <= 0 then
      ([Attempt(false, Succeeded, false)], Succeeded)
    else
      (seq(cfg.maxRetries, _ => Attempt(false, Errored, false)), if fate == DeadLettered then Succeeded else Errored)
  }

  /** Every fate of the configuration is met in some environment, so the set is exact. */
  lemma {:induction false} FatesAreMet(cfg: Config, fate: Verdict)
    requires fate in Fates(cfg)
    ensures Process(cfg, Leading(cfg, fate).0, Leading(cfg, fate).1).verdict == fate
  {
    var (attempts, dlq) := Leading(cfg, fate);
    var o := Process(cfg, attempts, dlq);
    ProcessIsExact(cfg, attempts, dlq);
    if fate != Handled {
      assert o.calls > 0 ==> attempts[o.calls - 1] == Attempt(false, Errored, false);
    }
  }

  /** The attempts of a process that is killed inside call number `calls`, or before the first. */
  function CutAfter(attempts: seq<Attempt>, calls: nat): seq<Attempt>
    requires calls <= |attempts|
  {
    if calls == 0 then [] else attempts[..calls - 1] + [attempts[calls - 1].(handler := Cut)]
  }

  /** The process can be killed inside every handler call it makes, and before the first. */
  lemma {:induction false} CutsAreOutcomes(cfg: Config, attempts: seq<Attempt>, dlq: Ending, calls: nat)
    requires calls <= Process(cfg, attempts, dlq).calls <= |attempts|
    ensures var o := Process(cfg, CutAfter(attempts, calls), dlq);
            o.verdict == Running && o.calls == calls
  {
    var cut := CutAfter(attempts, calls);
    ProcessIsExact(cfg, attempts, dlq);
    ProcessIsExact(cfg, cut, dlq);
    assert forall i :: 0 <= i < calls - 1 ==> cut[i] == attempts[i];
    OutcomeIsDetermined(cfg, cut, dlq, Process(cfg, cut, dlq), Outcome(Running, calls, 0, []));
  }

  // ---- How long it waits ----

  /** The `k`-th backoff counted from zero, as the loop computes it. */
  function BackoffAt(cfg: Config, backoff: int, k: nat): int
    decreases k
  {
    if k == 0 then backoff else BackoffAt(cfg, NextBackoff(cfg, backoff), k - 1)
  }

  /** The loop was left in or after a wait, or before the first call. */
  predicate WaitedLast(attempts: seq<Attempt>, o: Outcome)
    requires o.calls <= |attempts|
  {
    o.dlqTries == 0 && (o.calls == 0 || attempts[o.calls - 1].handler.Errored?) && o.verdict in {Running, Cancelled}
  }

  lemma {:induction false} WaitsCounted(
      cfg: Config, attempts: seq<Attempt>, dlq: Ending, attempt: nat, backoff: int)
    ensures var o := RetryFrom(cfg, attempts, dlq, attempt, backoff);
            o.calls <= |attempts| && |o.waits| == o.calls - (if WaitedLast(attempts, o) then 0 else 1)
    decreases |attempts|
  {
    if attempts == [] {
    } else {
      WaitsCounted(cfg, attempts[1..], dlq, attempt + 1, NextBackoff(cfg, backoff));
    }
  }

  lemma {:induction false} WaitsAreBackoffs(
      cfg: Config, attempts: seq<Attempt>, dlq: Ending, attempt: nat, backoff: int)
    ensures var o := RetryFrom(cfg, attempts, dlq, attempt, backoff);
            && forall k :: 0 <= k < |o.waits| ==> o.waits[k] == BackoffAt(cfg, backoff, k)
    ensures var o := RetryFrom(cfg, attempts, dlq, attempt, backoff);
            o.calls <= |attempts| && |o.waits| == o.calls - (if WaitedLast(attempts, o) then 0 else 1)
    decreases |attempts|
  {
    if attempts == [] {
    } else {
      WaitsCounted(cfg, attempts, dlq, attempt, backoff);
      WaitsAreBackoffs(cfg, attempts[1..], dlq, attempt + 1, NextBackoff(cfg, backoff));
      var rest := RetryFrom(cfg, attempts[1..], dlq, attempt + 1, NextBackoff(cfg, backoff));
      assert forall k :: 1 <= k <= |rest.waits| ==> ([backoff] + rest.waits)[k] == rest.waits[k - 1];
      assert forall k :: 1 <= k <= |rest.waits| ==>
               BackoffAt(cfg, backoff, k) == BackoffAt(cfg, NextBackoff(cfg, backoff), k - 1);
    }
  }

  function Least(x: int, y: int): int {
    if x < y then x else y
  }

  /** `x` doubled `k` times, without overflow. */
  function Doubled(x: int, k: nat): int
    decreases k
  {
    if k == 0 then x else Doubled(x * 2, k - 1)
  }

  lemma {:induction false} DoubledIsPower(x: int, k: nat)
    ensures Doubled(x, k) == x * Pow2(k)
    decreases k
  {
    if k == 0 {
    } else {
      DoubledIsPower(x * 2, k - 1);
      assert x * 2 * Pow2(k - 1) == x * Pow2(k);
    }
  }

  lemma {:induction false} DoubledGrows(x: int, k: nat)
    requires x > 0
    ensures Doubled(x, k) >= x
    decreases k
  {
    if k == 0 {
    } else {
      DoubledGrows(x * 2, k - 1);
    }
  }

  lemma {:induction false} Wrapped(x: int)
    ensures 0 <= x < TWO63 ==> Wrap64(x) == x
    ensures TWO63 <= x < TWO64 ==> Wrap64(x) == x - TWO64
  {
  }

  lemma {:induction false} BackoffClosedForm(cfg: Config, backoff: int, k: nat)
    requires 0 < backoff <= cfg.maxBackoff < TWO62
    ensures BackoffAt(cfg, backoff, k) == Least(Doubled(backoff, k), cfg.maxBackoff)
    decreases k
  {
    if k == 0 {
    } else {
      Wrapped(backoff * 2);
      BackoffClosedForm(cfg, NextBackoff(cfg, backoff), k - 1);
      DoubledGrows(cfg.maxBackoff, k - 1);
      DoubledGrows(backoff * 2, k - 1);
    }
  }

  /** The waits double up to the maximum, at every step of the loop, exactly under these bounds. */
  lemma {:induction false} BackoffExactly(cfg: Config)
    requires 0 < cfg.initialBackoff < TWO63 && 0 < cfg.maxBackoff < TWO63
    ensures (forall k: nat ::
               BackoffAt(cfg, cfg.initialBackoff, k) == Least(cfg.initialBackoff * Pow2(k), cfg.maxBackoff))
        <==> cfg.initialBackoff <= cfg.maxBackoff < 0x4000_0000_0000_0000
  {
    var b := cfg.initialBackoff;
    forall k: nat ensures Doubled(b, k) == b * Pow2(k) {
      DoubledIsPower(b, k);
    }
    if b <= cfg.maxBackoff < TWO62 {
      forall k: nat ensures BackoffAt(cfg, b, k) == Least(b * Pow2(k), cfg.maxBackoff) {
        BackoffClosedForm(cfg, b, k);
        assert Doubled(b, k) == b * Pow2(k);
      }
    } else if cfg.maxBackoff < b {
      assert BackoffAt(cfg, b, 0) != Least(Doubled(b, 0), cfg.maxBackoff);
    } else {
      DoublingOverflows(cfg);
      var k: nat :| BackoffAt(cfg, b, k) != Least(Doubled(b, k), cfg.maxBackoff);
    }
  }

  /** An initial wait above the maximum is waited once; every later wait is the maximum, exactly below 2^62. */
  lemma {:induction false} BackoffAboveMaximum(cfg: Config)
    requires 0 < cfg.maxBackoff < cfg.initialBackoff < TWO63
    ensures BackoffAt(cfg, cfg.initialBackoff, 0) == cfg.initialBackoff
    ensures (forall k: nat :: k > 0 ==> BackoffAt(cfg, cfg.initialBackoff, k) == cfg.maxBackoff)
       <==> cfg.initialBackoff < TWO62
  {
    var b := cfg.initialBackoff;
    Wrapped(b * 2);
    BackoffStep(cfg, b, 0);
    if b < TWO62 {
      forall k: nat | k > 0 ensures BackoffAt(cfg, b, k) == cfg.maxBackoff {
        BackoffClosedForm(cfg, cfg.maxBackoff, k - 1);
        DoubledGrows(cfg.maxBackoff, k - 1);
      }
    }
  }

  lemma {:induction false} BackoffStep(cfg: Config, backoff: int, k: nat)
    ensures BackoffAt(cfg, backoff, k + 1) == NextBackoff(cfg, BackoffAt(cfg, backoff, k))
    decreases k
  {
    if k == 0 {
    } else {
      BackoffStep(cfg, NextBackoff(cfg, backoff), k - 1);
    }
  }

  /** How many doublings it takes to reach the maximum. */
  function Ramp(backoff: int, max: int): (k: nat)
    requires backoff > 0
    ensures Doubled(backoff, k) >= max
    decreases max - backoff
  {
    if backoff >= max then 0 else 1 + Ramp(backoff * 2, max)
  }

  /** Once the wait has reached a maximum of 2^62 or more, doubling it wraps to a negative duration. */
  lemma {:induction false} DoublingOverflows(cfg: Config)
    requires 0 < cfg.initialBackoff <= cfg.maxBackoff && TWO62 <= cfg.maxBackoff < TWO63
    ensures exists k: nat ::
              BackoffAt(cfg, cfg.initialBackoff, k) != Least(Doubled(cfg.initialBackoff, k), cfg.maxBackoff)
  {
    var b := cfg.initialBackoff;
    var k := Ramp(b, cfg.maxBackoff);
    if BackoffAt(cfg, b, k) == cfg.maxBackoff {
      BackoffStep(cfg, b, k);
      Wrapped(cfg.maxBackoff * 2);
      DoubledGrows(b, k + 1);
      assert BackoffAt(cfg, b, k + 1) < 0;
    }
  }

  function Sum(waits: seq<int>): int {
    if waits == [] then 0 else waits[0] + Sum(waits[1..])
  }

  /** `n` waits: a geometric ramp, whose sum is its next term less its first, then the maximum each time. */
  function TotalWait(backoff: int, max: int, n: nat): int
    requires backoff > 0
  {
    var m := Ramp(backoff, max);
    if n <= m then Doubled(backoff, n) - backoff else Doubled(backoff, m) - backoff + (n - m) * max
  }

  lemma {:induction false} TotalWaitStep(backoff: int, max: int, n: nat)
    requires 0 < backoff <= max && n > 0
    ensures TotalWait(backoff, max, n) == backoff + TotalWait(Least(backoff * 2, max), max, n - 1)
  {
    if backoff < max && max < backoff * 2 {
      assert Ramp(backoff, max) == 1 && Ramp(max, max) == 0 && Doubled(backoff, 1) == backoff * 2;
    }
  }

  lemma {:induction false} WaitsSum(cfg: Config, backoff: int, waits: seq<int>)
    requires 0 < backoff <= cfg.maxBackoff < TWO62
    requires forall k :: 0 <= k < |waits| ==> waits[k] == BackoffAt(cfg, backoff, k)
    ensures Sum(waits) == TotalWait(backoff, cfg.maxBackoff, |waits|)
    decreases |waits|
  {
    if waits == [] {
    } else {
      var next := NextBackoff(cfg, backoff);
      Wrapped(backoff * 2);
      forall k | 0 <= k < |waits| - 1 ensures waits[1..][k] == BackoffAt(cfg, next, k) {
        assert waits[k + 1] == BackoffAt(cfg, backoff, k + 1);
      }
      WaitsSum(cfg, next, waits[1..]);
      assert waits[0] == BackoffAt(cfg, backoff, 0);
      TotalWaitStep(backoff, cfg.maxBackoff, |waits|);
    }
  }

  lemma {:induction false} SumBounded(waits: seq<int>, max: int)
    requires forall k :: 0 <= k < |waits| ==> waits[k] <= max
    ensures Sum(waits) <= |waits| * max
  {
    if waits == [] {
    } else {
      SumBounded(waits[1..], max);
    }
  }

  /** The waits of any processing: the doubling sequence capped at the maximum, never shorter than the one before. */
  lemma {:induction false} WaitsDouble(cfg: Config, attempts: seq<Attempt>, dlq: Ending)
    requires 0 < cfg.initialBackoff <= cfg.maxBackoff < TWO62
    ensures var waits := Process(cfg, attempts, dlq).waits;
            && (forall k :: 0 <= k < |waits| ==> waits[k] == Least(cfg.initialBackoff * Pow2(k), cfg.maxBackoff))
            && (forall k :: 0 < k < |waits| ==> waits[k - 1] <= waits[k])
  {
    var waits, b := Process(cfg, attempts, dlq).waits, cfg.initialBackoff;
    WaitsAreBackoffs(cfg, attempts, dlq, 0, b);
    forall k | 0 <= k < |waits| ensures waits[k] == Least(b * Pow2(k), cfg.maxBackoff) {
      BackoffClosedForm(cfg, b, k);
      DoubledIsPower(b, k);
    }
    forall k | 0 < k < |waits| ensures waits[k - 1] <= waits[k] {
      NeverShorter(cfg, b, k - 1);
    }
  }

  lemma {:induction false} WaitsOfExhausted(
      cfg: Config, attempts: seq<Attempt>, dlq: Ending, attempt: nat, backoff: int)
    requires RetryFrom(cfg, attempts, dlq, attempt, backoff).dlqTries > 0 && attempt < cfg.maxRetries
    ensures |RetryFrom(cfg, attempts, dlq, attempt, backoff).waits| == cfg.maxRetries - attempt - 1
    decreases |attempts|
  {
    if attempt + 1 < cfg.maxRetries {
      WaitsOfExhausted(cfg, attempts[1..], dlq, attempt + 1, NextBackoff(cfg, backoff));
    }
  }

  lemma {:induction false} OnlyLimitedRetriesReachDlq(cfg: Config, attempts: seq<Attempt>, dlq: Ending)
    ensures Process(cfg, attempts, dlq).dlqTries > 0 ==> cfg.maxRetries > 0
  {
    ProcessIsExact(cfg, attempts, dlq);
  }

  /** A record that is tried on the dead-letter queue has waited exactly the closed form. */
  lemma {:induction false} WaitBeforeDlq(cfg: Config, attempts: seq<Attempt>, dlq: Ending)
    requires 0 < cfg.initialBackoff <= cfg.maxBackoff < TWO62
    requires Process(cfg, attempts, dlq).dlqTries > 0
    ensures var waits := Process(cfg, attempts, dlq).waits;
            && |waits| == cfg.maxRetries - 1
            && Sum(waits) == TotalWait(cfg.initialBackoff, cfg.maxBackoff, |waits|) <= |waits| * cfg.maxBackoff
  {
    var o := Process(cfg, attempts, dlq);
    OnlyLimitedRetriesReachDlq(cfg, attempts, dlq);
    WaitsOfExhausted(cfg, attempts, dlq, 0, cfg.initialBackoff);
    WaitsAreBackoffs(cfg, attempts, dlq, 0, cfg.initialBackoff);
    WaitsDouble(cfg, attempts, dlq);
    WaitsSum(cfg, cfg.initialBackoff, o.waits);
    SumBounded(o.waits, cfg.maxBackoff);
  }

  lemma {:induction false} NeverShorter(cfg: Config, backoff: int, k: nat)
    requires 0 < backoff <= cfg.maxBackoff < TWO62
    ensures BackoffAt(cfg, backoff, k) <= BackoffAt(cfg, backoff, k + 1)
  {
    BackoffStep(cfg, backoff, k);
    BackoffClosedForm(cfg, backoff, k);
    DoubledGrows(backoff, k);
    Wrapped(BackoffAt(cfg, backoff, k) * 2);
  }
}
