/**
  The GCRA script is a token bucket kept in one number: without expiry, it decides every ordered
  sequence of requests as the bucket does.
 */
module Gcra {
  import opened Prelude
  import opened Redis
  import opened TokenBucket

  function ShapeOf(l: Limit): (s: Shape)
    ensures s.perSecond > 0.0
  {
    Shape(l.burst as real, l.rate as real / l.period)
  }

  function Draws(calls: seq<Call>): (draws: seq<Draw>)
    ensures |draws| == |calls|
    ensures forall i :: 0 <= i < |calls| ==> draws[i] == Draw(calls[i].now, !calls[i].fault.LostRequest?)
  {
    seq(|calls|, i requires 0 <= i < |calls| => Draw(calls[i].now, !calls[i].fault.LostRequest?))
  }

  function Admitted(replies: seq<Reply>): (taken: seq<bool>)
    ensures |taken| == |replies|
    ensures forall i :: 0 <= i < |replies| ==> taken[i] == (replies[i] == ADMIT)
  {
    seq(|replies|, i requires 0 <= i < |replies| => replies[i] == ADMIT)
  }

  /** Admissions the server made in the closed window `[from, to]`, whether or not the client heard of them. */
  function AdmissionsIn(calls: seq<Call>, replies: seq<Reply>, from: real, to: real): nat
    requires |calls| == |replies|
  {
    TakenIn(Draws(calls), Admitted(replies), from, to)
  }

  predicate AllGcra(calls: seq<Call>, l: Limit) {
    forall i :: 0 <= i < |calls| ==> calls[i].command == Command.Gcra(l)
  }

  // ---- The script is a token bucket ----

  /** The abstraction: each interval the stored time is ahead of the clock is one token missing. */
  function Tokens(l: Limit, c: Cell, now: real): real {
    if Live(c, now) && c.value.value.Tat? then
      l.burst as real - Max(0.0, c.value.value.time - now) / l.Interval()
    else
      l.burst as real
  }

  lemma {:induction false} Inverse(p: real, r: real)
    requires p > 0.0 && r > 0.0
    ensures (p / r) * (r / p) == 1.0
  {
    assert p / r * r == p;
    assert r / p * p == r;
    assert (p / r) * (r / p) * p == p / r * r;
  }

  lemma {:induction false} DivideByInterval(x: real, t: real, q: real)
    requires t > 0.0 && t * q == 1.0
    ensures x / t == x * q
  {
    ScaleBack(x, t, q);
    assert x / t * t == x;
  }

  lemma {:induction false} PerInterval(l: Limit, x: real)
    ensures x / l.Interval() == x * ShapeOf(l).perSecond
    ensures l.Interval() * ShapeOf(l).perSecond == 1.0
  {
    Inverse(l.period, l.rate as real);
    DivideByInterval(x, l.Interval(), ShapeOf(l).perSecond);
  }

  predicate PermanentTat(c: Cell) {
    c.Some? ==> c.value.value.Tat? && c.value.deadline.Never?
  }

  lemma {:induction false} Refilled(full: real, stored: real, at: real, now: real, q: real)
    requires at <= now && q > 0.0
    ensures Min(full, full - Max(0.0, stored - at) * q + (now - at) * q) == full - Max(0.0, stored - now) * q
  {
    ScaleMonotone(0.0, now - at, q);
    ScaleSum(stored - now, now - at, q);
    if stored > now {
      ScaleStrict(0.0, stored - now, q);
    } else {
      ScaleMonotone(stored - now, 0.0, q);
    }
  }

  lemma {:induction false} FilledIsTokens(l: Limit, c: Cell, b: Bucket, now: real)
    requires PermanentTat(c) && b.at <= now && b.tokens == Tokens(l, c, b.at)
    ensures Filled(ShapeOf(l), b, now) == Tokens(l, c, now)
  {
    var stored := if c.Some? then c.value.value.time else b.at;
    PerInterval(l, Max(0.0, stored - b.at));
    PerInterval(l, Max(0.0, stored - now));
    Refilled(l.burst as real, stored, b.at, now, ShapeOf(l).perSecond);
  }

  lemma {:induction false} WholeToken(full: real, ahead: real, t: real, q: real)
    requires t > 0.0 && q > 0.0 && t * q == 1.0
    ensures ahead + t - full * t <= 0.0 <==> full - ahead * q >= 1.0
    ensures (ahead + t) * q == ahead * q + 1.0
  {
    ScaleSum(ahead, t, q);
    ScaleSum(full - 1.0, 1.0, t);
    ScaleBack(full - 1.0, t, q);
    if ahead <= (full - 1.0) * t {
      ScaleMonotone(ahead, (full - 1.0) * t, q);
    } else {
      ScaleStrict((full - 1.0) * t, ahead, q);
    }
  }

  /** The admission test says that the bucket holds a whole token, and an admission takes one. */
  lemma {:induction false} StepIsTake(l: Limit, c: Cell, now: real)
    requires PermanentTat(c)
    ensures var (next, reply) := GcraCell(Permanent, c, l, now);
            && PermanentTat(next)
            && (reply == ADMIT <==> Tokens(l, c, now) >= 1.0)
            && Tokens(l, next, now) == Tokens(l, c, now) - (if reply == ADMIT then 1.0 else 0.0)
  {
    AheadIsTokens(l, Ahead(c, now));
    TokensLeft(l, c, now);
    TokensLeft(l, GcraCell(Permanent, c, l, now).0, now);
    GcraByAhead(l, c, now);
  }

  lemma {:induction false} AheadIsTokens(l: Limit, ahead: real)
    ensures ahead + l.Interval() - l.Span() <= 0.0 <==> l.burst as real - ahead * ShapeOf(l).perSecond >= 1.0
    ensures (ahead + l.Interval()) * ShapeOf(l).perSecond == ahead * ShapeOf(l).perSecond + 1.0
  {
    PerInterval(l, 0.0);
    WholeToken(l.burst as real, ahead, l.Interval(), ShapeOf(l).perSecond);
  }

  /** How far the stored time is ahead of the clock. */
  function Ahead(c: Cell, now: real): real
    requires PermanentTat(c)
  {
    if c.Some? then Max(0.0, c.value.value.time - now) else 0.0
  }

  lemma {:induction false} TokensLeft(l: Limit, c: Cell, now: real)
    requires PermanentTat(c)
    ensures Tokens(l, c, now) == l.burst as real - Ahead(c, now) * ShapeOf(l).perSecond
  {
    PerInterval(l, Ahead(c, now));
  }

  lemma {:induction false} GcraByAhead(l: Limit, c: Cell, now: real)
    requires PermanentTat(c)
    ensures var (next, reply) := GcraCell(Permanent, c, l, now);
            && PermanentTat(next)
            && (reply == ADMIT <==> Ahead(c, now) + l.Interval() - l.Span() <= 0.0)
            && Ahead(next, now) == Ahead(c, now) + (if reply == ADMIT then l.Interval() else 0.0)
  {
  }

  lemma {:induction false} CallIsDraw(l: Limit, c: Cell, b: Bucket, call: Call)
    requires PermanentTat(c) && b.at <= call.now && b.tokens == Tokens(l, c, b.at)
    requires call.command == Command.Gcra(l)
    ensures var (next, reply) := CellStep(Permanent, c, call);
            var (b', ok) := TakeStep(ShapeOf(l), b, Draw(call.now, !call.fault.LostRequest?));
            && ok == (reply == ADMIT)
            && PermanentTat(next) && b'.at <= call.now && b'.tokens == Tokens(l, next, b'.at)
  {
    if !call.fault.LostRequest? {
      FilledIsTokens(l, c, b, call.now);
      StepIsTake(l, c, call.now);
    }
  }

  /**
    On every ordered sequence of requests the script without expiry decides exactly as a token
    bucket of capacity `burst` refilled at `rate / period`.
   */
  lemma {:induction false} ScriptIsTokenBucket(l: Limit, c: Cell, b: Bucket, calls: seq<Call>)
    requires Ordered(calls) && AllGcra(calls, l)
    requires PermanentTat(c) && b.tokens == Tokens(l, c, b.at)
    requires forall i :: 0 <= i < |calls| ==> b.at <= calls[i].now
    ensures Admitted(CellRun(Permanent, c, calls)) == BucketRun(ShapeOf(l), b, Draws(calls))
    decreases |calls|
  {
    if calls == [] {
    } else {
      var draw := Draw(calls[0].now, !calls[0].fault.LostRequest?);
      CallIsDraw(l, c, b, calls[0]);
      ScriptIsTokenBucket(l, CellStep(Permanent, c, calls[0]).0, TakeStep(ShapeOf(l), b, draw).0, calls[1..]);
      UnfoldAdmitted(Permanent, c, calls);
      UnfoldBucket(ShapeOf(l), b, calls);
    }
  }

  lemma {:induction false} UnfoldAdmitted(ret: Retention, c: Cell, calls: seq<Call>)
    requires calls != []
    ensures var (next, reply) := CellStep(ret, c, calls[0]);
            Admitted(CellRun(ret, c, calls)) == [reply == ADMIT] + Admitted(CellRun(ret, next, calls[1..]))
  {
  }

  lemma {:induction false} UnfoldBucket(s: Shape, b: Bucket, calls: seq<Call>)
    requires calls != []
    ensures var (next, ok) := TakeStep(s, b, Draw(calls[0].now, !calls[0].fault.LostRequest?));
            BucketRun(s, b, Draws(calls)) == [ok] + BucketRun(s, next, Draws(calls[1..]))
  {
    assert Draws(calls)[1..] == Draws(calls[1..]);
  }

  /** A fresh key is a full bucket. */
  lemma {:induction false} FreshKeyIsFullBucket(l: Limit, calls: seq<Call>, start: real)
    requires Ordered(calls) && AllGcra(calls, l)
    requires calls == [] || start <= calls[0].now
    ensures Admitted(CellRun(Permanent, None, calls))
         == BucketRun(ShapeOf(l), Bucket(l.burst as real, start), Draws(calls))
  {
    ScriptIsTokenBucket(l, None, Bucket(l.burst as real, start), calls);
  }

  /** With fewer than one cell of burst the script never admits. */
  lemma {:induction false} NoBurstNoService(ret: Retention, l: Limit, c: Cell, now: real)
    requires l.burst <= 0
    ensures GcraCell(ret, c, l, now).1 != ADMIT
  {
    assert l.Span() <= 0.0;
  }
}
