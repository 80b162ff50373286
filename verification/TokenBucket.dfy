/**
  The token bucket: the simple form the GCRA script is compared with, and the contract of
  the in-memory limiter that stands in for it while Redis is down.
 */
module TokenBucket {
  import opened Prelude

  /** Tokens in the bucket as of time `at`. */
  datatype Bucket = Bucket(tokens: real, at: real)

  /** An arrival.  One with `hit == false` never reaches the bucket. */
  datatype Draw = Draw(at: real, hit: bool)

  datatype Shape = Shape(capacity: real, perSecond: real)

  /** Tokens flowing in between two moments. */
  function Inflow(s: Shape, from: real, to: real): real {
    (to - from) * s.perSecond
  }

  function Filled(s: Shape, b: Bucket, now: real): real {
    Min(s.capacity, b.tokens + Inflow(s, b.at, now))
  }

  function Take(s: Shape, b: Bucket, now: real): (Bucket, bool) {
    var tokens := Filled(s, b, now);
    if tokens >= 1.0 then (Bucket(tokens - 1.0, now), true) else (Bucket(tokens, now), false)
  }

  function TakeStep(s: Shape, b: Bucket, d: Draw): (Bucket, bool) {
    if d.hit then Take(s, b, d.at) else (b, false)
  }

  function BucketRun(s: Shape, b: Bucket, draws: seq<Draw>): (taken: seq<bool>)
    ensures |taken| == |draws|
    decreases |draws|
  {
    if draws == [] then
      []
    else
      var (next, ok) := TakeStep(s, b, draws[0]);
      [ok] + BucketRun(s, next, draws[1..])
  }

  predicate InOrder(draws: seq<Draw>) {
    forall i, j :: 0 <= i < j < |draws| ==> draws[i].at <= draws[j].at
  }

  /** How many arrivals of the closed window `[from, to]` got a token. */
  function TakenIn(draws: seq<Draw>, taken: seq<bool>, from: real, to: real): nat
    requires |draws| == |taken|
  {
    if draws == [] then
      0
    else
      (if taken[0] && from <= draws[0].at <= to then 1 else 0) + TakenIn(draws[1..], taken[1..], from, to)
  }

  lemma {:induction false} NothingLate(draws: seq<Draw>, taken: seq<bool>, from: real, to: real)
    requires |draws| == |taken|
    requires forall i :: 0 <= i < |draws| ==> to < draws[i].at
    ensures TakenIn(draws, taken, from, to) == 0
  {
    if draws == [] {
    } else {
      NothingLate(draws[1..], taken[1..], from, to);
    }
  }

  /** What is in the bucket plus what flows in until `to` pays for every token taken by then. */
  lemma {:induction false} TakenAreFunded(s: Shape, b: Bucket, draws: seq<Draw>, from: real, to: real)
    requires s.perSecond >= 0.0 && 0.0 <= s.capacity && 0.0 <= b.tokens && b.at <= to && InOrder(draws)
    requires forall i :: 0 <= i < |draws| ==> b.at <= draws[i].at
    ensures TakenIn(draws, BucketRun(s, b, draws), from, to) as real <= b.tokens + Inflow(s, b.at, to)
    decreases |draws|
  {
    Accrued(s, b, to);
    if draws == [] {
    } else if to < draws[0].at {
      NothingLate(draws, BucketRun(s, b, draws), from, to);
    } else {
      UnfoldTaken(s, b, draws, from, to);
      if draws[0].hit {
        TakePays(s, b, draws[0].at, to);
        TakenAreFunded(s, Take(s, b, draws[0].at).0, draws[1..], from, to);
      } else {
        TakenAreFunded(s, b, draws[1..], from, to);
      }
    }
  }

  lemma {:induction false} UnfoldTaken(s: Shape, b: Bucket, draws: seq<Draw>, from: real, to: real)
    requires draws != []
    ensures TakenIn(draws, BucketRun(s, b, draws), from, to)
         == (if TakeStep(s, b, draws[0]).1 && from <= draws[0].at <= to then 1 else 0)
          + TakenIn(draws[1..], BucketRun(s, TakeStep(s, b, draws[0]).0, draws[1..]), from, to)
  {
    var next := TakeStep(s, b, draws[0]).0;
    assert BucketRun(s, b, draws)[1..] == BucketRun(s, next, draws[1..]);
  }

  lemma {:induction false} TakePays(s: Shape, b: Bucket, now: real, to: real)
    requires s.perSecond >= 0.0 && 0.0 <= s.capacity && 0.0 <= b.tokens && b.at <= now <= to
    ensures var (next, ok) := Take(s, b, now);
            && 0.0 <= next.tokens
            && (if ok then 1.0 else 0.0) + next.tokens <= s.capacity
            && (if ok then 1.0 else 0.0) + next.tokens + Inflow(s, next.at, to) <= b.tokens + Inflow(s, b.at, to)
  {
    Accrued(s, b, now);
    ScaleSplit(b.at, now, to, s.perSecond);
  }

  lemma {:induction false} InflowShrinks(s: Shape, from: real, mid: real, to: real)
    requires s.perSecond >= 0.0 && from <= mid <= to
    ensures 0.0 <= Inflow(s, mid, to) <= Inflow(s, from, to)
  {
    ScaleMonotone(to - mid, to - from, s.perSecond);
  }

  lemma {:induction false} Accrued(s: Shape, b: Bucket, now: real)
    requires s.perSecond >= 0.0 && 0.0 <= b.tokens && b.at <= now
    ensures 0.0 <= Inflow(s, b.at, now)
    ensures Filled(s, b, now) <= b.tokens + Inflow(s, b.at, now)
    ensures 0.0 <= s.capacity ==> 0.0 <= Filled(s, b, now) <= s.capacity
  {
    ScaleMonotone(0.0, now - b.at, s.perSecond);
  }

  /** A first arrival inside the window finds at most a full bucket. */
  lemma {:induction false} OpensInside(s: Shape, b: Bucket, draws: seq<Draw>, from: real, to: real)
    requires s.perSecond >= 0.0 && 0.0 <= s.capacity && 0.0 <= b.tokens && InOrder(draws)
    requires forall i :: 0 <= i < |draws| ==> b.at <= draws[i].at
    requires draws != [] && draws[0].hit && from <= draws[0].at <= to
    ensures TakenIn(draws, BucketRun(s, b, draws), from, to) as real
         <= s.capacity + Inflow(s, draws[0].at, to)
  {
    var next := TakeStep(s, b, draws[0]).0;
    UnfoldTaken(s, b, draws, from, to);
    TakePays(s, b, draws[0].at, to);
    assert next.at == draws[0].at;
    TakenAreFunded(s, next, draws[1..], from, to);
  }

  /** Whatever came before, a closed window passes at most the capacity plus what flows in during it. */
  lemma {:induction false} WindowBound(s: Shape, b: Bucket, draws: seq<Draw>, from: real, to: real)
    requires s.perSecond >= 0.0 && 0.0 <= s.capacity && 0.0 <= b.tokens && InOrder(draws) && from <= to
    requires forall i :: 0 <= i < |draws| ==> b.at <= draws[i].at
    ensures TakenIn(draws, BucketRun(s, b, draws), from, to) as real <= s.capacity + Inflow(s, from, to)
    decreases |draws|
  {
    InflowShrinks(s, from, to, to);
    if draws == [] {
    } else if to < draws[0].at {
      NothingLate(draws, BucketRun(s, b, draws), from, to);
    } else if draws[0].hit && from <= draws[0].at {
      OpensInside(s, b, draws, from, to);
      InflowShrinks(s, from, draws[0].at, to);
    } else {
      var next := TakeStep(s, b, draws[0]).0;
      UnfoldTaken(s, b, draws, from, to);
      TakePays(s, b, draws[0].at, to);
      WindowBound(s, next, draws[1..], from, to);
    }
  }
}
