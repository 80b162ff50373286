/**
  The HTTP rate-limit middlewares of a process with the in-memory fallback they share, and the
  gRPC interceptor that fails open.  The first middleware created sizes the fallback limiter:
  a token bucket of twice its burst refilled with twice its number of requests per second,
  whatever the period.
 */
module RateLimiter {
  import opened Prelude
  import opened Redis
  import opened TokenBucket
  import opened Gcra
  import opened GcraRuns
  import opened Keys

  datatype Verdict = Served | TooMany(retryAfter: int) | Unavailable

  datatype Outcome = Outcome(verdict: Verdict, fallback: bool)

  /**
    What happens to the shared store: a request of this process, by any of its middlewares, or a call by
    anyone else.
   */
  datatype Source = Own(limit: Rated, now: real, who: Identity, fault: Fault) | Foreign(call: Call)

  /** An event, with the reading of this process's own clock. */
  datatype Event = Event(local: real, source: Source)

  /** The limiter the first middleware asks for; a rate that is not positive never refills it. */
  function FallbackShape(rps: int, burst: int): (s: Shape)
    ensures s.perSecond >= 0.0
  {
    Shape((burst * 2) as real, Max(0.0, (rps * 2) as real))
  }

  /**
    Every request of this process is answered by what it saw of the script: an admission is served, a
    denial carries the number of seconds, and a failure is put to the fallback bucket.
   */
  lemma {:induction false} VerdictsExactly(shape: Shape, s: Store, b: Bucket, events: seq<Event>, i: nat)
    requires i < |events| && events[i].source.Own?
    ensures var replies := Run(Expiring, s, Calls(events));
            var seen := Seen(CallOf(events[i]), replies[i]);
            var draws := FallbackDraws(events, replies);
            var Outcome(verdict, fallback) := HandleRun(shape, s, b, events)[i];
            && (seen == ADMIT ==> verdict == Served && !fallback)
            && (forall r :: verdict == TooMany(r) <==> seen == Number(r) && r >= 0)
            && (fallback <==> !seen.Number?)
            && (fallback ==> verdict == if BucketRun(shape, b, draws)[i] then Served else Unavailable)
    decreases i
  {
    var calls := Calls(events);
    var (s', reply) := Step(Expiring, s, calls[0]);
    var b' := Decide(shape, b, events[0], reply).0;
    var draws := FallbackDraws(events, Run(Expiring, s, calls));
    if i == 0 {
    } else {
      VerdictsExactly(shape, s', b', events[1..], i - 1);
      assert calls[1..] == Calls(events[1..]);
      assert Run(Expiring, s, calls)[1..] == Run(Expiring, s', calls[1..]);
      assert draws[1..] == FallbackDraws(events[1..], Run(Expiring, s', calls[1..]));
      assert BucketRun(shape, b, draws)[1..] == BucketRun(shape, b', draws[1..]);
    }
  }

  /**
    The fallback refills by the second: at twice the rate of the limit it stands in for exactly if
    that limit's period is one second, and faster exactly if it is longer.
   */
  lemma {:induction false} FallbackDoublesExactly(l: Limit)
    ensures var fallback := FallbackShape(l.rate, l.burst);
            && fallback.capacity == 2.0 * ShapeOf(l).capacity
            && (fallback.perSecond == 2.0 * ShapeOf(l).perSecond <==> l.period == 1.0)
            && (fallback.perSecond > 2.0 * ShapeOf(l).perSecond <==> l.period > 1.0)
  {
    PeriodDecides(l.rate as real, l.period);
  }

  lemma {:induction false} PeriodDecides(rate: real, period: real)
    requires rate > 0.0 && period > 0.0
    ensures rate == rate / period <==> period == 1.0
    ensures rate > rate / period <==> period > 1.0
  {
    var perSecond := rate / period;
    assert period * perSecond == rate;
    if period > 1.0 {
      ScaleStrict(1.0, period, perSecond);
    } else if period < 1.0 {
      ScaleStrict(period, 1.0, perSecond);
    }
  }

  function CallOf(e: Event): Call {
    match e.source
    case Own(limit, now, who, fault) => Call(now, KeyText(Http(who)), Command.Gcra(limit), fault)
    case Foreign(call) => call
  }

  /** Whether a request finds Redis failing and asks the fallback limiter. */
  predicate Degraded(e: Event, reply: Reply) {
    e.source.Own? && !Seen(CallOf(e), reply).Number?
  }

  function Decide(shape: Shape, b: Bucket, e: Event, reply: Reply): (Bucket, Outcome) {
    var seen := Seen(CallOf(e), reply);
    if e.source.Foreign? then
      (b, Outcome(Unavailable, false))
    else if !seen.Number? then
      var (next, ok) := Take(shape, b, e.local);
      (next, Outcome(if ok then Served else Unavailable, true))
    else if seen.n >= 0 then
      (b, Outcome(TooMany(seen.n), false))
    else
      (b, Outcome(Served, false))
  }

  function HandleRun(shape: Shape, s: Store, b: Bucket, events: seq<Event>): (outcomes: seq<Outcome>)
    ensures |outcomes| == |events|
    decreases |events|
  {
    if events == [] then
      []
    else
      var (s', reply) := Step(Expiring, s, CallOf(events[0]));
      var (b', outcome) := Decide(shape, b, events[0], reply);
      [outcome] + HandleRun(shape, s', b', events[1..])
  }

  function Calls(events: seq<Event>): (calls: seq<Call>)
    ensures |calls| == |events|
    ensures forall i :: 0 <= i < |events| ==> calls[i] == CallOf(events[i])
  {
    seq(|events|, i requires 0 <= i < |events| => CallOf(events[i]))
  }

  // ---- The fallback is one bucket ----

  function FallbackDraws(events: seq<Event>, replies: seq<Reply>): (draws: seq<Draw>)
    requires |events| == |replies|
    ensures |draws| == |events|
    ensures forall i :: 0 <= i < |events| ==> draws[i] == Draw(events[i].local, Degraded(events[i], replies[i]))
  {
    seq(|events|, i requires 0 <= i < |events| => Draw(events[i].local, Degraded(events[i], replies[i])))
  }

  /** Requests of all identities served by the fallback while the local clock is in `[from, to]`. */
  function FallbackServed(events: seq<Event>, outcomes: seq<Outcome>, from: real, to: real): nat
    requires |events| == |outcomes|
  {
    if events == [] then
      0
    else
      (if outcomes[0] == Outcome(Served, true) && from <= events[0].local <= to then 1 else 0)
      + FallbackServed(events[1..], outcomes[1..], from, to)
  }

  predicate LocalInOrder(events: seq<Event>) {
    forall i, j :: 0 <= i < j < |events| ==> events[i].local <= events[j].local
  }

  lemma {:induction false} FallbackIsBucket(shape: Shape, s: Store, b: Bucket, events: seq<Event>, from: real, to: real)
    ensures FallbackServed(events, HandleRun(shape, s, b, events), from, to)
         == (var draws := FallbackDraws(events, Run(Expiring, s, Calls(events)));
             TakenIn(draws, BucketRun(shape, b, draws), from, to))
    decreases |events|
  {
    if events == [] {
    } else {
      var calls := Calls(events);
      var (s', reply) := Step(Expiring, s, calls[0]);
      var b' := Decide(shape, b, events[0], reply).0;
      FallbackIsBucket(shape, s', b', events[1..], from, to);
      assert calls[1..] == Calls(events[1..]);
      assert Run(Expiring, s, calls)[1..] == Run(Expiring, s', calls[1..]);
      var draws := FallbackDraws(events, Run(Expiring, s, calls));
      assert draws[1..] == FallbackDraws(events[1..], Run(Expiring, s', calls[1..]));
      UnfoldTaken(shape, b, draws, from, to);
      assert HandleRun(shape, s, b, events)[1..] == HandleRun(shape, s', b', events[1..]);
    }
  }

  /**
    Across any alternation of Redis up and down, all identities of all middlewares of a process
    together pass at most this much of the fallback, sized by the first middleware.
   */
  lemma {:induction false} FallbackWindow(rps: int, burst: int, s: Store, start: real, events: seq<Event>,
                                          from: real, to: real)
    requires LocalInOrder(events) && from <= to
    requires forall i :: 0 <= i < |events| ==> start <= events[i].local
    ensures var shape := FallbackShape(rps, burst);
            FallbackServed(events, HandleRun(shape, s, Bucket(shape.capacity, start), events), from, to) as real
            <= Max(0.0, (2 * burst) as real) + Inflow(shape, from, to)
  {
    var shape := FallbackShape(rps, burst);
    var draws := FallbackDraws(events, Run(Expiring, s, Calls(events)));
    FallbackIsBucket(shape, s, Bucket(shape.capacity, start), events, from, to);
    if burst >= 0 {
      WindowBound(shape, Bucket(shape.capacity, start), draws, from, to);
    } else {
      InflowShrinks(shape, from, to, to);
      NothingFromDebt(shape, Bucket(shape.capacity, start), draws, from, to);
    }
  }

  /** A bucket of negative capacity never has a token. */
  lemma {:induction false} NothingFromDebt(s: Shape, b: Bucket, draws: seq<Draw>, from: real, to: real)
    requires s.capacity < 0.0
    ensures TakenIn(draws, BucketRun(s, b, draws), from, to) == 0
    decreases |draws|
  {
    if draws == [] {
    } else {
      UnfoldTaken(s, b, draws, from, to);
      NothingFromDebt(s, TakeStep(s, b, draws[0]).0, draws[1..], from, to);
    }
  }

  // ---- One identity ----

  /**
    Requests of one identity under one limit served while the Redis clock is in `[from, to]` and the
    local one in `[lfrom, lto]`.
   */
  function ServedTo(events: seq<Event>, outcomes: seq<Outcome>, who: Identity, l: Limit,
                    from: real, to: real, lfrom: real, lto: real): nat
    requires |events| == |outcomes|
  {
    if events == [] then
      0
    else
      (if && events[0].source.Own? && events[0].source.who == who && events[0].source.limit == l
          && outcomes[0].verdict == Served
          && from <= events[0].source.now <= to && lfrom <= events[0].local <= lto then 1 else 0)
      + ServedTo(events[1..], outcomes[1..], who, l, from, to, lfrom, lto)
  }

  lemma {:induction false} ServedIsGrantedOrFallback(shape: Shape, s: Store, b: Bucket, events: seq<Event>,
                                                     who: Identity, l: Limit,
                                                     from: real, to: real, lfrom: real, lto: real)
    ensures ServedTo(events, HandleRun(shape, s, b, events), who, l, from, to, lfrom, lto)
         <= GrantedIn(Calls(events), Run(Expiring, s, Calls(events)), KeyText(Http(who)), l, from, to)
          + FallbackServed(events, HandleRun(shape, s, b, events), lfrom, lto)
    decreases |events|
  {
    if events == [] {
    } else {
      var calls := Calls(events);
      var (s', reply) := Step(Expiring, s, calls[0]);
      var b' := Decide(shape, b, events[0], reply).0;
      ServedIsGrantedOrFallback(shape, s', b', events[1..], who, l, from, to, lfrom, lto);
      assert calls[1..] == Calls(events[1..]);
      assert Run(Expiring, s, calls)[1..] == Run(Expiring, s', calls[1..]);
      assert HandleRun(shape, s, b, events)[1..] == HandleRun(shape, s', b', events[1..]);
      if events[0].source.Own? {
        NumberIsAdmitOrWait(CellOf(s, calls[0].key), events[0].source.limit, calls[0].now);
      }
    }
  }

  /** The caller's test for a non-negative number tells denials from admissions. */
  lemma {:induction false} NumberIsAdmitOrWait(c: Cell, l: Rated, now: real)
    ensures var reply := GcraCell(Expiring, c, l, now).1;
            reply.Number? ==> (reply == ADMIT <==> reply.n < 0) && (reply != ADMIT ==> reply.n >= 1)
  {
  }

  /** Whoever uses an identity's key runs the script with limits that keep their times long enough. */
  predicate Issuable(call: Call, key: string, span: real) {
    call.key == key ==> call.command.Gcra? && KeptWithin(call.command.limit, span)
  }

  /**
    One identity gets under one limit at most its own window, stretched by the longest span of any
    limit used on its key, plus what the fallback lets through.
   */
  lemma {:induction false} IdentityWindow(
      rps: int, burst: int, start: real, events: seq<Event>, who: Identity, l: Limit,
      span: real, from: real, to: real, lfrom: real, lto: real)
    requires 0.0 <= span && from <= to && lfrom <= lto
    requires LocalInOrder(events) && forall i :: 0 <= i < |events| ==> start <= events[i].local
    requires forall i :: 0 <= i < |events| ==> Issuable(CallOf(events[i]), KeyText(Http(who)), span)
    ensures var shape := FallbackShape(rps, burst);
            ServedTo(events, HandleRun(shape, map[], Bucket(shape.capacity, start), events), who, l,
                     from, to, lfrom, lto) as real
            <= (if span == l.Span() then l.burst as real + Inflow(ShapeOf(l), from, to)
                else Inflow(ShapeOf(l), from, to + span))
             + Max(0.0, (2 * burst) as real) + Inflow(shape, lfrom, lto)
  {
    var shape := FallbackShape(rps, burst);
    ServedIsGrantedOrFallback(shape, map[], Bucket(shape.capacity, start), events, who, l, from, to, lfrom, lto);
    FallbackWindow(rps, burst, map[], start, events, lfrom, lto);
    SharedStoreWindow(Calls(events), KeyText(Http(who)), l, span, from, to);
  }

  // ---- gRPC: no fallback, a failing Redis lets the call through ----

  /** Calls on one key with one limit the interceptor let through in `[from, to]`. */
  function PassedIn(calls: seq<Call>, replies: seq<Reply>, key: string, l: Limit, from: real, to: real): (n: nat)
    requires |calls| == |replies|
  {
    if calls == [] then
      0
    else
      var seen := Seen(calls[0], replies[0]);
      (if && calls[0].key == key && calls[0].command == Command.Gcra(l) && from <= calls[0].now <= to
          && (seen.Number? ==> seen.n < 0) then 1 else 0)
      + PassedIn(calls[1..], replies[1..], key, l, from, to)
  }

  /** And those of them that saw Redis fail. */
  function FailedIn(calls: seq<Call>, replies: seq<Reply>, key: string, l: Limit, from: real, to: real): nat
    requires |calls| == |replies|
  {
    if calls == [] then
      0
    else
      (if && calls[0].key == key && calls[0].command == Command.Gcra(l) && from <= calls[0].now <= to
          && !Seen(calls[0], replies[0]).Number? then 1 else 0)
      + FailedIn(calls[1..], replies[1..], key, l, from, to)
  }

  lemma {:induction false} PassedIsGrantedOrFailed(l: Limit, s: Store, calls: seq<Call>, key: string,
                                                   from: real, to: real)
    ensures PassedIn(calls, Run(Expiring, s, calls), key, l, from, to)
         == GrantedIn(calls, Run(Expiring, s, calls), key, l, from, to)
          + FailedIn(calls, Run(Expiring, s, calls), key, l, from, to)
    decreases |calls|
  {
    if calls == [] {
    } else {
      var (s', reply) := Step(Expiring, s, calls[0]);
      PassedIsGrantedOrFailed(l, s', calls[1..], key, from, to);
      assert Run(Expiring, s, calls)[1..] == Run(Expiring, s', calls[1..]);
      if calls[0].key == key {
        NumberIsAdmitOrWait(CellOf(s, key), l, calls[0].now);
      }
    }
  }

  /** A gRPC identity gets at most its window plus one pass for each of its calls that saw Redis fail. */
  lemma {:induction false} GrpcWindow(l: Limit, calls: seq<Call>, who: Identity, span: real, from: real, to: real)
    requires 0.0 <= span && from <= to
    requires forall i :: 0 <= i < |calls| ==> Issuable(calls[i], KeyText(Grpc(who)), span)
    ensures var replies, key := Run(Expiring, map[], calls), KeyText(Grpc(who));
            PassedIn(calls, replies, key, l, from, to) as real
            <= (if span == l.Span() then l.burst as real + Inflow(ShapeOf(l), from, to)
                else Inflow(ShapeOf(l), from, to + span))
             + FailedIn(calls, replies, key, l, from, to) as real
  {
    PassedIsGrantedOrFailed(l, map[], calls, KeyText(Grpc(who)), from, to);
    SharedStoreWindow(calls, KeyText(Grpc(who)), l, span, from, to);
  }

  // ---- The middlewares, updating the shared server and the limiter in place ----

  datatype Limiter = Limiter(shape: Shape, bucket: Bucket)

  /** A new fallback limiter starts full. */
  function Full(rps: int, burst: int, start: real): Limiter {
    var shape := FallbackShape(rps, burst);
    Limiter(shape, Bucket(shape.capacity, start))
  }

  /** The process-wide fallback limiter behind its once guard. */
  class Emergency {
    var limiter: Option<Limiter>

    constructor ()
      ensures limiter == None
    {
      limiter := None;
    }

    /** Only the first call takes effect; the limiter starts full. */
    method Init(rps: int, burst: int, start: real)
      modifies this
      ensures old(limiter).Some? ==> limiter == old(limiter)
      ensures old(limiter).None? ==>
                limiter == Some(Limiter(Shape((2 * burst) as real, Max(0.0, (2 * rps) as real)),
                                        Bucket((2 * burst) as real, start)))
    {
      if limiter.None? {
        var shape := FallbackShape(rps, burst);
        limiter := Some(Limiter(shape, Bucket((burst * 2) as real, start)));
      }
    }

    /** Refills by the time passed, up to the capacity, and takes a token if there is one. */
    method Allow(local: real) returns (ok: bool)
      requires limiter.Some?
      modifies this
      ensures var (b, took) := Take(old(limiter).value.shape, old(limiter).value.bucket, local);
              limiter == Some(old(limiter).value.(bucket := b)) && ok == took
    {
      var Limiter(shape, bucket) := limiter.value;
      var tokens := bucket.tokens + Inflow(shape, bucket.at, local);
      if tokens > shape.capacity {
        tokens := shape.capacity;
      }
      ok := tokens >= 1.0;
      if ok {
        tokens := tokens - 1.0;
      }
      limiter := Some(Limiter(shape, Bucket(tokens, local)));
    }
  }

  class Middleware {
    const rps: int
    const burst: int
    const period: real
    const emergency: Emergency

    constructor (emergency: Emergency, rps: int, burst: int, period: real, start: real)
      modifies emergency
      ensures this.rps == rps && this.burst == burst && this.period == period && this.emergency == emergency
      ensures emergency.limiter
           == if old(emergency.limiter).Some? then old(emergency.limiter) else Some(Full(rps, burst, start))
    {
      this.rps, this.burst, this.period, this.emergency := rps, burst, period, emergency;
      new;
      emergency.Init(rps, burst, start);
    }

    /** One HTTP request; a rate that is not positive turns the limiter off. */
    method Handle(server: Server, local: real, now: real, who: Identity, fault: Fault) returns (verdict: Verdict)
      requires emergency.limiter.Some?
      modifies emergency, server
      ensures rps <= 0 ==>
                && verdict == Served && emergency.limiter == old(emergency.limiter)
                && server.entries == old(server.entries)
      ensures rps > 0 ==>
                var was := old(emergency.limiter).value;
                var e := Event(local, Own(RawLimit(rps, period, burst), now, who, fault));
                var (s, reply) := Step(Expiring, old(server.entries), CallOf(e));
                var (b, outcome) := Decide(was.shape, was.bucket, e, reply);
                && CallOf(e).key == "rl:" + (if who.User? then "user:" + who.id else "ip:" + who.address)
                && server.entries == s && emergency.limiter == Some(was.(bucket := b)) && verdict == outcome.verdict
    {
      if rps <= 0 {
        return Served;
      }
      var key := "rl:" + IdentityText(who);
      var res := server.Serve(Call(now, key, Command.Gcra(RawLimit(rps, period, burst)), fault));
      if !res.Number? {
        var ok := emergency.Allow(local);
        return if ok then Served else Unavailable;
      }
      if res.n >= 0 {
        return TooMany(res.n);
      }
      return Served;
    }
  }

  /** One gRPC call. */
  method Intercept(server: Server, rate: int, burst: int, period: real,
                   principal: Option<string>, peer: Option<string>, now: real, fault: Fault)
    returns (verdict: Verdict)
    modifies server
    ensures rate <= 0 ==> verdict == Served && server.entries == old(server.entries)
    ensures KeyText(Grpc(GrpcIdentity(principal, peer)))
         == "rl:grpc:" + if principal.Some? then "user:" + principal.value
                         else "ip:" + if peer.Some? then peer.value else "unknown"
    ensures rate > 0 ==>
              var key := KeyText(Grpc(GrpcIdentity(principal, peer)));
              var call := Call(now, key, Command.Gcra(RawLimit(rate, period, burst)), fault);
              var (s, reply) := Step(Expiring, old(server.entries), call);
              var seen := Seen(call, reply);
              && server.entries == s
              && verdict == if seen.Number? && seen.n >= 0 then TooMany(seen.n) else Served
  {
    if rate <= 0 {
      return Served;
    }
    var identity := "ip:unknown";
    if principal.Some? {
      identity := "user:" + principal.value;
    } else if peer.Some? {
      identity := "ip:" + peer.value;
    }
    assert identity == IdentityText(GrpcIdentity(principal, peer));
    var key := "rl:grpc:" + identity;
    var res := server.Serve(Call(now, key, Command.Gcra(RawLimit(rate, period, burst)), fault));
    if res.Number? && res.n >= 0 {
      return TooMany(res.n);
    }
    return Served;
  }
}
