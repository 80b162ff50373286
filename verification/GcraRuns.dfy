/**
  The script over whole runs: what its expiry changes, how many requests a window admits,
  and what a client that waits for the returned retry time gets.
 */
module GcraRuns {
  import opened Prelude
  import opened Redis
  import opened TokenBucket
  import opened Gcra

  /** A stored arrival time is kept at least until the clock has reached it. */
  predicate KeptLongEnough(l: Limit) {
    l.Span() <= l.Ttl() as real
  }

  /** In the numbers of the configuration: the script keeps a time for twice the period, rounded up to seconds. */
  lemma {:induction false} KeptExactly(l: Limit)
    ensures KeptLongEnough(l)
       <==> l.burst as real * (l.period / l.rate as real) <= Ceil(l.period * 2.0) as real
  {
  }

  /** A burst of at most twice the rate is kept long enough, whatever the period. */
  lemma {:induction false} ModestBurstIsKept(l: Limit)
    requires l.burst <= 2 * l.rate
    ensures KeptLongEnough(l)
  {
    var t, r := l.Interval(), l.rate as real;
    assert r * t == l.period;
    ScaleMonotone(l.burst as real, 2.0 * r, t);
    assert 2.0 * r * t == 2.0 * (r * t);
  }

  lemma {:induction false} NoBurstIsKept(l: Limit)
    ensures l.burst <= 0 ==> KeptLongEnough(l)
  {
    if l.burst <= 0 {
      ModestBurstIsKept(l);
    }
  }

  // ---- Expiry is harmless exactly when the arrival time is kept long enough ----

  predicate TatCell(c: Cell) {
    c.Some? ==> c.value.value.Tat?
  }

  /** The stored time lies no later than the moment the key is dropped. */
  predicate Kept(c: Cell) {
    TatCell(c) && (c.Some? && c.value.deadline.At? ==> c.value.value.time <= c.value.deadline.time)
  }

  predicate SameTime(c: Cell, d: Cell) {
    && TatCell(c) && PermanentTat(d)
    && c.Some? == d.Some?
    && (c.Some? ==> c.value.value == d.value.value)
  }

  lemma {:induction false} StepAgrees(l: Limit, c: Cell, d: Cell, call: Call)
    requires KeptLongEnough(l) && call.command == Command.Gcra(l)
    requires SameTime(c, d) && Kept(c)
    ensures var (c', r) := CellStep(Expiring, c, call);
            var (d', q) := CellStep(Permanent, d, call);
            r == q && SameTime(c', d') && Kept(c')
  {
  }

  lemma {:induction false} ExpiryIsHarmless(l: Limit, c: Cell, d: Cell, calls: seq<Call>)
    requires KeptLongEnough(l) && Ordered(calls) && AllGcra(calls, l)
    requires SameTime(c, d) && Kept(c)
    ensures CellRun(Expiring, c, calls) == CellRun(Permanent, d, calls)
    ensures Kept(CellAfter(Expiring, c, calls))
    decreases |calls|
  {
    if calls == [] {
    } else {
      StepAgrees(l, c, d, calls[0]);
      ExpiryIsHarmless(l, CellStep(Expiring, c, calls[0]).0, CellStep(Permanent, d, calls[0]).0, calls[1..]);
    }
  }

  // ---- Volleys: simultaneous requests ----

  function Volley(l: Limit, key: string, now: real, n: nat): (calls: seq<Call>)
    ensures |calls| == n && AllGcra(calls, l) && Ordered(calls)
    ensures forall i :: 0 <= i < n ==> calls[i].now == now && calls[i].fault.NoFault? && calls[i].key == key
  {
    if n == 0 then
      []
    else
      [Call(now, key, Command.Gcra(l), NoFault)] + Volley(l, key, now, n - 1)
  }

  function Admits(n: nat): (replies: seq<Reply>)
    ensures |replies| == n && forall i :: 0 <= i < n ==> replies[i] == ADMIT
  {
    if n == 0 then [] else [ADMIT] + Admits(n - 1)
  }

  /** The cell acts at `now` as one whose stored time is `used` intervals ahead. */
  predicate Used(l: Limit, c: Cell, now: real, used: nat) {
    TatCell(c) &&
    (if Live(c, now) then Max(now, c.value.value.time) else now) == now + l.Cells(used)
  }

  lemma {:induction false} CellsGrow(l: Limit, n: int, m: int)
    ensures l.Cells(n + 1) == l.Cells(n) + l.Interval()
    ensures n <= m ==> l.Cells(n) <= l.Cells(m)
  {
    ScaleSum(n as real, 1.0, l.Interval());
    if n <= m {
      ScaleMonotone(n as real, m as real, l.Interval());
    }
  }

  lemma {:induction false} VolleyStep(ret: Retention, l: Limit, c: Cell, now: real, used: nat)
    requires Used(l, c, now, used)
    ensures used + 1 <= l.burst ==>
              var (next, reply) := GcraCell(ret, c, l, now);
              reply == ADMIT && Used(l, next, now, used + 1)
              && next.value.deadline == (if ret.Expiring? then At(now + l.Ttl() as real) else Never)
    ensures used == l.burst ==> GcraCell(ret, c, l, now) == (c, Number(Ceil(l.Interval())))
  {
    CellsGrow(l, used, used);
    CellsGrow(l, used + 1, l.burst);
    CellsGrow(l, 0, used);
    assert l.Cells(0) == 0.0;
  }

  /** As long as the burst lasts, simultaneous requests are all admitted. */
  lemma {:induction false} VolleyAdmitted(ret: Retention, l: Limit, key: string, c: Cell, now: real, used: nat, n: nat)
    requires Used(l, c, now, used) && used + n <= l.burst
    ensures CellRun(ret, c, Volley(l, key, now, n)) == Admits(n)
    ensures Used(l, CellAfter(ret, c, Volley(l, key, now, n)), now, used + n)
    ensures n > 0 ==> var after := CellAfter(ret, c, Volley(l, key, now, n));
              after.Some? && after.value.deadline == (if ret.Expiring? then At(now + l.Ttl() as real) else Never)
    decreases n
  {
    if n == 0 {
    } else {
      VolleyStep(ret, l, c, now, used);
      var next := GcraCell(ret, c, l, now).0;
      VolleyAdmitted(ret, l, key, next, now, used + 1, n - 1);
      assert Volley(l, key, now, n)[1..] == Volley(l, key, now, n - 1);
    }
  }

  /** The bound is reached: a fresh key admits `burst` simultaneous requests and denies the next. */
  lemma {:induction false} BurstIsTight(ret: Retention, l: Limit, key: string, now: real)
    requires l.burst >= 1
    ensures CellRun(ret, None, Volley(l, key, now, l.burst) + Volley(l, key, now, 1))
         == Admits(l.burst) + [Number(Ceil(l.Interval()))]
  {
    var first, second := Volley(l, key, now, l.burst), Volley(l, key, now, 1);
    assert Used(l, None, now, 0) by {
      assert l.Cells(0) == 0.0;
    }
    VolleyAdmitted(ret, l, key, None, now, 0, l.burst);
    CellRunAppend(ret, None, first, second);
    var c := CellAfter(ret, None, first);
    VolleyStep(ret, l, c, now, l.burst);
    assert CellRun(ret, c, second) == [CellStep(ret, c, second[0]).1];
  }

  // ---- Admissions in a window ----

  lemma {:induction false} PermanentWindow(l: Limit, calls: seq<Call>, from: real, to: real)
    requires l.burst >= 1 && Ordered(calls) && AllGcra(calls, l) && from <= to
    ensures AdmissionsIn(calls, CellRun(Permanent, None, calls), from, to) as real
         <= l.burst as real + Inflow(ShapeOf(l), from, to)
  {
    var full := Bucket(l.burst as real, if calls == [] then from else calls[0].now);
    FreshKeyIsFullBucket(l, calls, full.at);
    WindowBound(ShapeOf(l), full, Draws(calls), from, to);
  }

  lemma {:induction false} AllCounted(draws: seq<Draw>, taken: seq<bool>, from: real, to: real)
    requires |draws| == |taken|
    requires forall i :: 0 <= i < |draws| ==> taken[i] && from <= draws[i].at <= to
    ensures TakenIn(draws, taken, from, to) == |draws|
  {
    if draws == [] {
    } else {
      AllCounted(draws[1..], taken[1..], from, to);
    }
  }

  /** A full burst, a wait that outlives the key but not the debt, and another full burst. */
  function SecondBurst(l: Limit, key: string): (calls: seq<Call>)
    requires l.burst >= 1 && !KeptLongEnough(l)
    ensures |calls| == 2 * l.burst && Ordered(calls) && AllGcra(calls, l)
    ensures forall i :: 0 <= i < |calls| ==> 0.0 <= calls[i].now <= Forgotten(l)
  {
    Volley(l, key, 0.0, l.burst) + Volley(l, key, Forgotten(l), l.burst)
  }

  /** A moment after the key has expired and before the stored time. */
  function Forgotten(l: Limit): (t: real)
    ensures !KeptLongEnough(l) ==> l.Ttl() as real < t < l.Span()
  {
    (l.Ttl() as real + l.Span()) / 2.0
  }

  lemma {:induction false} SecondBurstAdmitted(l: Limit, key: string)
    requires l.burst >= 1 && !KeptLongEnough(l)
    ensures CellRun(Expiring, None, SecondBurst(l, key)) == Admits(l.burst) + Admits(l.burst)
  {
    var first, second := Volley(l, key, 0.0, l.burst), Volley(l, key, Forgotten(l), l.burst);
    assert l.Cells(0) == 0.0;
    VolleyAdmitted(Expiring, l, key, None, 0.0, 0, l.burst);
    CellRunAppend(Expiring, None, first, second);
    VolleyAdmitted(Expiring, l, key, CellAfter(Expiring, None, first), Forgotten(l), 0, l.burst);
  }

  /** The second burst exceeds what the window allows. */
  lemma {:induction false} SecondBurstIsTooMuch(l: Limit, key: string)
    requires l.burst >= 1 && !KeptLongEnough(l)
    ensures AdmissionsIn(SecondBurst(l, key), CellRun(Expiring, None, SecondBurst(l, key)), 0.0, Forgotten(l)) as real
          > l.burst as real + Inflow(ShapeOf(l), 0.0, Forgotten(l))
  {
    var calls := SecondBurst(l, key);
    SecondBurstAdmitted(l, key);
    AllCounted(Draws(calls), Admitted(CellRun(Expiring, None, calls)), 0.0, Forgotten(l));
    DebtOutlivesKey(l);
  }

  lemma {:induction false} DebtOutlivesKey(l: Limit)
    requires !KeptLongEnough(l)
    ensures Inflow(ShapeOf(l), 0.0, Forgotten(l)) < l.burst as real
  {
    var q := ShapeOf(l).perSecond;
    PerInterval(l, 0.0);
    ScaleStrict(Forgotten(l), l.Span(), q);
    ScaleBack(l.burst as real, l.Interval(), q);
  }

  /** The expiring store decides as one that never forgets, on every run, exactly when times are kept long enough. */
  lemma {:induction false} ExpiryHarmlessExactly(l: Limit)
    ensures (forall calls: seq<Call> :: Ordered(calls) && AllGcra(calls, l) ==>
               CellRun(Expiring, None, calls) == CellRun(Permanent, None, calls))
        <==> l.burst as real * (l.period / l.rate as real) <= Ceil(l.period * 2.0) as real
  {
    KeptExactly(l);
    if KeptLongEnough(l) {
      forall calls: seq<Call> | Ordered(calls) && AllGcra(calls, l)
        ensures CellRun(Expiring, None, calls) == CellRun(Permanent, None, calls)
      {
        ExpiryIsHarmless(l, None, None, calls);
      }
    } else {
      NoBurstIsKept(l);
      var calls := SecondBurst(l, "");
      SecondBurstIsTooMuch(l, "");
      PermanentWindow(l, calls, 0.0, Forgotten(l));
      assert CellRun(Expiring, None, calls) != CellRun(Permanent, None, calls);
    }
  }

  /** And exactly then is every window bounded by the burst plus the sustained rate. */
  lemma {:induction false} WindowBoundedExactly(l: Limit)
    requires l.burst >= 1
    ensures (forall calls: seq<Call>, from: real, to: real | Ordered(calls) && AllGcra(calls, l) && from <= to ::
               AdmissionsIn(calls, CellRun(Expiring, None, calls), from, to) as real
               <= l.burst as real + Inflow(ShapeOf(l), from, to))
        <==> l.burst as real * (l.period / l.rate as real) <= Ceil(l.period * 2.0) as real
  {
    KeptExactly(l);
    if KeptLongEnough(l) {
      forall calls: seq<Call>, from: real, to: real | Ordered(calls) && AllGcra(calls, l) && from <= to
        ensures AdmissionsIn(calls, CellRun(Expiring, None, calls), from, to) as real
             <= l.burst as real + Inflow(ShapeOf(l), from, to)
      {
        ExpiryIsHarmless(l, None, None, calls);
        PermanentWindow(l, calls, from, to);
      }
    } else {
      SecondBurstIsTooMuch(l, "");
    }
  }

  // ---- The same over the shared store, with other keys, failing calls and other limits on the same key ----

  /** A limit that admits anything at all keeps its times long enough and runs at most `span` ahead. */
  predicate KeptWithin(l: Rated, span: real) {
    l.period > 0.0 ==> KeptLongEnough(l) && l.Span() <= span
  }

  predicate AllKeptWithin(calls: seq<Call>, span: real) {
    forall i :: 0 <= i < |calls| ==> calls[i].command.Gcra? && KeptWithin(calls[i].command.limit, span)
  }

  /** The intervals of the admissions in the closed window `[from, to]`, each by its own limit. */
  function ChargeIn(calls: seq<Call>, replies: seq<Reply>, from: real, to: real): real
    requires |calls| == |replies|
  {
    if calls == [] then
      0.0
    else
      Charge(calls[0], replies[0], from, to) + ChargeIn(calls[1..], replies[1..], from, to)
  }

  function Charge(call: Call, reply: Reply, from: real, to: real): real {
    if call.command.Gcra? && reply == ADMIT && from <= call.now <= to then call.command.limit.Interval() else 0.0
  }

  /** The stored time, or `least` for a key without one. */
  function StoredOr(c: Cell, least: real): real
    requires TatCell(c)
  {
    if c.Some? then Max(least, c.value.value.time) else least
  }

  lemma {:induction false} ChargedStep(c: Cell, call: Call, span: real, from: real, to: real)
    requires Kept(c) && call.command.Gcra? && KeptWithin(call.command.limit, span)
    ensures var (next, reply) := CellStep(Expiring, c, call);
            var charge := Charge(call, reply, from, to);
            && Kept(next) && charge >= 0.0
            && StoredOr(c, from) + charge <= StoredOr(next, from)
            && (charge > 0.0 ==> StoredOr(c, from) + charge <= to + span)
  {
  }

  /** The stored time pays for every admission and never runs more than the longest span ahead of the window. */
  lemma {:induction false} ChargeFits(c: Cell, calls: seq<Call>, span: real, from: real, to: real)
    requires Kept(c) && AllKeptWithin(calls, span)
    ensures var charge := ChargeIn(calls, CellRun(Expiring, c, calls), from, to);
            charge >= 0.0 && (charge > 0.0 ==> StoredOr(c, from) + charge <= to + span)
    decreases |calls|
  {
    if calls == [] {
    } else {
      ChargedStep(c, calls[0], span, from, to);
      var next := CellStep(Expiring, c, calls[0]).0;
      ChargeFits(next, calls[1..], span, from, to);
      assert CellRun(Expiring, c, calls)[1..] == CellRun(Expiring, next, calls[1..]);
    }
  }

  /** Admissions on one key with one limit that its clients were told of, in the closed window `[from, to]`. */
  function GrantedIn(calls: seq<Call>, replies: seq<Reply>, key: string, l: Limit, from: real, to: real): nat
    requires |calls| == |replies|
  {
    if calls == [] then
      0
    else
      (if && calls[0].key == key && calls[0].command == Command.Gcra(l)
          && Seen(calls[0], replies[0]) == ADMIT && from <= calls[0].now <= to then 1 else 0)
      + GrantedIn(calls[1..], replies[1..], key, l, from, to)
  }

  /** Each grant is charged its interval. */
  lemma {:induction false} GrantedWereCharged(calls: seq<Call>, replies: seq<Reply>, key: string, l: Limit,
                                              from: real, to: real)
    requires |calls| == |replies|
    requires forall i :: 0 <= i < |calls| && calls[i].key == key && calls[i].command.Gcra? && replies[i] == ADMIT ==>
               calls[i].command.limit.Interval() >= 0.0
    ensures |RepliesFor(calls, replies, key)| == |Only(calls, key)|
    ensures l.Cells(GrantedIn(calls, replies, key, l, from, to))
         <= ChargeIn(Only(calls, key), RepliesFor(calls, replies, key), from, to)
  {
    if calls == [] {
      assert l.Cells(0) == 0.0;
    } else {
      GrantedWereCharged(calls[1..], replies[1..], key, l, from, to);
      CellsGrow(l, GrantedIn(calls[1..], replies[1..], key, l, from, to), 0);
      if calls[0].key == key {
        var own, got := Only(calls, key), RepliesFor(calls, replies, key);
        assert own[1..] == Only(calls[1..], key) && got[1..] == RepliesFor(calls[1..], replies[1..], key);
      }
    }
  }

  lemma {:induction false} OnlyKeepsCalls(calls: seq<Call>, key: string)
    ensures forall c :: c in Only(calls, key) ==> c in calls && c.key == key
  {
    if calls == [] {
    } else {
      OnlyKeepsCalls(calls[1..], key);
    }
  }

  /** A limit whose period is not positive admits nothing. */
  lemma {:induction false} AdmissionsHavePeriods(s: Store, calls: seq<Call>)
    ensures forall i :: 0 <= i < |calls| && calls[i].command.Gcra? && Run(Expiring, s, calls)[i] == ADMIT ==>
              calls[i].command.limit.period > 0.0
    decreases |calls|
  {
    if calls == [] {
    } else {
      AdmissionsHavePeriods(Step(Expiring, s, calls[0]).0, calls[1..]);
    }
  }

  /** What a window and a span hold of cells, in cells. */
  lemma {:induction false} CellsInSpan(l: Limit, n: nat, from: real, to: real)
    requires l.Cells(n) <= to - from
    ensures n as real <= Inflow(ShapeOf(l), from, to)
  {
    var q := ShapeOf(l).perSecond;
    PerInterval(l, 0.0);
    ScaleMonotone(l.Cells(n), to - from, q);
    ScaleBack(n as real, l.Interval(), q);
  }

  lemma {:induction false} SpanIsBurst(l: Limit, from: real, to: real)
    ensures Inflow(ShapeOf(l), from, to + l.Span()) == l.burst as real + Inflow(ShapeOf(l), from, to)
  {
    var q := ShapeOf(l).perSecond;
    PerInterval(l, 0.0);
    ScaleBack(l.burst as real, l.Interval(), q);
    ScaleSum(to - from, l.Span(), q);
  }

  /** All limits on a key together: the intervals of its admissions fit in the window and the longest span. */
  lemma {:induction false} SharedStoreTotal(calls: seq<Call>, key: string, span: real, from: real, to: real)
    requires from <= to && 0.0 <= span
    requires forall i :: 0 <= i < |calls| && calls[i].key == key ==>
               calls[i].command.Gcra? && KeptWithin(calls[i].command.limit, span)
    ensures var replies := RepliesFor(calls, Run(Expiring, map[], calls), key);
            |replies| == |Only(calls, key)| && ChargeIn(Only(calls, key), replies, from, to) <= to + span - from
  {
    KeyRunsAlone(Expiring, map[], calls, key);
    OnlyKeepsCalls(calls, key);
    ChargeFits(None, Only(calls, key), span, from, to);
  }

  /** In time: the intervals of one limit's grants fit in the window and the longest span. */
  lemma {:induction false} SharedStoreCharge(calls: seq<Call>, key: string, l: Limit, span: real, from: real, to: real)
    requires from <= to && 0.0 <= span
    requires forall i :: 0 <= i < |calls| && calls[i].key == key ==>
               calls[i].command.Gcra? && KeptWithin(calls[i].command.limit, span)
    ensures l.Cells(GrantedIn(calls, Run(Expiring, map[], calls), key, l, from, to)) <= to + span - from
  {
    SharedStoreTotal(calls, key, span, from, to);
    AdmissionsHavePeriods(map[], calls);
    GrantedWereCharged(calls, Run(Expiring, map[], calls), key, l, from, to);
  }

  /**
    In every run over any keys, with any mix of limits on one key, denials and calls that fail before
    or after taking effect: the admissions granted under one limit in a closed window fit in the
    window and the longest span, which for the limit's own span is the burst plus the sustained rate.
   */
  lemma {:induction false} SharedStoreWindow(calls: seq<Call>, key: string, l: Limit, span: real, from: real, to: real)
    requires from <= to && 0.0 <= span
    requires forall i :: 0 <= i < |calls| && calls[i].key == key ==>
               calls[i].command.Gcra? && KeptWithin(calls[i].command.limit, span)
    ensures GrantedIn(calls, Run(Expiring, map[], calls), key, l, from, to) as real
         <= Inflow(ShapeOf(l), from, to + span)
    ensures span == l.Span() ==>
              GrantedIn(calls, Run(Expiring, map[], calls), key, l, from, to) as real
              <= l.burst as real + Inflow(ShapeOf(l), from, to)
  {
    SharedStoreCharge(calls, key, l, span, from, to);
    CellsInSpan(l, GrantedIn(calls, Run(Expiring, map[], calls), key, l, from, to), from, to + span);
    SpanIsBurst(l, from, to);
  }

  // ---- Retry-After ----

  /** When a request denied at `now` would be let in, if nothing else is admitted. */
  function AllowAt(l: Limit, c: Cell, now: real): real
    requires TatCell(c)
  {
    (if Live(c, now) then Max(now, c.value.value.time) else now) + l.Interval() - l.Span()
  }

  /** After a denial, a later request is admitted exactly from `AllowAt` on, or once the key is gone. */
  lemma {:induction false} LaterAdmission(ret: Retention, l: Limit, c: Cell, now: real, later: real)
    requires TatCell(c) && l.burst >= 1 && now <= later
    requires GcraCell(ret, c, l, now).1 != ADMIT
    ensures GcraCell(ret, c, l, later).1 == ADMIT <==> AllowAt(l, c, now) <= later || !Live(c, later)
  {
    CellsGrow(l, 0, l.burst - 1);
    CellsGrow(l, l.burst - 1, l.burst);
    assert l.Cells(0) == 0.0;
  }

  lemma {:induction false} DenialsChangeNothing(ret: Retention, l: Limit, c: Cell, calls: seq<Call>)
    requires AllGcra(calls, l) && ADMIT !in CellRun(ret, c, calls)
    ensures CellAfter(ret, c, calls) == c
    decreases |calls|
  {
    if calls == [] {
    } else {
      var (next, reply) := CellStep(ret, c, calls[0]);
      assert CellRun(ret, c, calls)[0] == reply && CellRun(ret, c, calls)[1..] == CellRun(ret, next, calls[1..]);
      DenialsChangeNothing(ret, l, next, calls[1..]);
    }
  }

  lemma {:induction false} StaysTatCell(ret: Retention, l: Limit, c: Cell, calls: seq<Call>)
    requires AllGcra(calls, l) && TatCell(c)
    ensures TatCell(CellAfter(ret, c, calls))
    decreases |calls|
  {
    if calls == [] {
    } else {
      StaysTatCell(ret, l, CellStep(ret, c, calls[0]).0, calls[1..]);
    }
  }

  /**
    A request denied after any `past` is told to wait `r >= 1` seconds, the true wait rounded up.
    If nothing is admitted meanwhile, a request `r` seconds or more after it is let in; and when
    times are kept long enough, a later request is let in exactly from the true moment on.
   */
  lemma {:induction false} RetryAfterIsExact(l: Limit, past: seq<Call>, denied: Call, waiting: seq<Call>, later: real)
    requires l.burst >= 1 && AllGcra(past + [denied] + waiting, l) && Ordered(past + [denied] + waiting)
    requires denied.fault != LostRequest && denied.now <= later
    requires CellStep(Expiring, CellAfter(Expiring, None, past), denied).1 != ADMIT
    requires ADMIT !in CellRun(Expiring, CellAfter(Expiring, None, past), waiting)
    ensures var reply := CellStep(Expiring, CellAfter(Expiring, None, past), denied).1;
            var end := CellAfter(Expiring, None, past + [denied] + waiting);
            && TatCell(end)
            && reply.Number? && reply.n >= 1
            && (reply.n - 1) as real < AllowAt(l, end, denied.now) - denied.now <= reply.n as real
            && (denied.now + reply.n as real <= later ==> GcraCell(Expiring, end, l, later).1 == ADMIT)
            && (KeptLongEnough(l) ==>
                  (GcraCell(Expiring, end, l, later).1 == ADMIT <==> AllowAt(l, end, denied.now) <= later))
  {
    DenialLeavesCell(l, past, denied, waiting);
    RetryStep(l, CellAfter(Expiring, None, past), denied.now, later);
  }

  lemma {:induction false} DenialLeavesCell(l: Limit, past: seq<Call>, denied: Call, waiting: seq<Call>)
    requires AllGcra(past + [denied] + waiting, l) && Ordered(past + [denied] + waiting)
    requires CellStep(Expiring, CellAfter(Expiring, None, past), denied).1 != ADMIT
    requires ADMIT !in CellRun(Expiring, CellAfter(Expiring, None, past), waiting)
    ensures denied.command == Command.Gcra(l)
    ensures CellAfter(Expiring, None, past + [denied] + waiting) == CellAfter(Expiring, None, past)
    ensures TatCell(CellAfter(Expiring, None, past))
    ensures KeptLongEnough(l) ==> Kept(CellAfter(Expiring, None, past))
  {
    var c, all := CellAfter(Expiring, None, past), past + [denied] + waiting;
    assert forall i :: 0 <= i < |past| ==> past[i] == all[i];
    assert forall i :: 0 <= i < |waiting| ==> waiting[i] == all[|past| + 1 + i];
    assert all[|past|] == denied;
    StaysTatCell(Expiring, l, None, past);
    CellRunAppend(Expiring, None, past + [denied], waiting);
    CellRunAppend(Expiring, None, past, [denied]);
    assert CellAfter(Expiring, c, [denied]) == c;
    DenialsChangeNothing(Expiring, l, c, waiting);
    if KeptLongEnough(l) {
      ExpiryIsHarmless(l, None, None, past);
    }
  }

  lemma {:induction false} RetryStep(l: Limit, c: Cell, now: real, later: real)
    requires l.burst >= 1 && TatCell(c) && now <= later && GcraCell(Expiring, c, l, now).1 != ADMIT
    ensures var reply := GcraCell(Expiring, c, l, now).1;
            && reply.n >= 1
            && (reply.n - 1) as real < AllowAt(l, c, now) - now <= reply.n as real
            && (now + reply.n as real <= later ==> GcraCell(Expiring, c, l, later).1 == ADMIT)
            && (Kept(c) ==> (GcraCell(Expiring, c, l, later).1 == ADMIT <==> AllowAt(l, c, now) <= later))
  {
    LaterAdmission(Expiring, l, c, now, later);
    if Kept(c) {
      LastsUntilAllowed(l, c, now, later);
    }
  }

  /** A key whose time is kept long enough is still there when an earlier retry is refused. */
  lemma {:induction false} LastsUntilAllowed(l: Limit, c: Cell, now: real, later: real)
    requires Kept(c) && l.burst >= 1 && now <= later
    requires GcraCell(Expiring, c, l, now).1 != ADMIT
    ensures later < AllowAt(l, c, now) ==> Live(c, later)
  {
    CellsGrow(l, 1, l.burst);
    CellsGrow(l, 0, 0);
    assert l.Cells(0) == 0.0;
  }

  /** The retry promise is kept from every state exactly when the burst is positive. */
  lemma {:induction false} RetryPromiseExactly(l: Limit)
    ensures (forall c: Cell, now: real, later: real |
               TatCell(c) && GcraCell(Expiring, c, l, now).1 != ADMIT
               && now + GcraCell(Expiring, c, l, now).1.n as real <= later ::
               GcraCell(Expiring, c, l, later).1 == ADMIT)
        <==> l.burst >= 1
  {
    if l.burst >= 1 {
      forall c: Cell, now: real, later: real |
        TatCell(c) && GcraCell(Expiring, c, l, now).1 != ADMIT
        && now + GcraCell(Expiring, c, l, now).1.n as real <= later
        ensures GcraCell(Expiring, c, l, later).1 == ADMIT
      {
        LaterAdmission(Expiring, l, c, now, later);
      }
    } else {
      NoBurstNoService(Expiring, l, None, 0.0);
      var later := GcraCell(Expiring, None, l, 0.0).1.n as real;
      NoBurstNoService(Expiring, l, None, later);
      assert TatCell(None);
      assert GcraCell(Expiring, None, l, later).1 != ADMIT;
    }
  }
}
