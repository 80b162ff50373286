/**
  The rate-limited warning about dropped audit events: its spacing while drops are handled one at
  a time, and exactly when that is lost to a race.
 */
module AuditWarnings {
  import opened Prelude
  import opened Audit

  /** The shared fields a drop touches. */
  datatype Meter = Meter(drops: nat, lastLog: int)

  /** One undisturbed `handleDrop`; `Some` is a warning and the total it reports. */
  function Drop(m: Meter, now: int): (Meter, Option<nat>) {
    var drops := (m.drops + 1) % TWO64;
    if now - m.lastLog > MINUTE then (Meter(0, now), Some(drops)) else (Meter(drops, m.lastLog), None)
  }

  function DropRun(m: Meter, times: seq<int>): (out: seq<Option<nat>>)
    ensures |out| == |times|
    decreases |times|
  {
    if times == [] then
      []
    else
      var (next, warning) := Drop(m, times[0]);
      [warning] + DropRun(next, times[1..])
  }

  predicate Rising(times: seq<int>) {
    forall i, j :: 0 <= i < j < |times| ==> times[i] <= times[j]
  }

  // ---- Spacing ----

  lemma {:induction false} WarnsAfterLast(m: Meter, times: seq<int>, j: nat)
    requires Rising(times) && j < |times| && DropRun(m, times)[j].Some?
    ensures times[j] - m.lastLog > MINUTE
    decreases |times|
  {
    if j == 0 {
    } else {
      var (next, warning) := Drop(m, times[0]);
      assert DropRun(m, times)[j] == DropRun(next, times[1..])[j - 1];
      WarnsAfterLast(next, times[1..], j - 1);
    }
  }

  /** Two warnings are always more than a minute apart. */
  lemma {:induction false} WarningsAreApart(m: Meter, times: seq<int>, i: nat, j: nat)
    requires Rising(times) && i < j < |times| && DropRun(m, times)[i].Some? && DropRun(m, times)[j].Some?
    ensures times[j] - times[i] > 60_000_000_000
    decreases |times|
  {
    var next := Drop(m, times[0]).0;
    assert DropRun(m, times)[1..] == DropRun(next, times[1..]);
    if i == 0 {
      WarnsAfterLast(next, times[1..], j - 1);
    } else {
      WarningsAreApart(next, times[1..], i - 1, j - 1);
    }
  }

  function WarningsIn(times: seq<int>, out: seq<Option<nat>>, from: int, to: int): nat
    requires |times| == |out|
  {
    if times == [] then
      0
    else
      (if out[0].Some? && from <= times[0] <= to then 1 else 0) + WarningsIn(times[1..], out[1..], from, to)
  }

  lemma {:induction false} WarningsFit(m: Meter, times: seq<int>, from: int, to: int)
    requires Rising(times)
    ensures var n := WarningsIn(times, DropRun(m, times), from, to);
            n > 0 ==> (n - 1) * MINUTE <= to - from && n * MINUTE < to - m.lastLog
    decreases |times|
  {
    if times == [] {
    } else {
      var (next, warning) := Drop(m, times[0]);
      assert DropRun(m, times)[1..] == DropRun(next, times[1..]);
      WarningsFit(next, times[1..], from, to);
    }
  }

  /** A window of `minutes` holds at most one warning more than it has minutes. */
  lemma {:induction false} WarningsInWindow(m: Meter, times: seq<int>, from: int, minutes: nat)
    requires Rising(times)
    ensures WarningsIn(times, DropRun(m, times), from, from + minutes * MINUTE) <= 1 + minutes
  {
    WarningsFit(m, times, from, from + minutes * MINUTE);
  }

  // ---- What a warning reports ----

  /** How many drops before the `j`-th went unreported, starting from `pending` of them. */
  function Unreported(pending: nat, out: seq<Option<nat>>, j: nat): nat
    requires j <= |out|
  {
    if j == 0 then pending else if out[j - 1].Some? then 0 else 1 + Unreported(pending, out, j - 1)
  }

  lemma {:induction false} UnreportedShift(pending: nat, out: seq<Option<nat>>, j: nat)
    requires 0 < j <= |out|
    ensures Unreported(pending, out, j) == Unreported(if out[0].Some? then 0 else pending + 1, out[1..], j - 1)
    decreases j
  {
    if j == 1 {
    } else {
      UnreportedShift(pending, out, j - 1);
    }
  }

  lemma {:induction false} DropCounts(m: Meter, pending: nat, now: int)
    requires m.drops == pending % TWO64
    ensures var (next, warning) := Drop(m, now);
            && (warning.Some? ==> warning.value == (pending + 1) % TWO64)
            && next.drops == (if warning.Some? then 0 else pending + 1) % TWO64
  {
    AddWraps(pending);
  }

  /** A warning reports exactly the drops since the one before it, its own included (modulo the counter's width). */
  lemma {:induction false} WarningsAreExact(m: Meter, pending: nat, times: seq<int>, j: nat)
    requires m.drops == pending % TWO64 && j < |times| && DropRun(m, times)[j].Some?
    ensures DropRun(m, times)[j].value == (Unreported(pending, DropRun(m, times), j) + 1) % TWO64
    decreases |times|
  {
    DropCounts(m, pending, times[0]);
    if j == 0 {
    } else {
      var (next, warning) := Drop(m, times[0]);
      var out := DropRun(m, times);
      assert out[1..] == DropRun(next, times[1..]) && out[j] == out[1..][j - 1];
      UnreportedShift(pending, out, j);
      WarningsAreExact(next, if warning.Some? then 0 else pending + 1, times[1..], j - 1);
    }
  }

  // ---- Back to interleavings ----

  /** One call taking its steps without interruption does what `Drop` says. */
  lemma {:induction false} UninterruptedIsDrop(s: State, c: nat)
    requires Is(s, c, Dropping)
    ensures var (m, warning) := Drop(Meter(s.drops, s.lastLog), s.clock);
            var steps := [Add(c), ReadClock(c), Load(c)] + (if warning.Some? then [Store(c), Swap(c)] else []);
            && Possible(s, steps)
            && Is(After(s, steps), c, ReturnedErr)
            && Meter(After(s, steps).drops, After(s, steps).lastLog) == m
            && After(s, steps).warnings
                 == s.warnings + (if warning.Some? then [Warning(s.clock, warning.value)] else [])
  {
    var warning := Drop(Meter(s.drops, s.lastLog), s.clock).1;
    var counted := Apply(s, Add(c));
    UninterruptedTest(counted, c);
    var test := if warning.Some? then [ReadClock(c), Load(c), Store(c), Swap(c)] else [ReadClock(c), Load(c)];
    Chain(s, Add(c), test);
    assert [Add(c), ReadClock(c), Load(c)] + (if warning.Some? then [Store(c), Swap(c)] else []) == [Add(c)] + test;
  }

  lemma {:induction false} UninterruptedTest(s: State, c: nat)
    requires Is(s, c, Counted)
    ensures var warns := s.clock - s.lastLog > MINUTE;
            var steps := if warns then [ReadClock(c), Load(c), Store(c), Swap(c)] else [ReadClock(c), Load(c)];
            && Possible(s, steps)
            && var end := After(s, steps);
            && Is(end, c, ReturnedErr)
            && Meter(end.drops, end.lastLog) == (if warns then Meter(0, s.clock) else Meter(s.drops, s.lastLog))
            && end.warnings == s.warnings + (if warns then [Warning(s.clock, s.drops)] else [])
  {
    var loaded := Apply(Apply(s, ReadClock(c)), Load(c));
    if s.clock - s.lastLog > MINUTE {
      Both(loaded, Store(c), Swap(c), []);
      Both(s, ReadClock(c), Load(c), [Store(c), Swap(c)] + []);
      assert [ReadClock(c), Load(c)] + ([Store(c), Swap(c)] + []) == [ReadClock(c), Load(c), Store(c), Swap(c)];
    } else {
      Both(s, ReadClock(c), Load(c), []);
      assert [ReadClock(c), Load(c)] + [] == [ReadClock(c), Load(c)];
    }
  }

  // ---- Races ----

  /** The steps of calls that handle a drop, and no other. */
  predicate OnlyDropSteps(run: seq<Action>) {
    forall i :: 0 <= i < |run| ==> run[i].Add? || run[i].ReadClock? || run[i].Load? || run[i].Store? || run[i].Swap?
  }

  /**
    Two racing drops can both pass the one-minute test: both warn at the same moment, and the
    second reports nothing although it follows a drop of its own.
   */
  lemma {:induction false} RacingDropsWarnTwice(s: State, c: nat, d: nat) returns (run: seq<Action>)
    requires c != d && Is(s, c, Dropping) && Is(s, d, Dropping) && s.clock - s.lastLog > MINUTE
    ensures OnlyDropSteps(run) && Possible(s, run)
    ensures After(s, run).warnings == s.warnings + [Warning(s.clock, (s.drops + 2) % TWO64), Warning(s.clock, 0)]
  {
    var test := BothPassTheTest(s, c, d);
    var warn := BothWarn(After(s, test), c, d, s.clock);
    RunAppend(s, test, warn);
    AddWraps(s.drops + 1);
    run := test + warn;
  }

  lemma {:induction false} BothPassTheTest(s: State, c: nat, d: nat) returns (run: seq<Action>)
    requires c != d && Is(s, c, Dropping) && Is(s, d, Dropping) && s.clock - s.lastLog > MINUTE
    ensures OnlyDropSteps(run) && Possible(s, run)
    ensures After(s, run).warnings == s.warnings && After(s, run).drops == ((s.drops + 1) % TWO64 + 1) % TWO64
    ensures Is(After(s, run), c, Storing(s.clock)) && Is(After(s, run), d, Storing(s.clock))
  {
    var counted := Apply(Apply(s, Add(c)), Add(d));
    var test := BothReadAndLoad(counted, c, d);
    Both(s, Add(c), Add(d), test);
    run := [Add(c), Add(d)] + test;
  }

  lemma {:induction false} BothReadAndLoad(s: State, c: nat, d: nat) returns (run: seq<Action>)
    requires c != d && Is(s, c, Counted) && Is(s, d, Counted) && s.clock - s.lastLog > MINUTE
    ensures OnlyDropSteps(run) && Possible(s, run)
    ensures After(s, run).warnings == s.warnings && After(s, run).drops == s.drops
    ensures Is(After(s, run), c, Storing(s.clock)) && Is(After(s, run), d, Storing(s.clock))
  {
    var timed := Apply(Apply(s, ReadClock(c)), ReadClock(d));
    Both(timed, Load(c), Load(d), []);
    Both(s, ReadClock(c), ReadClock(d), [Load(c), Load(d)] + []);
    run := [ReadClock(c), ReadClock(d)] + ([Load(c), Load(d)] + []);
  }

  lemma {:induction false} BothWarn(s: State, c: nat, d: nat, now: int) returns (run: seq<Action>)
    requires c != d && Is(s, c, Storing(now)) && Is(s, d, Storing(now))
    ensures OnlyDropSteps(run) && Possible(s, run)
    ensures After(s, run).warnings == s.warnings + [Warning(now, s.drops), Warning(now, 0)]
  {
    var first := Apply(Apply(s, Store(c)), Swap(c));
    var second := Apply(Apply(first, Store(d)), Swap(d));
    Both(first, Store(d), Swap(d), []);
    Both(s, Store(c), Swap(c), [Store(d), Swap(d)] + []);
    run := [Store(c), Swap(c)] + ([Store(d), Swap(d)] + []);
    assert After(s, run) == second;
  }

  /** Calls that return nil until the channel is full. */
  lemma {:induction false} FillUp(s: State) returns (run: seq<Action>)
    requires !s.closed && |s.buffer| <= s.capacity && forall c :: c in s.pcs ==> c < |s.buffer|
    ensures Possible(s, run)
    ensures var end := After(s, run);
            && |end.buffer| == s.capacity && !end.closed && (forall c :: c in end.pcs ==> c < s.capacity)
            && end.capacity == s.capacity && end.clock == s.clock && end.lastLog == s.lastLog
            && end.drops == s.drops && end.warnings == s.warnings
    decreases s.capacity - |s.buffer|
  {
    if |s.buffer| == s.capacity {
      run := [];
    } else {
      var c := |s.buffer|;
      var next := Apply(Apply(s, Begin(c)), Send(c));
      var rest := FillUp(next);
      Both(s, Begin(c), Send(c), rest);
      run := [Begin(c), Send(c)] + rest;
    }
  }

  /** With the channel full, two more calls whose contexts end are dropped under either strategy. */
  lemma {:induction false} TwoGiveUp(s: State, c: nat, d: nat) returns (run: seq<Action>)
    requires c != d && c !in s.pcs && d !in s.pcs && !s.closed && |s.buffer| >= s.capacity
    ensures Possible(s, run)
    ensures var end := After(s, run);
            && Is(end, c, Dropping) && Is(end, d, Dropping) && end.clock == s.clock && end.lastLog == s.lastLog
            && end.drops == s.drops && end.warnings == s.warnings
  {
    var begun := Apply(Apply(s, Begin(c)), Begin(d));
    var cancelled := Apply(Apply(begun, Cancel(c)), Cancel(d));
    Both(cancelled, GiveUp(c), GiveUp(d), []);
    Both(begun, Cancel(c), Cancel(d), [GiveUp(c), GiveUp(d)] + []);
    Both(s, Begin(c), Begin(d), [Cancel(c), Cancel(d)] + ([GiveUp(c), GiveUp(d)] + []));
    run := [Begin(c), Begin(d)] + ([Cancel(c), Cancel(d)] + ([GiveUp(c), GiveUp(d)] + []));
  }

  lemma {:induction false} TwoDropLate(bufferSize: int, blocking: bool, clock: int)
      returns (run: seq<Action>, t: int, c: nat, d: nat)
    ensures Possible(Start(bufferSize, blocking, clock), run)
    ensures var s := After(Start(bufferSize, blocking, clock), run);
            && c != d && Is(s, c, Dropping) && Is(s, d, Dropping) && s.clock == t && t - s.lastLog > MINUTE
            && s.drops == 0 && s.warnings == []
  {
    var start := Start(bufferSize, blocking, clock);
    t := if clock > MINUTE then clock else MINUTE + 1;
    var late := Apply(start, Tick(t));
    c, d := start.capacity, start.capacity + 1;
    var fill := FillUp(late);
    var giveUp := TwoGiveUp(After(late, fill), c, d);
    RunAppend(late, fill, giveUp);
    Chain(start, Tick(t), fill + giveUp);
    run := [Tick(t)] + (fill + giveUp);
  }

  /** Every logger, under either strategy, has a run in which the second of two warnings reports nothing. */
  lemma {:induction false} RaceIsReachable(bufferSize: int, blocking: bool, clock: int)
    ensures exists run: seq<Action>, t: int :: Possible(Start(bufferSize, blocking, clock), run) &&
              After(Start(bufferSize, blocking, clock), run).warnings == [Warning(t, 2), Warning(t, 0)]
  {
    var start := Start(bufferSize, blocking, clock);
    var drop, t, c, d := TwoDropLate(bufferSize, blocking, clock);
    var race := RacingDropsWarnTwice(After(start, drop), c, d);
    RunAppend(start, drop, race);
    assert Possible(start, drop + race);
  }

  /** No call is between its increment and its return. */
  predicate NoneHandling(s: State) {
    forall c :: c in s.pcs ==> !PastAdd(s.pcs[c]) || s.pcs[c].ReturnedErr?
  }

  ghost predicate OneDropping(s: State) {
    forall c, d :: Is(s, c, Dropping) && Is(s, d, Dropping) ==> c == d
  }

  /** All interleavings of the calls about to handle a drop, while the clock stands, add at most one warning. */
  ghost predicate WarnsAtMostOnce(s: State) {
    forall run: seq<Action> :: OnlyDropSteps(run) && Possible(s, run) ==>
      |After(s, run).warnings| <= |s.warnings| + 1
  }

  predicate Active(pc: Pc) {
    pc.Dropping? || pc.Counted? || pc.Timed? || pc.Storing? || pc.Swapping?
  }

  /** One call is active, and none once it has warned. */
  ghost predicate OneActive(s: State, warned: nat) {
    && (forall c, d :: c in s.pcs && d in s.pcs && Active(s.pcs[c]) && Active(s.pcs[d]) ==> c == d)
    && |s.warnings| <= warned + 1
    && (|s.warnings| > warned ==> forall c :: c in s.pcs ==> !Active(s.pcs[c]))
  }

  lemma {:induction false} OneActiveStep(s: State, warned: nat, a: Action)
    requires OneActive(s, warned) && OnlyDropSteps([a]) && Enabled(s, a)
    ensures OneActive(Apply(s, a), warned)
  {
    assert [a][0] == a;
    assert Active(s.pcs[a.c]);
    assert forall d :: d in Apply(s, a).pcs && d != a.c ==> !Active(Apply(s, a).pcs[d]);
  }

  lemma {:induction false} OneActiveRun(s: State, warned: nat, run: seq<Action>)
    requires OneActive(s, warned) && OnlyDropSteps(run) && Possible(s, run)
    ensures |After(s, run).warnings| <= warned + 1
    decreases |run|
  {
    if run == [] {
    } else {
      OneActiveStep(s, warned, run[0]);
      OneActiveRun(Apply(s, run[0]), warned, run[1..]);
    }
  }

  /** The last warning is too recent for any of the calls to pass the test. */
  ghost predicate TooRecent(s: State) {
    && s.clock - s.lastLog <= MINUTE
    && (forall c :: c in s.pcs && s.pcs[c].Timed? ==> s.pcs[c].now == s.clock)
    && (forall c :: c in s.pcs ==> !PassedTest(s.pcs[c]))
  }

  lemma {:induction false} TooRecentRun(s: State, run: seq<Action>)
    requires TooRecent(s) && OnlyDropSteps(run) && Possible(s, run)
    ensures After(s, run).warnings == s.warnings
    decreases |run|
  {
    if run == [] {
    } else {
      TooRecentRun(Apply(s, run[0]), run[1..]);
    }
  }

  /** A burst of drops warns at most once exactly when one call drops or the last warning is recent. */
  lemma {:induction false} OneWarningExactly(s: State)
    requires NoneHandling(s)
    ensures WarnsAtMostOnce(s) <==> OneDropping(s) || s.clock - s.lastLog <= 60_000_000_000
  {
    if OneDropping(s) || s.clock - s.lastLog <= MINUTE {
      forall run: seq<Action> | OnlyDropSteps(run) && Possible(s, run)
        ensures |After(s, run).warnings| <= |s.warnings| + 1
      {
        if OneDropping(s) {
          forall c, d | c in s.pcs && d in s.pcs && Active(s.pcs[c]) && Active(s.pcs[d]) ensures c == d {
            assert Is(s, c, Dropping) && Is(s, d, Dropping);
          }
          OneActiveRun(s, |s.warnings|, run);
        } else {
          TooRecentRun(s, run);
        }
      }
    } else {
      var c, d :| Is(s, c, Dropping) && Is(s, d, Dropping) && c != d;
      var run := RacingDropsWarnTwice(s, c, d);
      assert |After(s, run).warnings| == |s.warnings| + 2;
    }
  }

  // ---- Spacing in interleavings ----

  /** Between passing the test and swapping the counter. */
  predicate PassedTest(pc: Pc) {
    pc.Storing? || pc.Swapping?
  }

  predicate OneWarner(s: State) {
    forall c, d :: c in s.pcs && d in s.pcs && PassedTest(s.pcs[c]) && PassedTest(s.pcs[d]) ==> c == d
  }

  predicate AlwaysOneWarner(s: State, run: seq<Action>)
    requires Possible(s, run)
    decreases |run|
  {
    OneWarner(s) && (run != [] ==> AlwaysOneWarner(Apply(s, run[0]), run[1..]))
  }

  predicate Spaced(warnings: seq<Warning>) {
    forall i, j :: 0 <= i < j < |warnings| ==> warnings[j].at - warnings[i].at > MINUTE
  }

  ghost predicate SpacedInv(s: State) {
    && Spaced(s.warnings)
    && (forall i :: 0 <= i < |s.warnings| ==> s.warnings[i].at <= s.lastLog)
    && (forall c :: c in s.pcs && s.pcs[c].Storing? ==> s.pcs[c].now - s.lastLog > MINUTE)
    && (forall c :: c in s.pcs && s.pcs[c].Swapping? ==>
          s.pcs[c].now == s.lastLog && forall i :: 0 <= i < |s.warnings| ==> s.lastLog - s.warnings[i].at > MINUTE)
  }

  lemma {:induction false} SpacedStep(s: State, a: Action)
    requires SpacedInv(s) && Enabled(s, a) && OneWarner(s)
    ensures SpacedInv(Apply(s, a))
  {
    if a.Store? {
      StoreSpaced(s, a.c);
    } else if a.Swap? {
      SwapSpaced(s, a.c);
    } else {
      LittleMoves(s, a);
      SpacedFrame(s, Apply(s, a));
    }
  }

  /** No warning or time changes, and a call newly past the test has passed it. */
  ghost predicate LittleMoved(s: State, next: State) {
    && next.warnings == s.warnings && next.lastLog == s.lastLog
    && forall c :: c in next.pcs && PassedTest(next.pcs[c]) ==>
         || (c in s.pcs && next.pcs[c] == s.pcs[c])
         || (next.pcs[c].Storing? && next.pcs[c].now - s.lastLog > MINUTE)
  }

  lemma {:induction false} LittleMoves(s: State, a: Action)
    requires Enabled(s, a) && !a.Store? && !a.Swap?
    ensures LittleMoved(s, Apply(s, a))
  {
  }

  lemma {:induction false} SpacedFrame(s: State, next: State)
    requires SpacedInv(s) && LittleMoved(s, next)
    ensures SpacedInv(next)
  {
  }

  lemma {:induction false} StoreSpaced(s: State, c: nat)
    requires SpacedInv(s) && Enabled(s, Store(c)) && OneWarner(s)
    ensures SpacedInv(Apply(s, Store(c)))
  {
    forall d | d in s.pcs && PassedTest(s.pcs[d]) ensures d == c {
    }
  }

  lemma {:induction false} SwapSpaced(s: State, c: nat)
    requires SpacedInv(s) && Enabled(s, Swap(c)) && OneWarner(s)
    ensures SpacedInv(Apply(s, Swap(c)))
  {
    forall d | d in s.pcs && PassedTest(s.pcs[d]) ensures d == c {
    }
  }

  lemma {:induction false} SpacedRun(s: State, run: seq<Action>)
    requires SpacedInv(s) && Possible(s, run) && AlwaysOneWarner(s, run)
    ensures SpacedInv(After(s, run))
    decreases |run|
  {
    if run == [] {
    } else {
      SpacedStep(s, run[0]);
      SpacedRun(Apply(s, run[0]), run[1..]);
    }
  }

  /**
    In every interleaving where no two calls are between test and swap at once, warnings are more than a
    minute apart.
   */
  lemma {:induction false} UnracedWarningsAreApart(bufferSize: int, blocking: bool, clock: int, run: seq<Action>)
    requires Possible(Start(bufferSize, blocking, clock), run)
    requires AlwaysOneWarner(Start(bufferSize, blocking, clock), run)
    ensures Spaced(After(Start(bufferSize, blocking, clock), run).warnings)
  {
    SpacedRun(Start(bufferSize, blocking, clock), run);
  }

  /** The time of the last warning is the epoch, or the time some call read whose warning is out or about to be. */
  ghost predicate LastLogInv(s: State) {
    || s.lastLog == 0
    || (exists i :: 0 <= i < |s.warnings| && s.warnings[i].at == s.lastLog)
    || (exists c :: Is(s, c, Swapping(s.lastLog)))
  }

  lemma {:induction false} LastLogStep(s: State, a: Action)
    requires LastLogInv(s) && Enabled(s, a)
    ensures LastLogInv(Apply(s, a))
  {
    var next := Apply(s, a);
    if a.Store? {
      assert Is(next, a.c, Swapping(next.lastLog));
    } else if s.lastLog == 0 {
      assert next.lastLog == 0;
    } else if i :| 0 <= i < |s.warnings| && s.warnings[i].at == s.lastLog {
      assert next.warnings[i].at == next.lastLog;
    } else if c :| Is(s, c, Swapping(s.lastLog)) {
      SwapperStays(s, a, c);
    }
  }

  lemma {:induction false} SwapperStays(s: State, a: Action, c: nat)
    requires Is(s, c, Swapping(s.lastLog)) && Enabled(s, a) && !a.Store?
    ensures LastLogInv(Apply(s, a))
  {
    var next := Apply(s, a);
    if a == Swap(c) {
      assert next.warnings[|s.warnings|].at == next.lastLog;
    } else {
      assert next.lastLog == s.lastLog && Is(next, c, Swapping(next.lastLog));
    }
  }

  lemma {:induction false} LastLogRun(s: State, run: seq<Action>)
    requires LastLogInv(s) && Possible(s, run)
    ensures LastLogInv(After(s, run))
    decreases |run|
  {
    if run == [] {
    } else {
      LastLogStep(s, run[0]);
      LastLogRun(Apply(s, run[0]), run[1..]);
    }
  }

  /** In every interleaving the one-minute test is against the epoch or the time of a warning, races or not. */
  lemma {:induction false} LastLogIsAWarning(bufferSize: int, blocking: bool, clock: int, run: seq<Action>)
    requires Possible(Start(bufferSize, blocking, clock), run)
    ensures var s := After(Start(bufferSize, blocking, clock), run);
            || s.lastLog == 0
            || (exists i :: 0 <= i < |s.warnings| && s.warnings[i].at == s.lastLog)
            || (exists c :: Is(s, c, Swapping(s.lastLog)))
  {
    LastLogRun(Start(bufferSize, blocking, clock), run);
  }

  /** Warnings of the closed window `[from, to]`. */
  function CountIn(warnings: seq<Warning>, from: int, to: int): nat {
    if warnings == [] then
      0
    else
      (if from <= warnings[0].at <= to then 1 else 0) + CountIn(warnings[1..], from, to)
  }

  /** Spaced warnings after `last` fit between there and the end of the window. */
  lemma {:induction false} SpacedFit(warnings: seq<Warning>, last: int, from: int, to: int)
    requires Spaced(warnings) && forall i :: 0 <= i < |warnings| ==> warnings[i].at - last > MINUTE
    ensures var n := CountIn(warnings, from, to);
            n > 0 ==> (n - 1) * MINUTE <= to - from && n * MINUTE < to - last
    decreases |warnings|
  {
    if warnings == [] {
    } else {
      forall i | 0 <= i < |warnings| - 1 ensures warnings[1..][i].at - warnings[0].at > MINUTE {
        assert warnings[1..][i] == warnings[i + 1];
      }
      SpacedFit(warnings[1..], warnings[0].at, from, to);
    }
  }

  /** In such interleavings, too, a window of `minutes` holds at most one warning more than it has minutes. */
  lemma {:induction false} UnracedWarningsInWindow(
      bufferSize: int, blocking: bool, clock: int, run: seq<Action>, from: int, minutes: nat)
    requires Possible(Start(bufferSize, blocking, clock), run)
    requires AlwaysOneWarner(Start(bufferSize, blocking, clock), run)
    ensures var warnings := After(Start(bufferSize, blocking, clock), run).warnings;
            CountIn(warnings, from, from + minutes * MINUTE) <= 1 + minutes
  {
    UnracedWarningsAreApart(bufferSize, blocking, clock, run);
    var warnings := After(Start(bufferSize, blocking, clock), run).warnings;
    if warnings != [] {
      SpacedFit(warnings, warnings[0].at - MINUTE - 1, from, from + minutes * MINUTE);
    }
  }

  // ---- The logger, updated in place by one caller at a time ----

  /** A `Log` call returned nil, returned an error, or waits for room. */
  datatype LogResult = Accepted | Refused | Waits

  class AsyncLogger {
    const capacity: nat
    const blockOnFull: bool
    var events: seq<nat>
    var dropCount: nat
    var lastLogTime: int
    var warnings: seq<Warning>
    var encoded: seq<nat>

    ghost function Readings(): Meter
      reads this
    {
      Meter(dropCount, lastLogTime)
    }

    constructor (bufferSize: int, blockOnFull: bool)
      ensures capacity == (if bufferSize <= 0 then 1024 else bufferSize) && this.blockOnFull == blockOnFull
      ensures events == [] && Readings() == Meter(0, 0) && warnings == [] && encoded == []
    {
      capacity := if bufferSize <= 0 then 1024 else bufferSize;
      this.blockOnFull := blockOnFull;
      events, dropCount, lastLogTime, warnings, encoded := [], 0, 0, [], [];
    }

    method HandleDrop(now: int)
      modifies this`dropCount, this`lastLogTime, this`warnings
      ensures Readings() == Drop(old(Readings()), now).0
      ensures var warning := Drop(old(Readings()), now).1;
              warnings == old(warnings) + (if warning.Some? then [Warning(now, warning.value)] else [])
    {
      dropCount := (dropCount + 1) % TWO64;
      var lastLog := lastLogTime;
      if now - lastLog > MINUTE {
        lastLogTime := now;
        var totalDropped := dropCount;
        dropCount := 0;
        warnings := warnings + [Warning(now, totalDropped)];
      }
    }

    /**
      `done` is a finished context; with room left as well, the blocking select may go either way,
      as `pick` says.  A call that waits has changed nothing.
     */
    method Log(event: nat, done: bool, pick: bool, now: int) returns (r: LogResult)
      modifies this
      ensures r == Waits <==> blockOnFull && !done && |old(events)| >= capacity
      ensures r == Accepted <==> |old(events)| < capacity && (!blockOnFull || !done || pick)
      ensures events == old(events) + (if r == Accepted then [event] else []) && encoded == old(encoded)
      ensures Readings() == if r == Refused then Drop(old(Readings()), now).0 else old(Readings())
      ensures var warning := Drop(old(Readings()), now).1;
              warnings == old(warnings)
                          + (if r == Refused && warning.Some? then [Warning(now, warning.value)] else [])
      ensures |old(events)| <= capacity ==> |events| <= capacity
    {
      if blockOnFull {
        if |events| < capacity && (!done || pick) {
          events := events + [event];
          return Accepted;
        }
        if !done {
          return Waits;
        }
        HandleDrop(now);
        return Refused;
      }
      if |events| < capacity {
        events := events + [event];
        return Accepted;
      }
      HandleDrop(now);
      return Refused;
    }

    /** The worker after the channel was closed: it tries every event left, in order. */
    method Drain()
      modifies this`events, this`encoded
      ensures events == [] && encoded == old(encoded) + old(events)
    {
      while events != []
        invariant encoded + events == old(encoded) + old(events)
        decreases |events|
      {
        var event := events[0];
        assert events == [event] + events[1..];
        events := events[1..];
        encoded := encoded + [event];
      }
    }
  }
}
