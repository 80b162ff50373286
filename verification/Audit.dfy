/**
  The asynchronous audit logger: any number of concurrent `Log` calls, one worker, any number of
  `Close` calls, a bounded channel, and a drop counter touched by separate atomic operations.

  Each call of `Log` carries a number of its own, which also stands for its event in the channel.
  The context of a call is done from the moment it is cancelled or its deadline passes, which may
  be before the call begins.  An action is one atomic step of one goroutine, or the end of one
  context, so a run is an arbitrary interleaving.  `Close` may come at any time: a call that then
  sends on the closed channel panics, which ends that call and, it may be, the run.
 */
module Audit {
  import opened Prelude

  const MINUTE := 60_000_000_000

  /** Where a `Log` call stands; from `Counted` on it has incremented the drop counter. */
  datatype Pc =
    | Sending
    | Dropping
    | Counted
    | Timed(now: int)
    | Storing(now: int)
    | Swapping(now: int)
    | ReturnedNil
    | ReturnedErr
    | Panicked

  datatype Worker = Waiting | Holding(call: nat) | Exited

  datatype Closer = Entered | Joining | Closed

  datatype Warning = Warning(at: int, total: nat)

  datatype State = State(
    capacity: nat,
    blocking: bool,
    pcs: map<nat, Pc>,
    done: set<nat>,
    buffer: seq<nat>,
    worker: Worker,
    closed: bool,
    closers: map<nat, Closer>,
    drops: nat,
    lastLog: int,
    clock: int,
    accepted: seq<nat>,
    tried: seq<nat>,
    increments: nat,
    warnings: seq<Warning>)

  datatype Action =
    | Begin(c: nat)
    | Cancel(c: nat)
    | Send(c: nat)
    | GiveUp(c: nat)
    | Add(c: nat)
    | ReadClock(c: nat)
    | Load(c: nat)
    | Store(c: nat)
    | Swap(c: nat)
    | Tick(to: int)
    | Receive
    | Encode
    | Exit
    | EnterClose(k: nat)
    | CloseOnce(k: nat)
    | CloseReturn(k: nat)

  function Start(bufferSize: int, blocking: bool, clock: int): State {
    var capacity := if bufferSize <= 0 then 1024 else bufferSize;
    State(capacity, blocking, map[], {}, [], Waiting, false, map[], 0, 0, clock, [], [], 0, [])
  }

  predicate Is(s: State, c: nat, pc: Pc) {
    c in s.pcs && s.pcs[c] == pc
  }

  predicate Ended(pc: Pc) {
    pc.ReturnedNil? || pc.ReturnedErr? || pc.Panicked?
  }

  predicate PastAdd(pc: Pc) {
    pc.Counted? || pc.Timed? || pc.Storing? || pc.Swapping? || pc.ReturnedErr?
  }

  predicate Quiescent(s: State) {
    forall c :: c in s.pcs ==> Ended(s.pcs[c])
  }

  /**
    When a step can be taken.  The blocking strategy gives up when its context is done, even with
    room in the channel; the other when the channel is full.  On a closed channel a send is always
    ready, and panics.
   */
  predicate Enabled(s: State, a: Action) {
    match a
    case Begin(c) => c !in s.pcs
    case Send(c) => Is(s, c, Sending) && (s.closed || |s.buffer| < s.capacity)
    case Cancel(c) => true
    case GiveUp(c) =>
      Is(s, c, Sending) && if s.blocking then c in s.done else !s.closed && |s.buffer| >= s.capacity
    case Add(c) => Is(s, c, Dropping)
    case ReadClock(c) => Is(s, c, Counted)
    case Load(c) => c in s.pcs && s.pcs[c].Timed?
    case Store(c) => c in s.pcs && s.pcs[c].Storing?
    case Swap(c) => c in s.pcs && s.pcs[c].Swapping?
    case Tick(to) => s.clock <= to
    case Receive => s.worker.Waiting? && s.buffer != []
    case Encode => s.worker.Holding?
    case Exit => s.worker.Waiting? && s.closed && s.buffer == []
    case EnterClose(k) => k !in s.closers
    case CloseOnce(k) => k in s.closers && s.closers[k].Entered?
    case CloseReturn(k) => k in s.closers && s.closers[k].Joining? && s.worker.Exited?
  }

  function Goto(s: State, c: nat, pc: Pc): State {
    s.(pcs := s.pcs[c := pc])
  }

  function Apply(s: State, a: Action): State
    requires Enabled(s, a)
  {
    match a
    case Begin(c) => Goto(s, c, Sending)
    case Send(c) =>
      if s.closed then Goto(s, c, Panicked)
      else Goto(s, c, ReturnedNil).(buffer := s.buffer + [c], accepted := s.accepted + [c])
    case Cancel(c) => s.(done := s.done + {c})
    case GiveUp(c) => Goto(s, c, Dropping)
    case Add(c) => Goto(s, c, Counted).(drops := (s.drops + 1) % TWO64, increments := s.increments + 1)
    case ReadClock(c) => Goto(s, c, Timed(s.clock))
    case Load(c) =>
      if s.pcs[c].now - s.lastLog > MINUTE then Goto(s, c, Storing(s.pcs[c].now)) else Goto(s, c, ReturnedErr)
    case Store(c) => Goto(s, c, Swapping(s.pcs[c].now)).(lastLog := s.pcs[c].now)
    case Swap(c) =>
      Goto(s, c, ReturnedErr).(drops := 0, warnings := s.warnings + [Warning(s.pcs[c].now, s.drops)])
    case Tick(to) => s.(clock := to)
    case Receive => s.(worker := Holding(s.buffer[0]), buffer := s.buffer[1..])
    case Encode => s.(worker := Waiting, tried := s.tried + [s.worker.call])
    case Exit => s.(worker := Exited)
    case EnterClose(k) => s.(closers := s.closers[k := Entered])
    case CloseOnce(k) => s.(closed := true, closers := s.closers[k := Joining])
    case CloseReturn(k) => s.(closers := s.closers[k := Closed])
  }

  /** Every action of the run can be taken when its turn comes. */
  predicate Possible(s: State, run: seq<Action>)
    decreases |run|
  {
    run != [] ==> Enabled(s, run[0]) && Possible(Apply(s, run[0]), run[1..])
  }

  function After(s: State, run: seq<Action>): State
    requires Possible(s, run)
    decreases |run|
  {
    if run == [] then s else After(Apply(s, run[0]), run[1..])
  }

  lemma {:induction false} RunSplit(s: State, first: seq<Action>, second: seq<Action>)
    requires Possible(s, first + second)
    ensures Possible(s, first) && Possible(After(s, first), second)
    decreases |first|
  {
    if first == [] {
      assert first + second == second;
    } else {
      assert (first + second)[1..] == first[1..] + second;
      RunSplit(Apply(s, first[0]), first[1..], second);
    }
  }

  lemma {:induction false} RunAppend(s: State, first: seq<Action>, second: seq<Action>)
    requires Possible(s, first) && Possible(After(s, first), second)
    ensures Possible(s, first + second) && After(s, first + second) == After(After(s, first), second)
    decreases |first|
  {
    if first == [] {
      assert first + second == second;
    } else {
      RunAppend(Apply(s, first[0]), first[1..], second);
      assert (first + second)[1..] == first[1..] + second;
    }
  }

  lemma {:induction false} Chain(s: State, a: Action, rest: seq<Action>)
    requires Enabled(s, a) && Possible(Apply(s, a), rest)
    ensures Possible(s, [a] + rest) && After(s, [a] + rest) == After(Apply(s, a), rest)
    ensures rest == [] ==> Possible(s, [a]) && After(s, [a]) == Apply(s, a)
  {
    assert ([a] + rest)[1..] == rest;
    if rest == [] {
      assert [a] + rest == [a];
    }
  }

  lemma {:induction false} Both(s: State, a: Action, b: Action, rest: seq<Action>)
    requires Enabled(s, a) && Enabled(Apply(s, a), b) && Possible(Apply(Apply(s, a), b), rest)
    ensures Possible(s, [a, b] + rest) && After(s, [a, b] + rest) == After(Apply(Apply(s, a), b), rest)
  {
    Chain(Apply(s, a), b, rest);
    Chain(s, a, [b] + rest);
    assert [a, b] + rest == [a] + ([b] + rest);
  }

  // ---- The channel ----

  function Hand(w: Worker): seq<nat> {
    if w.Holding? then [w.call] else []
  }

  predicate NoDuplicates(xs: seq<nat>) {
    forall i, j :: 0 <= i < j < |xs| ==> xs[i] != xs[j]
  }

  /**
    Accepted events, in order, are those tried, the one in hand and those waiting; calls that
    returned nil are the accepted ones.
   */
  ghost predicate ChannelInv(s: State) {
    && s.accepted == s.tried + Hand(s.worker) + s.buffer
    && |s.buffer| <= s.capacity
    && NoDuplicates(s.accepted)
    && (forall c :: c in s.accepted <==> Is(s, c, ReturnedNil))
  }

  /** Calls panic only on a closed channel, and a `Close` that returned found the worker gone. */
  ghost predicate CloseInv(s: State) {
    && (forall c :: c in s.pcs && s.pcs[c].Panicked? ==> s.closed)
    && (s.worker.Exited? ==> s.closed && s.buffer == [])
    && (forall k :: k in s.closers && !s.closers[k].Entered? ==> s.closed)
    && (forall k :: k in s.closers && s.closers[k].Closed? ==> s.worker.Exited?)
  }

  lemma {:induction false} SendStep(s: State, c: nat)
    requires ChannelInv(s) && Enabled(s, Send(c)) && !s.closed
    ensures ChannelInv(Apply(s, Send(c)))
  {
    var next := Apply(s, Send(c));
    assert c !in s.accepted;
    assert next.accepted == s.tried + Hand(s.worker) + (s.buffer + [c]);
    forall d ensures d in next.accepted <==> Is(next, d, ReturnedNil) {
      assert d in next.accepted <==> d in s.accepted || d == c;
    }
  }

  lemma {:induction false} WorkerStep(s: State, a: Action)
    requires ChannelInv(s) && Enabled(s, a) && (a.Receive? || a.Encode?)
    ensures ChannelInv(Apply(s, a))
  {
    if a.Receive? {
      assert s.buffer == [s.buffer[0]] + s.buffer[1..];
      assert s.accepted == s.tried + [s.buffer[0]] + s.buffer[1..];
    } else {
      assert s.accepted == (s.tried + [s.worker.call]) + [] + s.buffer;
    }
  }

  lemma {:induction false} ChannelStep(s: State, a: Action)
    requires ChannelInv(s) && Enabled(s, a)
    ensures ChannelInv(Apply(s, a))
  {
    if a.Send? && !s.closed {
      SendStep(s, a.c);
    } else if a.Receive? || a.Encode? {
      WorkerStep(s, a);
    } else {
      var next := Apply(s, a);
      assert next.accepted == s.accepted && next.buffer == s.buffer && next.tried == s.tried;
      assert Hand(next.worker) == Hand(s.worker);
      forall d ensures Is(next, d, ReturnedNil) <==> Is(s, d, ReturnedNil) {
      }
    }
  }

  lemma {:induction false} CloseStep(s: State, a: Action)
    requires CloseInv(s) && Enabled(s, a)
    ensures CloseInv(Apply(s, a))
  {
  }

  // ---- The drop counter ----

  function Reported(warnings: seq<Warning>): nat {
    if warnings == [] then 0 else Reported(warnings[..|warnings| - 1]) + warnings[|warnings| - 1].total
  }

  function Counters(pcs: map<nat, Pc>): set<nat> {
    set c | c in pcs && PastAdd(pcs[c])
  }

  /** Totals swapped out so far plus the counter are the increments made, modulo the counter's width. */
  ghost predicate DropInv(s: State) {
    && s.drops < TWO64
    && (Reported(s.warnings) + s.drops) % TWO64 == s.increments % TWO64
    && s.increments == |Counters(s.pcs)|
  }

  lemma {:induction false} CountersStep(pcs: map<nat, Pc>, c: nat, pc: Pc)
    ensures PastAdd(pc) && c !in Counters(pcs) ==> |Counters(pcs[c := pc])| == |Counters(pcs)| + 1
    ensures PastAdd(pc) && c in Counters(pcs) ==> Counters(pcs[c := pc]) == Counters(pcs)
    ensures !PastAdd(pc) && c !in Counters(pcs) ==> Counters(pcs[c := pc]) == Counters(pcs)
  {
    if PastAdd(pc) {
      assert Counters(pcs[c := pc]) == Counters(pcs) + {c};
    } else if c !in Counters(pcs) {
      assert Counters(pcs[c := pc]) == Counters(pcs);
    }
  }

  lemma {:induction false} SameRemainder(x: nat, y: nat)
    requires x % TWO64 == y % TWO64
    ensures (x + 1) % TWO64 == (y + 1) % TWO64
  {
  }

  lemma {:induction false} WrappedAdd(reported: nat, drops: nat, increments: nat)
    requires drops < TWO64 && (reported + drops) % TWO64 == increments % TWO64
    ensures (reported + (drops + 1) % TWO64) % TWO64 == (increments + 1) % TWO64
  {
    SameRemainder(reported + drops, increments);
    if drops + 1 == TWO64 {
      assert reported + drops + 1 == reported + TWO64;
    } else {
      assert (drops + 1) % TWO64 == drops + 1;
    }
  }

  lemma {:induction false} AddStep(s: State, c: nat)
    requires DropInv(s) && Enabled(s, Add(c))
    ensures DropInv(Apply(s, Add(c)))
  {
    CountersStep(s.pcs, c, Counted);
    WrappedAdd(Reported(s.warnings), s.drops, s.increments);
  }

  lemma {:induction false} SwapStep(s: State, c: nat)
    requires DropInv(s) && Enabled(s, Swap(c))
    ensures DropInv(Apply(s, Swap(c)))
  {
    CountersStep(s.pcs, c, ReturnedErr);
    assert Apply(s, Swap(c)).warnings[..|s.warnings|] == s.warnings;
  }

  lemma {:induction false} DropStep(s: State, a: Action)
    requires DropInv(s) && Enabled(s, a)
    ensures DropInv(Apply(s, a))
  {
    if a.Add? {
      AddStep(s, a.c);
    } else if a.Swap? {
      SwapStep(s, a.c);
    } else {
      CountersKeep(s, a);
    }
  }

  lemma {:induction false} CountersKeep(s: State, a: Action)
    requires Enabled(s, a) && !a.Add? && !a.Swap?
    ensures var next := Apply(s, a);
            && Counters(next.pcs) == Counters(s.pcs)
            && next.drops == s.drops && next.increments == s.increments && next.warnings == s.warnings
  {
    var next := Apply(s, a);
    if a.Begin? || a.Send? || a.GiveUp? {
      CountersStep(s.pcs, a.c, next.pcs[a.c]);
    } else if a.ReadClock? || a.Load? || a.Store? {
      CountersStep(s.pcs, a.c, next.pcs[a.c]);
    }
  }

  // ---- Every interleaving ----

  ghost predicate Inv(s: State) {
    ChannelInv(s) && CloseInv(s) && DropInv(s)
  }

  lemma {:induction false} RunKeepsInv(s: State, run: seq<Action>)
    requires Inv(s) && Possible(s, run)
    ensures Inv(After(s, run))
    decreases |run|
  {
    if run == [] {
    } else {
      ChannelStep(s, run[0]);
      CloseStep(s, run[0]);
      DropStep(s, run[0]);
      RunKeepsInv(Apply(s, run[0]), run[1..]);
    }
  }

  lemma {:induction false} StartHoldsInv(bufferSize: int, blocking: bool, clock: int)
    ensures Inv(Start(bufferSize, blocking, clock))
  {
    var s := Start(bufferSize, blocking, clock);
    assert s.pcs == map[] && s.accepted == [];
    assert Counters(s.pcs) == {};
  }

  /**
    In every interleaving: order and no loss in the channel, one event per nil and none per error,
    and once any `Close` has returned every accepted event has been tried.
   */
  lemma {:induction false} NothingAcceptedIsLost(bufferSize: int, blocking: bool, clock: int, run: seq<Action>)
    requires Possible(Start(bufferSize, blocking, clock), run)
    ensures var s := After(Start(bufferSize, blocking, clock), run);
            && s.accepted == s.tried + Hand(s.worker) + s.buffer
            && |s.buffer| <= s.capacity
            && NoDuplicates(s.accepted)
            && (forall c :: c in s.accepted <==> Is(s, c, ReturnedNil))
            && (forall k :: k in s.closers && s.closers[k].Closed? ==> s.tried == s.accepted)
  {
    StartHoldsInv(bufferSize, blocking, clock);
    RunKeepsInv(Start(bufferSize, blocking, clock), run);
    var s := After(Start(bufferSize, blocking, clock), run);
    if s.worker.Exited? {
      assert s.tried + Hand(s.worker) + s.buffer == s.tried;
    }
  }

  /** In every interleaving: what was reported plus what is counted is what was dropped, modulo 2^64. */
  lemma {:induction false} DropsAreConserved(bufferSize: int, blocking: bool, clock: int, run: seq<Action>)
    requires Possible(Start(bufferSize, blocking, clock), run)
    ensures var s := After(Start(bufferSize, blocking, clock), run);
            && (Reported(s.warnings) + s.drops) % 0x1_0000_0000_0000_0000 == s.increments % 0x1_0000_0000_0000_0000
            && (Quiescent(s) ==> s.increments == |set c | c in s.pcs && s.pcs[c].ReturnedErr?|)
  {
    StartHoldsInv(bufferSize, blocking, clock);
    RunKeepsInv(Start(bufferSize, blocking, clock), run);
    var s := After(Start(bufferSize, blocking, clock), run);
    if Quiescent(s) {
      assert Counters(s.pcs) == set c | c in s.pcs && s.pcs[c].ReturnedErr?;
    }
  }

  // ---- What each warning reports ----

  /** How often the counter was incremented since it was last swapped out. */
  function AddsSince(run: seq<Action>): nat {
    if run == [] then
      0
    else
      var before, last := run[..|run| - 1], run[|run| - 1];
      if last.Swap? then 0 else AddsSince(before) + if last.Add? then 1 else 0
  }

  /** The number of increments before each swap and after the previous one. */
  function Totals(run: seq<Action>): seq<nat> {
    if run == [] then
      []
    else
      var before, last := run[..|run| - 1], run[|run| - 1];
      Totals(before) + if last.Swap? then [AddsSince(before)] else []
  }

  lemma {:induction false} AddWraps(n: nat)
    ensures (n % TWO64 + 1) % TWO64 == (n + 1) % TWO64
  {
    SameRemainder(n % TWO64, n);
  }

  /** The counter and the warnings of a state are those of the run that led to it. */
  ghost predicate ReportInv(s: State, run: seq<Action>) {
    && s.drops == AddsSince(run) % TWO64
    && |s.warnings| == |Totals(run)|
    && forall i :: 0 <= i < |Totals(run)| ==> s.warnings[i].total == Totals(run)[i] % TWO64
  }

  lemma {:induction false} ReportStep(s: State, run: seq<Action>, a: Action)
    requires ReportInv(s, run) && Enabled(s, a)
    ensures ReportInv(Apply(s, a), run + [a])
  {
    assert (run + [a])[..|run|] == run;
    AddWraps(AddsSince(run));
  }

  lemma {:induction false} ReportRun(start: State, run: seq<Action>)
    requires ReportInv(start, []) && Possible(start, run)
    ensures ReportInv(After(start, run), run)
    decreases |run|
  {
    if run == [] {
    } else {
      var before, last := run[..|run| - 1], run[|run| - 1];
      assert run == before + [last];
      RunSplit(start, before, [last]);
      RunAppend(start, before, [last]);
      Chain(After(start, before), last, []);
      ReportRun(start, before);
      ReportStep(After(start, before), before, last);
    }
  }

  /** In every interleaving, each warning reports the drops since the one before it, modulo 2^64. */
  lemma {:induction false} ReportsAreExact(bufferSize: int, blocking: bool, clock: int, run: seq<Action>)
    requires Possible(Start(bufferSize, blocking, clock), run)
    ensures var s := After(Start(bufferSize, blocking, clock), run);
            && s.drops == AddsSince(run) % TWO64
            && |s.warnings| == |Totals(run)|
            && forall i :: 0 <= i < |Totals(run)| ==> s.warnings[i].total == Totals(run)[i] % TWO64
  {
    ReportRun(Start(bufferSize, blocking, clock), run);
  }

  // ---- Close while calls are sending ----

  /** The call can panic in some continuation that does not begin it. */
  ghost predicate CanPanic(s: State, c: nat) {
    exists more: seq<Action> :: Begin(c) !in more && Possible(s, more) && Is(After(s, more), c, Panicked)
  }

  lemma {:induction false} NotSendingStep(s: State, a: Action, c: nat)
    requires Enabled(s, a) && a != Begin(c) && !Is(s, c, Sending) && !Is(s, c, Panicked)
    ensures !Is(Apply(s, a), c, Sending) && !Is(Apply(s, a), c, Panicked)
  {
  }

  lemma {:induction false} NotSendingRun(s: State, more: seq<Action>, c: nat)
    requires Possible(s, more) && Begin(c) !in more && !Is(s, c, Sending) && !Is(s, c, Panicked)
    ensures !Is(After(s, more), c, Panicked)
    decreases |more|
  {
    if more == [] {
    } else {
      assert more[0] in more && forall a :: a in more[1..] ==> a in more;
      NotSendingStep(s, more[0], c);
      NotSendingRun(Apply(s, more[0]), more[1..], c);
    }
  }

  /** Once the channel is closed, a call can still panic exactly if it is sending or begins later. */
  lemma {:induction false} PanicExactly(s: State, c: nat)
    requires s.closed && !Is(s, c, Panicked)
    ensures CanPanic(s, c) <==> Is(s, c, Sending)
    ensures c !in s.pcs ==> Possible(s, [Begin(c)]) && CanPanic(After(s, [Begin(c)]), c)
  {
    if Is(s, c, Sending) {
      SendingCanPanic(s, c);
    } else if CanPanic(s, c) {
      var more: seq<Action> :| Begin(c) !in more && Possible(s, more) && Is(After(s, more), c, Panicked);
      NotSendingRun(s, more, c);
      assert false;
    }
    if c !in s.pcs {
      Chain(s, Begin(c), []);
      SendingCanPanic(Apply(s, Begin(c)), c);
    }
  }

  /** Stuck on a closed channel. */
  predicate Doomed(s: State, c: nat) {
    s.closed && !s.blocking && (Is(s, c, Sending) || Is(s, c, Panicked))
  }

  lemma {:induction false} DoomedStep(s: State, a: Action, c: nat)
    requires Doomed(s, c) && Enabled(s, a)
    ensures Doomed(Apply(s, a), c)
  {
  }

  /** A non-blocking call that is sending when the channel is closed never returns: it can only panic. */
  lemma {:induction false} NonBlockingOnlyPanics(s: State, c: nat, more: seq<Action>)
    requires Doomed(s, c) && Possible(s, more)
    ensures Is(After(s, more), c, Sending) || Is(After(s, more), c, Panicked)
    decreases |more|
  {
    if more == [] {
    } else {
      DoomedStep(s, more[0], c);
      NonBlockingOnlyPanics(Apply(s, more[0]), c, more[1..]);
    }
  }

  lemma {:induction false} SendingCanPanic(s: State, c: nat)
    requires s.closed && Is(s, c, Sending)
    ensures CanPanic(s, c)
  {
    Chain(s, Send(c), []);
    assert Begin(c) !in [Send(c)];
  }

  // ---- Close does not hang ----

  /** The worker's own steps from a closed channel: finish what it holds, then every event waiting. */
  lemma {:induction false} WorkerCanExit(s: State) returns (run: seq<Action>)
    requires Inv(s) && s.closed
    ensures Possible(s, run) && After(s, run).worker.Exited? && After(s, run).closers == s.closers
    ensures After(s, run).accepted == s.accepted
    decreases |s.buffer|, if s.worker.Holding? then 1 else 0
  {
    if s.worker.Exited? {
      run := [];
    } else {
      var a := if s.worker.Holding? then Encode else if s.buffer != [] then Receive else Exit;
      ChannelStep(s, a);
      CloseStep(s, a);
      DropStep(s, a);
      if a.Exit? {
        run := [Exit];
        assert run[1..] == [];
      } else {
        var rest := WorkerCanExit(Apply(s, a));
        run := [a] + rest;
        assert run[1..] == rest;
      }
    }
  }

  /** The `Close` call has returned, and every accepted event has been tried. */
  ghost predicate ClosedWell(s: State, k: nat) {
    k in s.closers && s.closers[k].Closed? && s.tried == s.accepted
  }

  lemma {:induction false} JoiningCanReturn(s: State, k: nat) returns (more: seq<Action>)
    requires Inv(s) && k in s.closers && s.closers[k].Joining?
    ensures Possible(s, more) && ClosedWell(After(s, more), k) && After(s, more).accepted == s.accepted
  {
    var drain := WorkerCanExit(s);
    RunKeepsInv(s, drain);
    var end := After(s, drain);
    assert end.tried + Hand(end.worker) + end.buffer == end.tried;
    Chain(end, CloseReturn(k), []);
    RunAppend(s, drain, [CloseReturn(k)]);
    more := drain + [CloseReturn(k)];
  }

  lemma {:induction false} EnteredCanReturn(s: State, k: nat) returns (more: seq<Action>)
    requires Inv(s) && k in s.closers && s.closers[k].Entered?
    ensures Possible(s, more) && ClosedWell(After(s, more), k) && After(s, more).accepted == s.accepted
  {
    ChannelStep(s, CloseOnce(k));
    CloseStep(s, CloseOnce(k));
    DropStep(s, CloseOnce(k));
    var rest := JoiningCanReturn(Apply(s, CloseOnce(k)), k);
    Chain(s, CloseOnce(k), rest);
    more := [CloseOnce(k)] + rest;
  }

  /** From every state of every run, each `Close` call can still return, with every accepted event tried. */
  lemma {:induction false} CloseCanReturn(bufferSize: int, blocking: bool, clock: int, run: seq<Action>, k: nat)
    requires Possible(Start(bufferSize, blocking, clock), run)
    requires k in After(Start(bufferSize, blocking, clock), run).closers
    ensures var s := After(Start(bufferSize, blocking, clock), run);
            exists more: seq<Action> :: Possible(s, more) && ClosedWell(After(s, more), k)
              && After(s, more).accepted == s.accepted
  {
    StartHoldsInv(bufferSize, blocking, clock);
    RunKeepsInv(Start(bufferSize, blocking, clock), run);
    var s := After(Start(bufferSize, blocking, clock), run);
    match s.closers[k] {
      case Closed =>
        assert s.tried + Hand(s.worker) + s.buffer == s.tried;
        assert Possible(s, []) && After(s, []) == s;
      case Joining =>
        var more := JoiningCanReturn(s, k);
      case Entered =>
        var more := EnteredCanReturn(s, k);
    }
  }

  // ---- What a sending call can do ----

  lemma {:induction false} ConfigStays(s: State, run: seq<Action>)
    requires Possible(s, run)
    ensures After(s, run).capacity == s.capacity && After(s, run).blocking == s.blocking
    decreases |run|
  {
    if run == [] {
    } else {
      ConfigStays(Apply(s, run[0]), run[1..]);
    }
  }

  /**
    While the channel is open a call can be accepted exactly if there is room, under either strategy,
    and the non-blocking one can give up exactly if the channel holds as many events as were asked for.
   */
  lemma {:induction false} SelectExactly(bufferSize: int, blocking: bool, clock: int, run: seq<Action>, c: nat)
    requires Possible(Start(bufferSize, blocking, clock), run)
    requires var s := After(Start(bufferSize, blocking, clock), run);
             !s.closed && Is(s, c, Sending)
    ensures var s := After(Start(bufferSize, blocking, clock), run);
            var capacity := if bufferSize <= 0 then 1024 else bufferSize;
            && (Possible(s, [Send(c)]) <==> |s.buffer| < capacity)
            && (Possible(s, [Send(c)]) ==> Is(After(s, [Send(c)]), c, ReturnedNil))
            && (!blocking ==> (Possible(s, [GiveUp(c)]) <==> |s.buffer| == capacity))
  {
    var s := After(Start(bufferSize, blocking, clock), run);
    StartHoldsInv(bufferSize, blocking, clock);
    RunKeepsInv(Start(bufferSize, blocking, clock), run);
    ConfigStays(Start(bufferSize, blocking, clock), run);
    if Enabled(s, Send(c)) {
      Chain(s, Send(c), []);
    }
    if Enabled(s, GiveUp(c)) {
      Chain(s, GiveUp(c), []);
    }
  }

  /** While the channel is open a sending call can still be accepted: by its own step and the worker's alone. */
  lemma {:induction false} SendCanSucceed(bufferSize: int, blocking: bool, clock: int, run: seq<Action>, c: nat)
    requires Possible(Start(bufferSize, blocking, clock), run)
    requires var s := After(Start(bufferSize, blocking, clock), run);
             !s.closed && Is(s, c, Sending)
    ensures var s := After(Start(bufferSize, blocking, clock), run);
            exists more: seq<Action> :: (forall a :: a in more ==> a in {Encode, Receive, Send(c)})
              && Possible(s, more) && Is(After(s, more), c, ReturnedNil)
  {
    var s := After(Start(bufferSize, blocking, clock), run);
    StartHoldsInv(bufferSize, blocking, clock);
    RunKeepsInv(Start(bufferSize, blocking, clock), run);
    ConfigStays(Start(bufferSize, blocking, clock), run);
    var more := RoomAndSend(s, c);
  }

  lemma {:induction false} RoomAndSend(s: State, c: nat) returns (more: seq<Action>)
    requires !s.closed && Is(s, c, Sending) && !s.worker.Exited? && 0 < s.capacity && |s.buffer| <= s.capacity
    ensures forall a :: a in more ==> a in {Encode, Receive, Send(c)}
    ensures Possible(s, more) && Is(After(s, more), c, ReturnedNil)
  {
    if |s.buffer| < s.capacity {
      Chain(s, Send(c), []);
      more := [Send(c)];
    } else if s.worker.Waiting? {
      var roomy := Apply(s, Receive);
      Both(s, Receive, Send(c), []);
      more := [Receive, Send(c)] + [];
    } else {
      var free := Apply(s, Encode);
      Both(free, Receive, Send(c), []);
      Chain(s, Encode, [Receive, Send(c)] + []);
      more := [Encode] + ([Receive, Send(c)] + []);
    }
  }
}
