/**
  When the audit logger drops: under the blocking strategy exactly when the call's context is done,
  under the other only when the channel is full.
 */
module AuditContexts {
  import opened Audit
  import opened AuditWarnings

  /** From the moment a call gives up, its event is not delivered. */
  predicate GivenUp(pc: Pc) {
    pc.Dropping? || PastAdd(pc)
  }

  /** Under the blocking strategy, only calls whose context is done have given up. */
  ghost predicate ContextInv(s: State) {
    s.blocking ==> forall c :: c in s.pcs && GivenUp(s.pcs[c]) ==> c in s.done
  }

  lemma {:induction false} ContextStep(s: State, a: Action)
    requires ContextInv(s) && Enabled(s, a)
    ensures ContextInv(Apply(s, a)) && Apply(s, a).blocking == s.blocking
    ensures Apply(s, a).done == s.done + (if a.Cancel? then {a.c} else {})
  {
  }

  lemma {:induction false} ContextRun(s: State, run: seq<Action>)
    requires ContextInv(s) && Possible(s, run)
    ensures ContextInv(After(s, run)) && After(s, run).blocking == s.blocking
    ensures forall c :: c in After(s, run).done <==> c in s.done || Cancel(c) in run
    decreases |run|
  {
    if run == [] {
    } else {
      assert run == [run[0]] + run[1..];
      ContextStep(s, run[0]);
      ContextRun(Apply(s, run[0]), run[1..]);
    }
  }

  /** In every interleaving of the blocking strategy, a call gives up only after its own context ended. */
  lemma {:induction false} BlockingDropsWereCancelled(bufferSize: int, clock: int, run: seq<Action>, c: nat)
    requires Possible(Start(bufferSize, true, clock), run)
    ensures var s := After(Start(bufferSize, true, clock), run);
            c in s.pcs && GivenUp(s.pcs[c]) ==> Cancel(c) in run
  {
    ContextRun(Start(bufferSize, true, clock), run);
  }

  /** The call can still return an error, although its context does not end from now on. */
  ghost predicate CanBeDropped(s: State, c: nat) {
    exists more: seq<Action> ::
      Cancel(c) !in more && Possible(s, more) && Is(After(s, more), c, ReturnedErr)
  }

  lemma {:induction false} DoneCanBeDropped(s: State, c: nat)
    requires s.blocking && Is(s, c, Sending) && c in s.done
    ensures CanBeDropped(s, c)
  {
    var dropping := Apply(s, GiveUp(c));
    var warning := Drop(Meter(dropping.drops, dropping.lastLog), dropping.clock).1;
    var steps := [Add(c), ReadClock(c), Load(c)] + (if warning.Some? then [Store(c), Swap(c)] else []);
    UninterruptedIsDrop(dropping, c);
    Chain(s, GiveUp(c), steps);
    assert Cancel(c) !in [GiveUp(c)] + steps;
  }

  /**
    At every moment of every run of the blocking strategy, whatever the channel holds: a call that
    is sending can still be dropped, its context left alone, exactly when that context is done.
   */
  lemma {:induction false} BlockingDropExactly(bufferSize: int, clock: int, run: seq<Action>, c: nat)
    requires Possible(Start(bufferSize, true, clock), run)
    requires Is(After(Start(bufferSize, true, clock), run), c, Sending)
    ensures CanBeDropped(After(Start(bufferSize, true, clock), run), c) <==> Cancel(c) in run
  {
    var start := Start(bufferSize, true, clock);
    var s := After(start, run);
    ContextRun(start, run);
    if c in s.done {
      DoneCanBeDropped(s, c);
    } else if CanBeDropped(s, c) {
      var more: seq<Action> :| Cancel(c) !in more && Possible(s, more) && Is(After(s, more), c, ReturnedErr);
      ContextRun(s, more);
      assert false;
    }
  }

  /** Nothing was ever dropped. */
  ghost predicate NoDrops(s: State) {
    s.drops == 0 && s.warnings == [] && forall c :: c in s.pcs ==> !GivenUp(s.pcs[c])
  }

  lemma {:induction false} UncancelledStep(s: State, a: Action)
    requires s.blocking && s.done == {} && NoDrops(s) && Enabled(s, a) && !a.Cancel?
    ensures var next := Apply(s, a);
            next.blocking && next.done == {} && NoDrops(next)
  {
  }

  lemma {:induction false} UncancelledRun(s: State, run: seq<Action>)
    requires s.blocking && s.done == {} && NoDrops(s) && Possible(s, run)
    requires forall c :: Cancel(c) !in run
    ensures NoDrops(After(s, run))
    decreases |run|
  {
    if run == [] {
    } else {
      assert run[0] in run && forall a :: a in run[1..] ==> a in run;
      UncancelledStep(s, run[0]);
      UncancelledRun(Apply(s, run[0]), run[1..]);
    }
  }

  /**
    While no context ends, the blocking strategy drops nothing, warns of nothing and returns no error;
    before `Close` no call panics.
   */
  lemma {:induction false} BlockingLosesNothing(bufferSize: int, clock: int, run: seq<Action>)
    requires Possible(Start(bufferSize, true, clock), run) && forall c :: Cancel(c) !in run
    ensures var s := After(Start(bufferSize, true, clock), run);
            && s.drops == 0 && s.warnings == []
            && (forall c :: c in s.pcs ==> s.pcs[c] in {Sending, ReturnedNil, Panicked})
            && (!s.closed ==> forall c :: c in s.pcs ==> !s.pcs[c].Panicked?)
  {
    StartHoldsInv(bufferSize, true, clock);
    RunKeepsInv(Start(bufferSize, true, clock), run);
    UncancelledRun(Start(bufferSize, true, clock), run);
  }

  // ---- The non-blocking strategy ----

  /** At no moment of the run does the channel hold `capacity` events. */
  predicate AlwaysBelow(s: State, run: seq<Action>, capacity: nat)
    requires Possible(s, run)
    decreases |run|
  {
    |s.buffer| < capacity && (run != [] ==> AlwaysBelow(Apply(s, run[0]), run[1..], capacity))
  }

  lemma {:induction false} RoomyStep(s: State, a: Action)
    requires !s.blocking && NoDrops(s) && Enabled(s, a) && |s.buffer| < s.capacity
    ensures var next := Apply(s, a);
            !next.blocking && NoDrops(next) && next.capacity == s.capacity
  {
  }

  lemma {:induction false} RoomyRun(s: State, run: seq<Action>)
    requires !s.blocking && NoDrops(s) && Possible(s, run) && AlwaysBelow(s, run, s.capacity)
    ensures NoDrops(After(s, run))
    decreases |run|
  {
    if run == [] {
    } else {
      RoomyStep(s, run[0]);
      RoomyRun(Apply(s, run[0]), run[1..]);
    }
  }

  /**
    While the channel is never full, the non-blocking strategy drops nothing, warns of nothing and
    returns no error.
   */
  lemma {:induction false} NonBlockingLosesNothing(bufferSize: int, clock: int, run: seq<Action>)
    requires Possible(Start(bufferSize, false, clock), run)
    requires AlwaysBelow(Start(bufferSize, false, clock), run, if bufferSize <= 0 then 1024 else bufferSize)
    ensures var s := After(Start(bufferSize, false, clock), run);
            && s.drops == 0 && s.warnings == []
            && (forall c :: c in s.pcs ==> s.pcs[c] in {Sending, ReturnedNil, Panicked})
  {
    RoomyRun(Start(bufferSize, false, clock), run);
  }
}
