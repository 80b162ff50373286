/**
  The idempotency gate: a `SET NX` lock with an expiry, never released early, and the
  fail-open and fail-closed answers to a failing Redis.
 */
module Idempotency {
  import opened Prelude
  import opened Redis
  import opened Keys

  datatype Verdict = Executed | Conflict | Unavailable

  function Decide(failOpen: bool, seen: Reply): Verdict {
    match seen
    case Flag(acquired) => if acquired then Executed else Conflict
    case _ => if failOpen then Executed else Unavailable
  }

  /** Every call on the key asks for the lock with the configured expiry. */
  predicate GateCalls(calls: seq<Call>, key: string, expiry: real) {
    forall i :: 0 <= i < |calls| && calls[i].key == key ==> calls[i].command == SetNx(expiry)
  }

  /** The store holds a lock on the key at least until `until`. */
  predicate HeldUntil(c: Cell, until: real) {
    c.Some? && (c.value.deadline.Never? || until <= c.value.deadline.time)
  }

  predicate HeldForever(c: Cell) {
    c.Some? && c.value.deadline.Never?
  }

  // ---- Two acquisitions are an expiry apart ----

  lemma {:induction false} LockOutlives(s: Store, calls: seq<Call>, key: string, expiry: real, until: real, j: nat)
    requires Ordered(calls) && GateCalls(calls, key, expiry) && HeldUntil(CellOf(s, key), until)
    requires j < |calls| && calls[j].key == key && Run(Expiring, s, calls)[j] == Flag(true)
    ensures until <= calls[j].now && CellOf(s, key).value.deadline.At?
    decreases |calls|
  {
    var next := Step(Expiring, s, calls[0]).0;
    if j > 0 && (CellOf(s, key).value.deadline.Never? || calls[0].now < until) {
      assert Run(Expiring, s, calls)[j] == Run(Expiring, next, calls[1..])[j - 1];
      LockOutlives(next, calls[1..], key, expiry, until, j - 1);
    }
  }

  /** Over the shared store, with any faults: the same key is acquired twice only a whole expiry apart. */
  lemma {:induction false} AcquisitionsAreApart(s: Store, calls: seq<Call>, key: string, expiry: real, i: nat, j: nat)
    requires Ordered(calls) && GateCalls(calls, key, expiry)
    requires i < j < |calls| && calls[i].key == key && calls[j].key == key
    requires Run(Expiring, s, calls)[i] == Flag(true) && Run(Expiring, s, calls)[j] == Flag(true)
    ensures expiry > 0.0 && calls[i].now + expiry <= calls[j].now
    decreases |calls|
  {
    var next := Step(Expiring, s, calls[0]).0;
    assert Run(Expiring, s, calls)[1..] == Run(Expiring, next, calls[1..]);
    if i == 0 {
      LockOutlives(next, calls[1..], key, expiry, calls[0].now + expiry, j - 1);
    } else {
      AcquisitionsAreApart(next, calls[1..], key, expiry, i - 1, j - 1);
    }
  }

  /** Call `i` acquired the lock and call `j` comes before that lock has expired. */
  predicate StillHeld(s: Store, calls: seq<Call>, key: string, expiry: real, i: nat, j: nat)
    requires i < |calls| && j < |calls|
  {
    && calls[i].key == key && Run(Expiring, s, calls)[i] == Flag(true)
    && (Endless(expiry) || calls[j].now < calls[i].now + expiry)
  }

  predicate NoneHeld(s: Store, calls: seq<Call>, key: string, expiry: real, j: nat)
    requires j < |calls|
  {
    forall i: nat :: i < j ==> !StillHeld(s, calls, key, expiry, i, j)
  }

  lemma {:induction false} NoneHeldShift(s: Store, calls: seq<Call>, key: string, expiry: real, k: nat)
    requires k + 1 < |calls|
    ensures NoneHeld(s, calls, key, expiry, k + 1)
       <==> && !StillHeld(s, calls, key, expiry, 0, k + 1)
            && NoneHeld(Step(Expiring, s, calls[0]).0, calls[1..], key, expiry, k)
  {
    var next, rest := Step(Expiring, s, calls[0]).0, calls[1..];
    assert Run(Expiring, s, calls)[1..] == Run(Expiring, next, rest);
    if NoneHeld(s, calls, key, expiry, k + 1) {
      forall i: nat | i < k ensures !StillHeld(next, rest, key, expiry, i, k) {
        assert !StillHeld(s, calls, key, expiry, i + 1, k + 1);
      }
    } else {
      var i: nat :| i < k + 1 && StillHeld(s, calls, key, expiry, i, k + 1);
      if i > 0 {
        assert StillHeld(next, rest, key, expiry, i - 1, k);
      }
    }
  }

  /**
    A request acquires the lock exactly if it arrives, its expiry is accepted and no earlier acquisition
    is still in force.
   */
  lemma {:induction false} AcquiredExactly(s: Store, calls: seq<Call>, key: string, expiry: real, j: nat)
    requires Ordered(calls) && GateCalls(calls, key, expiry) && j < |calls| && calls[j].key == key
    ensures Run(Expiring, s, calls)[j] == Flag(true)
       <==> && !calls[j].fault.LostRequest? && Acceptable(expiry)
            && !Live(CellOf(s, key), calls[j].now) && NoneHeld(s, calls, key, expiry, j)
    decreases |calls|
  {
    if j == 0 {
    } else {
      var next := Step(Expiring, s, calls[0]).0;
      assert Run(Expiring, s, calls)[1..] == Run(Expiring, next, calls[1..]);
      AcquiredExactly(next, calls[1..], key, expiry, j - 1);
      NoneHeldShift(s, calls, key, expiry, j - 1);
    }
  }

  /** Whether call `i` ran the handler. */
  predicate Ran(failOpen: bool, calls: seq<Call>, i: nat)
    requires i < |calls|
  {
    Decide(failOpen, Seen(calls[i], Run(Expiring, map[], calls)[i])) == Executed
  }

  /** No two handlers of one key that each run for `duration` overlap, in any fail-closed run. */
  ghost predicate NeverOverlap(key: string, expiry: real, duration: real) {
    forall calls: seq<Call>, i: nat, j: nat |
      && Ordered(calls) && GateCalls(calls, key, expiry) && i < j < |calls|
      && calls[i].key == key && calls[j].key == key && Ran(false, calls, i) && Ran(false, calls, j) ::
      calls[i].now + duration <= calls[j].now
  }

  /** Handlers of one key are kept apart exactly when none runs past the expiry, or the expiry is not positive. */
  lemma {:induction false} HandlersApartExactly(key: string, expiry: real, duration: real)
    ensures NeverOverlap(key, expiry, duration) <==> expiry <= 0.0 || duration <= expiry
  {
    if expiry <= 0.0 || duration <= expiry {
      forall calls: seq<Call>, i: nat, j: nat |
        && Ordered(calls) && GateCalls(calls, key, expiry) && i < j < |calls|
        && calls[i].key == key && calls[j].key == key && Ran(false, calls, i) && Ran(false, calls, j)
        ensures calls[i].now + duration <= calls[j].now
      {
        AcquisitionsAreApart(map[], calls, key, expiry, i, j);
      }
    } else {
      var first, second := Call(0.0, key, SetNx(expiry), NoFault), Call(expiry, key, SetNx(expiry), NoFault);
      var calls := [first, second];
      var s := Step(Expiring, map[], first).0;
      assert Run(Expiring, map[], calls)[0] == Flag(true);
      assert calls[1..] == [second];
      assert Run(Expiring, map[], calls)[1] == Run(Expiring, s, [second])[0] == Flag(true);
      assert Ordered(calls) && GateCalls(calls, key, expiry) && Ran(false, calls, 0) && Ran(false, calls, 1);
      assert calls[0].now + duration > calls[1].now;
    }
  }

  // ---- Exactly once ----

  /** No run executes the handler of the key twice. */
  ghost predicate NeverTwice(failOpen: bool, key: string, expiry: real) {
    forall calls: seq<Call>, i: nat, j: nat |
      && Ordered(calls) && GateCalls(calls, key, expiry) && i < j < |calls|
      && calls[i].key == key && calls[j].key == key ::
      !(Ran(failOpen, calls, i) && Ran(failOpen, calls, j))
  }

  lemma {:induction false} TwoCalls(first: Call, second: Call)
    ensures var s := Step(Expiring, map[], first).0;
            Run(Expiring, map[], [first, second])
            == [Step(Expiring, map[], first).1, Step(Expiring, s, second).1]
  {
    var s := Step(Expiring, map[], first).0;
    assert [first, second][1..] == [second] && [second][1..] == [];
    assert Run(Expiring, s, [second]) == [Step(Expiring, s, second).1];
  }

  /** Two requests that both run the handler, when the policy or the expiry allows it. */
  lemma {:induction false} RunsTwice(failOpen: bool, key: string, expiry: real)
    requires failOpen || expiry > 0.0
    ensures !NeverTwice(failOpen, key, expiry)
  {
    var fault := if failOpen then LostRequest else NoFault;
    var first, second := Call(0.0, key, SetNx(expiry), fault), Call(expiry, key, SetNx(expiry), fault);
    if failOpen {
      second := first;
    }
    var calls := [first, second];
    TwoCalls(first, second);
    assert Ordered(calls) && GateCalls(calls, key, expiry);
    assert Ran(failOpen, calls, 0) && Ran(failOpen, calls, 1);
  }

  /** Over all runs, at most one handler of a key runs exactly in fail-closed mode with a lock that never expires. */
  lemma {:induction false} NeverTwiceExactly(failOpen: bool, key: string, expiry: real)
    ensures NeverTwice(failOpen, key, expiry) <==> !failOpen && expiry <= 0.0
  {
    if failOpen || expiry > 0.0 {
      RunsTwice(failOpen, key, expiry);
    } else {
      forall calls: seq<Call>, i: nat, j: nat |
        && Ordered(calls) && GateCalls(calls, key, expiry) && i < j < |calls|
        && calls[i].key == key && calls[j].key == key
        ensures !(Ran(failOpen, calls, i) && Ran(failOpen, calls, j))
      {
        if Ran(failOpen, calls, i) && Ran(failOpen, calls, j) {
          AcquisitionsAreApart(map[], calls, key, expiry, i, j);
        }
      }
    }
  }

  /** What became of call `i`. */
  function VerdictOf(failOpen: bool, calls: seq<Call>, i: nat): Verdict
    requires i < |calls|
  {
    Decide(failOpen, Seen(calls[i], Run(Expiring, map[], calls)[i]))
  }

  /** A request whose call went well is executed or a conflict by the lock; one that saw a failure, by the policy. */
  lemma {:induction false} VerdictExactly(failOpen: bool, calls: seq<Call>, key: string, expiry: real, j: nat)
    requires Ordered(calls) && GateCalls(calls, key, expiry) && j < |calls| && calls[j].key == key
    ensures VerdictOf(failOpen, calls, j)
         == if calls[j].fault.NoFault? && Acceptable(expiry) then
              if NoneHeld(map[], calls, key, expiry, j) then Executed else Conflict
            else
              if failOpen then Executed else Unavailable
  {
    AcquiredExactly(map[], calls, key, expiry, j);
    GateReply(map[], calls, key, expiry, j);
  }

  /**
    From an acquisition until its lock expires: a request whose call went well runs exactly if it is
    the one that acquired the lock, and is a conflict otherwise; one that saw Redis fail runs exactly
    in fail-open mode, and is told so otherwise.
   */
  lemma {:induction false} LockDecides(failOpen: bool, calls: seq<Call>, key: string, expiry: real, i: nat, j: nat)
    requires Ordered(calls) && GateCalls(calls, key, expiry) && i <= j < |calls| && calls[j].key == key
    requires StillHeld(map[], calls, key, expiry, i, j)
    ensures VerdictOf(failOpen, calls, j)
         == if calls[j].fault.NoFault? then
              if i == j then Executed else Conflict
            else
              if failOpen then Executed else Unavailable
    ensures Ran(failOpen, calls, j) <==> if calls[j].fault.NoFault? then i == j else failOpen
  {
    AcquiredExactly(map[], calls, key, expiry, i);
    VerdictExactly(failOpen, calls, key, expiry, j);
    if i < j {
      assert !NoneHeld(map[], calls, key, expiry, j);
    }
  }

  /**
    Two undisturbed requests for a new key, by the expiry: refused when it is negative, but for the
    client's minus one nanosecond; then, or with zero, the second always fails; otherwise it succeeds
    exactly from the expiry on.
   */
  lemma {:induction false} SecondLockExactly(key: string, expiry: real, now: real, later: real)
    requires now <= later
    ensures Run(Expiring, map[], [Call(now, key, SetNx(expiry), NoFault), Call(later, key, SetNx(expiry), NoFault)])
         == if expiry < 0.0 && expiry != -0.000000001 then [Error, Error]
            else [Flag(true), Flag(expiry > 0.0 && now + expiry <= later)]
  {
    TwoCalls(Call(now, key, SetNx(expiry), NoFault), Call(later, key, SetNx(expiry), NoFault));
  }

  /** The server answers a gate call with a flag, but for a lost request or an expiry it refuses. */
  lemma {:induction false} GateReply(s: Store, calls: seq<Call>, key: string, expiry: real, j: nat)
    requires GateCalls(calls, key, expiry) && j < |calls| && calls[j].key == key
    ensures Run(Expiring, s, calls)[j]
         == if calls[j].fault.LostRequest? || !Acceptable(expiry) then Error
            else Flag(Run(Expiring, s, calls)[j] == Flag(true))
    decreases j
  {
    if j == 0 {
    } else {
      GateReply(Step(Expiring, s, calls[0]).0, calls[1..], key, expiry, j - 1);
    }
  }

  /** The calls on the key span less than one lock. */
  predicate WithinOneLock(calls: seq<Call>, key: string, expiry: real) {
    forall i, j :: 0 <= i < j < |calls| && calls[i].key == key && calls[j].key == key ==>
      Endless(expiry) || calls[j].now < calls[i].now + expiry
  }

  /** The first call on the key to reach the server. */
  predicate Reaches(calls: seq<Call>, key: string, i: nat) {
    && i < |calls| && calls[i].key == key && !calls[i].fault.LostRequest?
    && forall k :: 0 <= k < i && calls[k].key == key ==> calls[k].fault.LostRequest?
  }

  lemma {:induction false} FirstToReach(calls: seq<Call>, key: string, j: nat) returns (i: nat)
    requires j < |calls| && calls[j].key == key && !calls[j].fault.LostRequest?
    ensures i <= j && Reaches(calls, key, i)
    decreases j
  {
    if k :| 0 <= k < j && calls[k].key == key && !calls[k].fault.LostRequest? {
      i := FirstToReach(calls, key, k);
    } else {
      i := j;
    }
  }

  lemma {:induction false} FirstAcquires(calls: seq<Call>, key: string, expiry: real, i: nat)
    requires Ordered(calls) && GateCalls(calls, key, expiry) && Acceptable(expiry) && Reaches(calls, key, i)
    ensures Run(Expiring, map[], calls)[i] == Flag(true)
  {
    forall k: nat | k < i && calls[k].key == key ensures Run(Expiring, map[], calls)[k] != Flag(true) {
      GateReply(map[], calls, key, expiry, k);
    }
    AcquiredExactly(map[], calls, key, expiry, i);
  }

  /** One handler of the key runs, and no other. */
  ghost predicate RunsOnce(failOpen: bool, calls: seq<Call>, key: string) {
    exists i: nat :: i < |calls| && calls[i].key == key && Ran(failOpen, calls, i)
      && forall j: nat :: j < |calls| && calls[j].key == key && Ran(failOpen, calls, j) ==> j == i
  }

  ghost predicate NoneRuns(failOpen: bool, calls: seq<Call>, key: string) {
    forall j: nat :: j < |calls| && calls[j].key == key ==> !Ran(failOpen, calls, j)
  }

  /** In fail-closed mode every request of a lock's time but the first to reach the server is turned away. */
  lemma {:induction false} OnlyFirstCanRun(calls: seq<Call>, key: string, expiry: real, j: nat)
    requires Ordered(calls) && GateCalls(calls, key, expiry) && WithinOneLock(calls, key, expiry)
    requires j < |calls| && calls[j].key == key
    ensures Ran(false, calls, j) <==> Acceptable(expiry) && Reaches(calls, key, j) && calls[j].fault.NoFault?
  {
    GateReply(map[], calls, key, expiry, j);
    if !calls[j].fault.LostRequest? && Acceptable(expiry) {
      var i := FirstToReach(calls, key, j);
      FirstAcquires(calls, key, expiry, i);
      LockDecides(false, calls, key, expiry, i, j);
    }
  }

  /**
    Exactly once: among requests within one lock's time, in fail-closed mode, one handler runs if the
    first call to reach the server also gets its reply back, and none runs otherwise.
   */
  lemma {:induction false} ExactlyOnceExactly(calls: seq<Call>, key: string, expiry: real)
    requires Ordered(calls) && GateCalls(calls, key, expiry) && WithinOneLock(calls, key, expiry)
    ensures RunsOnce(false, calls, key)
       <==> Acceptable(expiry) && exists i: nat :: Reaches(calls, key, i) && calls[i].fault.NoFault?
    ensures RunsOnce(false, calls, key) || NoneRuns(false, calls, key)
  {
    forall j: nat | j < |calls| && calls[j].key == key
      ensures Ran(false, calls, j) <==> Acceptable(expiry) && Reaches(calls, key, j) && calls[j].fault.NoFault?
    {
      OnlyFirstCanRun(calls, key, expiry, j);
    }
  }

  /**
    The run without any execution: the acquiring call's reply is lost, its client is told that the
    service is unavailable, and every retry is a conflict until the lock expires.
   */
  lemma {:induction false} LostReplyLocksOut(calls: seq<Call>, key: string, expiry: real)
    requires Ordered(calls) && GateCalls(calls, key, expiry) && WithinOneLock(calls, key, expiry) && Acceptable(expiry)
    requires calls != [] && calls[0].key == key && calls[0].fault.LostReply?
    ensures NoneRuns(false, calls, key)
    ensures var replies := Run(Expiring, map[], calls);
            && replies[0] == Flag(true) && Decide(false, Seen(calls[0], replies[0])) == Unavailable
            && forall j :: 0 < j < |calls| && calls[j].key == key && calls[j].fault.NoFault? ==>
                 Decide(false, Seen(calls[j], replies[j])) == Conflict
  {
    var replies := Run(Expiring, map[], calls);
    assert Reaches(calls, key, 0);
    FirstAcquires(calls, key, expiry, 0);
    ExactlyOnceExactly(calls, key, expiry);
    forall j | 0 < j < |calls| && calls[j].key == key && calls[j].fault.NoFault?
      ensures replies[j] == Flag(false)
    {
      GateReply(map[], calls, key, expiry, j);
      OnlyFirstCanRun(calls, key, expiry, j);
    }
  }

  // ---- How many in a window ----

  /** Lock acquisitions on one key in the closed window `[from, to]`. */
  function AcquiredIn(calls: seq<Call>, replies: seq<Reply>, key: string, from: real, to: real): nat
    requires |calls| == |replies|
  {
    if calls == [] then
      0
    else
      (if calls[0].key == key && replies[0] == Flag(true) && from <= calls[0].now <= to then 1 else 0)
      + AcquiredIn(calls[1..], replies[1..], key, from, to)
  }

  function ErrorsIn(calls: seq<Call>, replies: seq<Reply>, key: string, from: real, to: real): nat
    requires |calls| == |replies|
  {
    if calls == [] then
      0
    else
      (if calls[0].key == key && Seen(calls[0], replies[0]).Error? && from <= calls[0].now <= to then 1 else 0)
      + ErrorsIn(calls[1..], replies[1..], key, from, to)
  }

  function ExecutedIn(failOpen: bool, calls: seq<Call>, replies: seq<Reply>, key: string, from: real, to: real): nat
    requires |calls| == |replies|
  {
    if calls == [] then
      0
    else
      var executed := Decide(failOpen, Seen(calls[0], replies[0])) == Executed;
      (if calls[0].key == key && executed && from <= calls[0].now <= to then 1 else 0)
      + ExecutedIn(failOpen, calls[1..], replies[1..], key, from, to)
  }

  /** `n` things a gap apart span `n - 1` gaps. */
  function Gaps(n: nat, gap: real): real {
    (n - 1) as real * gap
  }

  lemma {:induction false} GapsGrow(n: nat, gap: real)
    ensures Gaps(n + 1, gap) == Gaps(n, gap) + gap
    ensures Gaps(1, gap) == 0.0
  {
    ScaleSum((n - 1) as real, 1.0, gap);
  }

  lemma {:induction false} UnfoldAcquired(s: Store, calls: seq<Call>, key: string, from: real, to: real)
    requires calls != []
    ensures var (next, reply) := Step(Expiring, s, calls[0]);
            AcquiredIn(calls, Run(Expiring, s, calls), key, from, to)
            == (if calls[0].key == key && reply == Flag(true) && from <= calls[0].now <= to then 1 else 0)
             + AcquiredIn(calls[1..], Run(Expiring, next, calls[1..]), key, from, to)
  {
    var next := Step(Expiring, s, calls[0]).0;
    assert Run(Expiring, s, calls)[1..] == Run(Expiring, next, calls[1..]);
  }

  /** If the key is held until `ready`, acquisitions in the window fit between there and its end. */
  lemma {:induction false} AcquisitionsFit(
      s: Store, calls: seq<Call>, key: string, expiry: real, ready: real, from: real, to: real)
    requires Ordered(calls) && GateCalls(calls, key, expiry) && expiry > 0.0
    requires ready <= from || HeldUntil(CellOf(s, key), ready)
    ensures var n := AcquiredIn(calls, Run(Expiring, s, calls), key, from, to);
            n > 0 ==> Gaps(n, expiry) <= to - Max(from, ready)
    decreases |calls|
  {
    if calls == [] {
    } else {
      var (next, reply) := Step(Expiring, s, calls[0]);
      UnfoldAcquired(s, calls, key, from, to);
      var n := AcquiredIn(calls[1..], Run(Expiring, next, calls[1..]), key, from, to);
      if calls[0].key == key && reply == Flag(true) {
        AcquisitionsFit(next, calls[1..], key, expiry, calls[0].now + expiry, from, to);
        GapsGrow(n, expiry);
      } else {
        AcquisitionsFit(next, calls[1..], key, expiry, ready, from, to);
      }
    }
  }

  lemma {:induction false} GapsAreWhole(n: nat, gap: real, width: real)
    requires gap > 0.0 && Gaps(n, gap) <= width
    ensures n <= 1 + (width / gap).Floor
  {
    var w := width / gap;
    assert w * gap == width;
    if w < (n - 1) as real {
      ScaleStrict(w, (n - 1) as real, gap);
    }
  }

  lemma {:induction false} ExecutedIsAcquiredOrError(failOpen: bool, calls: seq<Call>, replies: seq<Reply>,
                                                     key: string, from: real, to: real)
    requires |calls| == |replies|
    requires forall i :: 0 <= i < |calls| && calls[i].key == key ==> !replies[i].Number?
    ensures ExecutedIn(failOpen, calls, replies, key, from, to)
         <= AcquiredIn(calls, replies, key, from, to)
            + (if failOpen then ErrorsIn(calls, replies, key, from, to) else 0)
  {
    if calls == [] {
    } else {
      ExecutedIsAcquiredOrError(failOpen, calls[1..], replies[1..], key, from, to);
    }
  }

  /** The most acquisitions a window of this width can hold. */
  function MostIn(expiry: real, width: real): int {
    if expiry > 0.0 then 1 + (width / expiry).Floor else if Acceptable(expiry) then 1 else 0
  }

  /** A lock without a deadline is acquired once; one the server refuses, never. */
  lemma {:induction false} AtMostOnce(s: Store, calls: seq<Call>, key: string, expiry: real, from: real, to: real)
    requires GateCalls(calls, key, expiry) && expiry <= 0.0
    ensures var n := AcquiredIn(calls, Run(Expiring, s, calls), key, from, to);
            && n <= 1
            && (HeldForever(CellOf(s, key)) || !Acceptable(expiry) ==> n == 0)
    decreases |calls|
  {
    if calls == [] {
    } else {
      var next := Step(Expiring, s, calls[0]).0;
      AtMostOnce(next, calls[1..], key, expiry, from, to);
      assert Run(Expiring, s, calls)[1..] == Run(Expiring, next, calls[1..]);
    }
  }

  lemma {:induction false} AcquiredInWindow(calls: seq<Call>, key: string, expiry: real, from: real, to: real)
    requires Ordered(calls) && GateCalls(calls, key, expiry) && from <= to
    ensures AcquiredIn(calls, Run(Expiring, map[], calls), key, from, to) <= MostIn(expiry, to - from)
  {
    if expiry <= 0.0 {
      AtMostOnce(map[], calls, key, expiry, from, to);
    } else {
      AcquisitionsFit(map[], calls, key, expiry, from, from, to);
      GapsGrow(0, expiry);
      GapsAreWhole(AcquiredIn(calls, Run(Expiring, map[], calls), key, from, to), expiry, to - from);
    }
  }

  /**
    In any window, handlers of one key run at most once per expiry, plus, in fail-open mode only,
    once for each request that saw Redis fail.
   */
  lemma {:induction false} ExecutionsInWindow(failOpen: bool, calls: seq<Call>, token: string, expiry: real,
                                              from: real, to: real)
    requires Ordered(calls) && GateCalls(calls, KeyText(Gate(token)), expiry) && from <= to
    ensures var replies, key := Run(Expiring, map[], calls), KeyText(Gate(token));
            && AcquiredIn(calls, replies, key, from, to) <= MostIn(expiry, to - from)
            && ExecutedIn(failOpen, calls, replies, key, from, to)
               <= MostIn(expiry, to - from) + (if failOpen then ErrorsIn(calls, replies, key, from, to) else 0)
  {
    var replies, key := Run(Expiring, map[], calls), KeyText(Gate(token));
    AcquiredInWindow(calls, key, expiry, from, to);
    forall j | 0 <= j < |calls| && calls[j].key == key ensures !replies[j].Number? {
      GateReply(map[], calls, key, expiry, j);
    }
    ExecutedIsAcquiredOrError(failOpen, calls, replies, key, from, to);
  }

  // ---- The middleware ----

  class GateMiddleware {
    const expiry: real
    const failOpen: bool

    constructor (expiry: real, failOpen: bool)
      ensures this.expiry == expiry && this.failOpen == failOpen
    {
      this.expiry, this.failOpen := expiry, failOpen;
    }

    /** One request; without an idempotency header it runs unguarded. */
    method Handle(server: Server, header: string, now: real, fault: Fault) returns (verdict: Verdict)
      modifies server
      ensures header == "" ==> verdict == Executed && server.entries == old(server.entries)
      ensures KeyText(Gate(header)) == "idempotency:" + header
      ensures header != "" ==>
                var call := Call(now, "idempotency:" + header, SetNx(expiry), fault);
                var (s, reply) := Step(Expiring, old(server.entries), call);
                server.entries == s && verdict == Decide(failOpen, Seen(call, reply))
    {
      if header == "" {
        return Executed;
      }
      var res := server.Serve(Call(now, "idempotency:" + header, SetNx(expiry), fault));
      if !res.Flag? {
        if failOpen {
          return Executed;
        }
        return Unavailable;
      }
      if !res.acquired {
        return Conflict;
      }
      return Executed;
    }
  }
}
