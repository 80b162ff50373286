/**
  Redis as the middlewares use it: keys with a value and an optional deadline, the GCRA
  script and `SET NX`, executed one at a time against a clock read by the server.

  Time is an exact `real` number of seconds.  A key written at `now` with `EX n` is gone
  from `now + n` on.  A call may fail before it reaches the server, or after it took effect.
 */
module Redis {
  import opened Prelude

  datatype Value = Tat(time: real) | Locked

  datatype Deadline = Never | At(time: real)

  datatype Entry = Entry(value: Value, deadline: Deadline)

  /** What the store holds under one key. */
  type Cell = Option<Entry>

  type Store = map<string, Entry>

  datatype RawLimit = RawLimit(rate: int, period: real, burst: int) {
    /** Seconds between two cells at the sustained rate (`emission_interval`). */
    function Interval(): (t: real)
      requires rate > 0
      ensures period > 0.0 ==> t > 0.0
    {
      period / rate as real
    }

    /** Whole seconds a stored arrival time is kept. */
    function Ttl(): (n: int)
      ensures n > 0 <==> period > 0.0
    {
      Ceil(period * 2.0)
    }

    /** The time `n` cells take at the sustained rate. */
    function Cells(n: int): real
      requires rate > 0
    {
      n as real * Interval()
    }

    /** How far ahead of the clock a stored arrival time may run. */
    function Span(): real
      requires rate > 0
    {
      Cells(burst)
    }
  }

  /** The middlewares run the script only with a positive rate. */
  type Rated = l: RawLimit | l.rate > 0 witness RawLimit(1, 1.0, 1)

  /** With a period that is not positive the server refuses every write of the script. */
  type Limit = l: RawLimit | l.rate > 0 && l.period > 0.0 witness RawLimit(1, 1.0, 1)

  /** `Permanent` is the same script with a plain `SET`: the reference the expiring form is compared with. */
  datatype Retention = Expiring | Permanent

  datatype Command = Gcra(limit: Rated) | SetNx(expiry: real)

  datatype Fault = NoFault | LostRequest | LostReply

  datatype Call = Call(now: real, key: string, command: Command, fault: Fault)

  datatype Reply = Number(n: int) | Flag(acquired: bool) | Error

  const ADMIT := Number(-1)

  predicate Live(c: Cell, now: real) {
    c.Some? && (c.value.deadline.Never? || now < c.value.deadline.time)
  }

  // ---- One key ----

  function GcraCell(ret: Retention, c: Cell, l: Rated, now: real): (Cell, Reply) {
    if Live(c, now) && c.value.value.Locked? then
      (c, Error)
    else
      var stored := if Live(c, now) then c.value.value.time else now;
      var newTat := Max(now, stored) + l.Interval();
      var allowAt := newTat - l.Span();
      if allowAt > now then
        (c, Number(Ceil(allowAt - now)))
      else if ret.Permanent? then
        (Some(Entry(Tat(newTat), Never)), ADMIT)
      else if l.Ttl() <= 0 then
        (c, Error)   // an expiry that is not positive is refused
      else
        (Some(Entry(Tat(newTat), At(now + l.Ttl() as real))), ADMIT)
  }

  /** When the script fails: on a live lock, whose text is no number, and on an admission it cannot write. */
  lemma {:induction false} ScriptFailsExactly(c: Cell, l: Rated, now: real)
    ensures GcraCell(Expiring, c, l, now).1 == Error
       <==> if Live(c, now) && c.value.value.Locked? then true
            else l.period <= 0.0 && GcraCell(Permanent, c, l, now).1 == ADMIT
    ensures GcraCell(Expiring, c, l, now).1 != ADMIT ==> GcraCell(Expiring, c, l, now).0 == c
  {
  }

  /** The client's name for "leave the deadline alone", a duration of minus one nanosecond. */
  const KEEP_TTL: real := -0.000000001

  /** A lock asked for with zero or `KEEP_TTL` never expires. */
  predicate Endless(expiry: real) {
    expiry == 0.0 || expiry == KEEP_TTL
  }

  /** Any other negative expiry is refused by the server. */
  predicate Acceptable(expiry: real) {
    expiry >= 0.0 || expiry == KEEP_TTL
  }

  function SetNxCell(c: Cell, expiry: real, now: real): (Cell, Reply) {
    if !Acceptable(expiry) then
      (c, Error)
    else if Live(c, now) then
      (c, Flag(false))
    else
      (Some(Entry(Locked, if Endless(expiry) then Never else At(now + expiry))), Flag(true))
  }

  /** The server's side of one call: a request lost on the way changes nothing. */
  function CellStep(ret: Retention, c: Cell, call: Call): (Cell, Reply) {
    if call.fault.LostRequest? then
      (c, Error)
    else
      match call.command
      case Gcra(l) => GcraCell(ret, c, l, call.now)
      case SetNx(expiry) => SetNxCell(c, expiry, call.now)
  }

  function CellRun(ret: Retention, c: Cell, calls: seq<Call>): (replies: seq<Reply>)
    ensures |replies| == |calls|
    decreases |calls|
  {
    if calls == [] then
      []
    else
      var (next, reply) := CellStep(ret, c, calls[0]);
      [reply] + CellRun(ret, next, calls[1..])
  }

  function CellAfter(ret: Retention, c: Cell, calls: seq<Call>): Cell
    decreases |calls|
  {
    if calls == [] then c else CellAfter(ret, CellStep(ret, c, calls[0]).0, calls[1..])
  }

  lemma {:induction false} CellRunAppend(ret: Retention, c: Cell, before: seq<Call>, after: seq<Call>)
    ensures CellRun(ret, c, before + after)
         == CellRun(ret, c, before) + CellRun(ret, CellAfter(ret, c, before), after)
    ensures CellAfter(ret, c, before + after) == CellAfter(ret, CellAfter(ret, c, before), after)
    decreases |before|
  {
    if before == [] {
      assert before + after == after;
    } else {
      assert (before + after)[1..] == before[1..] + after;
      CellRunAppend(ret, CellStep(ret, c, before[0]).0, before[1..], after);
    }
  }

  // ---- The whole store ----

  function CellOf(s: Store, key: string): Cell {
    if key in s then Some(s[key]) else None
  }

  function Put(s: Store, key: string, c: Cell): Store {
    if c.Some? then s[key := c.value] else s
  }

  function Step(ret: Retention, s: Store, call: Call): (Store, Reply) {
    var (c, reply) := CellStep(ret, CellOf(s, call.key), call);
    (Put(s, call.key, c), reply)
  }

  function Run(ret: Retention, s: Store, calls: seq<Call>): (replies: seq<Reply>)
    ensures |replies| == |calls|
    decreases |calls|
  {
    if calls == [] then
      []
    else
      var (next, reply) := Step(ret, s, calls[0]);
      [reply] + Run(ret, next, calls[1..])
  }

  /** What the client of a call sees of the server's reply. */
  function Seen(call: Call, reply: Reply): Reply {
    if call.fault.LostReply? then Error else reply
  }

  predicate Ordered(calls: seq<Call>) {
    forall i, j :: 0 <= i < j < |calls| ==> calls[i].now <= calls[j].now
  }

  // ---- Keys do not interfere ----

  function Only(calls: seq<Call>, key: string): seq<Call> {
    if calls == [] then []
    else if calls[0].key == key then [calls[0]] + Only(calls[1..], key)
    else Only(calls[1..], key)
  }

  function RepliesFor(calls: seq<Call>, replies: seq<Reply>, key: string): seq<Reply>
    requires |calls| == |replies|
  {
    if calls == [] then []
    else if calls[0].key == key then [replies[0]] + RepliesFor(calls[1..], replies[1..], key)
    else RepliesFor(calls[1..], replies[1..], key)
  }

  /** In any run over any keys, the replies one key gets are those of its own calls run on its own cell. */
  lemma {:induction false} KeyRunsAlone(ret: Retention, s: Store, calls: seq<Call>, key: string)
    ensures RepliesFor(calls, Run(ret, s, calls), key) == CellRun(ret, CellOf(s, key), Only(calls, key))
    decreases |calls|
  {
    if calls == [] {
    } else {
      var (next, reply) := Step(ret, s, calls[0]);
      KeyRunsAlone(ret, next, calls[1..], key);
      assert Run(ret, s, calls)[1..] == Run(ret, next, calls[1..]);
    }
  }

  lemma {:induction false} OnlyTwice(calls: seq<Call>, key: string)
    ensures Only(Only(calls, key), key) == Only(calls, key)
    ensures forall replies :: |replies| == |Only(calls, key)| ==> RepliesFor(Only(calls, key), replies, key) == replies
  {
    if calls == [] {
    } else {
      OnlyTwice(calls[1..], key);
      if calls[0].key == key {
        var own := Only(calls, key);
        assert own[1..] == Only(calls[1..], key);
        forall replies: seq<Reply> | |replies| == |own| ensures RepliesFor(own, replies, key) == replies {
          assert RepliesFor(own[1..], replies[1..], key) == replies[1..];
        }
      }
    }
  }

  /** Deleting every call on other keys from a run leaves the replies on one key unchanged. */
  lemma {:induction false} OtherKeysDeletable(ret: Retention, s: Store, calls: seq<Call>, key: string)
    ensures RepliesFor(calls, Run(ret, s, calls), key) == Run(ret, s, Only(calls, key))
  {
    KeyRunsAlone(ret, s, calls, key);
    KeyRunsAlone(ret, s, Only(calls, key), key);
    OnlyTwice(calls, key);
  }

  // ---- The server, updated in place ----

  class Server {
    var entries: Store

    constructor ()
      ensures entries == map[]
    {
      entries := map[];
    }

    /** `GET`: the value under a key that is still live. */
    method Get(key: string, now: real) returns (v: Option<Value>)
      ensures v == if Live(CellOf(entries, key), now) then Some(entries[key].value) else None
    {
      v := None;
      if key in entries {
        var e := entries[key];
        if e.deadline.Never? || now < e.deadline.time {
          v := Some(e.value);
        }
      }
    }

    /** The GCRA script. */
    method Script(key: string, l: Rated, now: real) returns (res: Reply)
      modifies this
      ensures var (c, r) := GcraCell(Expiring, CellOf(old(entries), key), l, now);
              entries == Put(old(entries), key, c) && res == r
    {
      var emissionInterval := l.period / l.rate as real;
      var got := Get(key, now);
      var tat := now;
      if got.Some? {
        if got.value.Locked? {
          return Error;   // the stored text is not a number
        }
        tat := got.value.time;
      }
      if tat < now {
        tat := now;
      }
      var newTat := tat + emissionInterval;
      var allowAt := newTat - l.burst as real * emissionInterval;
      if allowAt <= now {
        var seconds := Ceil(l.period * 2.0);
        if seconds <= 0 {
          return Error;   // invalid expire time
        }
        entries := entries[key := Entry(Tat(newTat), At(now + seconds as real))];
        return Number(-1);
      }
      return Number(Ceil(allowAt - now));
    }

    /** `SET key "locked" NX` with an expiry. */
    method SetNx(key: string, expiry: real, now: real) returns (res: Reply)
      modifies this
      ensures var (c, r) := SetNxCell(CellOf(old(entries), key), expiry, now);
              entries == Put(old(entries), key, c) && res == r
    {
      if expiry < 0.0 && expiry != KEEP_TTL {
        return Error;   // invalid expire time
      }
      var got := Get(key, now);
      if got.Some? {
        return Flag(false);
      }
      entries := entries[key := Entry(Locked, if expiry > 0.0 then At(now + expiry) else Never)];
      return Flag(true);
    }

    /** One client call, with its fault; the result is what the client sees. */
    method Serve(call: Call) returns (seen: Reply)
      modifies this
      ensures entries == Step(Expiring, old(entries), call).0
      ensures seen == Seen(call, Step(Expiring, old(entries), call).1)
    {
      if call.fault.LostRequest? {
        return Error;
      }
      match call.command {
        case Gcra(l) => seen := Script(call.key, l, call.now);
        case SetNx(expiry) => seen := SetNx(call.key, expiry, call.now);
      }
      if call.fault.LostReply? {
        seen := Error;
      }
    }
  }
}
