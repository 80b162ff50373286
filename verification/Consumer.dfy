/**
  The Kafka consumer against a broker: poll, process with retry, commit, and either start again on
  the same client or join again from the committed offsets after a stop or a crash.

  The broker is modelled by its committed watermark and the client's fetch position for each
  partition.  Environment hypotheses: a poll delivers each partition contiguously from the fetch
  position, which moves past all it delivers; a commit moves the watermark past the record or does
  nothing; and each partition has one owner.  Whether a poll that reports an error carries records
  is left open, because the consumer's guarantee turns on it.
 */
module Consumer {
  import opened Retry

  type Partition = int

  /** The history of a life: handler calls, settlements and effective commits, in order. */
  datatype Event =
    | Invoked(partition: Partition, offset: nat)
    | Settled(partition: Partition, offset: nat, fate: Verdict)
    | Committed(partition: Partition, next: nat)

  datatype World = World(watermark: map<Partition, nat>, position: map<Partition, nat>, history: seq<Event>)

  /** What becomes of the commit after a settled record; `Killed` means the process died before it. */
  datatype Commit = Applied | NoEffect | Killed

  /** The next record of a partition, and how its processing will go. */
  datatype Delivery = Delivery(partition: Partition, attempts: seq<Attempt>, dlq: Ending, commit: Commit)

  /** A poll that fails may already have moved the fetch position past some records. */
  datatype Poll = Fetched(records: seq<Delivery>) | PollError(skipped: seq<Partition>) | PollCancelled

  /** One run of the process.  When the polls run out, the process was killed while polling. */
  type Session = seq<Poll>

  /** Whether the loop goes on, or how the session ended: returned nil, returned an error or panicked, or killed. */
  datatype Exit = GoOn | Stopped | Failed(verdict: Verdict) | Dead

  function At(m: map<Partition, nat>, p: Partition): nat {
    if p in m then m[p] else 0
  }

  // ---- The moves of a session ----

  /** The client hands out the next record of a partition, whatever becomes of it. */
  function Deliver(w: World, p: Partition): World {
    w.(position := w.position[p := At(w.position, p) + 1])
  }

  function InvokeTimes(w: World, p: Partition, offset: nat, n: nat): World
    decreases n
  {
    if n == 0 then w else InvokeTimes(w.(history := w.history + [Invoked(p, offset)]), p, offset, n - 1)
  }

  lemma {:induction false} InvocationsOf(w: World, p: Partition, offset: nat, n: nat)
    ensures InvokeTimes(w, p, offset, n) == w.(history := w.history + seq(n, _ => Invoked(p, offset)))
    decreases n
  {
    if n == 0 {
    } else {
      InvocationsOf(w.(history := w.history + [Invoked(p, offset)]), p, offset, n - 1);
    }
    assert InvokeTimes(w, p, offset, n).history == w.history + seq(n, _ => Invoked(p, offset));
  }

  function Settle(w: World, p: Partition, offset: nat, fate: Verdict): World {
    w.(history := w.history + [Settled(p, offset, fate)])
  }

  function CommitRecord(w: World, p: Partition, offset: nat): World {
    w.(watermark := w.watermark[p := offset + 1], history := w.history + [Committed(p, offset + 1)])
  }

  function Skip(w: World, skipped: seq<Partition>): World
    decreases |skipped|
  {
    if skipped == [] then w else Skip(Deliver(w, skipped[0]), skipped[1..])
  }

  function Resume(w: World): World {
    w.(position := w.watermark)
  }

  /** One record: process it with retry and, if that returns nil, commit it. */
  function RecordStep(cfg: Config, w: World, d: Delivery): (World, Exit) {
    var p, offset := d.partition, At(w.position, d.partition);
    var o := Process(cfg, d.attempts, d.dlq);
    var called := InvokeTimes(Deliver(w, p), p, offset, o.calls);
    if !Settles(o.verdict) then
      (called, if o.verdict == Running then Dead else Failed(o.verdict))
    else
      var settled := Settle(called, p, offset, o.verdict);
      match d.commit
      case Applied => (CommitRecord(settled, p, offset), GoOn)
      case NoEffect => (settled, GoOn)
      case Killed => (settled, Dead)
  }

  /** The records of one fetch.  When the loop is left, the client is already past the rest of them. */
  function RunRecords(cfg: Config, w: World, records: seq<Delivery>): (World, Exit)
    decreases |records|
  {
    if records == [] then
      (w, GoOn)
    else
      var (next, exit) := RecordStep(cfg, w, records[0]);
      if exit == GoOn then RunRecords(cfg, next, records[1..])
      else (Skip(next, Partitions(records[1..])), exit)
  }

  function Partitions(records: seq<Delivery>): seq<Partition> {
    seq(|records|, i requires 0 <= i < |records| => records[i].partition)
  }

  function RunPolls(cfg: Config, w: World, polls: Session): (World, Exit)
    decreases |polls|
  {
    if polls == [] then
      (w, Dead)
    else
      match polls[0]
      case PollCancelled => (w, Stopped)
      case PollError(skipped) => RunPolls(cfg, Skip(w, skipped), polls[1..])
      case Fetched(records) =>
        var (next, exit) := RunRecords(cfg, w, records);
        if exit == GoOn then RunPolls(cfg, next, polls[1..]) else (next, exit)
  }

  /** The life of a consumer group member: each session joins anew, from what is committed. */
  function RunSessions(cfg: Config, w: World, sessions: seq<Session>): World
    decreases |sessions|
  {
    if sessions == [] then w
    else RunSessions(cfg, RunPolls(cfg, Resume(w), sessions[0]).0, sessions[1..])
  }

  function Fresh(base: map<Partition, nat>): World {
    World(base, base, [])
  }

  // ---- What every session keeps ----

  predicate SettledIn(h: seq<Event>, p: Partition, offset: nat) {
    exists e :: e in h && e.Settled? && e.partition == p && e.offset == offset
  }

  /** Offsets between the starting point and `end` are settled. */
  ghost predicate SettledUpTo(h: seq<Event>, p: Partition, from: nat, end: nat) {
    forall o: nat :: from <= o < end ==> SettledIn(h, p, o)
  }

  ghost predicate Covered(base: map<Partition, nat>, w: World) {
    forall p: Partition ::
      && At(base, p) <= At(w.watermark, p) <= At(w.position, p)
      && SettledUpTo(w.history, p, At(base, p), At(w.watermark, p))
  }

  /** Between records of a running session, everything handed out is settled. */
  ghost predicate CaughtUp(base: map<Partition, nat>, w: World) {
    forall p: Partition :: SettledUpTo(w.history, p, At(base, p), At(w.position, p))
  }

  /** While one record is being processed, it is the only one handed out and not settled. */
  ghost predicate InHand(base: map<Partition, nat>, w: World, p: Partition, offset: nat) {
    && At(w.position, p) == offset + 1 && At(w.watermark, p) <= offset
    && (forall q: Partition :: SettledUpTo(w.history, q, At(base, q), if q == p then offset else At(w.position, q)))
  }

  /** A settlement is a success or, with limited retries, a dead letter or in permissive mode a drop. */
  ghost predicate FatesAllowed(cfg: Config, h: seq<Event>) {
    forall e :: e in h && e.Settled? ==> e.fate in Fates(cfg)
  }

  /** The handler first sees a record after its predecessor was settled. */
  ghost predicate InOrder(base: map<Partition, nat>, h: seq<Event>) {
    forall i :: 0 <= i < |h| && h[i].Invoked? && h[i].offset > At(base, h[i].partition) ==>
      SettledIn(h[..i], h[i].partition, h[i].offset - 1)
  }

  ghost predicate CommitsBelow(w: World) {
    forall i :: 0 <= i < |w.history| && w.history[i].Committed? ==>
      w.history[i].next <= At(w.watermark, w.history[i].partition)
  }

  /** What may follow a commit on the same partition: only deliveries from there on, and later commits. */
  predicate Follows(earlier: Event, later: Event) {
    earlier.Committed? && earlier.partition == later.partition ==>
      && (later.Invoked? ==> earlier.next <= later.offset)
      && (later.Committed? ==> earlier.next < later.next)
  }

  ghost predicate CommitsRise(h: seq<Event>) {
    forall i, j :: 0 <= i < j < |h| ==> Follows(h[i], h[j])
  }

  ghost predicate LastCommitStands(base: map<Partition, nat>, w: World) {
    forall p :: At(w.watermark, p) != At(base, p) ==> Committed(p, At(w.watermark, p)) in w.history
  }

  /** Commits only move forward, nothing below a commit is delivered again, and the watermark is the last commit. */
  ghost predicate Forward(base: map<Partition, nat>, w: World) {
    CommitsBelow(w) && CommitsRise(w.history) && LastCommitStands(base, w)
  }

  ghost predicate Safe(cfg: Config, base: map<Partition, nat>, w: World) {
    Covered(base, w) && FatesAllowed(cfg, w.history) && InOrder(base, w.history) && Forward(base, w)
  }

  lemma {:induction false} HistoryGrows(h: seq<Event>, e: Event, p: Partition, o: nat)
    ensures SettledIn(h, p, o) ==> SettledIn(h + [e], p, o)
    ensures e.Settled? && e.partition == p && e.offset == o ==> SettledIn(h + [e], p, o)
  {
    assert e in h + [e];
    if x :| x in h && x.Settled? && x.partition == p && x.offset == o {
      assert x in h + [e];
    }
  }

  lemma {:induction false} CoverGrows(h: seq<Event>, e: Event, p: Partition, from: nat, end: nat)
    requires SettledUpTo(h, p, from, end)
    ensures SettledUpTo(h + [e], p, from, end)
    ensures e.Settled? && e.partition == p && e.offset == end ==> SettledUpTo(h + [e], p, from, end + 1)
  {
    forall o: nat | from <= o < end ensures SettledIn(h + [e], p, o) {
      HistoryGrows(h, e, p, o);
    }
    HistoryGrows(h, e, p, end);
  }

  lemma {:induction false} OrderGrows(base: map<Partition, nat>, h: seq<Event>, e: Event)
    requires InOrder(base, h)
    requires e.Invoked? && e.offset > At(base, e.partition) ==> SettledIn(h, e.partition, e.offset - 1)
    ensures InOrder(base, h + [e])
  {
    forall i | 0 <= i < |h| ensures (h + [e])[..i] == h[..i] {
    }
    assert (h + [e])[..|h|] == h;
  }

  lemma {:induction false} DeliverInHand(cfg: Config, base: map<Partition, nat>, w: World, p: Partition)
    requires Safe(cfg, base, w) && CaughtUp(base, w)
    ensures Safe(cfg, base, Deliver(w, p)) && InHand(base, Deliver(w, p), p, At(w.position, p))
  {
  }

  lemma {:induction false} InvokeSafe(cfg: Config, base: map<Partition, nat>, w: World, p: Partition, offset: nat)
    requires Safe(cfg, base, w) && InHand(base, w, p, offset)
    ensures var next := w.(history := w.history + [Invoked(p, offset)]);
            Safe(cfg, base, next) && InHand(base, next, p, offset)
  {
    var e := Invoked(p, offset);
    forall q ensures SettledUpTo(w.history + [e], q, At(base, q), At(w.watermark, q)) {
      CoverGrows(w.history, e, q, At(base, q), At(w.watermark, q));
    }
    forall q ensures SettledUpTo(w.history + [e], q, At(base, q), if q == p then offset else At(w.position, q)) {
      CoverGrows(w.history, e, q, At(base, q), if q == p then offset else At(w.position, q));
    }
    if offset > At(base, p) {
      assert SettledUpTo(w.history, p, At(base, p), offset);
      assert SettledIn(w.history, p, offset - 1);
    }
    OrderGrows(base, w.history, e);
    RiseGrows(w.history, e);
  }

  lemma {:induction false} InvokeTimesSafe(
      cfg: Config, base: map<Partition, nat>, w: World, p: Partition, offset: nat, n: nat)
    requires Safe(cfg, base, w) && InHand(base, w, p, offset)
    ensures Safe(cfg, base, InvokeTimes(w, p, offset, n)) && InHand(base, InvokeTimes(w, p, offset, n), p, offset)
    decreases n
  {
    if n == 0 {
    } else {
      InvokeSafe(cfg, base, w, p, offset);
      InvokeTimesSafe(cfg, base, w.(history := w.history + [Invoked(p, offset)]), p, offset, n - 1);
    }
  }

  lemma {:induction false} SettleSafe(
      cfg: Config, base: map<Partition, nat>, w: World, p: Partition, offset: nat, fate: Verdict)
    requires Safe(cfg, base, w) && InHand(base, w, p, offset)
    requires fate in Fates(cfg)
    ensures Safe(cfg, base, Settle(w, p, offset, fate)) && CaughtUp(base, Settle(w, p, offset, fate))
  {
    var e := Settled(p, offset, fate);
    forall q ensures SettledUpTo(w.history + [e], q, At(base, q), At(w.watermark, q)) {
      CoverGrows(w.history, e, q, At(base, q), At(w.watermark, q));
    }
    forall q ensures SettledUpTo(w.history + [e], q, At(base, q), At(w.position, q)) {
      CoverGrows(w.history, e, q, At(base, q), if q == p then offset else At(w.position, q));
    }
    OrderGrows(base, w.history, e);
    RiseGrows(w.history, e);
  }

  lemma {:induction false} CommitSafe(cfg: Config, base: map<Partition, nat>, w: World, p: Partition, offset: nat)
    requires Safe(cfg, base, w) && CaughtUp(base, w) && At(w.watermark, p) <= offset && At(w.position, p) == offset + 1
    ensures Safe(cfg, base, CommitRecord(w, p, offset)) && CaughtUp(base, CommitRecord(w, p, offset))
  {
    var e := Committed(p, offset + 1);
    forall q ensures SettledUpTo(w.history + [e], q, At(base, q), At(w.position, q)) {
      CoverGrows(w.history, e, q, At(base, q), At(w.position, q));
    }
    CommitCovers(base, w, p, offset);
    OrderGrows(base, w.history, e);
    CommitForward(base, w, p, offset);
  }

  lemma {:induction false} CommitCovers(base: map<Partition, nat>, w: World, p: Partition, offset: nat)
    requires Covered(base, w) && CaughtUp(base, w) && At(w.position, p) == offset + 1
    ensures Covered(base, CommitRecord(w, p, offset))
  {
    var e := Committed(p, offset + 1);
    var next := CommitRecord(w, p, offset);
    forall q ensures SettledUpTo(next.history, q, At(base, q), At(next.watermark, q)) {
      CoverGrows(w.history, e, q, At(base, q), At(next.watermark, q));
    }
  }

  lemma {:induction false} RiseGrows(h: seq<Event>, e: Event)
    requires CommitsRise(h) && forall i :: 0 <= i < |h| ==> Follows(h[i], e)
    ensures CommitsRise(h + [e])
  {
  }

  lemma {:induction false} CommitForward(base: map<Partition, nat>, w: World, p: Partition, offset: nat)
    requires Forward(base, w) && At(w.watermark, p) <= offset
    ensures Forward(base, CommitRecord(w, p, offset))
  {
    var next := CommitRecord(w, p, offset);
    var e := Committed(p, offset + 1);
    RiseGrows(w.history, e);
    assert e in next.history;
    forall q | At(next.watermark, q) != At(base, q) ensures Committed(q, At(next.watermark, q)) in next.history {
      if q != p {
        assert Committed(q, At(w.watermark, q)) in w.history;
      }
    }
  }

  lemma {:induction false} ResumeSafe(cfg: Config, base: map<Partition, nat>, w: World)
    requires Safe(cfg, base, w)
    ensures Safe(cfg, base, Resume(w)) && CaughtUp(base, Resume(w))
  {
  }

  /** A record leaves the session caught up, or ends it. */
  lemma {:induction false} RecordSafe(cfg: Config, base: map<Partition, nat>, w: World, d: Delivery)
    requires Safe(cfg, base, w) && CaughtUp(base, w)
    ensures var (next, exit) := RecordStep(cfg, w, d);
            Safe(cfg, base, next) && (exit == GoOn ==> CaughtUp(base, next))
  {
    var p, offset, o := d.partition, At(w.position, d.partition), Process(cfg, d.attempts, d.dlq);
    SettlesWithinFates(cfg, d.attempts, d.dlq);
    DeliverInHand(cfg, base, w, p);
    InvokeTimesSafe(cfg, base, Deliver(w, p), p, offset, o.calls);
    var called := InvokeTimes(Deliver(w, p), p, offset, o.calls);
    if Settles(o.verdict) {
      SettledSafe(cfg, base, called, p, offset, o.verdict);
      var settled := Settle(called, p, offset, o.verdict);
      assert RecordStep(cfg, w, d).0 == if d.commit.Applied? then CommitRecord(settled, p, offset) else settled;
    } else {
      assert RecordStep(cfg, w, d).0 == called && RecordStep(cfg, w, d).1 != GoOn;
    }
  }

  lemma {:induction false} SettledSafe(
      cfg: Config, base: map<Partition, nat>, w: World, p: Partition, offset: nat, fate: Verdict)
    requires Safe(cfg, base, w) && InHand(base, w, p, offset)
    requires fate in Fates(cfg)
    ensures var settled := Settle(w, p, offset, fate);
            && Safe(cfg, base, settled) && CaughtUp(base, settled)
            && Safe(cfg, base, CommitRecord(settled, p, offset)) && CaughtUp(base, CommitRecord(settled, p, offset))
  {
    SettleSafe(cfg, base, w, p, offset, fate);
    CommitSafe(cfg, base, Settle(w, p, offset, fate), p, offset);
  }

  lemma {:induction false} RecordsSafe(cfg: Config, base: map<Partition, nat>, w: World, records: seq<Delivery>)
    requires Safe(cfg, base, w) && CaughtUp(base, w)
    ensures var (next, exit) := RunRecords(cfg, w, records);
            Safe(cfg, base, next) && (exit == GoOn ==> CaughtUp(base, next))
    decreases |records|
  {
    if records == [] {
    } else {
      var (next, exit) := RecordStep(cfg, w, records[0]);
      RecordSafe(cfg, base, w, records[0]);
      if exit == GoOn {
        RecordsSafe(cfg, base, next, records[1..]);
      } else {
        SkipSafe(cfg, base, next, Partitions(records[1..]));
      }
    }
  }

  /** No failed poll carries records. */
  predicate NoSkips(polls: Session) {
    forall i :: 0 <= i < |polls| && polls[i].PollError? ==> polls[i].skipped == []
  }

  lemma {:induction false} PollsSafe(cfg: Config, base: map<Partition, nat>, w: World, polls: Session)
    requires Safe(cfg, base, w) && CaughtUp(base, w) && NoSkips(polls)
    ensures var (next, exit) := RunPolls(cfg, w, polls);
            Safe(cfg, base, next) && (exit == Stopped ==> CaughtUp(base, next))
    decreases |polls|
  {
    if polls == [] {
    } else {
      match polls[0] {
        case PollCancelled =>
        case PollError(skipped) => PollsSafe(cfg, base, w, polls[1..]);
        case Fetched(records) =>
          RecordsSafe(cfg, base, w, records);
          ExitOfRecords(cfg, w, records);
          var (next, exit) := RunRecords(cfg, w, records);
          if exit == GoOn {
            PollsSafe(cfg, base, next, polls[1..]);
          }
      }
    }
  }

  lemma {:induction false} SessionsSafe(cfg: Config, base: map<Partition, nat>, w: World, sessions: seq<Session>)
    requires Safe(cfg, base, w) && forall i :: 0 <= i < |sessions| ==> NoSkips(sessions[i])
    ensures Safe(cfg, base, RunSessions(cfg, w, sessions))
    decreases |sessions|
  {
    if sessions == [] {
    } else {
      ResumeSafe(cfg, base, w);
      PollsSafe(cfg, base, Resume(w), sessions[0]);
      SessionsSafe(cfg, base, RunPolls(cfg, Resume(w), sessions[0]).0, sessions[1..]);
    }
  }

  lemma {:induction false} FreshIsSafe(cfg: Config, base: map<Partition, nat>)
    ensures Safe(cfg, base, Fresh(base)) && CaughtUp(base, Fresh(base))
  {
  }

  // ---- Progress ----

  /** Records of one partition in a fetch. */
  function CountOf(records: seq<Delivery>, p: Partition): nat {
    if records == [] then 0 else (if records[0].partition == p then 1 else 0) + CountOf(records[1..], p)
  }

  /** When every record settles and every commit is applied, a fetch moves the watermark past all its records. */
  lemma {:induction false} CleanFetchAdvances(cfg: Config, w: World, records: seq<Delivery>, p: Partition)
    requires forall i :: 0 <= i < |records| ==>
               Settles(Process(cfg, records[i].attempts, records[i].dlq).verdict) && records[i].commit == Applied
    requires At(w.watermark, p) == At(w.position, p)
    ensures var (end, exit) := RunRecords(cfg, w, records);
            exit == GoOn && At(end.watermark, p) == At(end.position, p) == At(w.position, p) + CountOf(records, p)
    decreases |records|
  {
    if records == [] {
    } else {
      var d := records[0];
      var calls := Process(cfg, d.attempts, d.dlq).calls;
      InvocationsOf(Deliver(w, d.partition), d.partition, At(w.position, d.partition), calls);
      CleanFetchAdvances(cfg, RecordStep(cfg, w, d).0, records[1..], p);
    }
  }

  /** What one record adds to the history, moves and ends. */
  lemma {:induction false} RecordExactly(cfg: Config, w: World, d: Delivery)
    ensures var p, offset := d.partition, At(w.position, d.partition);
            var o := Process(cfg, d.attempts, d.dlq);
            var committed := Settles(o.verdict) && d.commit.Applied?;
            var (next, exit) := RecordStep(cfg, w, d);
            && next.history == w.history + seq(o.calls, _ => Invoked(p, offset))
                               + (if Settles(o.verdict) then [Settled(p, offset, o.verdict)] else [])
                               + (if committed then [Committed(p, offset + 1)] else [])
            && next.position == w.position[p := offset + 1]
            && next.watermark == (if committed then w.watermark[p := offset + 1] else w.watermark)
            && exit == if Passes(cfg, d) then GoOn else EndOf(cfg, d)
  {
    var p, offset := d.partition, At(w.position, d.partition);
    InvocationsOf(Deliver(w, p), p, offset, Process(cfg, d.attempts, d.dlq).calls);
  }

  /** The loop goes on after a record that settles, whether or not its commit takes effect, unless killed there. */
  predicate Passes(cfg: Config, d: Delivery) {
    Settles(Process(cfg, d.attempts, d.dlq).verdict) && !d.commit.Killed?
  }

  /** How a session ends at a record that is not passed. */
  function EndOf(cfg: Config, d: Delivery): Exit {
    var verdict := Process(cfg, d.attempts, d.dlq).verdict;
    if verdict in {Cancelled, DlqFailed, Panicked} then Failed(verdict) else Dead
  }

  /** The first `n` records are passed and no more. */
  predicate PassesExactly(cfg: Config, records: seq<Delivery>, n: nat) {
    && n <= |records|
    && (forall i :: 0 <= i < n ==> Passes(cfg, records[i]))
    && (n < |records| ==> !Passes(cfg, records[n]))
  }

  predicate AppliedOn(d: Delivery, p: Partition) {
    d.partition == p && d.commit.Applied?
  }

  /** One past the last record of a partition whose commit takes effect, or zero. */
  function LastApplied(records: seq<Delivery>, p: Partition): (k: nat)
    ensures k <= |records| && (k > 0 ==> AppliedOn(records[k - 1], p))
    ensures forall i :: k <= i < |records| ==> !AppliedOn(records[i], p)
  {
    if records == [] then
      0
    else
      var k := LastApplied(records[1..], p);
      if k > 0 then k + 1 else if AppliedOn(records[0], p) then 1 else 0
  }

  lemma {:induction false} SkipCounts(w: World, records: seq<Delivery>, p: Partition)
    ensures At(Skip(w, Partitions(records)).position, p) == At(w.position, p) + CountOf(records, p)
    ensures Skip(w, Partitions(records)).watermark == w.watermark
    decreases |records|
  {
    if records == [] {
    } else {
      assert Partitions(records)[1..] == Partitions(records[1..]);
      SkipCounts(Deliver(w, records[0].partition), records[1..], p);
    }
  }

  lemma {:induction false} FetchEnds(cfg: Config, w: World, records: seq<Delivery>, n: nat, p: Partition)
    requires PassesExactly(cfg, records, n)
    ensures var (end, exit) := RunRecords(cfg, w, records);
            && exit == (if n == |records| then GoOn else EndOf(cfg, records[n]))
            && At(end.position, p) == At(w.position, p) + CountOf(records, p)
    decreases |records|
  {
    if records == [] {
    } else {
      var next := RecordStep(cfg, w, records[0]).0;
      RecordExactly(cfg, w, records[0]);
      if n == 0 {
        SkipCounts(next, records[1..], p);
      } else {
        FetchEnds(cfg, next, records[1..], n - 1, p);
      }
    }
  }

  /** Where the commits of the records leave the watermark. */
  function Committing(w: World, records: seq<Delivery>, p: Partition): nat {
    var k := LastApplied(records, p);
    if k == 0 then At(w.watermark, p) else At(w.position, p) + CountOf(records[..k], p)
  }

  lemma {:induction false} CommittingStep(cfg: Config, w: World, records: seq<Delivery>, p: Partition)
    requires records != [] && Passes(cfg, records[0])
    ensures Committing(w, records, p) == Committing(RecordStep(cfg, w, records[0]).0, records[1..], p)
  {
    RecordExactly(cfg, w, records[0]);
    var k, later := LastApplied(records, p), LastApplied(records[1..], p);
    if k > 0 {
      assert k == later + 1;
      assert records[..k][0] == records[0] && records[..k][1..] == records[1..][..later];
    }
  }

  lemma {:induction false} FetchCommits(cfg: Config, w: World, records: seq<Delivery>, n: nat, p: Partition)
    requires PassesExactly(cfg, records, n)
    ensures At(RunRecords(cfg, w, records).0.watermark, p) == Committing(w, records[..n], p)
    decreases |records|
  {
    if records == [] {
    } else {
      var next := RecordStep(cfg, w, records[0]).0;
      RecordExactly(cfg, w, records[0]);
      if n == 0 {
        SkipCounts(next, records[1..], p);
      } else {
        FetchCommits(cfg, next, records[1..], n - 1, p);
        assert records[..n][1..] == records[1..][..n - 1];
        CommittingStep(cfg, w, records[..n], p);
      }
    }
  }

  /**
    A fetch, exactly: it goes on past failed commits and ends at the first record that is not passed;
    the client is past all its records in any case, and the watermark is one past the last record
    whose commit took effect, which covers every failed commit before it.
   */
  lemma {:induction false} FetchExactly(cfg: Config, w: World, records: seq<Delivery>, n: nat, p: Partition)
    requires PassesExactly(cfg, records, n)
    ensures var (end, exit) := RunRecords(cfg, w, records);
            var k := LastApplied(records[..n], p);
            && exit == (if n == |records| then GoOn else EndOf(cfg, records[n]))
            && At(end.position, p) == At(w.position, p) + CountOf(records, p)
            && At(end.watermark, p)
               == if k == 0 then At(w.watermark, p) else At(w.position, p) + CountOf(records[..k], p)
  {
    FetchEnds(cfg, w, records, n, p);
    FetchCommits(cfg, w, records, n, p);
    var k := LastApplied(records[..n], p);
    assert records[..n][..k] == records[..k];
  }

  // ---- How records are batched does not matter ----

  /** The records delivered before the first cancelled poll, in order. */
  function Flat(polls: Session): seq<Delivery> {
    if polls == [] then
      []
    else
      match polls[0]
      case PollCancelled => []
      case PollError(_) => Flat(polls[1..])
      case Fetched(records) => records + Flat(polls[1..])
  }

  predicate SameEffect(v: World, w: World) {
    v.history == w.history && v.watermark == w.watermark
  }

  lemma {:induction false} RecordsAppend(cfg: Config, w: World, first: seq<Delivery>, second: seq<Delivery>)
    ensures var (mid, exit) := RunRecords(cfg, w, first);
            var (end, last) := RunRecords(cfg, w, first + second);
            if exit == GoOn then (end, last) == RunRecords(cfg, mid, second) else SameEffect(end, mid) && last == exit
    decreases |first|
  {
    if first == [] {
      assert first + second == second;
    } else {
      var next := RecordStep(cfg, w, first[0]).0;
      assert (first + second)[1..] == first[1..] + second;
      RecordsAppend(cfg, next, first[1..], second);
      SkipFrame(next, Partitions(first[1..]), 0);
      SkipFrame(next, Partitions(first[1..] + second), 0);
    }
  }

  /** A session ends as its records do or, when all are passed, stopped if a poll was cancelled. */
  ghost predicate EndsAs(polls: Session, exit: Exit, last: Exit) {
    exit == if last != GoOn then last
            else if exists i :: 0 <= i < |polls| && polls[i].PollCancelled? then Stopped
            else Dead
  }

  /** A session does what one fetch of all its records would do. */
  lemma {:induction false} BatchesDoNotMatter(cfg: Config, w: World, polls: Session)
    requires NoSkips(polls)
    ensures var (end, exit) := RunPolls(cfg, w, polls);
            var (all, last) := RunRecords(cfg, w, Flat(polls));
            && SameEffect(end, all) && (last == GoOn ==> end.position == all.position)
            && EndsAs(polls, exit, last)
    decreases |polls|
  {
    if polls == [] || polls[0].PollCancelled? {
      assert RunRecords(cfg, w, Flat(polls)) == (w, GoOn);
    } else if polls[0].PollError? {
      CancelLater(polls);
      BatchesDoNotMatter(cfg, w, polls[1..]);
    } else {
      CancelLater(polls);
      var next := RunRecords(cfg, w, polls[0].records).0;
      RecordsAppend(cfg, w, polls[0].records, Flat(polls[1..]));
      BatchesDoNotMatter(cfg, next, polls[1..]);
    }
  }

  lemma {:induction false} CancelLater(polls: Session)
    requires polls != [] && !polls[0].PollCancelled?
    ensures (exists i :: 0 <= i < |polls| && polls[i].PollCancelled?)
       <==> exists i :: 0 <= i < |polls[1..]| && polls[1..][i].PollCancelled?
  {
    if i :| 0 <= i < |polls| && polls[i].PollCancelled? {
      assert polls[1..][i - 1].PollCancelled?;
    }
  }

  // ---- Results over whole lives ----

  /** Every run keeps records covered, fates allowed, processing in order and commits moving forward. */
  lemma {:induction false} EveryRunIsSafe(cfg: Config, base: map<Partition, nat>, sessions: seq<Session>)
    requires forall i :: 0 <= i < |sessions| ==> NoSkips(sessions[i])
    ensures Safe(cfg, base, RunSessions(cfg, Fresh(base), sessions))
  {
    FreshIsSafe(cfg, base);
    SessionsSafe(cfg, base, Fresh(base), sessions);
  }

  /** The last settlement of a record decides what became of it. */
  function LastFate(h: seq<Event>, p: Partition, offset: nat): Verdict {
    if h == [] then
      Running
    else
      var last := h[|h| - 1];
      if last.Settled? && last.partition == p && last.offset == offset then last.fate
      else LastFate(h[..|h| - 1], p, offset)
  }

  lemma {:induction false} LastFateIsAllowed(cfg: Config, h: seq<Event>, p: Partition, offset: nat)
    requires FatesAllowed(cfg, h) && SettledIn(h, p, offset)
    ensures LastFate(h, p, offset) in Fates(cfg)
    decreases |h|
  {
    var last := h[|h| - 1];
    assert last in h;
    if !(last.Settled? && last.partition == p && last.offset == offset) {
      var e :| e in h && e.Settled? && e.partition == p && e.offset == offset;
      assert h == h[..|h| - 1] + [last];
      assert e in h[..|h| - 1];
      LastFateIsAllowed(cfg, h[..|h| - 1], p, offset);
    }
  }

  /**
    Over every life with handler failures, dead-letter failures, a missing producer, failed commits,
    crashes and restarts: each committed offset was handled or, with limited retries, dead-lettered
    or in permissive mode dropped.
   */
  lemma {:induction false} CommittedMeansSettled(
      cfg: Config, base: map<Partition, nat>, sessions: seq<Session>, p: Partition, offset: nat)
    requires forall i :: 0 <= i < |sessions| ==> NoSkips(sessions[i])
    requires At(base, p) <= offset < At(RunSessions(cfg, Fresh(base), sessions).watermark, p)
    ensures var fate := LastFate(RunSessions(cfg, Fresh(base), sessions).history, p, offset);
            fate in Fates(cfg) && (cfg.strict ==> fate != Dropped)
  {
    EveryRunIsSafe(cfg, base, sessions);
    LastFateIsAllowed(cfg, RunSessions(cfg, Fresh(base), sessions).history, p, offset);
  }

  // ---- Going on with the same client ----

  /** Everything committed since `base` was settled. */
  ghost predicate NothingLost(base: map<Partition, nat>, w: World) {
    forall p: Partition :: SettledUpTo(w.history, p, At(base, p), At(w.watermark, p))
  }

  /** However a client at `w` goes on polling, nothing is lost. */
  ghost predicate SafeToGoOn(cfg: Config, base: map<Partition, nat>, w: World) {
    forall rest: Session | NoSkips(rest) :: NothingLost(base, RunPolls(cfg, w, rest).0)
  }

  /** The record the next poll delivers, handled at once and committed. */
  function NextHandled(p: Partition): Session {
    [Fetched([Delivery(p, [Attempt(false, Succeeded, false)], Succeeded, Applied)])]
  }

  /** A record that is behind the fetch position and not settled is lost by the next commit on its partition. */
  lemma {:induction false} GapIsLost(cfg: Config, base: map<Partition, nat>, w: World, p: Partition, o: nat)
    requires At(base, p) <= o < At(w.position, p) && !SettledIn(w.history, p, o)
    ensures NoSkips(NextHandled(p)) && !NothingLost(base, RunPolls(cfg, w, NextHandled(p)).0)
  {
    var d := NextHandled(p)[0].records[0];
    var offset := At(w.position, p);
    OneRecordSession(cfg, w, d);
    assert Process(cfg, d.attempts, d.dlq) == Outcome(Handled, 1, 0, []);
    InvocationsOf(Deliver(w, p), p, offset, 1);
    var end := RecordStep(cfg, w, d).0;
    assert end.history == w.history + [Invoked(p, offset)] + [Settled(p, offset, Handled)] + [Committed(p, offset + 1)];
    assert !SettledIn(end.history, p, o);
  }

  /** Polling can go on without loss exactly when everything handed out before is settled. */
  lemma {:induction false} GoOnExactly(cfg: Config, base: map<Partition, nat>, w: World)
    requires Safe(cfg, base, w)
    ensures SafeToGoOn(cfg, base, w) <==> CaughtUp(base, w)
  {
    if CaughtUp(base, w) {
      forall rest: Session | NoSkips(rest) ensures NothingLost(base, RunPolls(cfg, w, rest).0) {
        PollsSafe(cfg, base, w, rest);
      }
    } else {
      var p: Partition, o: nat :| At(base, p) <= o < At(w.position, p) && !SettledIn(w.history, p, o);
      GapIsLost(cfg, base, w, p, o);
    }
  }

  lemma {:induction false} SkipFrame(w: World, skipped: seq<Partition>, p: Partition)
    ensures At(w.position, p) + (if p in skipped then 1 else 0) <= At(Skip(w, skipped).position, p)
    ensures Skip(w, skipped).history == w.history && Skip(w, skipped).watermark == w.watermark
    decreases |skipped|
  {
    if skipped == [] {
    } else {
      SkipFrame(Deliver(w, skipped[0]), skipped[1..], p);
    }
  }

  lemma {:induction false} SkipSafe(cfg: Config, base: map<Partition, nat>, w: World, skipped: seq<Partition>)
    requires Safe(cfg, base, w)
    ensures Safe(cfg, base, Skip(w, skipped))
  {
    SkipFrame(w, skipped, 0);
    forall p ensures At(w.watermark, p) <= At(Skip(w, skipped).position, p) {
      SkipFrame(w, skipped, p);
    }
  }

  /** The records that a failed poll passed over had been settled before it. */
  ghost predicate SkippedWereSettled(w: World, skipped: seq<Partition>) {
    forall p: Partition :: SettledUpTo(w.history, p, At(w.position, p), At(Skip(w, skipped).position, p))
  }

  /**
    At every point of a life, a failed poll cannot lead to a loss exactly when all the records it
    passed over had been settled already; when none ahead of the client has been, exactly when it
    passed over none.
   */
  lemma {:induction false} FailedPollExactly(cfg: Config, base: map<Partition, nat>, w: World, skipped: seq<Partition>)
    requires Safe(cfg, base, w) && CaughtUp(base, w)
    ensures (forall rest: Session | NoSkips(rest) :: NothingLost(base, RunPolls(cfg, w, [PollError(skipped)] + rest).0))
        <==> SkippedWereSettled(w, skipped)
    ensures NothingAhead(w) ==> (SkippedWereSettled(w, skipped) <==> skipped == [])
  {
    var after := Skip(w, skipped);
    SkipSafe(cfg, base, w, skipped);
    GoOnExactly(cfg, base, after);
    forall rest: Session ensures RunPolls(cfg, w, [PollError(skipped)] + rest) == RunPolls(cfg, after, rest) {
      assert ([PollError(skipped)] + rest)[1..] == rest;
    }
    forall p ensures At(base, p) <= At(w.position, p) <= At(after.position, p) && after.history == w.history {
      SkipFrame(w, skipped, p);
    }
    if NothingAhead(w) && skipped != [] {
      SkipFrame(w, skipped, skipped[0]);
      assert !SettledIn(w.history, skipped[0], At(w.position, skipped[0]));
    }
  }

  /** Nothing at or after the fetch position has been settled, as in a first session. */
  ghost predicate NothingAhead(w: World) {
    forall e :: e in w.history && e.Settled? ==> e.offset < At(w.position, e.partition)
  }

  /** A session that ends with a record in hand leaves that record unsettled. */
  lemma {:induction false} RecordAhead(cfg: Config, base: map<Partition, nat>, w: World, d: Delivery)
    requires NothingAhead(w) && At(base, d.partition) <= At(w.position, d.partition)
    ensures var (next, exit) := RecordStep(cfg, w, d);
            && NothingAhead(next) && (exit.Failed? ==> !CaughtUp(base, next))
  {
    var p, offset := d.partition, At(w.position, d.partition);
    var o := Process(cfg, d.attempts, d.dlq);
    var called := InvokeTimes(Deliver(w, p), p, offset, o.calls);
    CalledAhead(w, p, o.calls);
    var (next, exit) := RecordStep(cfg, w, d);
    if Settles(o.verdict) {
      SettledAhead(called, p, offset, o.verdict);
      assert next in {Settle(called, p, offset, o.verdict),
                      CommitRecord(Settle(called, p, offset, o.verdict), p, offset)};
    } else {
      assert next == called;
      assert !SettledUpTo(next.history, p, At(base, p), At(next.position, p));
    }
  }

  lemma {:induction false} SettledAhead(w: World, p: Partition, offset: nat, fate: Verdict)
    requires NothingAhead(w) && offset < At(w.position, p)
    ensures var settled := Settle(w, p, offset, fate);
            NothingAhead(settled) && NothingAhead(CommitRecord(settled, p, offset))
  {
  }

  lemma {:induction false} CalledAhead(w: World, p: Partition, calls: nat)
    requires NothingAhead(w)
    ensures var called := InvokeTimes(Deliver(w, p), p, At(w.position, p), calls);
            && NothingAhead(called) && called.position == Deliver(w, p).position
            && !SettledIn(called.history, p, At(w.position, p))
  {
    InvocationsOf(Deliver(w, p), p, At(w.position, p), calls);
  }

  lemma {:induction false} SkipAhead(base: map<Partition, nat>, w: World, skipped: seq<Partition>)
    ensures NothingAhead(w) ==> NothingAhead(Skip(w, skipped))
    ensures !CaughtUp(base, w) ==> !CaughtUp(base, Skip(w, skipped))
    decreases |skipped|
  {
    if skipped == [] {
    } else {
      SkipAhead(base, Deliver(w, skipped[0]), skipped[1..]);
    }
  }

  lemma {:induction false} RecordsAhead(cfg: Config, base: map<Partition, nat>, w: World, records: seq<Delivery>)
    requires Safe(cfg, base, w) && CaughtUp(base, w) && NothingAhead(w)
    ensures var (next, exit) := RunRecords(cfg, w, records);
            && NothingAhead(next) && (exit.Failed? ==> !CaughtUp(base, next))
    decreases |records|
  {
    if records == [] {
    } else {
      var (next, exit) := RecordStep(cfg, w, records[0]);
      RecordSafe(cfg, base, w, records[0]);
      RecordAhead(cfg, base, w, records[0]);
      if exit == GoOn {
        RecordsAhead(cfg, base, next, records[1..]);
      } else {
        SkipAhead(base, next, Partitions(records[1..]));
      }
    }
  }

  lemma {:induction false} PollsAhead(cfg: Config, base: map<Partition, nat>, w: World, polls: Session)
    requires Safe(cfg, base, w) && CaughtUp(base, w) && NothingAhead(w) && NoSkips(polls)
    ensures var (next, exit) := RunPolls(cfg, w, polls);
            && NothingAhead(next) && (exit.Failed? ==> !CaughtUp(base, next))
    decreases |polls|
  {
    if polls == [] {
    } else {
      match polls[0] {
        case PollCancelled =>
        case PollError(skipped) => PollsAhead(cfg, base, w, polls[1..]);
        case Fetched(records) =>
          RecordsSafe(cfg, base, w, records);
          RecordsAhead(cfg, base, w, records);
          var (next, exit) := RunRecords(cfg, w, records);
          if exit == GoOn {
            PollsAhead(cfg, base, next, polls[1..]);
          }
      }
    }
  }

  /**
    When `Start` has returned or panicked, starting the same client again loses nothing exactly after a
    return of nil.
   */
  lemma {:induction false} SecondStartExactly(cfg: Config, base: map<Partition, nat>, polls: Session)
    requires NoSkips(polls) && RunPolls(cfg, Fresh(base), polls).1 != Dead
    ensures var (end, exit) := RunPolls(cfg, Fresh(base), polls);
            SafeToGoOn(cfg, base, end) <==> exit == Stopped
  {
    FreshIsSafe(cfg, base);
    PollsSafe(cfg, base, Fresh(base), polls);
    PollsAhead(cfg, base, Fresh(base), polls);
    ExitOfPolls(cfg, Fresh(base), polls);
    GoOnExactly(cfg, base, RunPolls(cfg, Fresh(base), polls).0);
  }

  lemma {:induction false} ExitOfRecords(cfg: Config, w: World, records: seq<Delivery>)
    ensures !RunRecords(cfg, w, records).1.Stopped?
    decreases |records|
  {
    if records == [] {
    } else {
      ExitOfRecords(cfg, RecordStep(cfg, w, records[0]).0, records[1..]);
    }
  }

  lemma {:induction false} ExitOfPolls(cfg: Config, w: World, polls: Session)
    ensures !RunPolls(cfg, w, polls).1.GoOn?
    decreases |polls|
  {
    if polls == [] {
    } else {
      match polls[0]
      case PollCancelled =>
      case PollError(skipped) => ExitOfPolls(cfg, Skip(w, skipped), polls[1..]);
      case Fetched(records) => ExitOfPolls(cfg, RunRecords(cfg, w, records).0, polls[1..]);
    }
  }

  // ---- Two fates of one record ----

  /** Some life settles one record twice, with two fates. */
  ghost predicate FatesMayDiffer(cfg: Config, base: map<Partition, nat>) {
    exists sessions: seq<Session>, p: Partition, o: nat, fate: Verdict, other: Verdict ::
      && (forall i :: 0 <= i < |sessions| ==> NoSkips(sessions[i])) && fate != other
      && Settled(p, o, fate) in RunSessions(cfg, Fresh(base), sessions).history
      && Settled(p, o, other) in RunSessions(cfg, Fresh(base), sessions).history
  }

  /** One record of a partition, settled with the given fate, whose commit fails. */
  function Uncommitted(cfg: Config, p: Partition, fate: Verdict): Session {
    [Fetched([Delivery(p, Leading(cfg, fate).0, Leading(cfg, fate).1, NoEffect)])]
  }

  lemma {:induction false} UncommittedSettles(cfg: Config, w: World, p: Partition, fate: Verdict)
    requires fate in Fates(cfg)
    ensures var end := RunPolls(cfg, w, Uncommitted(cfg, p, fate)).0;
            && end.watermark == w.watermark && Settled(p, At(w.position, p), fate) in end.history
            && forall e :: e in w.history && e.Settled? ==> e in end.history
  {
    var d := Uncommitted(cfg, p, fate)[0].records[0];
    FatesAreMet(cfg, fate);
    OneRecordSession(cfg, w, d);
    InvocationsOf(Deliver(w, p), p, At(w.position, p), Process(cfg, d.attempts, d.dlq).calls);
  }

  /** A redelivered record can meet two fates exactly when retries are limited and failing them can settle a record. */
  lemma {:induction false} FatesDifferExactly(cfg: Config, base: map<Partition, nat>)
    ensures FatesMayDiffer(cfg, base) <==> cfg.maxRetries > 0 && (!cfg.strict || cfg.hasDlq)
  {
    if cfg.maxRetries > 0 && (!cfg.strict || cfg.hasDlq) {
      var fate := if cfg.hasDlq then DeadLettered else Dropped;
      var sessions := [Uncommitted(cfg, 0, fate), Uncommitted(cfg, 0, Handled)];
      var first := RunPolls(cfg, Resume(Fresh(base)), sessions[0]).0;
      UncommittedSettles(cfg, Resume(Fresh(base)), 0, fate);
      UncommittedSettles(cfg, Resume(first), 0, Handled);
      TwoSessions(cfg, Fresh(base), sessions);
    } else {
      assert Fates(cfg) == {Handled};
      forall sessions: seq<Session> | forall i :: 0 <= i < |sessions| ==> NoSkips(sessions[i])
        ensures FatesAllowed(cfg, RunSessions(cfg, Fresh(base), sessions).history)
      {
        EveryRunIsSafe(cfg, base, sessions);
      }
    }
  }

  lemma {:induction false} TwoSessions(cfg: Config, w: World, sessions: seq<Session>)
    requires |sessions| == 2
    ensures var first := RunPolls(cfg, Resume(w), sessions[0]).0;
            RunSessions(cfg, w, sessions) == RunPolls(cfg, Resume(first), sessions[1]).0
  {
    var first := RunPolls(cfg, Resume(w), sessions[0]).0;
    var second := RunPolls(cfg, Resume(first), sessions[1]).0;
    assert sessions[1..][0] == sessions[1] && sessions[1..][1..] == [];
    assert RunSessions(cfg, second, []) == second;
    assert RunSessions(cfg, first, sessions[1..]) == second;
  }

  lemma {:induction false} OneRecordSession(cfg: Config, w: World, d: Delivery)
    ensures RunPolls(cfg, w, [Fetched([d])]).0 == RecordStep(cfg, w, d).0
  {
    var (next, exit) := RecordStep(cfg, w, d);
    var polls: Session := [Fetched([d])];
    assert [d][1..] == [] && polls[1..] == [] && Partitions([]) == [];
    assert RunRecords(cfg, next, []) == (next, GoOn);
    assert Skip(next, []) == next;
    assert RunRecords(cfg, w, [d]) == (next, exit);
    assert RunPolls(cfg, next, []) == (next, Dead);
    assert polls[0] == Fetched([d]);
  }

  // ---- The process can be killed anywhere ----

  /** A record's processing can be cut after any event of it. */
  lemma {:induction false} RecordCut(cfg: Config, w: World, d: Delivery, k: nat) returns (cut: Delivery)
    requires |w.history| <= k < |RecordStep(cfg, w, d).0.history|
    ensures RecordStep(cfg, w, cut).0.history == RecordStep(cfg, w, d).0.history[..k]
    ensures RecordStep(cfg, w, cut).1 == Dead
  {
    var p, offset, o := d.partition, At(w.position, d.partition), Process(cfg, d.attempts, d.dlq);
    InvocationsOf(Deliver(w, p), p, offset, o.calls);
    var calls := k - |w.history|;
    if calls <= o.calls {
      ProcessIsExact(cfg, d.attempts, d.dlq);
      CutsAreOutcomes(cfg, d.attempts, d.dlq, calls);
      InvocationsOf(Deliver(w, p), p, offset, calls);
      cut := d.(attempts := CutAfter(d.attempts, calls));
    } else {
      cut := d.(commit := Killed);
    }
  }

  lemma {:induction false} RecordExtends(cfg: Config, w: World, d: Delivery)
    ensures w.history <= RecordStep(cfg, w, d).0.history
  {
    var p, offset, o := d.partition, At(w.position, d.partition), Process(cfg, d.attempts, d.dlq);
    InvocationsOf(Deliver(w, p), p, offset, o.calls);
  }

  lemma {:induction false} RecordsExtend(cfg: Config, w: World, records: seq<Delivery>)
    ensures w.history <= RunRecords(cfg, w, records).0.history
    decreases |records|
  {
    if records == [] {
    } else {
      var (next, exit) := RecordStep(cfg, w, records[0]);
      RecordExtends(cfg, w, records[0]);
      RecordsExtend(cfg, next, records[1..]);
      SkipFrame(next, Partitions(records[1..]), 0);
    }
  }

  lemma {:induction false} PollsExtend(cfg: Config, w: World, polls: Session)
    ensures w.history <= RunPolls(cfg, w, polls).0.history
    decreases |polls|
  {
    if polls == [] {
    } else {
      match polls[0]
      case PollCancelled =>
      case PollError(skipped) =>
        SkipFrame(w, skipped, 0);
        PollsExtend(cfg, Skip(w, skipped), polls[1..]);
      case Fetched(records) =>
        RecordsExtend(cfg, w, records);
        PollsExtend(cfg, RunRecords(cfg, w, records).0, polls[1..]);
    }
  }

  lemma {:induction false} SessionsExtend(cfg: Config, w: World, sessions: seq<Session>)
    ensures w.history <= RunSessions(cfg, w, sessions).history
    decreases |sessions|
  {
    if sessions == [] {
    } else {
      var next := RunPolls(cfg, Resume(w), sessions[0]).0;
      PollsExtend(cfg, Resume(w), sessions[0]);
      SessionsExtend(cfg, next, sessions[1..]);
    }
  }

  lemma {:induction false} RecordsCut(
      cfg: Config, w: World, records: seq<Delivery>, k: nat) returns (cut: seq<Delivery>)
    requires |w.history| <= k < |RunRecords(cfg, w, records).0.history|
    ensures RunRecords(cfg, w, cut).0.history == RunRecords(cfg, w, records).0.history[..k]
    ensures RunRecords(cfg, w, cut).1 == Dead
    decreases |records|
  {
    var d := records[0];
    var (next, exit) := RecordStep(cfg, w, d);
    RecordsExtend(cfg, next, records[1..]);
    SkipFrame(next, Partitions(records[1..]), 0);
    if k < |next.history| {
      var last := RecordCut(cfg, w, d, k);
      cut := [last];
      SkipFrame(RecordStep(cfg, w, last).0, Partitions(cut[1..]), 0);
    } else {
      var rest := RecordsCut(cfg, next, records[1..], k);
      cut := [d] + rest;
      assert cut[1..] == rest;
    }
  }

  lemma {:induction false} PollsCut(cfg: Config, w: World, polls: Session, k: nat) returns (cut: Session)
    requires NoSkips(polls) && |w.history| <= k < |RunPolls(cfg, w, polls).0.history|
    ensures NoSkips(cut) && RunPolls(cfg, w, cut).0.history == RunPolls(cfg, w, polls).0.history[..k]
    decreases |polls|
  {
    var poll := polls[0];
    if poll.PollError? {
      var rest := PollsCut(cfg, w, polls[1..], k);
      cut := [poll] + rest;
      assert cut[1..] == rest;
    } else {
      var next := RunRecords(cfg, w, poll.records).0;
      PollsExtend(cfg, next, polls[1..]);
      if k < |next.history| {
        var records := RecordsCut(cfg, w, poll.records, k);
        cut := [Fetched(records)];
      } else {
        var rest := PollsCut(cfg, next, polls[1..], k);
        cut := [poll] + rest;
        assert cut[1..] == rest;
      }
    }
  }

  ghost predicate IsLife(cfg: Config, w: World, h: seq<Event>) {
    exists sessions: seq<Session> ::
      (forall i :: 0 <= i < |sessions| ==> NoSkips(sessions[i])) && RunSessions(cfg, w, sessions).history == h
  }

  lemma {:induction false} KilledInFirst(cfg: Config, w: World, session: Session, k: nat)
    requires NoSkips(session) && |w.history| <= k < |RunPolls(cfg, Resume(w), session).0.history|
    ensures IsLife(cfg, w, RunPolls(cfg, Resume(w), session).0.history[..k])
  {
    var cut := PollsCut(cfg, Resume(w), session, k);
    var end := RunPolls(cfg, Resume(w), cut).0;
    assert [cut][1..] == [] && RunSessions(cfg, end, []) == end;
    assert RunSessions(cfg, w, [cut]).history == end.history;
  }

  lemma {:induction false} KilledLater(cfg: Config, w: World, session: Session, h: seq<Event>)
    requires NoSkips(session) && IsLife(cfg, RunPolls(cfg, Resume(w), session).0, h)
    ensures IsLife(cfg, w, h)
  {
    var next := RunPolls(cfg, Resume(w), session).0;
    var rest: seq<Session> :|
      (forall i :: 0 <= i < |rest| ==> NoSkips(rest[i])) && RunSessions(cfg, next, rest).history == h;
    assert ([session] + rest)[1..] == rest;
    assert RunSessions(cfg, w, [session] + rest).history == h;
  }

  /**
    What a life has recorded at any moment is again what a life records: the process can be killed after
    every event.
   */
  lemma {:induction false} KilledAnywhere(cfg: Config, w: World, sessions: seq<Session>, k: nat)
    requires forall i :: 0 <= i < |sessions| ==> NoSkips(sessions[i])
    requires |w.history| <= k <= |RunSessions(cfg, w, sessions).history|
    ensures IsLife(cfg, w, RunSessions(cfg, w, sessions).history[..k])
    decreases |sessions|
  {
    var h := RunSessions(cfg, w, sessions).history;
    if k == |h| {
      assert h[..k] == h;
    } else {
      var next := RunPolls(cfg, Resume(w), sessions[0]).0;
      SessionsExtend(cfg, next, sessions[1..]);
      if k < |next.history| {
        KilledInFirst(cfg, w, sessions[0], k);
        assert next.history[..k] == h[..k];
      } else {
        KilledAnywhere(cfg, next, sessions[1..], k);
        KilledLater(cfg, w, sessions[0], h[..k]);
      }
    }
  }

  // ---- The consumer, updating the broker's state in place ----

  class KafkaConsumer {
    const cfg: Config
    var watermark: map<Partition, nat>
    var position: map<Partition, nat>
    ghost var history: seq<Event>

    ghost function Now(): World
      reads this
    {
      World(watermark, position, history)
    }

    /** A consumer joins with the defaults filled in, and fetches from the group's committed offsets. */
    constructor (cfg: Config, ghost past: World, committed: map<Partition, nat>)
      requires committed == past.watermark
      ensures this.cfg == WithDefaults(cfg) && Now() == Resume(past)
      ensures this.cfg.initialBackoff == if cfg.initialBackoff == 0 then 100_000_000 else cfg.initialBackoff
      ensures this.cfg.maxBackoff == if cfg.maxBackoff == 0 then 30_000_000_000 else cfg.maxBackoff
      ensures this.cfg.dlqTopic == if cfg.maxRetries > 0 && cfg.dlqTopic == "" then cfg.topic + ".dlq" else cfg.dlqTopic
      ensures this.cfg == cfg.(initialBackoff := this.cfg.initialBackoff, maxBackoff := this.cfg.maxBackoff,
                               dlqTopic := this.cfg.dlqTopic)
    {
      this.cfg := WithDefaults(cfg);
      watermark, position, history := committed, committed, past.history;
    }

    /** The record at the fetch position: process, then commit and go on whether or not that worked. */
    method HandleRecord(d: Delivery) returns (exit: Exit)
      modifies this
      ensures (Now(), exit) == RecordStep(cfg, old(Now()), d)
    {
      var offset := At(position, d.partition);
      position := position[d.partition := offset + 1];
      var o := ProcessWithRetry(cfg, d.attempts, d.dlq);
      InvocationsOf(Now(), d.partition, offset, o.calls);
      history := InvokeTimes(Now(), d.partition, offset, o.calls).history;
      if !Settles(o.verdict) {
        return if o.verdict == Running then Dead else Failed(o.verdict);
      }
      history := history + [Settled(d.partition, offset, o.verdict)];
      if d.commit.Killed? {
        return Dead;
      }
      if d.commit.Applied? {
        watermark := watermark[d.partition := offset + 1];
        history := history + [Committed(d.partition, offset + 1)];
      }
      return GoOn;
    }

    /** The poll loop, from wherever the client's fetch position is. */
    method Start(polls: Session) returns (exit: Exit)
      modifies this
      ensures (Now(), exit) == RunPolls(cfg, old(Now()), polls)
    {
      var i := 0;
      while i < |polls|
        invariant 0 <= i <= |polls|
        invariant RunPolls(cfg, old(Now()), polls) == RunPolls(cfg, Now(), polls[i..])
      {
        assert polls[i..][0] == polls[i] && polls[i..][1..] == polls[i + 1..];
        match polls[i] {
          case PollCancelled => return Stopped;
          case PollError(skipped) => Fetch(skipped);
          case Fetched(records) =>
            ghost var fetched := Now();
            var j := 0;
            while j < |records|
              invariant 0 <= j <= |records|
              invariant RunRecords(cfg, fetched, records) == RunRecords(cfg, Now(), records[j..])
            {
              assert records[j..][0] == records[j] && records[j..][1..] == records[j + 1..];
              exit := HandleRecord(records[j]);
              if exit != GoOn {
                Fetch(Partitions(records[j + 1..]));
                return exit;
              }
              j := j + 1;
            }
        }
        i := i + 1;
      }
      return Dead;
    }

    /** The client's fetch position moves past records the loop never looks at. */
    method Fetch(skipped: seq<Partition>)
      modifies this
      ensures Now() == Skip(old(Now()), skipped)
    {
      var i := 0;
      while i < |skipped|
        invariant 0 <= i <= |skipped|
        invariant Skip(old(Now()), skipped) == Skip(Now(), skipped[i..])
      {
        assert skipped[i..][0] == skipped[i] && skipped[i..][1..] == skipped[i + 1..];
        position := position[skipped[i] := At(position, skipped[i]) + 1];
        i := i + 1;
      }
    }
  }
}
