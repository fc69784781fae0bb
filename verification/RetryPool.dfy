/**
 * Which jobs the cron's pool admits, and when (adapters/sql/stores.ts, listRetriable), told by the
 * fields of the row and by the events that have written it.
 */
module RetryPool {
  import opened RetryBudget
  import opened Wrappers

  // --- When a row was last written ---

  /** Whether an event writes the row. A tick's turn writes when it has sent the message, or gives the job up. */
  predicate Writes(s: State, e: Event) {
    match e
    case Reads(_) => false
    case Lists(_, _) => false
    case Reports(t, _, _) => t in s.read
    case UserRetries(t, _) => t in s.read
    case Touches(t, _) => t in s.read
    case Handles(t, _, delivery) =>
      t in s.listed && (delivery == Delivered || (delivery in {NoMessage, NotSent} && OutOfRetries(s.listed[t].job)))
  }

  /** Five retries on record, and no counter past its marker. */
  predicate OutOfRetries(job: Job) {
    CountOf(job.retryCount) >= 5 && !Moved(job)
  }

  /** A counter that was never written counts as zero. */
  function CountOf(counter: Option<nat>): nat {
    match counter
    case None => 0
    case Some(n) => n
  }

  predicate Moved(job: Job) {
    CountOf(job.fileCount) > CountOf(job.retryFileCount) || CountOf(job.extractedSize) > CountOf(job.retryExtractedSize)
  }

  /** The time of the last event that wrote the row, or `first` if none did. */
  function LastWrite(s: State, events: seq<Event>, first: int): int
    decreases |events|
  {
    if |events| == 0 then first
    else LastWrite(After(s, events[0]), events[1..], if Writes(s, events[0]) then TimeOf(events[0]) else first)
  }

  function TimeOf(e: Event): int {
    if e.Reads? then 0 else e.now
  }

  lemma WriteIsDated(s: State, e: Event)
    ensures After(s, e).row.job.updatedAt == if Writes(s, e) then TimeOf(e) else s.row.job.updatedAt
    ensures !Writes(s, e) ==> After(s, e).row == s.row
  {
  }

  /** In every run the row is dated by the last event that wrote it. */
  lemma {:induction false} RowIsDated(s: State, events: seq<Event>)
    ensures Run(s, events).row.job.updatedAt == LastWrite(s, events, s.row.job.updatedAt)
    decreases |events|
  {
    hide After, Writes;
    if |events| > 0 {
      WriteIsDated(s, events[0]);
      RowIsDated(After(s, events[0]), events[1..]);
    }
  }

  // --- What is listed ---

  /** What the query asks of a row: a status, a time of the last write, and a budget or some progress. */
  predicate Admitted(job: Job, lastWrite: int, now: int, stuckThreshold: nat) {
    && (job.status == Failed || ((job.status == Pending || job.status == Running) && now - lastWrite > stuckThreshold))
    && (CountOf(job.retryCount) <= 5 || Moved(job))
  }

  /**
   * After every run a tick lists the row if and only if it is failed, or pending or running with its last write
   * more than `stuckThreshold` ago, and has budget left or a counter past its marker.
   */
  lemma ListsExactly(s: State, events: seq<Event>, ticket: nat, now: int, stuckThreshold: nat)
    ensures
      var end := Run(s, events);
      Enabled(end, Lists(ticket, now), stuckThreshold)
      <==> ticket !in end.listed && Admitted(end.row.job, LastWrite(s, events, s.row.job.updatedAt), now, stuckThreshold)
  {
    RowIsDated(s, events);
  }

  // --- A finished job ---

  /** No request writes the row. */
  predicate NoRequestWrites(events: seq<Event>) {
    forall e | e in events :: !e.Reports? && !e.UserRetries? && !e.Touches?
  }

  lemma {:induction false} FinishedStays(s: State, events: seq<Event>, stuckThreshold: nat)
    requires s.row.job.status == Completed && s.listed == map[]
    requires Possible(s, events, stuckThreshold) && NoRequestWrites(events)
    ensures forall e | e in events :: e.Reads?
    ensures Run(s, events).row == s.row && Sent(s, events) == 0
    decreases |events|
  {
    if |events| > 0 {
      assert events[0] in events && events[0].Reads?;
      FinishedStays(After(s, events[0]), events[1..], stuckThreshold);
    }
  }

  /** A job whose last write is its completion, with no tick at it, is never listed and never sent, however long it is left. */
  lemma FinishedIsNeverSent(s: State, ticket: nat, report: Report, now: int, events: seq<Event>, stuckThreshold: nat)
    requires s.listed == map[] && report.status == Completed && NoRequestWrites(events)
    requires Possible(s, [Reports(ticket, report, now)] + events, stuckThreshold)
    ensures forall e | e in events :: !e.Lists? && !e.Handles?
    ensures Sent(s, [Reports(ticket, report, now)] + events) == 0
    ensures Run(s, [Reports(ticket, report, now)] + events).row.job.status == Completed
  {
    var e := Reports(ticket, report, now);
    assert ([e] + events)[1..] == events;
    FinishedStays(After(s, e), events, stuckThreshold);
  }

  predicate NoReports(events: seq<Event>) {
    forall e | e in events :: !e.Reports?
  }

  /** Every copy under way says that the job is completed. */
  predicate AllFinished(s: State) {
    s.row.job.status == Completed && s.listed == map[] && forall t | t in s.read :: s.read[t].job.status == Completed
  }

  lemma {:induction false} FinishedIsFinal(s: State, events: seq<Event>, stuckThreshold: nat)
    requires AllFinished(s) && Possible(s, events, stuckThreshold) && NoReports(events)
    ensures forall e | e in events :: e.Reads?
    ensures Run(s, events).row == s.row && Sent(s, events) == 0
    decreases |events|
  {
    if |events| > 0 {
      assert events[0] in events && events[0].Reads?;
      FinishedIsFinal(After(s, events[0]), events[1..], stuckThreshold);
    }
  }

  /** Nor can its user retry it, or the queue touch it: nothing but another report changes a job that was completed with nobody else at it. */
  lemma OnlyReportsReopen(s: State, ticket: nat, report: Report, now: int, events: seq<Event>, stuckThreshold: nat)
    requires s.listed == map[] && s.read.Keys == {ticket} && report.status == Completed && NoReports(events)
    requires Possible(s, [Reports(ticket, report, now)] + events, stuckThreshold)
    ensures forall e | e in events :: e.Reads?
    ensures Sent(s, [Reports(ticket, report, now)] + events) == 0
    ensures Run(s, [Reports(ticket, report, now)] + events).row == After(s, Reports(ticket, report, now)).row
  {
    var e := Reports(ticket, report, now);
    assert ([e] + events)[1..] == events;
    FinishedIsFinal(After(s, e), events, stuckThreshold);
  }

  // --- A job that has been sent again ---

  /** Every event is at `since` or later. */
  predicate NotBefore(events: seq<Event>, since: int) {
    forall e | e in events :: e.Reads? || TimeOf(e) >= since
  }

  /** No event leaves the row failed: no failure is reported, and no tick gives the job up. */
  predicate NeverFailed(s: State, events: seq<Event>)
    decreases |events|
  {
    |events| == 0 || (After(s, events[0]).row.job.status != Failed && NeverFailed(After(s, events[0]), events[1..]))
  }

  lemma {:induction false} WaitsForThreshold(s: State, events: seq<Event>, since: int, stuckThreshold: nat, k: nat)
    requires s.row.job.status != Failed && s.row.job.updatedAt >= since
    requires Possible(s, events, stuckThreshold) && NotBefore(events, since) && NeverFailed(s, events)
    requires k < |events| && events[k].Lists?
    ensures events[k].now > since + stuckThreshold
    decreases |events|
  {
    assert events[0] in events;
    if k > 0 {
      WriteIsDated(s, events[0]);
      hide After, Writes, Enabled;
      WaitsForThreshold(After(s, events[0]), events[1..], since, stuckThreshold, k - 1);
    }
  }

  /**
   * Unless a failure is reported or the job given up, more than `stuckThreshold` lies between a re-enqueue that
   * is on record and the next time a tick lists the job.
   */
  lemma SentAgainOnlyAfterThreshold(s: State, ticket: nat, now: int, events: seq<Event>, stuckThreshold: nat, k: nat)
    requires Possible(s, [Handles(ticket, now, Delivered)] + events, stuckThreshold)
    requires Enqueues(s, Handles(ticket, now, Delivered))
    requires NotBefore(events, now) && NeverFailed(After(s, Handles(ticket, now, Delivered)), events)
    requires k < |events| && events[k].Lists?
    ensures events[k].now > now + stuckThreshold
  {
    var e := Handles(ticket, now, Delivered);
    assert ([e] + events)[1..] == events;
    WaitsForThreshold(After(s, e), events, now, stuckThreshold, k);
  }

  // --- The budget is five, and each re-enqueue takes one of it ---

  /** A tick sends the job, and a request reports that it failed again, with no counter moved. */
  function Round(now: int, rest: seq<Event>): seq<Event> {
    [Lists(0, now)] + ([Handles(0, now, Delivered)] + ([Reads(0)] + ([Reports(0, Report(Failed, None, None), now)] + rest)))
  }

  function Rounds(now: int, n: nat): seq<Event> {
    if n == 0 then [] else Round(now, Rounds(now, n - 1))
  }

  /** Failed after `retries` re-enqueues since its counters last moved, with nobody at it. */
  predicate FailedAgain(s: State, retries: nat) {
    && s.listed == map[] && s.read == map[] && s.row.job.status == Failed
    && CountOf(s.row.job.retryCount) == retries && !Moved(s.row.job)
  }

  lemma EventFirst(s: State, e: Event, rest: seq<Event>, stuckThreshold: nat)
    ensures Run(s, [e] + rest) == Run(After(s, e), rest)
    ensures Possible(s, [e] + rest, stuckThreshold) <==> Enabled(s, e, stuckThreshold) && Possible(After(s, e), rest, stuckThreshold)
    ensures Sent(s, [e] + rest) == (if Enqueues(s, e) then 1 else 0) + Sent(After(s, e), rest)
  {
    hide After, Enabled, Enqueues;
    assert ([e] + rest)[1..] == rest;
  }

  lemma FourEvents(s: State, a: Event, b: Event, c: Event, d: Event, rest: seq<Event>, stuckThreshold: nat)
    ensures
      var events := [a] + ([b] + ([c] + ([d] + rest)));
      var s1 := After(s, a);
      var s2 := After(s1, b);
      var s3 := After(s2, c);
      var s4 := After(s3, d);
      && Run(s, events) == Run(s4, rest)
      && (Possible(s, events, stuckThreshold) <==>
            Enabled(s, a, stuckThreshold) && Enabled(s1, b, stuckThreshold) && Enabled(s2, c, stuckThreshold)
            && Enabled(s3, d, stuckThreshold) && Possible(s4, rest, stuckThreshold))
      && Sent(s, events) == (if Enqueues(s, a) then 1 else 0) + (if Enqueues(s1, b) then 1 else 0)
                            + (if Enqueues(s2, c) then 1 else 0) + (if Enqueues(s3, d) then 1 else 0) + Sent(s4, rest)
  {
    hide *;
    var s1 := After(s, a);
    var s2 := After(s1, b);
    EventFirst(s, a, [b] + ([c] + ([d] + rest)), stuckThreshold);
    EventFirst(s1, b, [c] + ([d] + rest), stuckThreshold);
    EventFirst(s2, c, [d] + rest, stuckThreshold);
    EventFirst(After(s2, c), d, rest, stuckThreshold);
  }

  lemma RoundSends(s: State, retries: nat, now: int, rest: seq<Event>, stuckThreshold: nat) returns (next: State)
    requires FailedAgain(s, retries) && retries < 5
    ensures FailedAgain(next, retries + 1)
    ensures Possible(s, Round(now, rest), stuckThreshold) <==> Possible(next, rest, stuckThreshold)
    ensures Run(s, Round(now, rest)) == Run(next, rest) && Sent(s, Round(now, rest)) == 1 + Sent(next, rest)
  {
    var e1, e2, e3, e4 := Lists(0, now), Handles(0, now, Delivered), Reads(0), Reports(0, Report(Failed, None, None), now);
    var s1 := After(s, e1);
    var s2 := After(s1, e2);
    var s3 := After(s2, e3);
    next := After(s3, e4);
    FourEvents(s, e1, e2, e3, e4, rest, stuckThreshold);
    assert s1.listed == map[0 := s.row] && s2.listed == map[] && s3.read == map[0 := s2.row] && next.read == map[];
    hide Possible, Run, Sent;
    assert Enabled(s, e1, stuckThreshold) && Enabled(s1, e2, stuckThreshold);
    assert Enabled(s2, e3, stuckThreshold) && Enabled(s3, e4, stuckThreshold);
    assert Enqueues(s1, e2);
  }

  /** A job that fails without getting anywhere is sent again as often as it has retries left of its five. */
  lemma {:induction false} RoundsSend(s: State, retries: nat, now: int, n: nat, stuckThreshold: nat)
    requires FailedAgain(s, retries) && retries + n <= 5
    ensures Possible(s, Rounds(now, n), stuckThreshold) && Sent(s, Rounds(now, n)) == n
    ensures FailedAgain(Run(s, Rounds(now, n)), retries + n)
    decreases n
  {
    if n > 0 {
      var next := RoundSends(s, retries, now, Rounds(now, n - 1), stuckThreshold);
      RoundsSend(next, retries + 1, now, n - 1, stuckThreshold);
    }
  }

  /**
   * From its first failure such a job is sent exactly five times more. The tick that lists it for the sixth
   * time sends nothing, and from then on no tick lists it.
   */
  lemma SentFiveTimesExactly(s: State, now: int, stuckThreshold: nat)
    requires FailedAgain(s, 0)
    ensures Possible(s, Rounds(now, 5), stuckThreshold) && Sent(s, Rounds(now, 5)) == 5
    ensures
      var failed := Run(s, Rounds(now, 5));
      var listed := After(failed, Lists(0, now));
      var end := After(listed, Handles(0, now, NoMessage));
      && Enabled(failed, Lists(0, now), stuckThreshold) && Enabled(listed, Handles(0, now, NoMessage), stuckThreshold)
      && (forall delivery :: !Enqueues(listed, Handles(0, now, delivery)))
      && end.row.job.status == Failed
      && (forall ticket, later :: !Enabled(end, Lists(ticket, later), stuckThreshold))
  {
    RoundsSend(s, 0, now, 5, stuckThreshold);
    hide Run, Possible, Rounds, Sent;
  }

  // --- What a write takes over ---

  /** A counter changes only where a report gives it, or a completion counts a missing one as zero. */
  predicate CounterAfter(copy: Option<nat>, row: Option<nat>, e: Event, given: Option<nat>) {
    if e.Reports? && given.Some? then row == given
    else if e.Reports? && e.report.status == Completed && copy.None? then row == Some(0)
    else row == copy
  }

  predicate SameMarkers(a: Job, b: Job) {
    a.retryCount == b.retryCount && a.retryFileCount == b.retryFileCount && a.retryExtractedSize == b.retryExtractedSize
  }

  /** Whatever an event writes, the counters are those it was given or those of the copy it worked on. */
  lemma CountersAreKept(s: State, e: Event)
    requires CopyOf(s, e).Some? && Writes(s, e)
    ensures
      var copy, row := CopyOf(s, e).value.job, After(s, e).row.job;
      && CounterAfter(copy.fileCount, row.fileCount, e, if e.Reports? then e.report.fileCount else None)
      && CounterAfter(copy.extractedSize, row.extractedSize, e, if e.Reports? then e.report.extractedSize else None)
      && (e.Reports? ==> row.status == e.report.status)
      && (!e.Handles? ==> SameMarkers(copy, row))
      && (e.Handles? && !OutOfRetries(copy) ==>
            row.status == Pending && !Moved(row) && CountOf(row.retryCount) == if Moved(copy) then 1 else CountOf(copy.retryCount) + 1)
  {
  }
}
