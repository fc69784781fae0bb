/**
 * The cron's retry budget for one extraction job (core/cleanup/handler.ts), with the
 * container's reports (core/job/handler.ts) and the pool of retriable jobs (adapters/sql/stores.ts).
 */
module RetryBudget {
  import opened Wrappers

  const MAX_RETRIES := 5

  datatype Status = Pending | Running | Completed | Failed

  /** What a job row says: counters the container has reported, and what they were at the last re-enqueue. */
  datatype Job = Job(
    status: Status, updatedAt: int,
    fileCount: Option<nat>, extractedSize: Option<nat>,
    retryCount: Option<nat>, retryFileCount: Option<nat>, retryExtractedSize: Option<nat>)

  function OrZero(n: Option<nat>): nat {
    if n.Some? then n.value else 0
  }

  predicate Progressed(job: Job) {
    || OrZero(job.fileCount) > OrZero(job.retryFileCount)
    || OrZero(job.extractedSize) > OrZero(job.retryExtractedSize)
  }

  function EffectiveRetryCount(job: Job): nat {
    if Progressed(job) then 0 else OrZero(job.retryCount)
  }

  /** The rows a tick at `now` may pick up. */
  predicate Retriable(job: Job, now: int, stuckThreshold: nat) {
    && (OrZero(job.retryCount) <= MAX_RETRIES || Progressed(job))
    && (job.status == Failed || (job.status in {Pending, Running} && job.updatedAt < now - stuckThreshold))
  }

  /**
   * How handling one listed job goes: a read it needs fails, there is nothing to send, the message is not
   * sent, the row is not written, or all is done.
   */
  datatype Delivery = Unread | NoMessage | NotSent | NotSaved | Delivered

  predicate Exhausted(job: Job) {
    EffectiveRetryCount(job) >= MAX_RETRIES
  }

  /** Whether the row is written: a job given up unless that fails, one sent again only once it has been sent. */
  predicate Saves(job: Job, delivery: Delivery) {
    if Exhausted(job) then delivery != NotSaved && delivery != Unread else delivery == Delivered
  }

  /** Whether the job's message goes out. */
  predicate Sends(job: Job, delivery: Delivery) {
    !Exhausted(job) && (delivery == Delivered || delivery == NotSaved)
  }

  /** The row that is written. */
  function Retriggered(job: Job, now: int): Job {
    if Exhausted(job) then
      job.(status := Failed, retryCount := Some(MAX_RETRIES + 1), updatedAt := now)
    else
      job.(retryCount := Some(EffectiveRetryCount(job) + 1), retryFileCount := Some(OrZero(job.fileCount)),
           retryExtractedSize := Some(OrZero(job.extractedSize)), status := Pending, updatedAt := now)
  }

  /** A report from the container; counters it leaves out keep their value. */
  datatype Report = Report(status: Status, fileCount: Option<nat>, extractedSize: Option<nat>)

  function Reported(job: Job, report: Report, now: int): Job {
    var files := if report.fileCount.Some? then report.fileCount else job.fileCount;
    var size := if report.extractedSize.Some? then report.extractedSize else job.extractedSize;
    job.(status := report.status, updatedAt := now,
         fileCount := if report.status == Completed then Some(OrZero(files)) else files,
         extractedSize := if report.status == Completed then Some(OrZero(size)) else size)
  }

  /** A row, and the re-enqueues on record in it: how many of the writes that led to it were one. The number is not stored. */
  datatype Version = Version(job: Job, sends: nat)

  /**
   * The row, the copies of it that ticks have listed, and those that requests have read. Everything that
   * is written is made of such a copy, so what was written in between is overwritten.
   */
  datatype State = State(row: Version, listed: map<nat, Version>, read: map<nat, Version>)

  /**
   * What can happen to a job: a request reads it, and saves a report, a retry its user asks for, or that the
   * queue is still on it; a tick lists it, and has its turn for it.
   */
  datatype Event =
    | Reads(ticket: nat)
    | Reports(ticket: nat, report: Report, now: int)
    | UserRetries(ticket: nat, now: int)
    | Touches(ticket: nat, now: int)
    | Lists(ticket: nat, now: int)
    | Handles(ticket: nat, now: int, delivery: Delivery)

  predicate Enabled(s: State, e: Event, stuckThreshold: nat) {
    match e
    case Reads(t) => t !in s.read
    case Reports(t, report, _) => t in s.read && report.status != Pending
    case UserRetries(t, _) => t in s.read && s.read[t].job.status != Completed
    case Touches(t, _) => t in s.read && s.read[t].job.status == Pending
    case Lists(t, now) => t !in s.listed && Retriable(s.row.job, now, stuckThreshold)
    case Handles(t, _, _) => t in s.listed
  }

  /** The copy an event works on. */
  function CopyOf(s: State, e: Event): Option<Version> {
    match e
    case Reads(_) => None
    case Lists(_, _) => None
    case Handles(t, _, _) => if t in s.listed then Some(s.listed[t]) else None
    case _ => if e.ticket in s.read then Some(s.read[e.ticket]) else None
  }

  /** What an event writes, made of its copy. */
  function Written(copy: Version, e: Event): Option<Version> {
    match e
    case Reports(_, report, now) => Some(copy.(job := Reported(copy.job, report, now)))
    case UserRetries(_, now) => Some(copy.(job := copy.job.(status := Pending, updatedAt := now)))
    case Touches(_, now) => Some(copy.(job := copy.job.(updatedAt := now)))
    case Handles(_, now, delivery) =>
      if Saves(copy.job, delivery)
      then Some(Version(Retriggered(copy.job, now), copy.sends + if Exhausted(copy.job) then 0 else 1))
      else None
    case _ => None
  }

  function RowAfter(s: State, e: Event): Version {
    if CopyOf(s, e).None? then s.row
    else
      match Written(CopyOf(s, e).value, e)
      case None => s.row
      case Some(row) => row
  }

  function After(s: State, e: Event): State {
    match e
    case Reads(t) => s.(read := s.read[t := s.row])
    case Lists(t, _) => s.(listed := s.listed[t := s.row])
    case Handles(t, _, _) => s.(row := RowAfter(s, e), listed := s.listed - {t})
    case _ => s.(row := RowAfter(s, e), read := s.read - {e.ticket})
  }

  /** The tick sends the job's message again. */
  predicate Enqueues(s: State, e: Event) {
    e.Handles? && e.ticket in s.listed && Sends(s.listed[e.ticket].job, e.delivery)
  }

  /** It was sent, but the row does not say so. */
  predicate Unrecorded(s: State, e: Event) {
    Enqueues(s, e) && e.delivery == NotSaved
  }

  /** The re-enqueues on record that a write takes off it, because they are not in its copy. */
  function TakenOff(s: State, e: Event): nat {
    if CopyOf(s, e).Some? && Written(CopyOf(s, e).value, e).Some? then Minus(s.row.sends, CopyOf(s, e).value.sends) else 0
  }

  /** How far a report takes the counters of its copy back. */
  function Relapse(copy: Job, row: Job): nat {
    Minus(OrZero(copy.fileCount), OrZero(row.fileCount)) + Minus(OrZero(copy.extractedSize), OrZero(row.extractedSize))
  }

  function RelapseOf(s: State, e: Event): nat {
    if e.Reports? && CopyOf(s, e).Some? then Relapse(CopyOf(s, e).value.job, RowAfter(s, e).job) else 0
  }

  function Min(a: nat, b: nat): nat { if a < b then a else b }

  function Minus(a: nat, b: nat): nat { if a < b then 0 else a - b }

  // --- Runs ---

  function Run(s: State, events: seq<Event>): State
    decreases |events|
  {
    if |events| == 0 then s else Run(After(s, events[0]), events[1..])
  }

  predicate Possible(s: State, events: seq<Event>, stuckThreshold: nat)
    decreases |events|
  {
    |events| == 0 || (Enabled(s, events[0], stuckThreshold) && Possible(After(s, events[0]), events[1..], stuckThreshold))
  }

  /** Messages sent, and those of them that went unrecorded. */
  function Sent(s: State, events: seq<Event>): nat
    decreases |events|
  {
    if |events| == 0 then 0 else (if Enqueues(s, events[0]) then 1 else 0) + Sent(After(s, events[0]), events[1..])
  }

  function Lost(s: State, events: seq<Event>): nat
    decreases |events|
  {
    if |events| == 0 then 0 else (if Unrecorded(s, events[0]) then 1 else 0) + Lost(After(s, events[0]), events[1..])
  }

  /** Re-enqueues that were on record and have been overwritten. */
  function Overwritten(s: State, events: seq<Event>): nat
    decreases |events|
  {
    if |events| == 0 then 0 else TakenOff(s, events[0]) + Overwritten(After(s, events[0]), events[1..])
  }

  /** How far all reports together have taken the counters back. */
  function Fallen(s: State, events: seq<Event>): nat
    decreases |events|
  {
    if |events| == 0 then 0 else RelapseOf(s, events[0]) + Fallen(After(s, events[0]), events[1..])
  }

  /** No counter is ever more than `files` and `size`. */
  predicate Bounded(s: State, events: seq<Event>, files: nat, size: nat)
    decreases |events|
  {
    && OrZero(s.row.job.fileCount) <= files && OrZero(s.row.job.extractedSize) <= size
    && (|events| > 0 ==> Bounded(After(s, events[0]), events[1..], files, size))
  }

  /** What is left of a row's budget: every file or byte still to come is worth five retries. */
  function Potential(job: Job, files: nat, size: nat): int {
    MAX_RETRIES * ((files - Min(OrZero(job.retryFileCount), OrZero(job.fileCount)))
                   + (size - Min(OrZero(job.retryExtractedSize), OrZero(job.extractedSize))))
    + (MAX_RETRIES - Min(OrZero(job.retryCount), MAX_RETRIES))
  }

  /** A re-enqueue that is recorded costs at least one, and only a report that takes a counter back gives anything. */
  lemma WriteCosts(copy: Version, e: Event, files: nat, size: nat)
    requires Written(copy, e).Some?
    ensures
      var row := Written(copy, e).value;
      row.sends + Potential(row.job, files, size)
      <= copy.sends + Potential(copy.job, files, size) + if e.Reports? then MAX_RETRIES * Relapse(copy.job, row.job) else 0
  {
  }

  /** The re-enqueues on record in a row and what is left of its budget come to no more than what there was. */
  predicate Accounted(v: Version, files: nat, size: nat, fallen: nat) {
    v.sends + Potential(v.job, files, size) <= MAX_RETRIES * (1 + files + size + fallen)
  }

  ghost predicate AllAccounted(s: State, files: nat, size: nat, fallen: nat) {
    && Accounted(s.row, files, size, fallen)
    && (forall t | t in s.listed :: Accounted(s.listed[t], files, size, fallen))
    && (forall t | t in s.read :: Accounted(s.read[t], files, size, fallen))
  }

  lemma MoreFallen(v: Version, files: nat, size: nat, fallen: nat, more: nat)
    requires Accounted(v, files, size, fallen)
    ensures Accounted(v, files, size, fallen + more)
  {
    hide Potential;
  }

  lemma StepAccounts(s: State, e: Event, files: nat, size: nat, fallen: nat)
    requires AllAccounted(s, files, size, fallen)
    ensures AllAccounted(After(s, e), files, size, fallen + RelapseOf(s, e))
  {
    hide Potential, Written, Accounted, Relapse;
    var more := RelapseOf(s, e);
    MoreFallen(s.row, files, size, fallen, more);
    forall t | t in s.listed
      ensures Accounted(s.listed[t], files, size, fallen + more)
    {
      MoreFallen(s.listed[t], files, size, fallen, more);
    }
    forall t | t in s.read
      ensures Accounted(s.read[t], files, size, fallen + more)
    {
      MoreFallen(s.read[t], files, size, fallen, more);
    }
    if CopyOf(s, e).Some? && Written(CopyOf(s, e).value, e).Some? {
      WriteAccounts(CopyOf(s, e).value, e, files, size, fallen);
    }
  }

  lemma WriteAccounts(copy: Version, e: Event, files: nat, size: nat, fallen: nat)
    requires Written(copy, e).Some? && Accounted(copy, files, size, fallen)
    ensures
      var row := Written(copy, e).value;
      Accounted(row, files, size, fallen + if e.Reports? then Relapse(copy.job, row.job) else 0)
  {
    hide Potential, Written, Relapse;
    WriteCosts(copy, e, files, size);
  }

  /** In every run, every row and every copy of one stays accounted for. */
  lemma {:induction false} RowsAreAccounted(s: State, events: seq<Event>, files: nat, size: nat, fallen: nat)
    requires AllAccounted(s, files, size, fallen)
    ensures AllAccounted(Run(s, events), files, size, fallen + Fallen(s, events))
    decreases |events|
  {
    hide After, AllAccounted, RelapseOf;
    if |events| > 0 {
      StepAccounts(s, events[0], files, size, fallen);
      RowsAreAccounted(After(s, events[0]), events[1..], files, size, fallen + RelapseOf(s, events[0]));
    }
  }

  /** Whatever is sent is on record in the row, was not recorded, or has been overwritten. */
  lemma {:induction false} SendsAreOnRecord(s: State, events: seq<Event>)
    ensures s.row.sends + Sent(s, events) <= Run(s, events).row.sends + Lost(s, events) + Overwritten(s, events)
    decreases |events|
  {
    hide Retriggered, Reported, Exhausted;
    if |events| > 0 {
      SendsAreOnRecord(After(s, events[0]), events[1..]);
    }
  }

  lemma {:induction false} BoundedAtTheEnd(s: State, events: seq<Event>, files: nat, size: nat)
    requires Bounded(s, events, files, size)
    ensures OrZero(Run(s, events).row.job.fileCount) <= files && OrZero(Run(s, events).row.job.extractedSize) <= size
    decreases |events|
  {
    hide After;
    if |events| > 0 { BoundedAtTheEnd(After(s, events[0]), events[1..], files, size); }
  }

  predicate New(s: State) {
    s == State(Version(Job(Pending, s.row.job.updatedAt, None, None, None, None, None), 0), map[], map[])
  }

  /**
   * In every run, ticks and requests interleaved in any way, a job of `files` files and `size` bytes is
   * re-enqueued at most 5 * (1 + files + size) times, five times more for each file or byte that reports take
   * back, and once more for each re-enqueue that was not recorded or whose record was overwritten.
   */
  lemma ReenqueuesAreBounded(s: State, events: seq<Event>, files: nat, size: nat)
    requires New(s) && Bounded(s, events, files, size)
    ensures Sent(s, events)
         <= 5 * (1 + files + size + Fallen(s, events)) + Lost(s, events) + Overwritten(s, events)
  {
    hide Sent, Lost, Fallen, Overwritten, Run, Bounded;
    RowsAreAccounted(s, events, files, size, 0);
    SendsAreOnRecord(s, events);
    BoundedAtTheEnd(s, events, files, size);
  }

  // --- Permanent failure ---

  /** The cron has given the job up, and nothing has moved since. */
  predicate GivenUp(job: Job) {
    OrZero(job.retryCount) == MAX_RETRIES + 1 && !Progressed(job)
  }

  /** A tick gives a job up exactly when it was listed after five re-enqueues without progress, and nothing it needs fails. */
  lemma GivesUpExactly(s: State, ticket: nat, now: int, delivery: Delivery, stuckThreshold: nat, listedAt: int)
    requires ticket in s.listed && Retriable(s.listed[ticket].job, listedAt, stuckThreshold) && !GivenUp(s.row.job)
    ensures
      var copy, row := s.listed[ticket].job, After(s, Handles(ticket, now, delivery)).row.job;
      && (GivenUp(row) <==> OrZero(copy.retryCount) == 5 && !Progressed(copy) && delivery != NotSaved && delivery != Unread)
      && (GivenUp(row) ==> row.status == Failed)
  {
  }

  /** No event raises a counter past its marker. */
  predicate Still(s: State, events: seq<Event>)
    decreases |events|
  {
    |events| == 0 || (!Progressed(After(s, events[0]).row.job) && Still(After(s, events[0]), events[1..]))
  }

  /** Given up, with no tick at it and no request that read it before. */
  predicate LeftAlone(s: State) {
    GivenUp(s.row.job) && s.listed == map[] && forall t | t in s.read :: GivenUp(s.read[t].job)
  }

  /** Then a job is never listed again until a counter passes its marker. */
  lemma {:induction false} GivenUpStays(s: State, events: seq<Event>, stuckThreshold: nat)
    requires LeftAlone(s) && Possible(s, events, stuckThreshold) && Still(s, events)
    ensures LeftAlone(Run(s, events)) && Sent(s, events) == 0
    ensures forall now :: !Retriable(Run(s, events).row.job, now, stuckThreshold)
    decreases |events|
  {
    if |events| > 0 {
      StaysLeftAlone(s, events[0], stuckThreshold);
      hide After, Enqueues;
      GivenUpStays(After(s, events[0]), events[1..], stuckThreshold);
    }
  }

  lemma StaysLeftAlone(s: State, e: Event, stuckThreshold: nat)
    requires LeftAlone(s) && Enabled(s, e, stuckThreshold) && !Progressed(After(s, e).row.job)
    ensures LeftAlone(After(s, e)) && !Enqueues(s, e)
  {
  }

  /** And when one does, the budget starts over. */
  lemma ProgressReadmits(job: Job, now: int, stuckThreshold: nat)
    requires Progressed(job) && job.status == Failed
    ensures Retriable(job, now, stuckThreshold)
    ensures OrZero(Retriggered(job, now).retryCount) == 1
  {
  }

  // --- What the bound rests on ---

  /** From here the run goes on as the rest does from there, with `sent` messages, `fallen` taken back and `taken` overwritten. */
  ghost predicate GoesOn(s: State, events: seq<Event>, next: State, rest: seq<Event>, stuckThreshold: nat, sent: nat, fallen: nat, taken: nat) {
    && (Possible(s, events, stuckThreshold) <==> Possible(next, rest, stuckThreshold))
    && (Bounded(s, events, 2, 0) <==> Bounded(next, rest, 2, 0))
    && Sent(s, events) == sent + Sent(next, rest) && Lost(s, events) == Lost(next, rest)
    && Fallen(s, events) == fallen + Fallen(next, rest)
    && Overwritten(s, events) == taken + Overwritten(next, rest)
  }

  predicate Small(s: State) {
    OrZero(s.row.job.fileCount) <= 2 && OrZero(s.row.job.extractedSize) == 0
  }

  lemma OneEvent(s: State, e: Event, rest: seq<Event>, stuckThreshold: nat, sent: nat, fallen: nat, taken: nat)
    requires Enabled(s, e, stuckThreshold) && !Unrecorded(s, e) && sent == (if Enqueues(s, e) then 1 else 0)
    requires fallen == RelapseOf(s, e) && taken == TakenOff(s, e) && Small(s)
    ensures GoesOn(s, [e] + rest, After(s, e), rest, stuckThreshold, sent, fallen, taken)
  {
    hide Enabled, After, Enqueues, RelapseOf, TakenOff, Unrecorded;
    assert ([e] + rest)[1..] == rest;
  }

  /** Reading and listing send, lose and take nothing. */
  lemma OtherEvent(s: State, e: Event, rest: seq<Event>, stuckThreshold: nat)
    requires (e.Reads? || e.Lists?) && Enabled(s, e, stuckThreshold) && Small(s)
    ensures GoesOn(s, [e] + rest, After(s, e), rest, stuckThreshold, 0, 0, 0)
  {
    hide GoesOn, Enabled, After;
    OneEvent(s, e, rest, stuckThreshold, 0, 0, 0);
  }

  lemma GoesOnMeans(s: State, a: seq<Event>, next: State, b: seq<Event>, stuckThreshold: nat, sent: nat, fallen: nat, taken: nat)
    requires GoesOn(s, a, next, b, stuckThreshold, sent, fallen, taken)
    ensures Possible(next, b, stuckThreshold) && Bounded(next, b, 2, 0) ==> Possible(s, a, stuckThreshold) && Bounded(s, a, 2, 0)
    ensures Sent(s, a) == sent + Sent(next, b) && Lost(s, a) == Lost(next, b)
    ensures Fallen(s, a) == fallen + Fallen(next, b) && Overwritten(s, a) == taken + Overwritten(next, b)
  {
    hide Possible, Bounded, Sent, Lost, Fallen, Overwritten;
  }

  lemma GoesOnTwice(s: State, a: seq<Event>, mid: State, b: seq<Event>, next: State, c: seq<Event>, stuckThreshold: nat,
                    sent: nat, fallen: nat, taken: nat, moreSent: nat, moreFallen: nat, moreTaken: nat)
    requires GoesOn(s, a, mid, b, stuckThreshold, sent, fallen, taken)
    requires GoesOn(mid, b, next, c, stuckThreshold, moreSent, moreFallen, moreTaken)
    ensures GoesOn(s, a, next, c, stuckThreshold, sent + moreSent, fallen + moreFallen, taken + moreTaken)
  {
    hide Possible, Bounded, Sent, Lost, Fallen, Overwritten;
  }

  /** A job with nobody at it. */
  function Alone(status: Status, files: nat, retries: nat, marker: nat, sends: nat): State {
    State(Version(Job(status, 0, Some(files), None, Some(retries), Some(marker), Some(0)), sends), map[], map[])
  }

  lemma NoEvents(s: State, stuckThreshold: nat)
    ensures Possible(s, [], stuckThreshold)
    ensures Sent(s, []) == Lost(s, []) == Fallen(s, []) == Overwritten(s, []) == 0
    ensures Bounded(s, [], 2, 0) <==> Small(s)
  {
  }

  /** A request reports a count of files and a failure, and a tick sends the job again. */
  function FailsAt(files: nat, rest: seq<Event>): seq<Event> {
    [Reads(0)] + ([Reports(0, Report(Failed, Some(files), None), 0)] + ([Lists(0, 0)] + ([Handles(0, 0, Delivered)] + rest)))
  }

  lemma FailsAndIsSent(s: State, files: nat, marker: nat, retries: nat, rest: seq<Event>, stuckThreshold: nat) returns (next: State)
    requires files <= 2 && marker <= 2 && 1 <= retries < MAX_RETRIES
    requires s == Alone(Pending, marker, retries, marker, s.row.sends)
    ensures next == Alone(Pending, files, if files > marker then 1 else retries + 1, files, next.row.sends)
    ensures GoesOn(s, FailsAt(files, rest), next, rest, stuckThreshold, 1, Minus(marker, files), 0)
  {
    hide Possible, Bounded, Sent, Lost, Fallen, Overwritten;
    var e1, e2 := Reports(0, Report(Failed, Some(files), None), 0), Lists(0, 0);
    var e3 := Handles(0, 0, Delivered);
    var s1 := After(s, Reads(0));
    var s2 := After(s1, e1);
    var s3 := After(s2, e2);
    next := After(s3, e3);
    assert map[0 := s.row] - {0} == map[] && map[0 := s2.row] - {0} == map[];
    OneEvent(s, Reads(0), [e1] + ([e2] + ([e3] + rest)), stuckThreshold, 0, 0, 0);
    OneEvent(s1, e1, [e2] + ([e3] + rest), stuckThreshold, 0, Minus(marker, files), 0);
    OneEvent(s2, e2, [e3] + rest, stuckThreshold, 0, 0, 0);
    OneEvent(s3, e3, rest, stuckThreshold, 1, 0, 0);
  }

  /** A container that lost ground reports one file, then two again; each time the tick finds the job failed. */
  function Relapses(n: nat): seq<Event> {
    if n == 0 then [] else FailsAt(1, FailsAt(2, Relapses(n - 1)))
  }

  lemma OneRelapse(s: State, rest: seq<Event>, stuckThreshold: nat) returns (again: State)
    requires s == Alone(Pending, 2, 1, 2, s.row.sends)
    ensures again == Alone(Pending, 2, 1, 2, again.row.sends)
    ensures GoesOn(s, FailsAt(1, FailsAt(2, rest)), again, rest, stuckThreshold, 2, 1, 0)
  {
    hide GoesOn, Alone, FailsAt;
    var behind := FailsAndIsSent(s, 1, 2, 1, FailsAt(2, rest), stuckThreshold);
    again := FailsAndIsSent(behind, 2, 1, 2, rest, stuckThreshold);
    GoesOnTwice(s, FailsAt(1, FailsAt(2, rest)), behind, FailsAt(2, rest), again, rest, stuckThreshold, 1, 1, 0, 1, 0, 0);
  }

  lemma AloneIsSmall(s: State)
    requires s == Alone(Pending, 2, 1, 2, s.row.sends) || s == Alone(Failed, 2, 1, 2, 0)
    ensures Small(s)
  {
  }

  /** So what reports take back has to count: two files, and as many re-enqueues as there are relapses, twice. */
  lemma {:induction false} RelapsesNeverEnd(s: State, n: nat, stuckThreshold: nat)
    requires s == Alone(Pending, 2, 1, 2, s.row.sends)
    ensures Possible(s, Relapses(n), stuckThreshold) && Bounded(s, Relapses(n), 2, 0)
    ensures Sent(s, Relapses(n)) == 2 * n && Fallen(s, Relapses(n)) == n
    ensures Lost(s, Relapses(n)) == 0 && Overwritten(s, Relapses(n)) == 0
    decreases n
  {
    hide Possible, Bounded, Sent, Lost, Fallen, Overwritten, Alone, FailsAt, GoesOn, Small;
    if n == 0 {
      AloneIsSmall(s);
      NoEvents(s, stuckThreshold);
    } else {
      var again := OneRelapse(s, Relapses(n - 1), stuckThreshold);
      RelapsesNeverEnd(again, n - 1, stuckThreshold);
      GoesOnMeans(s, Relapses(n), again, Relapses(n - 1), stuckThreshold, 2, 1, 0);
    }
  }

  /** A request reads the failed job, a tick sends it again, and only then the request saves that it has failed. */
  function Overtaken(rest: seq<Event>): seq<Event> {
    [Reads(0)] + ([Lists(0, 0)] + ([Handles(0, 0, Delivered)] + ([Reports(0, Report(Failed, None, None), 0)] + rest)))
  }

  function Overwrites(n: nat): seq<Event> {
    if n == 0 then [] else Overtaken(Overwrites(n - 1))
  }

  /** The job as it failed, and as it is once it has been sent again. */
  const FAILED := Version(Job(Failed, 0, Some(2), None, Some(1), Some(2), Some(0)), 0)
  const SENT := Version(Job(Pending, 0, Some(2), None, Some(2), Some(2), Some(0)), 1)

  lemma FailedIsSent()
    ensures Alone(Failed, 2, 1, 2, 0) == State(FAILED, map[], map[])
    ensures Written(FAILED, Handles(0, 0, Delivered)) == Some(SENT) && Sends(FAILED.job, Delivered)
    ensures Written(FAILED, Reports(0, Report(Failed, None, None), 0)) == Some(FAILED)
    ensures Relapse(FAILED.job, FAILED.job) == 0
    ensures forall threshold :: Retriable(FAILED.job, 0, threshold)
  {
  }

  /** The states in between, with the record made and taken off. */
  lemma OvertakenSteps(stuckThreshold: nat)
    ensures
      var s, e1, e2 := Alone(Failed, 2, 1, 2, 0), Lists(0, 0), Handles(0, 0, Delivered);
      var e3 := Reports(0, Report(Failed, None, None), 0);
      var s1 := After(s, Reads(0));
      var s2 := After(s1, e1);
      var s3 := After(s2, e2);
      && After(s3, e3) == s
      && Enabled(s, Reads(0), stuckThreshold) && Enabled(s1, e1, stuckThreshold)
      && Enabled(s2, e2, stuckThreshold) && Enabled(s3, e3, stuckThreshold)
      && Enqueues(s2, e2) && TakenOff(s2, e2) == 0 && TakenOff(s3, e3) == 1 && RelapseOf(s3, e3) == 0
      && Small(s) && Small(s1) && Small(s2) && Small(s3)
  {
    FailedIsSent();
    hide Written, Sends, Relapse, Retriable, Alone;
    var copies: map<nat, Version> := map[0 := FAILED];
    assert copies - {0} == map[];
    var s := Alone(Failed, 2, 1, 2, 0);
    var s1 := After(s, Reads(0));
    assert s1 == State(FAILED, map[], copies);
    var s2 := After(s1, Lists(0, 0));
    assert s2 == State(FAILED, copies, copies);
    var s3 := After(s2, Handles(0, 0, Delivered));
    assert s3 == State(SENT, map[], copies);
  }

  lemma IsOvertaken(rest: seq<Event>, stuckThreshold: nat)
    ensures var s := Alone(Failed, 2, 1, 2, 0); GoesOn(s, Overtaken(rest), s, rest, stuckThreshold, 1, 0, 1)
  {
    hide GoesOn, After, Alone, Enabled, TakenOff, RelapseOf, Enqueues, Small;
    var s, e1, e2 := Alone(Failed, 2, 1, 2, 0), Lists(0, 0), Handles(0, 0, Delivered);
    var e3 := Reports(0, Report(Failed, None, None), 0);
    var s1 := After(s, Reads(0));
    var s2 := After(s1, e1);
    var s3 := After(s2, e2);
    OvertakenSteps(stuckThreshold);
    OtherEvent(s, Reads(0), [e1] + ([e2] + ([e3] + rest)), stuckThreshold);
    OtherEvent(s1, e1, [e2] + ([e3] + rest), stuckThreshold);
    OneEvent(s2, e2, [e3] + rest, stuckThreshold, 1, 0, 0) by { OnlyReports(s2, e2); }
    OneEvent(s3, e3, rest, stuckThreshold, 0, 0, 1) by { OnlyReports(s3, e3); }
    var last := [e3] + rest;
    GoesOnTwice(s2, [e2] + last, s3, last, s, rest, stuckThreshold, 1, 0, 0, 0, 0, 1);
    GoesOnTwice(s1, [e1] + ([e2] + last), s2, [e2] + last, s, rest, stuckThreshold, 0, 0, 0, 1, 0, 1);
    GoesOnTwice(s, Overtaken(rest), s1, [e1] + ([e2] + last), s, rest, stuckThreshold, 0, 0, 0, 1, 0, 1);
  }

  lemma OnlyReports(s: State, e: Event)
    ensures !e.Reports? ==> RelapseOf(s, e) == 0
    ensures !e.Handles? ==> !Enqueues(s, e)
    ensures e.Handles? && e.delivery != NotSaved ==> !Unrecorded(s, e)
    ensures !e.Handles? ==> !Unrecorded(s, e)
  {
  }

  /** So do records that are overwritten: nothing ever moves, and the job is sent again every time. */
  lemma {:induction false} OverwritesNeverEnd(n: nat, stuckThreshold: nat)
    ensures
      var s, events := Alone(Failed, 2, 1, 2, 0), Overwrites(n);
      && Possible(s, events, stuckThreshold) && Bounded(s, events, 2, 0)
      && Sent(s, events) == n && Overwritten(s, events) == n && Lost(s, events) == 0 && Fallen(s, events) == 0
  {
    hide Possible, Bounded, Sent, Lost, Fallen, Overwritten, Alone, Overtaken, GoesOn, Small;
    var s := Alone(Failed, 2, 1, 2, 0);
    if n == 0 {
      AloneIsSmall(s);
      NoEvents(s, stuckThreshold);
    } else {
      OverwritesNeverEnd(n - 1, stuckThreshold);
      IsOvertaken(Overwrites(n - 1), stuckThreshold);
      GoesOnMeans(s, Overwrites(n), s, Overwrites(n - 1), stuckThreshold, 1, 0, 1);
    }
  }
}
