/**
 * When a message may be handed out (adapters/memory/memory-queue.ts, adapters/sql/queue.ts), told by
 * the events of a run: not before the delay asked for in its last send or retry has passed.
 */
module QueueTiming {
  import opened JobQueues

  /** How many of the events are sends: the next send is of the message with this number. */
  function Sends(events: seq<Event>): nat {
    if |events| == 0 then 0
    else Sends(events[..|events| - 1]) + if events[|events| - 1].Send? then 1 else 0
  }

  /** Event `j` sends message `t`, or puts it back. */
  predicate PutsBack(events: seq<Event>, j: nat, t: nat) {
    j < |events| && ((events[j].Send? && Sends(events[..j]) == t) || (events[j].Retry? && events[j].ticket == t))
  }

  /** Event `j` is the last that does. */
  predicate PutsBackLast(events: seq<Event>, j: nat, t: nat) {
    PutsBack(events, j, t) && forall i | j < i < |events| :: !PutsBack(events, i, t)
  }

  /** Entry `e` is to be seen from the time its message's last send or retry asks for. */
  ghost predicate Timed(events: seq<Event>, e: Entry) {
    exists j | 0 <= j < |events| ::
      PutsBackLast(events, j, e.ticket) && e.availableAt == events[j].now + 1000 * events[j].delay
  }

  ghost predicate AllTimed(events: seq<Event>, entries: seq<Entry>) {
    forall i | 0 <= i < |entries| :: Timed(events, entries[i])
  }

  lemma PutBackEarlier(events: seq<Event>, init: seq<Event>, j: nat, t: nat)
    requires |events| > 0 && init == events[..|events| - 1] && j < |init|
    ensures PutsBack(events, j, t) <==> PutsBack(init, j, t)
  {
    assert init[..j] == events[..j];
  }

  /** An event about another message leaves the time as it was. */
  lemma StaysTimed(events: seq<Event>, init: seq<Event>, e: Entry)
    requires |events| > 0 && init == events[..|events| - 1] && Timed(init, e)
    requires !PutsBack(events, |events| - 1, e.ticket)
    ensures Timed(events, e)
  {
    var j :| 0 <= j < |init| && PutsBackLast(init, j, e.ticket) && e.availableAt == init[j].now + 1000 * init[j].delay;
    PutBackEarlier(events, init, j, e.ticket);
    forall i | j < i < |events| ensures !PutsBack(events, i, e.ticket) {
      if i < |init| { PutBackEarlier(events, init, i, e.ticket); }
    }
    assert PutsBackLast(events, j, e.ticket);
  }

  lemma AllStayTimed(events: seq<Event>, init: seq<Event>, entries: seq<Entry>, kept: seq<Entry>)
    requires |events| > 0 && init == events[..|events| - 1] && AllTimed(init, entries)
    requires forall e | e in kept :: e in entries && !PutsBack(events, |events| - 1, e.ticket)
    ensures AllTimed(events, kept)
  {
    forall i | 0 <= i < |kept| ensures Timed(events, kept[i]) {
      assert kept[i] in kept;
      var k :| 0 <= k < |entries| && entries[k] == kept[i];
      StaysTimed(events, init, kept[i]);
    }
  }

  lemma PutBackNow(events: seq<Event>, e: Entry)
    requires |events| > 0 && PutsBack(events, |events| - 1, e.ticket)
    requires e.availableAt == events[|events| - 1].now + 1000 * events[|events| - 1].delay
    ensures Timed(events, e)
  {
    assert PutsBackLast(events, |events| - 1, e.ticket);
  }

  ghost predicate TimedQueue(q: Queue, events: seq<Event>) {
    q.sent == Sends(events) && AllTimed(events, q.queued) && AllTimed(events, q.buffered)
  }

  /** A message being put back is nowhere else: no entry of it waits. */
  lemma PutBackIsNew(kind: Kind, maxAttempts: nat, q: Queue, events: seq<Event>, init: seq<Event>, entries: seq<Entry>)
    requires |events| > 0 && init == events[..|events| - 1]
    requires Inv(q, maxAttempts) && q.sent == Sends(init) && Enabled(kind, q, events[|events| - 1])
    requires entries == q.queued || entries == q.buffered
    ensures forall e | e in entries :: !PutsBack(events, |events| - 1, e.ticket)
  {
    hide Count, Waiting;
    var n := |events| - 1;
    forall e | e in entries
      ensures !PutsBack(events, n, e.ticket)
    {
      InIsMembership(q.queued, e.ticket);
      InIsMembership(q.buffered, e.ticket);
      assert Sound(q, maxAttempts, e.ticket);
      var i :| 0 <= i < |entries| && entries[i] == e;
      hide In;
      assert In(entries, e.ticket) > 0;
      assert Sends(events[..n]) == q.sent;
    }
  }

  lemma {:induction false} RunIsTimed(kind: Kind, maxAttempts: nat, events: seq<Event>)
    requires Possible(kind, maxAttempts, events)
    ensures TimedQueue(Run(kind, maxAttempts, events), events)
  {
    if |events| > 0 {
      var init := events[..|events| - 1];
      RunIsTimed(kind, maxAttempts, init);
      RunKeeps(kind, maxAttempts, init);
      StepIsTimed(kind, maxAttempts, Run(kind, maxAttempts, init), events, init);
    }
  }

  lemma StepIsTimed(kind: Kind, maxAttempts: nat, q: Queue, events: seq<Event>, init: seq<Event>)
    requires |events| > 0 && init == events[..|events| - 1]
    requires Inv(q, maxAttempts) && TimedQueue(q, init) && Enabled(kind, q, events[|events| - 1])
    ensures TimedQueue(Step(kind, maxAttempts, q, events[|events| - 1]), events)
  {
    hide Inv, Received, Deliver, Timed;
    var last := events[|events| - 1];
    PutBackIsNew(kind, maxAttempts, q, events, init, q.queued);
    PutBackIsNew(kind, maxAttempts, q, events, init, q.buffered);
    AllStayTimed(events, init, q.buffered, q.buffered);
    AllStayTimed(events, init, q.queued, q.queued);
    match last
    case Send(now, delay) =>
      PutBackNow(events, Entry(q.sent, 0, now + 1000 * delay));
    case Retry(t, now, delay) =>
      PutBackNow(events, Entry(t, q.claimed[t], now + 1000 * delay));
    case Receive(now, limit) =>
      SplitMembers(kind, q.queued, now, limit);
      AllStayTimed(events, init, q.queued, Received(kind, q.queued, now, limit).left);
    case _ =>
  }

  // --- What a receive hands out ---

  /** The tickets that a receive after `events` hands out. */
  function HandedOut(kind: Kind, maxAttempts: nat, events: seq<Event>, now: int, limit: nat): seq<nat>
    requires Possible(kind, maxAttempts, events)
  {
    var q := Run(kind, maxAttempts, events);
    var after := Step(kind, maxAttempts, q, Receive(now, limit));
    after.delivered[|q.delivered|..]
  }

  lemma HandedOutAreTaken(kind: Kind, maxAttempts: nat, events: seq<Event>, now: int, limit: nat)
    requires Possible(kind, maxAttempts, events)
    ensures
      HandedOut(kind, maxAttempts, events, now, limit)
      == Tickets(Received(kind, Run(kind, maxAttempts, events).queued, now, limit).taken)
  {
    hide Received, Deliver, Run;
  }

  /** The time from which message `t` may be seen after `events`, and no other. */
  ghost predicate VisibleFrom(events: seq<Event>, t: nat, time: int) {
    exists j | 0 <= j < |events| :: PutsBackLast(events, j, t) && time == events[j].now + 1000 * events[j].delay
  }

  lemma VisibleFromOne(events: seq<Event>, t: nat, a: int, b: int)
    requires VisibleFrom(events, t, a) && VisibleFrom(events, t, b)
    ensures a == b
  {
    var i :| 0 <= i < |events| && PutsBackLast(events, i, t) && a == events[i].now + 1000 * events[i].delay;
    var j :| 0 <= j < |events| && PutsBackLast(events, j, t) && b == events[j].now + 1000 * events[j].delay;
    assert i == j;
  }

  lemma TimedIsVisible(events: seq<Event>, entries: seq<Entry>, e: Entry)
    requires AllTimed(events, entries) && e in entries
    ensures VisibleFrom(events, e.ticket, e.availableAt)
  {
    var i :| 0 <= i < |entries| && entries[i] == e;
    assert Timed(events, entries[i]);
  }

  /** In every run, a message handed out was sent or put back before, and its delay has passed since the last time it was. */
  lemma NotBeforeItsTime(kind: Kind, maxAttempts: nat, events: seq<Event>, now: int, limit: nat, t: nat) returns (j: nat)
    requires Possible(kind, maxAttempts, events) && t in HandedOut(kind, maxAttempts, events, now, limit)
    ensures PutsBackLast(events, j, t) && now >= events[j].now + 1000 * events[j].delay
  {
    var queued := Run(kind, maxAttempts, events).queued;
    RunIsTimed(kind, maxAttempts, events);
    HandedOutAreTaken(kind, maxAttempts, events, now, limit);
    SplitMembers(kind, queued, now, limit);
    hide HandedOut, Received, PutsBackLast;
    var taken := Received(kind, queued, now, limit).taken;
    var k :| 0 <= k < |taken| && taken[k].ticket == t;
    assert taken[k] in taken;
    TimedIsVisible(events, queued, taken[k]);
    j :| 0 <= j < |events| && PutsBackLast(events, j, t) && taken[k].availableAt == events[j].now + 1000 * events[j].delay;
  }

  lemma {:induction false} SelectAllDue(queued: seq<Entry>, now: int, e: Entry)
    requires e in queued && e.availableAt <= now
    ensures e in Select(queued, now, true)
  {
    var last := |queued| - 1;
    if e != queued[last] {
      SelectAllDue(queued[..last], now, e);
    }
  }

  lemma {:induction false} ClaimAllDue(queued: seq<Entry>, now: int, limit: nat, e: Entry)
    requires e in queued && e.availableAt <= now && |Claim(queued, now, limit).taken| < limit
    ensures e in Claim(queued, now, limit).taken
    decreases limit
  {
    var i := Earliest(queued, now);
    assert i >= 0;
    if e != queued[i] {
      assert e in RemoveAt(queued, i);
      ClaimAllDue(RemoveAt(queued, i), now, limit - 1, e);
    }
  }

  /**
   * A queued message is handed out exactly when its time has come: by every receive of the in-process queue, and by
   * every receive of the table that hands out fewer than its limit.
   */
  lemma HandsOutExactly(kind: Kind, maxAttempts: nat, events: seq<Event>, now: int, limit: nat, t: nat, time: int)
    requires Possible(kind, maxAttempts, events) && VisibleFrom(events, t, time)
    requires t in Tickets(Run(kind, maxAttempts, events).queued)
    requires kind == Memory || |HandedOut(kind, maxAttempts, events, now, limit)| < limit
    ensures t in HandedOut(kind, maxAttempts, events, now, limit) <==> time <= now
  {
    var queued := Run(kind, maxAttempts, events).queued;
    RunIsTimed(kind, maxAttempts, events);
    HandedOutAreTaken(kind, maxAttempts, events, now, limit);
    var taken := Received(kind, queued, now, limit).taken;
    if time <= now {
      var i :| 0 <= i < |queued| && queued[i].ticket == t;
      TimedIsVisible(events, queued, queued[i]);
      VisibleFromOne(events, t, queued[i].availableAt, time);
      if kind == Memory {
        SelectAllDue(queued, now, queued[i]);
      } else {
        ClaimAllDue(queued, now, limit, queued[i]);
      }
      hide HandedOut, Received, VisibleFrom;
      var k :| 0 <= k < |taken| && taken[k] == queued[i];
      assert Tickets(taken)[k] == t;
    }
    if t in HandedOut(kind, maxAttempts, events, now, limit) {
      InTime(kind, maxAttempts, events, now, limit, t, time);
    }
  }

  lemma InTime(kind: Kind, maxAttempts: nat, events: seq<Event>, now: int, limit: nat, t: nat, time: int)
    requires Possible(kind, maxAttempts, events) && t in HandedOut(kind, maxAttempts, events, now, limit)
    requires VisibleFrom(events, t, time)
    ensures time <= now
  {
    var j := NotBeforeItsTime(kind, maxAttempts, events, now, limit, t);
    hide HandedOut;
    VisibleFromOne(events, t, events[j].now + 1000 * events[j].delay, time);
  }
}
