/**
 * The two job queues (adapters/memory/memory-queue.ts, adapters/sql/queue.ts) as one state machine:
 * where every message is, and how often it was delivered.
 */
module JobQueues {

  /** A queued message: which send it came from, deliveries so far, and when it becomes visible. */
  datatype Entry = Entry(ticket: nat, attempts: nat, availableAt: int)

  /** The in-process queue takes all due messages and queues retries at once; the table takes some, and buffers retries. */
  datatype Kind = Memory | Sql

  /** `delivered` logs the tickets handed out, oldest first; `claimed` has the attempt number of what is being handled. */
  datatype Queue = Queue(
    sent: nat, queued: seq<Entry>, claimed: map<nat, nat>, acked: set<nat>,
    buffered: seq<Entry>, dead: seq<nat>, lost: set<nat>, delivered: seq<nat>)

  datatype Event =
    | Send(now: int, delay: nat)
    | Receive(now: int, limit: nat)
    | Ack(ticket: nat)
    | Retry(ticket: nat, now: int, delay: nat)
    | Flush(written: bool)
    | Crash

  // --- Receiving ---

  predicate Due(e: Entry, now: int) { e.availableAt <= now }

  /** The due entries, and the others, each in queue order. */
  function Select(queued: seq<Entry>, now: int, due: bool): seq<Entry> {
    if |queued| == 0 then []
    else Select(queued[..|queued| - 1], now, due)
         + if Due(queued[|queued| - 1], now) == due then [queued[|queued| - 1]] else []
  }

  /** The position of the due entry that has waited longest, the first of them in the table; `None` without one. */
  function Earliest(queued: seq<Entry>, now: int): (i: int)
    ensures -1 <= i < |queued|
    ensures i >= 0 ==> Due(queued[i], now)
    ensures i < 0 <==> forall j | 0 <= j < |queued| :: !Due(queued[j], now)
    ensures i >= 0 ==> forall j | 0 <= j < |queued| && Due(queued[j], now) ::
      queued[i].availableAt < queued[j].availableAt || (queued[i].availableAt == queued[j].availableAt && i <= j)
  {
    if |queued| == 0 then -1
    else
      var n := |queued| - 1;
      var before := Earliest(queued[..n], now);
      if !Due(queued[n], now) then before
      else if before < 0 || queued[n].availableAt < queued[before].availableAt then n
      else before
  }

  function RemoveAt(queued: seq<Entry>, i: nat): seq<Entry>
    requires i < |queued|
  {
    queued[..i] + queued[i + 1..]
  }

  /** What a receive takes, and what it leaves. */
  datatype Split = Split(taken: seq<Entry>, left: seq<Entry>)

  function Claim(queued: seq<Entry>, now: int, limit: nat): Split
    decreases limit
  {
    var i := Earliest(queued, now);
    if limit == 0 || i < 0 then Split([], queued)
    else
      var rest := Claim(RemoveAt(queued, i), now, limit - 1);
      Split([queued[i]] + rest.taken, rest.left)
  }

  function Received(kind: Kind, queued: seq<Entry>, now: int, limit: nat): Split {
    if kind == Memory then Split(Select(queued, now, true), Select(queued, now, false)) else Claim(queued, now, limit)
  }

  function Tickets(entries: seq<Entry>): seq<nat> {
    seq(|entries|, i requires 0 <= i < |entries| => entries[i].ticket)
  }

  /** Handing the entries out, one more delivery each. */
  function Deliver(claimed: map<nat, nat>, taken: seq<Entry>): map<nat, nat> {
    if |taken| == 0 then claimed
    else Deliver(claimed, taken[..|taken| - 1])[taken[|taken| - 1].ticket := taken[|taken| - 1].attempts + 1]
  }

  // --- Steps ---

  predicate Enabled(kind: Kind, q: Queue, e: Event) {
    match e
    case Ack(t) => t in q.claimed
    case Retry(t, _, _) => t in q.claimed
    case Flush(_) => kind == Sql
    case Crash => kind == Sql
    case _ => true
  }

  function Step(kind: Kind, maxAttempts: nat, q: Queue, e: Event): Queue
    requires Enabled(kind, q, e)
  {
    match e
    case Send(now, delay) =>
      q.(sent := q.sent + 1, queued := q.queued + [Entry(q.sent, 0, now + delay * 1000)])
    case Receive(now, limit) =>
      var split := Received(kind, q.queued, now, limit);
      q.(queued := split.left, claimed := Deliver(q.claimed, split.taken), delivered := q.delivered + Tickets(split.taken))
    case Ack(t) => q.(claimed := q.claimed - {t}, acked := q.acked + {t})
    case Retry(t, now, delay) =>
      var settled := q.(claimed := q.claimed - {t});
      var again := Entry(t, q.claimed[t], now + delay * 1000);
      if q.claimed[t] >= maxAttempts then settled.(dead := q.dead + [t])
      else if kind == Memory then settled.(queued := q.queued + [again])
      else settled.(buffered := q.buffered + [again])
    case Flush(written) =>
      if written then q.(queued := q.queued + q.buffered, buffered := [])
      else q.(lost := q.lost + (set i | 0 <= i < |q.buffered| :: q.buffered[i].ticket), buffered := [])
    case Crash =>
      q.(lost := q.lost + q.claimed.Keys + (set i | 0 <= i < |q.buffered| :: q.buffered[i].ticket)
                 + (set i | 0 <= i < |q.dead| :: q.dead[i]),
         claimed := map[], buffered := [], dead := [])
  }

  const EMPTY := Queue(0, [], map[], {}, [], [], {}, [])

  // --- Counting ---

  function Count(tickets: seq<nat>, t: nat): nat {
    if |tickets| == 0 then 0 else Count(tickets[..|tickets| - 1], t) + if tickets[|tickets| - 1] == t then 1 else 0
  }

  function In(entries: seq<Entry>, t: nat): nat {
    if |entries| == 0 then 0 else In(entries[..|entries| - 1], t) + if entries[|entries| - 1].ticket == t then 1 else 0
  }

  function One(b: bool): nat { if b then 1 else 0 }

  /** In how many places a message is. */
  function Places(q: Queue, t: nat): nat {
    In(q.queued, t) + One(t in q.claimed) + One(t in q.acked) + In(q.buffered, t) + Count(q.dead, t) + One(t in q.lost)
  }

  lemma {:induction false} InAppends(a: seq<Entry>, b: seq<Entry>, t: nat)
    ensures In(a + b, t) == In(a, t) + In(b, t)
  {
    if |b| == 0 {
      assert a + b == a;
    } else {
      InAppends(a, b[..|b| - 1], t);
      assert (a + b)[..|a + b| - 1] == a + b[..|b| - 1];
    }
  }

  lemma {:induction false} CountAppends(a: seq<nat>, b: seq<nat>, t: nat)
    ensures Count(a + b, t) == Count(a, t) + Count(b, t)
  {
    if |b| == 0 {
      assert a + b == a;
    } else {
      CountAppends(a, b[..|b| - 1], t);
      assert (a + b)[..|a + b| - 1] == a + b[..|b| - 1];
    }
  }

  lemma {:induction false} InIsMembership(entries: seq<Entry>, t: nat)
    ensures In(entries, t) > 0 <==> exists i :: 0 <= i < |entries| && entries[i].ticket == t
    ensures Count(Tickets(entries), t) == In(entries, t)
  {
    if |entries| > 0 {
      InIsMembership(entries[..|entries| - 1], t);
      assert Tickets(entries)[..|entries| - 1] == Tickets(entries[..|entries| - 1]);
      if i :| 0 <= i < |entries| && entries[i].ticket == t {
        assert i < |entries| - 1 ==> entries[..|entries| - 1][i].ticket == t;
      }
    }
  }

  lemma {:induction false} CountIsMembership(tickets: seq<nat>, t: nat)
    ensures Count(tickets, t) > 0 <==> t in tickets
  {
    if |tickets| > 0 {
      CountIsMembership(tickets[..|tickets| - 1], t);
      assert tickets == tickets[..|tickets| - 1] + [tickets[|tickets| - 1]];
    }
  }

  // --- Splitting conserves ---

  lemma {:induction false} SelectConserves(queued: seq<Entry>, now: int, t: nat)
    ensures In(Select(queued, now, true), t) + In(Select(queued, now, false), t) == In(queued, t)
  {
    if |queued| > 0 {
      var init, last := queued[..|queued| - 1], queued[|queued| - 1];
      SelectConserves(init, now, t);
      InAppends(Select(init, now, true), if Due(last, now) then [last] else [], t);
      InAppends(Select(init, now, false), if Due(last, now) then [] else [last], t);
      assert [last][..0] == [];
    }
  }

  lemma RemoveAtCounts(queued: seq<Entry>, i: nat, t: nat)
    requires i < |queued|
    ensures In(queued, t) == In([queued[i]], t) + In(RemoveAt(queued, i), t)
  {
    hide In;
    InAppends(queued[..i], queued[i + 1..], t);
    InAppends(queued[..i], [queued[i]], t);
    InAppends(queued[..i] + [queued[i]], queued[i + 1..], t);
    assert queued == queued[..i] + [queued[i]] + queued[i + 1..];
  }

  lemma {:induction false} ClaimConserves(queued: seq<Entry>, now: int, limit: nat, t: nat)
    ensures In(Claim(queued, now, limit).taken, t) + In(Claim(queued, now, limit).left, t) == In(queued, t)
    decreases limit
  {
    hide RemoveAt, Earliest;
    var i := Earliest(queued, now);
    if limit > 0 && i >= 0 {
      ClaimConserves(RemoveAt(queued, i), now, limit - 1, t);
      InAppends([queued[i]], Claim(RemoveAt(queued, i), now, limit - 1).taken, t);
      RemoveAtCounts(queued, i, t);
    }
  }

  lemma SplitConserves(kind: Kind, queued: seq<Entry>, now: int, limit: nat, t: nat)
    ensures var split := Received(kind, queued, now, limit); In(split.taken, t) + In(split.left, t) == In(queued, t)
  {
    hide Select, Claim, In;
    SelectConserves(queued, now, t);
    ClaimConserves(queued, now, limit, t);
  }

  lemma {:induction false} SelectMembers(queued: seq<Entry>, now: int, due: bool)
    ensures forall e | e in Select(queued, now, due) :: e in queued && Due(e, now) == due
  {
    hide Due;
    if |queued| > 0 { SelectMembers(queued[..|queued| - 1], now, due); }
  }

  lemma {:induction false} ClaimMembers(queued: seq<Entry>, now: int, limit: nat)
    ensures forall e | e in Claim(queued, now, limit).taken :: e in queued && Due(e, now)
    ensures forall e | e in Claim(queued, now, limit).left :: e in queued
    decreases limit
  {
    var i := Earliest(queued, now);
    if limit > 0 && i >= 0 {
      ClaimMembers(RemoveAt(queued, i), now, limit - 1);
      assert forall e | e in RemoveAt(queued, i) :: e in queued;
    }
  }

  lemma SplitMembers(kind: Kind, queued: seq<Entry>, now: int, limit: nat)
    ensures var split := Received(kind, queued, now, limit);
            (forall e | e in split.taken :: e in queued && Due(e, now)) && (forall e | e in split.left :: e in queued)
  {
    hide Select, Claim, Due;
    SelectMembers(queued, now, true);
    SelectMembers(queued, now, false);
    ClaimMembers(queued, now, limit);
    assert forall e | e in Claim(queued, now, limit).taken :: e in queued && Due(e, now);
  }

  lemma {:induction false} DeliverAt(claimed: map<nat, nat>, taken: seq<Entry>, t: nat)
    ensures In(taken, t) == 0 ==> (t in Deliver(claimed, taken) <==> t in claimed)
    ensures In(taken, t) == 0 && t in claimed ==> Deliver(claimed, taken)[t] == claimed[t]
    ensures In(taken, t) > 0 ==> t in Deliver(claimed, taken)
    ensures In(taken, t) > 0 ==>
      exists i :: 0 <= i < |taken| && taken[i].ticket == t && Deliver(claimed, taken)[t] == taken[i].attempts + 1
  {
    if |taken| > 0 {
      var n := |taken| - 1;
      DeliverAt(claimed, taken[..n], t);
      if taken[n].ticket == t {
        assert Deliver(claimed, taken)[t] == taken[n].attempts + 1;
      } else if In(taken, t) > 0 {
        var i :| 0 <= i < n && taken[..n][i].ticket == t && Deliver(claimed, taken[..n])[t] == taken[..n][i].attempts + 1;
        assert taken[i] == taken[..n][i];
      }
    }
  }

  // --- The invariant ---

  function Limit(maxAttempts: nat): nat { if maxAttempts == 0 then 1 else maxAttempts }

  /** A waiting entry knows its deliveries, and has one left. */
  predicate Waiting(q: Queue, maxAttempts: nat, e: Entry) {
    e.attempts == Count(q.delivered, e.ticket) && e.attempts < Limit(maxAttempts)
  }

  /** One message: in exactly one place, and delivered no more often than allowed. */
  predicate Sound(q: Queue, maxAttempts: nat, t: nat) {
    && Places(q, t) == One(t < q.sent)
    && Count(q.delivered, t) <= Limit(maxAttempts)
    && (t >= q.sent ==> Count(q.delivered, t) == 0)
    && (t in q.claimed ==> q.claimed[t] == Count(q.delivered, t) > 0)
    && (Count(q.dead, t) > 0 ==> Count(q.delivered, t) == Limit(maxAttempts))
  }

  ghost predicate Inv(q: Queue, maxAttempts: nat) {
    && (forall i | 0 <= i < |q.queued| :: Waiting(q, maxAttempts, q.queued[i]))
    && (forall i | 0 <= i < |q.buffered| :: Waiting(q, maxAttempts, q.buffered[i]))
    && (forall t :: Sound(q, maxAttempts, t))
  }

  lemma EmptyIsSound(maxAttempts: nat)
    ensures Inv(EMPTY, maxAttempts)
  {
    forall t
      ensures Sound(EMPTY, maxAttempts, t)
    {
    }
  }

  lemma SendKeeps(kind: Kind, maxAttempts: nat, q: Queue, now: int, delay: nat)
    requires Inv(q, maxAttempts)
    ensures Inv(Step(kind, maxAttempts, q, Send(now, delay)), maxAttempts)
  {
    hide Count, In;
    var e := Entry(q.sent, 0, now + delay * 1000);
    var later := Step(kind, maxAttempts, q, Send(now, delay));
    assert Sound(q, maxAttempts, q.sent);
    forall t
      ensures Sound(later, maxAttempts, t)
    {
      assert Sound(q, maxAttempts, t);
      InAppends(q.queued, [e], t);
      InOne(e, t);
    }
  }

  lemma InOne(e: Entry, t: nat)
    ensures In([e], t) == One(e.ticket == t)
  {
    assert [e][..0] == [];
  }

  lemma CountOne(n: nat, t: nat)
    ensures Count([n], t) == One(n == t)
  {
    assert [n][..0] == [];
  }

  lemma TakenIsWaiting(q: Queue, maxAttempts: nat, split: Split, t: nat, i: nat)
    requires Inv(q, maxAttempts) && i < |split.taken| && split.taken[i].ticket == t
    requires forall e | e in split.taken :: e in q.queued
    ensures Waiting(q, maxAttempts, split.taken[i])
  {
    var e := split.taken[i];
    assert e in split.taken;
    var j :| 0 <= j < |q.queued| && q.queued[j] == e;
  }

  lemma ReceivedOne(kind: Kind, maxAttempts: nat, q: Queue, now: int, limit: nat, t: nat)
    requires Inv(q, maxAttempts)
    ensures Sound(Step(kind, maxAttempts, q, Receive(now, limit)), maxAttempts, t)
  {
    hide Count, In, Received, Deliver, Waiting;
    var split := Received(kind, q.queued, now, limit);
    assert Sound(q, maxAttempts, t);
    SplitConserves(kind, q.queued, now, limit, t);
    SplitMembers(kind, q.queued, now, limit);
    CountAppends(q.delivered, Tickets(split.taken), t);
    InIsMembership(split.taken, t);
    DeliverAt(q.claimed, split.taken, t);
    if In(split.taken, t) > 0 {
      var claimed := Deliver(q.claimed, split.taken);
      var i :| 0 <= i < |split.taken| && split.taken[i].ticket == t && claimed[t] == split.taken[i].attempts + 1;
      TakenIsWaiting(q, maxAttempts, split, t, i);
      WaitingMeans(q, maxAttempts, split.taken[i]);
    }
  }

  lemma WaitingMeans(q: Queue, maxAttempts: nat, e: Entry)
    requires Waiting(q, maxAttempts, e)
    ensures e.attempts == Count(q.delivered, e.ticket) && e.attempts < Limit(maxAttempts)
  {
  }

  /** An entry whose message was not handed out still knows its deliveries. */
  lemma StillWaiting(kind: Kind, maxAttempts: nat, q: Queue, now: int, limit: nat, e: Entry)
    requires Inv(q, maxAttempts) && Waiting(q, maxAttempts, e)
    requires In(Received(kind, q.queued, now, limit).taken, e.ticket) == 0
    ensures Waiting(Step(kind, maxAttempts, q, Receive(now, limit)), maxAttempts, e)
  {
    hide Count, In, Received, Deliver;
    var split := Received(kind, q.queued, now, limit);
    CountAppends(q.delivered, Tickets(split.taken), e.ticket);
    InIsMembership(split.taken, e.ticket);
  }

  lemma ReceiveKeeps(kind: Kind, maxAttempts: nat, q: Queue, now: int, limit: nat)
    requires Inv(q, maxAttempts)
    ensures Inv(Step(kind, maxAttempts, q, Receive(now, limit)), maxAttempts)
  {
    hide Count, In, Received, Deliver, Waiting, Sound;
    var split := Received(kind, q.queued, now, limit);
    var later := Step(kind, maxAttempts, q, Receive(now, limit));
    forall t
      ensures Sound(later, maxAttempts, t)
    {
      ReceivedOne(kind, maxAttempts, q, now, limit, t);
    }
    SplitMembers(kind, q.queued, now, limit);
    forall i | 0 <= i < |split.left|
      ensures Waiting(later, maxAttempts, split.left[i])
    {
      var e := split.left[i];
      assert e in split.left;
      var j :| 0 <= j < |q.queued| && q.queued[j] == e;
      InIsMembership(split.left, e.ticket);
      SplitConserves(kind, q.queued, now, limit, e.ticket);
      SoundIsOnce(q, maxAttempts, e.ticket);
      StillWaiting(kind, maxAttempts, q, now, limit, e);
    }
    forall i | 0 <= i < |q.buffered|
      ensures Waiting(later, maxAttempts, q.buffered[i])
    {
      var e := q.buffered[i];
      InIsMembership(q.buffered, e.ticket);
      SplitConserves(kind, q.queued, now, limit, e.ticket);
      SoundIsOnce(q, maxAttempts, e.ticket);
      StillWaiting(kind, maxAttempts, q, now, limit, e);
    }
  }

  lemma SoundIsOnce(q: Queue, maxAttempts: nat, t: nat)
    requires Inv(q, maxAttempts)
    ensures In(q.queued, t) + In(q.buffered, t) <= 1
  {
    assert Sound(q, maxAttempts, t);
  }

  lemma SettleKeeps(kind: Kind, maxAttempts: nat, q: Queue, e: Event)
    requires Inv(q, maxAttempts) && Enabled(kind, q, e) && (e.Ack? || e.Retry?)
    ensures Inv(Step(kind, maxAttempts, q, e), maxAttempts)
  {
    hide Count, In;
    var later := Step(kind, maxAttempts, q, e);
    var again := Entry(e.ticket, q.claimed[e.ticket], if e.Retry? then e.now + e.delay * 1000 else 0);
    assert Sound(q, maxAttempts, e.ticket);
    forall t
      ensures Sound(later, maxAttempts, t)
    {
      assert Sound(q, maxAttempts, t);
      InAppends(q.queued, [again], t);
      InAppends(q.buffered, [again], t);
      InOne(again, t);
      CountAppends(q.dead, [e.ticket], t);
      CountOne(e.ticket, t);
    }
  }

  function Buffered(q: Queue): set<nat> {
    set i | 0 <= i < |q.buffered| :: q.buffered[i].ticket
  }

  lemma FlushKeeps(kind: Kind, maxAttempts: nat, q: Queue, written: bool)
    requires Inv(q, maxAttempts) && kind == Sql
    ensures Inv(Step(kind, maxAttempts, q, Flush(written)), maxAttempts)
  {
    hide Count, In;
    var later := Step(kind, maxAttempts, q, Flush(written));
    InNothing();
    forall t
      ensures Sound(later, maxAttempts, t)
    {
      assert Sound(q, maxAttempts, t);
      InAppends(q.queued, q.buffered, t);
      InIsMembership(q.buffered, t);
    }
  }

  lemma InNothing()
    ensures forall t :: In([], t) == 0 && Count([], t) == 0
  {
  }

  lemma CrashKeeps(kind: Kind, maxAttempts: nat, q: Queue)
    requires Inv(q, maxAttempts) && kind == Sql
    ensures Inv(Step(kind, maxAttempts, q, Crash), maxAttempts)
  {
    hide Count, In;
    var later := Step(kind, maxAttempts, q, Crash);
    InNothing();
    forall t
      ensures Sound(later, maxAttempts, t)
    {
      assert Sound(q, maxAttempts, t);
      InIsMembership(q.buffered, t);
      CountIsMembership(q.dead, t);
    }
  }

  lemma StepKeeps(kind: Kind, maxAttempts: nat, q: Queue, e: Event)
    requires Inv(q, maxAttempts) && Enabled(kind, q, e)
    ensures Inv(Step(kind, maxAttempts, q, e), maxAttempts)
  {
    hide Inv, Step;
    match e
    case Send(now, delay) => SendKeeps(kind, maxAttempts, q, now, delay);
    case Receive(now, limit) => ReceiveKeeps(kind, maxAttempts, q, now, limit);
    case Ack(_) => SettleKeeps(kind, maxAttempts, q, e);
    case Retry(_, _, _) => SettleKeeps(kind, maxAttempts, q, e);
    case Flush(written) => FlushKeeps(kind, maxAttempts, q, written);
    case Crash => CrashKeeps(kind, maxAttempts, q);
  }

  // --- Runs ---

  predicate Possible(kind: Kind, maxAttempts: nat, events: seq<Event>)
    decreases |events|, 0
  {
    |events| == 0
    || (Possible(kind, maxAttempts, events[..|events| - 1])
        && Enabled(kind, Run(kind, maxAttempts, events[..|events| - 1]), events[|events| - 1]))
  }

  function Run(kind: Kind, maxAttempts: nat, events: seq<Event>): Queue
    requires Possible(kind, maxAttempts, events)
    decreases |events|, 1
  {
    if |events| == 0 then EMPTY
    else Step(kind, maxAttempts, Run(kind, maxAttempts, events[..|events| - 1]), events[|events| - 1])
  }

  lemma {:induction false} RunKeeps(kind: Kind, maxAttempts: nat, events: seq<Event>)
    requires Possible(kind, maxAttempts, events)
    ensures Inv(Run(kind, maxAttempts, events), maxAttempts)
  {
    hide Step, Inv;
    if |events| == 0 {
      EmptyIsSound(maxAttempts);
    } else {
      RunKeeps(kind, maxAttempts, events[..|events| - 1]);
      StepKeeps(kind, maxAttempts, Run(kind, maxAttempts, events[..|events| - 1]), events[|events| - 1]);
    }
  }

  /**
   * In every run, each message sent is in exactly one place and no other ticket is anywhere;
   * none is delivered more than `maxAttempts` times (once, if that is 0).
   */
  lemma MessagesAreConserved(kind: Kind, maxAttempts: nat, events: seq<Event>, t: nat)
    requires Possible(kind, maxAttempts, events)
    ensures
      var q := Run(kind, maxAttempts, events);
      && Places(q, t) == One(t < q.sent)
      && Count(q.delivered, t) <= Limit(maxAttempts)
      && (t in q.dead ==> Count(q.delivered, t) == Limit(maxAttempts))
  {
    hide Count, Places, Run;
    RunKeeps(kind, maxAttempts, events);
    var q := Run(kind, maxAttempts, events);
    assert Sound(q, maxAttempts, t);
    CountIsMembership(q.dead, t);
  }

  /** Event `i` retries the last delivery message `t` is allowed. */
  predicate LastRetry(kind: Kind, maxAttempts: nat, events: seq<Event>, i: nat, t: nat)
    requires Possible(kind, maxAttempts, events)
  {
    && i < |events| && events[i].Retry? && events[i].ticket == t
    && Possible(kind, maxAttempts, events[..i])
    && t in Run(kind, maxAttempts, events[..i]).claimed
    && Count(Run(kind, maxAttempts, events[..i]).delivered, t) == Limit(maxAttempts)
  }

  /** It did, and the process has lived since. */
  predicate Died(kind: Kind, maxAttempts: nat, events: seq<Event>, i: nat, t: nat)
    requires Possible(kind, maxAttempts, events)
  {
    i < |events| && LastRetry(kind, maxAttempts, events, i, t) && Crash !in events[i..]
  }

  lemma DiedBefore(kind: Kind, maxAttempts: nat, events: seq<Event>, i: nat, t: nat)
    requires Possible(kind, maxAttempts, events) && i < |events| - 1
    ensures Died(kind, maxAttempts, events, i, t)
        <==> events[|events| - 1] != Crash && Died(kind, maxAttempts, events[..|events| - 1], i, t)
  {
    hide Run;
    var n := |events| - 1;
    var init, e := events[..n], events[n];
    assert init[..i] == events[..i] && init[i] == events[i];
    var tail := init[i..];
    assert |tail| == n - i && |events[i..]| == n - i + 1;
    assert events[i..] == tail + [e];
  }

  /** A message is dead exactly when its last allowed delivery was retried, and the process has lived since. */
  lemma {:induction false} DeadExactly(kind: Kind, maxAttempts: nat, events: seq<Event>, t: nat)
    requires Possible(kind, maxAttempts, events)
    ensures t in Run(kind, maxAttempts, events).dead <==> exists i: nat :: Died(kind, maxAttempts, events, i, t)
  {
    hide Step, LastRetry;
    if |events| > 0 {
      var n := |events| - 1;
      var init, e := events[..n], events[n];
      DeadExactly(kind, maxAttempts, init, t);
      RunKeeps(kind, maxAttempts, init);
      DeadStep(kind, maxAttempts, Run(kind, maxAttempts, init), e, t);
      DiesNow(kind, maxAttempts, events, t);
      forall i: nat | i < n
        ensures Died(kind, maxAttempts, events, i, t) <==> e != Crash && Died(kind, maxAttempts, init, i, t)
      {
        DiedBefore(kind, maxAttempts, events, i, t);
      }
      hide Died;
      DiedInside(kind, maxAttempts, events, t);
      DiedInside(kind, maxAttempts, init, t);
    }
  }

  lemma DiedInside(kind: Kind, maxAttempts: nat, events: seq<Event>, t: nat)
    requires Possible(kind, maxAttempts, events)
    ensures forall i: nat | Died(kind, maxAttempts, events, i, t) :: i < |events|
  {
  }

  lemma DiesNow(kind: Kind, maxAttempts: nat, events: seq<Event>, t: nat)
    requires Possible(kind, maxAttempts, events) && |events| > 0
    requires Inv(Run(kind, maxAttempts, events[..|events| - 1]), maxAttempts)
    ensures
      var n := |events| - 1;
      var e, q := events[n], Run(kind, maxAttempts, events[..n]);
      Died(kind, maxAttempts, events, n, t) <==> e.Retry? && e.ticket == t && Count(q.delivered, t) == Limit(maxAttempts)
  {
    hide Run, Count;
    var n := |events| - 1;
    assert events[n..] == [events[n]];
  }

  lemma DeadStep(kind: Kind, maxAttempts: nat, q: Queue, e: Event, t: nat)
    requires Inv(q, maxAttempts) && Enabled(kind, q, e)
    ensures t in Step(kind, maxAttempts, q, e).dead
        <==> e != Crash && (t in q.dead || (e.Retry? && e.ticket == t && Count(q.delivered, t) == Limit(maxAttempts)))
  {
    hide Count, In, Received, Deliver, Waiting;
    assert Sound(q, maxAttempts, t);
  }

  /** Event `i` loses message `t`: the process dies with it in hand, buffered or dead, or its buffered retry is not written. */
  predicate LostAt(kind: Kind, maxAttempts: nat, events: seq<Event>, i: nat, t: nat) {
    && i < |events| && Possible(kind, maxAttempts, events[..i])
    && LosesNow(Run(kind, maxAttempts, events[..i]), events[i], t)
  }

  predicate LosesNow(q: Queue, e: Event, t: nat) {
    match e
    case Crash => t in q.claimed || t in Buffered(q) || t in q.dead
    case Flush(written) => !written && t in Buffered(q)
    case _ => false
  }

  lemma LostStep(kind: Kind, maxAttempts: nat, q: Queue, e: Event, t: nat)
    requires Enabled(kind, q, e)
    ensures t in Step(kind, maxAttempts, q, e).lost <==> t in q.lost || LosesNow(q, e, t)
  {
    hide Received, Deliver, Tickets;
  }

  /** A message is lost exactly when some event of the run lost it. */
  lemma {:induction false} LostExactly(kind: Kind, maxAttempts: nat, events: seq<Event>, t: nat)
    requires Possible(kind, maxAttempts, events)
    ensures t in Run(kind, maxAttempts, events).lost <==> exists i: nat :: LostAt(kind, maxAttempts, events, i, t)
  {
    hide Step, LosesNow;
    if |events| > 0 {
      var n := |events| - 1;
      var init := events[..n];
      LostExactly(kind, maxAttempts, init, t);
      LostStep(kind, maxAttempts, Run(kind, maxAttempts, init), events[n], t);
      assert LostAt(kind, maxAttempts, events, n, t) <==> LosesNow(Run(kind, maxAttempts, init), events[n], t);
      forall i: nat | i < n
        ensures LostAt(kind, maxAttempts, events, i, t) <==> LostAt(kind, maxAttempts, init, i, t)
      {
        assert init[..i] == events[..i];
      }
    }
  }

  /** So only a process that dies, or a flush that is not written, loses messages. */
  lemma LostOnlyByFailure(kind: Kind, maxAttempts: nat, events: seq<Event>)
    requires Possible(kind, maxAttempts, events) && Crash !in events && Flush(false) !in events
    ensures Run(kind, maxAttempts, events).lost == {}
  {
    hide Run, Possible;
    forall t
      ensures t !in Run(kind, maxAttempts, events).lost
    {
      LostExactly(kind, maxAttempts, events, t);
    }
  }

  lemma OneMore(kind: Kind, maxAttempts: nat, events: seq<Event>, e: Event)
    requires Possible(kind, maxAttempts, events) && Enabled(kind, Run(kind, maxAttempts, events), e)
    ensures Possible(kind, maxAttempts, events + [e])
    ensures Run(kind, maxAttempts, events + [e]) == Step(kind, maxAttempts, Run(kind, maxAttempts, events), e)
  {
    hide Step;
    assert (events + [e])[..|events|] == events;
  }

  lemma ReceiveTheOne(maxAttempts: nat, entry: Entry)
    requires Due(entry, 0) && entry.attempts == 0
    ensures Step(Sql, maxAttempts, Queue(1, [entry], map[], {}, [], [], {}, []), Receive(0, 1))
         == Queue(1, [], map[entry.ticket := 1], {}, [], [], {}, [entry.ticket])
  {
    assert Earliest([entry], 0) == 0;
    assert RemoveAt([entry], 0) == [];
    assert Claim([], 0, 0) == Split([], []);
    assert Claim([entry], 0, 1) == Split([entry], []);
    assert [entry][..0] == [];
    assert Tickets([entry]) == [entry.ticket];
    assert [] + Tickets([entry]) == [entry.ticket];
    assert Deliver(map[], []) == map[];
    assert Deliver(map[], [entry]) == map[entry.ticket := 1];
    assert Received(Sql, [entry], 0, 1) == Split([entry], []);
  }

  /** A buffered retry whose write fails is gone, although the message had a delivery left. */
  lemma FailedFlushLoses(maxAttempts: nat) returns (events: seq<Event>)
    requires maxAttempts > 1
    ensures Possible(Sql, maxAttempts, events)
    ensures 0 in Run(Sql, maxAttempts, events).lost && Count(Run(Sql, maxAttempts, events).delivered, 0) == 1
  {
    hide Received, Deliver, Tickets, Run, Possible, Count;
    events := [];
    assert Possible(Sql, maxAttempts, []) && Run(Sql, maxAttempts, []) == EMPTY by { NoEvents(maxAttempts); }
    OneMore(Sql, maxAttempts, events, Send(0, 0));
    events := events + [Send(0, 0)];
    assert Run(Sql, maxAttempts, events).queued == [Entry(0, 0, 0)];
    ReceiveTheOne(maxAttempts, Entry(0, 0, 0));
    OneMore(Sql, maxAttempts, events, Receive(0, 1));
    events := events + [Receive(0, 1)];
    OneMore(Sql, maxAttempts, events, Retry(0, 0, 0));
    events := events + [Retry(0, 0, 0)];
    ghost var q := Run(Sql, maxAttempts, events);
    assert q.buffered == [Entry(0, 1, 0)] && q.delivered == [0];
    assert q.buffered[0].ticket == 0;
    OneMore(Sql, maxAttempts, events, Flush(false));
    events := events + [Flush(false)];
    CountOne(0, 0);
  }

  lemma NoEvents(maxAttempts: nat)
    ensures Possible(Sql, maxAttempts, []) && Run(Sql, maxAttempts, []) == EMPTY
  {
  }

  /** The table hands out what has waited longest: nothing due that is left waited longer, and none is left below the limit. */
  lemma {:induction false} OldestFirst(queued: seq<Entry>, now: int, limit: nat)
    ensures |Claim(queued, now, limit).taken| <= limit
    ensures |Claim(queued, now, limit).taken| < limit ==> forall f | f in Claim(queued, now, limit).left :: !Due(f, now)
    ensures forall f | f in Claim(queued, now, limit).left && Due(f, now) :: NoLater(Claim(queued, now, limit).taken, f)
    decreases limit
  {
    hide Due, RemoveAt;
    var i := Earliest(queued, now);
    if limit > 0 && i >= 0 {
      var rest := RemoveAt(queued, i);
      var sub := Claim(rest, now, limit - 1);
      OldestFirst(rest, now, limit - 1);
      ClaimMembers(rest, now, limit - 1);
      hide Claim;
      assert Claim(queued, now, limit) == Split([queued[i]] + sub.taken, sub.left) by { ClaimUnfolds(queued, now, limit); }
      forall f | f in sub.left && Due(f, now)
        ensures NoLater([queued[i]] + sub.taken, f)
      {
        KeptInside(queued, i, f);
        assert NoLater(sub.taken, f);
      }
    }
  }

  predicate NoLater(taken: seq<Entry>, f: Entry) {
    forall j | 0 <= j < |taken| :: taken[j].availableAt <= f.availableAt
  }

  lemma ClaimUnfolds(queued: seq<Entry>, now: int, limit: nat)
    requires limit > 0 && Earliest(queued, now) >= 0
    ensures
      var i := Earliest(queued, now);
      var sub := Claim(RemoveAt(queued, i), now, limit - 1);
      Claim(queued, now, limit) == Split([queued[i]] + sub.taken, sub.left)
  {
  }

  lemma KeptInside(queued: seq<Entry>, i: nat, f: Entry)
    requires i < |queued| && f in RemoveAt(queued, i)
    ensures exists j :: 0 <= j < |queued| && queued[j] == f
  {
    assert f in queued;
  }
}
