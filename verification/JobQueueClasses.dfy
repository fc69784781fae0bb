/** The queue classes (adapters/memory/memory-queue.ts, adapters/sql/queue.ts), step by step on the state machine. */
module JobQueueClasses {
  import opened JobQueues

  /** One delivery; settling it twice is an error. */
  class QueueMessage {
    const ticket: nat
    const attempts: nat
    var settled: bool

    constructor (ticket: nat, attempts: nat)
      ensures this.ticket == ticket && this.attempts == attempts && !settled
    {
      this.ticket, this.attempts, settled := ticket, attempts, false;
    }

    method Settle() returns (ok: bool)
      modifies this
      ensures ok == !old(settled) && settled
    {
      if settled { return false; }
      settled := true;
      ok := true;
    }
  }

  /** The message stands for an unsettled delivery. */
  ghost predicate Handles(m: QueueMessage, q: Queue)
    reads m
  {
    !m.settled ==> m.ticket in q.claimed && q.claimed[m.ticket] == m.attempts
  }

  /** One entry changes from the part of a list still to be gone through to the part behind it. */
  lemma LastOfFront(front: seq<Entry>, back: seq<Entry>, kept: seq<Entry>, now: int)
    requires |front| > 0
    ensures
      var i := |front| - 1;
      var pending, last := front + kept, front[i];
      && pending[i] == last && pending[..i] + pending[i + 1..] == front[..i] + kept && pending == front[..i] + ([last] + kept)
      && front[..i] + ([last] + back) == front + back
      && Select([last] + back, now, true) == (if Due(last, now) then [last] else []) + Select(back, now, true)
      && Select([last] + back, now, false) == (if Due(last, now) then [] else [last]) + Select(back, now, false)
  {
    var i := |front| - 1;
    SelectCons(front[i], back, now, true);
    SelectCons(front[i], back, now, false);
    hide Select;
    assert front == front[..i] + [front[i]];
  }

  lemma NothingSelected(pending: seq<Entry>, now: int)
    ensures Select([], now, true) == Select([], now, false) == [] && pending + [] == pending
  {
  }

  lemma {:induction false} SelectCons(first: Entry, rest: seq<Entry>, now: int, due: bool)
    ensures Select([first] + rest, now, due) == (if Due(first, now) == due then [first] else []) + Select(rest, now, due)
  {
    var all := [first] + rest;
    if |rest| == 0 {
      assert all == [first] && all[..0] == [];
    } else {
      SelectCons(first, rest[..|rest| - 1], now, due);
      assert all[..|all| - 1] == [first] + rest[..|rest| - 1];
    }
  }

  class MemoryJobQueue {
    const maxAttempts: nat
    var sent: nat
    var pending: seq<Entry>
    var dead: seq<nat>
    ghost var claimed: map<nat, nat>
    ghost var acked: set<nat>
    ghost var delivered: seq<nat>

    ghost function Value(): Queue
      reads this
    {
      Queue(sent, pending, claimed, acked, [], dead, {}, delivered)
    }

    constructor (maxAttempts: nat)
      ensures this.maxAttempts == maxAttempts && Value() == EMPTY
    {
      this.maxAttempts := maxAttempts;
      sent, pending, dead, claimed, acked, delivered := 0, [], [], map[], {}, [];
    }

    method Send(now: int, delay: nat)
      modifies this
      ensures Value() == Step(Memory, maxAttempts, old(Value()), JobQueues.Send(now, delay))
    {
      pending := pending + [Entry(sent, 0, now + delay * 1000)];
      sent := sent + 1;
    }

    /** Takes the due messages out, from the back; both parts keep their order. */
    method TakeDue(now: int) returns (due: seq<Entry>)
      modifies this`pending
      ensures due == Select(old(pending), now, true) && pending == Select(old(pending), now, false)
    {
      hide Select;
      ghost var front, back: seq<Entry>, kept: seq<Entry> := pending, [], [];
      due := [];
      var i := |pending| - 1;
      NothingSelected(pending, now);
      while i >= 0
        invariant |front| == i + 1 && front + back == old(pending) && pending == front + kept
        invariant kept == Select(back, now, false) && due == Select(back, now, true)
      {
        LastOfFront(front, back, kept, now);
        if pending[i].availableAt <= now {
          due := [pending[i]] + due;
          pending := pending[..i] + pending[i + 1..];
        } else {
          kept := [pending[i]] + kept;
        }
        front, back := front[..i], [front[i]] + back;
        i := i - 1;
      }
      assert front == [] && [] + back == back && [] + kept == kept;
    }

    method Receive(now: int) returns (messages: seq<QueueMessage>)
      requires Inv(Value(), maxAttempts)
      modifies this
      ensures Value() == Step(Memory, maxAttempts, old(Value()), JobQueues.Receive(now, 0))
      ensures |messages| == |Select(old(pending), now, true)|
      ensures forall i | 0 <= i < |messages| :: fresh(messages[i]) && Handles(messages[i], Value()) && !messages[i].settled
      ensures forall i | 0 <= i < |messages| :: messages[i].ticket == Select(old(pending), now, true)[i].ticket
    {
      hide Select, Inv, Deliver;
      var due := TakeDue(now);
      ghost var before := old(Value());
      claimed, delivered := Deliver(claimed, due), delivered + Tickets(due);
      DueDelivered(Memory, before, maxAttempts, now, 0);
      messages := MakeMessages(due);
    }

    method Ack(m: QueueMessage) returns (ok: bool)
      requires Handles(m, Value())
      modifies this, m
      ensures ok == !old(m.settled)
      ensures Value() == if ok then Step(Memory, maxAttempts, old(Value()), JobQueues.Ack(m.ticket)) else old(Value())
    {
      ok := m.Settle();
      if !ok { return; }
      claimed, acked := claimed - {m.ticket}, acked + {m.ticket};
    }

    method Retry(m: QueueMessage, now: int, delay: nat) returns (ok: bool)
      requires Handles(m, Value())
      modifies this, m
      ensures ok == !old(m.settled)
      ensures Value() == if ok then Step(Memory, maxAttempts, old(Value()), JobQueues.Retry(m.ticket, now, delay)) else old(Value())
    {
      ok := m.Settle();
      if !ok { return; }
      claimed := claimed - {m.ticket};
      if m.attempts >= maxAttempts {
        dead := dead + [m.ticket];
        return;
      }
      pending := pending + [Entry(m.ticket, m.attempts, now + delay * 1000)];
    }
  }

  method MakeMessages(due: seq<Entry>) returns (messages: seq<QueueMessage>)
    ensures |messages| == |due|
    ensures forall i | 0 <= i < |due| ::
      fresh(messages[i]) && !messages[i].settled && messages[i].ticket == due[i].ticket && messages[i].attempts == due[i].attempts + 1
  {
    messages := [];
    var i := 0;
    while i < |due|
      invariant 0 <= i <= |due| && |messages| == i
      invariant forall j | 0 <= j < i ::
        fresh(messages[j]) && !messages[j].settled && messages[j].ticket == due[j].ticket && messages[j].attempts == due[j].attempts + 1
    {
      var m := new QueueMessage(due[i].ticket, due[i].attempts + 1);
      messages := messages + [m];
      i := i + 1;
    }
  }

  lemma {:induction false} OnceInside(entries: seq<Entry>, i: nat, j: nat)
    requires i < j < |entries| && entries[i].ticket == entries[j].ticket
    ensures In(entries, entries[i].ticket) >= 2
  {
    var t := entries[i].ticket;
    if j == |entries| - 1 {
      InIsMembership(entries[..j], t);
      assert entries[..j][i].ticket == t;
    } else {
      OnceInside(entries[..|entries| - 1], i, j);
    }
  }

  /** What was handed out is claimed with its attempt number. */
  lemma DueDelivered(kind: Kind, q: Queue, maxAttempts: nat, now: int, limit: nat)
    requires Inv(q, maxAttempts)
    ensures
      var taken := Received(kind, q.queued, now, limit).taken;
      forall i | 0 <= i < |taken| ::
        taken[i].ticket in Deliver(q.claimed, taken) && Deliver(q.claimed, taken)[taken[i].ticket] == taken[i].attempts + 1
  {
    hide Inv, Received, Deliver, In;
    var taken := Received(kind, q.queued, now, limit).taken;
    forall i | 0 <= i < |taken|
      ensures taken[i].ticket in Deliver(q.claimed, taken) && Deliver(q.claimed, taken)[taken[i].ticket] == taken[i].attempts + 1
    {
      var t := taken[i].ticket;
      InIsMembership(taken, t);
      DeliverAt(q.claimed, taken, t);
      SplitConserves(kind, q.queued, now, limit, t);
      SoundIsOnce(q, maxAttempts, t);
      var j :| 0 <= j < |taken| && taken[j].ticket == t && Deliver(q.claimed, taken)[t] == taken[j].attempts + 1;
      if i < j { OnceInside(taken, i, j); } else if j < i { OnceInside(taken, j, i); }
    }
  }

  lemma TakeOne(taken: seq<Entry>, e: Entry, rest: seq<Entry>)
    ensures taken + ([e] + rest) == taken + [e] + rest
  {
  }

  class SqlJobQueue {
    const maxAttempts: nat
    /** The table, in the order its rows were inserted. */
    var rows: seq<Entry>
    var sent: nat
    var pending: seq<Entry>
    var dead: seq<nat>
    ghost var claimed: map<nat, nat>
    ghost var acked: set<nat>
    ghost var lost: set<nat>
    ghost var delivered: seq<nat>

    ghost function Value(): Queue
      reads this
    {
      Queue(sent, rows, claimed, acked, pending, dead, lost, delivered)
    }

    constructor (maxAttempts: nat)
      ensures this.maxAttempts == maxAttempts && Value() == EMPTY
    {
      this.maxAttempts := maxAttempts;
      rows, sent, pending, dead, claimed, acked, lost, delivered := [], 0, [], [], map[], {}, {}, [];
    }

    method Send(now: int, delay: nat)
      modifies this
      ensures Value() == Step(Sql, maxAttempts, old(Value()), JobQueues.Send(now, delay))
    {
      rows := rows + [Entry(sent, 0, now + delay * 1000)];
      sent := sent + 1;
    }

    /** The claiming DELETE: the rows that have waited longest, up to the limit. */
    method ClaimRows(now: int, limit: nat) returns (taken: seq<Entry>)
      modifies this`rows
      ensures taken == Claim(old(rows), now, limit).taken && rows == Claim(old(rows), now, limit).left
    {
      hide Earliest, RemoveAt;
      taken := [];
      var n := limit;
      ghost var goal := Claim(rows, now, limit);
      while n > 0
        invariant taken + Claim(rows, now, n).taken == goal.taken && Claim(rows, now, n).left == goal.left
        decreases n
      {
        var i := Earliest(rows, now);
        if i < 0 { break; }
        TakeOne(taken, rows[i], Claim(RemoveAt(rows, i), now, n - 1).taken);
        ClaimUnfolds(rows, now, n);
        taken, rows := taken + [rows[i]], RemoveAt(rows, i);
        n := n - 1;
      }
    }

    method Receive(now: int, limit: nat) returns (messages: seq<QueueMessage>)
      requires Inv(Value(), maxAttempts)
      modifies this
      ensures Value() == Step(Sql, maxAttempts, old(Value()), JobQueues.Receive(now, limit))
      ensures forall i | 0 <= i < |messages| :: fresh(messages[i]) && Handles(messages[i], Value()) && !messages[i].settled
      ensures |messages| == |Claim(old(rows), now, limit).taken|
    {
      hide Claim, Inv, Deliver;
      ghost var before := Value();
      var taken := ClaimRows(now, limit);
      claimed, delivered := Deliver(claimed, taken), delivered + Tickets(taken);
      DueDelivered(Sql, before, maxAttempts, now, limit);
      messages := MakeMessages(taken);
    }

    method Ack(m: QueueMessage) returns (ok: bool)
      requires Handles(m, Value())
      modifies this, m
      ensures ok == !old(m.settled)
      ensures Value() == if ok then Step(Sql, maxAttempts, old(Value()), JobQueues.Ack(m.ticket)) else old(Value())
    {
      ok := m.Settle();
      if !ok { return; }
      claimed, acked := claimed - {m.ticket}, acked + {m.ticket};
    }

    method Retry(m: QueueMessage, now: int, delay: nat) returns (ok: bool)
      requires Handles(m, Value())
      modifies this, m
      ensures ok == !old(m.settled)
      ensures Value() == if ok then Step(Sql, maxAttempts, old(Value()), JobQueues.Retry(m.ticket, now, delay)) else old(Value())
    {
      ok := m.Settle();
      if !ok { return; }
      claimed := claimed - {m.ticket};
      if m.attempts >= maxAttempts {
        dead := dead + [m.ticket];
        return;
      }
      pending := pending + [Entry(m.ticket, m.attempts, now + delay * 1000)];
    }

    /** The buffer is emptied before the rows are written; `written` is whether the write then succeeds. */
    method Flush(written: bool)
      modifies this
      ensures Value() == Step(Sql, maxAttempts, old(Value()), JobQueues.Flush(written))
    {
      if |pending| == 0 { return; }
      var statements := pending;
      pending := [];
      if written {
        rows := rows + statements;
      } else {
        lost := lost + set i | 0 <= i < |statements| :: statements[i].ticket;
      }
    }
  }
}
