/** The in-process object store (adapters/memory/storage.ts): capacity reserved while bodies arrive. */
module MemoryStorage {
  import opened Crc32
  import opened Wrappers

  type Bytes = seq<bv8>

  /** A put whose body is still being read: its key and the size it declared, which is reserved. */
  datatype Upload = Upload(key: string, size: nat)

  /** The objects, the puts in progress by ticket, and the counter. */
  datatype Store = Store(objects: map<string, Bytes>, uploads: map<nat, Upload>, usedBytes: int, capacity: nat)

  /** What can happen between two awaits. */
  datatype Event =
    | Begin(ticket: nat, upload: Upload)
    | Arrive(ticket: nat, data: Bytes)
    | Delete(key: string)

  function Release(s: Store, key: string): Store {
    if key in s.objects then s.(objects := s.objects - {key}, usedBytes := s.usedBytes - |s.objects[key]|) else s
  }

  predicate Enabled(s: Store, e: Event) {
    match e
    case Begin(ticket, _) => ticket !in s.uploads
    case Arrive(ticket, _) => ticket in s.uploads
    case Delete(_) => true
  }

  /** `Arrive` is the end of a body: stored when it is as long as declared, given up when not. */
  function Step(s: Store, e: Event): Store
    requires Enabled(s, e)
  {
    match e
    case Begin(ticket, upload) =>
      if s.usedBytes + upload.size > s.capacity then s
      else s.(usedBytes := s.usedBytes + upload.size, uploads := s.uploads[ticket := upload])
    case Arrive(ticket, data) =>
      var upload := s.uploads[ticket];
      var settled := s.(uploads := s.uploads - {ticket});
      if |data| != upload.size then settled.(usedBytes := s.usedBytes - upload.size)
      else
        var released := Release(settled, upload.key);
        released.(objects := released.objects[upload.key := data])
    case Delete(key) => Release(s, key)
  }

  // --- Sums over maps ---

  ghost function Pick<K(!new), V>(m: map<K, V>): K
    requires |m| > 0
  {
    assert exists k :: k in m by { NonEmpty(m); }
    var k :| k in m;
    k
  }

  lemma NonEmpty<K, V>(m: map<K, V>)
    requires |m| > 0
    ensures exists k :: k in m
  {
    assert m.Keys != {};
  }

  /** The sum of the weights of a map's values. */
  ghost function Sum<K(!new), V(!new)>(m: map<K, V>, weight: V -> nat): nat
    decreases |m|
  {
    if |m| == 0 then 0
    else
      var k := Pick(m);
      RemoveSmaller(m, k);
      weight(m[k]) + Sum(m - {k}, weight)
  }

  lemma RemoveSmaller<K, V>(m: map<K, V>, k: K)
    requires k in m
    ensures |m - {k}| == |m| - 1
  {
    assert m == (m - {k})[k := m[k]];
  }

  /** Any entry can be taken out of the sum. */
  lemma {:induction false} SumWithout<K(!new), V(!new)>(m: map<K, V>, k: K, weight: V -> nat)
    requires k in m
    ensures Sum(m, weight) == weight(m[k]) + Sum(m - {k}, weight)
    decreases |m|
  {
    RemoveSmaller(m, k);
    var p := Pick(m);
    RemoveSmaller(m, p);
    if p != k {
      SumWithout(m - {p}, k, weight);
      SumWithout(m - {k}, p, weight);
      assert m - {p} - {k} == m - {k} - {p};
    }
  }

  lemma SumWith<K(!new), V(!new)>(m: map<K, V>, k: K, v: V, weight: V -> nat)
    requires k !in m
    ensures Sum(m[k := v], weight) == weight(v) + Sum(m, weight)
  {
    SumWithout(m[k := v], k, weight);
    assert m[k := v] - {k} == m;
  }

  ghost function Stored(s: Store): nat { Sum(s.objects, (data: Bytes) => |data|) }

  ghost function Reserved(s: Store): nat { Sum(s.uploads, (u: Upload) => u.size) }

  /** What is counted is what is stored and what is reserved, and it fits. */
  ghost predicate Inv(s: Store) {
    s.usedBytes == Stored(s) + Reserved(s) && s.usedBytes <= s.capacity
  }

  lemma ReleaseSums(s: Store, key: string)
    ensures Release(s, key).usedBytes - Stored(Release(s, key)) == s.usedBytes - Stored(s)
    ensures Release(s, key).usedBytes <= s.usedBytes && Reserved(Release(s, key)) == Reserved(s)
    ensures key !in Release(s, key).objects
  {
    if key in s.objects { SumWithout(s.objects, key, (data: Bytes) => |data|); }
  }

  lemma BeginKeeps(s: Store, ticket: nat, upload: Upload)
    requires Inv(s) && Enabled(s, Begin(ticket, upload))
    ensures Inv(Step(s, Begin(ticket, upload)))
  {
    SumWith(s.uploads, ticket, upload, (u: Upload) => u.size);
  }

  lemma PutDown(s: Store, ticket: nat)
    requires ticket in s.uploads
    ensures
      var settled := s.(uploads := s.uploads - {ticket});
      Stored(settled) == Stored(s) && Reserved(s) == s.uploads[ticket].size + Reserved(settled)
  {
    SumWithout(s.uploads, ticket, (u: Upload) => u.size);
  }

  lemma PutIn(s: Store, key: string, data: Bytes)
    requires key !in s.objects
    ensures
      var stored := s.(objects := s.objects[key := data]);
      Stored(stored) == |data| + Stored(s) && Reserved(stored) == Reserved(s)
  {
    SumWith(s.objects, key, data, (d: Bytes) => |d|);
  }

  lemma SameSums(s: Store, other: Store)
    requires s.objects == other.objects && s.uploads == other.uploads
    ensures Stored(s) == Stored(other) && Reserved(s) == Reserved(other)
  {
  }

  lemma ArriveKeeps(s: Store, ticket: nat, data: Bytes)
    requires Inv(s) && Enabled(s, Arrive(ticket, data))
    ensures Inv(Step(s, Arrive(ticket, data)))
  {
    hide Release, Stored, Reserved;
    var upload := s.uploads[ticket];
    var settled := s.(uploads := s.uploads - {ticket});
    PutDown(s, ticket);
    if |data| != upload.size {
      SameSums(settled, settled.(usedBytes := s.usedBytes - upload.size));
    } else {
      ReleaseSums(settled, upload.key);
      ReleaseKeepsRest(settled, upload.key);
      PutIn(Release(settled, upload.key), upload.key, data);
    }
  }

  lemma ReleaseKeepsRest(s: Store, key: string)
    ensures Release(s, key) == s.(objects := Release(s, key).objects, usedBytes := Release(s, key).usedBytes)
  {
  }

  lemma StepKeeps(s: Store, e: Event)
    requires Inv(s) && Enabled(s, e)
    ensures Inv(Step(s, e)) && Step(s, e).capacity == s.capacity
  {
    hide Inv, Release;
    match e
    case Begin(ticket, upload) => BeginKeeps(s, ticket, upload);
    case Arrive(ticket, data) =>
      ArriveKeeps(s, ticket, data);
      ReleaseKeepsRest(s.(uploads := s.uploads - {ticket}), s.uploads[ticket].key);
    case Delete(key) => DeleteKeeps(s, key);
  }

  lemma DeleteKeeps(s: Store, key: string)
    requires Inv(s)
    ensures Inv(Step(s, Delete(key))) && Step(s, Delete(key)).capacity == s.capacity
  {
    hide Release;
    ReleaseSums(s, key);
    ReleaseKeepsRest(s, key);
  }

  function Empty(capacity: nat): Store { Store(map[], map[], 0, capacity) }

  predicate Possible(capacity: nat, events: seq<Event>)
    decreases |events|, 0
  {
    |events| == 0
    || (Possible(capacity, events[..|events| - 1]) && Enabled(Run(capacity, events[..|events| - 1]), events[|events| - 1]))
  }

  function Run(capacity: nat, events: seq<Event>): Store
    requires Possible(capacity, events)
    decreases |events|, 1
  {
    if |events| == 0 then Empty(capacity) else Step(Run(capacity, events[..|events| - 1]), events[|events| - 1])
  }

  /**
   * However puts and deletes interleave, the counter is the size of what is stored and of the
   * bodies still arriving, and never more than the capacity.
   */
  lemma {:induction false} CapacityHolds(capacity: nat, events: seq<Event>)
    requires Possible(capacity, events)
    ensures
      var s := Run(capacity, events);
      s.usedBytes == Stored(s) + Reserved(s) && s.usedBytes <= capacity == s.capacity
  {
    hide Step, Stored, Reserved;
    if |events| > 0 {
      CapacityHolds(capacity, events[..|events| - 1]);
      StepKeeps(Run(capacity, events[..|events| - 1]), events[|events| - 1]);
    } else {
      EmptyStore(capacity);
    }
  }

  lemma EmptyStore(capacity: nat)
    ensures Stored(Empty(capacity)) == 0 && Reserved(Empty(capacity)) == 0
  {
  }

  /** A put is refused exactly when its declared size does not fit beside what is stored and still arriving. */
  lemma RefusedExactly(s: Store, ticket: nat, upload: Upload)
    requires Inv(s) && Enabled(s, Begin(ticket, upload))
    ensures Step(s, Begin(ticket, upload)) == s <==> Stored(s) + Reserved(s) + upload.size > s.capacity
  {
    hide Stored, Reserved;
    if s.usedBytes + upload.size <= s.capacity {
      assert ticket in Step(s, Begin(ticket, upload)).uploads;
    }
  }

  // --- What is stored ---

  /** What the put that last began under a ticket has declared. */
  function Declared(events: seq<Event>, ticket: nat): Option<Upload> {
    if |events| == 0 then None
    else
      var e := events[|events| - 1];
      if e.Begin? && e.ticket == ticket then Some(e.upload) else Declared(events[..|events| - 1], ticket)
  }

  /** The body of the last put of a key that arrived at its declared length, unless a deletion came after it. */
  function LastPut(events: seq<Event>, key: string): Option<Bytes> {
    if |events| == 0 then None
    else
      var before, e := events[..|events| - 1], events[|events| - 1];
      if e == Delete(key) then None
      else if e.Arrive? && Declared(before, e.ticket) == Some(Upload(key, |e.data|)) then Some(e.data)
      else LastPut(before, key)
  }

  lemma {:induction false} UploadsAreDeclared(capacity: nat, events: seq<Event>, ticket: nat)
    requires Possible(capacity, events) && ticket in Run(capacity, events).uploads
    ensures Declared(events, ticket) == Some(Run(capacity, events).uploads[ticket])
  {
    var before, e := events[..|events| - 1], events[|events| - 1];
    if ticket in Run(capacity, before).uploads {
      UploadsAreDeclared(capacity, before, ticket);
    }
  }

  lemma ReleaseTakesOne(s: Store, key: string)
    ensures Release(s, key).objects == s.objects - {key} && Release(s, key).uploads == s.uploads
  {
    assert key !in s.objects ==> s.objects - {key} == s.objects;
  }

  /** In every run a key holds the body of the last put that finished for it, and nothing after its deletion. */
  lemma {:induction false} StoresTheLastPut(capacity: nat, events: seq<Event>, key: string)
    requires Possible(capacity, events)
    ensures
      var objects := Run(capacity, events).objects;
      (if key in objects then Some(objects[key]) else None) == LastPut(events, key)
  {
    if |events| > 0 {
      var before, e := events[..|events| - 1], events[|events| - 1];
      StoresTheLastPut(capacity, before, key);
      var s := Run(capacity, before);
      hide Release;
      match e
      case Begin(_, _) =>
      case Arrive(ticket, data) =>
        UploadsAreDeclared(capacity, before, ticket);
        ReleaseTakesOne(s.(uploads := s.uploads - {ticket}), s.uploads[ticket].key);
      case Delete(k) => ReleaseTakesOne(s, k);
    }
  }

  // --- The class ---

  class MemoryFileStorage {
    var objects: map<string, Bytes>
    var usedBytes: int
    const capacityBytes: nat
    ghost var uploads: map<nat, Upload>

    ghost function Value(): Store
      reads this
    {
      Store(objects, uploads, usedBytes, capacityBytes)
    }

    constructor (capacity: nat)
      ensures Value() == Empty(capacity)
    {
      objects, usedBytes, capacityBytes, uploads := map[], 0, capacity, map[];
    }

    /** The part of a put before its body is read: refused, or reserved. */
    method Reserve(ticket: nat, key: string, size: nat) returns (ok: bool)
      requires ticket !in uploads
      modifies this
      ensures Value() == Step(old(Value()), Begin(ticket, Upload(key, size)))
      ensures ok == (old(usedBytes) + size <= capacityBytes)
    {
      if usedBytes + size > capacityBytes { return false; }
      usedBytes := usedBytes + size;
      uploads := uploads[ticket := Upload(key, size)];
      ok := true;
    }

    /** The part after: the body as its chunks arrived. */
    method Finish(ticket: nat, key: string, size: nat, body: seq<Bytes>) returns (ok: bool)
      requires ticket in uploads && uploads[ticket] == Upload(key, size)
      modifies this
      ensures Value() == Step(old(Value()), Arrive(ticket, Concat(body)))
      ensures ok == (|Concat(body)| == size)
    {
      var data := Collect(body, size);
      uploads := uploads - {ticket};
      if data.None? {
        usedBytes := usedBytes - size;
        return false;
      }
      ReleaseKey(key);
      objects := objects[key := data.value];
      ok := true;
    }

    method Delete(key: string)
      modifies this
      ensures Value() == Step(old(Value()), Event.Delete(key))
    {
      ReleaseKey(key);
    }

    method ReleaseKey(key: string)
      modifies this
      ensures Value() == Release(old(Value()), key)
    {
      if key !in objects { return; }
      usedBytes := usedBytes - |objects[key]|;
      objects := objects - {key};
    }
  }

  /** Reads a body into a buffer of the declared size: all of it, or nothing when the length is wrong. */
  method Collect(body: seq<Bytes>, size: nat) returns (data: Option<Bytes>)
    ensures data == if |Concat(body)| == size then Some(Concat(body)) else None
  {
    var out := new bv8[size](i => 0);
    var written := 0;
    var i := 0;
    assert body[..0] == [];
    while i < |body|
      invariant 0 <= i <= |body| && 0 <= written <= size
      invariant out[..written] == Concat(body[..i])
    {
      var value := body[i];
      ConcatGrows(body, i);
      if written + |value| > size { return None; }
      CopyInto(out, value, written);
      written := written + |value|;
      i := i + 1;
    }
    assert body[..i] == body;
    if written != size { return None; }
    assert out[..] == out[..written];
    data := Some(out[..]);
  }

  method CopyInto(out: array<bv8>, value: Bytes, at: nat)
    requires at + |value| <= out.Length
    modifies out
    ensures out[..at + |value|] == old(out[..at]) + value
  {
    var j := 0;
    while j < |value|
      invariant 0 <= j <= |value|
      invariant out[..at] == old(out[..at]) && out[at..at + j] == value[..j]
    {
      out[at + j] := value[j];
      j := j + 1;
    }
    assert out[..at + |value|] == out[..at] + out[at..at + |value|];
  }

  lemma {:induction false} ConcatGrows(body: seq<Bytes>, i: nat)
    requires i < |body|
    ensures Concat(body[..i + 1]) == Concat(body[..i]) + body[i]
    ensures |Concat(body[..i + 1])| <= |Concat(body)|
  {
    assert body[..i + 1][..i] == body[..i];
    if i + 1 < |body| {
      var init := body[..|body| - 1];
      ConcatGrows(init, i);
      assert init[..i + 1] == body[..i + 1] && init[..i] == body[..i];
    } else {
      assert body[..i + 1] == body;
    }
  }
}
