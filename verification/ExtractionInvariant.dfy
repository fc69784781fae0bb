/** The inductive invariant of the extraction protocol, and that every step keeps it. */
module ExtractionInvariant {
  import opened Extraction
  import opened Wrappers

  // --- Lines and their sizes ---

  lemma {:induction false} LinesUntouched(chunks: map<nat, seq<Line>>, n: nat, key: nat, chunk: seq<Line>)
    requires n <= key
    ensures Lines(chunks[key := chunk], n) == Lines(chunks, n)
  {
    if n > 0 {
      LinesUntouched(chunks, n - 1, key, chunk);
    }
  }

  lemma {:induction false} LinesPrefix(chunks: map<nat, seq<Line>>, m: nat, n: nat)
    requires m <= n
    ensures Lines(chunks, m) <= Lines(chunks, n)
  {
    if m < n {
      LinesPrefix(chunks, m, n - 1);
    }
  }

  lemma {:induction false} BytesOfAppend(a: seq<Line>, b: seq<Line>)
    ensures Bytes(a + b) == Bytes(a) + Bytes(b)
  {
    if |b| == 0 {
      assert a + b == a;
    } else {
      var c := b[..|b| - 1];
      BytesOfAppend(a, c);
      assert (a + b)[..|a + b| - 1] == a + c;
    }
  }

  // --- What is covered ---

  predicate IsFile(job: Job, i: int) {
    0 <= i < |job.entries| && !job.entries[i].isDirectory
  }

  ghost predicate HasLine(lines: seq<Line>, i: int) {
    exists k | 0 <= k < |lines| :: lines[k].src == i
  }

  ghost predicate HasError(errors: seq<EntryError>, i: int) {
    exists k | 0 <= k < |errors| :: errors[k].index == i
  }

  /** Entry `i` has a manifest line of its own or is on record as failed. */
  ghost predicate Covered(lines: seq<Line>, errors: seq<EntryError>, i: int) {
    HasLine(lines, i) || HasError(errors, i)
  }

  lemma CoveredGrows(lines: seq<Line>, errors: seq<EntryError>, lines': seq<Line>, errors': seq<EntryError>, i: int)
    requires lines <= lines' && errors <= errors'
    requires Covered(lines, errors, i)
    ensures Covered(lines', errors', i)
  {
    if HasLine(lines, i) {
      var k :| 0 <= k < |lines| && lines[k].src == i;
      assert lines'[k].src == i;
    } else {
      var k :| 0 <= k < |errors| && errors[k].index == i;
      assert errors'[k].index == i;
    }
  }

  ghost predicate LineOk(job: Job, prefix: string, line: Line) {
    && IsFile(job, line.src)
    && line.file.path == job.outputPath(job.entries[line.src].path, prefix)
    && line.file.size == job.entries[line.src].size
  }

  ghost predicate ErrorOk(job: Job, prefix: string, error: EntryError) {
    IsFile(job, error.index) && error.path == job.outputPath(job.entries[error.index].path, prefix)
  }

  ghost predicate RecordsOk(job: Job, prefix: string, lines: seq<Line>, errors: seq<EntryError>) {
    && (prefix == job.rootPrefix || prefix == "")
    && (forall k | 0 <= k < |lines| :: LineOk(job, prefix, lines[k]))
    && (forall k | 0 <= k < |errors| :: ErrorOk(job, prefix, errors[k]))
  }

  ghost predicate ChunksPresent(chunks: map<nat, seq<Line>>, n: nat) {
    forall c: nat | c < n :: c in chunks
  }

  // --- Checkpoints ---

  /**
   * What any saved checkpoint promises: its chunks are there, its counters are exactly
   * theirs, and every file up to its mark is in them or in its errors.
   */
  ghost predicate CheckpointOk(job: Job, cp: JobCheckpoint, chunks: map<nat, seq<Line>>) {
    var lines := Lines(chunks, cp.manifestChunksWritten);
    && -1 <= cp.lastProcessedIndex < |job.entries|
    && ChunksPresent(chunks, cp.manifestChunksWritten)
    && cp.processedCount == |lines| && cp.processedBytes == Bytes(lines)
    && RecordsOk(job, cp.rootPrefix, lines, cp.errors)
    && (forall i | IsFile(job, i) && (i <= cp.lastProcessedIndex || cp.phase == Completing) :: Covered(lines, cp.errors, i))
  }

  lemma CheckpointUntouched(job: Job, cp: JobCheckpoint, chunks: map<nat, seq<Line>>, key: nat, chunk: seq<Line>)
    requires CheckpointOk(job, cp, chunks) && cp.manifestChunksWritten <= key
    ensures CheckpointOk(job, cp, chunks[key := chunk])
  {
    LinesUntouched(chunks, cp.manifestChunksWritten, key, chunk);
  }

  /** What the final manifest promises. */
  ghost predicate ManifestOk(job: Job, cp: JobCheckpoint, manifest: seq<Line>) {
    && (forall j, k | 0 <= j < k < |manifest| :: manifest[j].file.path != manifest[k].file.path)
    && (forall k | 0 <= k < |manifest| :: LineOk(job, cp.rootPrefix, manifest[k]))
    && (forall i | IsFile(job, i) ::
          HasError(cp.errors, i) || HasPath(manifest, job.outputPath(job.entries[i].path, cp.rootPrefix)))
  }

  ghost predicate HasPath(lines: seq<Line>, path: string) {
    exists k | 0 <= k < |lines| :: lines[k].file.path == path
  }

  // --- A process in phase B ---

  /** File `i` needs nothing more from this process. */
  ghost predicate Done(job: Job, x: Extraction, i: int) {
    IsFile(job, i) && (i <= x.loaded.lastProcessedIndex || (i < x.next && i !in x.inFlight))
  }

  function AllLines(x: Extraction, chunks: map<nat, seq<Line>>): seq<Line> {
    Lines(chunks, x.buffer.chunkIndex) + x.buffer.chunk
  }

  /** The files among entries `lo` .. `hi`-1. */
  function FilesBetween(job: Job, lo: int, hi: int): nat
    decreases hi - lo
  {
    if hi <= lo then 0
    else FilesBetween(job, lo, hi - 1) + (if IsFile(job, hi - 1) then 1 else 0)
  }

  ghost predicate Accounts(job: Job, x: Extraction, chunks: map<nat, seq<Line>>) {
    var lines := AllLines(x, chunks);
    && ChunksPresent(chunks, x.buffer.chunkIndex)
    && x.cp.processedCount == |lines| && x.cp.processedBytes == Bytes(lines)
    && RecordsOk(job, x.cp.rootPrefix, lines, x.cp.errors)
    && (forall i | Done(job, x, i) :: Covered(lines, x.cp.errors, i))
    && x.cp.processedCount + |x.cp.errors| + |x.inFlight| ==
       x.loaded.processedCount + |x.loaded.errors| + FilesBetween(job, x.loaded.lastProcessedIndex + 1, x.next)
  }

  /** This process has streamed index `i` and is through with it. */
  ghost predicate SettledAt(x: Extraction, i: int) {
    i < x.next && i !in x.inFlight
  }

  /** Every index after the resume point up to `mark` has settled. */
  ghost predicate SettledUpTo(x: Extraction, mark: int) {
    && x.loaded.lastProcessedIndex <= mark
    && forall i | x.loaded.lastProcessedIndex < i <= mark :: SettledAt(x, i)
  }

  ghost predicate Marks(job: Job, x: Extraction) {
    && -1 <= x.loaded.lastProcessedIndex < |job.entries|
    && x.next <= |job.entries|
    && x.cp.phase == Extracting
    && x.loaded.rootPrefix == x.cp.rootPrefix
    && x.loaded.errors <= x.cp.errors
    && (forall i | i in x.inFlight :: IsFile(job, i) && x.loaded.lastProcessedIndex < i < x.next)
    && (job.sequential ==> forall i | i in x.inFlight :: i == x.next - 1)
    && SettledUpTo(x, x.cp.lastProcessedIndex)
    && SettledUpTo(x, x.loWater)
    && |x.inFlight| + |x.saves| <= job.maxConcurrency
    && (!job.sequential ==> WaterExact(x))
  }

  /** The low-water mark is the largest settled prefix: what is settled beyond it is recorded, and its successor is not. */
  ghost predicate WaterExact(x: Extraction) {
    && x.loWater + 1 !in x.settled
    && (forall i | i in x.settled :: SettledAt(x, i))
    && (forall i | x.loWater < i && SettledAt(x, i) :: i in x.settled)
  }

  ghost predicate Snapshots(job: Job, x: Extraction, chunks: map<nat, seq<Line>>) {
    forall s | s in x.saves || s == x.loaded ::
      && s.manifestChunksWritten <= x.buffer.chunkIndex
      && CheckpointOk(job, s, chunks)
      && (s in x.saves ==> s.phase == Extracting)
  }

  ghost predicate ExtractionOk(job: Job, x: Extraction, chunks: map<nat, seq<Line>>) {
    Accounts(job, x, chunks) && Marks(job, x) && Snapshots(job, x, chunks)
  }

  // --- The whole system ---

  ghost predicate StoreOk(job: Job, store: Store) {
    && (store.entryList.Some? ==> store.entryList.value == job.entries)
    && (store.checkpoint.Some? ==>
          var cp := store.checkpoint.value;
          match cp.phase
          case EntriesListing => false
          case Reporting => store.manifest.Some? && ManifestOk(job, cp, store.manifest.value)
          case _ => store.entryList.Some? && CheckpointOk(job, cp, store.chunks))
  }

  /** A stored checkpoint from phase A or B, with no chunk at `chunkIndex` or beyond to its name. */
  ghost predicate StoredBefore(store: Store, chunkIndex: nat) {
    store.checkpoint.Some? ==>
      store.checkpoint.value.phase in {EntriesListed, Extracting} && store.checkpoint.value.manifestChunksWritten <= chunkIndex
  }

  ghost predicate ProcessOk(job: Job, store: Store, proc: Process) {
    match proc
    case Idle => true
    case Listing(cp) => cp == FreshCheckpoint && store.checkpoint.None?
    case Listed(cp) => cp == FreshCheckpoint && store.checkpoint.None? && store.entryList.Some?
    case Running(x) =>
      ExtractionOk(job, x, store.chunks) && store.entryList.Some? && StoredBefore(store, x.buffer.chunkIndex)
    case Flushed(cp, loaded, _) =>
      && cp.phase == Completing && CheckpointOk(job, cp, store.chunks) && store.entryList.Some?
      && StoredBefore(store, cp.manifestChunksWritten)
      && cp.processedCount + |cp.errors| ==
         loaded.processedCount + |loaded.errors| + FilesBetween(job, loaded.lastProcessedIndex + 1, |job.entries|)
    case Finalizing(cp) => cp.phase == Completing && store.checkpoint == Some(cp)
    case Finalized(cp) =>
      && cp.phase == Completing && store.checkpoint == Some(cp)
      && store.manifest == Some(Dedup(Lines(store.chunks, cp.manifestChunksWritten), {}))
    case Deleting(cp, k) => cp.phase == Reporting && store.checkpoint == Some(cp) && k <= cp.manifestChunksWritten
    case Announcing(cp) => cp.phase == Reporting && store.checkpoint == Some(cp)
    case Announced(cp) => cp.phase == Reporting && store.checkpoint == Some(cp)
  }

  ghost predicate Inv(job: Job, s: State) {
    StoreOk(job, s.store) && ProcessOk(job, s.store, s.proc)
  }

  // --- Settling ---

  /** Where the advance stops, and what it took out of the settled set on the way. */
  lemma {:induction false} AdvanceTakes(loWater: int, settled: set<int>)
    ensures
      var (mark, rest) := Advance(loWater, settled);
      && loWater <= mark && mark + 1 !in rest
      && (forall i | loWater < i <= mark :: i in settled)
      && (forall i :: i in rest <==> i in settled && !(loWater < i <= mark))
    decreases |settled|
  {
    if loWater + 1 in settled {
      AdvanceTakes(loWater + 1, settled - {loWater + 1});
      var (mark, rest) := Advance(loWater + 1, settled - {loWater + 1});
      forall i | loWater < i <= mark ensures i in settled {
        assert i == loWater + 1 || i in settled - {loWater + 1};
      }
    }
  }

  /** A settled prefix stays one while only new indexes are taken up. */
  lemma SettledUpToKept(x: Extraction, y: Extraction, mark: int)
    requires SettledUpTo(x, mark)
    requires y.loaded == x.loaded && y.next >= x.next
    requires forall i | i in y.inFlight :: i in x.inFlight || i >= x.next
    ensures SettledUpTo(y, mark)
  {
    forall i | y.loaded.lastProcessedIndex < i <= mark ensures SettledAt(y, i) {
      assert SettledAt(x, i);
    }
  }

  lemma WaterExactKept(x: Extraction, y: Extraction)
    requires WaterExact(x)
    requires y.loWater == x.loWater && y.settled == x.settled && y.next == x.next && y.inFlight == x.inFlight
    ensures WaterExact(y)
  {
    assert forall i :: SettledAt(y, i) <==> SettledAt(x, i);
  }

  /** Settling `index` in `y` keeps the mark exact, when `y` differs from `x` by having just dealt with `index`. */
  lemma SettleKeepsMarks(x: Extraction, y: Extraction, index: int)
    requires SettledUpTo(x, x.loWater) && WaterExact(x)
    requires y.loWater == x.loWater && y.settled == x.settled && y.loaded == x.loaded && y.next >= x.next
    requires index < y.next && index !in y.inFlight
    requires forall i | i in y.inFlight :: i in x.inFlight
    requires forall i | x.loWater < i && SettledAt(y, i) :: SettledAt(x, i) || i == index
    ensures SettledUpTo(Settle(y, index), Settle(y, index).loWater)
    ensures WaterExact(Settle(y, index))
    ensures Settle(y, index).loWater >= x.loWater
  {
    AdvanceTakes(y.loWater, y.settled + {index});
    var z := Settle(y, index);
    SettledUpToKept(x, z, x.loWater);
    forall i | x.loaded.lastProcessedIndex < i <= z.loWater ensures SettledAt(z, i) {
      if i > y.loWater {
        assert i in y.settled + {index};
        assert i == index || SettledAt(x, i);
      }
    }
    forall i | i in z.settled ensures SettledAt(z, i) {
      assert i == index || SettledAt(x, i);
    }
    forall i | z.loWater < i && SettledAt(z, i) ensures i in z.settled {
      assert i == index || SettledAt(x, i);
      assert i in y.settled + {index};
    }
  }

  // --- Steps of a process in phase B ---

  /** The books stay in order when nothing is recorded and no file becomes done. */
  lemma AccountsKept(job: Job, x: Extraction, y: Extraction, chunks: map<nat, seq<Line>>)
    requires Accounts(job, x, chunks)
    requires y.cp == x.cp && y.buffer == x.buffer && y.loaded == x.loaded
    requires forall i | Done(job, y, i) :: Done(job, x, i)
    requires |y.inFlight| - |x.inFlight| ==
      FilesBetween(job, x.loaded.lastProcessedIndex + 1, y.next) - FilesBetween(job, x.loaded.lastProcessedIndex + 1, x.next)
    ensures Accounts(job, y, chunks)
  {
    hide Covered, Lines, Bytes, FilesBetween, RecordsOk, ChunksPresent, Done;
  }

  /** Nothing stored or waiting to be stored changes hands. */
  lemma SnapshotsKept(job: Job, x: Extraction, y: Extraction, chunks: map<nat, seq<Line>>)
    requires Snapshots(job, x, chunks)
    requires y.saves <= x.saves && y.loaded == x.loaded && y.buffer == x.buffer
    ensures Snapshots(job, y, chunks)
  {
  }

  lemma DirectoryMarks(job: Job, x: Extraction)
    requires ValidJob(job) && Marks(job, x)
    requires x.next < |job.entries| && job.entries[x.next].isDirectory
    requires job.sequential ==> x.inFlight == {}
    ensures Marks(job, OnDirectory(job, x, job.entries[x.next]))
  {
    var e := job.entries[x.next];
    var y := OnDirectory(job, x, e);
    SettledUpToKept(x, y, x.cp.lastProcessedIndex);
    if job.sequential {
      SettledUpToKept(x, y, x.loWater);
    } else {
      SettleKeepsMarks(x, x.(next := x.next + 1), e.index);
    }
  }

  lemma DirectoryKeeps(job: Job, x: Extraction, chunks: map<nat, seq<Line>>)
    requires ValidJob(job) && ExtractionOk(job, x, chunks)
    requires x.next < |job.entries| && job.entries[x.next].isDirectory
    requires job.sequential ==> x.inFlight == {}
    ensures ExtractionOk(job, OnDirectory(job, x, job.entries[x.next]), chunks)
  {
    var y := OnDirectory(job, x, job.entries[x.next]);
    AccountsKept(job, x, y, chunks);
    DirectoryMarks(job, x);
    SnapshotsKept(job, x, y, chunks);
  }

  lemma StreamDoneKeeps(job: Job, x: Extraction, chunks: map<nat, seq<Line>>)
    requires ValidJob(job) && ExtractionOk(job, x, chunks)
    requires x.next < |job.entries| && x.next <= x.loaded.lastProcessedIndex
    requires job.sequential ==> x.inFlight == {}
    ensures ExtractionOk(job, x.(next := x.next + 1), chunks)
  {
    var y := x.(next := x.next + 1);
    AccountsKept(job, x, y, chunks);
    SettledUpToKept(x, y, x.cp.lastProcessedIndex);
    SettledUpToKept(x, y, x.loWater);
    assert Marks(job, y);
    SnapshotsKept(job, x, y, chunks);
  }

  lemma LaunchMarks(job: Job, x: Extraction)
    requires ValidJob(job) && Marks(job, x)
    requires IsFile(job, x.next) && x.next > x.loaded.lastProcessedIndex
    requires |x.inFlight| + |x.saves| < job.maxConcurrency
    requires job.sequential ==> x.inFlight == {}
    ensures Marks(job, x.(next := x.next + 1, inFlight := x.inFlight + {job.entries[x.next].index}))
  {
    var y := x.(next := x.next + 1, inFlight := x.inFlight + {job.entries[x.next].index});
    assert x.next !in x.inFlight;
    SettledUpToKept(x, y, x.cp.lastProcessedIndex);
    SettledUpToKept(x, y, x.loWater);
  }

  lemma LaunchKeeps(job: Job, x: Extraction, chunks: map<nat, seq<Line>>)
    requires ValidJob(job) && ExtractionOk(job, x, chunks)
    requires IsFile(job, x.next) && x.next > x.loaded.lastProcessedIndex
    requires |x.inFlight| + |x.saves| < job.maxConcurrency
    requires job.sequential ==> x.inFlight == {}
    ensures ExtractionOk(job, x.(next := x.next + 1, inFlight := x.inFlight + {job.entries[x.next].index}), chunks)
  {
    var y := x.(next := x.next + 1, inFlight := x.inFlight + {job.entries[x.next].index});
    LaunchMarks(job, x);
    assert x.next !in x.inFlight;
    AccountsKept(job, x, y, chunks);
    SnapshotsKept(job, x, y, chunks);
  }

  lemma ErrorMarks(job: Job, x: Extraction, index: int, message: string)
    requires ValidJob(job) && Marks(job, x) && index in x.inFlight
    ensures Marks(job, OnError(job, x, job.entries[index], message))
  {
    var e := job.entries[index];
    var y := OnError(job, x, e, message);
    SettledUpToKept(x, y, x.cp.lastProcessedIndex);
    if job.sequential {
      SettledUpToKept(x, y, x.loWater);
    } else {
      SettleKeepsMarks(x, x.(inFlight := x.inFlight - {index}), index);
      var w := Settle(x.(inFlight := x.inFlight - {index}), index);
      WaterExactKept(w, y);
      SettledUpToKept(w, y, w.loWater);
    }
  }

  /** One more error for an entry in flight: the books grow by exactly that error. */
  lemma ErrorRecorded(job: Job, x: Extraction, y: Extraction, chunks: map<nat, seq<Line>>, error: EntryError)
    requires Accounts(job, x, chunks) && error.index in x.inFlight && ErrorOk(job, x.cp.rootPrefix, error)
    requires y.buffer == x.buffer && y.cp == x.cp.(errors := x.cp.errors + [error], lastProcessedIndex := y.cp.lastProcessedIndex)
    requires y.loaded == x.loaded && y.next == x.next && y.inFlight == x.inFlight - {error.index}
    ensures Accounts(job, y, chunks)
  {
    hide Covered, LineOk, ErrorOk, Lines, Bytes, FilesBetween, IsFile;
    var lines := AllLines(x, chunks);
    ErrorCovers(lines, x.cp.errors, error);
    forall i | Done(job, y, i)
      ensures Covered(lines, y.cp.errors, i)
    {
      if i != error.index {
        assert Done(job, x, i);
        ErrorKeepsCovered(lines, x.cp.errors, error, i);
      }
    }
  }

  lemma ErrorCovers(lines: seq<Line>, errors: seq<EntryError>, error: EntryError)
    ensures Covered(lines, errors + [error], error.index)
  {
    assert (errors + [error])[|errors|] == error;
  }

  lemma ErrorKeepsCovered(lines: seq<Line>, errors: seq<EntryError>, error: EntryError, i: int)
    requires Covered(lines, errors, i)
    ensures Covered(lines, errors + [error], i)
  {
    CoveredGrows(lines, errors, lines, errors + [error], i);
  }

  lemma ErrorAccounts(job: Job, x: Extraction, chunks: map<nat, seq<Line>>, index: int, message: string)
    requires ValidJob(job) && Accounts(job, x, chunks) && index in x.inFlight && IsFile(job, index)
    ensures Accounts(job, OnError(job, x, job.entries[index], message), chunks)
  {
    hide Accounts, Advance;
    var e := job.entries[index];
    var error := EntryError(index, job.outputPath(e.path, x.cp.rootPrefix), message);
    ErrorRecorded(job, x, OnError(job, x, e, message), chunks, error);
  }

  lemma ErrorKeeps(job: Job, x: Extraction, chunks: map<nat, seq<Line>>, index: int, message: string)
    requires ValidJob(job) && ExtractionOk(job, x, chunks) && index in x.inFlight
    ensures ExtractionOk(job, OnError(job, x, job.entries[index], message), chunks)
  {
    assert IsFile(job, index);
    ErrorMarks(job, x, index, message);
    ErrorAccounts(job, x, chunks, index, message);
    SnapshotsKept(job, x, OnError(job, x, job.entries[index], message), chunks);
  }

  // --- The manifest buffer ---

  /** Flushing moves lines from the buffer to the store and leaves every earlier chunk alone. */
  lemma FlushMoves(b: Buffer, chunks: map<nat, seq<Line>>, putOk: bool)
    requires ChunksPresent(chunks, b.chunkIndex)
    ensures
      var (b', chunks') := Flush(b, chunks, putOk);
      && Lines(chunks', b'.chunkIndex) + b'.chunk == Lines(chunks, b.chunkIndex) + b.chunk
      && ChunksPresent(chunks', b'.chunkIndex)
      && b.chunkIndex <= b'.chunkIndex
      && (putOk ==> b'.chunk == [])
  {
    LinesUntouched(chunks, b.chunkIndex, b.chunkIndex, b.chunk);
  }

  lemma AddMoves(b: Buffer, chunks: map<nat, seq<Line>>, line: Line, putOk: bool)
    requires ChunksPresent(chunks, b.chunkIndex)
    ensures
      var (b', chunks') := AddLine(b, chunks, line, putOk);
      && Lines(chunks', b'.chunkIndex) + b'.chunk == Lines(chunks, b.chunkIndex) + b.chunk + [line]
      && ChunksPresent(chunks', b'.chunkIndex)
      && b.chunkIndex <= b'.chunkIndex
  {
    var grown := b.(chunk := b.chunk + [line]);
    FlushMoves(grown, chunks, putOk);
  }

  /** `chunks'` differs from `chunks` at most in one chunk that no checkpoint up to `n` counts. */
  predicate KeepsBelow(chunks: map<nat, seq<Line>>, chunks': map<nat, seq<Line>>, n: nat) {
    chunks' == chunks || (n in chunks' && chunks' == chunks[n := chunks'[n]])
  }

  lemma CheckpointSurvives(job: Job, cp: JobCheckpoint, chunks: map<nat, seq<Line>>, chunks': map<nat, seq<Line>>, n: nat)
    requires CheckpointOk(job, cp, chunks) && cp.manifestChunksWritten <= n && KeepsBelow(chunks, chunks', n)
    ensures CheckpointOk(job, cp, chunks')
  {
    if chunks' != chunks {
      CheckpointUntouched(job, cp, chunks, n, chunks'[n]);
    }
  }

  lemma SnapshotsSurvive(job: Job, x: Extraction, y: Extraction, chunks: map<nat, seq<Line>>, chunks': map<nat, seq<Line>>)
    requires Snapshots(job, x, chunks) && KeepsBelow(chunks, chunks', x.buffer.chunkIndex)
    requires y.saves <= x.saves && y.loaded == x.loaded && y.buffer.chunkIndex >= x.buffer.chunkIndex
    ensures Snapshots(job, y, chunks')
  {
    forall s | s in y.saves || s == y.loaded
      ensures CheckpointOk(job, s, chunks') && s.manifestChunksWritten <= y.buffer.chunkIndex && (s in y.saves ==> s.phase == Extracting)
    {
      assert s in x.saves || s == x.loaded;
      CheckpointSurvives(job, s, chunks, chunks', x.buffer.chunkIndex);
    }
  }

  // --- The critical section ---

  lemma RecordMarks(job: Job, x: Extraction, chunks: map<nat, seq<Line>>, index: int, o: Outcome)
    requires ValidJob(job) && Marks(job, x) && index in x.inFlight
    ensures Marks(job, Record(job, x, chunks, job.entries[index], o).0)
  {
    var e := job.entries[index];
    var y := Record(job, x, chunks, e, o).0;
    var z := x.(inFlight := x.inFlight - {index});
    if job.sequential {
      SettledUpToKept(x, y, x.loWater);
      assert forall i | y.loaded.lastProcessedIndex < i <= index :: SettledAt(y, i);
    } else {
      SettleKeepsMarks(x, z, index);
      var w := Settle(z, index);
      WaterExactKept(w, y);
      SettledUpToKept(w, y, w.loWater);
    }
  }

  /** One more line for an entry in flight: the books grow by exactly that line. */
  lemma LineAccounts(job: Job, x: Extraction, y: Extraction, chunks: map<nat, seq<Line>>, chunks': map<nat, seq<Line>>, line: Line)
    requires Accounts(job, x, chunks) && line.src in x.inFlight && LineOk(job, x.cp.rootPrefix, line)
    requires AllLines(y, chunks') == AllLines(x, chunks) + [line] && ChunksPresent(chunks', y.buffer.chunkIndex)
    requires y.cp.processedCount == x.cp.processedCount + 1 && y.cp.processedBytes == x.cp.processedBytes + line.file.size
    requires y.cp.rootPrefix == x.cp.rootPrefix && y.cp.errors == x.cp.errors
    requires y.loaded == x.loaded && y.next == x.next && y.inFlight == x.inFlight - {line.src}
    ensures Accounts(job, y, chunks')
  {
    var before, after := AllLines(x, chunks), AllLines(y, chunks');
    BytesOfAppend(before, [line]);
    assert after[|before|] == line;
    forall i | Done(job, y, i) ensures Covered(after, y.cp.errors, i) {
      if i != line.src {
        assert Done(job, x, i);
        CoveredGrows(before, x.cp.errors, after, y.cp.errors, i);
      }
    }
  }

  lemma RecordAccounts(job: Job, x: Extraction, chunks: map<nat, seq<Line>>, index: int, o: Outcome)
    requires ValidJob(job) && Accounts(job, x, chunks) && index in x.inFlight && IsFile(job, index)
    ensures
      var (y, chunks') := Record(job, x, chunks, job.entries[index], o);
      Accounts(job, y, chunks')
  {
    var e := job.entries[index];
    var (y, chunks') := Record(job, x, chunks, e, o);
    var line := Line(e.index, FileEntry(job.outputPath(e.path, x.cp.rootPrefix), e.size, o.hash));
    AddMoves(x.buffer, chunks, line, o.addPutOk);
    LineAccounts(job, x, y, chunks, chunks', line);
  }

  lemma RecordKeeps(job: Job, x: Extraction, chunks: map<nat, seq<Line>>, index: int, o: Outcome)
    requires ValidJob(job) && ExtractionOk(job, x, chunks) && index in x.inFlight
    ensures
      var (y, chunks') := Record(job, x, chunks, job.entries[index], o);
      ExtractionOk(job, y, chunks') && KeepsBelow(chunks, chunks', x.buffer.chunkIndex) && y.buffer.chunkIndex >= x.buffer.chunkIndex
  {
    var (y, chunks') := Record(job, x, chunks, job.entries[index], o);
    assert IsFile(job, index);
    hide Accounts, Marks, Snapshots, Settle;
    RecordMarks(job, x, chunks, index, o);
    RecordAccounts(job, x, chunks, index, o);
    SnapshotsSurvive(job, x, y, chunks, chunks');
  }

  /** A snapshot whose flush left nothing buffered meets the checkpoint's promise. */
  lemma SnapshotIsSound(job: Job, x: Extraction, chunks: map<nat, seq<Line>>, cp: JobCheckpoint)
    requires ValidJob(job) && Accounts(job, x, chunks) && Marks(job, x) && x.buffer.chunk == []
    requires cp == x.cp.(manifestChunksWritten := x.buffer.chunkIndex)
    ensures CheckpointOk(job, cp, chunks)
  {
    var lines := Lines(chunks, x.buffer.chunkIndex);
    assert AllLines(x, chunks) == lines;
    assert SettledAt(x, x.cp.lastProcessedIndex) || x.cp.lastProcessedIndex <= x.loaded.lastProcessedIndex;
    forall i | IsFile(job, i) && i <= cp.lastProcessedIndex ensures Covered(lines, cp.errors, i) {
      assert SettledAt(x, i) || i <= x.loaded.lastProcessedIndex;
      assert Done(job, x, i);
    }
  }

  /** A flush moves lines and changes no book. */
  lemma AccountsMoved(job: Job, x: Extraction, y: Extraction, chunks: map<nat, seq<Line>>, chunks': map<nat, seq<Line>>)
    requires Accounts(job, x, chunks) && ChunksPresent(chunks', y.buffer.chunkIndex)
    requires AllLines(y, chunks') == AllLines(x, chunks)
    requires y.cp == x.cp.(manifestChunksWritten := y.cp.manifestChunksWritten)
    requires y.loaded == x.loaded && y.next == x.next && y.inFlight == x.inFlight
    ensures Accounts(job, y, chunks')
  {
    hide Covered, Lines, Bytes, FilesBetween, RecordsOk, ChunksPresent, IsFile;
    assert forall i | Done(job, y, i) :: Done(job, x, i);
  }

  /** Flushing and taking a snapshot keeps the invariant. */
  lemma SnapshotKeeps(job: Job, x: Extraction, chunks: map<nat, seq<Line>>, putOk: bool)
    requires ValidJob(job) && ExtractionOk(job, x, chunks)
    requires x.buffer.chunk == [] || putOk
    requires |x.inFlight| + |x.saves| < job.maxConcurrency
    ensures
      var (y, chunks') := TakeSnapshot(x, chunks, putOk);
      ExtractionOk(job, y, chunks') && KeepsBelow(chunks, chunks', x.buffer.chunkIndex) && y.buffer.chunkIndex >= x.buffer.chunkIndex
  {
    var (y, chunks') := TakeSnapshot(x, chunks, putOk);
    FlushMoves(x.buffer, chunks, putOk);
    assert AllLines(y, chunks') == AllLines(x, chunks);
    AccountsMoved(job, x, y, chunks, chunks');
    SettledUpToKept(x, y, x.cp.lastProcessedIndex);
    SettledUpToKept(x, y, x.loWater);
    assert Marks(job, y);
    SnapshotsSurvive(job, x, y.(saves := x.saves), chunks, chunks');
    SnapshotIsSound(job, y, chunks', y.cp);
  }
}
