/** What holds in every state of every run of the extraction protocol. */
module ExtractionSafety {
  import opened Extraction
  import opened ExtractionInvariant

  // --- The manifest's deduplication ---

  predicate NoEmptyPath(lines: seq<Line>) {
    forall k | 0 <= k < |lines| :: lines[k].file.path != ""
  }

  /** One step of the filter over lines that all have a path. */
  lemma DedupUnfolds(lines: seq<Line>, seen: set<string>)
    requires NoEmptyPath(lines) && |lines| > 0
    ensures NoEmptyPath(lines[1..])
    ensures
      var path := lines[0].file.path;
      Dedup(lines, seen)
      == if path in seen then Dedup(lines[1..], seen) else [lines[0]] + Dedup(lines[1..], seen + {path})
  {
    assert forall k | 0 <= k < |lines[1..]| :: lines[1..][k] == lines[k + 1];
  }

  /** Nothing is invented, and nothing that was seen before comes again. */
  lemma {:induction false} DedupSelects(lines: seq<Line>, seen: set<string>)
    requires NoEmptyPath(lines)
    ensures forall line | line in Dedup(lines, seen) :: line in lines && line.file.path !in seen
  {
    hide NoEmptyPath;
    if |lines| > 0 {
      var path := lines[0].file.path;
      DedupUnfolds(lines, seen);
      DedupSelects(lines[1..], if path in seen then seen else seen + {path});
      hide Dedup;
    }
  }

  /** No path comes twice. */
  lemma {:induction false} DedupIsUnique(lines: seq<Line>, seen: set<string>)
    requires NoEmptyPath(lines)
    ensures
      var out := Dedup(lines, seen);
      forall j, k | 0 <= j < k < |out| :: out[j].file.path != out[k].file.path
  {
    hide NoEmptyPath;
    if |lines| > 0 {
      var path := lines[0].file.path;
      var kept := if path in seen then seen else seen + {path};
      var rest := Dedup(lines[1..], kept);
      DedupUnfolds(lines, seen);
      DedupIsUnique(lines[1..], kept);
      DedupSelects(lines[1..], kept);
      hide Dedup;
      forall k | 0 <= k < |rest|
        ensures rest[k].file.path !in kept
      {
        assert rest[k] in rest;
      }
    }
  }

  /** Every path that was not seen before comes. */
  lemma {:induction false} DedupKeepsPaths(lines: seq<Line>, seen: set<string>, k: nat)
    requires NoEmptyPath(lines) && k < |lines| && lines[k].file.path !in seen
    ensures HasPath(Dedup(lines, seen), lines[k].file.path)
  {
    hide NoEmptyPath;
    var path := lines[0].file.path;
    DedupUnfolds(lines, seen);
    if lines[k].file.path == path {
      assert Dedup(lines, seen)[0].file.path == path;
    } else {
      var kept := if path in seen then seen else seen + {path};
      assert lines[1..][k - 1] == lines[k];
      DedupKeepsPaths(lines[1..], kept, k - 1);
      PathIsLater(Dedup(lines, seen), Dedup(lines[1..], kept), lines[0], lines[k].file.path);
    }
  }

  lemma PathIsLater(all: seq<Line>, rest: seq<Line>, first: Line, path: string)
    requires (all == rest || all == [first] + rest) && HasPath(rest, path)
    ensures HasPath(all, path)
  {
    var j :| 0 <= j < |rest| && rest[j].file.path == path;
    assert all[|all| - |rest| + j] == rest[j];
  }

  /** The first line of each path survives, and nothing else does. */
  lemma DedupKeepsFirst(lines: seq<Line>, seen: set<string>)
    requires NoEmptyPath(lines)
    ensures
      var out := Dedup(lines, seen);
      && (forall j, k | 0 <= j < k < |out| :: out[j].file.path != out[k].file.path)
      && (forall k | 0 <= k < |out| :: out[k] in lines && out[k].file.path !in seen)
      && (forall k | 0 <= k < |lines| && lines[k].file.path !in seen :: HasPath(out, lines[k].file.path))
  {
    hide Dedup, NoEmptyPath, HasPath;
    DedupIsUnique(lines, seen);
    DedupSelects(lines, seen);
    var out := Dedup(lines, seen);
    forall k | 0 <= k < |out|
      ensures out[k] in lines && out[k].file.path !in seen
    {
      assert out[k] in out;
    }
    forall k | 0 <= k < |lines| && lines[k].file.path !in seen
      ensures HasPath(out, lines[k].file.path)
    {
      DedupKeepsPaths(lines, seen, k);
    }
  }

  /** A finished checkpoint's chunks make a manifest that keeps its promise. */
  lemma ManifestFromChunks(job: Job, cp: JobCheckpoint, chunks: map<nat, seq<Line>>)
    requires ValidJob(job) && CheckpointOk(job, cp, chunks) && cp.phase == Completing
    ensures ManifestOk(job, cp, Dedup(Lines(chunks, cp.manifestChunksWritten), {}))
  {
    var lines := Lines(chunks, cp.manifestChunksWritten);
    forall k | 0 <= k < |lines| ensures lines[k].file.path != "" {
      assert LineOk(job, cp.rootPrefix, lines[k]);
    }
    DedupKeepsFirst(lines, {});
    var out := Dedup(lines, {});
    forall k | 0 <= k < |out| ensures LineOk(job, cp.rootPrefix, out[k]) {
      assert out[k] in lines;
    }
    forall i | IsFile(job, i)
      ensures HasError(cp.errors, i) || HasPath(out, job.outputPath(job.entries[i].path, cp.rootPrefix))
    {
      assert Covered(lines, cp.errors, i);
      if HasLine(lines, i) {
        var k :| 0 <= k < |lines| && lines[k].src == i;
        assert LineOk(job, cp.rootPrefix, lines[k]);
      }
    }
  }

  // --- Every step keeps the invariant ---

  lemma BeginOk(job: Job, cp: JobCheckpoint, chunks: map<nat, seq<Line>>)
    requires ValidJob(job) && CheckpointOk(job, cp, chunks)
    ensures ExtractionOk(job, Begin(cp), chunks)
  {
    var x := Begin(cp);
    assert AllLines(x, chunks) == Lines(chunks, cp.manifestChunksWritten);
    assert forall i | Done(job, x, i) :: i <= cp.lastProcessedIndex;
  }

  lemma FreshOk(job: Job, cp: JobCheckpoint, chunks: map<nat, seq<Line>>)
    requires cp.lastProcessedIndex == -1 && cp.processedCount == cp.processedBytes == cp.manifestChunksWritten == 0
    requires cp.errors == [] && cp.phase == EntriesListed && (cp.rootPrefix == "" || cp.rootPrefix == job.rootPrefix)
    ensures CheckpointOk(job, cp, chunks)
  {
  }

  /** A step that only moves the process along in phase B. */
  lemma RunningKept(job: Job, s: State, y: Extraction)
    requires Inv(job, s) && s.proc.Running?
    requires ExtractionOk(job, y, s.store.chunks) && y.buffer == s.proc.x.buffer
    ensures Inv(job, s.(proc := Running(y)))
  {
  }

  lemma StreamDirectoryKeeps(job: Job, s: State)
    requires ValidJob(job) && Inv(job, s) && Enabled(job, s, StreamDirectory)
    ensures Inv(job, Apply(job, s, StreamDirectory))
  {
    DirectoryKeeps(job, s.proc.x, s.store.chunks);
    RunningKept(job, s, OnDirectory(job, s.proc.x, job.entries[s.proc.x.next]));
  }

  lemma StreamDoneStepKeeps(job: Job, s: State)
    requires ValidJob(job) && Inv(job, s) && s.proc.Running?
    requires s.proc.x.next < |job.entries| && s.proc.x.next <= s.proc.x.loaded.lastProcessedIndex
    requires job.sequential ==> s.proc.x.inFlight == {}
    ensures Inv(job, s.(proc := Running(s.proc.x.(next := s.proc.x.next + 1))))
  {
    hide ExtractionOk, CheckpointOk;
    var x := s.proc.x;
    StreamDoneKeeps(job, x, s.store.chunks);
    RunningKept(job, s, x.(next := x.next + 1));
  }

  lemma StreamDoneKeepsInv(job: Job, s: State)
    requires ValidJob(job) && Inv(job, s) && Enabled(job, s, StreamDone)
    ensures Inv(job, Apply(job, s, StreamDone))
  {
    hide ExtractionOk, StoreOk, StoredBefore;
    StreamDoneStepKeeps(job, s);
  }

  lemma LaunchStepKeeps(job: Job, s: State)
    requires ValidJob(job) && Inv(job, s) && Enabled(job, s, Launch)
    ensures Inv(job, Apply(job, s, Launch))
  {
    hide ExtractionOk, StoreOk, StoredBefore;
    var x := s.proc.x;
    LaunchKeeps(job, x, s.store.chunks);
    RunningKept(job, s, x.(next := x.next + 1, inFlight := x.inFlight + {job.entries[x.next].index}));
  }

  lemma RecordFreesASlot(job: Job, x: Extraction, chunks: map<nat, seq<Line>>, index: int, o: Outcome)
    requires Marks(job, x) && index in x.inFlight && 0 <= index < |job.entries| && job.entries[index].index == index
    ensures var y := Record(job, x, chunks, job.entries[index], o).0; |y.inFlight| + |y.saves| < job.maxConcurrency
  {
    hide WaterExact, SettledUpTo, AddLine;
    assert |x.inFlight - {index}| == |x.inFlight| - 1;
  }

  lemma UploadStepKeeps(job: Job, s: State, step: Step)
    requires ValidJob(job) && Inv(job, s) && Enabled(job, s, step) && step.UploadDone?
    requires SoundSnapshot(job, s, step)
    ensures Inv(job, Apply(job, s, step))
  {
    var x, chunks, o := s.proc.x, s.store.chunks, step.outcome;
    RecordFreesASlot(job, x, chunks, step.index, o);
    hide ExtractionOk, StoreOk, StoredBefore, Record, TakeSnapshot;
    RecordKeeps(job, x, chunks, step.index, o);
    var (y, chunks1) := Record(job, x, chunks, job.entries[step.index], o);
    if CheckpointDue(job, y.cp.processedCount, o.timerDue) {
      SnapshotKeeps(job, y, chunks1, o.flushPutOk);
    }
    var s' := Apply(job, s, step);
    UploadStoreKept(job, s, s', y, chunks1);
  }

  /** The stored checkpoint outlives both PUTs of a critical section. */
  lemma UploadStoreKept(job: Job, s: State, s': State, y: Extraction, chunks1: map<nat, seq<Line>>)
    requires Inv(job, s) && s.proc.Running? && s'.proc.Running?
    requires s'.store == s.store.(chunks := s'.store.chunks)
    requires KeepsBelow(s.store.chunks, chunks1, s.proc.x.buffer.chunkIndex) && s.proc.x.buffer.chunkIndex <= y.buffer.chunkIndex
    requires KeepsBelow(chunks1, s'.store.chunks, y.buffer.chunkIndex) && y.buffer.chunkIndex <= s'.proc.x.buffer.chunkIndex
    ensures StoreOk(job, s'.store) && StoredBefore(s'.store, s'.proc.x.buffer.chunkIndex)
  {
    if s.store.checkpoint.Some? {
      var cp := s.store.checkpoint.value;
      CheckpointSurvives(job, cp, s.store.chunks, chunks1, s.proc.x.buffer.chunkIndex);
      CheckpointSurvives(job, cp, chunks1, s'.store.chunks, y.buffer.chunkIndex);
    }
  }

  /** A snapshot stored or given up, or word that the asset is gone: nothing but that changes. */
  lemma BookkeepingKept(job: Job, x: Extraction, y: Extraction, chunks: map<nat, seq<Line>>)
    requires ExtractionOk(job, x, chunks)
    requires y == x.(saves := y.saves, aborted := y.aborted) && y.saves <= x.saves
    ensures ExtractionOk(job, y, chunks)
  {
    hide Accounts, Snapshots, CheckpointOk, WaterExact;
    AccountsKept(job, x, y, chunks);
    SettledUpToKept(x, y, x.cp.lastProcessedIndex);
    SettledUpToKept(x, y, x.loWater);
    if !job.sequential { WaterExactKept(x, y); }
    assert |y.saves| <= |x.saves| by {
      assert x.saves == y.saves + (x.saves - y.saves);
    }
    assert Marks(job, y);
    SnapshotsKept(job, x, y, chunks);
  }

  lemma SaveStepKeeps(job: Job, s: State, step: Step)
    requires ValidJob(job) && Inv(job, s) && Enabled(job, s, step)
    requires step.SaveLands? || step.SaveFails?
    ensures Inv(job, Apply(job, s, step))
  {
    var x := s.proc.x;
    var y := x.(saves := x.saves - multiset{step.snapshot});
    BookkeepingKept(job, x, y, s.store.chunks);
    RunningKept(job, s, y);
  }

  lemma AssetExpiredKeeps(job: Job, s: State)
    requires ValidJob(job) && Inv(job, s) && s.proc.Running?
    ensures Inv(job, Apply(job, s, AssetExpired))
  {
    var y := s.proc.x.(aborted := true);
    BookkeepingKept(job, s.proc.x, y, s.store.chunks);
    RunningKept(job, s, y);
  }

  /** When every entry has been streamed and settled, the final flush makes a finished checkpoint. */
  lemma FinishedCheckpoint(job: Job, x: Extraction, chunks: map<nat, seq<Line>>)
    requires ValidJob(job) && Accounts(job, x, chunks) && Marks(job, x)
    requires x.next == |job.entries| && x.inFlight == {}
    ensures
      var (buffer, chunks') := Flush(x.buffer, chunks, true);
      && CheckpointOk(job, x.cp.(phase := Completing, manifestChunksWritten := buffer.chunkIndex), chunks')
      && KeepsBelow(chunks, chunks', x.buffer.chunkIndex) && x.buffer.chunkIndex <= buffer.chunkIndex
  {
    var (buffer, chunks') := Flush(x.buffer, chunks, true);
    FlushMoves(x.buffer, chunks, true);
    var lines := Lines(chunks', buffer.chunkIndex);
    assert lines == AllLines(x, chunks);
    assert SettledAt(x, x.cp.lastProcessedIndex) || x.cp.lastProcessedIndex <= x.loaded.lastProcessedIndex;
    forall i | IsFile(job, i) ensures Covered(lines, x.cp.errors, i) {
      assert Done(job, x, i);
    }
  }

  lemma FinalFlushKeeps(job: Job, s: State)
    requires ValidJob(job) && Inv(job, s) && Enabled(job, s, FinalFlush)
    ensures Inv(job, Apply(job, s, FinalFlush))
  {
    var x := s.proc.x;
    FinishedCheckpoint(job, x, s.store.chunks);
    if s.store.checkpoint.Some? {
      CheckpointSurvives(job, s.store.checkpoint.value, s.store.chunks, Flush(x.buffer, s.store.chunks, true).1, x.buffer.chunkIndex);
    }
  }

  lemma PhaseCStepKeeps(job: Job, s: State, step: Step)
    requires ValidJob(job) && Inv(job, s) && Enabled(job, s, step)
    requires s.proc.Flushed? || s.proc.Finalizing? || s.proc.Finalized? || s.proc.Deleting? || s.proc.Announcing? || s.proc.Announced?
    ensures Inv(job, Apply(job, s, step))
  {
    if step.SaveReporting? {
      ManifestFromChunks(job, s.proc.cp, s.store.chunks);
    }
  }

  lemma StartStepKeeps(job: Job, s: State, step: Step)
    requires ValidJob(job) && Inv(job, s) && Enabled(job, s, step)
    requires s.proc.Idle? || s.proc.Listing? || s.proc.Listed?
    ensures Inv(job, Apply(job, s, step))
  {
    var s' := Apply(job, s, step);
    if s'.proc.Running? {
      var cp := s'.proc.x.loaded;
      if !s.proc.Idle? {
        FreshOk(job, cp, s.store.chunks);
      }
      BeginOk(job, cp, s.store.chunks);
    }
  }

  lemma CrashInFlushKeeps(job: Job, s: State, lines: seq<Line>)
    requires ValidJob(job) && Inv(job, s) && s.proc.Running?
    ensures Inv(job, Apply(job, s, CrashInFlush(lines)))
  {
    if s.store.checkpoint.Some? {
      CheckpointUntouched(job, s.store.checkpoint.value, s.store.chunks, s.proc.x.buffer.chunkIndex, lines);
    }
  }

  lemma UploadFailedKeeps(job: Job, s: State, step: Step)
    requires ValidJob(job) && Inv(job, s) && Enabled(job, s, step) && step.UploadFailed?
    ensures Inv(job, Apply(job, s, step))
  {
    ErrorKeeps(job, s.proc.x, s.store.chunks, step.index, step.message);
  }

  lemma RunningStepKeeps(job: Job, s: State, step: Step)
    requires ValidJob(job) && Inv(job, s) && Enabled(job, s, step) && SoundSnapshot(job, s, step)
    requires s.proc.Running? && !step.Crash?
    ensures Inv(job, Apply(job, s, step))
  {
    hide Inv, SoundSnapshot;
    match step
    case CrashInFlush(lines) => CrashInFlushKeeps(job, s, lines);
    case StreamDirectory => StreamDirectoryKeeps(job, s);
    case StreamDone => StreamDoneKeepsInv(job, s);
    case Launch => LaunchStepKeeps(job, s);
    case UploadFailed(_, _) => UploadFailedKeeps(job, s, step);
    case UploadDone(_, _) => UploadStepKeeps(job, s, step);
    case SaveLands(_) => SaveStepKeeps(job, s, step);
    case SaveFails(_) => SaveStepKeeps(job, s, step);
    case AssetExpired => AssetExpiredKeeps(job, s);
    case FinalFlush => FinalFlushKeeps(job, s);
  }

  lemma StepKeeps(job: Job, s: State, step: Step)
    requires ValidJob(job) && Inv(job, s) && Enabled(job, s, step) && SoundSnapshot(job, s, step)
    ensures Inv(job, Apply(job, s, step))
  {
    if step.Crash? {
      assert Inv(job, s.(proc := Idle));
    } else if s.proc.Running? {
      RunningStepKeeps(job, s, step);
    } else if s.proc.Idle? || s.proc.Listing? || s.proc.Listed? {
      StartStepKeeps(job, s, step);
    } else {
      PhaseCStepKeeps(job, s, step);
    }
  }

  lemma {:induction false} BehaviorKeeps(job: Job, trace: seq<State>, steps: seq<Step>, k: nat)
    requires ValidJob(job) && SoundBehavior(job, trace, steps) && k < |trace|
    ensures Inv(job, trace[k])
  {
    if k > 0 {
      BehaviorKeeps(job, trace, steps, k - 1);
      StepKeeps(job, trace[k - 1], steps[k - 1]);
    }
  }
}
