/**
 * What the past of a run says about its present: whose hash a manifest line has, which upload
 * leaves a checkpoint, what an expired asset stops, and what goes before a checkpoint is deleted.
 */
module ExtractionHistory {
  import opened Extraction
  import opened ExtractionInvariant
  import opened ExtractionRoot
  import opened ExtractionSafety
  import opened ExtractionTheorems
  import opened Wrappers

  // --- The hash on a line is its own upload's ---

  /** One of the first `k` steps is the upload of the line's entry, and it gave this hash. */
  ghost predicate Uploaded(steps: seq<Step>, k: nat, line: Line) {
    exists m | 0 <= m < k && m < |steps| :: IsUpload(steps[m], line.src, line.file.hash)
  }

  predicate IsUpload(step: Step, index: int, hash: string) {
    step.UploadDone? && step.index == index && step.outcome.hash == hash
  }

  ghost predicate AllUploaded(steps: seq<Step>, k: nat, lines: seq<Line>) {
    forall n | 0 <= n < |lines| :: Uploaded(steps, k, lines[n])
  }

  ghost predicate HashesOk(steps: seq<Step>, k: nat, s: State) {
    && (s.store.checkpoint.Some? ==>
          if s.store.checkpoint.value.phase == Reporting
          then s.store.manifest.Some? && AllUploaded(steps, k, s.store.manifest.value)
          else AllUploaded(steps, k, Lines(s.store.chunks, s.store.checkpoint.value.manifestChunksWritten)))
    && (s.proc.Running? ==> AllUploaded(steps, k, AllLines(s.proc.x, s.store.chunks)))
    && (s.proc.Flushed? ==> AllUploaded(steps, k, Lines(s.store.chunks, s.proc.cp.manifestChunksWritten)))
  }

  lemma UploadedLater(steps: seq<Step>, k: nat, lines: seq<Line>, part: seq<Line>)
    requires AllUploaded(steps, k, lines) && part <= lines
    ensures AllUploaded(steps, k + 1, part)
  {
    forall n | 0 <= n < |part| ensures Uploaded(steps, k + 1, part[n]) {
      assert Uploaded(steps, k, lines[n]);
    }
  }

  lemma LinesBelow(chunks: map<nat, seq<Line>>, chunks': map<nat, seq<Line>>, count: nat, n: nat)
    requires KeepsBelow(chunks, chunks', n) && count <= n
    ensures Lines(chunks', count) == Lines(chunks, count)
  {
    if chunks' != chunks {
      LinesUntouched(chunks, count, n, chunks'[n]);
    }
  }

  lemma UploadAddsItsLine(job: Job, x: Extraction, chunks: map<nat, seq<Line>>, e: ArchiveEntry, o: Outcome)
    requires job.checkpointEvery > 0 && ChunksPresent(chunks, x.buffer.chunkIndex)
    ensures
      var (y, chunks') := OnSuccess(job, x, chunks, e, o);
      && (forall count: nat | count <= x.buffer.chunkIndex :: Lines(chunks', count) == Lines(chunks, count))
      && exists line: Line :: line.src == e.index && line.file.hash == o.hash && AllLines(y, chunks') == AllLines(x, chunks) + [line]
  {
    hide Settle, CheckpointDue;
    var line := Line(e.index, FileEntry(job.outputPath(e.path, x.cp.rootPrefix), e.size, o.hash));
    var (y, chunks1) := Record(job, x, chunks, e, o);
    AddMoves(x.buffer, chunks, line, o.addPutOk);
    FlushMoves(y.buffer, chunks1, o.flushPutOk);
    var (_, chunks2) := Flush(y.buffer, chunks1, o.flushPutOk);
    assert KeepsBelow(chunks, chunks1, x.buffer.chunkIndex) && KeepsBelow(chunks1, chunks2, y.buffer.chunkIndex);
    forall count: nat | count <= x.buffer.chunkIndex
      ensures Lines(chunks1, count) == Lines(chunks, count) && Lines(chunks2, count) == Lines(chunks, count)
    {
      LinesBelow(chunks, chunks1, count, x.buffer.chunkIndex);
      LinesBelow(chunks1, chunks2, count, y.buffer.chunkIndex);
    }
  }

  lemma OneMoreUploaded(steps: seq<Step>, k: nat, lines: seq<Line>, line: Line)
    requires AllUploaded(steps, k, lines) && k < |steps| && IsUpload(steps[k], line.src, line.file.hash)
    ensures AllUploaded(steps, k + 1, lines + [line])
  {
    forall n | 0 <= n < |lines + [line]| ensures Uploaded(steps, k + 1, (lines + [line])[n]) {
      if n < |lines| {
        assert Uploaded(steps, k, lines[n]);
      } else {
        assert IsUpload(steps[k], line.src, line.file.hash);
      }
    }
  }

  lemma UploadKeepsHashes(job: Job, steps: seq<Step>, k: nat, s: State)
    requires ValidJob(job) && Inv(job, s) && k < |steps| && Enabled(job, s, steps[k]) && HashesOk(steps, k, s)
    requires steps[k].UploadDone?
    ensures HashesOk(steps, k + 1, Apply(job, s, steps[k]))
  {
    var x, step, s' := s.proc.x, steps[k], Apply(job, s, steps[k]);
    UploadAddsItsLine(job, x, s.store.chunks, job.entries[step.index], step.outcome);
    assert s'.proc.Running? && s'.store == s.store.(chunks := s'.store.chunks);
    assert s.store.checkpoint.Some? ==>
        s.store.checkpoint.value.phase != Reporting && s.store.checkpoint.value.manifestChunksWritten <= x.buffer.chunkIndex;
    var line: Line :| line.src == step.index && line.file.hash == step.outcome.hash
      && AllLines(s'.proc.x, s'.store.chunks) == AllLines(x, s.store.chunks) + [line];
    hide Apply, Enabled, Inv, ValidJob, AllLines;
    OneMoreUploaded(steps, k, AllLines(x, s.store.chunks), line);
    hide Uploaded;
    if s.store.checkpoint.Some? {
      var lines := Lines(s.store.chunks, s.store.checkpoint.value.manifestChunksWritten);
      UploadedLater(steps, k, lines, lines);
    }
  }

  lemma RunningKeepsHashes(job: Job, steps: seq<Step>, k: nat, s: State)
    requires ValidJob(job) && Inv(job, s) && k < |steps| && Enabled(job, s, steps[k]) && HashesOk(steps, k, s)
    requires s.proc.Running? && !steps[k].UploadDone?
    ensures HashesOk(steps, k + 1, Apply(job, s, steps[k]))
  {
    hide Covered, Marks, OnSuccess, Advance, IsFile, Accounts, CheckpointOk, Uploaded;
    var x, chunks, s' := s.proc.x, s.store.chunks, Apply(job, s, steps[k]);
    var lines := AllLines(x, chunks);
    UploadedLater(steps, k, lines, lines);
    if s.store.checkpoint.Some? {
      var count := s.store.checkpoint.value.manifestChunksWritten;
      UploadedLater(steps, k, Lines(chunks, count), Lines(chunks, count));
      LinesBelow(chunks, s'.store.chunks, count, x.buffer.chunkIndex);
    }
    match steps[k]
    case SaveLands(snapshot) =>
      LinesPrefix(chunks, snapshot.manifestChunksWritten, x.buffer.chunkIndex);
      UploadedLater(steps, k, lines, Lines(chunks, snapshot.manifestChunksWritten));
    case FinalFlush =>
      BooksAreThere(job, x, chunks);
      FlushMoves(x.buffer, chunks, true);
      assert Lines(s'.store.chunks, s'.proc.cp.manifestChunksWritten) == lines;
    case _ =>
  }

  lemma BooksAreThere(job: Job, x: Extraction, chunks: map<nat, seq<Line>>)
    requires Accounts(job, x, chunks)
    ensures ChunksPresent(chunks, x.buffer.chunkIndex)
  {
  }

  lemma OtherKeepsHashes(job: Job, steps: seq<Step>, k: nat, s: State)
    requires ValidJob(job) && Inv(job, s) && k < |steps| && Enabled(job, s, steps[k]) && HashesOk(steps, k, s)
    requires !s.proc.Running?
    ensures HashesOk(steps, k + 1, Apply(job, s, steps[k]))
  {
    hide Covered, OnSuccess, Uploaded, CheckpointOk, Accounts, Marks, Snapshots, ManifestOk, FileCount;
    var s' := Apply(job, s, steps[k]);
    if s.store.checkpoint.Some? {
      var cp := s.store.checkpoint.value;
      var lines := if cp.phase == Reporting then s.store.manifest.value else Lines(s.store.chunks, cp.manifestChunksWritten);
      UploadedLater(steps, k, lines, lines);
      if steps[k].SaveReporting? {
        PathsAreThere(job, cp, s.store.chunks);
        DedupKeepsUploads(steps, k, Lines(s.store.chunks, cp.manifestChunksWritten));
      }
    }
    if s.proc.Flushed? {
      var lines := Lines(s.store.chunks, s.proc.cp.manifestChunksWritten);
      UploadedLater(steps, k, lines, lines);
    }
  }

  lemma PathsAreThere(job: Job, cp: JobCheckpoint, chunks: map<nat, seq<Line>>)
    requires ValidJob(job) && CheckpointOk(job, cp, chunks)
    ensures NoEmptyPath(Lines(chunks, cp.manifestChunksWritten))
  {
    var lines := Lines(chunks, cp.manifestChunksWritten);
    forall k | 0 <= k < |lines| ensures lines[k].file.path != "" {
      assert LineOk(job, cp.rootPrefix, lines[k]);
    }
  }

  lemma DedupKeepsUploads(steps: seq<Step>, k: nat, lines: seq<Line>)
    requires AllUploaded(steps, k, lines) && NoEmptyPath(lines)
    ensures AllUploaded(steps, k + 1, Dedup(lines, {}))
  {
    DedupSelects(lines, {});
    UploadedLater(steps, k, lines, lines);
    var out := Dedup(lines, {});
    forall n | 0 <= n < |out| ensures Uploaded(steps, k + 1, out[n]) {
      assert out[n] in out;
      var m :| 0 <= m < |lines| && lines[m] == out[n];
    }
  }

  lemma {:induction false} RunKeepsHashes(job: Job, trace: seq<State>, steps: seq<Step>, k: nat)
    requires ValidJob(job) && SoundBehavior(job, trace, steps) && k < |trace|
    ensures HashesOk(steps, k, trace[k])
  {
    if k > 0 {
      RunKeepsHashes(job, trace, steps, k - 1);
      BehaviorKeeps(job, trace, steps, k - 1);
      var s := trace[k - 1];
      assert Enabled(job, s, steps[k - 1]) && trace[k] == Apply(job, s, steps[k - 1]);
      hide HashesOk, Apply, Enabled, Inv, ValidJob, SoundBehavior, Behavior;
      if !s.proc.Running? {
        OtherKeepsHashes(job, steps, k - 1, s);
      } else if steps[k - 1].UploadDone? {
        UploadKeepsHashes(job, steps, k - 1, s);
      } else {
        RunningKeepsHashes(job, steps, k - 1, s);
      }
    }
  }

  /** Each line of the final manifest has the hash that an upload of its own entry gave in this run. */
  lemma FinalHashesAreUploaded(job: Job, trace: seq<State>, steps: seq<Step>, k: nat, n: nat)
    requires ValidJob(job) && SoundBehavior(job, trace, steps) && k < |trace|
    requires trace[k].store.checkpoint.Some? && trace[k].store.checkpoint.value.phase == Reporting
    ensures trace[k].store.manifest.Some?
    ensures
      var manifest := trace[k].store.manifest.value;
      n < |manifest| ==>
        exists m | 0 <= m < k :: IsUpload(steps[m], manifest[n].src, manifest[n].file.hash)
  {
    RunKeepsHashes(job, trace, steps, k);
    if n < |trace[k].store.manifest.value| {
      assert Uploaded(steps, k, trace[k].store.manifest.value[n]);
    }
  }

  // --- An error on record is that of a failed upload ---

  /** One of the first `k` steps is the failure that the error tells of. */
  ghost predicate Failed(steps: seq<Step>, k: nat, error: EntryError) {
    exists m | 0 <= m < k && m < |steps| :: steps[m] == UploadFailed(error.index, error.error)
  }

  ghost predicate AllFailed(steps: seq<Step>, k: nat, errors: seq<EntryError>) {
    forall n | 0 <= n < |errors| :: Failed(steps, k, errors[n])
  }

  ghost predicate ErrorsOk(steps: seq<Step>, k: nat, s: State) {
    && (forall cp | Held(s, cp) :: AllFailed(steps, k, cp.errors))
    && (s.proc.Listing? || s.proc.Listed? ==> AllFailed(steps, k, s.proc.cp.errors))
  }

  lemma FailedLater(steps: seq<Step>, k: nat, errors: seq<EntryError>)
    requires AllFailed(steps, k, errors)
    ensures AllFailed(steps, k + 1, errors)
  {
    forall n | 0 <= n < |errors| ensures Failed(steps, k + 1, errors[n]) {
      assert Failed(steps, k, errors[n]);
    }
  }

  /** Errors that are held in `s`, or are those of its process and one for the upload that failed. */
  ghost predicate Grown(s: State, step: Step, errors: seq<EntryError>) {
    || (exists own :: Held(s, own) && errors == own.errors)
    || ((s.proc.Listing? || s.proc.Listed?) && errors == s.proc.cp.errors)
    || errors == []
    || (step.UploadFailed? && s.proc.Running? && OneMore(s.proc.x.cp.errors, step, errors))
  }

  predicate OneMore(before: seq<EntryError>, step: Step, after: seq<EntryError>) {
    step.UploadFailed? && |after| == |before| + 1 && after[..|before|] == before
    && after[|before|].index == step.index && after[|before|].error == step.message
  }

  lemma RunningErrors(job: Job, s: State, step: Step, cp: JobCheckpoint)
    requires ValidJob(job) && Enabled(job, s, step) && s.proc.Running? && !step.UploadDone?
    requires Held(Apply(job, s, step), cp)
    ensures Grown(s, step, cp.errors)
  {
    hide Advance, OnSuccess, Flush, Lines, Dedup, FileCount, CheckpointDue;
    assert Held(s, s.proc.x.cp);
  }

  lemma UploadErrors(job: Job, s: State, step: Step, cp: JobCheckpoint)
    requires Enabled(job, s, step) && step.UploadDone?
    requires Held(Apply(job, s, step), cp)
    ensures Grown(s, step, cp.errors)
  {
    hide Advance, AddLine, Flush, CheckpointDue;
    var x, s' := s.proc.x, Apply(job, s, step);
    assert s'.store.checkpoint == s.store.checkpoint && s'.proc.x.loaded == x.loaded && s'.proc.x.cp.errors == x.cp.errors;
    assert s'.proc.x.saves == x.saves || s'.proc.x.saves == x.saves + multiset{s'.proc.x.cp};
    hide Apply, Enabled;
    assert Held(s, x.cp);
  }

  lemma OtherErrors(job: Job, s: State, step: Step, cp: JobCheckpoint)
    requires Enabled(job, s, step) && !s.proc.Running?
    requires Held(Apply(job, s, step), cp)
      || ((Apply(job, s, step).proc.Listing? || Apply(job, s, step).proc.Listed?) && cp == Apply(job, s, step).proc.cp)
    ensures Grown(s, step, cp.errors)
  {
    hide OnSuccess, OnError, OnDirectory, Flush, Lines, Dedup, FileCount, CheckpointDue;
    if step.Start? {
      assert s.store.checkpoint.Some? ==> Held(s, s.store.checkpoint.value);
    } else {
      assert s.proc.Listing? || s.proc.Listed? || s.proc.Idle? || Held(s, s.proc.cp);
    }
  }

  lemma NoListing(job: Job, s: State, step: Step)
    requires Enabled(job, s, step) && s.proc.Running?
    ensures !Apply(job, s, step).proc.Listing? && !Apply(job, s, step).proc.Listed?
  {
    hide OnSuccess, OnError, OnDirectory, Flush, Lines, Dedup, FileCount, CheckpointDue;
  }

  lemma ErrorsStep(job: Job, steps: seq<Step>, k: nat, s: State)
    requires ValidJob(job) && k < |steps| && Enabled(job, s, steps[k]) && ErrorsOk(steps, k, s)
    ensures ErrorsOk(steps, k + 1, Apply(job, s, steps[k]))
  {
    hide Apply, Enabled, ValidJob, Held, Failed;
    var s' := Apply(job, s, steps[k]);
    if s.proc.Running? { NoListing(job, s, steps[k]); }
    forall cp | Held(s', cp) || ((s'.proc.Listing? || s'.proc.Listed?) && cp == s'.proc.cp)
      ensures AllFailed(steps, k + 1, cp.errors)
    {
      if !s.proc.Running? {
        OtherErrors(job, s, steps[k], cp);
      } else if steps[k].UploadDone? {
        UploadErrors(job, s, steps[k], cp);
      } else {
        RunningErrors(job, s, steps[k], cp);
      }
      GrownFailed(steps, k, s, cp.errors);
    }
  }

  lemma GrownFailed(steps: seq<Step>, k: nat, s: State, errors: seq<EntryError>)
    requires k < |steps| && ErrorsOk(steps, k, s) && Grown(s, steps[k], errors)
    ensures AllFailed(steps, k + 1, errors)
  {
    if AllFailed(steps, k, errors) {
      FailedLater(steps, k, errors);
    } else {
      assert Held(s, s.proc.x.cp);
      NewErrorFailed(steps, k, s.proc.x.cp.errors, errors);
    }
  }

  lemma NewErrorFailed(steps: seq<Step>, k: nat, before: seq<EntryError>, after: seq<EntryError>)
    requires AllFailed(steps, k, before) && k < |steps| && OneMore(before, steps[k], after)
    ensures AllFailed(steps, k + 1, after)
  {
    FailedLater(steps, k, before);
    forall n | 0 <= n < |after| ensures Failed(steps, k + 1, after[n]) {
      if n < |before| {
        assert after[n] == after[..|before|][n] == before[n];
      } else {
        assert steps[k] == UploadFailed(after[n].index, after[n].error);
      }
    }
  }

  lemma {:induction false} RunKeepsErrors(job: Job, trace: seq<State>, steps: seq<Step>, k: nat)
    requires ValidJob(job) && Behavior(job, trace, steps) && k < |trace|
    ensures ErrorsOk(steps, k, trace[k])
  {
    if k > 0 {
      RunKeepsErrors(job, trace, steps, k - 1);
      assert trace[k] == Apply(job, trace[k - 1], steps[k - 1]);
      ErrorsStep(job, steps, k - 1, trace[k - 1]);
    }
  }

  /** Each error in a checkpoint that is stored or gone by is the failure of that entry's upload in this run, in its own words. */
  lemma ErrorsAreFailures(job: Job, trace: seq<State>, steps: seq<Step>, k: nat, cp: JobCheckpoint, n: nat)
    requires ValidJob(job) && Behavior(job, trace, steps) && k < |trace| && Held(trace[k], cp) && n < |cp.errors|
    ensures exists m | 0 <= m < k :: steps[m] == UploadFailed(cp.errors[n].index, cp.errors[n].error)
  {
    RunKeepsErrors(job, trace, steps, k);
    assert Failed(steps, k, cp.errors[n]);
  }

  // --- When a checkpoint is taken, and when a chunk is full ---

  /**
   * A successful upload leaves a snapshot to be saved exactly when the files done are a multiple
   * of `checkpointEvery`, or two minutes have passed since the last.
   */
  lemma SnapshotTakenExactly(job: Job, s: State, index: int, o: Outcome)
    requires Enabled(job, s, UploadDone(index, o))
    ensures
      var x, y := s.proc.x, Apply(job, s, UploadDone(index, o)).proc.x;
      && y.cp.processedCount == x.cp.processedCount + 1
      && (y.cp.processedCount % job.checkpointEvery == 0 || o.timerDue ==> y.saves == x.saves + multiset{y.cp})
      && (y.cp.processedCount % job.checkpointEvery != 0 && !o.timerDue ==>
            y.saves == x.saves && y.cp.manifestChunksWritten == x.cp.manifestChunksWritten)
  {
    hide AddLine, Flush, Advance;
  }

  /** A save that lands is what a restart will find; nothing else that a process in phase B does changes what is stored. */
  lemma SavesAreStored(job: Job, trace: seq<State>, steps: seq<Step>, k: nat)
    requires Behavior(job, trace, steps) && k < |steps| && trace[k].proc.Running?
    ensures
      trace[k + 1].store.checkpoint == if steps[k].SaveLands? then Some(steps[k].snapshot) else trace[k].store.checkpoint
  {
    hide OnSuccess, OnError, OnDirectory, Flush, Lines, Dedup, FileCount;
    assert Enabled(job, trace[k], steps[k]) && trace[k + 1] == Apply(job, trace[k], steps[k]);
  }

  /**
   * What a successful upload records as done is all that may be skipped: in parallel, everything up to the mark has
   * settled and its successor has not; in sequence, it is the entry just uploaded.
   */
  lemma MarkIsRecorded(job: Job, trace: seq<State>, steps: seq<Step>, k: nat)
    requires ValidJob(job) && SoundBehavior(job, trace, steps) && k < |steps| && steps[k].UploadDone?
    ensures trace[k + 1].proc.Running?
    ensures
      var x := trace[k + 1].proc.x;
      var mark := x.cp.lastProcessedIndex;
      if job.sequential then mark == steps[k].index
      else (forall i | x.loaded.lastProcessedIndex < i <= mark :: SettledAt(x, i)) && (mark + 1 in x.inFlight || mark + 1 >= x.next)
  {
    var s, step := trace[k], steps[k];
    assert Enabled(job, s, step) && trace[k + 1] == Apply(job, s, step);
    assert job.entries[step.index].index == step.index;
    RecordedMark(job, s.proc.x, s.store.chunks, job.entries[step.index], step.outcome);
    hide Apply, Enabled, OnSuccess;
    if !job.sequential { LowWaterIsExact(job, trace, steps, k + 1); }
  }

  lemma RecordedMark(job: Job, x: Extraction, chunks: map<nat, seq<Line>>, e: ArchiveEntry, o: Outcome)
    requires job.checkpointEvery > 0
    ensures
      var y := OnSuccess(job, x, chunks, e, o).0;
      y.cp.lastProcessedIndex == if job.sequential then e.index else y.loWater
  {
    hide AddLine, Flush, Advance, CheckpointDue;
  }

  /**
   * A chunk is written by adding a line exactly when it is the thousandth, unless an earlier PUT
   * failed; what is written are all the lines buffered.
   */
  lemma ChunkIsFullExactly(b: Buffer, chunks: map<nat, seq<Line>>, line: Line, putOk: bool)
    ensures
      var (b', chunks') := AddLine(b, chunks, line, putOk);
      if putOk && |b.chunk| + 1 >= 1000
      then b' == Buffer([], b.chunkIndex + 1) && chunks' == chunks[b.chunkIndex := b.chunk + [line]]
      else b' == Buffer(b.chunk + [line], b.chunkIndex) && chunks' == chunks
  {
    assert |b.chunk + [line]| == |b.chunk| + 1;
  }

  // --- An asset that has expired ---

  ghost predicate Expired(proc: Process) {
    || proc.Idle?
    || (proc.Running? && proc.x.aborted)
    || (proc.Flushed? && proc.aborted)
  }

  lemma ExpiredStep(job: Job, s: State, step: Step)
    requires Enabled(job, s, step) && !step.Start? && (step.AssetExpired? || Expired(s.proc))
    ensures Expired(Apply(job, s, step).proc)
    ensures job.sequential && (step.AssetExpired? || s.proc.Idle?) ==> Apply(job, s, step).proc.Idle?
  {
    hide Advance, Flush, AddLine, CheckpointDue, Lines, Dedup, FileCount;
  }

  lemma {:induction false} ExpiredStays(job: Job, trace: seq<State>, steps: seq<Step>, j: nat, k: nat)
    requires Behavior(job, trace, steps) && j < k < |trace|
    requires steps[j].AssetExpired? && forall i | j < i < k :: !steps[i].Start?
    ensures Expired(trace[k].proc) && (job.sequential ==> trace[k].proc.Idle?)
  {
    hide Apply, Enabled, Initial;
    if k - 1 > j {
      ExpiredStays(job, trace, steps, j, k - 1);
    }
    assert Enabled(job, trace[k - 1], steps[k - 1]) && trace[k] == Apply(job, trace[k - 1], steps[k - 1]);
    ExpiredStep(job, trace[k - 1], steps[k - 1]);
  }

  /** A process that has had word of its asset's expiry never writes the manifest and never reports; in sequence it stops at once. */
  lemma ExpiredNeverFinishes(job: Job, trace: seq<State>, steps: seq<Step>, j: nat, k: nat)
    requires Behavior(job, trace, steps) && j < k < |trace|
    requires steps[j].AssetExpired? && forall i | j < i < k :: !steps[i].Start?
    ensures Expired(trace[k].proc) && (job.sequential ==> trace[k].proc.Idle?)
    ensures k < |steps| ==> !steps[k].WriteManifest? && !steps[k].SaveReporting? && !steps[k].Report?
  {
    ExpiredStays(job, trace, steps, j, k);
    if k < |steps| {
      hide Apply;
      assert Enabled(job, trace[k], steps[k]);
    }
  }

  // --- What goes before the deletion of a checkpoint ---

  /** The checkpoint is deleted only by the process whose report has just been acknowledged. */
  lemma ReportedBeforeDeleted(job: Job, trace: seq<State>, steps: seq<Step>, k: nat)
    requires Behavior(job, trace, steps) && k < |steps| && steps[k].DeleteCheckpoint?
    ensures k > 0 && steps[k - 1].Report?
  {
    hide Advance, Flush, AddLine, CheckpointDue, Lines, Dedup, FileCount;
    assert Enabled(job, trace[k], steps[k]);
    assert trace[k].proc.Announced?;
    assert Enabled(job, trace[k - 1], steps[k - 1]) && trace[k] == Apply(job, trace[k - 1], steps[k - 1]);
  }

  /** A report follows the deletion of the entry list, or a restart that found "reporting" stored. */
  lemma ReportComesLast(job: Job, trace: seq<State>, steps: seq<Step>, k: nat)
    requires Behavior(job, trace, steps) && k < |steps| && steps[k].Report?
    ensures k > 0
    ensures
      || steps[k - 1].DeleteEntryList?
      || (steps[k - 1].Start? && trace[k].store.checkpoint.Some? && trace[k].store.checkpoint.value.phase == Reporting)
  {
    hide Advance, Flush, AddLine, CheckpointDue, Lines, Dedup, FileCount;
    assert Enabled(job, trace[k], steps[k]);
    assert Enabled(job, trace[k - 1], steps[k - 1]) && trace[k] == Apply(job, trace[k - 1], steps[k - 1]);
  }

  /** What a restart does first: it goes on at the phase that is stored, and repeats nothing of those before. */
  lemma RestartsWhereItStopped(job: Job, trace: seq<State>, steps: seq<Step>, k: nat)
    requires Behavior(job, trace, steps) && k + 1 < |steps| && steps[k].Start? && !steps[k + 1].Crash?
    ensures
      match trace[k].store.checkpoint
      case None => steps[k + 1].ListingFailed? || steps[k + 1].StoreEntryList? || steps[k + 1].SkipListing?
      case Some(cp) =>
        match cp.phase
        case EntriesListing => steps[k + 1].ListingFailed? || steps[k + 1].StoreEntryList? || steps[k + 1].SkipListing?
        case Completing => steps[k + 1].WriteManifest?
        case Reporting => steps[k + 1].Report?
        case _ => trace[k + 1].proc.Running? && trace[k + 1].proc.x.loaded == cp && trace[k + 1].proc.x.next == 0
  {
    hide OnSuccess, OnError, OnDirectory, Flush, Lines, Dedup, FileCount;
    assert Enabled(job, trace[k], steps[k]) && trace[k + 1] == Apply(job, trace[k], steps[k]);
    assert Enabled(job, trace[k + 1], steps[k + 1]);
    hide Apply, Behavior;
  }

  /** When its checkpoint is deleted, all that is left of a job is its manifest. */
  lemma CheckpointGoesLast(job: Job, trace: seq<State>, steps: seq<Step>, k: nat)
    requires Behavior(job, trace, steps) && k < |steps| && steps[k] == DeleteCheckpoint(true)
    ensures trace[k + 1].store == trace[k].store.(checkpoint := None) && trace[k + 1].proc.Idle?
  {
    assert trace[k + 1] == Apply(job, trace[k], steps[k]);
  }

  /** Chunk deletions that work, one after another from the first chunk on, leave exactly the later chunks. */
  lemma {:induction false} ChunksGo(job: Job, trace: seq<State>, steps: seq<Step>, i: nat, c: nat)
    requires Behavior(job, trace, steps) && i + c < |steps|
    requires steps[i].SaveReporting? && forall j | i < j <= i + c :: steps[j] == DeleteChunk(true)
    ensures
      var s, s' := trace[i + 1], trace[i + 1 + c];
      && s'.proc == Deleting(s.proc.cp, c) && c <= s.proc.cp.manifestChunksWritten
      && s'.store.entryList == s.store.entryList
      && forall key: nat :: key in s'.store.chunks <==> key in s.store.chunks && key >= c
  {
    hide Dedup, Lines;
    assert Enabled(job, trace[i + c], steps[i + c]) && trace[i + c + 1] == Apply(job, trace[i + c], steps[i + c]);
    if c > 0 {
      ChunksGo(job, trace, steps, i, c - 1);
    }
  }

  /** When the entry list goes after them, every chunk the checkpoint counts is gone, and the list is. */
  lemma NothingIsLeft(job: Job, trace: seq<State>, steps: seq<Step>, i: nat, c: nat)
    requires Behavior(job, trace, steps) && i + c + 1 < |steps|
    requires steps[i].SaveReporting? && forall j | i < j <= i + c :: steps[j] == DeleteChunk(true)
    requires steps[i + c + 1] == DeleteEntryList(true)
    ensures
      var cp, store := trace[i + 1].proc.cp, trace[i + c + 2].store;
      && store.entryList.None?
      && (forall key: nat | key < cp.manifestChunksWritten :: key !in store.chunks)
  {
    ChunksGo(job, trace, steps, i, c);
    assert Enabled(job, trace[i + c + 1], steps[i + c + 1]);
    assert trace[i + c + 2] == Apply(job, trace[i + c + 1], steps[i + c + 1]);
  }
}
