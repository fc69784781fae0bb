/** The extraction protocol's promises, for every run with any number of crashes and restarts. */
module ExtractionTheorems {
  import opened ArchivePath
  import opened Extraction
  import opened ExtractionInvariant
  import opened ExtractionSafety
  import opened Wrappers

  /** A job over a listed archive, whose paths are normalised and stripped as path.go does. */
  lemma ArchiveJobIsValid(job: Job)
    requires forall i | 0 <= i < |job.entries| :: job.entries[i].index == i
    requires ValidPrefix(job.rootPrefix) && job.checkpointEvery > 0
    requires forall raw, prefix :: job.outputPath(raw, prefix) == OutputPath(raw, prefix)
    ensures ValidJob(job)
  {
    forall i | 0 <= i < |job.entries|
      ensures job.outputPath(job.entries[i].path, job.rootPrefix) != "" && job.outputPath(job.entries[i].path, "") != ""
    {
      OutputPathNotEmpty(job.entries[i].path, job.rootPrefix);
      OutputPathNotEmpty(job.entries[i].path, "");
    }
  }

  /** Resuming loses nothing: what a restart skips is in the chunks it will keep, or on record as failed. */
  lemma ResumeLosesNothing(job: Job, trace: seq<State>, steps: seq<Step>, k: nat, i: int)
    requires ValidJob(job) && SoundBehavior(job, trace, steps) && k < |trace|
    requires trace[k].store.checkpoint.Some? && IsFile(job, i)
    requires
      var cp := trace[k].store.checkpoint.value;
      (cp.phase == Extracting && i <= cp.lastProcessedIndex) || cp.phase == Completing
    ensures
      var cp := trace[k].store.checkpoint.value;
      Covered(Lines(trace[k].store.chunks, cp.manifestChunksWritten), cp.errors, i)
  {
    BehaviorKeeps(job, trace, steps, k);
  }

  /**
   * Once "reporting" is stored, so is a manifest with one line a path, each the line of a
   * file of the archive, and with every file that is not on record as failed.
   */
  lemma FinalManifestIsComplete(job: Job, trace: seq<State>, steps: seq<Step>, k: nat)
    requires ValidJob(job) && SoundBehavior(job, trace, steps) && k < |trace|
    requires trace[k].store.checkpoint.Some? && trace[k].store.checkpoint.value.phase == Reporting
    ensures trace[k].store.manifest.Some?
    ensures
      var cp, manifest := trace[k].store.checkpoint.value, trace[k].store.manifest.value;
      && (forall m, n | 0 <= m < n < |manifest| :: manifest[m].file.path != manifest[n].file.path)
      && (forall n | 0 <= n < |manifest| ::
            IsFile(job, manifest[n].src) &&
            manifest[n].file.path == job.outputPath(job.entries[manifest[n].src].path, cp.rootPrefix) &&
            manifest[n].file.size == job.entries[manifest[n].src].size)
      && (forall i | IsFile(job, i) ::
            HasError(cp.errors, i) || HasPath(manifest, job.outputPath(job.entries[i].path, cp.rootPrefix)))
  {
    BehaviorKeeps(job, trace, steps, k);
    var cp, manifest := trace[k].store.checkpoint.value, trace[k].store.manifest.value;
    assert forall n | 0 <= n < |manifest| :: LineOk(job, cp.rootPrefix, manifest[n]);
  }

  /** A stored checkpoint's counters are exactly the lines and the bytes of the chunks it counts. */
  lemma CountersAreExact(job: Job, trace: seq<State>, steps: seq<Step>, k: nat)
    requires ValidJob(job) && SoundBehavior(job, trace, steps) && k < |trace|
    requires trace[k].store.checkpoint.Some? && trace[k].store.checkpoint.value.phase != Reporting
    ensures
      var cp := trace[k].store.checkpoint.value;
      var lines := Lines(trace[k].store.chunks, cp.manifestChunksWritten);
      cp.processedCount == |lines| && cp.processedBytes == Bytes(lines)
  {
    BehaviorKeeps(job, trace, steps, k);
  }

  lemma {:induction false} FilesBetweenCounts(job: Job, n: nat)
    requires n <= |job.entries|
    ensures FilesBetween(job, 0, n) == FileCount(job.entries[..n])
  {
    if n > 0 {
      FilesBetweenCounts(job, n - 1);
      assert job.entries[..n][..n - 1] == job.entries[..n - 1];
    }
  }

  /** A process that started from nothing and reached the end of phase B has every file counted once. */
  lemma UninterruptedTotals(job: Job, trace: seq<State>, steps: seq<Step>, k: nat)
    requires ValidJob(job) && SoundBehavior(job, trace, steps) && k < |trace| && trace[k].proc.Flushed?
    requires
      var loaded := trace[k].proc.loaded;
      loaded.lastProcessedIndex == -1 && loaded.processedCount == 0 && loaded.errors == []
    ensures trace[k].proc.cp.processedCount + |trace[k].proc.cp.errors| == FileCount(job.entries)
  {
    BehaviorKeeps(job, trace, steps, k);
    FilesBetweenCounts(job, |job.entries|);
    assert job.entries[..|job.entries|] == job.entries;
  }

  /** The inputs of a restart are there as long as a restart would need them. */
  lemma InputsAreKept(job: Job, trace: seq<State>, steps: seq<Step>, k: nat)
    requires ValidJob(job) && SoundBehavior(job, trace, steps) && k < |trace|
    requires trace[k].store.checkpoint.Some? && trace[k].store.checkpoint.value.phase != Reporting
    ensures trace[k].store.entryList == Some(job.entries)
    ensures ChunksPresent(trace[k].store.chunks, trace[k].store.checkpoint.value.manifestChunksWritten)
  {
    BehaviorKeeps(job, trace, steps, k);
  }

  function Rank(stored: Option<JobCheckpoint>): nat {
    match stored
    case None => 0
    case Some(cp) =>
      match cp.phase
      case EntriesListing => 0
      case EntriesListed => 1
      case Extracting => 1
      case Completing => 2
      case Reporting => 3
  }

  lemma RankStep(job: Job, s: State, step: Step)
    requires Inv(job, s) && Enabled(job, s, step)
    ensures
      || Rank(s.store.checkpoint) <= Rank(Apply(job, s, step).store.checkpoint)
      || (step == DeleteCheckpoint(true) && Apply(job, s, step).store.checkpoint.None?)
  {
    hide Accounts, Marks, CheckpointOk, ManifestOk, OnSuccess, OnError, OnDirectory, Dedup, Lines;
  }

  /** The stored phase never goes back: no late save of phase B lands on a finished one. */
  lemma PhaseNeverGoesBack(job: Job, trace: seq<State>, steps: seq<Step>, k: nat)
    requires ValidJob(job) && SoundBehavior(job, trace, steps) && k < |steps|
    ensures
      || Rank(trace[k].store.checkpoint) <= Rank(trace[k + 1].store.checkpoint)
      || (steps[k] == DeleteCheckpoint(true) && trace[k + 1].store.checkpoint.None?)
  {
    BehaviorKeeps(job, trace, steps, k);
    RankStep(job, trace[k], steps[k]);
  }

  // --- Phase C can be repeated ---

  function ManifestOf(store: Store, cp: JobCheckpoint): seq<Line> {
    Dedup(Lines(store.chunks, cp.manifestChunksWritten), {})
  }

  /** The manifest is decided, and stored once phase "reporting" is. */
  ghost predicate Decided(s: State, cp: JobCheckpoint, manifest: seq<Line>) {
    || (s.store.checkpoint == Some(cp) && ManifestOf(s.store, cp) == manifest)
    || (s.store.checkpoint == Some(cp.(phase := Reporting)) && s.store.manifest == Some(manifest))
  }

  lemma DecidedStep(job: Job, s: State, step: Step, cp: JobCheckpoint, manifest: seq<Line>)
    requires ValidJob(job) && Inv(job, s) && Enabled(job, s, step) && cp.phase == Completing
    requires Decided(s, cp, manifest) && Apply(job, s, step).store.checkpoint.Some?
    ensures Decided(Apply(job, s, step), cp, manifest)
  {
    hide ExtractionOk, CheckpointOk, ManifestOk, OnSuccess, OnError, OnDirectory, Dedup, ValidJob;
    assert !s.proc.Running? && !s.proc.Flushed? && !s.proc.Listing? && !s.proc.Listed?;
    match step
    case Crash =>
    case Start =>
    case WriteManifest =>
    case SaveReporting =>
    case DeleteChunk(_) =>
    case DeleteEntryList(_) =>
    case Report =>
    case DeleteCheckpoint(_) =>
    case _ => assert false;
  }

  lemma DecidedIsStored(job: Job, s: State, cp: JobCheckpoint, manifest: seq<Line>)
    requires Inv(job, s) && Decided(s, cp, manifest) && cp.phase == Completing
    requires s.proc.Finalized? || s.proc.Announcing? || s.proc.Announced?
    ensures s.store.manifest == Some(manifest)
  {
  }

  lemma StepFrom(job: Job, trace: seq<State>, steps: seq<Step>, k: nat)
    requires ValidJob(job) && SoundBehavior(job, trace, steps) && k + 1 < |trace|
    ensures k < |steps| && Inv(job, trace[k]) && Enabled(job, trace[k], steps[k]) && trace[k + 1] == Apply(job, trace[k], steps[k])
  {
    BehaviorKeeps(job, trace, steps, k);
  }

  lemma {:induction false} StaysDecided(job: Job, trace: seq<State>, steps: seq<Step>, k: nat, j: nat, cp: JobCheckpoint, manifest: seq<Line>)
    requires ValidJob(job) && SoundBehavior(job, trace, steps) && k <= j < |trace|
    requires cp.phase == Completing && Decided(trace[k], cp, manifest)
    requires forall n | k <= n <= j :: trace[n].store.checkpoint.Some?
    ensures Decided(trace[j], cp, manifest)
  {
    hide SoundBehavior, ValidJob, Inv, Apply, Enabled, Decided;
    if k < j {
      StaysDecided(job, trace, steps, k, j - 1, cp, manifest);
      StepFrom(job, trace, steps, j - 1);
      assert trace[j].store.checkpoint.Some?;
      DecidedStep(job, trace[j - 1], steps[j - 1], cp, manifest);
    }
  }

  /**
   * From the moment "completing" is stored to the moment the checkpoint is gone, through any
   * crashes and restarts, every write of the manifest is the same manifest, and "completed"
   * is announced only with it stored.
   */
  lemma PhaseCRepeatsItself(job: Job, trace: seq<State>, steps: seq<Step>, k: nat, j: nat)
    requires ValidJob(job) && SoundBehavior(job, trace, steps) && k <= j < |trace|
    requires trace[k].store.checkpoint.Some? && trace[k].store.checkpoint.value.phase == Completing
    requires forall n | k <= n <= j :: trace[n].store.checkpoint.Some?
    ensures
      var cp := trace[k].store.checkpoint.value;
      var manifest := ManifestOf(trace[k].store, cp);
      && Decided(trace[j], cp, manifest)
      && (trace[j].proc.Finalized? || trace[j].proc.Announcing? || trace[j].proc.Announced? ==>
            trace[j].store.manifest == Some(manifest))
  {
    hide SoundBehavior, ValidJob, Inv, ManifestOf;
    var cp := trace[k].store.checkpoint.value;
    var manifest := ManifestOf(trace[k].store, cp);
    StaysDecided(job, trace, steps, k, j, cp, manifest);
    BehaviorKeeps(job, trace, steps, j);
    var s := trace[j];
    if s.proc.Finalized? || s.proc.Announcing? || s.proc.Announced? {
      DecidedIsStored(job, s, cp, manifest);
    }
  }

  // --- The low-water mark ---

  /**
   * The mark is as high as it may safely be: everything from the resume point up to it has
   * settled, and the next index is in flight or not streamed yet. At most
   * `maxConcurrency` uploads and their saves are open.
   */
  lemma LowWaterIsExact(job: Job, trace: seq<State>, steps: seq<Step>, k: nat)
    requires ValidJob(job) && SoundBehavior(job, trace, steps) && k < |trace|
    requires trace[k].proc.Running? && !job.sequential
    ensures
      var x := trace[k].proc.x;
      && (forall i | x.loaded.lastProcessedIndex < i <= x.loWater :: SettledAt(x, i))
      && (x.loWater + 1 in x.inFlight || x.loWater + 1 >= x.next)
      && x.loaded.lastProcessedIndex <= x.cp.lastProcessedIndex
      && |x.inFlight| + |x.saves| <= job.maxConcurrency
  {
    BehaviorKeeps(job, trace, steps, k);
  }

  // --- A chunk that could not be written ---

  /**
   * The snapshot of a due checkpoint keeps its promise exactly when the flush before it did
   * not fail with lines still buffered.
   */
  lemma SnapshotSoundExactly(job: Job, s: State, step: Step)
    requires ValidJob(job) && Inv(job, s) && Enabled(job, s, step) && step.UploadDone?
    requires CheckpointDue(job, s.proc.x.cp.processedCount + 1, step.outcome.timerDue)
    ensures
      var s' := Apply(job, s, step);
      && s'.proc.x.saves == s.proc.x.saves + multiset{s'.proc.x.cp}
      && (CheckpointOk(job, s'.proc.x.cp, s'.store.chunks) <==> SoundSnapshot(job, s, step))
  {
    SnapshotIsLeft(job, s.proc.x, s.store.chunks, job.entries[step.index], step.outcome);
    RunningIsOk(job, s);
    hide CheckpointOk, Inv, Record, TakeSnapshot;
    var s' := Apply(job, s, step);
    if SoundSnapshot(job, s, step) {
      UploadStepKeeps(job, s, step);
      RunningIsOk(job, s');
      SavedIsOk(job, s'.proc.x, s'.store.chunks, s'.proc.x.cp);
    } else {
      UnsoundSnapshot(job, s.proc.x, s.store.chunks, step.index, step.outcome);
    }
  }

  lemma RunningIsOk(job: Job, s: State)
    requires Inv(job, s) && s.proc.Running?
    ensures ExtractionOk(job, s.proc.x, s.store.chunks)
  {
    hide ExtractionOk, StoreOk, StoredBefore;
  }

  lemma SnapshotIsLeft(job: Job, x: Extraction, chunks: map<nat, seq<Line>>, e: ArchiveEntry, o: Outcome)
    requires job.checkpointEvery > 0 && CheckpointDue(job, x.cp.processedCount + 1, o.timerDue)
    ensures Record(job, x, chunks, e, o).0.cp.processedCount == x.cp.processedCount + 1
    ensures var y := OnSuccess(job, x, chunks, e, o).0; y.saves == x.saves + multiset{y.cp}
  {
    hide AddLine, Flush;
  }

  lemma SavedIsOk(job: Job, x: Extraction, chunks: map<nat, seq<Line>>, snapshot: JobCheckpoint)
    requires ExtractionOk(job, x, chunks) && snapshot in x.saves
    ensures CheckpointOk(job, snapshot, chunks)
  {
    hide Accounts, Marks, CheckpointOk;
  }

  lemma UnsoundSnapshot(job: Job, x: Extraction, chunks: map<nat, seq<Line>>, index: int, o: Outcome)
    requires ValidJob(job) && ExtractionOk(job, x, chunks) && index in x.inFlight && 0 <= index < |job.entries|
    requires
      var y := Record(job, x, chunks, job.entries[index], o).0;
      CheckpointDue(job, y.cp.processedCount, o.timerDue) && |y.buffer.chunk| > 0 && !o.flushPutOk
    ensures
      var (z, chunks') := OnSuccess(job, x, chunks, job.entries[index], o);
      !CheckpointOk(job, z.cp, chunks')
  {
    RecordKeeps(job, x, chunks, index, o);
    var (y, chunks') := Record(job, x, chunks, job.entries[index], o);
    assert |AllLines(y, chunks')| > |Lines(chunks', y.buffer.chunkIndex)|;
  }

  // --- The smallest run in which a failed flush loses a file ---

  function OneFileJob(): Job {
    Job([ArchiveEntry(0, "a", 5, false)], "", (raw, prefix) => raw, false, 48, 1)
  }

  /** The checkpoint that outran its chunk. */
  const Outran := JobCheckpoint(Extracting, 0, 1, 5, 1, 0, "", [])

  function LossySteps(): seq<Step> {
    [Start, StoreEntryList, SaveListed, Launch, UploadDone(0, Outcome("md5:x", false, true, false)), SaveLands(Outran),
     Crash, Start, StreamDone, FinalFlush, SaveCompleting, WriteManifest, SaveReporting]
  }

  function LossyStore(checkpoint: Option<JobCheckpoint>, manifest: Option<seq<Line>>): Store {
    Store(Some(OneFileJob().entries), map[], checkpoint, manifest)
  }

  function LossyTrace(): seq<State> {
    var listed := FreshCheckpoint.(phase := EntriesListed, totalEntries := 1);
    var resumed := Begin(Outran);
    var final := Outran.(phase := Completing, manifestChunksWritten := 0);
    [ State(Store(None, map[], None, None), Idle),
      State(Store(None, map[], None, None), Listing(FreshCheckpoint)),
      State(LossyStore(None, None), Listed(FreshCheckpoint)),
      State(LossyStore(Some(listed), None), Running(Begin(listed))),
      State(LossyStore(Some(listed), None), Running(Begin(listed).(next := 1, inFlight := {0}))),
      State(LossyStore(Some(listed), None), Running(AfterLostFlush(listed, multiset{Outran}))),
      State(LossyStore(Some(Outran), None), Running(AfterLostFlush(listed, multiset{}))),
      State(LossyStore(Some(Outran), None), Idle),
      State(LossyStore(Some(Outran), None), Running(resumed)),
      State(LossyStore(Some(Outran), None), Running(resumed.(next := 1))),
      State(LossyStore(Some(Outran), None), Flushed(final, Outran, false)),
      State(LossyStore(Some(final), None), Finalizing(final)),
      State(LossyStore(Some(final), Some([])), Finalized(final)),
      State(LossyStore(Some(final.(phase := Reporting)), Some([])), Deleting(final.(phase := Reporting), 0)) ]
  }

  function AfterLostFlush(listed: JobCheckpoint, saves: multiset<JobCheckpoint>): Extraction {
    Extraction(Outran, listed, Buffer([Line(0, FileEntry("a", 5, "md5:x"))], 0), 0, {}, 1, {}, saves, false)
  }

  lemma LostFlushStep(listed: JobCheckpoint)
    requires listed == FreshCheckpoint.(phase := EntriesListed, totalEntries := 1)
    ensures OnSuccess(OneFileJob(), Begin(listed).(next := 1, inFlight := {0}), map[], ArchiveEntry(0, "a", 5, false), Outcome("md5:x", false, true, false))
      == (AfterLostFlush(listed, multiset{Outran}), map[])
  {
    var job, x, e, o := OneFileJob(), Begin(listed).(next := 1, inFlight := {0}), ArchiveEntry(0, "a", 5, false), Outcome("md5:x", false, true, false);
    assert x.settled + {0} == {0} && x.inFlight - {0} == {} && {0} - {0} == {};
    assert Advance(0, {}) == (0, {});
    assert Advance(-1, {0}) == (0, {});
    assert Settle(x, 0) == x.(loWater := 0, settled := {});
    var y := AfterLostFlush(listed, multiset{});
    assert x.buffer.chunk + [y.buffer.chunk[0]] == y.buffer.chunk;
    assert Record(job, x, map[], e, o) == (y, map[]);
    assert TakeSnapshot(y, map[], false).0 == AfterLostFlush(listed, multiset{Outran});
  }

  ghost predicate StepsTo(s: State, step: Step, s': State) {
    Enabled(OneFileJob(), s, step) && s' == Apply(OneFileJob(), s, step)
  }

  lemma LossyStart()
    ensures forall k | 0 <= k < 4 :: StepsTo(LossyTrace()[k], LossySteps()[k], LossyTrace()[k + 1])
  {
    var trace, steps := LossyTrace(), LossySteps();
    assert OneFileJob().entries[..0] == [];
    assert FileCount(OneFileJob().entries) == 1;
    assert StepsTo(trace[0], Start, trace[1]);
    assert StepsTo(trace[1], StoreEntryList, trace[2]);
    assert StepsTo(trace[2], SaveListed, trace[3]);
    assert {} + {0} == {0};
    assert StepsTo(trace[3], Launch, trace[4]);
  }

  lemma LossyUpload()
    ensures forall k | 4 <= k < 8 :: StepsTo(LossyTrace()[k], LossySteps()[k], LossyTrace()[k + 1])
  {
    var trace, steps := LossyTrace(), LossySteps();
    LostFlushStep(FreshCheckpoint.(phase := EntriesListed, totalEntries := 1));
    assert StepsTo(trace[4], steps[4], trace[5]);
    assert multiset{Outran} - multiset{Outran} == multiset{};
    assert StepsTo(trace[5], SaveLands(Outran), trace[6]);
    assert StepsTo(trace[6], Crash, trace[7]);
    assert StepsTo(trace[7], Start, trace[8]);
  }

  lemma LossySkip()
    ensures StepsTo(LossyTrace()[8], LossySteps()[8], LossyTrace()[9])
  {
    hide OnSuccess, OnError, OnDirectory, Dedup, Lines, Resume, FileCount, Flush;
    assert LossySteps()[8] == StreamDone;
  }

  lemma LossyDrain()
    ensures forall k | 9 <= k < 11 :: StepsTo(LossyTrace()[k], LossySteps()[k], LossyTrace()[k + 1])
  {
    hide OnSuccess, OnError, OnDirectory, Dedup, Lines, Resume, FileCount;
    var trace := LossyTrace();
    assert StepsTo(trace[9], FinalFlush, trace[10]);
    assert StepsTo(trace[10], SaveCompleting, trace[11]);
  }

  lemma LossyFinish()
    ensures forall k | 11 <= k < 13 :: StepsTo(LossyTrace()[k], LossySteps()[k], LossyTrace()[k + 1])
  {
    var trace := LossyTrace();
    assert StepsTo(trace[11], WriteManifest, trace[12]);
    assert StepsTo(trace[12], SaveReporting, trace[13]);
  }

  /**
   * One file, one failed chunk PUT, one crash: the job ends with an empty manifest, no
   * error on record, and a count of one file.
   */
  lemma FailedFlushLosesAFile()
    ensures Behavior(OneFileJob(), LossyTrace(), LossySteps())
    ensures
      var last := LossyTrace()[13];
      && last.store.manifest == Some([])
      && last.store.checkpoint.Some? && last.store.checkpoint.value.phase == Reporting
      && last.store.checkpoint.value.errors == [] && last.store.checkpoint.value.processedCount == 1
  {
    LossyStart();
    LossyUpload();
    LossySkip();
    LossyDrain();
    LossyFinish();
    forall k | 0 <= k < 13
      ensures Enabled(OneFileJob(), LossyTrace()[k], LossySteps()[k]) && LossyTrace()[k + 1] == Apply(OneFileJob(), LossyTrace()[k], LossySteps()[k])
    {
      assert StepsTo(LossyTrace()[k], LossySteps()[k], LossyTrace()[k + 1]);
    }
  }

  // --- A process that is left alone finishes ---

  /** How much a process still has to do, before its final chunk count is known. */
  function Work(job: Job, proc: Process): nat {
    match proc
    case Idle => 0
    case Listing(cp) => 40 + cp.manifestChunksWritten + 5 * |job.entries|
    case Listed(cp) => 39 + cp.manifestChunksWritten + 5 * |job.entries|
    case Running(x) =>
      20 + x.buffer.chunkIndex + (if x.next <= |job.entries| then 5 * (|job.entries| - x.next) else 0) + 4 * |x.inFlight| + |x.saves|
    case Flushed(cp, _, _) => 12 + cp.manifestChunksWritten
    case Finalizing(cp) => 11 + cp.manifestChunksWritten
    case Finalized(cp) => 10 + cp.manifestChunksWritten
    case Deleting(cp, k) => 5 + (if k <= cp.manifestChunksWritten then cp.manifestChunksWritten - k else 0)
    case Announcing(_) => 3
    case Announced(_) => 2
  }

  lemma OnSuccessWork(job: Job, x: Extraction, chunks: map<nat, seq<Line>>, e: ArchiveEntry, o: Outcome)
    requires job.checkpointEvery > 0 && e.index in x.inFlight
    ensures
      var y := OnSuccess(job, x, chunks, e, o).0;
      && y.next == x.next && |y.inFlight| == |x.inFlight| - 1
      && |y.saves| <= |x.saves| + 1 && y.buffer.chunkIndex <= x.buffer.chunkIndex + 1
  {
  }

  /** Every step but a crash, a start and word of an expired asset leaves less work. */
  lemma StepsDoWork(job: Job, s: State, step: Step)
    requires ValidJob(job) && Inv(job, s) && Enabled(job, s, step)
    requires !step.Crash? && !step.CrashInFlush? && !step.Start? && !step.AssetExpired?
    ensures Work(job, Apply(job, s, step).proc) < Work(job, s.proc)
  {
    if step.UploadDone? {
      OnSuccessWork(job, s.proc.x, s.store.chunks, job.entries[step.index], step.outcome);
    } else if s.proc.Running? {
      StreamWork(job, s, step);
    }
  }

  lemma ErrorWork(job: Job, x: Extraction, e: ArchiveEntry, message: string)
    requires e.index in x.inFlight
    ensures
      var y := OnError(job, x, e, message);
      y.next == x.next && y.saves == x.saves && y.buffer == x.buffer && |y.inFlight| == |x.inFlight| - 1
  {
    hide Advance;
    assert |x.inFlight - {e.index}| == |x.inFlight| - 1;
  }

  lemma DirectoryWork(job: Job, x: Extraction, e: ArchiveEntry)
    ensures
      var y := OnDirectory(job, x, e);
      y.next == x.next + 1 && y.saves == x.saves && y.buffer == x.buffer && y.inFlight == x.inFlight
  {
    hide Advance;
  }

  lemma StreamWork(job: Job, s: State, step: Step)
    requires ValidJob(job) && Enabled(job, s, step) && s.proc.Running?
    requires !step.Crash? && !step.CrashInFlush? && !step.UploadDone? && !step.AssetExpired?
    ensures Work(job, Apply(job, s, step).proc) < Work(job, s.proc)
  {
    hide OnError, OnDirectory, OnSuccess, Dedup, Lines, CheckpointDue;
    var x := s.proc.x;
    match step
    case UploadFailed(index, message) => ErrorWork(job, x, job.entries[index], message);
    case StreamDirectory => DirectoryWork(job, x, job.entries[x.next]);
    case Launch =>
      assert |x.inFlight + {job.entries[x.next].index}| <= |x.inFlight| + 1;
    case _ =>
  }

  /** A living process whose asset has not expired always has a step to take that is not a crash. */
  lemma NeverStuck(job: Job, s: State) returns (step: Step)
    requires ValidJob(job) && Inv(job, s) && job.maxConcurrency > 0
    requires !s.proc.Idle? && (s.proc.Running? ==> !s.proc.x.aborted)
    ensures Enabled(job, s, step)
    ensures !step.Crash? && !step.CrashInFlush? && !step.AssetExpired?
    ensures step.UploadDone? ==> SoundSnapshot(job, s, step)
  {
    match s.proc
    case Listing(_) => step := if s.store.entryList.Some? then SkipListing else StoreEntryList;
    case Listed(_) => step := SaveListed;
    case Running(x) =>
      if index :| index in x.inFlight {
        assert IsFile(job, index);
        step := UploadDone(index, Outcome("", false, true, true));
      } else if snapshot :| snapshot in x.saves {
        step := SaveLands(snapshot);
      } else {
        assert forall i :: i !in x.inFlight;
        assert x.inFlight == {} && x.saves == multiset{};
        if x.next == |job.entries| {
          step := FinalFlush;
        } else if job.entries[x.next].isDirectory {
          step := StreamDirectory;
        } else {
          step := if x.next <= x.loaded.lastProcessedIndex then StreamDone else Launch;
        }
      }
    case Flushed(_, _, _) => step := SaveCompleting;
    case Finalizing(_) => step := WriteManifest;
    case Finalized(_) => step := SaveReporting;
    case Deleting(cp, k) => step := if k < cp.manifestChunksWritten then DeleteChunk(true) else DeleteEntryList(true);
    case Announcing(_) => step := Report;
    case Announced(_) => step := DeleteCheckpoint(true);
  }
}
