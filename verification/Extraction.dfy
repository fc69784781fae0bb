/**
 * Crash-resumable archive extraction (container/archive-extractor): what is stored, what a
 * running process holds, and every step a process, the object store or a crash can take.
 *
 * The bookkeeping that worker.go does under its mutex is written here as functions; the
 * classes in ExtractionWorker.dfy do it in place and are proved to compute the same.
 */
module Extraction {
  import opened Wrappers

  // --- What is stored ---

  datatype ArchiveEntry = ArchiveEntry(index: int, path: string, size: nat, isDirectory: bool)

  datatype FileEntry = FileEntry(path: string, size: nat, hash: string)

  /**
   * One manifest line. `src` is the index of the entry the line was made for; it is not
   * written out, and is there so that a statement can say whose line it is.
   */
  datatype Line = Line(src: int, file: FileEntry)

  datatype EntryError = EntryError(index: int, path: string, error: string)

  datatype Phase = EntriesListing | EntriesListed | Extracting | Completing | Reporting

  datatype JobCheckpoint = JobCheckpoint(
    phase: Phase,
    lastProcessedIndex: int,
    processedCount: nat,
    processedBytes: nat,
    totalEntries: nat,
    manifestChunksWritten: nat,
    rootPrefix: string,
    errors: seq<EntryError>)

  const FreshCheckpoint := JobCheckpoint(EntriesListing, -1, 0, 0, 0, 0, "", [])

  datatype Store = Store(
    entryList: Option<seq<ArchiveEntry>>,
    chunks: map<nat, seq<Line>>,
    checkpoint: Option<JobCheckpoint>,
    manifest: Option<seq<Line>>)

  /**
   * One job: its archive as the extractor lists it, the detected root, how a raw path and a
   * root become the stored path (`ArchivePath.OutputPath`), the driver and the tuning.
   */
  datatype Job = Job(
    entries: seq<ArchiveEntry>,
    rootPrefix: string,
    outputPath: (string, string) -> string,
    sequential: bool,
    maxConcurrency: nat,
    checkpointEvery: nat)

  ghost predicate ValidJob(job: Job) {
    && (forall i | 0 <= i < |job.entries| ::
          && job.entries[i].index == i
          && job.outputPath(job.entries[i].path, job.rootPrefix) != ""
          && job.outputPath(job.entries[i].path, "") != "")
    && job.checkpointEvery > 0
  }

  function FileCount(entries: seq<ArchiveEntry>): nat {
    if |entries| == 0 then 0
    else FileCount(entries[..|entries| - 1]) + (if entries[|entries| - 1].isDirectory then 0 else 1)
  }

  // --- The manifest writer (manifest.go) ---

  const MANIFEST_CHUNK_SIZE := 1000

  datatype Buffer = Buffer(chunk: seq<Line>, chunkIndex: nat)

  /** `FlushChunk`: a failed PUT leaves the buffer and the index as they were. */
  function Flush(b: Buffer, chunks: map<nat, seq<Line>>, putOk: bool): (Buffer, map<nat, seq<Line>>) {
    if |b.chunk| == 0 || !putOk then (b, chunks)
    else (Buffer([], b.chunkIndex + 1), chunks[b.chunkIndex := b.chunk])
  }

  /** `Add`: the buffer is flushed once it holds a full chunk. */
  function AddLine(b: Buffer, chunks: map<nat, seq<Line>>, line: Line, putOk: bool): (Buffer, map<nat, seq<Line>>) {
    var grown := b.(chunk := b.chunk + [line]);
    if |grown.chunk| >= MANIFEST_CHUNK_SIZE then Flush(grown, chunks, putOk) else (grown, chunks)
  }

  /** The lines of chunks 0 .. n-1, in order. */
  function Lines(chunks: map<nat, seq<Line>>, n: nat): seq<Line> {
    if n == 0 then []
    else Lines(chunks, n - 1) + (if n - 1 in chunks then chunks[n - 1] else [])
  }

  function Bytes(lines: seq<Line>): nat {
    if |lines| == 0 then 0 else Bytes(lines[..|lines| - 1]) + lines[|lines| - 1].file.size
  }

  /** `Finalize`'s filter: a line whose path has been seen is dropped, an empty path is never counted as seen. */
  function Dedup(lines: seq<Line>, seen: set<string>): seq<Line> {
    if |lines| == 0 then []
    else if lines[0].file.path == "" then [lines[0]] + Dedup(lines[1..], seen)
    else if lines[0].file.path in seen then Dedup(lines[1..], seen)
    else [lines[0]] + Dedup(lines[1..], seen + {lines[0].file.path})
  }

  // --- What a process in phase B holds (worker.go) ---

  /**
   * `inFlight`: uploads started and not settled. `saves`: checkpoint snapshots taken under
   * the lock and not yet stored or given up. `loaded`: the checkpoint this process started from.
   */
  datatype Extraction = Extraction(
    cp: JobCheckpoint,
    loaded: JobCheckpoint,
    buffer: Buffer,
    loWater: int,
    settled: set<int>,
    next: nat,
    inFlight: set<int>,
    saves: multiset<JobCheckpoint>,
    aborted: bool)

  function Begin(cp: JobCheckpoint): Extraction {
    Extraction(cp.(phase := Extracting), cp, Buffer([], cp.manifestChunksWritten),
               cp.lastProcessedIndex, {}, 0, {}, multiset{}, false)
  }

  /** The low-water mark moves over every settled index that follows it. */
  function Advance(loWater: int, settled: set<int>): (int, set<int>)
    decreases |settled|
  {
    if loWater + 1 in settled then Advance(loWater + 1, settled - {loWater + 1})
    else (loWater, settled)
  }

  function Settle(x: Extraction, index: int): Extraction {
    var (loWater, settled) := Advance(x.loWater, x.settled + {index});
    x.(loWater := loWater, settled := settled)
  }

  function OnDirectory(job: Job, x: Extraction, e: ArchiveEntry): Extraction {
    var y := if job.sequential then x else Settle(x, e.index);
    y.(next := x.next + 1)
  }

  /** An upload that failed for good. */
  function OnError(job: Job, x: Extraction, e: ArchiveEntry, message: string): Extraction {
    var y := x.(cp := x.cp.(errors := x.cp.errors + [EntryError(e.index, job.outputPath(e.path, x.cp.rootPrefix), message)]),
                inFlight := x.inFlight - {e.index});
    if job.sequential then y else Settle(y, e.index)
  }

  /** How one successful upload went: its hash, whether the heartbeat timer was due, and its two possible PUTs. */
  datatype Outcome = Outcome(hash: string, timerDue: bool, addPutOk: bool, flushPutOk: bool)

  /** The critical section after an upload, without its checkpoint. */
  function Record(job: Job, x: Extraction, chunks: map<nat, seq<Line>>, e: ArchiveEntry, o: Outcome): (Extraction, map<nat, seq<Line>>) {
    var y := if job.sequential then x else Settle(x, e.index);
    var line := Line(e.index, FileEntry(job.outputPath(e.path, x.cp.rootPrefix), e.size, o.hash));
    var (buffer, chunks') := AddLine(x.buffer, chunks, line, o.addPutOk);
    var cp := x.cp.(processedCount := x.cp.processedCount + 1,
                    processedBytes := x.cp.processedBytes + e.size,
                    lastProcessedIndex := if job.sequential then e.index else y.loWater);
    (y.(cp := cp, buffer := buffer, inFlight := x.inFlight - {e.index}), chunks')
  }

  predicate CheckpointDue(job: Job, processedCount: nat, timerDue: bool)
    requires job.checkpointEvery > 0
  {
    processedCount % job.checkpointEvery == 0 || timerDue
  }

  /** The checkpoint: flush what is buffered, record the chunk count, and leave a snapshot to be saved. */
  function TakeSnapshot(x: Extraction, chunks: map<nat, seq<Line>>, putOk: bool): (Extraction, map<nat, seq<Line>>) {
    var (buffer, chunks') := Flush(x.buffer, chunks, putOk);
    var cp := x.cp.(manifestChunksWritten := buffer.chunkIndex);
    (x.(cp := cp, buffer := buffer, saves := x.saves + multiset{cp}), chunks')
  }

  /** The whole critical section after a successful upload. */
  function OnSuccess(job: Job, x: Extraction, chunks: map<nat, seq<Line>>, e: ArchiveEntry, o: Outcome): (Extraction, map<nat, seq<Line>>)
    requires job.checkpointEvery > 0
  {
    var (y, chunks') := Record(job, x, chunks, e, o);
    if CheckpointDue(job, y.cp.processedCount, o.timerDue) then TakeSnapshot(y, chunks', o.flushPutOk)
    else (y, chunks')
  }

  // --- Processes and their steps ---

  datatype Process =
    | Idle
    | Listing(cp: JobCheckpoint)                                  // phase A, entry list not stored yet
    | Listed(cp: JobCheckpoint)                                   // entry list stored, checkpoint not saved yet
    | Running(x: Extraction)                                      // phase B
    | Flushed(cp: JobCheckpoint, loaded: JobCheckpoint, aborted: bool) // last chunk written, "completing" not saved yet
    | Finalizing(cp: JobCheckpoint)                               // phase C, manifest not written yet
    | Finalized(cp: JobCheckpoint)                                // manifest written, "reporting" not saved yet
    | Deleting(cp: JobCheckpoint, k: nat)                         // "reporting" saved, chunks 0 .. k-1 dealt with
    | Announcing(cp: JobCheckpoint)                               // only the completion callback is left
    | Announced(cp: JobCheckpoint)                                // "completed" acknowledged

  datatype State = State(store: Store, proc: Process)

  datatype Step =
    | Crash
    | CrashInFlush(lines: seq<Line>)        // the PUT of a chunk landed, the process did not live to see it
    | Start
    | ListingFailed
    | StoreEntryList
    | SkipListing
    | SaveListed
    | StreamDirectory
    | StreamDone                            // an entry an earlier process dealt with
    | Launch
    | UploadFailed(index: int, message: string)
    | UploadDone(index: int, outcome: Outcome)
    | SaveLands(snapshot: JobCheckpoint)
    | SaveFails(snapshot: JobCheckpoint)
    | AssetExpired
    | FinalFlush
    | SaveCompleting
    | WriteManifest
    | SaveReporting
    | DeleteChunk(ok: bool)
    | DeleteEntryList(ok: bool)
    | Report
    | DeleteCheckpoint(ok: bool)

  /**
   * Whether the entry the stream is at may be taken: always in parallel, one at a time in sequence.
   * Word of an expired asset does not stop it: the test comes before the wait for a slot, so one more
   * upload may start after it, and an error return at the next entry is a Crash step.
   */
  ghost predicate StreamReady(job: Job, s: State) {
    && s.proc.Running?
    && s.store.entryList == Some(job.entries)
    && s.proc.x.next < |job.entries|
    && (job.sequential ==> s.proc.x.inFlight == {} && s.proc.x.saves == multiset{})
  }

  ghost predicate Enabled(job: Job, s: State, step: Step) {
    match step
    case Crash => true
    case CrashInFlush(_) => s.proc.Running?
    case Start => s.proc.Idle?
    case ListingFailed => s.proc.Listing? && s.store.entryList.None?
    case StoreEntryList => s.proc.Listing? && s.store.entryList.None?
    case SkipListing => s.proc.Listing? && s.store.entryList.Some?
    case SaveListed => s.proc.Listed?
    case StreamDirectory => StreamReady(job, s) && job.entries[s.proc.x.next].isDirectory
    case StreamDone =>
      StreamReady(job, s) && !job.entries[s.proc.x.next].isDirectory &&
      job.entries[s.proc.x.next].index <= s.proc.x.loaded.lastProcessedIndex
    case Launch =>
      StreamReady(job, s) && !job.entries[s.proc.x.next].isDirectory &&
      job.entries[s.proc.x.next].index > s.proc.x.loaded.lastProcessedIndex &&
      |s.proc.x.inFlight| + |s.proc.x.saves| < job.maxConcurrency
    case UploadFailed(index, _) => s.proc.Running? && index in s.proc.x.inFlight && 0 <= index < |job.entries|
    case UploadDone(index, _) =>
      s.proc.Running? && index in s.proc.x.inFlight && 0 <= index < |job.entries| && job.checkpointEvery > 0
    case SaveLands(snapshot) => s.proc.Running? && snapshot in s.proc.x.saves
    case SaveFails(snapshot) => s.proc.Running? && snapshot in s.proc.x.saves
    case AssetExpired => s.proc.Running?
    case FinalFlush =>
      s.proc.Running? && s.proc.x.next == |job.entries| && s.proc.x.inFlight == {} && s.proc.x.saves == multiset{}
    case SaveCompleting => s.proc.Flushed?
    case WriteManifest => s.proc.Finalizing? && forall c: nat | c < s.proc.cp.manifestChunksWritten :: c in s.store.chunks
    case SaveReporting => s.proc.Finalized?
    case DeleteChunk(_) => s.proc.Deleting? && s.proc.k < s.proc.cp.manifestChunksWritten
    case DeleteEntryList(_) => s.proc.Deleting? && s.proc.k == s.proc.cp.manifestChunksWritten
    case Report => s.proc.Announcing?
    case DeleteCheckpoint(_) => s.proc.Announced?
  }

  /** `Run`: where a new process picks up. */
  function Resume(stored: Option<JobCheckpoint>): Process {
    match stored
    case None => Listing(FreshCheckpoint)
    case Some(cp) =>
      match cp.phase
      case EntriesListing => Listing(cp)
      case EntriesListed => Running(Begin(cp))
      case Extracting => Running(Begin(cp))
      case Completing => Finalizing(cp)
      case Reporting => Announcing(cp)
  }

  /** A failing call that makes `Run` return an error leaves no process behind, so it is a Crash step. */
  ghost function Apply(job: Job, s: State, step: Step): State
    requires Enabled(job, s, step)
  {
    match step
    case Crash => s.(proc := Idle)
    case CrashInFlush(lines) =>
      State(s.store.(chunks := s.store.chunks[s.proc.x.buffer.chunkIndex := lines]), Idle)
    case Start => s.(proc := Resume(s.store.checkpoint))
    case ListingFailed => State(s.store.(entryList := None), Idle)
    case StoreEntryList => State(s.store.(entryList := Some(job.entries)), Listed(s.proc.cp))
    case SkipListing => s.(proc := Running(Begin(s.proc.cp.(phase := EntriesListed))))
    case SaveListed =>
      var cp := s.proc.cp.(phase := EntriesListed, totalEntries := FileCount(job.entries), rootPrefix := job.rootPrefix);
      State(s.store.(checkpoint := Some(cp)), Running(Begin(cp)))
    case StreamDirectory => s.(proc := Running(OnDirectory(job, s.proc.x, job.entries[s.proc.x.next])))
    case StreamDone => s.(proc := Running(s.proc.x.(next := s.proc.x.next + 1)))
    case Launch =>
      var x := s.proc.x;
      s.(proc := Running(x.(next := x.next + 1, inFlight := x.inFlight + {job.entries[x.next].index})))
    case UploadFailed(index, message) => s.(proc := Running(OnError(job, s.proc.x, job.entries[index], message)))
    case UploadDone(index, outcome) =>
      var (x, chunks) := OnSuccess(job, s.proc.x, s.store.chunks, job.entries[index], outcome);
      State(s.store.(chunks := chunks), Running(x))
    case SaveLands(snapshot) =>
      State(s.store.(checkpoint := Some(snapshot)), Running(s.proc.x.(saves := s.proc.x.saves - multiset{snapshot})))
    case SaveFails(snapshot) => s.(proc := Running(s.proc.x.(saves := s.proc.x.saves - multiset{snapshot})))
    case AssetExpired =>
      if job.sequential then s.(proc := Idle) else s.(proc := Running(s.proc.x.(aborted := true)))
    case FinalFlush =>
      var x := s.proc.x;
      var (buffer, chunks) := Flush(x.buffer, s.store.chunks, true);
      var cp := x.cp.(phase := Completing, manifestChunksWritten := buffer.chunkIndex);
      State(s.store.(chunks := chunks), Flushed(cp, x.loaded, x.aborted))
    case SaveCompleting =>
      State(s.store.(checkpoint := Some(s.proc.cp)), if s.proc.aborted then Idle else Finalizing(s.proc.cp))
    case WriteManifest =>
      State(s.store.(manifest := Some(Dedup(Lines(s.store.chunks, s.proc.cp.manifestChunksWritten), {}))), Finalized(s.proc.cp))
    case SaveReporting =>
      var cp := s.proc.cp.(phase := Reporting);
      State(s.store.(checkpoint := Some(cp)), Deleting(cp, 0))
    case DeleteChunk(ok) =>
      State(if ok then s.store.(chunks := s.store.chunks - {s.proc.k}) else s.store, Deleting(s.proc.cp, s.proc.k + 1))
    case DeleteEntryList(ok) =>
      State(if ok then s.store.(entryList := None) else s.store, Announcing(s.proc.cp))
    case Report => s.(proc := Announced(s.proc.cp))
    case DeleteCheckpoint(ok) => State(if ok then s.store.(checkpoint := None) else s.store, Idle)
  }

  /** Before the first process of a job; chunks and a manifest left under the prefix do not matter. */
  ghost predicate Initial(s: State) {
    s.store.entryList.None? && s.store.checkpoint.None? && s.proc.Idle?
  }

  /** `trace` is a run of the whole system under `steps`, any number of processes and crashes included. */
  ghost predicate Behavior(job: Job, trace: seq<State>, steps: seq<Step>) {
    && |trace| == |steps| + 1
    && Initial(trace[0])
    && forall k | 0 <= k < |steps| :: Enabled(job, trace[k], steps[k]) && trace[k + 1] == Apply(job, trace[k], steps[k])
  }

  /** The PUT that a checkpoint's snapshot relies on did not fail, where there was one. */
  ghost predicate SoundSnapshot(job: Job, s: State, step: Step)
    requires Enabled(job, s, step)
  {
    step.UploadDone? ==>
      var y := Record(job, s.proc.x, s.store.chunks, job.entries[step.index], step.outcome).0;
      CheckpointDue(job, y.cp.processedCount, step.outcome.timerDue) ==> |y.buffer.chunk| == 0 || step.outcome.flushPutOk
  }

  ghost predicate SoundBehavior(job: Job, trace: seq<State>, steps: seq<Step>) {
    Behavior(job, trace, steps) && forall k | 0 <= k < |steps| :: SoundSnapshot(job, trace[k], steps[k])
  }
}
