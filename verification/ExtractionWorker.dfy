/**
 * The extractor's objects (worker.go, manifest.go, tar.go): fields changed in place by
 * methods, each proved to do what the protocol's functions say.
 */
module ExtractionWorker {
  import opened Extraction
  import opened ExtractionInvariant
  import opened Wrappers

  /** The objects under a run's `_archive/` prefix. */
  class ObjectStorage {
    var entryList: Option<seq<ArchiveEntry>>
    var chunks: map<nat, seq<Line>>
    var checkpoint: Option<JobCheckpoint>
    var manifest: Option<seq<Line>>

    constructor ()
      ensures View() == Store(None, map[], None, None)
    {
      entryList, chunks, checkpoint, manifest := None, map[], None, None;
    }

    function View(): Store
      reads this
    {
      Store(entryList, chunks, checkpoint, manifest)
    }
  }

  /** The paths `Finalize` has on its list after `lines`. */
  ghost function SeenPaths(lines: seq<Line>): set<string> {
    set k | 0 <= k < |lines| && lines[k].file.path != "" :: lines[k].file.path
  }

  lemma SeenSnoc(lines: seq<Line>, line: Line)
    ensures SeenPaths(lines + [line]) == SeenPaths(lines) + (if line.file.path == "" then {} else {line.file.path})
  {
    var all := lines + [line];
    forall p | p in SeenPaths(lines) ensures p in SeenPaths(all) {
      var k :| 0 <= k < |lines| && lines[k].file.path != "" && lines[k].file.path == p;
      assert all[k] == lines[k];
    }
    assert all[|lines|] == line;
  }

  /** The filter, fed one line more, lets it through exactly when its path is new or empty. */
  lemma {:induction false} DedupSnoc(lines: seq<Line>, line: Line, seen: set<string>)
    ensures Dedup(lines + [line], seen) ==
      Dedup(lines, seen) + (if line.file.path != "" && line.file.path in seen + SeenPaths(lines) then [] else [line])
  {
    if |lines| == 0 {
      assert lines + [line] == [line];
    } else {
      var all := lines + [line];
      assert all[0] == lines[0] && all[1..] == lines[1..] + [line];
      var first := lines[0].file.path;
      var next := if first == "" then seen else seen + {first};
      DedupSnoc(lines[1..], line, next);
      SeenCons(lines);
      assert next + SeenPaths(lines[1..]) == seen + SeenPaths(lines);
      if first != "" && first in seen {
        assert next == seen;
      }
    }
  }

  lemma SeenCons(lines: seq<Line>)
    requires |lines| > 0
    ensures SeenPaths(lines) == SeenPaths(lines[1..]) + (if lines[0].file.path == "" then {} else {lines[0].file.path})
  {
    var rest := lines[1..];
    forall p | p in SeenPaths(rest) ensures p in SeenPaths(lines) {
      var k :| 0 <= k < |rest| && rest[k].file.path != "" && rest[k].file.path == p;
      assert lines[k + 1] == rest[k];
    }
    forall p | p in SeenPaths(lines) && p != lines[0].file.path ensures p in SeenPaths(rest) {
      var k :| 0 <= k < |lines| && lines[k].file.path != "" && lines[k].file.path == p;
      assert rest[k - 1] == lines[k];
    }
  }

  class ManifestWriter {
    const storage: ObjectStorage
    var chunk: seq<Line>

    constructor (storage: ObjectStorage)
      ensures this.storage == storage && chunk == []
    {
      this.storage := storage;
      chunk := [];
    }

    /** `putOk` is what the store answers; a failed PUT changes nothing. */
    method FlushChunk(chunkIndex: nat, putOk: bool) returns (index: nat, ok: bool)
      modifies this, storage`chunks
      ensures (Buffer(chunk, index), storage.chunks) == Flush(Buffer(old(chunk), chunkIndex), old(storage.chunks), putOk)
      ensures ok <==> old(chunk) == [] || putOk
    {
      index := chunkIndex;
      if |chunk| == 0 {
        return index, true;
      }
      if !putOk {
        return index, false;
      }
      storage.chunks := storage.chunks[chunkIndex := chunk];
      index := index + 1;
      chunk := [];
      ok := true;
    }

    method Add(line: Line, chunkIndex: nat, putOk: bool) returns (index: nat, ok: bool)
      modifies this, storage`chunks
      ensures (Buffer(chunk, index), storage.chunks) == AddLine(Buffer(old(chunk), chunkIndex), old(storage.chunks), line, putOk)
      ensures ok <==> |old(chunk)| + 1 < MANIFEST_CHUNK_SIZE || putOk
    {
      chunk := chunk + [line];
      if |chunk| >= MANIFEST_CHUNK_SIZE {
        index, ok := FlushChunk(chunkIndex, putOk);
      } else {
        index, ok := chunkIndex, true;
      }
    }

    /** Streams every chunk into the final manifest; a chunk that is missing fails the whole write. */
    method Finalize(totalChunks: nat) returns (ok: bool)
      modifies storage`manifest
      ensures ok <==> ChunksPresent(storage.chunks, totalChunks)
      ensures ok ==> storage.manifest == Some(Dedup(Lines(storage.chunks, totalChunks), {}))
      ensures !ok ==> storage.manifest == old(storage.manifest)
    {
      var seen: set<string> := {};
      var out: seq<Line> := [];
      var i := 0;
      while i < totalChunks
        invariant 0 <= i <= totalChunks
        invariant ChunksPresent(storage.chunks, i)
        invariant out == Dedup(Lines(storage.chunks, i), {}) && seen == SeenPaths(Lines(storage.chunks, i))
        invariant storage.manifest == old(storage.manifest)
      {
        if i !in storage.chunks {
          return false;
        }
        out, seen := CopyChunk(storage.chunks[i], Lines(storage.chunks, i), out, seen);
        i := i + 1;
      }
      storage.manifest := Some(out);
      ok := true;
    }

    /** One chunk's lines, past the filter; `before` is what the earlier chunks held. */
    static method CopyChunk(body: seq<Line>, ghost before: seq<Line>, out: seq<Line>, seen: set<string>)
      returns (out': seq<Line>, seen': set<string>)
      requires out == Dedup(before, {}) && seen == SeenPaths(before)
      ensures out' == Dedup(before + body, {}) && seen' == SeenPaths(before + body)
    {
      out', seen' := out, seen;
      var k := 0;
      assert before + body[..0] == before;
      while k < |body|
        invariant 0 <= k <= |body|
        invariant out' == Dedup(before + body[..k], {}) && seen' == SeenPaths(before + body[..k])
      {
        var line := body[k];
        ghost var read := before + body[..k];
        DedupSnoc(read, line, {});
        SeenSnoc(read, line);
        assert before + body[..k + 1] == read + [line];
        if line.file.path != "" {
          if line.file.path in seen' {
            k := k + 1;
            continue;
          }
          seen' := seen' + {line.file.path};
        }
        out' := out' + [line];
        k := k + 1;
      }
      assert body[..|body|] == body;
    }

    method DeleteChunks(totalChunks: nat)
      modifies storage`chunks
      ensures storage.chunks == map c | c in old(storage.chunks) && c >= totalChunks :: old(storage.chunks)[c]
    {
      var i := 0;
      while i < totalChunks
        invariant 0 <= i <= totalChunks
        invariant storage.chunks == map c | c in old(storage.chunks) && c >= i :: old(storage.chunks)[c]
      {
        storage.chunks := storage.chunks - {i};
        i := i + 1;
      }
    }
  }

  /**
   * What phase B keeps under its mutex. The goroutines' own state (what is in flight, which
   * saves are open) is kept beside it so that the object shows the whole extraction.
   */
  class PhaseB {
    const manifest: ManifestWriter
    const job: Job
    const loaded: JobCheckpoint
    var cp: JobCheckpoint
    var chunkIndex: nat
    var loWater: int
    var settled: set<int>
    var next: nat
    var inFlight: set<int>
    var saves: multiset<JobCheckpoint>

    function View(): Extraction
      reads this, manifest
    {
      Extraction(cp, loaded, Buffer(manifest.chunk, chunkIndex), loWater, settled, next, inFlight, saves, false)
    }

    constructor (job: Job, manifest: ManifestWriter, loaded: JobCheckpoint)
      requires manifest.chunk == []
      ensures this.job == job && this.manifest == manifest && this.loaded == loaded
      ensures View() == Begin(loaded)
    {
      this.job, this.manifest, this.loaded := job, manifest, loaded;
      cp := loaded.(phase := Phase.Extracting);
      chunkIndex := loaded.manifestChunksWritten;
      loWater := loaded.lastProcessedIndex;
      settled, next, inFlight, saves := {}, 0, {}, multiset{};
    }

    /** Mark one index and carry the low-water mark over everything that follows it. */
    method SettleIndex(index: int)
      modifies this`loWater, this`settled
      ensures View() == Settle(old(View()), index)
    {
      settled := settled + {index};
      ghost var goal := Advance(loWater, settled);
      while true
        invariant Advance(loWater, settled) == goal
        decreases |settled|
      {
        if loWater + 1 !in settled {
          break;
        }
        settled := settled - {loWater + 1};
        loWater := loWater + 1;
      }
    }

    method Directory(e: ArchiveEntry)
      modifies this`loWater, this`settled, this`next
      ensures View() == OnDirectory(job, old(View()), e)
    {
      if !job.sequential {
        SettleIndex(e.index);
      }
      next := next + 1;
    }

    method Errored(e: ArchiveEntry, message: string)
      modifies this`cp, this`loWater, this`settled, this`inFlight
      ensures View() == OnError(job, old(View()), e, message)
    {
      cp := cp.(errors := cp.errors + [EntryError(e.index, job.outputPath(e.path, cp.rootPrefix), message)]);
      inFlight := inFlight - {e.index};
      if !job.sequential {
        SettleIndex(e.index);
      }
    }

    method RecordUpload(e: ArchiveEntry, o: Outcome)
      modifies this`cp, this`chunkIndex, this`loWater, this`settled, this`inFlight, manifest, manifest.storage`chunks
      ensures (View(), manifest.storage.chunks) == Record(job, old(View()), old(manifest.storage.chunks), e, o)
    {
      var line := Line(e.index, FileEntry(job.outputPath(e.path, cp.rootPrefix), e.size, o.hash));
      cp := cp.(processedCount := cp.processedCount + 1, processedBytes := cp.processedBytes + e.size);
      if job.sequential {
        cp := cp.(lastProcessedIndex := e.index);
      } else {
        SettleIndex(e.index);
        cp := cp.(lastProcessedIndex := loWater);
      }
      inFlight := inFlight - {e.index};
      var ok;
      chunkIndex, ok := manifest.Add(line, chunkIndex, o.addPutOk);
    }

    method Checkpoint(putOk: bool) returns (snapshot: JobCheckpoint)
      modifies this`cp, this`chunkIndex, this`saves, manifest, manifest.storage`chunks
      ensures (View(), manifest.storage.chunks) == TakeSnapshot(old(View()), old(manifest.storage.chunks), putOk)
      ensures snapshot == cp
    {
      var ok;
      chunkIndex, ok := manifest.FlushChunk(chunkIndex, putOk);
      cp := cp.(manifestChunksWritten := chunkIndex);
      saves := saves + multiset{cp};
      snapshot := cp;
    }

    /** The critical section after an upload; the snapshot it returns is saved outside the lock. */
    method Succeeded(e: ArchiveEntry, o: Outcome) returns (snapshot: Option<JobCheckpoint>)
      requires job.checkpointEvery > 0
      modifies this`cp, this`chunkIndex, this`loWater, this`settled, this`inFlight, this`saves, manifest, manifest.storage`chunks
      ensures (View(), manifest.storage.chunks) == OnSuccess(job, old(View()), old(manifest.storage.chunks), e, o)
      ensures snapshot == if CheckpointDue(job, old(cp.processedCount) + 1, o.timerDue) then Some(cp) else None
    {
      RecordUpload(e, o);
      snapshot := None;
      if cp.processedCount % job.checkpointEvery == 0 || o.timerDue {
        var taken := Checkpoint(o.flushPutOk);
        snapshot := Some(taken);
      }
    }

    // --- The sequential driver (phaseBSequential) ---

    /** The whole system's state, this process in phase B. */
    function Now(): State
      reads this, manifest, manifest.storage
    {
      State(manifest.storage.View(), Running(View()))
    }

    ghost predicate BetweenEntries()
      reads this, manifest, manifest.storage
    {
      && ValidJob(job) && job.sequential && job.maxConcurrency > 0
      && manifest.storage.entryList == Some(job.entries)
      && inFlight == {} && saves == multiset{} && next <= |job.entries|
    }

    /** Save a snapshot before anything else happens; a failed save is only logged. */
    method SaveNow(snapshot: JobCheckpoint, saveOk: bool)
      requires saves == multiset{snapshot}
      modifies this`saves, manifest.storage`checkpoint
      ensures
        var step := if saveOk then SaveLands(snapshot) else SaveFails(snapshot);
        old(Enabled(job, Now(), step)) && Now() == old(Apply(job, Now(), step))
      ensures saves == multiset{}
    {
      if saveOk {
        manifest.storage.checkpoint := Some(snapshot);
      }
      saves := multiset{};
      assert multiset{snapshot} - multiset{snapshot} == multiset{};
    }

    /** One file, uploaded, recorded and, when due, checkpointed; false when the asset has expired. */
    method OneFile(e: ArchiveEntry, upload: Upload, ghost trace: seq<State>, ghost steps: seq<Step>)
      returns (alive: bool, ghost trace': seq<State>, ghost steps': seq<Step>)
      requires BetweenEntries() && next < |job.entries| && e == job.entries[next]
      requires !e.isDirectory && e.index > loaded.lastProcessedIndex
      requires Path(job, trace, steps) && trace[|steps|] == Now()
      modifies this`cp, this`chunkIndex, this`loWater, this`settled, this`inFlight, this`saves, this`next
      modifies manifest, manifest.storage`chunks, manifest.storage`checkpoint
      ensures BetweenEntries() && next == old(next) + 1
      ensures Path(job, trace', steps') && trace'[0] == trace[0] && trace'[|steps'|] == Now()
    {
      trace', steps' := PathStep(job, trace, steps, Launch);
      next, inFlight := next + 1, {e.index};
      assert {} + {e.index} == {e.index} && {e.index} - {e.index} == {};
      assert trace'[|steps'|] == Now();
      match upload
      case UploadError(message) =>
        trace', steps' := PathStep(job, trace', steps', UploadFailed(e.index, message));
        Errored(e, message);
        alive := true;
      case UploadOk(outcome, saveOk, assetExists) =>
        alive, trace', steps' := RecordAndSave(e, outcome, saveOk, assetExists, trace', steps');
    }

    /** The rest of a successful upload: record it and, when a checkpoint is due, save that. */
    method RecordAndSave(e: ArchiveEntry, outcome: Outcome, saveOk: bool, assetExists: bool, ghost trace: seq<State>, ghost steps: seq<Step>)
      returns (alive: bool, ghost trace': seq<State>, ghost steps': seq<Step>)
      requires ValidJob(job) && job.sequential && inFlight == {e.index} && saves == multiset{}
      requires 0 <= e.index < |job.entries| && e == job.entries[e.index]
      requires Path(job, trace, steps) && trace[|steps|] == Now()
      modifies this`cp, this`chunkIndex, this`loWater, this`settled, this`inFlight, this`saves
      modifies manifest, manifest.storage`chunks, manifest.storage`checkpoint
      ensures inFlight == {} && saves == multiset{}
      ensures Path(job, trace', steps') && trace'[0] == trace[0] && trace'[|steps'|] == Now()
    {
      assert {e.index} - {e.index} == {};
      SuccessLeaves(job, View(), manifest.storage.chunks, e, outcome);
      hide OnSuccess, SoundSnapshot;
      trace', steps' := PathStep(job, trace, steps, UploadDone(e.index, outcome));
      var snapshot := Succeeded(e, outcome);
      alive := true;
      assert trace'[|steps'|] == Now();
      if snapshot.Some? {
        trace', steps' := PathStep(job, trace', steps', if saveOk then SaveLands(cp) else SaveFails(cp));
        SaveNow(cp, saveOk);
        alive := assetExists;
      }
    }

    /**
     * The tar driver: entries in archive order, one upload at a time, errors recorded and
     * passed over. What it does is a path of the protocol, and when it returns without an
     * error the finished checkpoint is stored and only phase C is left.
     */
    method Sequential(uploads: seq<Upload>, finalPutOk: bool, finalSaveOk: bool)
      returns (ok: bool, ghost trace: seq<State>, ghost steps: seq<Step>)
      requires BetweenEntries() && next == 0 && |uploads| == |job.entries|
      modifies this`cp, this`chunkIndex, this`loWater, this`settled, this`inFlight, this`saves, this`next
      modifies manifest, manifest.storage`chunks, manifest.storage`checkpoint
      ensures Path(job, trace, steps) && trace[0] == old(Now())
      ensures trace[|steps|] == State(manifest.storage.View(), if ok then Finalizing(cp) else Idle)
      ensures ok ==> manifest.storage.checkpoint == Some(cp) && cp.phase == Completing
    {
      trace, steps := [Now()], [];
      while next < |job.entries|
        invariant BetweenEntries()
        invariant Path(job, trace, steps) && trace[0] == old(Now()) && trace[|steps|] == Now()
        decreases |job.entries| - next
      {
        var e := job.entries[next];
        if e.isDirectory {
          trace, steps := PathStep(job, trace, steps, StreamDirectory);
          Directory(e);
        } else if e.index <= loaded.lastProcessedIndex {
          trace, steps := PathStep(job, trace, steps, StreamDone);
          next := next + 1;
        } else {
          var alive;
          alive, trace, steps := OneFile(e, uploads[next], trace, steps);
          if !alive {
            trace, steps := PathStep(job, trace, steps, AssetExpired);
            return false, trace, steps;
          }
        }
      }
      ok, trace, steps := Finish(finalPutOk, finalSaveOk, trace, steps);
    }

    /** The last flush and the "completing" save. */
    method Finish(finalPutOk: bool, finalSaveOk: bool, ghost trace0: seq<State>, ghost steps0: seq<Step>)
      returns (ok: bool, ghost trace: seq<State>, ghost steps: seq<Step>)
      requires BetweenEntries() && next == |job.entries|
      requires Path(job, trace0, steps0) && trace0[|steps0|] == Now()
      modifies this`cp, this`chunkIndex, manifest, manifest.storage`chunks, manifest.storage`checkpoint
      ensures Path(job, trace, steps) && trace[0] == trace0[0]
      ensures trace[|steps|] == State(manifest.storage.View(), if ok then Finalizing(cp) else Idle)
      ensures ok ==> manifest.storage.checkpoint == Some(cp) && cp.phase == Completing
    {
      trace, steps := trace0, steps0;
      if |manifest.chunk| > 0 && !finalPutOk {
        trace, steps := PathStep(job, trace, steps, Crash);
        return false, trace, steps;
      }
      trace, steps := PathStep(job, trace, steps, FinalFlush);
      chunkIndex, ok := manifest.FlushChunk(chunkIndex, finalPutOk);
      cp := cp.(phase := Completing, manifestChunksWritten := chunkIndex);
      assert trace[|steps|] == State(manifest.storage.View(), Flushed(cp, loaded, false));
      if !finalSaveOk {
        trace, steps := PathStep(job, trace, steps, Crash);
        return false, trace, steps;
      }
      trace, steps := PathStep(job, trace, steps, SaveCompleting);
      manifest.storage.checkpoint := Some(cp);
      ok := true;
    }
  }

  /** How one entry's upload went, the save after it, and the check that the asset is still there. */
  datatype Upload = UploadError(message: string) | UploadOk(outcome: Outcome, saveOk: bool, assetExists: bool)

  /** A stretch of a run, from any state. */
  ghost predicate Path(job: Job, trace: seq<State>, steps: seq<Step>) {
    && |trace| == |steps| + 1
    && forall k | 0 <= k < |steps| :: Enabled(job, trace[k], steps[k]) && trace[k + 1] == Apply(job, trace[k], steps[k])
  }

  lemma PathGrows(job: Job, trace: seq<State>, steps: seq<Step>, step: Step)
    requires Path(job, trace, steps) && Enabled(job, trace[|steps|], step)
    ensures Path(job, trace + [Apply(job, trace[|steps|], step)], steps + [step])
  {
    var trace', steps' := trace + [Apply(job, trace[|steps|], step)], steps + [step];
    forall k | 0 <= k < |steps'|
      ensures Enabled(job, trace'[k], steps'[k]) && trace'[k + 1] == Apply(job, trace'[k], steps'[k])
    {
      if k < |steps| {
        assert trace'[k] == trace[k] && trace'[k + 1] == trace[k + 1] && steps'[k] == steps[k];
      } else {
        assert trace'[k] == trace[k] && steps'[k] == step;
      }
    }
  }

  /** One more step at the end of a path. */
  ghost method PathStep(job: Job, trace: seq<State>, steps: seq<Step>, step: Step)
    returns (trace': seq<State>, steps': seq<Step>)
    requires Path(job, trace, steps) && Enabled(job, trace[|steps|], step)
    ensures Path(job, trace', steps') && trace'[0] == trace[0]
    ensures |steps'| == |steps| + 1 && trace'[|steps'|] == Apply(job, trace[|steps|], step)
  {
    PathGrows(job, trace, steps, step);
    trace', steps' := trace + [Apply(job, trace[|steps|], step)], steps + [step];
  }

  /** After a success the upload is no longer in flight, and a snapshot is waiting when a checkpoint was due. */
  lemma SuccessLeaves(job: Job, x: Extraction, chunks: map<nat, seq<Line>>, e: ArchiveEntry, o: Outcome)
    requires job.checkpointEvery > 0
    ensures
      var y := OnSuccess(job, x, chunks, e, o).0;
      && y.inFlight == x.inFlight - {e.index} && y.loaded == x.loaded && y.next == x.next && y.aborted == x.aborted
      && y.saves == x.saves + if CheckpointDue(job, x.cp.processedCount + 1, o.timerDue) then multiset{y.cp} else multiset{}
  {
    hide AddLine, Flush, Advance;
  }

  // --- The tar reader's two passes (tar.go) ---

  datatype TarHeader = TarHeader(name: string, size: nat, isDirectory: bool)

  /** The entries a sequential pass hands over: the files, in order. */
  function FilesOf(entries: seq<ArchiveEntry>): seq<ArchiveEntry> {
    if |entries| == 0 then []
    else
      var last := entries[|entries| - 1];
      FilesOf(entries[..|entries| - 1]) + (if last.isDirectory then [] else [last])
  }

  class TarExtractor {
    const headers: seq<TarHeader>

    constructor (headers: seq<TarHeader>)
      ensures this.headers == headers
    {
      this.headers := headers;
    }

    method ListEntries() returns (entries: seq<ArchiveEntry>)
      ensures |entries| == |headers|
      ensures forall i | 0 <= i < |entries| :: entries[i] == ArchiveEntry(i, headers[i].name, headers[i].size, headers[i].isDirectory)
    {
      entries := [];
      var index := 0;
      while index < |headers|
        invariant 0 <= index <= |headers| && |entries| == index
        invariant forall i | 0 <= i < index :: entries[i] == ArchiveEntry(i, headers[i].name, headers[i].size, headers[i].isDirectory)
      {
        var hdr := headers[index];
        entries := entries + [ArchiveEntry(index, hdr.name, hdr.size, hdr.isDirectory)];
        index := index + 1;
      }
    }

    /** The single pass visits exactly the listed files, each under the index the listing gave it. */
    method ExtractAllSequential(listed: seq<ArchiveEntry>) returns (visited: seq<ArchiveEntry>)
      requires |listed| == |headers|
      requires forall i | 0 <= i < |listed| :: listed[i] == ArchiveEntry(i, headers[i].name, headers[i].size, headers[i].isDirectory)
      ensures visited == FilesOf(listed)
    {
      visited := [];
      var index := 0;
      while index < |headers|
        invariant 0 <= index <= |headers|
        invariant visited == FilesOf(listed[..index])
      {
        var hdr := headers[index];
        var entry := ArchiveEntry(index, hdr.name, hdr.size, hdr.isDirectory);
        assert listed[..index + 1][..index] == listed[..index];
        index := index + 1;
        if entry.isDirectory {
          continue;
        }
        visited := visited + [entry];
      }
      assert listed[..|listed|] == listed;
    }
  }
}
