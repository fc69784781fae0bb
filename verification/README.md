# Models of the asset server, with proofs

Dafny models of the parts of this repository where state, failure and arithmetic meet, and proofs of what those
parts promise. `dafny verify dfyconfig.toml` checks everything.

Code that computes is modelled as functions. Code that works by changing things is modelled twice: as functions or a
state machine that say what is to happen, and as classes and methods with the source's own loops and fields, whose
contracts tie them to the first. The theorems are about the first, for every input, every run or every reachable
state.

- **Archive extraction** (`ArchivePath`, `CleanPaths`, `Extraction*`). Up to 48 uploads settle in any order under
  one mutex, a low-water mark says how far a restart may skip, manifest lines are buffered into chunks, checkpoint
  snapshots are taken under the lock and stored outside it, and the process can die at any step and start again. A
  transition system with volatile and stored state; its invariant covers every interleaving. A step whose failure
  makes the worker return an error is a crash step. The tar driver is proved to be a path of the same system.
- **Stored ZIP archives** (`Crc32`, `CrcDivision`, `Zip*`). The checksum table against the shift register it stands
  for, and that against division of polynomials; the writer, byte buffers and running offsets included, against a
  reader written from PKWARE's APPNOTE.TXT.
- **Site rules** (`PatternMatch`, `Redirects`, `MirrorRedirects`, `RedirectsFile`, `RedirectsLength`, `HeadersFile`,
  `HeaderRules`, `HeadersPrinter`, `HeadersLength`, `ControlRules`, `ControlWarnings`, over `Text`, `TextLength`,
  `Characters`, `ControlFile`). Matching a pattern and filling it in, parsing the two control files and printing
  them, and which mention of a header counts. A binding of a match is a property of a plain object, and the model
  has what such objects inherit.
- **Recovery** (`RetryBudget`, `RetryPool`, `RetryCron`), **cleanup under a request budget** (`Cleanup*`,
  `KeyOrder`) and **job queues** (`JobQueues`, `QueueTiming`, `JobQueueClasses`).
- **Site names** (`SiteNames`, `SiteHosts`, `SiteService`, `SiteStates`, `SiteLabels`, `SiteOutcomes`) and **the
  cache in front of them** (`SiteResolver`, `StaleAnswers`): who may hold a name when, and how old an answer can be.
- **Paging** (`Cursor`, `Paging`), **range slicing** (`SliceStream`) and **the in-process object store**
  (`MemoryStorage`).

## What the proofs found

Where the code does less than its documentation or tests promise, the model follows the code; a lemma gives a
failing case and another says exactly when the promise is kept.

- A chunk PUT that fails at a checkpoint is only logged while the checkpoint moves on; with a crash after it, files
  are lost without an error. Everything else about extraction holds in runs where that PUT does not fail
  (`SoundBehavior`), and a snapshot keeps its promise exactly when it did not (`SnapshotSoundExactly`).
- A crash between storing the entry list and saving the checkpoint of phase A loses the detected root and the number
  of files for good: the next process skips the listing (`CrashLosesTheRoot`), and a checkpoint has the root exactly
  when the listing it goes back to was saved (`RootIsKeptExactly`).
- A file rewritten at the same size between the two readings of the ZIP writer goes in under a wrong checksum, and
  only such a file does (`ChecksumsHoldExactly`); a name beyond 65535 bytes passes the guard and then fails as a
  RangeError.
- A placeholder called `__proto__` is never bound, one called `splat` cannot be referred to, and a reference to a
  name every object inherits reads as that property's text.
- An entry whose path starts with two slashes keeps one (`CleanPaths.RootedExactly`).
- A `_headers` rule may hold 21 headers when one is `constructor`; a `__proto__` header is dropped in silence.
- A container that resumes behind its last report is re-enqueued beyond 5 * (1 + files + bytes), at most five times
  for each file or byte its reports take back. Everybody writes back the row they read: a report that the cron
  overwrites costs nothing, but a report that overwrites the cron's record of a re-enqueue costs that re-enqueue
  (`ReenqueuesAreBounded`; `RelapsesNeverEnd` and `OverwritesNeverEnd` are the failing cases).
- The request budget is overrun by up to four requests, exactly when some asset's or prefix's objects are covered
  and its rows are not (`TickOverrunsExactly`). Without batch deletion a first page of objects dearer than the
  budget stops an asset, and all that is listed after it, from ever being cleaned (`TickChangesExactly` says when a
  tick changes nothing).
- A flush of buffered retries empties the buffer before the write, so a failed write loses them, and a process that
  dies loses what it holds; nothing else loses a message (`LostExactly`).
- A claim that removes a served-out name and then meets the quota leaves the cached answer behind; a cache write
  overtaken by a release restores the answer from before it, so the sixty seconds count from the write and are kept
  exactly when writes follow their reads at once (`RecentExactly`). Host by host, what is cached stays the table's
  own answer exactly while every change of it is dropped with no lookup of it under way (`SettledExactly`).

## Model

| member | source | states |
|---|---|---|
| `ExtractionTheorems.ResumeLosesNothing` | container/archive-extractor/worker.go:213-346 | In every state of every run, whatever interleaving of uploads, errors, flushes, late checkpoint saves, crashes and restarts led there: each file whose index a restart would skip has its line in a chunk the restart keeps, or is in the stored checkpoint's errors. Both drivers. |
| `ExtractionTheorems.FinalManifestIsComplete` | container/archive-extractor/worker.go:469-510 | Whenever phase "reporting" is stored there is a manifest; no path is on it twice, every line is that of a file of the archive under its normalised path stripped of the checkpoint's root (which is the detected one: next rows) with its size, and every file is on it or on record as failed. |
| `ExtractionRoot.RootIsTheListings` | container/archive-extractor/worker.go:131-191 | In every run, sound or not, from the trace and its steps alone: every stored checkpoint, and every one a process past phase A goes by, has the detected root and the number of non-directory entries if the last step to pass phase A was the one that saves the listing, and the empty root and zero if it was the one that found the entry list there. |
| `ExtractionRoot.ListingComesFirst` | container/archive-extractor/worker.go:104-119 | No checkpoint is stored or gone by before one of those two steps. |
| `ExtractionRoot.RootIsKeptExactly` | container/archive-extractor/worker.go:131-137 | With a root to strip, a checkpoint has it if and only if the listing it goes back to was saved, and the empty one if and only if it was skipped. |
| `ExtractionRoot.FinalManifestIsRooted` | container/archive-extractor/worker.go:184-284 | The promise of the final manifest in terms of the job: its paths are those of the archive's files without the detected root, each once, and each file is there or on record as failed; without stripping exactly where the listing was skipped. |
| `ExtractionRoot.CrashLosesTheRoot` | container/archive-extractor/worker.go:131-137 | The run, for every job, in which a crash between storing the entry list and the checkpoint makes the next process go on with no root and a total of zero. |
| `ExtractionHistory.FinalHashesAreUploaded` | container/archive-extractor/worker.go:267-289 | Each line of the final manifest has the hash that an upload of its own entry gave in this run, through any restarts. |
| `ExtractionHistory.ErrorsAreFailures` | container/archive-extractor/worker.go:267-278 | In every run each error in a checkpoint that is stored or gone by is the failure of that very entry's upload, with its message. |
| `ExtractionTheorems.CountersAreExact` | container/archive-extractor/worker.go:291-326 | A stored checkpoint counts exactly the lines of chunks 0 to ManifestChunksWritten-1 and exactly their bytes, across stale saves and restarts. |
| `ExtractionTheorems.UninterruptedTotals` | container/archive-extractor/worker.go:348-370 | A process that started from nothing and reached the end of phase B has processed files and errors adding up to the number of files in the archive. |
| `ExtractionTheorems.InputsAreKept` | container/archive-extractor/worker.go:469-488 | Until "reporting" is stored, the entry list and every chunk a stored checkpoint counts are there. |
| `ExtractionTheorems.PhaseNeverGoesBack` | container/archive-extractor/worker.go:354-366 | The stored phase never goes back: no save of phase B, however late, lands on a finished checkpoint; only deleting the checkpoint ends the sequence. |
| `ExtractionTheorems.PhaseCRepeatsItself` | container/archive-extractor/worker.go:469-510 | From storing "completing" until the checkpoint is gone, through any crashes, every write of the manifest writes the same manifest, and completion is announced only with it stored. |
| `ExtractionTheorems.LowWaterIsExact` | container/archive-extractor/worker.go:218-236 | The low-water mark is the largest settled prefix: everything from the resume point up to it has settled, its successor is in flight or not streamed yet; uploads and saves together stay within the concurrency limit. |
| `ExtractionTheorems.SnapshotSoundExactly` | container/archive-extractor/worker.go:308-326 | The snapshot of a due checkpoint keeps its promise if and only if the flush before it did not fail with lines buffered. |
| `ExtractionHistory.SnapshotTakenExactly` | container/archive-extractor/worker.go:308-326 | A successful upload counts one file more and leaves a snapshot to be saved exactly when that count is a multiple of CheckpointEvery or the timer is due. |
| `ExtractionHistory.MarkIsRecorded` | container/archive-extractor/worker.go:291-298 | What an upload records as done: in parallel everything up to the mark has settled and its successor has not, in sequence it is that entry. |
| `ExtractionHistory.SavesAreStored` | container/archive-extractor/worker.go:329-332 | A save that lands is what is stored, and in phase B nothing else changes it. |
| `ExtractionHistory.ChunkIsFullExactly` | container/archive-extractor/manifest.go:40-79 | Adding a line writes a chunk exactly when a thousand are buffered and the PUT works; it then holds all of them. |
| `ExtractionHistory.ExpiredNeverFinishes` | container/archive-extractor/worker.go:339-366 | In every run a process that has had word of its asset's expiry never writes the manifest, stores "reporting" or reports. |
| `ExtractionHistory.RestartsWhereItStopped` | container/archive-extractor/worker.go:88-125 | What a restart does first, for each phase stored: list, go on from the stored checkpoint, write the manifest, or only report. |
| `ExtractionHistory.ReportedBeforeDeleted` | container/archive-extractor/worker.go:498-506 | In every run a checkpoint is deleted only by the process whose report was acknowledged just before. |
| `ExtractionHistory.ReportComesLast` | container/archive-extractor/worker.go:473-498 | A report follows the deletion of the entry list, or a restart that found "reporting" stored. |
| `ExtractionHistory.NothingIsLeft` | container/archive-extractor/worker.go:485-487 | When the deletions after "reporting" work, every counted chunk is gone and no other, and then the entry list. |
| `ExtractionHistory.CheckpointGoesLast` | container/archive-extractor/worker.go:505-506 | Deleting the checkpoint takes nothing else. |
| `ExtractionTheorems.FailedFlushLosesAFile` | container/archive-extractor/worker.go:318-321 | The failing case, as a run of the system: one file, one chunk PUT that is only logged, one crash; the job ends with an empty manifest, no error and a count of one. |
| `ExtractionTheorems.StepsDoWork` | container/archive-extractor/worker.go:88-129 | Every step of a process other than a crash, a start and word of an expired asset leaves less to do. |
| `ExtractionTheorems.NeverStuck` | container/archive-extractor/worker.go:88-129 | A living process whose asset has not expired always has such a step to take; with the measure above, a process left alone finishes. |
| `ExtractionTheorems.ArchiveJobIsValid` | container/archive-extractor/worker.go:182-187 | Jobs over a listed archive with detected root and real path functions meet what the theorems ask of a job. |
| `ExtractionSafety.StepKeeps` | container/archive-extractor/worker.go:193-370 | The inductive invariant: every step of the transition system keeps it. |
| `ExtractionSafety.BehaviorKeeps` | container/archive-extractor/worker.go:88-129 | It holds in every state of every run. |
| `ExtractionSafety.DedupKeepsFirst` | container/archive-extractor/manifest.go:98-116 | The manifest filter keeps the first line of every path and of each path only that; nothing is invented. |
| `ExtractionSafety.ManifestFromChunks` | container/archive-extractor/manifest.go:81-136 | A finished checkpoint's chunks make a manifest that keeps its promise. |
| `ExtractionInvariant.AdvanceTakes` | container/archive-extractor/worker.go:225-236 | Where the settle loop stops and which indexes it takes out of the settled set on the way. |
| `ExtractionInvariant.SnapshotIsSound` | container/archive-extractor/worker.go:312-326 | A snapshot whose flush left nothing buffered meets the checkpoint's promise. |
| `ExtractionWorker.ManifestWriter.Add` | container/archive-extractor/manifest.go:40-46 | The object's buffer and chunks after adding a line are those of the protocol, failed PUT included. |
| `ExtractionWorker.ManifestWriter.FlushChunk` | container/archive-extractor/manifest.go:49-64 | A flush moves the buffer into the next chunk and bumps the index, or changes nothing when the PUT fails. |
| `ExtractionWorker.ManifestWriter.Finalize` | container/archive-extractor/manifest.go:81-136 | The loop over chunks with its seen-set writes exactly the deduplicated lines of the counted chunks, or fails when one is missing. |
| `ExtractionWorker.ManifestWriter.DeleteChunks` | container/archive-extractor/manifest.go:142-147 | Exactly the counted chunks go. |
| `ExtractionWorker.PhaseB.SettleIndex` | container/archive-extractor/worker.go:227-236 | The settle loop reaches the protocol's low-water mark and settled set. |
| `ExtractionWorker.PhaseB.Errored` | container/archive-extractor/worker.go:268-279 | A failed upload: its error recorded, its index settled, in place. |
| `ExtractionWorker.PhaseB.Succeeded` | container/archive-extractor/worker.go:291-327 | The critical section in place is the protocol's step, and it returns a snapshot exactly when a checkpoint is due. |
| `ExtractionWorker.PhaseB.Sequential` | container/archive-extractor/worker.go:376-467 | The tar driver's run is a path of the same transition system; when it returns without error the finished checkpoint is stored and only phase C is left. |
| `ExtractionWorker.TarExtractor.ListEntries` | container/archive-extractor/tar.go:26-62 | Every header is listed, in order, under its position. |
| `ExtractionWorker.TarExtractor.ExtractAllSequential` | container/archive-extractor/tar.go:103-143 | The single pass visits exactly the listed files, each under the index the listing gave it. |
| `ArchivePath.RootPrefixDetector.Observe` | container/archive-extractor/path.go:30-48 | One path at a time, the object holds the root all paths so far share, or knows they share none. |
| `ArchivePath.RootPrefixDetector.Result` | container/archive-extractor/path.go:52-69 | A prefix is returned exactly when every path shares one root and that root names the archive. |
| `ArchivePath.StripUnderRoot` | container/archive-extractor/path.go:83-88 | A path under the detected root loses exactly the root; the root itself stays. |
| `ArchivePath.OutputPathNotEmpty` | container/archive-extractor/path.go:10-17 | Normalising and stripping never leaves an empty path, so no line escapes the manifest's deduplication. |
| `ArchivePath.CleanShape` | container/archive-extractor/path.go:10-17 | A cleaned path is never empty and ends in a slash only when it is the root. |
| `CleanPaths.SlashesExactly` | container/archive-extractor/path.go:10-12 | A backslash becomes a slash and every other character stays where it is. |
| `CleanPaths.GoesAway` | container/archive-extractor/path.go:13-17 | Cleaning does not see an empty segment, a `.`, a name followed by `..`, or a `..` at the root, wherever they stand. |
| `CleanPaths.CleaningCleans` | container/archive-extractor/path.go:13-17 | Only names are left, after the `..` at the front of a relative path that had nothing to take back. |
| `CleanPaths.CleanedStays` | container/archive-extractor/path.go:13-17 | Segments of that form stay as they are; with the two rows above this fixes what cleaning gives. |
| `CleanPaths.CleanTwice` | container/archive-extractor/path.go:13-17 | Cleaning a cleaned path changes nothing. |
| `CleanPaths.RootedExactly` | container/archive-extractor/path.go:12-15 | A normalised path starts with a slash if and only if the raw one starts with two slashes or backslashes. |
| `CleanPaths.RootIsFirst` | container/archive-extractor/path.go:30-48 | The root a path is counted under is its first segment, the whole of a path that has no other. |
| `CleanPaths.BaseNameOfArchive` | container/archive-extractor/path.go:57-63 | A file name loses its archive extension, in any letter case, whichever of the five it is. |
| `CleanPaths.OtherNamesStay` | container/archive-extractor/path.go:57-63 | A name that ends in none of them is kept. |
| `CleanPaths.NamesExactly` | container/archive-extractor/path.go:52-69 | A root names the archive if and only if it is the file's whole name or that without its archive extension, in any letter case. |
| `Crc32.MakeTable` | cli/zip.ts:66-74 | The table-filling loops leave in each entry what eight folds of its index make. |
| `Crc32.TableStep` | cli/zip.ts:80-82 | One table step is eight ticks of the reflected 0xEDB88320 shift register (section 8 of RFC 1952), which `CrcDivision.ChecksumDivides` ties to the polynomial itself. |
| `Crc32.Crc32` | cli/zip.ts:77-84 | The table-driven loop computes the shift register's checksum of the bytes from any seed. |
| `Crc32.ChecksumContinues` | cli/zip.ts:76-84 | A checksum continued over more bytes is the checksum of all of them. |
| `Crc32.CrcOfFile` | cli/zip.ts:177-190 | However a file arrives in reads, the result is the checksum of the whole. |
| `CrcDivision.ChecksumDivides` | cli/zip.ts:66-84 | The checksum of any bytes is the complement of the remainder of a long division over GF(2) by the polynomial with the exponents 32, 26, 23, 22, 16, 12, 11, 10, 8, 7, 5, 4, 2, 1 and 0, of the bytes' bits, low bit first, with the first 32 complemented and 32 zeros appended. |
| `ZipFormat.UnpackOfPack` | cli/zip.ts:192-240 | A packed record reads back field by field whatever follows it, when every value fits its width. |
| `ZipRoundTrip.RoundTrip` | cli/zip.ts:192-311 | For every list of entries the writer accepts, a reader going from the end record through the directory to the local headers (APPNOTE.TXT 4.3.16, 4.3.12, 4.3.7), with the signatures, flags and method those sections ask for, gets exactly the UTF-8 names, checksums and data back in order, each stamped 1980-01-01 and needing version 2.0, and the archive is as long as guardZip32 estimated. |
| `ZipRoundTrip.EstimateIsExact` | cli/zip.ts:162-168 | Headers, data and end record add up to the up-front estimate. |
| `ZipRoundTrip.CentralSplits` | cli/zip.ts:293-299 | The directory consists of one header per entry, each pointing at where its file's local header starts. |
| `ZipRoundTrip.ChecksumsHoldExactly` | cli/zip.ts:250-257 | Every checksum a reader finds is that of the data beside it if and only if no file had another checksum at its second reading than at its first. |
| `ZipRoundTrip.SameSizeChangeIsMissed` | cli/zip.ts:284-288 | A file rewritten at the same size between the readings is packed without complaint under a wrong checksum. |
| `ZipWriter.WriteUInt16LE` | cli/zip.ts:192-204 | Two bytes written at an offset of the header buffer continue the record. |
| `ZipWriter.WriteUInt32LE` | cli/zip.ts:192-204 | Four bytes written at an offset of the header buffer continue the record. |
| `ZipWriter.MakeLocalHeader` | cli/zip.ts:192-206 | The buffer filled at its offsets is the local header; a name beyond 65535 bytes is a RangeError. |
| `ZipWriter.MakeCentralHeader` | cli/zip.ts:208-228 | The buffer filled at its offsets is the directory header. |
| `ZipWriter.MakeEndRecord` | cli/zip.ts:230-241 | The buffer filled at its offsets is the end record. |
| `ZipWriter.StartsWithLetters` | cli/zip.ts:192-206 | Every archive with a file in it starts with the letters PK and the bytes 3 and 4, so numbers are written low byte first. |
| `ZipWriter.GuardZip32` | cli/zip.ts:155-174 | Refusal exactly when the entry count or the estimate exceeds the 32-bit limits, with the count tested first. |
| `ZipWriter.WriteStoredZip` | cli/zip.ts:258-311 | Success if and only if the guard passes and every file keeps its size and has a name that fits; then the output is the archive and the returned length its length. Otherwise the reason and, past the guard, the first entry at fault; nothing is written before the guard. |
| `PatternMatch.MatchPattern` | core/site/rules.ts:140-164 | The segment loop computes the declarative match: segments before the wildcard fit, without one the lengths agree, and what is bound and swallowed. |
| `ControlRules.MatchesExactly` | core/site/rules.ts:140-164 | In characters: a pattern without `*` matches the paths with as many segments that agree with it, one with `*` those that agree up to it, a name after a colon standing for any segment but an empty one; the `*` takes the rest. |
| `ControlRules.SplatExactly` | core/site/rules.ts:166-171 | A pattern is refused for its `*` if and only if one stands anywhere but alone after the last slash. |
| `PatternMatch.MatchOfInstance` | core/site/rules.ts:140-164 | Filling a pattern with non-empty slash-free values and any splat and matching it again returns those values; all of them if and only if no placeholder is named __proto__. |
| `PatternMatch.InstanceOfMatch` | core/site/rules.ts:140-164 | Any match rebuilds the path, or the path and a slash when it stops just before the wildcard. |
| `PatternMatch.RebuildsExactly` | core/site/rules.ts:140-164 | All matches of a pattern rebuild their paths if and only if its placeholders have distinct names other than __proto__. |
| `Redirects.MatchRedirect` | core/site/rules.ts:407-418 | The answer is the first rule's that matches with a target inside the site; none only if no rule does; the target is always inside the site. |
| `Redirects.SubstituteOfJoin` | core/site/rules.ts:420-426 | Substitution works segment by segment: no reference reaches across a slash. |
| `ControlRules.ReferenceBecomes` | core/site/rules.ts:420-426 | A colon and the longest identifier after it become the splat, the bound value, the text of a property every object has, or stay. |
| `ControlRules.PlainTextStays` | core/site/rules.ts:420-426 | Text without a colon stays as it is. |
| `ControlRules.LoneColonStays` | core/site/rules.ts:420-426 | So does a colon that no identifier follows; with the two rows above this fixes what substitution gives. |
| `ControlRules.InsideExactly` | core/site/rules.ts:392-397 | A target is allowed if and only if it starts with one slash, has no backslash, and nowhere `://`. |
| `ControlRules.RedirectsStay` | core/site/rules.ts:407-418 | Whatever a path puts into a target, a redirect is a path of the same origin for a client that reads the reference by RFC 3986, and for one that takes backslashes for slashes. |
| `MirrorRedirects.MirrorKeepsExactly` | core/site/rules.ts:407-426 | A target that mirrors its source gives every matched path back if and only if the placeholders have distinct names a reference can spell, none is splat or __proto__, and no literal segment refers to anything. |
| `MirrorRedirects.MirrorRedirectsToItself` | core/site/rules.ts:407-418 | For such a rule the redirect answers with the path itself (or with its closing slash), or not at all when that is not a path inside the site. |
| `RedirectsFile.ReadLine` | core/site/rules.ts:324-378 | One line token by token gives the blank, the fault or the rule that the declarative reading gives. |
| `ControlRules.TwoWordsRead` | core/site/rules.ts:323-378 | A line of two words, whatever white space is around them and whatever comment follows, is a rule if and only if the first is rooted with its `*` in place and the second, less a final `!` that forces, is a target inside the site; its status is 301. |
| `ControlRules.ThreeWordsRead` | core/site/rules.ts:323-378 | The same with a third word, which has to convert to 200, 301, 302, 307 or 308 once its `!` is off. |
| `ControlRules.OtherLinesRead` | core/site/rules.ts:323-337 | A line is blank exactly when nothing is before its comment, and otherwise warned of for its number of words exactly when they are fewer than two or more than three. |
| `ControlRules.MarkIsSkipped` | core/site/rules.ts:121-124 | A byte order mark in front is no part of the first line. |
| `ControlRules.BytesExactly` | core/site/rules.ts:117-119 | The size limits count one byte a character and one more from U+0080, from U+0800 and from U+10000 on. |
| `ControlRules.LineEnds` | core/site/rules.ts:118-121 | Lines end with a line feed, with or without a carriage return before it, and neither is part of them. |
| `ControlWarnings.RedirectWarningsExactly` | core/site/rules.ts:309-382 | A file within the limits (65536 bytes, 500 rules) gives the rules of its good lines in order and exactly one warning, by number, for each bad line; one beyond them gives no rule and a single warning. |
| `RedirectsFile.ParseRedirects` | core/site/rules.ts:309-382 | The line loop gives the rules and warnings of all lines, or ignores the file whole when a limit is exceeded. |
| `RedirectsFile.RedirectsRoundTrip` | core/site/rules.ts:309-382 | Printing any writable rules within the limits and parsing the text gives the same rules and no warning. |
| `RedirectsLength.RedirectsParsedExactly` | core/site/rules.ts:309-382 | The rule lists files give are exactly the lists of writable rules within the limits, that of the file's size included. |
| `RedirectsLength.ParsedExactly` | core/site/rules.ts:328-378 | A rule comes out of some file if and only if it is writable and fits a file. |
| `RedirectsLength.PrintedIsNoLonger` | core/site/rules.ts:309-382 | Printing what was read never gives a longer file. |
| `RedirectsLength.PrintingNormalizes` | core/site/rules.ts:309-382 | Parsing, printing and parsing again gives the first parse, without warnings, for every text. |
| `HeadersFile.ParseHeaders` | core/site/rules.ts:191-273 | The line loop over the open block gives what the state machine over all lines gives, stopping where a limit is exceeded. |
| `ControlWarnings.HeaderLinesRead` | core/site/rules.ts:207-236 | What a line is, by its indentation and its first character. |
| `ControlRules.AnyCaseReads` | core/site/rules.ts:239-258 | A header's name counts in lower case whatever case it is written in, its value without white space around it; it is refused if and only if it is one of the thirteen names the server keeps or starts with access-control-. |
| `ControlRules.LongValueStops` | core/site/rules.ts:259-261 | A value of more than 2048 bytes makes the file be ignored. |
| `ControlRules.NameCharsExactly` | core/site/rules.ts:94-94 | The characters of a header's name are those of a token in section 5.6.2 of RFC 9110, in lower case. |
| `ControlWarnings.HeaderWarningsExactly` | core/site/rules.ts:191-273 | An accepted file comes with exactly one warning for each wrong line (a bad pattern, a bad or denied header, a header outside a block), by line number and in order. |
| `HeaderRules.MatchHeaders` | core/site/rules.ts:280-287 | The nested loops compute the answer of the rules in order. |
| `HeaderRules.LastMentionWins` | core/site/rules.ts:266-287 | For every accepted text, path and header name other than __proto__: the response carries the header if and only if a block matching the path mentions it, with the value of the last such line of the file. |
| `HeadersPrinter.HeadersRoundTrip` | core/site/rules.ts:191-273 | Printing any writable rules within the limits and parsing the text gives the same rules and no warning. |
| `HeadersLength.HeadersParsedExactly` | core/site/rules.ts:191-273 | The rule lists files give are exactly the lists of writable rules within the limits, that of the file's size included. |
| `HeadersLength.PrintedIsNoLonger` | core/site/rules.ts:191-273 | Printing what was read never gives a longer file: trimming, lower case, line ends and overridden headers only take bytes away. |
| `HeadersPrinter.HeaderLimit` | core/site/rules.ts:262-268 | A parsed rule has at most twenty headers, one more only if one is constructor, and never __proto__. |
| `HeadersPrinter.TwentyOneHeadersPass` | core/site/rules.ts:262-266 | A file with twenty-one headers on one rule that is accepted, because an object has a constructor already. |
| `RetryBudget.ReenqueuesAreBounded` | core/cleanup/handler.ts:107-179 | In every run, ticks and requests that read and later write the row interleaved in any way, a new job of F files and S bytes is re-enqueued at most 5*(1+F+S) times, plus five times what reports take the counters back in all, plus once for each re-enqueue that was not recorded or whose record a later write took off again. |
| `RetryBudget.RowsAreAccounted` | core/cleanup/handler.ts:98-105 | In every run, the re-enqueues on record in a row, and in every copy of it that somebody holds, and what is left of its budget come to no more than 5*(1+F+S) and what reports have taken back. |
| `RetryBudget.SendsAreOnRecord` | core/cleanup/handler.ts:160-178 | In every run, whatever is sent is on record in the row, was not recorded, or has been overwritten. |
| `RetryBudget.GivesUpExactly` | core/cleanup/handler.ts:124-146 | A tick gives a job up if and only if it listed it after five re-enqueues without progress and neither a read it needs nor its write fails. |
| `RetryBudget.GivenUpStays` | adapters/sql/stores.ts:255-287 | A job given up, and read by no request before that, is never listed again, nor sent, in any run in which no counter passes its marker. |
| `RetryBudget.ProgressReadmits` | adapters/sql/stores.ts:255-287 | Progress past a marker readmits a failed job with a fresh budget. |
| `RetryPool.ListsExactly` | adapters/sql/stores.ts:255-287 | After every run a tick lists the row if and only if it is failed, or pending or running with its last write, told by the events, more than the threshold ago, and it has at most five retries on record or a counter past its marker. |
| `RetryPool.FinishedIsNeverSent` | adapters/sql/stores.ts:276-277 | A job whose last write is its completion, with no tick at it, is never listed and never sent, however long it is left. |
| `RetryPool.OnlyReportsReopen` | core/job/handler.ts:136-207 | With nobody else at it, no retry of its user and no touch of the queue changes it either: only another report does. |
| `RetryPool.SentAgainOnlyAfterThreshold` | adapters/sql/stores.ts:255-287 | Unless a failure is reported or the job given up, more than the threshold lies between a re-enqueue on record and the next listing. |
| `RetryPool.SentFiveTimesExactly` | core/cleanup/handler.ts:118-179 | A job that keeps failing without progress is sent again exactly five times; listed for the sixth it is given up and then never listed. |
| `RetryPool.CountersAreKept` | core/job/handler.ts:136-175 | Every write has the counters it was given or those of the copy it is made of, and only the cron changes the markers and the retry count. |
| `RetryBudget.RelapsesNeverEnd` | core/job/handler.ts:148-153 | Why what reports take back has to count: with counters that never exceed two, n relapses by one file each give 2n re-enqueues, all recorded. |
| `RetryBudget.OverwritesNeverEnd` | core/job/handler.ts:121-230 | Why records that are overwritten have to count: a report that reads the row before a tick sends the job and saves it after takes the record off, n times for n re-enqueues, with no counter ever moving. |
| `RetryCron.RetriggerJob` | core/cleanup/handler.ts:118-178 | The message goes out before the row is written, and the row is made of the listed copy, whatever the row has become; for each way either can fail, row, message and error are what the state machine says. |
| `RetryCron.RetriggerPendingJobs` | core/cleanup/handler.ts:107-179 | Every listed job takes its step up to the first that needs a read that fails, or cannot be given up for a failing write, which ends the tick; no other row changes, and exactly the jobs with budget left are sent. |
| `RetryCron.JobRow.Report` | core/job/handler.ts:136-207 | The status route's assignments give the reported job, and its mirror the status and, on completion, the job's counters. |
| `RetryCron.ReconcilingHeals` | core/cleanup/handler.ts:66-88 | A mirror that missed a completion is given exactly what the status route would have written; one that did not is left alone; reconciling twice is reconciling once. |
| `RetryCron.AssetTable.ReconcileStuckAssets` | core/cleanup/handler.ts:66-88 | Every listed asset is reconciled with its job and nothing else changes. |
| `CleanupTick.TickIsBounded` | core/cleanup/usecase.ts:29-38 | With a cap of at least one, the cleanup and drain loops of a tick together never make more than cap + 4 requests. |
| `CleanupTick.OverrunIsReached` | core/cleanup/usecase.ts:38-42 | The bound is met: without batch deletion, an asset whose objects cost exactly what is left makes a tick spend cap + 4. |
| `CleanupCost.DeletionCostsExactly` | core/cleanup/usecase.ts:223-254 | A prefix of k objects is deleted if and only if the budget covers its listings and deletions, counted from k alone, and then that is exactly what is spent. |
| `CleanupCost.DeletionStopsExactly` | core/cleanup/usecase.ts:230-248 | A deletion that is not covered deletes exactly the full pages the budget covers, and its cost is known. |
| `CleanupCost.VisitOverrunsExactly` | core/cleanup/usecase.ts:58-112 | One asset takes the tick over its cap if and only if its objects are covered and its rows are not. |
| `CleanupCost.CleaningOverrunsExactly` | core/cleanup/usecase.ts:48-113 | Cleaning goes over the cap if and only if, on the tables and the store as they were before it, the price of the assets before some asset leaves room for its objects and not for its rows. |
| `CleanupCost.CleaningLeaves` | core/cleanup/usecase.ts:48-113 | What cleaning leaves in tables, store and budget, from those before it: whole assets in listing order, and of the one it stops at the full pages it covers. |
| `CleanupCost.DrainingOverrunsExactly` | core/cleanup/usecase.ts:175-203 | Draining goes over the cap if and only if the price of the prefixes before some prefix leaves room for its objects and not for its row. |
| `CleanupCost.TickOverrunsExactly` | core/cleanup/usecase.ts:29-42 | A tick stays within its cap exactly when neither happens: when the promise of the budget is kept. |
| `CleanupTick.TickIsSafe` | core/cleanup/usecase.ts:48-113 | After a tick every row and pending prefix that went has no object left in the store; the row was listed and its asset not being worked on; all other rows stay; objects went only from under the prefixes listed. |
| `CleanupTick.OthersKeepTheirObjects` | core/cleanup/usecase.ts:79-92 | Cleaning takes no object of an asset that is being worked on or is not listed. |
| `CleanupRecords.RecordsGoTogether` | core/cleanup/usecase.ts:58-113 | In one tick an asset loses its row, its job and, where they are kept, its versions together, and only if it was listed and its job not pending or running; every other asset keeps every record, and a prefix leaves the pending table if and only if it was drained. |
| `CleanupTick.FirstIdleDecides` | core/cleanup/usecase.ts:58-113 | Whatever else is listed: when the budget reaches the first asset nobody works on, cleaning deletes an object or a row if and only if objects go in batches or what is left covers that asset's first page. |
| `CleanupTick.CleaningProgressesExactly` | core/cleanup/usecase.ts:48-113 | For every listing: cleaning deletes something if and only if such an asset is reached and its first page is covered, and otherwise leaves everything as it was. |
| `CleanupTick.TickChangesExactly` | core/cleanup/usecase.ts:175-254 | For all lists: a tick leaves fewer objects, rows and prefixes if and only if the first page of the first idle asset is covered, or that of the first pending prefix by what looking at the assets leaves, which is counted from how many active ones come first; if not, it changes nothing, and no later tick on these lists will. |
| `CleanupTick.TickProgresses` | core/cleanup/usecase.ts:58-113 | So a tick that reaches an expired asset nobody works on, with batch deletion or a first page it affords, deletes an object or a row whatever it drains. |
| `CleanupTick.BusyTicksEnd` | core/cleanup/usecase.ts:58-113 | With or without batch deletion, there are no more ticks that change something than objects, rows and prefixes to begin with. |
| `CleanupTick.SoleAssetStuckExactly` | core/cleanup/usecase.ts:236-248 | The case of one such asset: its tick changes nothing if and only if there is no batch deletion and its first page does not fit the budget. |
| `Cleanup.DeletionIsFunded` | core/cleanup/usecase.ts:223-254 | Deleting a prefix never spends past the cap. |
| `Cleanup.DoneIsEmpty` | core/cleanup/usecase.ts:223-254 | When it says it is done nothing is left under the prefix, and nothing else was touched, whatever the paging. |
| `Cleanup.StuckExactly` | core/cleanup/usecase.ts:230-248 | It stops without having deleted anything if and only if it could not fund its first page. |
| `CleanupRun.DeleteAllR2Objects` | core/cleanup/usecase.ts:223-254 | The list-and-delete loop with its cursor does what the specification says to store and budget. |
| `CleanupRun.CleanOne` | core/cleanup/usecase.ts:61-112 | One asset: deleted wholly, skipped, or left for the next tick, with its exact cost. |
| `CleanupRun.CleanupExpiredAssets` | core/cleanup/usecase.ts:48-113 | The loop over the listing leaves tables, store, budget and result as specified. |
| `CleanupRun.DrainPendingCleanups` | core/cleanup/usecase.ts:175-203 | The drain loop likewise. |
| `CleanupRun.RunTick` | core/cleanup/handler.ts:18-43 | Both loops on one budget: the tick's world and its bound; what is spent is exactly the number of requests the store and the tables were asked. |
| `CleanupRun.FileStorage.List` | adapters/memory/storage.ts:112-124 | A page is the first keys after the cursor under the prefix, with a cursor exactly when there are more. |
| `CleanupRun.FileStorage.DeleteMany` | adapters/memory/storage.ts:101-103 | Exactly the given keys go. |
| `JobQueues.MessagesAreConserved` | adapters/sql/queue.ts:40-109 | In every run of either queue each message sent is in exactly one place (queued, claimed, acknowledged, buffered, dead or lost with its process) and is delivered at most maxAttempts times. |
| `JobQueues.DeadExactly` | adapters/sql/queue.ts:92-97 | A message is dead if and only if its last allowed delivery was retried, and the process has lived since. |
| `JobQueues.StepKeeps` | adapters/memory/memory-queue.ts:36-95 | The inductive invariant behind both, for every step of either queue. |
| `JobQueues.LostExactly` | adapters/sql/queue.ts:40-109 | A message is lost if and only if at some event the process died while it was claimed, buffered or only noted as dead, or a flush of the buffer it was in failed; so never without one of the two. |
| `JobQueues.FailedFlushLoses` | adapters/sql/queue.ts:63-68 | A buffered retry whose write fails is gone although it had a delivery left, because the buffer is emptied first. |
| `JobQueues.OldestFirst` | adapters/sql/queue.ts:49-60 | A claim leaves no due message that became visible before one it took, and below its limit leaves none that is due. |
| `QueueTiming.NotBeforeItsTime` | adapters/sql/queue.ts:43-60 | In every run of either queue a ticket handed out was sent or put back before, and the delay asked for by the last such event has passed. |
| `QueueTiming.HandsOutExactly` | adapters/memory/memory-queue.ts:60-67 | A queued ticket is handed out if and only if it has: by every receive of the in-process queue, and by every receive of the table that hands out fewer than its limit. |
| `JobQueueClasses.MemoryJobQueue.TakeDue` | adapters/memory/memory-queue.ts:60-67 | The backward splice loop is a stable partition of the pending list. |
| `JobQueueClasses.MemoryJobQueue.Receive` | adapters/memory/memory-queue.ts:60-67 | Receiving is the state machine's step; every message handed out is unsettled and knows its attempt. |
| `JobQueueClasses.MemoryJobQueue.Retry` | adapters/memory/memory-queue.ts:82-93 | Settling by retry is the step, once; a second settling is an error that changes nothing. |
| `JobQueueClasses.MemoryJobQueue.Ack` | adapters/memory/memory-queue.ts:79-81 | Settling by acknowledgement is the step, once. |
| `JobQueueClasses.SqlJobQueue.ClaimRows` | adapters/sql/queue.ts:49-60 | The claiming statement takes the due rows that became visible first, up to the limit. |
| `JobQueueClasses.SqlJobQueue.Retry` | adapters/sql/queue.ts:92-107 | A retry is buffered, due when its delay has passed, or the message is dead; the state machine's step, whose times `QueueTiming` is about. |
| `JobQueueClasses.SqlJobQueue.Flush` | adapters/sql/queue.ts:63-68 | A flush moves the buffer to the table, or loses it when the write fails. |
| `Cursor.CursorRoundTrip` | adapters/sql/helpers.ts:77-94 | A cursor reads back as the time and the id it was made from, colons in the id included. |
| `Cursor.AtobOfBtoa` | adapters/sql/helpers.ts:77-84 | Base 64 with its padding loses nothing. |
| `Cursor.ParseIntOfDecimal` | adapters/sql/helpers.ts:87-89 | A time written in decimal reads back. |
| `Cursor.ParseIntExactly` | adapters/sql/helpers.ts:87-89 | A number is read behind any white space, with or without a sign, up to the first character that is no digit. |
| `Cursor.LettersExactly` | adapters/sql/helpers.ts:77-84 | The letters are the alphabet of RFC 4648, section 4. |
| `Cursor.GroupsExactly` | adapters/sql/helpers.ts:77-84 | Four sextets are the digits to the base 64 of the 24-bit number that three characters make. |
| `Cursor.LengthsExactly` | adapters/sql/helpers.ts:77-84 | Every three characters or part of them make four letters, the missing ones signs of padding. |
| `Paging.EveryRowOnce` | adapters/sql/stores.ts:227-253 | With rows coming and going between pages, following cursors to the end hands rows out in strict (created_at, id) descending order, and every row of the scope that is there throughout exactly once. |
| `Paging.StillTableListsAll` | adapters/sql/stores.ts:442-468 | Without changes, following cursors ends and lists exactly the rows in scope, in order, for every limit from one. |
| `Paging.PageIsPrefix` | adapters/sql/stores.ts:232-250 | A page is in order and after its cursor, and everything in scope that is not on it comes after the next cursor. |
| `Paging.NewestFirst` | adapters/sql/stores.ts:232-250 | Whatever changes between pages, rows come from the newest to the oldest, and those of one time from the last id to the first in dictionary order. |
| `Paging.VisibleExactly` | adapters/sql/stores.ts:54-68 | What a user sees is what is in their workspaces and what they own in no workspace, and no other row. |
| `KeyOrder.LessExactly` | adapters/memory/storage.ts:115-118 | The order of keys is that of a dictionary: the first difference decides, and a key comes before its extensions. |
| `Paging.SqlStore.List` | adapters/sql/stores.ts:227-253 | The listing decodes its cursor, asks for one row more, and hands out a cursor exactly when there is more. |
| `SliceStream.Slice` | core/file/stream.ts:17-66 | For every way of cutting the data into chunks, what is enqueued is data[offset .. min(offset+length, total)], and no chunk is read past the one that completes it. |
| `SliceStream.ServeRange` | core/file/handler.ts:746-755 | The announced Content-Length and Content-Range are the length and the position of the body that is sent. |
| `SliceStream.RangeRoundTrip` | core/file/stream.ts:1-15 | A Range header for given bytes reads back as those bytes. |
| `SliceStream.ParsedExactly` | core/file/stream.ts:1-15 | A Range header is read if and only if it is bytes=, digits, a hyphen, and digits or nothing, as the numbers these are. |
| `MemoryStorage.CapacityHolds` | adapters/memory/storage.ts:34-61 | Under every interleaving of puts, ends of bodies and deletes, usedBytes is the size of what is stored plus what is declared for bodies still arriving, and never more than the capacity. |
| `MemoryStorage.RefusedExactly` | adapters/memory/storage.ts:41-46 | A put is refused if and only if its declared size does not fit beside that. |
| `MemoryStorage.StoresTheLastPut` | adapters/memory/storage.ts:34-110 | In every run a key holds the body of the last put of it that arrived at its declared length, and nothing after its deletion, told by the events alone. |
| `MemoryStorage.MemoryFileStorage.Reserve` | adapters/memory/storage.ts:41-46 | Before a body is read its size is reserved or the put refused. |
| `MemoryStorage.MemoryFileStorage.Finish` | adapters/memory/storage.ts:47-60 | At its end the object replaces the old one, or the reservation is given back. |
| `MemoryStorage.Collect` | adapters/memory/storage.ts:134-152 | The buffer filled chunk by chunk is the body, exactly when the body has its declared length. |
| `MemoryStorage.MemoryFileStorage.Delete` | adapters/memory/storage.ts:97-110 | A deleted object's bytes are given back. |
| `SiteNames.AcceptedNamesAreValid` | core/site/names.ts:65-84 | The check accepts only valid names, and a string is valid if and only if it passes unchanged. |
| `SiteNames.AcceptedExactly` | core/site/names.ts:19-84 | In characters: 3 to 63 letters, digits and single hyphens, no hyphen at an end, neither sixteen hexadecimal digits nor v and digits, and none of the twenty-one reserved words between hyphens. |
| `SiteNames.CustomAcceptedExactly` | core/site/custom.ts:45-71 | In characters: a domain of two or more labels and at most 253 characters, neither under the suffix nor its parent nor the apex; those are told that they are reserved. |
| `SiteNames.KeysAreDisjoint` | core/site/custom.ts:45-70 | No accepted custom hostname is ever the key of an accepted name under the suffix. |
| `SiteNames.KeysRoundTrip` | core/site/usecase.ts:477-480 | Bare name and full host lead to the same key, the one the claim made. |
| `SiteNames.CustomKeysRoundTrip` | core/site/usecase.ts:477-480 | A custom hostname is found again under the key it was claimed with. |
| `SiteHosts.RunsKeepTheRules` | core/site/usecase.ts:117-166 | Over every run of claims, updates, verifications, releases, asset deletions and purges: a row has no asset exactly when it is released, keys tell the two kinds apart, and no project has more than twenty active names. |
| `SiteHosts.CooldownHolds` | core/site/usecase.ts:117-130 | Whatever happens within thirty days of its release, a name's row stays exactly as it was released: nobody holds it and nothing changes it. |
| `SiteHosts.ClaimableExactly` | core/site/usecase.ts:117-134 | A claim that is otherwise in order gets a released name if and only if the thirty days are over. |
| `SiteOutcomes.ClaimsExactly` | core/site/usecase.ts:78-166 | A claim succeeds if and only if names are enabled, the asset is a project's archive, the name is in order and unheld or released thirty days ago or more, and the project has fewer than twenty. |
| `SiteOutcomes.ClaimIsRecorded` | core/site/usecase.ts:136-154 | What a claim that succeeds puts on record: asset, project, kind, time and user; a domain also its token. |
| `SiteOutcomes.FailedClaimLeaves` | core/site/usecase.ts:117-134 | A claim that fails changes nothing, but for the row of a served-out name when the quota is what it fails for. |
| `SiteOutcomes.HeldNamesAreTold` | core/site/usecase.ts:117-134 | Which claims are told that the name is taken, when it will be free, or that the quota is reached. |
| `SiteOutcomes.UpdatesExactly` | core/site/usecase.ts:193-218 | An update succeeds if and only if the asset holds the name and no previews are asked for on a custom domain; who is told that a name was released. |
| `SiteOutcomes.UpdatesWhatIsAsked` | core/site/usecase.ts:217-236 | What was asked for holds afterwards, and nothing else about the row has changed. |
| `SiteOutcomes.ReleasesExactly` | core/site/usecase.ts:248-274 | A release succeeds if and only if the asset holds the name; the row keeps its project and kind, and has the time and no asset. |
| `SiteOutcomes.VerifyingKeepsTheRest` | core/site/usecase.ts:333-350 | A verification that succeeds records its time and the certificate's status and changes nothing else; a disabled domain stays down. |
| `SiteOutcomes.VerifyingAgain` | core/site/usecase.ts:315-331 | Verifying a live domain again changes only its certificate's status, to what the provisioner says until it is active. |
| `SiteOutcomes.OthersAreLeft` | core/site/usecase.ts:78-274 | No use case changes, makes or removes any row but those it is about, or drops the cached answer of any other. |
| `SiteOutcomes.PurgesExactly` | adapters/sql/site-hosts.ts:124-138 | A purge below its limit leaves no row released more than thirty days before and takes no other. |
| `SiteHosts.ClaimKeepsQuota` | core/site/usecase.ts:132-134 | The one step that adds an active name keeps every project within its quota. |
| `SiteHosts.ReleasedStays` | adapters/sql/site-hosts.ts:83-100 | No single step touches a released row before its cooldown is over. |
| `SiteService.ClaimSiteHost` | core/site/usecase.ts:78-166 | The claim on table and cache has the specified effect and answer on every path. |
| `SiteService.UpdateSiteHost` | core/site/usecase.ts:193-236 | The update likewise. |
| `SiteService.VerifySiteHost` | core/site/usecase.ts:308-351 | Verification likewise; a verified row only has its certificate status refreshed. |
| `SiteService.ReleaseSiteHost` | core/site/usecase.ts:248-274 | The release likewise. |
| `SiteService.ReleaseAssetSiteHosts` | core/site/usecase.ts:427-436 | Deleting an asset releases all its active names and drops them from the cache. |
| `SiteService.ResolveRow` | core/site/resolver.ts:132-162 | The answer is the live cache entry, if the cache can be read, or the table's answer, which is then cached for a minute if the cache can be written. |
| `SiteService.SiteHostStore.CountActiveByProject` | adapters/sql/site-hosts.ts:115-122 | The count is the number of active names of the project. |
| `SiteService.SiteHostStore.ReleaseByAsset` | adapters/sql/site-hosts.ts:102-113 | Exactly the active rows of the asset are released, and their names returned. |
| `SiteService.HostCache.Get` | adapters/memory/memory-kv.ts:24-32 | A live entry is returned, an expired one dropped. |
| `SiteResolver.AnswersAreRecent` | core/site/resolver.ts:132-162 | In every run, failed cache reads, writes and deletions included, a request is answered what the table alone would have answered at a moment less than sixty seconds before, longer only by what a cache write came after its read. |
| `StaleAnswers.RecentExactly` | core/site/resolver.ts:132-162 | Every answer of every run is one of the last sixty seconds if and only if cache writes follow their reads at once: with any delay, however short, some run gives an older one. |
| `SiteResolver.SettledExactly` | core/site/resolver.ts:132-162 | For each host, in every run: what is cached or about to be cached for it stays the table's own answer if and only if each use case leaves its resolution alone, or has it dropped (or expired) with no lookup of it under way. |
| `SiteResolver.AnswersAreExact` | core/site/usecase.ts:494-504 | In such runs every request for the host, right after a change too, is answered what the table says at that moment, whatever happens to other hosts. |
| `SiteResolver.UnsettledIsStale` | core/site/resolver.ts:132-162 | A host is settled if and only if it is answered rightly now and after every write that is under way. |
| `SiteResolver.DroppedIsCalm` | core/site/usecase.ts:494-504 | A use case is of that kind for a host with no lookup under way whose deletion from the cache does not fail, unless it is a claim that takes a served-out row and then fails. |
| `SiteResolver.DropsExactly` | core/site/usecase.ts:117-161 | A use case drops every name whose resolution it changes if and only if it is not a claim, in order but for the quota, of a name past its cooldown by a project at its quota. |
| `StaleAnswers.FailedClaimGoesStale` | core/site/usecase.ts:129-134 | A run from an empty deployment, under any suffix: a name claimed and released, twenty others claimed, the answer cached after the cooldown, and a claim that meets the quota; the name is free and still answers gone. |
| `StaleAnswers.LateWriteGoesStale` | core/site/resolver.ts:132-162 | A run from an empty deployment, under any suffix and however prompt the write: a name is claimed and asked for, released before the answer is cached, and then answers with the asset it has lost. |
| `SiteLabels.PreviewLabelParses` | core/site/resolver.ts:67-125 | For every valid name and n from 1, v{n}--name means that version of that name and latest--name its newest; neither is an id or a plain name, and the name itself is a plain name. |
| `SiteLabels.PreviewServesExactly` | core/site/resolver.ts:101-125 | v{n}--name serves a version if and only if the name is live with previews on and that version exists; it is answered unavailable or gone exactly when the name's row is disabled or released, and nothing otherwise. |
| `SiteLabels.LatestServesExactly` | core/site/resolver.ts:101-125 | The same of latest--name with the newest version, and what it answers otherwise. |
| `SiteLabels.NameServesExactly` | core/site/resolver.ts:86-90 | A valid name is served an asset if and only if the row filed under the name with the suffix is live with that asset; it is answered unavailable, gone or nothing exactly when that row is disabled, released, or absent or unverified. |
| `SiteLabels.IdServesItself` | core/site/resolver.ts:73-74 | Sixteen hexadecimal digits are served as that id, whatever the table and the versions say. |
| `SiteLabels.OtherPreviewsServeNothing` | core/site/resolver.ts:76-106 | What is before the first `--` names a version only as latest, or as v and a number from 1 on without leading zeros; anything else is served nothing. |
| `SiteOutcomes.ClaimedNameIsServed` | core/site/resolver.ts:67-90 | From the claim to the visitor: once a name is claimed its label is served the claiming asset, through every run in which its owner does not change or release it and the asset is not deleted; its preview labels are served nothing. |
| `SiteOutcomes.PreviewsFollowTheFlag` | core/site/resolver.ts:108-125 | Turning previews on makes each existing version answer at its label and off takes them away; the name itself is served as before. |
| `SiteOutcomes.ClaimedDomainGoesLive` | core/site/usecase.ts:308-351 | A claimed domain answers nothing until a verification with an attempt left finds a record that is reearth-serve-verify= and the token of the claim; then it answers the asset. |
| `SiteStates.VerifyGoesLive` | core/site/usecase.ts:322-350 | Verification succeeds if and only if an attempt is left and a TXT record carries the token; only then does the domain resolve. |
| `SiteStates.DownAndUpAgain` | core/site/usecase.ts:193-236 | Disabling a live name makes it answer that it is down, and enabling it again leaves the table as it was. |
| `SiteStates.GoneForThirtyDays` | core/site/usecase.ts:248-274 | A released host answers gone for thirty days, whatever run of use cases follows. |
| `SiteStates.OwnersKeepTheirHosts` | core/site/usecase.ts:117-166 | In every run an asset holds a host throughout if and only if the run has no release of that host by it and no deletion of it: nobody else can take a name away. |

## Left out

- HTTP, object storage, SQL and key-value transports: object storage is a map or an ordered list of keys, a table a map or a list in listing order, time an integer passed in.
- The entry list is given, as are the results of DEFLATE, MD5, gzip and the standard library's tar and zip readers; content types and encodings of manifest lines are not modelled.
- A checkpoint save of a process that has died is taken not to land after its successor has started.
- Go's case folding of archive names is modelled for ASCII letters only.
- Where the runtime has a native crc32 the writer calls that; the model is of the table it falls back on. Reading ends at the first empty read.
- ZipWriter.WriteStoredZip: the order of names, and walking the directory, are not modelled; an archive of exactly 65535 entries carries the count that ZIP64 readers take as a sentinel.
- JavaScript numbers are integers here: parsing a status is a parameter (`number`), of which only is said that it reads the five statuses and nothing shorter as one of them, and digits beyond 2^53 are exact.
- Strings are sequences of code points, so keys are ordered by code point and not by UTF-16 unit, and lone surrogates do not occur.
- The order in which an object lists its properties (numeric names first) is not modelled: a rule's headers are kept in the order they were first set, and nothing that is proved depends on it but the printed text.
- The wording of warnings: a warning is its line and its kind. The storage bound on parsed rules is not modelled.
- CleanupTick.TickIsSafe: the fallback that scans the store, for metadata stores that cannot list expired rows, is not modelled (it runs the same deletion under a smaller reserve); new uploads during a tick are not either.
- Projects keep their workspace and owner while a listing is paged through.
- Which rows a LIMIT picks is the database's choice and a parameter of the cleanup, retry and reconcile loops.
- SiteHosts.Purge: `ORDER BY released_at LIMIT` is a condition on the set that is purged.
- Statements of one use case on site names are one step; DNS answers, the provisioner's answers and the verification rate limit are parameters.
- SliceStream.Slice: a slice that is empty or starts at or past the end is outside the statement; the stream then never closes.
- Version-list paging, usage counters, and the middleware, role tables, cookies and headers around the file handler.
