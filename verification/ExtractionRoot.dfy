/**
 * Where the stored paths are rooted. Phase A records the detected root and the number of files;
 * a process that finds the entry list already stored skips phase A and records neither. Which of
 * the two happened last decides every checkpoint and every manifest that follows.
 */
module ExtractionRoot {
  import opened Extraction
  import opened ExtractionInvariant
  import opened ExtractionSafety
  import opened ExtractionTheorems
  import opened Wrappers

  // --- Which step listed the archive ---

  /** Step `j` is the last among the first `k` to have passed phase A. */
  ghost predicate ListedAt(steps: seq<Step>, k: nat, j: nat) {
    && j < k <= |steps|
    && (steps[j].SaveListed? || steps[j].SkipListing?)
    && forall i | j < i < k :: !steps[i].SaveListed? && !steps[i].SkipListing?
  }

  /** The indexes of the entries that are files. */
  function Files(entries: seq<ArchiveEntry>): set<nat> {
    set i: nat | i < |entries| && !entries[i].isDirectory
  }

  lemma {:induction false} FileCountCounts(entries: seq<ArchiveEntry>)
    ensures FileCount(entries) == |Files(entries)|
  {
    if |entries| > 0 {
      var last := |entries| - 1;
      FileCountCounts(entries[..last]);
      var before := Files(entries[..last]);
      assert Files(entries) == if entries[last].isDirectory then before else before + {last};
    }
  }

  // --- What is recorded ---

  /** `cp` is the stored checkpoint, or one that the process goes by or is about to save. */
  ghost predicate Held(s: State, cp: JobCheckpoint) {
    || s.store.checkpoint == Some(cp)
    || match s.proc
       case Idle => false
       case Listing(_) => false
       case Listed(_) => false
       case Running(x) => cp == x.cp || cp == x.loaded || cp in x.saves
       case Flushed(own, loaded, _) => cp == own || cp == loaded
       case Finalizing(own) => cp == own
       case Finalized(own) => cp == own
       case Deleting(own, _) => cp == own
       case Announcing(own) => cp == own
       case Announced(own) => cp == own
  }

  ghost predicate Rooted(cp: JobCheckpoint, root: string, total: nat) {
    cp.rootPrefix == root && cp.totalEntries == total && cp.phase != EntriesListing
  }

  /** Every checkpoint held has the root and the total; before any was recorded there is none. */
  ghost predicate RootedState(s: State, root: string, total: nat) {
    && (forall cp | Held(s, cp) :: Rooted(cp, root, total))
    && (s.proc.Listing? || s.proc.Listed? ==> s.proc.cp == FreshCheckpoint && s.store.checkpoint.None?)
  }

  ghost predicate NothingListed(s: State) {
    && s.store.checkpoint.None?
    && (s.proc.Idle? || ((s.proc.Listing? || s.proc.Listed?) && s.proc.cp == FreshCheckpoint))
  }

  lemma UploadKeepsRoot(job: Job, s: State, step: Step, root: string, total: nat)
    requires Enabled(job, s, step) && step.UploadDone? && RootedState(s, root, total)
    ensures RootedState(Apply(job, s, step), root, total)
  {
    hide Advance, AddLine, Flush, CheckpointDue;
    var x, y := s.proc.x, Apply(job, s, step).proc.x;
    assert Held(s, x.cp) && Held(s, x.loaded);
    assert Rooted(y.cp, root, total) && y.loaded == x.loaded;
    forall cp | Held(Apply(job, s, step), cp) ensures Rooted(cp, root, total) {
      assert cp == y.cp || Held(s, cp);
    }
  }

  lemma RunningKeepsRoot(job: Job, s: State, step: Step, root: string, total: nat)
    requires Enabled(job, s, step) && !step.UploadDone? && s.proc.Running? && RootedState(s, root, total)
    ensures RootedState(Apply(job, s, step), root, total)
  {
    hide Advance, Flush, CheckpointDue, OnSuccess, FileCount;
    var x, s' := s.proc.x, Apply(job, s, step);
    assert Held(s, x.cp) && Held(s, x.loaded);
    forall cp | Held(s', cp) ensures Rooted(cp, root, total) {
      assert Held(s, cp) || (s'.proc.Running? && cp == s'.proc.x.cp) || (s'.proc.Flushed? && cp == s'.proc.cp);
    }
  }

  lemma OtherKeepsRoot(job: Job, s: State, step: Step, root: string, total: nat)
    requires Enabled(job, s, step) && !s.proc.Running? && RootedState(s, root, total)
    requires !step.SaveListed? && !step.SkipListing?
    ensures RootedState(Apply(job, s, step), root, total)
  {
    hide Lines, Dedup, FileCount;
    var s' := Apply(job, s, step);
    if step.Start? {
      assert s.store.checkpoint.Some? ==> Held(s, s.store.checkpoint.value);
    } else {
      assert s.proc.Listing? || s.proc.Listed? || s.proc.Idle? || Held(s, s.proc.cp);
      forall cp | Held(s', cp) ensures Rooted(cp, root, total) {
        assert Held(s, cp) || cp == s.proc.cp.(phase := Reporting);
      }
    }
  }

  /** Only a step that passes phase A gives a new root. */
  lemma StepKeepsRoot(job: Job, s: State, step: Step, root: string, total: nat)
    requires Enabled(job, s, step) && RootedState(s, root, total)
    requires !step.SaveListed? && !step.SkipListing?
    ensures RootedState(Apply(job, s, step), root, total)
  {
    if step.UploadDone? {
      UploadKeepsRoot(job, s, step, root, total);
    } else if s.proc.Running? {
      RunningKeepsRoot(job, s, step, root, total);
    } else {
      OtherKeepsRoot(job, s, step, root, total);
    }
  }

  lemma ListingSetsRoot(job: Job, s: State, step: Step)
    requires Enabled(job, s, step) && (step.SaveListed? || step.SkipListing?)
    requires s.store.checkpoint.None? && s.proc.cp == FreshCheckpoint
    ensures
      if step.SaveListed? then RootedState(Apply(job, s, step), job.rootPrefix, |Files(job.entries)|)
      else RootedState(Apply(job, s, step), "", 0)
  {
    FileCountCounts(job.entries);
  }

  lemma NothingListedStep(job: Job, s: State, step: Step)
    requires Enabled(job, s, step) && NothingListed(s) && !step.SaveListed? && !step.SkipListing?
    ensures NothingListed(Apply(job, s, step))
  {
    hide Lines, Dedup, FileCount, OnSuccess, OnError, OnDirectory, Flush;
  }

  /** The root and the total that the last listing step, if there is one, has set. */
  lemma {:induction false} RunIsRooted(job: Job, trace: seq<State>, steps: seq<Step>, k: nat) returns (j: Option<nat>)
    requires Behavior(job, trace, steps) && k < |trace|
    ensures j.None? ==> NothingListed(trace[k]) && forall i | 0 <= i < k :: !steps[i].SaveListed? && !steps[i].SkipListing?
    ensures j.Some? ==> ListedAt(steps, k, j.value)
    ensures j.Some? && steps[j.value].SaveListed? ==> RootedState(trace[k], job.rootPrefix, |Files(job.entries)|)
    ensures j.Some? && steps[j.value].SkipListing? ==> RootedState(trace[k], "", 0)
  {
    if k == 0 {
      return None;
    }
    j := RunIsRooted(job, trace, steps, k - 1);
    var s, step := trace[k - 1], steps[k - 1];
    assert Enabled(job, s, step) && trace[k] == Apply(job, s, step);
    hide Apply, Enabled, Behavior, RootedState, NothingListed, Files;
    if step.SaveListed? || step.SkipListing? {
      ListingStarts(job, s, step, j.Some?, if j.Some? && steps[j.value].SaveListed? then job.rootPrefix else "",
        if j.Some? && steps[j.value].SaveListed? then |Files(job.entries)| else 0);
      ListingSetsRoot(job, s, step);
      j := Some(k - 1);
    } else if j.None? {
      NothingListedStep(job, s, step);
    } else if steps[j.value].SaveListed? {
      StepKeepsRoot(job, s, step, job.rootPrefix, |Files(job.entries)|);
    } else {
      StepKeepsRoot(job, s, step, "", 0);
    }
  }

  /** A process in phase A started from nothing, with nothing stored. */
  lemma ListingStarts(job: Job, s: State, step: Step, listed: bool, root: string, total: nat)
    requires Enabled(job, s, step) && (step.SaveListed? || step.SkipListing?)
    requires if listed then RootedState(s, root, total) else NothingListed(s)
    ensures s.store.checkpoint.None? && s.proc.cp == FreshCheckpoint
  {
  }

  // --- What that means for the checkpoints and the manifest ---

  lemma LastListingIsOne(steps: seq<Step>, k: nat, i: nat, j: nat)
    requires ListedAt(steps, k, i) && ListedAt(steps, k, j)
    ensures i == j
  {
  }

  /**
   * Every checkpoint that is stored, and every one that a process past phase A goes by, has the
   * detected root and the number of files if the last listing was recorded. If it was skipped,
   * they have the empty root and zero.
   */
  lemma RootIsTheListings(job: Job, trace: seq<State>, steps: seq<Step>, k: nat, j: nat, cp: JobCheckpoint)
    requires Behavior(job, trace, steps) && k < |trace| && Held(trace[k], cp) && ListedAt(steps, k, j)
    ensures steps[j].SaveListed? ==> cp.rootPrefix == job.rootPrefix && cp.totalEntries == |Files(job.entries)|
    ensures steps[j].SkipListing? ==> cp.rootPrefix == "" && cp.totalEntries == 0
    ensures cp.phase != EntriesListing
  {
    var last := RunIsRooted(job, trace, steps, k);
    assert last.Some?;
    LastListingIsOne(steps, k, last.value, j);
  }

  /** No checkpoint is stored or gone by before a listing step. */
  lemma ListingComesFirst(job: Job, trace: seq<State>, steps: seq<Step>, k: nat, cp: JobCheckpoint) returns (j: nat)
    requires Behavior(job, trace, steps) && k < |trace| && Held(trace[k], cp)
    ensures ListedAt(steps, k, j)
  {
    var last := RunIsRooted(job, trace, steps, k);
    assert last.Some?;
    j := last.value;
  }

  /** With a root to strip, a checkpoint has it exactly when the listing it goes back to was recorded. */
  lemma RootIsKeptExactly(job: Job, trace: seq<State>, steps: seq<Step>, k: nat, cp: JobCheckpoint)
    requires Behavior(job, trace, steps) && k < |trace| && Held(trace[k], cp) && job.rootPrefix != ""
    ensures cp.rootPrefix == job.rootPrefix <==> exists j | 0 <= j < k :: ListedAt(steps, k, j) && steps[j].SaveListed?
    ensures cp.rootPrefix == "" <==> exists j | 0 <= j < k :: ListedAt(steps, k, j) && steps[j].SkipListing?
  {
    var j := ListingComesFirst(job, trace, steps, k, cp);
    RootIsTheListings(job, trace, steps, k, j, cp);
    forall i | 0 <= i < k && ListedAt(steps, k, i) ensures i == j {
      LastListingIsOne(steps, k, i, j);
    }
  }

  /**
   * The final manifest is under the detected root: where the last listing was recorded, each line
   * is for a file of the archive under its path without that root, one line a path, and each file
   * that is not on record as failed is there. Where it was skipped, nothing is stripped.
   */
  lemma FinalManifestIsRooted(job: Job, trace: seq<State>, steps: seq<Step>, k: nat, j: nat)
    requires ValidJob(job) && SoundBehavior(job, trace, steps) && k < |trace| && ListedAt(steps, k, j)
    requires trace[k].store.checkpoint.Some? && trace[k].store.checkpoint.value.phase == Reporting
    ensures trace[k].store.manifest.Some?
    ensures
      var errors, manifest := trace[k].store.checkpoint.value.errors, trace[k].store.manifest.value;
      var root := if steps[j].SkipListing? then "" else job.rootPrefix;
      && (forall m, n | 0 <= m < n < |manifest| :: manifest[m].file.path != manifest[n].file.path)
      && (forall n | 0 <= n < |manifest| ::
            IsFile(job, manifest[n].src) &&
            manifest[n].file.path == job.outputPath(job.entries[manifest[n].src].path, root) &&
            manifest[n].file.size == job.entries[manifest[n].src].size)
      && (forall i | IsFile(job, i) ::
            HasError(errors, i) || HasPath(manifest, job.outputPath(job.entries[i].path, root)))
  {
    RootIsTheListings(job, trace, steps, k, j, trace[k].store.checkpoint.value);
    FinalManifestIsComplete(job, trace, steps, k);
  }

  // --- A crash between the entry list and its checkpoint ---

  function SkippingSteps(): seq<Step> {
    [Start, StoreEntryList, Crash, Start, SkipListing]
  }

  function SkippingTrace(job: Job): seq<State> {
    var before, after := Store(None, map[], None, None), Store(Some(job.entries), map[], None, None);
    [ State(before, Idle),
      State(before, Listing(FreshCheckpoint)),
      State(after, Listed(FreshCheckpoint)),
      State(after, Idle),
      State(after, Listing(FreshCheckpoint)),
      State(after, Running(Begin(FreshCheckpoint.(phase := EntriesListed)))) ]
  }

  /** For every job: a crash after the entry list is stored and before the checkpoint is loses the root and the total. */
  lemma CrashLosesTheRoot(job: Job)
    ensures Behavior(job, SkippingTrace(job), SkippingSteps())
    ensures
      var last := SkippingTrace(job)[5].proc;
      last.Running? && last.x.cp.rootPrefix == "" && last.x.cp.totalEntries == 0
  {
    hide FileCount, OnSuccess, OnError, OnDirectory, Flush, Lines, Dedup;
    var trace, steps := SkippingTrace(job), SkippingSteps();
    assert Enabled(job, trace[0], Start) && trace[1] == Apply(job, trace[0], Start);
    assert Enabled(job, trace[1], StoreEntryList) && trace[2] == Apply(job, trace[1], StoreEntryList);
    assert Enabled(job, trace[2], Crash) && trace[3] == Apply(job, trace[2], Crash);
    assert Enabled(job, trace[3], Start) && trace[4] == Apply(job, trace[3], Start);
    assert Enabled(job, trace[4], SkipListing) && trace[5] == Apply(job, trace[4], SkipListing);
  }
}
