/** The cron's retrigger loop (core/cleanup/handler.ts) and the status route's writes (core/job/handler.ts). */
module RetryCron {
  import opened RetryBudget
  import opened RetryPool
  import opened Wrappers

  class JobTable {
    var jobs: map<string, Job>

    constructor (jobs: map<string, Job>)
      ensures this.jobs == jobs
    {
      this.jobs := jobs;
    }

    method Save(id: string, job: Job)
      modifies this
      ensures jobs == old(jobs)[id := job]
    {
      jobs := jobs[id := job];
    }
  }

  /** A listed job: the row as it was read, which need not be the row as it is. */
  datatype Listed = Listed(id: string, copy: Job)

  /** What handling a listed job does to its row. */
  function Handled(row: Job, copy: Job, now: int, delivery: Delivery): Job {
    if Saves(copy, delivery) then Retriggered(copy, now) else row
  }

  /** That is the step of the state machine. */
  lemma HandledIsTheStep(s: State, ticket: nat, now: int, delivery: Delivery)
    requires ticket in s.listed
    ensures
      var e := Handles(ticket, now, delivery);
      && After(s, e).row.job == Handled(s.row.job, s.listed[ticket].job, now, delivery)
      && (Enqueues(s, e) <==> Sends(s.listed[ticket].job, delivery))
  {
  }

  /** A read that fails ends the tick with an error, and so does a job that cannot be given up because its row is not written. */
  predicate Throws(copy: Job, delivery: Delivery) {
    delivery == Unread || (Exhausted(copy) && delivery == NotSaved)
  }

  /** Its turn in the loop. The message goes out before the row is written; either can fail. */
  method RetriggerJob(table: JobTable, listed: Listed, now: int, delivery: Delivery) returns (sent: bool, thrown: bool)
    requires listed.id in table.jobs
    modifies table
    ensures table.jobs == old(table.jobs)[listed.id := Handled(old(table.jobs)[listed.id], listed.copy, now, delivery)]
    ensures sent == Sends(listed.copy, delivery)
    ensures thrown == Throws(listed.copy, delivery) && (thrown ==> !sent && table.jobs == old(table.jobs))
    ensures thrown <==> delivery == Unread || (delivery == NotSaved && OutOfRetries(listed.copy))
  {
    var job := listed.copy;
    assert table.jobs == table.jobs[listed.id := table.jobs[listed.id]];
    var retryCount := EffectiveRetryCount(job);
    if retryCount >= MAX_RETRIES {
      if delivery == Unread || delivery == NotSaved { return false, true; }
      table.Save(listed.id, job.(status := Failed, retryCount := Some(MAX_RETRIES + 1), updatedAt := now));
      return false, false;
    }
    if delivery == Unread { return false, true; }
    thrown := false;
    if delivery == NoMessage { return false, false; }
    if delivery == NotSent { return false, false; }
    sent := true;
    if delivery == NotSaved { return; }
    table.Save(listed.id, job.(retryCount := Some(retryCount + 1), retryFileCount := Some(OrZero(job.fileCount)),
                               retryExtractedSize := Some(OrZero(job.extractedSize)), status := Pending, updatedAt := now));
  }

  predicate Listing(listing: seq<Listed>, jobs: map<string, Job>) {
    && (forall i | 0 <= i < |listing| :: listing[i].id in jobs)
    && (forall i, j | 0 <= i < j < |listing| :: listing[i].id != listing[j].id)
  }

  /** Every listed job before the first that throws takes its step, and only then; no other row changes. */
  method RetriggerPendingJobs(table: JobTable, listing: seq<Listed>, now: int, deliveries: seq<Delivery>)
    returns (sent: seq<string>, handled: nat)
    requires Listing(listing, table.jobs) && |deliveries| == |listing|
    modifies table
    ensures table.jobs.Keys == old(table.jobs).Keys
    ensures handled <= |listing| && (handled < |listing| ==> Throws(listing[handled].copy, deliveries[handled]))
    ensures forall i | 0 <= i < handled :: !Throws(listing[i].copy, deliveries[i])
    ensures forall i | 0 <= i < handled ::
      table.jobs[listing[i].id] == Handled(old(table.jobs)[listing[i].id], listing[i].copy, now, deliveries[i])
    ensures forall id | id in table.jobs && (forall i | 0 <= i < handled :: listing[i].id != id) :: table.jobs[id] == old(table.jobs)[id]
    ensures forall i | 0 <= i < |listing| ::
      listing[i].id in sent <==> i < handled && Sends(listing[i].copy, deliveries[i])
  {
    hide Handled, Sends, Throws;
    sent, handled := [], 0;
    while handled < |listing|
      invariant 0 <= handled <= |listing|
      invariant table.jobs.Keys == old(table.jobs).Keys
      invariant forall j | 0 <= j < handled :: !Throws(listing[j].copy, deliveries[j])
      invariant forall j | 0 <= j < handled ::
        table.jobs[listing[j].id] == Handled(old(table.jobs)[listing[j].id], listing[j].copy, now, deliveries[j])
      invariant forall id | id in table.jobs && (forall j | 0 <= j < handled :: listing[j].id != id) :: table.jobs[id] == old(table.jobs)[id]
      invariant forall j | 0 <= j < handled ::
        listing[j].id in sent <==> Sends(listing[j].copy, deliveries[j])
      invariant forall id | id in sent :: exists j | 0 <= j < handled :: listing[j].id == id
    {
      var out, thrown := RetriggerJob(table, listing[handled], now, deliveries[handled]);
      if thrown { break; }
      if out { sent := sent + [listing[handled].id]; }
      handled := handled + 1;
    }
  }

  /** What a version or an asset says about its extraction. */
  datatype Shown = ShownPending | ShownExtracting | ShownReady | ShownFailed

  class Mirror {
    var status: Shown
    var fileCount: Option<nat>
    var extractedSize: Option<nat>
    constructor (status: Shown)
      ensures this.status == status && fileCount == None && extractedSize == None
    {
      this.status, fileCount, extractedSize := status, None, None;
    }
  }

  class JobRow {
    var status: Status
    var updatedAt: int
    var fileCount: Option<nat>
    var extractedSize: Option<nat>
    const retryCount: Option<nat>
    const retryFileCount: Option<nat>
    const retryExtractedSize: Option<nat>

    constructor (job: Job)
      ensures Value() == job
    {
      status, updatedAt, fileCount, extractedSize := job.status, job.updatedAt, job.fileCount, job.extractedSize;
      retryCount, retryFileCount, retryExtractedSize := job.retryCount, job.retryFileCount, job.retryExtractedSize;
    }

    ghost function Value(): Job
      reads this
    {
      Job(status, updatedAt, fileCount, extractedSize, retryCount, retryFileCount, retryExtractedSize)
    }

    /** The status route: the job's fields, then those of the version or asset that mirrors it. */
    method Report(report: Report, now: int, mirror: Mirror)
      requires report.status != Pending
      modifies this, mirror
      ensures Value() == Reported(old(Value()), report, now)
      ensures mirror.status == if status == Completed then ShownReady else if status == Failed then ShownFailed else ShownExtracting
      ensures status == Completed ==> mirror.fileCount == fileCount && mirror.extractedSize == extractedSize && fileCount.Some?
      ensures status != Completed ==> mirror.fileCount == old(mirror.fileCount) && mirror.extractedSize == old(mirror.extractedSize)
    {
      status := report.status;
      updatedAt := now;
      if report.fileCount.Some? { fileCount := report.fileCount; }
      if report.extractedSize.Some? { extractedSize := report.extractedSize; }
      if report.status == Completed {
        if fileCount.None? { fileCount := Some(0); }
        if extractedSize.None? { extractedSize := Some(0); }
      }
      if report.status == Running { mirror.status := ShownExtracting; }
      if report.status == Completed {
        mirror.status := ShownReady;
        mirror.fileCount := fileCount;
        mirror.extractedSize := extractedSize;
      }
      if report.status == Failed { mirror.status := ShownFailed; }
    }
  }

  // --- Mirrors that were left behind ---

  datatype AssetRow = AssetRow(status: Shown, fileCount: Option<nat>, extractedSize: Option<nat>)

  /** A completed job whose asset still says otherwise. */
  datatype Stuck = Stuck(assetId: string, job: Job)

  function Reconciled(row: AssetRow, job: Job): AssetRow {
    if row.status != ShownExtracting && row.status != ShownPending then row
    else AssetRow(ShownReady, if job.fileCount.Some? then job.fileCount else row.fileCount,
                  if job.extractedSize.Some? then job.extractedSize else row.extractedSize)
  }

  /** What the status route writes on the mirror of a job it has completed. */
  function Mirrored(job: Job): AssetRow {
    AssetRow(ShownReady, job.fileCount, job.extractedSize)
  }

  /** A mirror that missed the completion is given exactly what it missed; one that did not is left alone. */
  lemma ReconcilingHeals(row: AssetRow, job: Job, report: Report, now: int)
    requires report.status == Completed
    ensures
      var completed := Reported(job, report, now);
      && (row.status == ShownExtracting || row.status == ShownPending ==> Reconciled(row, completed) == Mirrored(completed))
      && Reconciled(Mirrored(completed), completed) == Mirrored(completed)
      && Reconciled(Reconciled(row, completed), completed) == Reconciled(row, completed)
  {
  }

  class AssetTable {
    var assets: map<string, AssetRow>

    constructor (assets: map<string, AssetRow>)
      ensures this.assets == assets
    {
      this.assets := assets;
    }

    /** Every listed asset that is there is reconciled with its job, and nothing else changes. */
    method ReconcileStuckAssets(stuck: seq<Stuck>)
      requires forall i, j | 0 <= i < j < |stuck| :: stuck[i].assetId != stuck[j].assetId
      modifies this
      ensures assets.Keys == old(assets).Keys
      ensures forall i | 0 <= i < |stuck| && stuck[i].assetId in assets ::
        assets[stuck[i].assetId] == Reconciled(old(assets)[stuck[i].assetId], stuck[i].job)
      ensures forall id | id in assets && (forall i | 0 <= i < |stuck| :: stuck[i].assetId != id) :: assets[id] == old(assets)[id]
    {
      hide Reconciled;
      var i := 0;
      while i < |stuck|
        invariant 0 <= i <= |stuck| && assets.Keys == old(assets).Keys
        invariant forall j | 0 <= j < i && stuck[j].assetId in assets ::
          assets[stuck[j].assetId] == Reconciled(old(assets)[stuck[j].assetId], stuck[j].job)
        invariant forall id | id in assets && (forall j | 0 <= j < i :: stuck[j].assetId != id) :: assets[id] == old(assets)[id]
      {
        var id := stuck[i].assetId;
        if id in assets { assets := assets[id := Reconciled(assets[id], stuck[i].job)]; }
        i := i + 1;
      }
    }
  }
}
