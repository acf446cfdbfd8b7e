/** What every job, every run and every crash keeps: proofs bound to tips, and assurance that never goes down. */
module AnchorSafety {
  import opened Prelude
  import opened RetrySchedule
  import opened AnchorLifecycle

  // ----- the invariant

  /** How far a state has got; a failed row counts by the state that it is retried from. */
  function StateLevel(state: AnchorState): nat {
    match state
    case Queued => 0
    case SubmittedPending => 1
    case UpgradedUnverified => 2
    case IndependentlyVerified => 3
    case RetryFailed => 0
  }

  function Level(row: Row): nat {
    if row.state == RetryFailed && row.retryFrom.Some? then StateLevel(row.retryFrom.value) else StateLevel(row.state)
  }

  /** The next attempt after a failure lies within the bounds of the schedule, counted from the failure. */
  predicate RetryBounded(row: Row) {
    && row.attempts >= 1 && row.lastAttempt.Some? && row.nextAttempt.Some?
    && var capped := CappedDelay(row.attempts);
       row.lastAttempt.value + capped * 1000000 <= row.nextAttempt.value <= row.lastAttempt.value + capped * 1250000
  }

  /** The bookkeeping of one row. */
  predicate RowSound(row: Row) {
    && row.state != IndependentlyVerified
    && (row.failure.Some? <==> row.state == RetryFailed)
    && (row.state == RetryFailed ==> row.retryFrom.Some?)
    && (row.retryFrom.Some? ==> row.retryFrom.value == Queued || row.retryFrom.value == SubmittedPending)
    && (row.retryFrom.Some? && row.state != RetryFailed ==> row.retryFrom.value == row.state)
    && (row.failure == Some(Transient) ==> RetryBounded(row))
  }

  /** What the level of a row says about its file. */
  predicate FileSound(inspect: Inspector, row: Row, file: Option<Bytes>) {
    && (file.Some? ==> Inspect(inspect, file.value, row.key).Some?)
    && (Level(row) >= 1 ==> file.Some?)
    && (Level(row) >= 2 ==> file.Some? && Inspect(inspect, file.value, row.key) == Some(true))
  }

  function FileAt(proofs: map<Path, Bytes>, path: Path): Option<Bytes> {
    if path in proofs then Some(proofs[path]) else None
  }

  predicate RowFits(inspect: Inspector, d: Durable, k: Key)
    requires k in d.rows
  {
    var row := d.rows[k];
    row.key == k && row.path.name == k && RowSound(row) && FileSound(inspect, row, FileAt(d.proofs, row.path))
  }

  predicate HasRow(d: Durable, p: Path) {
    p.name in d.rows && d.rows[p.name].path == p
  }

  /** Every row fits its file, and every file and every stamp request is that of a tracked tip. */
  predicate Sound(inspect: Inspector, d: Durable) {
    && (forall k | k in d.rows :: RowFits(inspect, d, k))
    && (forall p | p in d.proofs :: HasRow(d, p))
    && (forall i | 0 <= i < |d.stamps| :: HasRow(d, d.stamps[i]))
  }

  // ----- what only ever grows

  /** A row's successor: same tip and file, no lower level; final rows do not change. */
  predicate RowAdvances(a: Row, b: Row) {
    && a.key == b.key && a.path == b.path && a.attempts <= b.attempts && Level(a) <= Level(b)
    && (a.failure == Some(Integrity) || a.state == UpgradedUnverified ==> a == b)
  }

  /** A file stays, and once it has a Bitcoin attestation for its tip it is not replaced. */
  predicate FileAdvances(inspect: Inspector, key: Key, a: Option<Bytes>, b: Option<Bytes>) {
    && (a.Some? ==> b.Some?)
    && (a.Some? && Inspect(inspect, a.value, key) == Some(true) ==> a == b)
  }

  /** No stamp was requested for a file that was there before. */
  predicate StampsOnlyMissing(proofs: map<Path, Bytes>, before: seq<Path>, after: seq<Path>) {
    before <= after && forall i | |before| <= i < |after| :: after[i] !in proofs
  }

  ghost predicate Advances(inspect: Inspector, d: Durable, e: Durable) {
    && (forall k | k in d.rows :: k in e.rows && RowAdvances(d.rows[k], e.rows[k]))
    && (forall p: Path :: FileAdvances(inspect, p.name, FileAt(d.proofs, p), FileAt(e.proofs, p)))
    && StampsOnlyMissing(d.proofs, d.stamps, e.stamps)
  }

  /** Only this row, its file and its stamp requests may have changed. */
  ghost predicate Touches(d: Durable, e: Durable, key: Key, path: Path) {
    && d.rows.Keys == e.rows.Keys
    && (forall k | k in d.rows && k != key :: d.rows[k] == e.rows[k])
    && (forall p: Path | p != path :: FileAt(d.proofs, p) == FileAt(e.proofs, p))
    && d.stamps <= e.stamps && (forall i | |d.stamps| <= i < |e.stamps| :: e.stamps[i] == path)
  }

  lemma AdvancesTransitive(inspect: Inspector, a: Durable, b: Durable, c: Durable)
    requires Advances(inspect, a, b) && Advances(inspect, b, c)
    ensures Advances(inspect, a, c)
  {
    forall i | |a.stamps| <= i < |c.stamps|
      ensures c.stamps[i] !in a.proofs
    {
      if i < |b.stamps| {
        assert c.stamps[i] == b.stamps[i];
      } else {
        var p := c.stamps[i];
        assert FileAdvances(inspect, p.name, FileAt(a.proofs, p), FileAt(b.proofs, p));
      }
    }
    forall k | k in a.rows
      ensures k in c.rows && RowAdvances(a.rows[k], c.rows[k])
    {
      assert RowAdvances(a.rows[k], b.rows[k]) && RowAdvances(b.rows[k], c.rows[k]);
    }
    forall p: Path
      ensures FileAdvances(inspect, p.name, FileAt(a.proofs, p), FileAt(c.proofs, p))
    {
      if p in a.proofs {
        assert FileAdvances(inspect, p.name, FileAt(a.proofs, p), FileAt(b.proofs, p));
        assert FileAdvances(inspect, p.name, FileAt(b.proofs, p), FileAt(c.proofs, p));
      }
    }
  }

  // ----- one step on one row

  /** A sound row and its file become another sound row and file. */
  ghost predicate StepsTo(inspect: Inspector, d: Durable, e: Durable, key: Key) {
    && key in d.rows && key in e.rows && Touches(d, e, key, d.rows[key].path)
    && RowAdvances(d.rows[key], e.rows[key])
    && FileAdvances(inspect, key, FileAt(d.proofs, d.rows[key].path), FileAt(e.proofs, d.rows[key].path))
    && RowFits(inspect, e, key)
    && StampsOnlyMissing(d.proofs, d.stamps, e.stamps)
  }

  lemma StepKeepsRows(inspect: Inspector, d: Durable, e: Durable, key: Key)
    requires Sound(inspect, d) && StepsTo(inspect, d, e, key)
    ensures forall k | k in e.rows :: RowFits(inspect, e, k)
  {
    assert RowFits(inspect, d, key);
    forall k | k in e.rows
      ensures RowFits(inspect, e, k)
    {
      if k != key {
        assert RowFits(inspect, d, k);
      }
    }
  }

  lemma StepKeepsFiles(inspect: Inspector, d: Durable, e: Durable, key: Key)
    requires Sound(inspect, d) && StepsTo(inspect, d, e, key)
    ensures forall p | p in e.proofs :: HasRow(e, p)
    ensures forall i | 0 <= i < |e.stamps| :: HasRow(e, e.stamps[i])
  {
    assert RowFits(inspect, d, key) && RowFits(inspect, e, key);
    forall p | p in e.proofs
      ensures HasRow(e, p)
    {
      if p != d.rows[key].path {
        assert FileAt(d.proofs, p) == FileAt(e.proofs, p);
        assert HasRow(d, p);
      }
    }
    forall i | 0 <= i < |e.stamps|
      ensures HasRow(e, e.stamps[i])
    {
      if i < |d.stamps| {
        assert HasRow(d, d.stamps[i]);
      }
    }
  }

  /** A step on one row keeps every other row sound, because no two rows share a file. */
  lemma StepKeepsSound(inspect: Inspector, d: Durable, e: Durable, key: Key)
    requires Sound(inspect, d) && StepsTo(inspect, d, e, key)
    ensures Sound(inspect, e) && Advances(inspect, d, e)
  {
    StepKeepsRows(inspect, d, e, key);
    StepKeepsFiles(inspect, d, e, key);
  }

  lemma StepsToTransitive(inspect: Inspector, a: Durable, b: Durable, c: Durable, key: Key)
    requires StepsTo(inspect, a, b, key) && StepsTo(inspect, b, c, key)
    ensures StepsTo(inspect, a, c, key)
  {
    forall i | |a.stamps| <= i < |c.stamps|
      ensures c.stamps[i] !in a.proofs
    {
      if i < |b.stamps| {
        assert c.stamps[i] == b.stamps[i];
      }
    }
  }

  lemma NothingChanges(inspect: Inspector, d: Durable, key: Key)
    requires key in d.rows && RowFits(inspect, d, key)
    ensures StepsTo(inspect, d, d, key)
  {
  }

  lemma RowChanges(inspect: Inspector, d: Durable, key: Key, row: Row)
    requires key in d.rows && RowFits(inspect, d, key)
    requires RowAdvances(d.rows[key], row) && RowSound(row) && FileSound(inspect, row, FileAt(d.proofs, row.path))
    ensures StepsTo(inspect, d, d.(rows := d.rows[key := row]), key)
  {
  }

  lemma FileChanges(inspect: Inspector, d: Durable, key: Key, proof: Bytes)
    requires key in d.rows && RowFits(inspect, d, key) && Level(d.rows[key]) <= 1
    requires Inspect(inspect, proof, key).Some?
    requires d.rows[key].path in d.proofs ==> Inspect(inspect, d.proofs[d.rows[key].path], key) == Some(false)
    ensures StepsTo(inspect, d, d.(proofs := d.proofs[d.rows[key].path := proof]), key)
  {
  }

  lemma StampRequested(inspect: Inspector, d: Durable, key: Key)
    requires key in d.rows && RowFits(inspect, d, key) && d.rows[key].path !in d.proofs
    ensures StepsTo(inspect, d, d.(stamps := d.stamps + [d.rows[key].path]), key)
  {
  }

  // ----- one job

  /** The row of the job is as the job says, and its file fits. */
  ghost predicate Ready(inspect: Inspector, d: Durable, job: Row) {
    job.key in d.rows && d.rows[job.key] == job && RowFits(inspect, d, job.key)
  }

  /** A step that leaves the count of failed attempts alone. */
  ghost predicate Proceeds(inspect: Inspector, d: Durable, e: Durable, job: Row) {
    StepsTo(inspect, d, e, job.key) && e.rows[job.key].attempts == job.attempts
  }

  lemma SettleProceeds(inspect: Inspector, d: Durable, job: Row, bitcoin: bool, s: Surroundings, now: int)
    requires Ready(inspect, d, job) && job.path in d.proofs &&
             Inspect(inspect, d.proofs[job.path], job.key) == Some(bitcoin)
    requires job.state == Queued || (job.state == SubmittedPending && bitcoin)
    ensures Proceeds(inspect, d, Settle(d, job, bitcoin, s, now).0, job)
  {
    NothingChanges(inspect, d, job.key);
    RowChanges(inspect, d, job.key,
               Transitioned(job, TargetState(bitcoin), now,
                            if bitcoin then None else Some(NextPendingAttempt(job, now))));
  }

  lemma PublishProceeds(inspect: Inspector, d: Durable, job: Row, proof: Bytes, replace: bool, s: Surroundings)
    requires Ready(inspect, d, job) && (job.state == Queued || job.state == SubmittedPending)
    requires job.path in d.proofs ==> Inspect(inspect, d.proofs[job.path], job.key) == Some(false)
    ensures var (e, exit) := PublishNew(inspect, d, job, proof, replace, s);
            && Proceeds(inspect, d, e, job) && e.rows == d.rows
            && (exit == Finished ==>
                  Ready(inspect, e, job) && FileAt(e.proofs, job.path) == Some(proof) &&
                    Inspect(inspect, proof, job.key).Some?)
  {
    NothingChanges(inspect, d, job.key);
    if Inspect(inspect, proof, job.key).Some? {
      FileChanges(inspect, d, job.key, proof);
    }
  }

  lemma QueuedProceeds(inspect: Inspector, d: Durable, job: Row, s: Surroundings, now: int)
    requires Ready(inspect, d, job) && job.state == Queued
    ensures Proceeds(inspect, d, ProcessQueued(inspect, d, job, s, now).0, job)
  {
    NothingChanges(inspect, d, job.key);
    if job.path in d.proofs {
      var bitcoin := Inspect(inspect, d.proofs[job.path], job.key);
      if bitcoin.Some? {
        SettleProceeds(inspect, d, job, bitcoin.value, s, now);
      }
    } else {
      var asked := d.(stamps := d.stamps + [job.path]);
      StampRequested(inspect, d, job.key);
      if s.reply.Proof? {
        StampedProceeds(inspect, d, asked, job, s, now);
      }
    }
  }

  lemma StampedProceeds(inspect: Inspector, d: Durable, asked: Durable, job: Row, s: Surroundings, now: int)
    requires Ready(inspect, d, job) && job.state == Queued && job.path !in d.proofs && s.reply.Proof?
    requires asked == d.(stamps := d.stamps + [job.path]) && StepsTo(inspect, d, asked, job.key)
    ensures Proceeds(inspect, d, ProcessQueued(inspect, d, job, s, now).0, job)
  {
    var (published, exit) := PublishNew(inspect, asked, job, s.reply.bytes, false, s);
    PublishProceeds(inspect, asked, job, s.reply.bytes, false, s);
    StepsToTransitive(inspect, d, asked, published, job.key);
    if exit == Finished {
      var bitcoin := Inspect(inspect, s.reply.bytes, job.key).value;
      SettleProceeds(inspect, published, job, bitcoin, s, now);
      StepsToTransitive(inspect, d, published, Settle(published, job, bitcoin, s, now).0, job.key);
    }
  }

  lemma CheckProceeds(inspect: Inspector, d: Durable, job: Row, now: int, next: int, e: Effect)
    requires Ready(inspect, d, job) && job.state == SubmittedPending
    ensures Proceeds(inspect, d, CheckPending(d, job, now, next, e).0, job)
  {
    NothingChanges(inspect, d, job.key);
    RowChanges(inspect, d, job.key, CheckedPending(job, now, next));
  }

  lemma UpgradeProceeds(inspect: Inspector, d: Durable, job: Row, s: Surroundings, now: int)
    requires Ready(inspect, d, job) && job.state == SubmittedPending && job.path in d.proofs
    requires Inspect(inspect, d.proofs[job.path], job.key) == Some(false)
    ensures Proceeds(inspect, d, AskUpgrade(inspect, d, job, s, now).0, job)
  {
    NothingChanges(inspect, d, job.key);
    match s.reply
    case Raises(_) =>
    case NoChange => CheckProceeds(inspect, d, job, now, NextPendingAttempt(job, now), s.update);
    case Proof(proof) =>
      var (published, exit) := PublishNew(inspect, d, job, proof, true, s);
      PublishProceeds(inspect, d, job, proof, true, s);
      if exit == Finished {
        if Inspect(inspect, proof, job.key) == Some(true) {
          SettleProceeds(inspect, published, job, true, s, now);
        } else {
          CheckProceeds(inspect, published, job, now, NextPendingAttempt(job, now), s.update);
        }
        StepsToTransitive(inspect, d, published, AskUpgrade(inspect, d, job, s, now).0, job.key);
      }
  }

  lemma PendingProceeds(inspect: Inspector, d: Durable, job: Row, s: Surroundings, now: int)
    requires Ready(inspect, d, job) && job.state == SubmittedPending
    ensures Proceeds(inspect, d, ProcessPending(inspect, d, job, s, now).0, job)
  {
    NothingChanges(inspect, d, job.key);
    if job.path in d.proofs {
      var bitcoin := Inspect(inspect, d.proofs[job.path], job.key);
      if bitcoin == Some(true) {
        SettleProceeds(inspect, d, job, true, s, now);
      } else if bitcoin == Some(false) {
        UpgradeProceeds(inspect, d, job, s, now);
      }
    }
  }

  lemma FailureSteps(inspect: Inspector, d: Durable, job: Row, failure: FailureClass, now: int, next: Option<int>,
                     e: Effect)
    requires job.key in d.rows && RowFits(inspect, d, job.key) && d.rows[job.key].attempts == job.attempts
    requires job.state == Queued || job.state == SubmittedPending
    requires failure == Transient ==> RetryBounded(Failed(job, job.attempts + 1, failure, now, next))
    ensures StepsTo(inspect, d, RecordFailure(d, job, failure, now, next, e).0, job.key)
  {
    NothingChanges(inspect, d, job.key);
    var row := d.rows[job.key];
    var failed := Failed(row, job.attempts + 1, failure, now, next);
    FailureIs(d, job, failure, now, next, e);
    if row.state == job.state {
      FailedRowIsSound(inspect, row, FileAt(d.proofs, row.path), failure, now, next);
      RowChanges(inspect, d, job.key, failed);
    }
  }

  lemma FailureIs(d: Durable, job: Row, failure: FailureClass, now: int, next: Option<int>, e: Effect)
    requires job.key in d.rows && (job.state == Queued || job.state == SubmittedPending)
    ensures RecordFailure(d, job, failure, now, next, e).0 ==
            if d.rows[job.key].state == job.state && Happens(e) then
              d.(rows := d.rows[job.key := Failed(d.rows[job.key], job.attempts + 1, failure, now, next)])
            else d
  {
  }

  lemma FailedRowIsSound(inspect: Inspector, row: Row, file: Option<Bytes>, failure: FailureClass, now: int,
                         next: Option<int>)
    requires RowSound(row) && FileSound(inspect, row, file) && (row.state == Queued || row.state == SubmittedPending)
    requires failure == Transient ==> RetryBounded(Failed(row, row.attempts + 1, failure, now, next))
    ensures var failed := Failed(row, row.attempts + 1, failure, now, next);
            RowAdvances(row, failed) && RowSound(failed) && FileSound(inspect, failed, file)
  {
  }

  lemma HandleSteps(inspect: Inspector, d: Durable, job: Row, exit: Exit, s: Surroundings, now: int)
    requires job.key in d.rows && RowFits(inspect, d, job.key) && d.rows[job.key].attempts == job.attempts
    requires job.state == Queued || job.state == SubmittedPending
    ensures StepsTo(inspect, d, Handle(d, job, exit, s, now).0, job.key)
  {
    NothingChanges(inspect, d, job.key);
    if exit == Raised(IntegrityFault) {
      FailureSteps(inspect, d, job, Integrity, now, None, s.record);
    } else if exit == Raised(OtherFault) && RetryDelay(job.attempts + 1, s.jitter).Some? {
      var delay := RetryDelay(job.attempts + 1, s.jitter).value;
      RetryIsBounded(job, s.jitter, now);
      FailureSteps(inspect, d, job, Transient, now, Some(now + Micros(delay)), s.record);
    }
  }

  lemma RetryIsBounded(job: Row, jitter: real, now: int)
    requires RetryDelay(job.attempts + 1, jitter).Some?
    ensures var next := Some(now + Micros(RetryDelay(job.attempts + 1, jitter).value));
            RetryBounded(Failed(job, job.attempts + 1, Transient, now, next))
  {
    DelayMicrosBounds(job.attempts + 1, jitter);
  }

  lemma AttemptSteps(inspect: Inspector, d: Durable, job: Row, s: Surroundings, now: int)
    requires Ready(inspect, d, job) && (job.state == Queued || job.state == SubmittedPending)
    ensures StepsTo(inspect, d, Attempt(inspect, d, job, s, now).0, job.key)
  {
    var (after, exit) :=
      if job.state == Queued then ProcessQueued(inspect, d, job, s, now) else ProcessPending(inspect, d, job, s, now);
    if job.state == Queued {
      QueuedProceeds(inspect, d, job, s, now);
    } else {
      PendingProceeds(inspect, d, job, s, now);
    }
    HandleSteps(inspect, after, job, exit, s, now);
    StepsToTransitive(inspect, d, after, Handle(after, job, exit, s, now).0, job.key);
  }

  lemma ResumeSteps(inspect: Inspector, d: Durable, job: Row, e: Effect)
    requires Ready(inspect, d, job) && job.state == RetryFailed && job.failure == Some(Transient)
    ensures var (resumed, exit) := ResumeRetry(d, job, e);
            && StepsTo(inspect, d, resumed, job.key)
            && (exit == Finished ==>
                  Ready(inspect, resumed, resumed.rows[job.key]) &&
                  (resumed.rows[job.key].state == Queued || resumed.rows[job.key].state == SubmittedPending))
  {
    NothingChanges(inspect, d, job.key);
    RowChanges(inspect, d, job.key, Resumed(job, job.retryFrom.value));
  }

  /** Whatever the surroundings do during a due job, only its row and file change, and only for the better. */
  lemma JobSteps(inspect: Inspector, d: Durable, job: Row, s: Surroundings, now: int)
    requires Ready(inspect, d, job) && Due(job, now)
    ensures StepsTo(inspect, d, ProcessJob(inspect, d, job, s, now).0, job.key)
  {
    if job.state != RetryFailed {
      AttemptSteps(inspect, d, job, s, now);
    } else {
      var (resumed, exit) := ResumeRetry(d, job, s.resume);
      ResumeSteps(inspect, d, job, s.resume);
      if exit == Finished {
        var again := resumed.rows[job.key];
        AttemptSteps(inspect, resumed, again, s, now);
        StepsToTransitive(inspect, d, resumed, Attempt(inspect, resumed, again, s, now).0, job.key);
      }
    }
  }

  // ----- whole runs of the worker

  /** Jobs that have not been processed are as they were selected. */
  ghost predicate StillDue(d: Durable, jobs: seq<Row>, from: nat, now: int) {
    forall i | from <= i < |jobs| :: jobs[i].key in d.rows && d.rows[jobs[i].key] == jobs[i] && Due(jobs[i], now)
  }

  ghost predicate DistinctJobs(jobs: seq<Row>) {
    forall i, j | 0 <= i < j < |jobs| :: jobs[i].key != jobs[j].key
  }

  lemma AdvancesReflexive(inspect: Inspector, d: Durable)
    ensures Advances(inspect, d, d)
  {
  }

  lemma JobLeavesOthers(inspect: Inspector, d: Durable, e: Durable, jobs: seq<Row>, n: nat, now: int)
    requires n < |jobs| && DistinctJobs(jobs) && StillDue(d, jobs, n, now) && StepsTo(inspect, d, e, jobs[n].key)
    ensures StillDue(e, jobs, n + 1, now)
  {
    forall i | n + 1 <= i < |jobs|
      ensures jobs[i].key in e.rows && e.rows[jobs[i].key] == jobs[i]
    {
      assert jobs[n].key != jobs[i].key;
      assert jobs[i].key in d.rows && d.rows[jobs[i].key] == jobs[i];
    }
  }

  lemma {:induction false} JobsKeepSound(inspect: Inspector, d: Durable, jobs: seq<Row>, n: nat,
                                         around: nat -> Surroundings, now: int)
    requires Sound(inspect, d) && DistinctJobs(jobs) && StillDue(d, jobs, 0, now) && n <= |jobs|
    ensures var (e, exit) := ProcessJobs(inspect, d, jobs[..n], around, now);
            && Sound(inspect, e) && Advances(inspect, d, e) && e.rows.Keys == d.rows.Keys
            && (exit == Finished ==> StillDue(e, jobs, n, now))
    decreases n
  {
    if n == 0 {
      AdvancesReflexive(inspect, d);
    } else {
      assert jobs[..n][..n - 1] == jobs[..n - 1];
      var (before, exit) := ProcessJobs(inspect, d, jobs[..n - 1], around, now);
      JobsKeepSound(inspect, d, jobs, n - 1, around, now);
      if exit == Finished {
        var job := jobs[n - 1];
        assert RowFits(inspect, before, job.key);
        JobSteps(inspect, before, job, around(n - 1), now);
        var after := ProcessJob(inspect, before, job, around(n - 1), now).0;
        StepKeepsSound(inspect, before, after, job.key);
        AdvancesTransitive(inspect, d, before, after);
        JobLeavesOthers(inspect, before, after, jobs, n - 1, now);
      }
    }
  }

  lemma TrackKeepsRows(inspect: Inspector, d: Durable, after: Durable, key: Key, directory: string, interval: nat)
    requires Sound(inspect, d) && key !in d.rows
    requires after == d.(rows := d.rows[key := QueuedRow(key, directory, interval)])
    ensures Sound(inspect, after)
  {
    assert !HasRow(d, Path(directory, key));
    forall k | k in after.rows
      ensures RowFits(inspect, after, k)
    {
      if k != key {
        assert RowFits(inspect, d, k);
      }
    }
    forall p | p in after.proofs
      ensures HasRow(after, p)
    {
      assert HasRow(d, p);
    }
    forall i | 0 <= i < |after.stamps|
      ensures HasRow(after, after.stamps[i])
    {
      assert HasRow(d, d.stamps[i]);
    }
  }

  lemma TrackKeepsSound(inspect: Inspector, d: Durable, key: Key, directory: string, interval: nat, e: Effect)
    requires Sound(inspect, d)
    ensures Sound(inspect, TrackTip(d, key, directory, interval, e).0)
    ensures Advances(inspect, d, TrackTip(d, key, directory, interval, e).0)
  {
    if key !in d.rows && Happens(e) {
      TrackKeepsRows(inspect, d, TrackTip(d, key, directory, interval, e).0, key, directory, interval);
    }
  }

  /** A run: the tip is tracked, then the due jobs are processed, until something ends the run. */
  ghost predicate IsRun(inspect: Inspector, d: Durable, e: Durable, exit: Exit, key: Key, directory: string,
                        interval: nat, track: Effect, around: nat -> Surroundings, now: int)
  {
    var (tracked, went) := TrackTip(d, key, directory, interval, track);
    if went != Finished then e == tracked && exit == went
    else
      exists jobs :: IsDueList(tracked.rows, now, jobs) && (e, exit) == ProcessJobs(inspect, tracked, jobs, around, now)
  }

  /** Every run keeps the invariant and only advances, wherever it stops. */
  lemma RunKeepsSound(inspect: Inspector, d: Durable, e: Durable, exit: Exit, key: Key, directory: string,
                      interval: nat, track: Effect, around: nat -> Surroundings, now: int)
    requires Sound(inspect, d)
    requires IsRun(inspect, d, e, exit, key, directory, interval, track, around, now)
    ensures Sound(inspect, e) && Advances(inspect, d, e) && e.rows.Keys <= d.rows.Keys + {key}
  {
    var (tracked, went) := TrackTip(d, key, directory, interval, track);
    TrackKeepsSound(inspect, d, key, directory, interval, track);
    if went == Finished {
      var jobs :| IsDueList(tracked.rows, now, jobs) && (e, exit) == ProcessJobs(inspect, tracked, jobs, around, now);
      assert jobs[..|jobs|] == jobs;
      JobsKeepSound(inspect, tracked, jobs, |jobs|, around, now);
      AdvancesTransitive(inspect, d, tracked, e);
    }
  }

  // ----- rows that are not due

  /** Row `k` and its file are as they were. */
  predicate RowRests(d: Durable, e: Durable, k: Key)
    requires k in d.rows
  {
    k in e.rows && e.rows[k] == d.rows[k] && FileAt(e.proofs, d.rows[k].path) == FileAt(d.proofs, d.rows[k].path)
  }

  lemma JobLeavesRow(inspect: Inspector, d: Durable, e: Durable, key: Key, k: Key)
    requires Sound(inspect, d) && StepsTo(inspect, d, e, key) && k in d.rows && k != key
    ensures RowRests(d, e, k)
  {
    assert RowFits(inspect, d, k) && RowFits(inspect, d, key);
  }

  lemma {:induction false} JobsLeaveRow(inspect: Inspector, d: Durable, jobs: seq<Row>, n: nat,
                                        around: nat -> Surroundings, now: int, k: Key)
    requires Sound(inspect, d) && DistinctJobs(jobs) && StillDue(d, jobs, 0, now) && n <= |jobs|
    requires k in d.rows && !Due(d.rows[k], now)
    ensures RowRests(d, ProcessJobs(inspect, d, jobs[..n], around, now).0, k)
    decreases n
  {
    if n > 0 {
      assert jobs[..n][..n - 1] == jobs[..n - 1];
      var (before, exit) := ProcessJobs(inspect, d, jobs[..n - 1], around, now);
      JobsLeaveRow(inspect, d, jobs, n - 1, around, now, k);
      JobsKeepSound(inspect, d, jobs, n - 1, around, now);
      if exit == Finished {
        var job := jobs[n - 1];
        assert RowFits(inspect, before, job.key);
        JobSteps(inspect, before, job, around(n - 1), now);
        JobLeavesRow(inspect, before, ProcessJob(inspect, before, job, around(n - 1), now).0, job.key, k);
      }
    }
  }

  lemma DueJobsLeaveRow(inspect: Inspector, d: Durable, jobs: seq<Row>, around: nat -> Surroundings, now: int, k: Key)
    requires Sound(inspect, d) && IsDueList(d.rows, now, jobs) && k in d.rows && !Due(d.rows[k], now)
    ensures RowRests(d, ProcessJobs(inspect, d, jobs, around, now).0, k)
  {
    assert jobs[..|jobs|] == jobs;
    JobsLeaveRow(inspect, d, jobs, |jobs|, around, now, k);
  }

  /** A run leaves every row that is not due, and its file, alone. */
  lemma RunLeavesRow(inspect: Inspector, d: Durable, e: Durable, exit: Exit, key: Key, directory: string, interval: nat,
                     track: Effect, around: nat -> Surroundings, now: int, k: Key)
    requires Sound(inspect, d) && k in d.rows && !Due(d.rows[k], now)
    requires IsRun(inspect, d, e, exit, key, directory, interval, track, around, now)
    ensures RowRests(d, e, k)
  {
    var (tracked, went) := TrackTip(d, key, directory, interval, track);
    if went == Finished {
      TrackKeepsSound(inspect, d, key, directory, interval, track);
      var jobs :| IsDueList(tracked.rows, now, jobs) && (e, exit) == ProcessJobs(inspect, tracked, jobs, around, now);
      DueJobsLeaveRow(inspect, tracked, jobs, around, now, k);
    }
  }

  // ----- the retry schedule

  /** A row whose transient failure is recorded is due again within the bounds of the schedule. */
  lemma RetryIsScheduled(d: Durable, job: Row, s: Surroundings, now: int, t: int)
    requires job.key in d.rows && d.rows[job.key].state == job.state && job.state in RETRY_SOURCES
    requires 0.0 <= s.jitter <= 1.0 && Happens(s.record)
    ensures var row := Handle(d, job, Raised(OtherFault), s, now).0.rows[job.key];
            var capped := CappedDelay(job.attempts + 1);
            && row.attempts == job.attempts + 1 && row.failure == Some(Transient) && row.retryFrom == Some(job.state)
            && row.nextAttempt.Some? && (Due(row, t) <==> row.nextAttempt.value <= t)
            && now + capped * 1000000 <= row.nextAttempt.value <= now + capped * 1250000
  {
    DelayMicrosBounds(job.attempts + 1, s.jitter);
  }

  /** When a row is due for good, unless it is upgraded or its proof has failed. */
  function DueFrom(row: Row): int {
    if row.nextAttempt.Some? then row.nextAttempt.value else 0
  }

  /** Exactly the rows that are neither upgraded nor failed for integrity become due, and then stay due. */
  lemma EveryOtherRowBecomesDue(row: Row, t: int)
    requires RowSound(row)
    ensures row.state != UpgradedUnverified && row.failure != Some(Integrity) && DueFrom(row) <= t ==> Due(row, t)
    ensures row.state == UpgradedUnverified || row.failure == Some(Integrity) ==> !Due(row, t)
  {
    if row.state == RetryFailed {
      match row.failure.value {
        case Transient =>
        case Integrity =>
      }
    }
  }
}
