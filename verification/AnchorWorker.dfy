/** The worker over its database and its proof files: it does to them what the lifecycle says. */
module AnchorWorker {
  import opened Prelude
  import opened RetrySchedule
  import opened AnchorLifecycle
  import opened AnchorSafety

  // ----- jobs in the order of their sequence numbers

  function InsertJob(job: Row, jobs: seq<Row>): seq<Row> {
    if jobs == [] || job.key.sequence <= jobs[0].key.sequence then [job] + jobs
    else [jobs[0]] + InsertJob(job, jobs[1..])
  }

  ghost predicate InOrder(jobs: seq<Row>) {
    forall i, j | 0 <= i < j < |jobs| :: jobs[i].key != jobs[j].key && jobs[i].key.sequence <= jobs[j].key.sequence
  }

  lemma {:induction false} InsertedJob(job: Row, jobs: seq<Row>)
    requires InOrder(jobs) && forall i | 0 <= i < |jobs| :: jobs[i].key != job.key
    ensures InOrder(InsertJob(job, jobs))
    ensures forall r :: r in InsertJob(job, jobs) <==> r == job || r in jobs
  {
    var result := InsertJob(job, jobs);
    if jobs == [] || job.key.sequence <= jobs[0].key.sequence {
      assert forall i | 0 < i < |result| :: result[i] == jobs[i - 1];
    } else {
      var rest := jobs[1..];
      InsertedJob(job, rest);
      assert jobs == [jobs[0]] + rest;
      assert result == [jobs[0]] + InsertJob(job, rest);
      forall i, j | 0 <= i < j < |result|
        ensures result[i].key != result[j].key && result[i].key.sequence <= result[j].key.sequence
      {
        if i == 0 {
          assert result[j] in InsertJob(job, rest);
        } else {
          assert result[i] == InsertJob(job, rest)[i - 1] && result[j] == InsertJob(job, rest)[j - 1];
        }
      }
    }
  }

  /** What ends the processing of some jobs ends that of all. */
  lemma {:induction false} JobsStop(inspect: Inspector, d: Durable, jobs: seq<Row>, n: nat,
                                    around: nat -> Surroundings, now: int)
    requires n <= |jobs| && ProcessJobs(inspect, d, jobs[..n], around, now).1 != Finished
    ensures ProcessJobs(inspect, d, jobs, around, now) == ProcessJobs(inspect, d, jobs[..n], around, now)
    decreases |jobs| - n
  {
    if n == |jobs| {
      assert jobs[..n] == jobs;
    } else {
      assert jobs[..n + 1][..n] == jobs[..n];
      JobsStop(inspect, d, jobs, n + 1, around, now);
    }
  }

  /** The tips whose rows are due. */
  function DueKeys(rows: map<Key, Row>, now: int): set<Key> {
    set k | k in rows && Due(rows[k], now)
  }

  function KeysOf(jobs: seq<Row>): set<Key> {
    if jobs == [] then {} else KeysOf(jobs[..|jobs| - 1]) + {jobs[|jobs| - 1].key}
  }

  lemma {:induction false} KeyOfJob(jobs: seq<Row>, k: Key)
    ensures k in KeysOf(jobs) <==> exists i | 0 <= i < |jobs| :: jobs[i].key == k
  {
    if jobs != [] {
      var init := jobs[..|jobs| - 1];
      KeyOfJob(init, k);
      assert forall i | 0 <= i < |init| :: init[i] == jobs[i];
    }
  }

  lemma {:induction false} KeysCount(jobs: seq<Row>)
    requires forall i, j | 0 <= i < j < |jobs| :: jobs[i].key != jobs[j].key
    ensures |KeysOf(jobs)| == |jobs|
  {
    if jobs != [] {
      KeysCount(jobs[..|jobs| - 1]);
      KeyOfJob(jobs[..|jobs| - 1], jobs[|jobs| - 1].key);
    }
  }

  lemma DueKeyIsListed(rows: map<Key, Row>, now: int, jobs: seq<Row>, k: Key)
    requires IsDueList(rows, now, jobs) && k in rows && Due(rows[k], now) && rows[k].key == k
    ensures exists i | 0 <= i < |jobs| :: jobs[i].key == k
  {
    var i :| 0 <= i < |jobs| && jobs[i] == rows[k];
    assert jobs[i].key == k;
  }

  lemma DueListCount(rows: map<Key, Row>, now: int, jobs: seq<Row>)
    requires IsDueList(rows, now, jobs) && forall k | k in rows :: rows[k].key == k
    ensures |jobs| == |DueKeys(rows, now)|
  {
    KeysCount(jobs);
    forall k
      ensures k in KeysOf(jobs) <==> k in DueKeys(rows, now)
    {
      KeyOfJob(jobs, k);
      if k in DueKeys(rows, now) {
        DueKeyIsListed(rows, now, jobs, k);
      }
    }
    assert KeysOf(jobs) == DueKeys(rows, now);
  }

  // ----- the database

  class LifecycleStore {
    var rows: map<Key, Row>

    /** Every row is found under its own tip. */
    ghost predicate Valid()
      reads this
    {
      forall k | k in rows :: rows[k].key == k
    }

    constructor ()
      ensures Valid() && rows == map[]
    {
      rows := map[];
    }

    method TrackTip(key: Key, directory: string, interval: nat, e: Effect) returns (exit: Exit)
      requires Valid()
      modifies this
      ensures Valid() && (rows, exit) == TrackRow(old(rows), key, directory, interval, e)
    {
      if key !in rows && Happens(e) {
        rows := rows[key := QueuedRow(key, directory, interval)];
      }
      exit := ExitOf(e);
    }

    /** The due rows, ordered by sequence. */
    method DueJobs(now: int) returns (jobs: seq<Row>)
      requires Valid()
      ensures IsDueList(rows, now, jobs)
    {
      jobs := [];
      var remaining := rows.Keys;
      while remaining != {}
        invariant remaining <= rows.Keys && InOrder(jobs)
        invariant forall r | r in jobs :: r.key in rows && r.key !in remaining && rows[r.key] == r && Due(r, now)
        invariant forall k | k in rows && k !in remaining && Due(rows[k], now) :: rows[k] in jobs
        decreases |remaining|
      {
        var key :| key in remaining;
        if Due(rows[key], now) {
          InsertedJob(rows[key], jobs);
          jobs := InsertJob(rows[key], jobs);
        }
        remaining := remaining - {key};
      }
    }

    method Transition(job: Row, state: AnchorState, now: int, next: Option<int>, e: Effect) returns (exit: Exit)
      requires Valid()
      modifies this
      ensures Valid() && (rows, exit) == TransitionRow(old(rows), job, state, now, next, e)
    {
      if state !in AllowedTransitions(job.state) || job.key !in rows || rows[job.key].state != job.state {
        return Raised(OtherFault);
      }
      if Happens(e) {
        rows := rows[job.key := rows[job.key].(
                  state := state, lastAttempt := Some(now), nextAttempt := next, retryFrom := None, failure := None)];
      }
      exit := ExitOf(e);
    }

    method PendingChecked(job: Row, now: int, next: int, e: Effect) returns (exit: Exit)
      requires Valid()
      modifies this
      ensures Valid() && (rows, exit) == CheckRow(old(rows), job, now, next, e)
    {
      if job.key !in rows || rows[job.key].state != SubmittedPending {
        return Raised(OtherFault);
      }
      if Happens(e) {
        rows := rows[job.key := rows[job.key].(
                  lastAttempt := Some(now), nextAttempt := Some(next), retryFrom := None, failure := None)];
      }
      exit := ExitOf(e);
    }

    method RecordFailure(job: Row, failure: FailureClass, now: int, next: Option<int>, e: Effect) returns (exit: Exit)
      requires Valid()
      modifies this
      ensures Valid() && (rows, exit) == FailRow(old(rows), job, failure, now, next, e)
    {
      if job.state !in RETRY_SOURCES || job.key !in rows || rows[job.key].state != job.state {
        return Raised(OtherFault);
      }
      if Happens(e) {
        rows := rows[job.key := rows[job.key].(
                  state := RetryFailed, attempts := job.attempts + 1, lastAttempt := Some(now), nextAttempt := next,
                  retryFrom := Some(job.state), failure := Some(failure))];
      }
      exit := ExitOf(e);
    }

    method ResumeRetry(job: Row, e: Effect) returns (exit: Exit)
      requires Valid()
      modifies this
      ensures Valid() && (rows, exit) == ResumeRow(old(rows), job, e)
    {
      if job.state != RetryFailed || job.retryFrom.None? || job.retryFrom.value !in RETRY_SOURCES
         || job.key !in rows || rows[job.key].state != RetryFailed {
        return Raised(OtherFault);
      }
      if Happens(e) {
        rows := rows[job.key := rows[job.key].(state := job.retryFrom.value, nextAttempt := None, failure := None)];
      }
      exit := ExitOf(e);
    }
  }

  /** The proof files, and the record of stamp requests. */
  class ProofFiles {
    var proofs: map<Path, Bytes>
    ghost var stamps: seq<Path>

    constructor ()
      ensures proofs == map[] && stamps == []
    {
      proofs, stamps := map[], [];
    }

    method WriteProofAtomic(path: Path, proof: Bytes, replace: bool, e: Effect) returns (exit: Exit)
      modifies this
      ensures (proofs, exit) == WriteProof(old(proofs), path, proof, replace, e) && stamps == old(stamps)
    {
      if proof == [] || (!replace && path in proofs) {
        return Raised(OtherFault);
      }
      if Happens(e) {
        proofs := proofs[path := proof];
      }
      exit := ExitOf(e);
    }

    /** A request to the backend for a proof of the tip whose file this would be. */
    method Stamp(path: Path, reply: Reply) returns (r: Reply)
      modifies this
      ensures r == reply && proofs == old(proofs) && stamps == old(stamps) + [path]
    {
      stamps := stamps + [path];
      r := reply;
    }
  }

  // ----- the worker

  class Worker {
    const inspect: Inspector
    const store: LifecycleStore
    const files: ProofFiles

    ghost predicate Valid()
      reads this, store
    {
      store.Valid()
    }

    ghost function State(): Durable
      reads this, store, files
    {
      Durable(store.rows, files.proofs, files.stamps)
    }

    constructor (inspect: Inspector)
      ensures Valid() && this.inspect == inspect && fresh(store) && fresh(files) && State() == Durable(map[], map[], [])
    {
      this.inspect := inspect;
      store := new LifecycleStore();
      files := new ProofFiles();
    }

    method ProcessQueued(job: Row, s: Surroundings, now: int) returns (exit: Exit)
      requires Valid()
      modifies store, files
      ensures Valid() && (State(), exit) == AnchorLifecycle.ProcessQueued(inspect, old(State()), job, s, now)
    {
      var inspection;
      if job.path in files.proofs {
        if !s.readable {
          return Raised(OtherFault);
        }
        inspection := Inspect(inspect, files.proofs[job.path], job.key);
        if inspection.None? {
          return Raised(IntegrityFault);
        }
      } else {
        var reply := files.Stamp(job.path, s.reply);
        if !reply.Proof? {
          return Raised(if reply.Raises? then reply.fault else IntegrityFault);
        }
        inspection := Inspect(inspect, reply.bytes, job.key);
        if inspection.None? {
          return Raised(IntegrityFault);
        }
        exit := files.WriteProofAtomic(job.path, reply.bytes, false, s.publish);
        if exit != Finished {
          return;
        }
      }
      var target := TargetState(inspection.value);
      var next := if target == SubmittedPending then Some(NextPendingAttempt(job, now)) else None;
      exit := store.Transition(job, target, now, next, s.update);
    }

    method ProcessPending(job: Row, s: Surroundings, now: int) returns (exit: Exit)
      requires Valid()
      modifies store, files
      ensures Valid() && (State(), exit) == AnchorLifecycle.ProcessPending(inspect, old(State()), job, s, now)
    {
      if job.path !in files.proofs || !s.readable {
        return Raised(OtherFault);
      }
      var current := Inspect(inspect, files.proofs[job.path], job.key);
      if current.None? {
        return Raised(IntegrityFault);
      }
      if current.value {
        exit := store.Transition(job, UpgradedUnverified, now, None, s.update);
        return;
      }
      if s.reply.Raises? {
        return Raised(s.reply.fault);
      }
      if s.reply.NoChange? {
        exit := store.PendingChecked(job, now, NextPendingAttempt(job, now), s.update);
        return;
      }
      var upgraded := Inspect(inspect, s.reply.bytes, job.key);
      if upgraded.None? {
        return Raised(IntegrityFault);
      }
      exit := files.WriteProofAtomic(job.path, s.reply.bytes, true, s.publish);
      if exit != Finished {
        return;
      }
      if upgraded.value {
        exit := store.Transition(job, UpgradedUnverified, now, None, s.update);
      } else {
        exit := store.PendingChecked(job, now, NextPendingAttempt(job, now), s.update);
      }
    }

    method ProcessJob(selected: Row, s: Surroundings, now: int) returns (exit: Exit)
      requires Valid()
      modifies store, files
      ensures Valid() && (State(), exit) == AnchorLifecycle.ProcessJob(inspect, old(State()), selected, s, now)
    {
      var job := selected;
      if job.state == RetryFailed {
        exit := store.ResumeRetry(job, s.resume);
        if exit != Finished || job.key !in store.rows {
          return;
        }
        job := store.rows[job.key];
      }
      exit := Finished;
      if job.state == Queued {
        exit := ProcessQueued(job, s, now);
      } else if job.state == SubmittedPending {
        exit := ProcessPending(job, s, now);
      }
      exit := HandleException(job, exit, s, now);
    }

    /** Integrity failures are final, other failures are retried, and the rest leaves the run. */
    method HandleException(job: Row, raised: Exit, s: Surroundings, now: int) returns (exit: Exit)
      requires Valid()
      modifies store
      ensures Valid() && (State(), exit) == Handle(old(State()), job, raised, s, now)
    {
      exit := raised;
      if raised == Raised(IntegrityFault) {
        exit := store.RecordFailure(job, Integrity, now, None, s.record);
      } else if raised == Raised(OtherFault) {
        var delay := RetryDelay(job.attempts + 1, s.jitter);
        if delay.Some? {
          exit := store.RecordFailure(job, Transient, now, Some(now + Micros(delay.value)), s.record);
        }
      }
    }

    /** Tracks the tip, then processes the due jobs in order, until one of them ends the run. */
    method RunOnce(key: Key, directory: string, interval: nat, track: Effect, around: nat -> Surroundings, now: int)
        returns (exit: Exit, processed: nat)
      requires Valid()
      modifies store, files
      ensures Valid()
      ensures IsRun(inspect, old(State()), State(), exit, key, directory, interval, track, around, now)
      ensures exit == Finished ==>
                processed == |DueKeys(TrackRow(old(store.rows), key, directory, interval, track).0, now)|
    {
      processed := 0;
      exit := store.TrackTip(key, directory, interval, track);
      if exit != Finished {
        return;
      }
      ghost var tracked := State();
      var jobs := store.DueJobs(now);
      DueListCount(store.rows, now, jobs);
      for i := 0 to |jobs|
        invariant Valid() && exit == Finished
        invariant (State(), exit) == ProcessJobs(inspect, tracked, jobs[..i], around, now)
      {
        assert jobs[..i + 1][..i] == jobs[..i];
        exit := ProcessJob(jobs[i], around(i), now);
        if exit != Finished {
          JobsStop(inspect, tracked, jobs, i + 1, around, now);
          return;
        }
      }
      assert jobs[..|jobs|] == jobs;
      processed := |jobs|;
    }
  }
}
