/**
 What a job achieves when nothing goes wrong, and what it does to a proof of something else: told
 from the digest that the tip's hash writes, the backend's answer, and the states before and after.
 */
module AnchorProgress {
  import opened Prelude
  import opened RetrySchedule
  import opened AnchorLifecycle
  import Hex

  /** The digest of the tip. */
  ghost predicate IsTip(job: Row, digest: Bytes) {
    |digest| == 32 && Hex.Encode(digest) == job.key.tipHash
  }

  lemma TipIsInspected(inspect: Inspector, job: Row, digest: Bytes, proof: Bytes)
    requires IsTip(job, digest)
    ensures Inspect(inspect, proof, job.key) == inspect(proof, digest)
  {
    Hex.DecodeEncoded(digest);
  }

  ghost predicate IsRow(d: Durable, job: Row) {
    job.key in d.rows && d.rows[job.key] == job
  }

  /** A row whose proof has been found to be pending or attested at this time. */
  function Settled(job: Row, bitcoin: bool, now: int): Row {
    job.(state := if bitcoin then UpgradedUnverified else SubmittedPending,
         lastAttempt := Some(now),
         nextAttempt := if bitcoin then None else Some(now + job.interval * 60 * 1000000),
         retryFrom := None, failure := None)
  }

  /** A row whose proof is for something else: it is never tried again. */
  function Refused(job: Row, now: int): Row {
    job.(state := RetryFailed, attempts := job.attempts + 1, lastAttempt := Some(now), nextAttempt := None,
         retryFrom := Some(job.state), failure := Some(Integrity))
  }

  // ----- queued rows

  /** A stamp of the tip is published, and the row says how far it has got. */
  lemma StampedJob(inspect: Inspector, d: Durable, job: Row, s: Surroundings, now: int, digest: Bytes, proof: Bytes,
                   bitcoin: bool)
    requires IsRow(d, job) && job.state == Queued && job.path !in d.proofs && IsTip(job, digest)
    requires s.reply == Proof(proof) && proof != [] && inspect(proof, digest) == Some(bitcoin)
    requires s.publish.Done? && s.update.Done?
    ensures ProcessJob(inspect, d, job, s, now) ==
            (Durable(d.rows[job.key := Settled(job, bitcoin, now)], d.proofs[job.path := proof], d.stamps + [job.path]),
             Finished)
  {
    TipIsInspected(inspect, job, digest, proof);
  }

  /** A stamp of anything else is not published, and the row fails for good. */
  lemma ForeignStamp(inspect: Inspector, d: Durable, job: Row, s: Surroundings, now: int, digest: Bytes, proof: Bytes)
    requires IsRow(d, job) && job.state == Queued && job.path !in d.proofs && IsTip(job, digest)
    requires s.reply == Proof(proof) && inspect(proof, digest).None? && s.record.Done?
    ensures ProcessJob(inspect, d, job, s, now) ==
            (Durable(d.rows[job.key := Refused(job, now)], d.proofs, d.stamps + [job.path]), Finished)
  {
    TipIsInspected(inspect, job, digest, proof);
  }

  /** After a crash between publication and update, the file is taken up and no stamp is requested again. */
  lemma RecoveredJob(inspect: Inspector, d: Durable, job: Row, s: Surroundings, now: int, digest: Bytes, bitcoin: bool)
    requires IsRow(d, job) && job.state == Queued && job.path in d.proofs && IsTip(job, digest)
    requires s.readable && inspect(d.proofs[job.path], digest) == Some(bitcoin) && s.update.Done?
    ensures ProcessJob(inspect, d, job, s, now) ==
            (d.(rows := d.rows[job.key := Settled(job, bitcoin, now)]), Finished)
  {
    TipIsInspected(inspect, job, digest, d.proofs[job.path]);
  }

  // ----- pending rows

  /** A pending row whose file attests is upgraded, whatever the backend would say. */
  lemma AttestedJob(inspect: Inspector, d: Durable, job: Row, s: Surroundings, now: int, digest: Bytes)
    requires IsRow(d, job) && job.state == SubmittedPending && job.path in d.proofs && IsTip(job, digest)
    requires s.readable && inspect(d.proofs[job.path], digest) == Some(true) && s.update.Done?
    ensures ProcessJob(inspect, d, job, s, now) == (d.(rows := d.rows[job.key := Settled(job, true, now)]), Finished)
  {
    TipIsInspected(inspect, job, digest, d.proofs[job.path]);
  }

  /** An upgraded proof replaces the pending one, and the row follows. */
  lemma UpgradedJob(inspect: Inspector, d: Durable, job: Row, s: Surroundings, now: int, digest: Bytes, proof: Bytes,
                    bitcoin: bool)
    requires IsRow(d, job) && job.state == SubmittedPending && job.path in d.proofs && IsTip(job, digest)
    requires s.readable && inspect(d.proofs[job.path], digest) == Some(false)
    requires s.reply == Proof(proof) && proof != [] && inspect(proof, digest) == Some(bitcoin)
    requires s.publish.Done? && s.update.Done?
    ensures ProcessJob(inspect, d, job, s, now) ==
            (d.(rows := d.rows[job.key := Settled(job, bitcoin, now)], proofs := d.proofs[job.path := proof]), Finished)
  {
    TipIsInspected(inspect, job, digest, d.proofs[job.path]);
    TipIsInspected(inspect, job, digest, proof);
  }

  /** Nothing new: the row waits for its interval, in minutes. */
  lemma WaitingJob(inspect: Inspector, d: Durable, job: Row, s: Surroundings, now: int, digest: Bytes)
    requires IsRow(d, job) && job.state == SubmittedPending && job.path in d.proofs && IsTip(job, digest)
    requires s.readable && inspect(d.proofs[job.path], digest) == Some(false)
    requires s.reply == NoChange && s.update.Done?
    ensures ProcessJob(inspect, d, job, s, now) == (d.(rows := d.rows[job.key := Settled(job, false, now)]), Finished)
  {
    TipIsInspected(inspect, job, digest, d.proofs[job.path]);
  }

  /** An upgrade of anything else leaves the file alone, and the row fails for good. */
  lemma ForeignUpgrade(inspect: Inspector, d: Durable, job: Row, s: Surroundings, now: int, digest: Bytes, proof: Bytes)
    requires IsRow(d, job) && job.state == SubmittedPending && job.path in d.proofs && IsTip(job, digest)
    requires s.readable && inspect(d.proofs[job.path], digest) == Some(false)
    requires s.reply == Proof(proof) && inspect(proof, digest).None? && s.record.Done?
    ensures ProcessJob(inspect, d, job, s, now) == (d.(rows := d.rows[job.key := Refused(job, now)]), Finished)
  {
    TipIsInspected(inspect, job, digest, d.proofs[job.path]);
    TipIsInspected(inspect, job, digest, proof);
  }

  // ----- failed rows

  /** A row that is retried is processed like one that is in the state it failed in. */
  lemma RetriedJob(inspect: Inspector, d: Durable, job: Row, s: Surroundings, now: int, state: AnchorState)
    requires IsRow(d, job) && job.state == RetryFailed && job.retryFrom == Some(state)
    requires (state == Queued || state == SubmittedPending) && s.resume.Done?
    ensures var again := job.(state := state, nextAttempt := None, failure := None);
            ProcessJob(inspect, d, job, s, now)
            == ProcessJob(inspect, d.(rows := d.rows[job.key := again]), again, s, now)
  {
  }

  // ----- what goes wrong elsewhere

  /** A row whose next attempt is at this time. */
  function Delayed(job: Row, now: int, next: int): Row {
    job.(state := RetryFailed, attempts := job.attempts + 1, lastAttempt := Some(now), nextAttempt := Some(next),
         retryFrom := Some(job.state), failure := Some(Transient))
  }

  /** A backend that fails leaves the files alone, and the row is tried again after the delay of its attempt. */
  lemma FailedRequest(inspect: Inspector, d: Durable, job: Row, s: Surroundings, now: int) returns (next: int)
    requires IsRow(d, job) && job.state == Queued && job.path !in d.proofs
    requires s.reply == Raises(OtherFault) && s.record.Done? && 0.0 <= s.jitter <= 1.0
    ensures ProcessJob(inspect, d, job, s, now) ==
            (Durable(d.rows[job.key := Delayed(job, now, next)], d.proofs, d.stamps + [job.path]), Finished)
    ensures now + CappedDelay(job.attempts + 1) * 1000000 <= next <= now + CappedDelay(job.attempts + 1) * 1250000
  {
    next := now + Micros(RetryDelay(job.attempts + 1, s.jitter).value);
    DelayMicrosBounds(job.attempts + 1, s.jitter);
  }

  /** So is a pending row whose file is gone. */
  lemma LostFile(inspect: Inspector, d: Durable, job: Row, s: Surroundings, now: int) returns (next: int)
    requires IsRow(d, job) && job.state == SubmittedPending && job.path !in d.proofs
    requires s.record.Done? && 0.0 <= s.jitter <= 1.0
    ensures ProcessJob(inspect, d, job, s, now) == (d.(rows := d.rows[job.key := Delayed(job, now, next)]), Finished)
    ensures now + CappedDelay(job.attempts + 1) * 1000000 <= next <= now + CappedDelay(job.attempts + 1) * 1250000
  {
    next := now + Micros(RetryDelay(job.attempts + 1, s.jitter).value);
    DelayMicrosBounds(job.attempts + 1, s.jitter);
  }

  /** A backend that is not configured ends the run and changes no row. */
  lemma Unconfigured(inspect: Inspector, d: Durable, job: Row, s: Surroundings, now: int)
    requires IsRow(d, job) && job.state == Queued && job.path !in d.proofs && s.reply == Raises(ConfigurationFault)
    ensures ProcessJob(inspect, d, job, s, now) ==
            (d.(stamps := d.stamps + [job.path]), Raised(ConfigurationFault))
  {
  }

  /** A new tip is queued under the file of its name; a tracked one is left as it is. */
  lemma TrackedTip(d: Durable, key: Key, directory: string, interval: nat)
    ensures TrackTip(d, key, directory, interval, Done) ==
            (if key in d.rows then d
             else d.(rows := d.rows[key := Row(key, Queued, Path(directory, key), 0, None, None, None, None,
               interval)]),
             Finished)
  {
  }
}
