/**
 The anchoring lifecycle of chain tips: rows in a database, proof files beside it, and what one
 job does to both, for every answer of the backend, every failure and every crash.
 */
module AnchorLifecycle {
  import opened Prelude
  import opened RetrySchedule
  import Hex
  import Utf8
  import UtcText

  datatype AnchorState = Queued | SubmittedPending | UpgradedUnverified | IndependentlyVerified | RetryFailed

  datatype FailureClass = Transient | Integrity

  /** A tip that is tracked. */
  datatype Key = Key(sequence: nat, tipHash: string)

  /** The proof file of a tip in a directory: its name is made of the sequence and the hash. */
  datatype Path = Path(directory: string, name: Key)

  /** Times are microseconds; the stored texts compare like them, as QueryIsDue shows. */
  datatype Row = Row(
    key: Key, state: AnchorState, path: Path, attempts: nat, lastAttempt: Option<int>, nextAttempt: Option<int>,
    retryFrom: Option<AnchorState>, failure: Option<FailureClass>, interval: nat)

  /** The rows and the files, which survive a crash, and every stamp request so far. */
  datatype Durable = Durable(rows: map<Key, Row>, proofs: map<Path, Bytes>, stamps: seq<Path>)

  /** Whether a proof is well formed and bound to a digest, and if so, whether it has a Bitcoin attestation. */
  type Inspector = (Bytes, Bytes) -> Option<bool>

  const RETRY_SOURCES := {Queued, SubmittedPending, UpgradedUnverified}

  function AllowedTransitions(state: AnchorState): set<AnchorState> {
    match state
    case Queued => {SubmittedPending, UpgradedUnverified, RetryFailed}
    case SubmittedPending => {UpgradedUnverified, RetryFailed}
    case UpgradedUnverified => {RetryFailed}
    case RetryFailed => RETRY_SOURCES
    case IndependentlyVerified => {}
  }

  // ----- what the surroundings do during one job

  datatype Fault = ConfigurationFault | IntegrityFault | OtherFault

  /** How a step ends: it is done, an exception leaves it, or the process dies. */
  datatype Exit = Finished | Raised(fault: Fault) | Died

  /** A durable write happens or not, and the process goes on, raises or dies. */
  datatype Effect = Done | RaisedBefore | RaisedAfter | DiedBefore | DiedAfter

  /** The backend's answer to a stamp or upgrade request. */
  datatype Reply = Proof(bytes: Bytes) | NoChange | Raises(fault: Fault)

  datatype Surroundings = Surroundings(
    resume: Effect, readable: bool, reply: Reply, publish: Effect, update: Effect, record: Effect, jitter: real)

  predicate Happens(e: Effect) {
    e.Done? || e.RaisedAfter? || e.DiedAfter?
  }

  function ExitOf(e: Effect): Exit {
    match e
    case Done => Finished
    case RaisedBefore => Raised(OtherFault)
    case RaisedAfter => Raised(OtherFault)
    case _ => Died
  }

  // ----- updates of one row

  function Transitioned(row: Row, state: AnchorState, now: int, next: Option<int>): Row {
    row.(state := state, lastAttempt := Some(now), nextAttempt := next, retryFrom := None, failure := None)
  }

  function CheckedPending(row: Row, now: int, next: int): Row {
    row.(lastAttempt := Some(now), nextAttempt := Some(next), retryFrom := None, failure := None)
  }

  function Failed(row: Row, attempts: nat, failure: FailureClass, now: int, next: Option<int>): Row {
    row.(state := RetryFailed, attempts := attempts, lastAttempt := Some(now), nextAttempt := next,
         retryFrom := Some(row.state), failure := Some(failure))
  }

  function Resumed(row: Row, state: AnchorState): Row {
    row.(state := state, nextAttempt := None, failure := None)
  }

  /** An update guarded by the row's state, as one transaction. */
  function Update(rows: map<Key, Row>, key: Key, expected: AnchorState, change: Row -> Row, e: Effect)
    : (map<Key, Row>, Exit)
  {
    if key !in rows || rows[key].state != expected then (rows, Raised(OtherFault))
    else (if Happens(e) then rows[key := change(rows[key])] else rows, ExitOf(e))
  }

  function TransitionRow(rows: map<Key, Row>, job: Row, state: AnchorState, now: int, next: Option<int>,
                         e: Effect)
    : (map<Key, Row>, Exit)
  {
    if state !in AllowedTransitions(job.state) then (rows, Raised(OtherFault))
    else Update(rows, job.key, job.state, row => Transitioned(row, state, now, next), e)
  }

  function CheckRow(rows: map<Key, Row>, job: Row, now: int, next: int, e: Effect): (map<Key, Row>, Exit) {
    Update(rows, job.key, SubmittedPending, row => CheckedPending(row, now, next), e)
  }

  function FailRow(rows: map<Key, Row>, job: Row, failure: FailureClass, now: int, next: Option<int>,
                   e: Effect)
    : (map<Key, Row>, Exit)
  {
    if job.state !in RETRY_SOURCES then (rows, Raised(OtherFault))
    else Update(rows, job.key, job.state, row => Failed(row, job.attempts + 1, failure, now, next), e)
  }

  function ResumeRow(rows: map<Key, Row>, job: Row, e: Effect): (map<Key, Row>, Exit) {
    if job.state != RetryFailed || job.retryFrom.None? || job.retryFrom.value !in RETRY_SOURCES then
      (rows, Raised(OtherFault))
    else Update(rows, job.key, RetryFailed, row => Resumed(row, job.retryFrom.value), e)
  }

  function TransitionTo(d: Durable, job: Row, state: AnchorState, now: int, next: Option<int>, e: Effect)
    : (Durable, Exit)
  {
    var (rows, exit) := TransitionRow(d.rows, job, state, now, next, e);
    (d.(rows := rows), exit)
  }

  function CheckPending(d: Durable, job: Row, now: int, next: int, e: Effect): (Durable, Exit) {
    var (rows, exit) := CheckRow(d.rows, job, now, next, e);
    (d.(rows := rows), exit)
  }

  function RecordFailure(d: Durable, job: Row, failure: FailureClass, now: int, next: Option<int>,
                         e: Effect)
    : (Durable, Exit)
  {
    var (rows, exit) := FailRow(d.rows, job, failure, now, next, e);
    (d.(rows := rows), exit)
  }

  function ResumeRetry(d: Durable, job: Row, e: Effect): (Durable, Exit) {
    var (rows, exit) := ResumeRow(d.rows, job, e);
    (d.(rows := rows), exit)
  }

  /** Publication of a complete proof file, in one step. */
  function WriteProof(proofs: map<Path, Bytes>, path: Path, proof: Bytes, replace: bool, e: Effect)
    : (map<Path, Bytes>, Exit)
  {
    if proof == [] || (!replace && path in proofs) then (proofs, Raised(OtherFault))
    else (if Happens(e) then proofs[path := proof] else proofs, ExitOf(e))
  }

  function Publish(d: Durable, path: Path, proof: Bytes, replace: bool, e: Effect): (Durable, Exit) {
    var (proofs, exit) := WriteProof(d.proofs, path, proof, replace, e);
    (d.(proofs := proofs), exit)
  }

  // ----- one job

  /** The digest that the proof of a tip must be bound to. */
  function DigestOf(key: Key): Bytes {
    if Hex.IsLowerHex(key.tipHash, 64) then Hex.Decode(key.tipHash, 32) else []
  }

  function Inspect(inspect: Inspector, proof: Bytes, key: Key): Option<bool> {
    inspect(proof, DigestOf(key))
  }

  function TargetState(bitcoin: bool): AnchorState {
    if bitcoin then UpgradedUnverified else SubmittedPending
  }

  function NextPendingAttempt(job: Row, now: int): int {
    now + job.interval * 60000000
  }

  function Settle(d: Durable, job: Row, bitcoin: bool, s: Surroundings, now: int): (Durable, Exit) {
    var next := if bitcoin then None else Some(NextPendingAttempt(job, now));
    TransitionTo(d, job, TargetState(bitcoin), now, next, s.update)
  }

  /** Publishes a proof from the backend, unless it is not bound to the tip, and goes on from there. */
  function PublishNew(inspect: Inspector, d: Durable, job: Row, proof: Bytes, replace: bool,
                      s: Surroundings): (Durable, Exit) {
    if Inspect(inspect, proof, job.key).None? then (d, Raised(IntegrityFault))
    else Publish(d, job.path, proof, replace, s.publish)
  }

  function ProcessQueued(inspect: Inspector, d: Durable, job: Row, s: Surroundings, now: int): (Durable, Exit) {
    if job.path in d.proofs then
      if !s.readable then (d, Raised(OtherFault))
      else
        match Inspect(inspect, d.proofs[job.path], job.key)
        case None => (d, Raised(IntegrityFault))
        case Some(bitcoin) => Settle(d, job, bitcoin, s, now)
    else
      var asked := d.(stamps := d.stamps + [job.path]);
      match s.reply
      case Raises(fault) => (asked, Raised(fault))
      case NoChange => (asked, Raised(IntegrityFault))
      case Proof(proof) =>
        var (published, exit) := PublishNew(inspect, asked, job, proof, false, s);
        if exit != Finished then (published, exit)
        else Settle(published, job, Inspect(inspect, proof, job.key) == Some(true), s, now)
  }

  function ProcessPending(inspect: Inspector, d: Durable, job: Row, s: Surroundings, now: int): (Durable, Exit) {
    if job.path !in d.proofs || !s.readable then (d, Raised(OtherFault))
    else
      match Inspect(inspect, d.proofs[job.path], job.key)
      case None => (d, Raised(IntegrityFault))
      case Some(bitcoin) =>
        if bitcoin then TransitionTo(d, job, UpgradedUnverified, now, None, s.update)
        else AskUpgrade(inspect, d, job, s, now)
  }

  function AskUpgrade(inspect: Inspector, d: Durable, job: Row, s: Surroundings, now: int): (Durable, Exit) {
    match s.reply
    case Raises(fault) => (d, Raised(fault))
    case NoChange => CheckPending(d, job, now, NextPendingAttempt(job, now), s.update)
    case Proof(proof) =>
      var (published, exit) := PublishNew(inspect, d, job, proof, true, s);
      if exit != Finished then (published, exit)
      else if Inspect(inspect, proof, job.key) == Some(true) then
        TransitionTo(published, job, UpgradedUnverified, now, None, s.update)
      else CheckPending(published, job, now, NextPendingAttempt(job, now), s.update)
  }

  /** What an exception of a job turns into. */
  function Handle(d: Durable, job: Row, exit: Exit, s: Surroundings, now: int): (Durable, Exit) {
    match exit
    case Raised(IntegrityFault) => RecordFailure(d, job, Integrity, now, None, s.record)
    case Raised(OtherFault) =>
      (match RetryDelay(job.attempts + 1, s.jitter)
       case None => (d, exit)
       case Some(delay) => RecordFailure(d, job, Transient, now, Some(now + Micros(delay)), s.record))
    case _ => (d, exit)
  }

  function Attempt(inspect: Inspector, d: Durable, job: Row, s: Surroundings, now: int): (Durable, Exit) {
    var (after, exit) :=
      if job.state == Queued then ProcessQueued(inspect, d, job, s, now)
      else if job.state == SubmittedPending then ProcessPending(inspect, d, job, s, now)
      else (d, Finished);
    Handle(after, job, exit, s, now)
  }

  function ProcessJob(inspect: Inspector, d: Durable, job: Row, s: Surroundings, now: int): (Durable, Exit) {
    if job.state != RetryFailed then Attempt(inspect, d, job, s, now)
    else
      var (resumed, exit) := ResumeRetry(d, job, s.resume);
      if exit != Finished || job.key !in resumed.rows then (resumed, exit)
      else Attempt(inspect, resumed, resumed.rows[job.key], s, now)
  }

  // ----- selection

  predicate Due(row: Row, now: int) {
    || row.state == Queued
    || (row.state == SubmittedPending && (row.nextAttempt.None? || row.nextAttempt.value <= now))
    || (row.state == RetryFailed && row.failure == Some(Transient) && row.nextAttempt.Some? &&
        row.nextAttempt.value <= now)
  }

  function TextOption(t: Option<UtcText.DateTime>): Option<string> {
    match t
    case None => None
    case Some(t) => Some(UtcText.Text(t))
  }

  /** What the query asks of a row, on the texts in the database. */
  predicate Selected(row: Row, nextAttempt: Option<string>, now: string) {
    var reached := nextAttempt.Some? && !Utf8.CodePointLess(now, nextAttempt.value);
    || row.state == Queued
    || (row.state == SubmittedPending && (nextAttempt.None? || reached))
    || (row.state == RetryFailed && row.failure == Some(Transient) && nextAttempt.Some? && reached)
  }

  /** Comparing the texts selects the rows that are due at the time. */
  lemma QueryIsDue(row: Row, nextAttempt: Option<UtcText.DateTime>, now: UtcText.DateTime)
    requires now.Valid() && (nextAttempt.Some? <==> row.nextAttempt.Some?)
    requires nextAttempt.Some? ==>
               nextAttempt.value.Valid() && row.nextAttempt == Some(UtcText.Instant(nextAttempt.value))
    ensures Selected(row, TextOption(nextAttempt), UtcText.Text(now)) <==> Due(row, UtcText.Instant(now))
  {
    if nextAttempt.Some? {
      UtcText.TextOrderIsTimeOrder(now, nextAttempt.value);
    }
  }

  /** The due rows, each once, in the order of their sequence numbers. */
  ghost predicate IsDueList(rows: map<Key, Row>, now: int, jobs: seq<Row>) {
    && (forall i | 0 <= i < |jobs| :: jobs[i].key in rows && rows[jobs[i].key] == jobs[i] && Due(jobs[i], now))
    && (forall k | k in rows && Due(rows[k], now) :: rows[k] in jobs)
    && (forall i, j | 0 <= i < j < |jobs| :: jobs[i].key != jobs[j].key && jobs[i].key.sequence <= jobs[j].key.sequence)
  }

  /** The first jobs in turn; an exception that is not handled, or a crash, ends the run. */
  function ProcessJobs(inspect: Inspector, d: Durable, jobs: seq<Row>, around: nat -> Surroundings,
                       now: int): (Durable, Exit) {
    if jobs == [] then (d, Finished)
    else
      var n := |jobs| - 1;
      var (before, exit) := ProcessJobs(inspect, d, jobs[..n], around, now);
      if exit != Finished then (before, exit) else ProcessJob(inspect, before, jobs[n], around(n), now)
  }

  function QueuedRow(key: Key, directory: string, interval: nat): Row {
    Row(key, Queued, Path(directory, key), 0, None, None, None, None, interval)
  }

  /** Tracks a tip unless it is tracked already. */
  function TrackRow(rows: map<Key, Row>, key: Key, directory: string, interval: nat, e: Effect): (map<Key, Row>, Exit) {
    (if key in rows || !Happens(e) then rows else rows[key := QueuedRow(key, directory, interval)], ExitOf(e))
  }

  function TrackTip(d: Durable, key: Key, directory: string, interval: nat, e: Effect): (Durable, Exit) {
    var (rows, exit) := TrackRow(d.rows, key, directory, interval, e);
    (d.(rows := rows), exit)
  }
}
