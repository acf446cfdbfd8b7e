/** Runs of the worker over the life of a chain: what all of them together guarantee. */
module AnchorRuns {
  import opened Prelude
  import opened ChainVerifier
  import opened ChainTheorems
  import opened Store
  import opened AppendSafety
  import opened RetrySchedule
  import opened AnchorLifecycle
  import opened AnchorSafety
  import opened AnchorWorker
  import AppendLog
  import Hex

  /** The tip of a chain that is not empty, if the whole chain is valid. */
  function Snapshot(pf: Platform, chain: Bytes): Option<Key> {
    var read := ReadStore(pf, Tip(None), chain);
    if read.Err? || read.value.number == 0 then None else Some(Key(read.value.number - 1, read.value.prev))
  }

  method SnapshotTip(pf: Platform, chain: Bytes) returns (r: Option<Key>)
    ensures r == Snapshot(pf, chain)
  {
    var tip := NextTip(pf, chain, None);
    if tip.Err? || tip.value.0 == 0 {
      return None;
    }
    r := Some(Key(tip.value.0 - 1, tip.value.1));
  }

  /** Everything that a run meets from outside. */
  datatype Occasion = Occasion(
    chain: Bytes, directory: string, interval: nat, track: Effect, around: nat -> Surroundings, now: int)

  ghost predicate WorkerRun(pf: Platform, inspect: Inspector, d: Durable, e: Durable, o: Occasion) {
    match Snapshot(pf, o.chain)
    case None => e == d
    case Some(key) => exists exit :: IsRun(inspect, d, e, exit, key, o.directory, o.interval, o.track, o.around, o.now)
  }

  /** One invocation of the worker: without a tip to anchor it does nothing. */
  method RunWorker(pf: Platform, worker: Worker, o: Occasion) returns (exit: Exit)
    requires worker.Valid()
    modifies worker.store, worker.files
    ensures worker.Valid() && WorkerRun(pf, worker.inspect, old(worker.State()), worker.State(), o)
    ensures Snapshot(pf, o.chain).None? ==> exit == Raised(OtherFault)
  {
    var key := SnapshotTip(pf, o.chain);
    if key.None? {
      return Raised(OtherFault);
    }
    var processed;
    exit, processed := worker.RunOnce(key.value, o.directory, o.interval, o.track, o.around, o.now);
  }

  // ----- histories

  const NOTHING := Durable(map[], map[], [])

  ghost predicate RunAt(pf: Platform, inspect: Inspector, states: seq<Durable>, occasions: seq<Occasion>, i: nat)
    requires |states| == |occasions| + 1 && i < |occasions|
  {
    WorkerRun(pf, inspect, states[i], states[i + 1], occasions[i])
  }

  /** The states between runs, one worker at a time, from an empty database on. */
  ghost predicate IsHistory(pf: Platform, inspect: Inspector, states: seq<Durable>, occasions: seq<Occasion>) {
    && |states| == |occasions| + 1 && states[0] == NOTHING
    && forall i | 0 <= i < |occasions| :: RunAt(pf, inspect, states, occasions, i)
  }

  lemma RunSound(pf: Platform, inspect: Inspector, d: Durable, e: Durable, o: Occasion)
    requires Sound(inspect, d) && WorkerRun(pf, inspect, d, e, o)
    ensures Sound(inspect, e) && Advances(inspect, d, e)
    ensures forall k | k in e.rows && k !in d.rows :: Snapshot(pf, o.chain) == Some(k)
  {
    if Snapshot(pf, o.chain).Some? {
      var key := Snapshot(pf, o.chain).value;
      var exit :| IsRun(inspect, d, e, exit, key, o.directory, o.interval, o.track, o.around, o.now);
      RunKeepsSound(inspect, d, e, exit, key, o.directory, o.interval, o.track, o.around, o.now);
    } else {
      AdvancesReflexive(inspect, d);
    }
  }

  lemma SoundStep(pf: Platform, inspect: Inspector, states: seq<Durable>, occasions: seq<Occasion>, i: nat)
    requires IsHistory(pf, inspect, states, occasions) && i < |occasions| && Sound(inspect, states[i])
    ensures Sound(inspect, states[i + 1])
  {
    assert RunAt(pf, inspect, states, occasions, i);
    RunSound(pf, inspect, states[i], states[i + 1], occasions[i]);
  }

  lemma {:induction false} HistoryKeepsSound(pf: Platform, inspect: Inspector, states: seq<Durable>,
                                             occasions: seq<Occasion>, i: nat)
    requires IsHistory(pf, inspect, states, occasions) && i < |states|
    ensures Sound(inspect, states[i])
  {
    if i > 0 {
      HistoryKeepsSound(pf, inspect, states, occasions, i - 1);
      SoundStep(pf, inspect, states, occasions, i - 1);
    }
  }

  // ----- what proofs are bound to

  /** The proof passes inspection for the digest that the hash writes in hexadecimal. */
  ghost predicate BoundTo(inspect: Inspector, proof: Bytes, hash: string) {
    exists digest: Bytes :: |digest| == 32 && Hex.Encode(digest) == hash && inspect(proof, digest).Some?
  }

  /** And it has a Bitcoin attestation for that digest. */
  ghost predicate AttestedFor(inspect: Inspector, proof: Bytes, hash: string) {
    exists digest: Bytes :: |digest| == 32 && Hex.Encode(digest) == hash && inspect(proof, digest) == Some(true)
  }

  lemma SnapshotIsHash(pf: Platform, chain: Bytes)
    requires Snapshot(pf, chain).Some?
    ensures Hex.IsLowerHex(Snapshot(pf, chain).value.tipHash, 64)
  {
    AppendLog.ReplayedState(pf, None, AllLines(chain));
  }

  lemma NewKeyIsHash(pf: Platform, inspect: Inspector, states: seq<Durable>, occasions: seq<Occasion>, i: nat, k: Key)
    requires IsHistory(pf, inspect, states, occasions) && i < |occasions|
    requires k in states[i + 1].rows && k !in states[i].rows
    ensures Hex.IsLowerHex(k.tipHash, 64)
  {
    HistoryKeepsSound(pf, inspect, states, occasions, i);
    assert RunAt(pf, inspect, states, occasions, i);
    RunSound(pf, inspect, states[i], states[i + 1], occasions[i]);
    SnapshotIsHash(pf, occasions[i].chain);
  }

  /** Every tracked tip is a hash. */
  lemma {:induction false} TrackedKeysAreHashes(pf: Platform, inspect: Inspector, states: seq<Durable>,
                                                occasions: seq<Occasion>, i: nat, k: Key)
    requires IsHistory(pf, inspect, states, occasions) && i < |states| && k in states[i].rows
    ensures Hex.IsLowerHex(k.tipHash, 64)
  {
    if i > 0 {
      if k in states[i - 1].rows {
        TrackedKeysAreHashes(pf, inspect, states, occasions, i - 1, k);
      } else {
        NewKeyIsHash(pf, inspect, states, occasions, i - 1, k);
      }
    }
  }

  lemma InspectedIsBound(inspect: Inspector, proof: Bytes, key: Key)
    requires Hex.IsLowerHex(key.tipHash, 64)
    ensures Inspect(inspect, proof, key).Some? ==> BoundTo(inspect, proof, key.tipHash)
    ensures Inspect(inspect, proof, key) == Some(true) ==> AttestedFor(inspect, proof, key.tipHash)
  {
    Hex.EncodeDecoded(key.tipHash, 32);
    assert Hex.Encode(Hex.Decode(key.tipHash, 32)) == key.tipHash;
  }

  /** What a row says about its file. */
  ghost predicate RowIsTrue(inspect: Inspector, d: Durable, row: Row) {
    && (row.state == SubmittedPending || row.retryFrom == Some(SubmittedPending) || row.state == UpgradedUnverified ==>
          row.path in d.proofs)
    && (row.state == UpgradedUnverified ==>
          row.path in d.proofs && AttestedFor(inspect, d.proofs[row.path], row.key.tipHash))
    && row.state != IndependentlyVerified
  }

  /**
   In every state of every history each proof file is bound to the hash in its name, which is that
   of a tracked row; a row that is or was pending has its file, and an upgraded row's file attests.
   */
  lemma HistoryIsSound(pf: Platform, inspect: Inspector, states: seq<Durable>, occasions: seq<Occasion>, i: nat)
    requires IsHistory(pf, inspect, states, occasions) && i < |states|
    ensures forall p | p in states[i].proofs ::
              && p.name in states[i].rows && states[i].rows[p.name].path == p
              && BoundTo(inspect, states[i].proofs[p], p.name.tipHash)
    ensures forall k | k in states[i].rows ::
              && states[i].rows[k].key == k && states[i].rows[k].path.name == k
              && RowIsTrue(inspect, states[i], states[i].rows[k])
  {
    HistoryKeepsSound(pf, inspect, states, occasions, i);
    var d := states[i];
    forall p | p in d.proofs
      ensures p.name in d.rows && d.rows[p.name].path == p && BoundTo(inspect, d.proofs[p], p.name.tipHash)
    {
      assert HasRow(d, p) && RowFits(inspect, d, p.name);
      TrackedKeysAreHashes(pf, inspect, states, occasions, i, p.name);
      InspectedIsBound(inspect, d.proofs[p], p.name);
    }
    forall k | k in d.rows
      ensures d.rows[k].key == k && d.rows[k].path.name == k && RowIsTrue(inspect, d, d.rows[k])
    {
      assert RowFits(inspect, d, k);
      TrackedKeysAreHashes(pf, inspect, states, occasions, i, k);
      if d.rows[k].state == UpgradedUnverified {
        InspectedIsBound(inspect, d.proofs[d.rows[k].path], k);
      }
    }
  }

  lemma RunAdvances(pf: Platform, inspect: Inspector, states: seq<Durable>, occasions: seq<Occasion>, i: nat)
    requires IsHistory(pf, inspect, states, occasions) && i < |occasions|
    ensures Advances(inspect, states[i], states[i + 1])
  {
    HistoryKeepsSound(pf, inspect, states, occasions, i);
    assert RunAt(pf, inspect, states, occasions, i);
    RunSound(pf, inspect, states[i], states[i + 1], occasions[i]);
  }

  /** One state after another, each an advance on the one before it. */
  ghost predicate Ascends(inspect: Inspector, states: seq<Durable>) {
    forall i | 0 <= i < |states| - 1 :: AdvancesAt(inspect, states, i)
  }

  ghost predicate AdvancesAt(inspect: Inspector, states: seq<Durable>, i: nat)
    requires i + 1 < |states|
  {
    Advances(inspect, states[i], states[i + 1])
  }

  lemma {:induction false} AscentAdvances(inspect: Inspector, states: seq<Durable>, i: nat, j: nat)
    requires Ascends(inspect, states) && i <= j < |states|
    ensures Advances(inspect, states[i], states[j])
    decreases j
  {
    if i == j {
      AdvancesReflexive(inspect, states[i]);
    } else {
      AscentAdvances(inspect, states, i, j - 1);
      assert AdvancesAt(inspect, states, j - 1);
      AdvancesTransitive(inspect, states[i], states[j - 1], states[j]);
    }
  }

  /** From any state to any later one, nothing goes back. */
  lemma HistoryAdvances(pf: Platform, inspect: Inspector, states: seq<Durable>, occasions: seq<Occasion>, i: nat,
                        j: nat)
    requires IsHistory(pf, inspect, states, occasions) && i <= j < |states|
    ensures Advances(inspect, states[i], states[j])
  {
    forall k | 0 <= k < |states| - 1
      ensures AdvancesAt(inspect, states, k)
    {
      RunAdvances(pf, inspect, states, occasions, k);
    }
    AscentAdvances(inspect, states, i, j);
  }

  /**
   A published proof stays bound to its tip, and no stamp is ever requested for that tip again, in
   whatever directory.
   */
  lemma PublishedProofsStay(pf: Platform, inspect: Inspector, states: seq<Durable>, occasions: seq<Occasion>,
                            i: nat, j: nat, p: Path, n: nat)
    requires IsHistory(pf, inspect, states, occasions) && i <= j < |states| && p in states[i].proofs
    ensures p in states[j].proofs && BoundTo(inspect, states[j].proofs[p], p.name.tipHash)
    ensures |states[i].stamps| <= n < |states[j].stamps| ==> states[j].stamps[n].name != p.name
  {
    HistoryAdvances(pf, inspect, states, occasions, i, j);
    HistoryKeepsSound(pf, inspect, states, occasions, j);
    FilesAreBound(inspect, states[i], states[j], p);
    TrackedKeysAreHashes(pf, inspect, states, occasions, j, p.name);
    InspectedIsBound(inspect, states[j].proofs[p], p.name);
    if |states[i].stamps| <= n < |states[j].stamps| {
      assert HasRow(states[j], p) && HasRow(states[j], states[j].stamps[n]);
    }
  }

  lemma FilesAreBound(inspect: Inspector, d: Durable, e: Durable, p: Path)
    requires Sound(inspect, e) && Advances(inspect, d, e) && p in d.proofs
    ensures p in e.proofs && p.name in e.rows && Inspect(inspect, e.proofs[p], p.name).Some?
  {
    assert FileAdvances(inspect, p.name, FileAt(d.proofs, p), FileAt(e.proofs, p));
    assert HasRow(e, p);
    assert RowFits(inspect, e, p.name);
  }

  /** Assurance never goes down, is never made up, and an integrity failure is final. */
  lemma AssuranceNeverFalls(pf: Platform, inspect: Inspector, states: seq<Durable>, occasions: seq<Occasion>,
                            i: nat, j: nat, k: Key, t: int)
    requires IsHistory(pf, inspect, states, occasions) && i <= j < |states| && k in states[i].rows
    ensures k in states[j].rows
    ensures var row, later := states[i].rows[k], states[j].rows[k];
            && Level(row) <= Level(later) && later.state != IndependentlyVerified
            && (later.failure.Some? <==> later.state == RetryFailed)
            && (row.failure == Some(Integrity) ==> later == row && !Due(later, t))
            && (Level(later) >= 1 ==> later.path in states[j].proofs)
            && (Level(later) >= 2 ==> AttestedFor(inspect, states[j].proofs[later.path], k.tipHash))
  {
    HistoryAdvances(pf, inspect, states, occasions, i, j);
    HistoryKeepsSound(pf, inspect, states, occasions, j);
    RowAssured(inspect, states[i], states[j], k, t);
    var later := states[j].rows[k];
    TrackedKeysAreHashes(pf, inspect, states, occasions, j, k);
    if Level(later) >= 2 {
      InspectedIsBound(inspect, states[j].proofs[later.path], k);
    }
  }

  lemma RowAssured(inspect: Inspector, d: Durable, e: Durable, k: Key, t: int)
    requires Sound(inspect, e) && Advances(inspect, d, e) && k in d.rows
    ensures k in e.rows
    ensures var row, later := d.rows[k], e.rows[k];
            && Level(row) <= Level(later) && later.state != IndependentlyVerified
            && (later.failure.Some? <==> later.state == RetryFailed)
            && (row.failure == Some(Integrity) ==> later == row && !Due(later, t))
            && (Level(later) >= 1 ==> later.path in e.proofs)
            && (Level(later) >= 2 ==> Inspect(inspect, e.proofs[later.path], k) == Some(true))
  {
    assert RowFits(inspect, e, k);
    EveryOtherRowBecomesDue(e.rows[k], t);
  }

  /** Row `k` is not due in any of the runs from `i` to `j`. */
  predicate NeverDue(row: Row, occasions: seq<Occasion>, i: nat, j: nat) {
    forall n | i <= n < j && n < |occasions| :: !Due(row, occasions[n].now)
  }

  lemma UndueRowRests(pf: Platform, inspect: Inspector, d: Durable, e: Durable, o: Occasion, k: Key)
    requires Sound(inspect, d) && WorkerRun(pf, inspect, d, e, o) && k in d.rows && !Due(d.rows[k], o.now)
    ensures RowRests(d, e, k)
  {
    if Snapshot(pf, o.chain).Some? {
      var key := Snapshot(pf, o.chain).value;
      var exit :| IsRun(inspect, d, e, exit, key, o.directory, o.interval, o.track, o.around, o.now);
      RunLeavesRow(inspect, d, e, exit, key, o.directory, o.interval, o.track, o.around, o.now, k);
    }
  }

  lemma UndueStep(pf: Platform, inspect: Inspector, states: seq<Durable>, occasions: seq<Occasion>, n: nat, k: Key)
    requires IsHistory(pf, inspect, states, occasions) && n < |occasions|
    requires k in states[n].rows && !Due(states[n].rows[k], occasions[n].now)
    ensures RowRests(states[n], states[n + 1], k)
  {
    HistoryKeepsSound(pf, inspect, states, occasions, n);
    assert RunAt(pf, inspect, states, occasions, n);
    UndueRowRests(pf, inspect, states[n], states[n + 1], occasions[n], k);
  }

  lemma RestsOn(a: Durable, b: Durable, c: Durable, k: Key)
    requires k in a.rows && RowRests(a, b, k) && RowRests(b, c, k)
    ensures RowRests(a, c, k)
  {
  }

  lemma {:induction false} UndueRowsRest(pf: Platform, inspect: Inspector, states: seq<Durable>,
                                         occasions: seq<Occasion>, i: nat, j: nat, k: Key)
    requires IsHistory(pf, inspect, states, occasions) && i <= j < |states|
    requires k in states[i].rows && NeverDue(states[i].rows[k], occasions, i, j)
    ensures RowRests(states[i], states[j], k)
    decreases j
  {
    if i < j {
      UndueRowsRest(pf, inspect, states, occasions, i, j - 1, k);
      UndueStep(pf, inspect, states, occasions, j - 1, k);
      RestsOn(states[i], states[j - 1], states[j], k);
    }
  }

  /** A transient failure waits: until its next attempt has come, no run touches the row or its file. */
  lemma RetryWaits(pf: Platform, inspect: Inspector, states: seq<Durable>, occasions: seq<Occasion>, i: nat, j: nat,
                   k: Key)
    requires IsHistory(pf, inspect, states, occasions) && i <= j < |states|
    requires k in states[i].rows && states[i].rows[k].failure == Some(Transient)
    requires states[i].rows[k].nextAttempt.Some? ==>
               forall n | i <= n < j :: occasions[n].now < states[i].rows[k].nextAttempt.value
    ensures RowRests(states[i], states[j], k) && states[i].rows[k].nextAttempt.Some?
  {
    HistoryKeepsSound(pf, inspect, states, occasions, i);
    assert RowFits(inspect, states[i], k);
    UndueRowsRest(pf, inspect, states, occasions, i, j, k);
  }

  /** The bounds of the schedule for a row that has failed, counted from the failure. */
  function EarliestRetry(row: Row): int {
    if row.lastAttempt.None? || row.attempts == 0 then 0
    else row.lastAttempt.value + CappedDelay(row.attempts) * 1000000
  }

  function LatestRetry(row: Row): int {
    if row.lastAttempt.None? || row.attempts == 0 then 0
    else row.lastAttempt.value + CappedDelay(row.attempts) * 1250000
  }

  /**
   In every history the n-th failure of a row keeps every run away from it for at least
   min(900 * 2^(n-1), 86400) seconds, and the row is due when a quarter more has passed.
   */
  lemma RetryKeepsToSchedule(pf: Platform, inspect: Inspector, states: seq<Durable>, occasions: seq<Occasion>,
                             i: nat, j: nat, k: Key, t: int)
    requires IsHistory(pf, inspect, states, occasions) && i <= j < |states|
    requires k in states[i].rows && states[i].rows[k].failure == Some(Transient)
    ensures (forall n | i <= n < j :: occasions[n].now < EarliestRetry(states[i].rows[k])) ==>
              RowRests(states[i], states[j], k)
    ensures LatestRetry(states[i].rows[k]) <= t ==> Due(states[i].rows[k], t)
  {
    HistoryKeepsSound(pf, inspect, states, occasions, i);
    assert RowFits(inspect, states[i], k);
    if forall n | i <= n < j :: occasions[n].now < EarliestRetry(states[i].rows[k]) {
      RetryWaits(pf, inspect, states, occasions, i, j, k);
    }
  }

  // ----- tracked rows and the chain

  /** The tip of a row is the hash of the record at the row's sequence number. */
  predicate TrueTip(pf: Platform, lines: seq<Bytes>, k: Key) {
    k.sequence < |lines| && StatedHash(pf, lines[k.sequence]) == Some(k.tipHash)
  }

  lemma SnapshotIsTrue(pf: Platform, chain: Bytes)
    requires Snapshot(pf, chain).Some?
    ensures TrueTip(pf, AllLines(chain), Snapshot(pf, chain).value)
  {
    var lines := AllLines(chain);
    assert lines[..|lines| - 1 + 1] == lines;
    HashAfter(pf, lines, |lines| - 1, Replay(pf, Tip(None), lines).value);
  }

  ghost predicate GrowsAt(occasions: seq<Occasion>, i: nat)
    requires i + 1 < |occasions|
  {
    AllLines(occasions[i].chain) <= AllLines(occasions[i + 1].chain)
  }

  /** Each run finds the chain of the run before it, with or without further records. */
  ghost predicate AppendOnly(occasions: seq<Occasion>) {
    forall i | 0 <= i < |occasions| - 1 :: GrowsAt(occasions, i)
  }

  lemma NewRowIsTip(pf: Platform, inspect: Inspector, states: seq<Durable>, occasions: seq<Occasion>, i: nat, k: Key)
    requires IsHistory(pf, inspect, states, occasions) && i < |occasions| && k in states[i + 1].rows
    ensures k in states[i].rows || TrueTip(pf, AllLines(occasions[i].chain), k)
  {
    HistoryKeepsSound(pf, inspect, states, occasions, i);
    assert RunAt(pf, inspect, states, occasions, i);
    RunSound(pf, inspect, states[i], states[i + 1], occasions[i]);
    if k !in states[i].rows {
      SnapshotIsTrue(pf, occasions[i].chain);
    }
  }

  /** On an append-only chain every tracked row stays true, in every later state. */
  lemma {:induction false} TrackedRowsStayTrue(pf: Platform, inspect: Inspector, states: seq<Durable>,
                                               occasions: seq<Occasion>, i: nat, k: Key)
    requires IsHistory(pf, inspect, states, occasions) && AppendOnly(occasions) && i < |occasions| &&
             k in states[i + 1].rows
    ensures TrueTip(pf, AllLines(occasions[i].chain), k)
  {
    NewRowIsTip(pf, inspect, states, occasions, i, k);
    if k in states[i].rows && i > 0 {
      TrackedRowsStayTrue(pf, inspect, states, occasions, i - 1, k);
      assert GrowsAt(occasions, i - 1);
    }
  }

  /** So there is at most one row for each sequence number, however often the worker runs. */
  lemma OneRowPerSequence(pf: Platform, inspect: Inspector, states: seq<Durable>, occasions: seq<Occasion>, i: nat,
                          k: Key, m: Key)
    requires IsHistory(pf, inspect, states, occasions) && AppendOnly(occasions) && i < |states|
    requires k in states[i].rows && m in states[i].rows && k.sequence == m.sequence
    ensures k == m
  {
    if i > 0 {
      TrackedRowsStayTrue(pf, inspect, states, occasions, i - 1, k);
      TrackedRowsStayTrue(pf, inspect, states, occasions, i - 1, m);
    }
  }
}
