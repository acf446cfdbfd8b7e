/** What holds in every state of every run of the writers, from an empty store on. */
module AppendSafety {
  import opened Prelude
  import opened Lines
  import opened Json
  import opened RecordSchema
  import opened ChainVerifier
  import opened ChainTheorems
  import opened Store
  import opened VerdictsAgree
  import opened Logger
  import opened AppendLog
  import opened AppendProtocol

  const EMPTY := System([], None, map[], [])

  /** One step, while the number of the next record fits in 63 bits. */
  function Continue(c: Setting, s: Option<System>, move: (nat, Action)): Option<System> {
    if s.None? || |AllLines(s.value.data)| >= I64_LIMIT then None else Step(c, s.value, move.0, move.1)
  }

  /** The state after any moves of any writers, in any order; None if some move is not possible. */
  function After(c: Setting, s: System, moves: seq<(nat, Action)>): Option<System> {
    if moves == [] then Some(s) else Continue(c, After(c, s, moves[..|moves| - 1]), moves[|moves| - 1])
  }

  lemma EmptyStoreFits(c: Setting)
    ensures Invariant(c, EMPTY)
  {
  }

  lemma ContinueKeepsInvariant(c: Setting, s: System, move: (nat, Action), t: System)
    requires GoodSetting(c) && Invariant(c, s) && Continue(c, Some(s), move) == Some(t)
    ensures Invariant(c, t)
  {
    StepKeepsInvariant(c, s, move.0, move.1);
  }

  lemma LastMove(c: Setting, s: System, moves: seq<(nat, Action)>, t: System) returns (r: System)
    requires moves != [] && After(c, s, moves) == Some(t)
    ensures After(c, s, moves[..|moves| - 1]) == Some(r) && Continue(c, Some(r), moves[|moves| - 1]) == Some(t)
  {
    r := After(c, s, moves[..|moves| - 1]).value;
  }

  /** The invariant of the protocol holds in every state of every run. */
  lemma {:induction false} RunKeepsInvariant(c: Setting, s: System, moves: seq<(nat, Action)>, t: System)
    requires GoodSetting(c) && Invariant(c, s) && After(c, s, moves) == Some(t)
    ensures Invariant(c, t)
    decreases |moves|
  {
    if moves != [] {
      var r := LastMove(c, s, moves, t);
      RunKeepsInvariant(c, s, moves[..|moves| - 1], r);
      ContinueKeepsInvariant(c, r, moves[|moves| - 1], t);
    }
  }

  lemma RunFromEmpty(c: Setting, moves: seq<(nat, Action)>, t: System)
    requires GoodSetting(c) && After(c, EMPTY, moves) == Some(t)
    ensures Invariant(c, t)
  {
    EmptyStoreFits(c);
    RunKeepsInvariant(c, EMPTY, moves, t);
  }

  // ----- the store is one chain

  /** The hash that the record of a line states for itself. */
  function StatedHash(pf: Platform, line: Bytes): Option<string> {
    match LenientRecord(pf, line)
    case None => None
    case Some(record) => StringField(record, "record_hash")
  }

  /** The hash before record i, as the record before it states it. */
  function HashBefore(pf: Platform, lines: seq<Bytes>, i: nat): Option<string>
    requires i < |lines|
  {
    if i == 0 then Some(GENESIS_HASH) else StatedHash(pf, lines[i - 1])
  }

  lemma LinkedFields(pf: Platform, line: Bytes, st: State, next: State)
    requires LinkLine(pf, line, st) == Ok(next)
    ensures LenientRecord(pf, line).Some?
    ensures var record := LenientRecord(pf, line).value;
            && IntegerField(record, "seq") == Some(st.number) && StringField(record, "prev_hash") == Some(st.prev)
            && StringField(record, "record_hash") == Some(next.prev) && LenientSchema(record) == next.version
            && (st.version.Some? ==> st.version == next.version)
  {
  }

  lemma ReplayPrefix(pf: Platform, lines: seq<Bytes>, k: nat)
    requires Replay(pf, Tip(None), lines).Ok? && k <= |lines|
    ensures Replay(pf, Tip(None), lines[..k]).Ok?
  {
    if Replay(pf, Tip(None), lines[..k]).Err? {
      ReplayKeepsError(pf, Tip(None), lines, k);
    }
  }

  lemma {:induction false} OneVersion(pf: Platform, lines: seq<Bytes>, k: nat)
    requires Replay(pf, Tip(None), lines).Ok? && 0 < k <= |lines| && Replay(pf, Tip(None), lines[..k]).Ok?
    ensures Replay(pf, Tip(None), lines[..k]).value.version == Replay(pf, Tip(None), lines).value.version
    decreases |lines|
  {
    if k == |lines| {
      assert lines[..k] == lines;
    } else {
      var init := lines[..|lines| - 1];
      assert init[..k] == lines[..k];
      OneVersion(pf, init, k);
      VersionIsKept(pf, lines);
    }
  }

  /** The last line has a version, which the lines before it, if any, have too. */
  lemma VersionIsKept(pf: Platform, lines: seq<Bytes>)
    requires Replay(pf, Tip(None), lines).Ok? && |lines| > 1
    ensures Replay(pf, Tip(None), lines[..|lines| - 1]).value.version == Replay(pf, Tip(None), lines).value.version
  {
    var before := Replay(pf, Tip(None), lines[..|lines| - 1]).value;
    ReplayStep(pf, Tip(None), lines, before);
    VersionIsKnown(pf, lines[..|lines| - 1]);
    LinkedFields(pf, lines[|lines| - 1], before, Replay(pf, Tip(None), lines).value);
  }

  lemma VersionIsKnown(pf: Platform, lines: seq<Bytes>)
    requires Replay(pf, Tip(None), lines).Ok? && lines != []
    ensures Replay(pf, Tip(None), lines).value.version.Some?
  {
    var before := Replay(pf, Tip(None), lines[..|lines| - 1]).value;
    ReplayStep(pf, Tip(None), lines, before);
    LinkedVersion(pf, lines[|lines| - 1], before, Replay(pf, Tip(None), lines).value);
  }

  lemma LinkedVersion(pf: Platform, line: Bytes, st: State, next: State)
    requires LinkLine(pf, line, st) == Ok(next)
    ensures next.version.Some?
  {
  }

  lemma LastLineLinks(pf: Platform, lines: seq<Bytes>, st: State, next: State)
    requires lines != [] && Replay(pf, Tip(None), lines[..|lines| - 1]) == Ok(st) &&
             Replay(pf, Tip(None), lines) == Ok(next)
    ensures LinkLine(pf, lines[|lines| - 1], st) == Ok(next) && next.version.Some?
  {
    ReplayStep(pf, Tip(None), lines, st);
    VersionIsKnown(pf, lines);
  }

  /** Line i links the states before and after it. */
  lemma LineLinks(pf: Platform, lines: seq<Bytes>, i: nat) returns (st: State, next: State)
    requires Replay(pf, Tip(None), lines).Ok? && i < |lines|
    ensures Replay(pf, Tip(None), lines[..i]) == Ok(st) && st.number == i
    ensures Replay(pf, Tip(None), lines[..i + 1]) == Ok(next) &&
            next.version == Replay(pf, Tip(None), lines).value.version
    ensures LinkLine(pf, lines[i], st) == Ok(next) && next.version.Some?
  {
    ReplayPrefix(pf, lines, i);
    ReplayPrefix(pf, lines, i + 1);
    OneVersion(pf, lines, i + 1);
    st, next := Replay(pf, Tip(None), lines[..i]).value, Replay(pf, Tip(None), lines[..i + 1]).value;
    assert lines[..i + 1][..i] == lines[..i];
    LastLineLinks(pf, lines[..i + 1], st, next);
  }

  lemma HashAfter(pf: Platform, lines: seq<Bytes>, j: nat, st: State)
    requires Replay(pf, Tip(None), lines).Ok? && j < |lines| && Replay(pf, Tip(None), lines[..j + 1]) == Ok(st)
    ensures StatedHash(pf, lines[j]) == Some(st.prev)
  {
    var before, same := LineLinks(pf, lines, j);
    LinkedFields(pf, lines[j], before, st);
  }

  lemma HashBeforeIs(pf: Platform, lines: seq<Bytes>, i: nat, st: State)
    requires Replay(pf, Tip(None), lines).Ok? && i < |lines| && Replay(pf, Tip(None), lines[..i]) == Ok(st)
    ensures HashBefore(pf, lines, i) == Some(st.prev)
  {
    if i > 0 {
      HashAfter(pf, lines, i - 1, st);
    } else {
      NothingReplayed(pf, lines[..i]);
    }
  }

  lemma NothingReplayed(pf: Platform, lines: seq<Bytes>)
    requires lines == []
    ensures Replay(pf, Tip(None), lines) == Ok(START)
  {
  }

  /** Record i has number i, the chain's one version, and the hash of the record before it. */
  lemma StoreIsChain(pf: Platform, lines: seq<Bytes>, i: nat)
    requires Replay(pf, Tip(None), lines).Ok? && i < |lines|
    ensures LenientRecord(pf, lines[i]).Some?
    ensures var record := LenientRecord(pf, lines[i]).value;
            && IntegerField(record, "seq") == Some(i)
            && LenientSchema(record).Some? && LenientSchema(record) == Replay(pf, Tip(None), lines).value.version
            && StringField(record, "prev_hash") == HashBefore(pf, lines, i)
  {
    var st, next := LineLinks(pf, lines, i);
    LinkedFields(pf, lines[i], st, next);
    HashBeforeIs(pf, lines, i, st);
  }

  // ----- returned records

  lemma StoredRecord(c: Setting, lines: seq<Bytes>, d: Draft)
    requires GoodSetting(c) && GoodLines(c, lines) && IsStored(c, lines, d)
    ensures LenientRecord(c.pf, LineOf(c, d)) == Some(StoredForm(RecordOf(c, d)))
  {
    var st, next := LineLinks(c.pf, lines, d.number);
    LinkedLineIs(c.pf, LineOf(c, d), st, next);
    HeldIsStored(c.pf, d.event, State(d.number, d.prev, None), d.signature, LenientRecord(c.pf, LineOf(c, d)).value);
  }

  /** In every state of every run a returned record is in the store, at its own number and nowhere else. */
  lemma ReturnedExactlyOnce(c: Setting, moves: seq<(nat, Action)>, s: System, k: nat, i: nat)
    requires GoodSetting(c) && After(c, EMPTY, moves) == Some(s) && k < |s.returned| && i < |AllLines(s.data)|
    ensures var d := s.returned[k];
            && d.number < |AllLines(s.data)|
            && (AllLines(s.data)[i] == LineOf(c, d) <==> i == d.number)
            && LenientRecord(c.pf, LineOf(c, d)) == Some(StoredForm(RecordOf(c, d)))
  {
    RunFromEmpty(c, moves, s);
    var d, lines := s.returned[k], AllLines(s.data);
    assert IsStored(c, lines, d);
    StoredRecord(c, lines, d);
    StoreIsChain(c.pf, lines, i);
    StoreIsChain(c.pf, lines, d.number);
  }

  /** No two callers are returned the same sequence number. */
  lemma ReturnedNumbersDiffer(c: Setting, moves: seq<(nat, Action)>, s: System, i: nat, j: nat)
    requires GoodSetting(c) && After(c, EMPTY, moves) == Some(s) && i < j < |s.returned|
    ensures s.returned[i].number < s.returned[j].number
  {
    RunFromEmpty(c, moves, s);
  }

  // ----- torn lines

  /** The last line is torn, and no writer is still writing it. */
  predicate Torn(s: System) {
    Unterminated(s.data) != [] && (s.holder.Some? ==> !PhaseOf(s, s.holder.value).Writing?)
  }

  lemma TornTip(c: Setting, s: System, w: nat, event: seq<Member>)
    requires Torn(s) && s.holder == Some(w)
    ensures Torn(AfterTip(c, s, w, event)) && AfterTip(c, s, w, event).returned == s.returned
  {
  }

  /** Nobody has read the tip of a torn store. */
  lemma TornIsRefused(c: Setting, s: System, w: nat)
    requires Invariant(c, s) && Torn(s) && InLock(PhaseOf(s, w))
    ensures s.holder == Some(w) && PhaseOf(s, w).Holding?
  {
    InLockHolds(s, w);
  }

  lemma TornStep(c: Setting, s: System, w: nat, a: Action, t: System)
    requires Invariant(c, s) && Torn(s) && Step(c, s, w, a) == Some(t)
    ensures Torn(t) && t.data == s.data && t.returned == s.returned
  {
    if InLock(PhaseOf(s, w)) {
      TornIsRefused(c, s, w);
      TornHolderStep(c, s, w, a, t);
    } else {
      TornWaiterStep(c, s, w, a, t);
    }
  }

  lemma TornHolderStep(c: Setting, s: System, w: nat, a: Action, t: System)
    requires Torn(s) && s.holder == Some(w) && PhaseOf(s, w).Holding? && Step(c, s, w, a) == Some(t)
    ensures Torn(t) && t.data == s.data && t.returned == s.returned
  {
    if a.ReadTip? {
      TornTip(c, s, w, PhaseOf(s, w).event);
    }
  }

  lemma TornWaiterStep(c: Setting, s: System, w: nat, a: Action, t: System)
    requires Torn(s) && !InLock(PhaseOf(s, w)) && Step(c, s, w, a) == Some(t)
    ensures Torn(t) && t.data == s.data && t.returned == s.returned
  {
  }

  /** A torn line makes every later append refuse: the store never changes again. */
  lemma {:induction false} TornStaysTorn(c: Setting, s: System, moves: seq<(nat, Action)>, t: System)
    requires GoodSetting(c) && Invariant(c, s) && Torn(s) && After(c, s, moves) == Some(t)
    ensures Torn(t) && t.data == s.data && t.returned == s.returned
    decreases |moves|
  {
    if moves != [] {
      var r := LastMove(c, s, moves, t);
      TornStaysTorn(c, s, moves[..|moves| - 1], r);
      RunKeepsInvariant(c, s, moves[..|moves| - 1], r);
      TornStep(c, r, moves[|moves| - 1].0, moves[|moves| - 1].1, t);
    }
  }

  // ----- one append from start to end

  lemma TipReads(c: Setting, s: System, w: nat, event: seq<Member>, read: State) returns (t: System)
    requires PhaseOf(s, w) == Holding(event)
    requires ReadStore(c.pf, Tip(EventSchema(event)), s.data) == Ok(read)
    ensures Step(c, s, w, ReadTip) == Some(t) && PhaseOf(t, w) == TipRead(event, read.number, read.prev)
    ensures t.data == s.data && t.returned == s.returned
  {
    t := AfterTip(c, s, w, event);
  }

  lemma SignerSeals(c: Setting, s: System, w: nat, event: seq<Member>, number: nat, prev: string) returns (t: System)
    requires PhaseOf(s, w) == TipRead(event, number, prev) && |DraftFor(c, event, number, prev).signature| == 64
    ensures Step(c, s, w, Seal) == Some(t) && PhaseOf(t, w) == Writing(DraftFor(c, event, number, prev), 0)
    ensures t.data == s.data && t.returned == s.returned
  {
    t := AfterSeal(c, s, w, DraftFor(c, event, number, prev));
  }

  lemma AppendEnds(c: Setting, s: System, w: nat, d: Draft) returns (written: System, t: System)
    requires PhaseOf(s, w) == Writing(d, 0)
    ensures Step(c, s, w, Write(|LineOf(c, d)| + 1)) == Some(written) && Step(c, written, w, Return) == Some(t)
    ensures t.data == s.data + Kept(LineOf(c, d), Durable) && t.returned == s.returned + [d] && t.holder.None?
  {
    var encoded := LineOf(c, d) + [LF];
    assert encoded[0..|encoded|] == encoded;
    written := AfterWrite(c, s, w, d, 0, |encoded|);
    t := AfterReturn(written, w, d);
  }

  /** The steps of one writer that nothing interrupts do what an append with the lock held does. */
  lemma UninterruptedAppend(c: Setting, s: System, w: nat, event: seq<Member>, read: State)
      returns (held: System, linked: System, sealed: System, written: System, t: System)
    requires PhaseOf(s, w) == Waiting(event) && s.holder.None?
    requires ReadStore(c.pf, Tip(EventSchema(event)), s.data) == Ok(read)
    requires |DraftFor(c, event, read.number, read.prev).signature| == 64
    ensures var d := DraftFor(c, event, read.number, read.prev);
            && Step(c, s, w, Acquire) == Some(held) && Step(c, held, w, ReadTip) == Some(linked)
            && Step(c, linked, w, Seal) == Some(sealed)
            && Step(c, sealed, w, Write(|LineOf(c, d)| + 1)) == Some(written)
            && Step(c, written, w, Return) == Some(t)
            && t.data == s.data + Kept(LineOf(c, d), Durable) && t.returned == s.returned + [d] && t.holder.None?
  {
    var d := DraftFor(c, event, read.number, read.prev);
    held := AfterAcquire(s, w, event);
    linked := TipReads(c, held, w, event, read);
    sealed := SignerSeals(c, linked, w, event, read.number, read.prev);
    written, t := AppendEnds(c, sealed, w, d);
  }
}
