/** Which events the lines of a store come from, and what that says about the verdicts on the store. */
module BuiltStores {
  import opened Prelude
  import opened Lines
  import opened Json
  import opened StrictJson
  import opened RecordSchema
  import opened ChainVerifier
  import opened ChainTheorems
  import opened Store
  import opened VerdictsAgree
  import opened AppendLog
  import opened AppendProtocol
  import opened AppendSafety
  import opened WriterSteps

  function CompletedBy(c: Setting, s: Option<System>, move: (nat, Action)): seq<Draft> {
    if s.None? then []
    else
      match Completed(c, s.value, move.0, move.1)
      case None => []
      case Some(d) => [d]
  }

  /** The drafts whose lines the moves complete, in order. */
  function Written(c: Setting, moves: seq<(nat, Action)>): seq<Draft> {
    if moves == [] then []
    else
      var init := moves[..|moves| - 1];
      Written(c, init) + CompletedBy(c, After(c, EMPTY, init), moves[|moves| - 1])
  }

  /** Line i is that of draft i. */
  ghost predicate AreDrafts(c: Setting, lines: seq<Bytes>, drafts: seq<Draft>) {
    |drafts| == |lines| &&
    forall i | 0 <= i < |drafts| :: IsStored(c, lines, drafts[i]) && drafts[i].number == i
  }

  lemma DraftsExtend(c: Setting, lines: seq<Bytes>, drafts: seq<Draft>, d: Draft, line: Bytes)
    requires AreDrafts(c, lines, drafts) && IsStored(c, lines + [line], d) && d.number == |lines|
    ensures AreDrafts(c, lines + [line], drafts + [d])
  {
    forall i | 0 <= i < |drafts|
      ensures IsStored(c, lines + [line], drafts[i])
    {
      assert IsStored(c, lines, drafts[i]);
    }
  }

  lemma DraftsAfter(c: Setting, s: System, move: (nat, Action), t: System, drafts: seq<Draft>)
    requires GoodSetting(c) && Invariant(c, s) && Step(c, s, move.0, move.1) == Some(t)
    requires AreDrafts(c, AllLines(s.data), drafts)
    ensures AreDrafts(c, AllLines(t.data), drafts + CompletedBy(c, Some(s), move))
  {
    LinesAfter(c, s, move.0, move.1, t);
    var completed := Completed(c, s, move.0, move.1);
    if completed.Some? {
      CompletedDraft(c, s, move.0, move.1, t);
      DraftsExtend(c, AllLines(s.data), drafts, completed.value, LineOf(c, completed.value));
    } else {
      assert drafts + [] == drafts && AllLines(s.data) + [] == AllLines(s.data);
    }
  }

  /** In every run the lines of the store are those of the written drafts, in order. */
  lemma {:induction false} LinesAreWritten(c: Setting, moves: seq<(nat, Action)>, t: System)
    requires GoodSetting(c) && After(c, EMPTY, moves) == Some(t)
    ensures AreDrafts(c, AllLines(t.data), Written(c, moves))
    decreases |moves|
  {
    if moves != [] {
      var s := LastMove(c, EMPTY, moves, t);
      LinesAreWritten(c, moves[..|moves| - 1], s);
      RunFromEmpty(c, moves[..|moves| - 1], s);
      DraftsAfter(c, s, moves[|moves| - 1], t, Written(c, moves[..|moves| - 1]));
    }
  }

  // ----- every written event was given to a writer

  predicate Requested(moves: seq<(nat, Action)>, event: seq<Member>) {
    exists k | 0 <= k < |moves| :: moves[k].1 == Request(event)
  }

  lemma RequestedBefore(moves: seq<(nat, Action)>, event: seq<Member>)
    requires moves != [] && Requested(moves[..|moves| - 1], event)
    ensures Requested(moves, event)
  {
    var init := moves[..|moves| - 1];
    var k :| 0 <= k < |init| && init[k].1 == Request(event);
    assert moves[k].1 == Request(event);
  }

  /** A writer is busy with an event that it was given. */
  lemma {:induction false} BusyWasRequested(c: Setting, moves: seq<(nat, Action)>, t: System, w: nat)
    requires After(c, EMPTY, moves) == Some(t) && !PhaseOf(t, w).Idle?
    ensures Requested(moves, EventAt(PhaseOf(t, w)))
    decreases |moves|
  {
    if moves != [] {
      var s := LastMove(c, EMPTY, moves, t);
      var (v, a) := moves[|moves| - 1];
      if v != w {
        OthersStay(c, s, v, a, t, w);
      } else {
        EventStays(c, s, w, a, t);
      }
      if v != w || !a.Request? {
        BusyWasRequested(c, moves[..|moves| - 1], s, w);
        RequestedBefore(moves, EventAt(PhaseOf(t, w)));
      }
    }
  }

  lemma {:induction false} WrittenWasRequested(c: Setting, moves: seq<(nat, Action)>, t: System, i: nat)
    requires GoodSetting(c) && After(c, EMPTY, moves) == Some(t) && i < |Written(c, moves)|
    ensures Requested(moves, Written(c, moves)[i].event)
    decreases |moves|
  {
    var init, last := moves[..|moves| - 1], moves[|moves| - 1];
    var s := LastMove(c, EMPTY, moves, t);
    if i < |Written(c, init)| {
      WrittenWasRequested(c, init, s, i);
    } else {
      RunFromEmpty(c, init, s);
      CompletedDraft(c, s, last.0, last.1, t);
      BusyWasRequested(c, init, s, last.0);
    }
    RequestedBefore(moves, Written(c, moves)[i].event);
  }

  // ----- the verdicts, decided by the events

  /** The strict parser reads back every float of every event. */
  predicate EventsFixed(drafts: seq<Draft>, read: Reading) {
    forall i | 0 <= i < |drafts| :: FloatsFixed(Obj(drafts[i].event), read)
  }

  lemma {:induction false} AllFixedIs(pf: Platform, lines: seq<Bytes>)
    ensures AllFixed(pf, lines) <==> forall i | 0 <= i < |lines| :: LineFixed(pf, lines[i])
  {
    if lines != [] {
      var init := lines[..|lines| - 1];
      AllFixedIs(pf, init);
      assert forall i | 0 <= i < |init| :: init[i] == lines[i];
    }
  }

  lemma DraftIsFixed(c: Setting, lines: seq<Bytes>, d: Draft)
    requires GoodSetting(c) && GoodLines(c, lines) && IsStored(c, lines, d)
    ensures LineFixed(c.pf, lines[d.number]) <==> FloatsFixed(Obj(d.event), c.pf.strictRead)
  {
    StoredRecord(c, lines, d);
    LineIsFixed(c, d);
  }

  lemma FixedByEvents(c: Setting, lines: seq<Bytes>, drafts: seq<Draft>)
    requires GoodSetting(c) && GoodLines(c, lines) && AreDrafts(c, lines, drafts)
    ensures AllFixed(c.pf, lines) <==> EventsFixed(drafts, c.pf.strictRead)
  {
    AllFixedIs(c.pf, lines);
    forall i | 0 <= i < |lines|
      ensures LineFixed(c.pf, lines[i]) <==> FloatsFixed(Obj(drafts[i].event), c.pf.strictRead)
    {
      assert IsStored(c, lines, drafts[i]);
      DraftIsFixed(c, lines, drafts[i]);
    }
  }

  /**
   With a correct signer and events that both parsers can enter, every store that the writers
   build, unless its last line is torn, is accepted by the writer's verifier; and by the strict
   one, with the same count and tip, exactly if the strict parser reads back every float of
   every event whose line was written.
   */
  lemma BuiltStoreVerifies(c: Setting, moves: seq<(nat, Action)>, t: System) returns (st: State)
    requires GoodSetting(c) && GoodPlatform(c.pf) && CorrectSigner(c, c.pf.strictVerify) && c.limit <= STRICT_NESTING
    requires After(c, EMPTY, moves) == Some(t) && Unterminated(t.data) == []
    ensures ReadStore(c.pf, Verification, t.data) == Ok(st) && st.number == |AllLines(t.data)|
    ensures VerifyStream(c.pf, t.data).Ok? <==> EventsFixed(Written(c, moves), c.pf.strictRead)
    ensures VerifyStream(c.pf, t.data).Ok? ==> VerifyStream(c.pf, t.data) == Ok(Report(st.number, TipOf(st)))
  {
    RunFromEmpty(c, moves, t);
    LinesAreWritten(c, moves, t);
    FixedByEvents(c, AllLines(t.data), Written(c, moves));
    st := BothVerifiersAccept(c, t.data);
  }

  // ----- the first append to an empty store

  lemma AnotherMove(c: Setting, moves: seq<(nat, Action)>, s: System, move: (nat, Action), t: System)
    requires After(c, EMPTY, moves) == Some(s) && |AllLines(s.data)| < I64_LIMIT &&
             Step(c, s, move.0, move.1) == Some(t)
    ensures After(c, EMPTY, moves + [move]) == Some(t)
  {
    assert (moves + [move])[..|moves|] == moves;
  }

  lemma QuietMove(c: Setting, moves: seq<(nat, Action)>, s: System, w: nat, a: Action, t: System)
    requires After(c, EMPTY, moves) == Some(s) && s.data == [] && !a.Write? && Step(c, s, w, a) == Some(t)
    ensures After(c, EMPTY, moves + [(w, a)]) == Some(t) && t.data == []
  {
    UnchangedData(c, s, w, a, t);
    AnotherMove(c, moves, s, (w, a), t);
  }

  lemma FirstRequest(c: Setting, event: seq<Member>) returns (s: System)
    requires ValidEvent(c, event)
    ensures After(c, EMPTY, [(0, Request(event))]) == Some(s) && PhaseOf(s, 0) == Waiting(event)
    ensures s.holder.None? && s.data == [] && s.returned == []
  {
    s := Move(EMPTY, 0, Waiting(event));
    AnotherMove(c, [], EMPTY, (0, Request(event)), s);
    assert [] + [(0, Request(event))] == [(0, Request(event))];
  }

  /** One writer alone appends the record of a valid event, and returns it. */
  lemma FirstAppend(c: Setting, event: seq<Member>) returns (moves: seq<(nat, Action)>, t: System)
    requires ValidEvent(c, event) && |DraftFor(c, event, 0, GENESIS_HASH).signature| == 64
    ensures After(c, EMPTY, moves) == Some(t)
    ensures var d := DraftFor(c, event, 0, GENESIS_HASH);
            && t.returned == [d] && t.data == LineOf(c, d) + [LF]
            && AllLines(t.data) == [LineOf(c, d)] && Unterminated(t.data) == []
  {
    var d := DraftFor(c, event, 0, GENESIS_HASH);
    var s := FirstRequest(c, event);
    var held, linked, sealed, written;
    held, linked, sealed, written, t := UninterruptedAppend(c, s, 0, event, START);
    moves := [(0, Request(event))];
    QuietMove(c, moves, s, 0, Acquire, held);
    moves := moves + [(0, Acquire)];
    QuietMove(c, moves, held, 0, ReadTip, linked);
    moves := moves + [(0, ReadTip)];
    QuietMove(c, moves, linked, 0, Seal, sealed);
    moves := moves + [(0, Seal)];
    AnotherMove(c, moves, sealed, (0, Write(|LineOf(c, d)| + 1)), written);
    moves := moves + [(0, Write(|LineOf(c, d)| + 1))];
    UnchangedData(c, written, 0, Return, t);
    OneLine(c, d, t.data);
    AnotherMove(c, moves, written, (0, Return), t);
    moves := moves + [(0, Return)];
  }

  lemma OneLine(c: Setting, d: Draft, data: Bytes)
    requires data == [] + Kept(LineOf(c, d), Durable)
    ensures data == LineOf(c, d) + [LF] && AllLines(data) == [LineOf(c, d)] && Unterminated(data) == []
  {
    LineHasNoLf(c, d);
    LineEnds([], LineOf(c, d));
    assert [] + (LineOf(c, d) + [LF]) == LineOf(c, d) + [LF];
    assert Unterminated([]) + LineOf(c, d) == LineOf(c, d);
  }

  /**
   An event with a float that the strict parser moves, appended to an empty store, gives a store
   that the writer's verifier accepts and the strict one refuses.
   */
  lemma MovedEventDivides(c: Setting, event: seq<Member>) returns (moves: seq<(nat, Action)>, t: System)
    requires GoodSetting(c) && GoodPlatform(c.pf) && CorrectSigner(c, c.pf.strictVerify) && c.limit <= STRICT_NESTING
    requires ValidEvent(c, event) && |DraftFor(c, event, 0, GENESIS_HASH).signature| == 64
    requires !FloatsFixed(Obj(event), c.pf.strictRead)
    ensures After(c, EMPTY, moves) == Some(t) && t.returned == [DraftFor(c, event, 0, GENESIS_HASH)]
    ensures ReadStore(c.pf, Verification, t.data).Ok? && VerifyStream(c.pf, t.data).Err?
  {
    var d := DraftFor(c, event, 0, GENESIS_HASH);
    moves, t := FirstAppend(c, event);
    RunFromEmpty(c, moves, t);
    assert IsStored(c, AllLines(t.data), d);
    DraftIsFixed(c, AllLines(t.data), d);
    AllFixedIs(c.pf, AllLines(t.data));
    var st := BothVerifiersAccept(c, t.data);
  }
}
