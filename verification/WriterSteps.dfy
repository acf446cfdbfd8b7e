/** What one step of one writer does to the lines of the store, to its own phase, and to all the others. */
module WriterSteps {
  import opened Prelude
  import opened Lines
  import opened Json
  import opened ChainTheorems
  import opened AppendLog
  import opened AppendProtocol

  /** The event that a writer is busy with. */
  function EventAt(p: Phase): seq<Member>
    requires !p.Idle?
  {
    match p
    case Waiting(event) => event
    case Holding(event) => event
    case TipRead(event, _, _) => event
    case Writing(d, _) => d.event
  }

  /** The line and its line feed are in the store. */
  predicate LineWritten(c: Setting, p: Phase) {
    p.Writing? && p.written == |LineOf(c, p.draft)| + 1
  }

  /** The draft whose line this step completes. */
  function Completed(c: Setting, s: System, w: nat, a: Action): Option<Draft> {
    var p := PhaseOf(s, w);
    if a.Write? && p.Writing? && !LineWritten(c, p) && p.written + a.count == |LineOf(c, p.draft)| + 1 then
      Some(p.draft)
    else None
  }

  lemma OthersStay(c: Setting, s: System, w: nat, a: Action, t: System, v: nat)
    requires Step(c, s, w, a) == Some(t) && v != w
    ensures PhaseOf(t, v) == PhaseOf(s, v)
  {
  }

  lemma EventStays(c: Setting, s: System, w: nat, a: Action, t: System)
    requires Step(c, s, w, a) == Some(t) && !PhaseOf(t, w).Idle?
    ensures if a.Request? then PhaseOf(t, w) == Waiting(a.event)
            else !PhaseOf(s, w).Idle? && EventAt(PhaseOf(t, w)) == EventAt(PhaseOf(s, w))
  {
  }

  lemma WrittenAfter(c: Setting, s: System, w: nat, a: Action, t: System)
    requires Step(c, s, w, a) == Some(t) && !PhaseOf(t, w).Idle?
    ensures LineWritten(c, PhaseOf(t, w)) <==> LineWritten(c, PhaseOf(s, w)) || Completed(c, s, w, a).Some?
  {
  }

  lemma ReturnIsWritten(c: Setting, s: System, w: nat, t: System)
    requires Step(c, s, w, Return) == Some(t)
    ensures LineWritten(c, PhaseOf(s, w)) && PhaseOf(t, w).Idle?
  {
  }

  lemma UnchangedData(c: Setting, s: System, w: nat, a: Action, t: System)
    requires Step(c, s, w, a) == Some(t) && !a.Write?
    ensures t.data == s.data
  {
  }

  lemma WriterIsHolder(c: Setting, s: System, w: nat)
    requires Invariant(c, s) && PhaseOf(s, w).Writing?
    ensures Growing(c, AllLines(s.data), Unterminated(s.data), PhaseOf(s, w).draft, PhaseOf(s, w).written)
  {
    InLockHolds(s, w);
  }

  /** Only the piece with the line feed adds a line. */
  lemma LinesAfterPiece(data: Bytes, line: Bytes, written: nat, count: nat)
    requires LfFree(line) && written + count <= |line| + 1
    requires written <= |line| ==> Unterminated(data) == line[..written]
    ensures var ends := written <= |line| && written + count == |line| + 1;
            AllLines(data + (line + [LF])[written..written + count]) == AllLines(data) + if ends then [line] else []
  {
    if written <= |line| {
      PieceWritten(data, line, written, count);
    } else {
      var piece := (line + [LF])[written..written + count];
      assert piece == [];
      assert data + piece == data;
    }
  }

  lemma LinesAfterWrite(c: Setting, s: System, w: nat, d: Draft, written: nat, count: nat)
    requires GoodSetting(c) && Invariant(c, s) && PhaseOf(s, w) == Writing(d, written)
    requires written + count <= |LineOf(c, d)| + 1
    ensures var ends := written <= |LineOf(c, d)| && written + count == |LineOf(c, d)| + 1;
            AllLines(AfterWrite(c, s, w, d, written, count).data)
            == AllLines(s.data) + if ends then [LineOf(c, d)] else []
  {
    WriterIsHolder(c, s, w);
    LineHasNoLf(c, d);
    LinesAfterPiece(s.data, LineOf(c, d), written, count);
  }

  /** The lines of the store grow by the line that a step completes, and not otherwise. */
  lemma LinesAfter(c: Setting, s: System, w: nat, a: Action, t: System)
    requires GoodSetting(c) && Invariant(c, s) && Step(c, s, w, a) == Some(t)
    ensures AllLines(t.data) ==
            AllLines(s.data) + if Completed(c, s, w, a).Some? then [LineOf(c, Completed(c, s, w, a).value)] else []
  {
    if a.Write? {
      var p := PhaseOf(s, w);
      LinesAfterWrite(c, s, w, p.draft, p.written, a.count);
    } else {
      UnchangedData(c, s, w, a, t);
    }
  }

  /** A completed line stands at the number of its draft. */
  lemma CompletedDraft(c: Setting, s: System, w: nat, a: Action, t: System)
    requires GoodSetting(c) && Invariant(c, s) && Step(c, s, w, a) == Some(t) && Completed(c, s, w, a).Some?
    ensures var d := Completed(c, s, w, a).value;
            && d.number == |AllLines(s.data)| && ValidEvent(c, d.event) && IsStored(c, AllLines(t.data), d)
            && !PhaseOf(s, w).Idle? && d.event == EventAt(PhaseOf(s, w))
  {
    var p := PhaseOf(s, w);
    WriterIsHolder(c, s, w);
    GrowingNumber(c, AllLines(s.data), Unterminated(s.data), p.draft, p.written);
    LinesAfter(c, s, w, a, t);
  }
}
