/**
 Many writers of one store, each going through lock, tip, signature and append in steps that
 interleave freely, fail anywhere, and may leave a torn line behind.
 */
module AppendProtocol {
  import opened Prelude
  import opened Lines
  import opened Json
  import opened RecordSchema
  import opened ChainVerifier
  import opened ChainTheorems
  import opened Store
  import opened AppendLog

  /** Where a writer is in its append. */
  datatype Phase =
    | Idle
    | Waiting(event: seq<Member>)
    | Holding(event: seq<Member>)
    | TipRead(event: seq<Member>, number: nat, prev: string)
    | Writing(draft: Draft, written: nat)

  predicate InLock(p: Phase) {
    p.Holding? || p.TipRead? || p.Writing?
  }

  /** The store, the lock, every writer's phase, and the records returned to callers so far. */
  datatype System = System(data: Bytes, holder: Option<nat>, phases: map<nat, Phase>, returned: seq<Draft>)

  function PhaseOf(s: System, w: nat): Phase {
    if w in s.phases then s.phases[w] else Idle
  }

  function Move(s: System, w: nat, p: Phase): System {
    s.(phases := s.phases[w := p])
  }

  function Release(s: System, w: nat): System {
    Move(s, w, Idle).(holder := None)
  }

  /**
   What a writer can do next.  Stop is any way out that returns no record: the lock times
   out, a step raises, or the process dies, which releases its lock.
   */
  datatype Action = Request(event: seq<Member>) | Acquire | ReadTip | Seal | Write(count: nat) | Return | Stop

  function Step(c: Setting, s: System, w: nat, a: Action): Option<System> {
    var p := PhaseOf(s, w);
    match a
    case Request(event) => if p.Idle? && ValidEvent(c, event) then Some(Move(s, w, Waiting(event))) else None
    case Acquire => if p.Waiting? && s.holder.None? then Some(AfterAcquire(s, w, p.event)) else None
    case ReadTip => if p.Holding? then Some(AfterTip(c, s, w, p.event)) else None
    case Seal => if p.TipRead? then Some(AfterSeal(c, s, w, DraftFor(c, p.event, p.number, p.prev))) else None
    case Write(count) =>
      if p.Writing? && p.written + count <= |LineOf(c, p.draft)| + 1 then
        Some(AfterWrite(c, s, w, p.draft, p.written, count))
      else None
    case Return =>
      if p.Writing? && p.written == |LineOf(c, p.draft)| + 1 then Some(AfterReturn(s, w, p.draft)) else None
    case Stop => if p.Waiting? then Some(Move(s, w, Idle)) else if InLock(p) then Some(Release(s, w)) else None
  }

  function AfterAcquire(s: System, w: nat, event: seq<Member>): System {
    Move(s, w, Holding(event)).(holder := Some(w))
  }

  /** Reading the tip refuses a store that is torn, invalid or of another version. */
  function AfterTip(c: Setting, s: System, w: nat, event: seq<Member>): System {
    var read := ReadStore(c.pf, Tip(EventSchema(event)), s.data);
    if read.Err? then Release(s, w) else Move(s, w, TipRead(event, read.value.number, read.value.prev))
  }

  function AfterSeal(c: Setting, s: System, w: nat, d: Draft): System {
    if |d.signature| != 64 then Release(s, w) else Move(s, w, Writing(d, 0))
  }

  /** The operating system may take the line and its line feed in any number of pieces. */
  function AfterWrite(c: Setting, s: System, w: nat, d: Draft, written: nat, count: nat): System
    requires written + count <= |LineOf(c, d)| + 1
  {
    Move(s, w, Writing(d, written + count)).(data := s.data + (LineOf(c, d) + [LF])[written..written + count])
  }

  function AfterReturn(s: System, w: nat, d: Draft): System {
    Release(s, w).(returned := s.returned + [d])
  }

  // ----- the invariant

  /** Exactly the holder of the lock is between acquiring and releasing it. */
  predicate Exclusive(s: System) {
    && (forall w | w in s.phases && InLock(s.phases[w]) :: s.holder == Some(w))
    && (s.holder.Some? ==> InLock(PhaseOf(s, s.holder.value)))
  }

  predicate WaitersFit(c: Setting, s: System) {
    forall w | w in s.phases && s.phases[w].Waiting? :: ValidEvent(c, s.phases[w].event)
  }

  /** How far the line of a draft has been written after the lines of the chain that it continues. */
  ghost predicate Growing(c: Setting, lines: seq<Bytes>, tail: Bytes, d: Draft, written: nat) {
    && d.number < I64_LIMIT
    && if written <= |LineOf(c, d)| then Continues(c, lines, d) && tail == LineOf(c, d)[..written]
       else
         && written == |LineOf(c, d)| + 1 && tail == []
         && lines != [] && lines[|lines| - 1] == LineOf(c, d) && Continues(c, lines[..|lines| - 1], d)
  }

  /** What the phase of the lock's holder says about the store. */
  ghost predicate PhaseFits(c: Setting, lines: seq<Bytes>, tail: Bytes, p: Phase) {
    match p
    case Idle => true
    case Waiting(event) => true
    case Holding(event) => ValidEvent(c, event)
    case TipRead(event, number, prev) =>
      && ValidEvent(c, event) && tail == []
      && var read := Replay(c.pf, Tip(EventSchema(event)), lines);
         read.Ok? && read.value.number == number && read.value.prev == prev
    case Writing(d, written) => Growing(c, lines, tail, d, written)
  }

  ghost predicate HolderFits(c: Setting, s: System, lines: seq<Bytes>, tail: Bytes) {
    s.holder.Some? ==> PhaseFits(c, lines, tail, PhaseOf(s, s.holder.value))
  }

  /** A returned record is the line at its own number. */
  ghost predicate IsStored(c: Setting, lines: seq<Bytes>, d: Draft) {
    ValidEvent(c, d.event) && d.number < |lines| && lines[d.number] == LineOf(c, d)
  }

  /** Returned records are stored, in the order of return, all of them before `bound`. */
  ghost predicate ReturnedOnce(c: Setting, lines: seq<Bytes>, returned: seq<Draft>, bound: nat) {
    && (forall i | 0 <= i < |returned| :: IsStored(c, lines, returned[i]) && returned[i].number < bound)
    && (forall i, j | 0 <= i < j < |returned| :: returned[i].number < returned[j].number)
  }

  /** Records with smaller numbers than this may have been returned: not the one being written. */
  function ReturnBound(s: System, lines: seq<Bytes>): nat {
    if s.holder.Some? then PhaseBound(PhaseOf(s, s.holder.value), lines) else |lines|
  }

  function PhaseBound(p: Phase, lines: seq<Bytes>): nat {
    if p.Writing? then p.draft.number else |lines|
  }

  ghost predicate Fits(c: Setting, s: System, lines: seq<Bytes>, tail: Bytes) {
    && Exclusive(s) && WaitersFit(c, s) && GoodLines(c, lines)
    && HolderFits(c, s, lines, tail) && ReturnedOnce(c, lines, s.returned, ReturnBound(s, lines))
  }

  ghost predicate Invariant(c: Setting, s: System) {
    Fits(c, s, AllLines(s.data), Unterminated(s.data))
  }

  // ----- the steps, on the lines of the store

  lemma GrowingNumber(c: Setting, lines: seq<Bytes>, tail: Bytes, d: Draft, written: nat)
    requires GoodSetting(c) && Growing(c, lines, tail, d, written)
    ensures d.number == if written <= |LineOf(c, d)| then |lines| else |lines| - 1
  {
  }

  lemma AcquireFits(c: Setting, s: System, lines: seq<Bytes>, tail: Bytes, w: nat, event: seq<Member>)
    requires Fits(c, s, lines, tail) && PhaseOf(s, w) == Waiting(event) && s.holder.None?
    ensures Fits(c, AfterAcquire(s, w, event), lines, tail)
  {
    AcquireKeepsLocking(c, s, w, event);
  }

  lemma AcquireKeepsLocking(c: Setting, s: System, w: nat, event: seq<Member>)
    requires Exclusive(s) && WaitersFit(c, s) && s.holder.None?
    ensures Exclusive(AfterAcquire(s, w, event)) && WaitersFit(c, AfterAcquire(s, w, event))
  {
  }

  lemma ReleaseKeepsLocking(c: Setting, s: System, w: nat)
    requires Exclusive(s) && WaitersFit(c, s) && s.holder == Some(w)
    ensures Exclusive(Release(s, w)) && WaitersFit(c, Release(s, w))
  {
  }

  lemma ReleaseFits(c: Setting, s: System, lines: seq<Bytes>, tail: Bytes, w: nat)
    requires GoodSetting(c) && Fits(c, s, lines, tail) && s.holder == Some(w)
    ensures Fits(c, Release(s, w), lines, tail)
  {
    var p := PhaseOf(s, w);
    if p.Writing? {
      GrowingNumber(c, lines, tail, p.draft, p.written);
    }
  }

  lemma MoveKeepsLocking(c: Setting, s: System, w: nat, p: Phase, data: Bytes)
    requires Exclusive(s) && WaitersFit(c, s) && s.holder == Some(w) && InLock(p)
    ensures Exclusive(Move(s, w, p).(data := data)) && WaitersFit(c, Move(s, w, p).(data := data))
  {
  }

  /** The holder moves on within the lock, and the store may have grown with it. */
  lemma HolderMoves(c: Setting, s: System, w: nat, p: Phase, data: Bytes, lines: seq<Bytes>, tail: Bytes)
    requires Exclusive(s) && WaitersFit(c, s) && s.holder == Some(w) && InLock(p)
    requires GoodLines(c, lines) && PhaseFits(c, lines, tail, p)
    requires ReturnedOnce(c, lines, s.returned, PhaseBound(p, lines))
    ensures Fits(c, Move(s, w, p).(data := data), lines, tail)
  {
    MoveKeepsLocking(c, s, w, p, data);
  }

  lemma TipFits(c: Setting, s: System, lines: seq<Bytes>, tail: Bytes, w: nat, event: seq<Member>, read: State)
    requires Fits(c, s, lines, tail) && s.holder == Some(w) && PhaseOf(s, w) == Holding(event)
    requires Replay(c.pf, Tip(EventSchema(event)), lines) == Ok(read) && tail == []
    ensures Fits(c, Move(s, w, TipRead(event, read.number, read.prev)), lines, tail)
  {
    HolderMoves(c, s, w, TipRead(event, read.number, read.prev), s.data, lines, tail);
  }

  lemma SealFits(c: Setting, s: System, lines: seq<Bytes>, tail: Bytes, w: nat, d: Draft)
    requires Fits(c, s, lines, tail) && s.holder == Some(w) && PhaseOf(s, w) == TipRead(d.event, d.number, d.prev)
    requires d == DraftFor(c, d.event, d.number, d.prev) && |d.signature| == 64 && |lines| < I64_LIMIT
    ensures Fits(c, Move(s, w, Writing(d, 0)), lines, tail)
  {
    assert LineOf(c, d)[..0] == [];
    HolderMoves(c, s, w, Writing(d, 0), s.data, lines, tail);
  }

  lemma WriteFits(c: Setting, s: System, lines: seq<Bytes>, tail: Bytes, w: nat, d: Draft, written: nat, count: nat,
                  data: Bytes)
    requires Fits(c, s, lines, tail) && s.holder == Some(w) && PhaseOf(s, w) == Writing(d, written)
    requires written + count <= |LineOf(c, d)|
    ensures Fits(c, Move(s, w, Writing(d, written + count)).(data := data), lines, LineOf(c, d)[..written + count])
  {
    HolderMoves(c, s, w, Writing(d, written + count), data, lines, LineOf(c, d)[..written + count]);
  }

  lemma StoredInMore(c: Setting, lines: seq<Bytes>, line: Bytes, returned: seq<Draft>, bound: nat)
    requires ReturnedOnce(c, lines, returned, bound)
    ensures ReturnedOnce(c, lines + [line], returned, bound)
  {
    forall i | 0 <= i < |returned|
      ensures IsStored(c, lines + [line], returned[i])
    {
      assert IsStored(c, lines, returned[i]);
    }
  }

  lemma GrowingEnds(c: Setting, lines: seq<Bytes>, tail: Bytes, d: Draft, written: nat)
    requires Growing(c, lines, tail, d, written) && written <= |LineOf(c, d)|
    ensures Growing(c, lines + [LineOf(c, d)], [], d, |LineOf(c, d)| + 1)
  {
    assert (lines + [LineOf(c, d)])[..|lines|] == lines;
  }

  lemma EndedLine(c: Setting, lines: seq<Bytes>, tail: Bytes, d: Draft, written: nat, returned: seq<Draft>)
    requires GoodSetting(c) && GoodLines(c, lines) && ReturnedOnce(c, lines, returned, d.number)
    requires Growing(c, lines, tail, d, written) && written <= |LineOf(c, d)|
    ensures GoodLines(c, lines + [LineOf(c, d)]) && ReturnedOnce(c, lines + [LineOf(c, d)], returned, d.number)
    ensures Growing(c, lines + [LineOf(c, d)], [], d, |LineOf(c, d)| + 1)
  {
    AppendKeepsGood(c, lines, d);
    GrowingEnds(c, lines, tail, d, written);
    StoredInMore(c, lines, LineOf(c, d), returned, d.number);
  }

  lemma LastWriteFits(c: Setting, s: System, lines: seq<Bytes>, tail: Bytes, w: nat, d: Draft, written: nat,
                      data: Bytes)
    requires GoodSetting(c) && Fits(c, s, lines, tail) && s.holder == Some(w) && PhaseOf(s, w) == Writing(d, written)
    requires written <= |LineOf(c, d)|
    ensures Fits(c, Move(s, w, Writing(d, |LineOf(c, d)| + 1)).(data := data), lines + [LineOf(c, d)], [])
  {
    EndedLine(c, lines, tail, d, written, s.returned);
    HolderMoves(c, s, w, Writing(d, |LineOf(c, d)| + 1), data, lines + [LineOf(c, d)], []);
  }

  lemma ReturnFits(c: Setting, s: System, lines: seq<Bytes>, tail: Bytes, w: nat, d: Draft)
    requires GoodSetting(c) && Fits(c, s, lines, tail) && s.holder == Some(w)
    requires PhaseOf(s, w) == Writing(d, |LineOf(c, d)| + 1)
    ensures Fits(c, AfterReturn(s, w, d), lines, tail)
  {
    ReleaseKeepsLocking(c, s, w);
    GrowingNumber(c, lines, tail, d, |LineOf(c, d)| + 1);
    ReturnedExtends(c, lines, s.returned, d);
  }

  lemma ReturnedExtends(c: Setting, lines: seq<Bytes>, returned: seq<Draft>, d: Draft)
    requires ReturnedOnce(c, lines, returned, d.number) && IsStored(c, lines, d)
    ensures ReturnedOnce(c, lines, returned + [d], |lines|)
  {
    var all := returned + [d];
    forall i | 0 <= i < |all|
      ensures IsStored(c, lines, all[i]) && all[i].number < |lines|
    {
      if i < |returned| {
        assert IsStored(c, lines, returned[i]);
      }
    }
  }

  // ----- the steps, on the bytes of the store

  lemma PieceWritten(stream: Bytes, line: Bytes, written: nat, count: nat)
    requires LfFree(line) && written + count <= |line| + 1 && written <= |line| &&
             Unterminated(stream) == line[..written]
    ensures var data := stream + (line + [LF])[written..written + count];
            if written + count <= |line| then
              AllLines(data) == AllLines(stream) && Unterminated(data) == line[..written + count]
            else AllLines(data) == AllLines(stream) + [line] && Unterminated(data) == []
  {
    var piece := (line + [LF])[written..written + count];
    if written + count <= |line| {
      assert piece == line[written..written + count];
      LineGrows(stream, piece);
      assert line[..written] + piece == line[..written + count];
    } else {
      assert piece == line[written..] + [LF];
      LineEnds(stream, line[written..]);
      assert line[..written] + line[written..] == line;
    }
  }

  lemma PieceKeepsInvariant(c: Setting, s: System, w: nat, d: Draft, written: nat, count: nat)
    requires GoodSetting(c) && Invariant(c, s) && s.holder == Some(w) && PhaseOf(s, w) == Writing(d, written)
    requires written <= |LineOf(c, d)| && written + count <= |LineOf(c, d)| + 1
    ensures Invariant(c, AfterWrite(c, s, w, d, written, count))
  {
    assert Growing(c, AllLines(s.data), Unterminated(s.data), d, written);
    LineHasNoLf(c, d);
    PieceWritten(s.data, LineOf(c, d), written, count);
    PieceFits(c, s, w, d, written, count, AfterWrite(c, s, w, d, written, count).data);
  }

  lemma PieceFits(c: Setting, s: System, w: nat, d: Draft, written: nat, count: nat, data: Bytes)
    requires GoodSetting(c) && Invariant(c, s) && s.holder == Some(w) && PhaseOf(s, w) == Writing(d, written)
    requires written <= |LineOf(c, d)| && written + count <= |LineOf(c, d)| + 1
    requires if written + count <= |LineOf(c, d)|
             then AllLines(data) == AllLines(s.data) && Unterminated(data) == LineOf(c, d)[..written + count]
             else AllLines(data) == AllLines(s.data) + [LineOf(c, d)] && Unterminated(data) == []
    ensures Invariant(c, Move(s, w, Writing(d, written + count)).(data := data))
  {
    var lines, tail := AllLines(s.data), Unterminated(s.data);
    if written + count <= |LineOf(c, d)| {
      WriteFits(c, s, lines, tail, w, d, written, count, data);
    } else {
      LastWriteFits(c, s, lines, tail, w, d, written, data);
    }
  }

  lemma WriteKeepsInvariant(c: Setting, s: System, w: nat, d: Draft, written: nat, count: nat)
    requires GoodSetting(c) && Invariant(c, s) && s.holder == Some(w) && PhaseOf(s, w) == Writing(d, written)
    requires written + count <= |LineOf(c, d)| + 1
    ensures Invariant(c, AfterWrite(c, s, w, d, written, count))
  {
    if written <= |LineOf(c, d)| {
      PieceKeepsInvariant(c, s, w, d, written, count);
    } else {
      NothingIsWritten(c, s, w, d, written);
      HolderMoves(c, s, w, Writing(d, written), s.data, AllLines(s.data), Unterminated(s.data));
    }
  }

  lemma NothingIsWritten(c: Setting, s: System, w: nat, d: Draft, written: nat)
    requires written <= |LineOf(c, d)| + 1
    ensures AfterWrite(c, s, w, d, written, 0) == Move(s, w, Writing(d, written)).(data := s.data)
  {
    var piece := (LineOf(c, d) + [LF])[written..written];
    assert piece == [] && s.data + piece == s.data;
  }

  lemma TipKeepsInvariant(c: Setting, s: System, w: nat, event: seq<Member>)
    requires GoodSetting(c) && Invariant(c, s) && s.holder == Some(w) && PhaseOf(s, w) == Holding(event)
    ensures Invariant(c, AfterTip(c, s, w, event))
  {
    var read := ReadStore(c.pf, Tip(EventSchema(event)), s.data);
    if read.Ok? {
      TipFits(c, s, AllLines(s.data), Unterminated(s.data), w, event, read.value);
    } else {
      ReleaseFits(c, s, AllLines(s.data), Unterminated(s.data), w);
    }
  }

  lemma SealKeepsInvariant(c: Setting, s: System, w: nat, event: seq<Member>, number: nat, prev: string)
    requires GoodSetting(c) && Invariant(c, s) && s.holder == Some(w) && PhaseOf(s, w) == TipRead(event, number, prev)
    requires |AllLines(s.data)| < I64_LIMIT
    ensures Invariant(c, AfterSeal(c, s, w, DraftFor(c, event, number, prev)))
  {
    var d := DraftFor(c, event, number, prev);
    if |d.signature| == 64 {
      SealFits(c, s, AllLines(s.data), Unterminated(s.data), w, d);
    } else {
      ReleaseFits(c, s, AllLines(s.data), Unterminated(s.data), w);
    }
  }

  lemma WaiterMoves(c: Setting, s: System, w: nat, p: Phase)
    requires Invariant(c, s) && !InLock(PhaseOf(s, w)) && !InLock(p)
    requires p.Waiting? ==> ValidEvent(c, p.event)
    ensures Invariant(c, Move(s, w, p))
  {
  }

  lemma AcquireKeepsInvariant(c: Setting, s: System, w: nat, event: seq<Member>)
    requires Invariant(c, s) && PhaseOf(s, w) == Waiting(event) && s.holder.None?
    ensures Invariant(c, AfterAcquire(s, w, event))
  {
    AcquireFits(c, s, AllLines(s.data), Unterminated(s.data), w, event);
  }

  lemma ReturnKeepsInvariant(c: Setting, s: System, w: nat, d: Draft)
    requires GoodSetting(c) && Invariant(c, s) && s.holder == Some(w)
    requires PhaseOf(s, w) == Writing(d, |LineOf(c, d)| + 1)
    ensures Invariant(c, AfterReturn(s, w, d))
  {
    ReturnFits(c, s, AllLines(s.data), Unterminated(s.data), w, d);
  }

  lemma StopKeepsInvariant(c: Setting, s: System, w: nat)
    requires GoodSetting(c) && Invariant(c, s) && s.holder == Some(w)
    ensures Invariant(c, Release(s, w))
  {
    ReleaseFits(c, s, AllLines(s.data), Unterminated(s.data), w);
  }

  lemma InLockHolds(s: System, w: nat)
    requires Exclusive(s) && InLock(PhaseOf(s, w))
    ensures s.holder == Some(w)
  {
  }

  lemma LockedStepKeepsInvariant(c: Setting, s: System, w: nat, a: Action) returns (t: System)
    requires GoodSetting(c) && Invariant(c, s) && Step(c, s, w, a).Some? && InLock(PhaseOf(s, w))
    requires |AllLines(s.data)| < I64_LIMIT
    ensures Step(c, s, w, a) == Some(t) && Invariant(c, t)
  {
    var p := PhaseOf(s, w);
    InLockHolds(s, w);
    match a {
      case ReadTip =>
        t := AfterTip(c, s, w, p.event);
        TipKeepsInvariant(c, s, w, p.event);
      case Seal =>
        t := AfterSeal(c, s, w, DraftFor(c, p.event, p.number, p.prev));
        SealKeepsInvariant(c, s, w, p.event, p.number, p.prev);
      case Write(count) =>
        t := AfterWrite(c, s, w, p.draft, p.written, count);
        WriteKeepsInvariant(c, s, w, p.draft, p.written, count);
      case Return =>
        t := AfterReturn(s, w, p.draft);
        ReturnKeepsInvariant(c, s, w, p.draft);
      case Stop =>
        t := Release(s, w);
        StopKeepsInvariant(c, s, w);
      case _ =>
        assert false;
    }
  }

  lemma UnlockedStepKeepsInvariant(c: Setting, s: System, w: nat, a: Action) returns (t: System)
    requires Invariant(c, s) && Step(c, s, w, a).Some? && !InLock(PhaseOf(s, w))
    ensures Step(c, s, w, a) == Some(t) && Invariant(c, t)
  {
    match a {
      case Request(event) =>
        t := Move(s, w, Waiting(event));
        WaiterMoves(c, s, w, Waiting(event));
      case Acquire =>
        t := AfterAcquire(s, w, PhaseOf(s, w).event);
        AcquireKeepsInvariant(c, s, w, PhaseOf(s, w).event);
      case Stop =>
        t := Move(s, w, Idle);
        WaiterMoves(c, s, w, Idle);
      case _ =>
        assert false;
    }
  }

  /** Every step keeps the invariant, as long as sequence numbers fit in 63 bits. */
  lemma StepKeepsInvariant(c: Setting, s: System, w: nat, a: Action)
    requires GoodSetting(c) && Invariant(c, s) && Step(c, s, w, a).Some? && |AllLines(s.data)| < I64_LIMIT
    ensures Invariant(c, Step(c, s, w, a).value)
  {
    if InLock(PhaseOf(s, w)) {
      var _ := LockedStepKeepsInvariant(c, s, w, a);
    } else {
      var _ := UnlockedStepKeepsInvariant(c, s, w, a);
    }
  }
}
