/** Appending to a store: how the stored bytes grow, whole or torn, and what reading makes of them. */
module AppendLog {
  import opened Prelude
  import opened Utf8
  import opened Lines
  import opened Json
  import opened Canonical
  import opened StrictJson
  import opened FixedFloats
  import opened RecordSchema
  import opened ChainVerifier
  import opened ChainTheorems
  import opened Store
  import opened VerdictsAgree
  import opened Logger
  import Hex

  /** What the writers of one store share: the platform, the signer, and how deep their events nest. */
  datatype Setting = Setting(pf: Platform, sign: Bytes -> Option<Bytes>, limit: nat)

  /** The writers' own parser reads doubles back, and enters the nesting that the writers use. */
  ghost predicate GoodSetting(c: Setting) {
    GoodReading(c.pf.read) && c.limit <= c.pf.nesting
  }

  /** What the signer returns for some bytes; nothing if it raises. */
  function Signature(c: Setting, m: Bytes): Bytes {
    match c.sign(m)
    case None => []
    case Some(signature) => signature
  }

  /** Signatures of the length that the writers accept are good ones. */
  ghost predicate CorrectSigner(c: Setting, verify: (Bytes, Bytes) -> bool) {
    forall m :: |Signature(c, m)| == 64 ==> verify(m, Signature(c, m))
  }

  /** An event that the writer's validator lets through, nested within the limit. */
  predicate ValidEvent(c: Setting, event: seq<Member>) {
    EventSchema(event).Some? && IsDictionary(c.pf, event) && Depth(Obj(event)) <= c.limit
  }

  // ----- growing a stream

  lemma LineEnds(stream: Bytes, part: Bytes)
    requires LfFree(part)
    ensures AllLines(stream + (part + [LF])) == AllLines(stream) + [Unterminated(stream) + part]
    ensures Unterminated(stream + (part + [LF])) == []
  {
    var lines, line := AllLines(stream), Unterminated(stream) + part;
    StreamIsJoined(stream);
    JoinSnoc(lines, line);
    assert stream + (part + [LF]) == Join(lines + [line]) + [];
    SplitStream(lines + [line], []);
  }

  lemma LineGrows(stream: Bytes, part: Bytes)
    requires LfFree(part)
    ensures AllLines(stream + part) == AllLines(stream) && Unterminated(stream + part) == Unterminated(stream) + part
  {
    StreamIsJoined(stream);
    assert stream + part == Join(AllLines(stream)) + (Unterminated(stream) + part);
    SplitStream(AllLines(stream), Unterminated(stream) + part);
  }

  // ----- readings of one store for different purposes

  lemma {:induction false} PurposesAgree(pf: Platform, purpose: Purpose, lines: seq<Bytes>)
    requires Replay(pf, purpose, lines).Ok?
    ensures Replay(pf, Tip(None), lines) == Replay(pf, purpose, lines)
    decreases |lines|
  {
    if lines != [] {
      var init := lines[..|lines| - 1];
      PurposesAgree(pf, purpose, init);
      ReplayStep(pf, purpose, lines, Replay(pf, purpose, init).value);
      ReplayStep(pf, Tip(None), lines, Replay(pf, purpose, init).value);
    }
  }

  lemma LinkedState(pf: Platform, line: Bytes, st: State, next: State)
    requires LinkLine(pf, line, st) == Ok(next)
    ensures Hex.IsLowerHex(next.prev, 64)
  {
  }

  /** The state after reading: the hash is a hash, and the version is the required one. */
  lemma ReplayedState(pf: Platform, required: Option<nat>, lines: seq<Bytes>)
    requires Replay(pf, Tip(required), lines).Ok?
    ensures var st := Replay(pf, Tip(required), lines).value;
            Hex.IsLowerHex(st.prev, 64) && (required.Some? ==> st.version.None? || st.version == required)
  {
    RepeatIs('0', 64);
    if lines != [] {
      var before := Replay(pf, Tip(required), lines[..|lines| - 1]).value;
      ReplayStep(pf, Tip(required), lines, before);
      LinkedState(pf, lines[|lines| - 1], before, Replay(pf, Tip(required), lines).value);
    }
  }

  // ----- an append that cannot be read back

  /** A line that does not link is refused, whatever version the reader requires. */
  lemma RefusedLine(pf: Platform, lines: seq<Bytes>, line: Bytes, st: State, required: Option<nat>)
    requires Replay(pf, Tip(None), lines) == Ok(st) && LinkLine(pf, line, st).Err?
    ensures Replay(pf, Tip(required), lines + [line]).Err?
  {
    ReplaySnoc(pf, Tip(required), lines, line);
    if Replay(pf, Tip(required), lines).Ok? {
      PurposesAgree(pf, Tip(required), lines);
    }
  }

  /** The line of a draft that continues these lines, but cannot be read back, does not link. */
  lemma UnreadableLine(c: Setting, lines: seq<Bytes>, d: Draft, st: State)
    requires GoodReading(c.pf.read) && EventSchema(d.event).Some? && IsDictionary(c.pf, d.event) && |d.signature| == 64
    requires Replay(c.pf, Tip(EventSchema(d.event)), lines) == Ok(st) && st.number == d.number && st.prev == d.prev
    requires d.number >= I64_LIMIT || Depth(Obj(d.event)) > c.pf.nesting
    ensures Replay(c.pf, Tip(None), lines) == Ok(st) && LinkLine(c.pf, LineOf(c, d), st).Err?
  {
    ReplayedState(c.pf, EventSchema(d.event), lines);
    AppendIsRead(c.pf, d.event, st, d.signature);
    PurposesAgree(c.pf, Tip(EventSchema(d.event)), lines);
  }

  lemma GrownLines(stream: Bytes, line: Bytes, more: Bytes)
    requires LfFree(line) && Unterminated(stream) == []
    ensures AllLines(stream) + [line] <= AllLines(stream + (line + [LF]) + more)
  {
    var appended := stream + (line + [LF]);
    LineEnds(stream, line);
    assert Unterminated(stream) + line == line && appended[|appended| - 1] == LF;
    PrefixLines(appended + more, appended);
  }

  lemma RefusedStore(pf: Platform, required: Option<nat>, stream: Bytes, lines: seq<Bytes>)
    requires lines <= AllLines(stream) && Replay(pf, Tip(required), lines).Err?
    ensures ReadStore(pf, Tip(required), stream).Err?
  {
    assert AllLines(stream)[..|lines|] == lines;
    ReplayKeepsError(pf, Tip(required), AllLines(stream), |lines|);
  }

  /**
   After an append whose number does not fit in 63 bits, or whose nesting the reader's parser
   does not enter, every later append refuses, however the store has grown since.
   */
  lemma UnreadableAppendIsFinal(c: Setting, stream: Bytes, d: Draft, st: State, more: Bytes, required: Option<nat>)
    requires GoodReading(c.pf.read) && EventSchema(d.event).Some? && IsDictionary(c.pf, d.event) && |d.signature| == 64
    requires ReadStore(c.pf, Tip(EventSchema(d.event)), stream) == Ok(st) && st.number == d.number && st.prev == d.prev
    requires d.number >= I64_LIMIT || Depth(Obj(d.event)) > c.pf.nesting
    ensures ReadStore(c.pf, Tip(required), stream + (LineOf(c, d) + [LF]) + more).Err?
  {
    var lines := AllLines(stream);
    UnreadableLine(c, lines, d, st);
    RefusedLine(c.pf, lines, LineOf(c, d), st, required);
    LineHasNoLf(c, d);
    GrownLines(stream, LineOf(c, d), more);
    RefusedStore(c.pf, required, stream + (LineOf(c, d) + [LF]) + more, lines + [LineOf(c, d)]);
  }

  // ----- a store that every reader reads

  /** The record of a line meets the strict verifier's demands, but for its floats. */
  predicate StrictReady(pf: Platform, line: Bytes) {
    && LenientRecord(pf, line).Some?
    && Depth(Obj(LenientRecord(pf, line).value)) <= STRICT_NESTING && StrictlySigned(pf, LenientRecord(pf, line).value)
  }

  predicate AllStrictReady(pf: Platform, lines: seq<Bytes>) {
    lines == [] || (AllStrictReady(pf, lines[..|lines| - 1]) && StrictReady(pf, lines[|lines| - 1]))
  }

  /** Every float in the record of a line is one that the strict parser reads back. */
  predicate LineFixed(pf: Platform, line: Bytes) {
    LenientRecord(pf, line).Some? && FloatsFixed(Obj(LenientRecord(pf, line).value), pf.strictRead)
  }

  predicate AllFixed(pf: Platform, lines: seq<Bytes>) {
    lines == [] || (AllFixed(pf, lines[..|lines| - 1]) && LineFixed(pf, lines[|lines| - 1]))
  }

  lemma {:induction false} ReadyAndFixed(pf: Platform, lines: seq<Bytes>)
    requires AllStrictReady(pf, lines)
    ensures AllMeetStrict(pf, lines) <==> AllFixed(pf, lines)
  {
    if lines != [] {
      ReadyAndFixed(pf, lines[..|lines| - 1]);
    }
  }

  /**
   The complete lines of a store link up; with a correct signer they verify; with a signer
   that is correct for strict verification, and events that the strict parser can enter, only
   floats can make it refuse one.
   */
  ghost predicate GoodLines(c: Setting, lines: seq<Bytes>) {
    && Replay(c.pf, Tip(None), lines).Ok?
    && (CorrectSigner(c, c.pf.verify) ==> Replay(c.pf, Verification, lines).Ok?)
    && (CorrectSigner(c, c.pf.strictVerify) && c.limit <= STRICT_NESTING ==> AllStrictReady(c.pf, lines))
  }

  /** A record in the making: an event, the tip it continues, and its signature. */
  datatype Draft = Draft(event: seq<Member>, number: nat, prev: string, signature: Bytes)

  function RecordOf(c: Setting, d: Draft): seq<Member> {
    SealedRecord(c.pf, d.event, d.number, d.prev, d.signature)
  }

  function LineOf(c: Setting, d: Draft): Bytes {
    SealedLine(c.pf, d.event, d.number, d.prev, d.signature)
  }

  /** The bytes that the signer is given. */
  function SignedBytes(c: Setting, event: seq<Member>, number: nat, prev: string): Bytes {
    RecordBytes(Candidate(event, number, prev), CodePointOrder)
  }

  /** The draft continues the chain of these lines, and its signature is the signer's. */
  ghost predicate Continues(c: Setting, lines: seq<Bytes>, d: Draft) {
    && ValidEvent(c, d.event) && |d.signature| == 64
    && d.signature == Signature(c, SignedBytes(c, d.event, d.number, d.prev))
    && var r := Replay(c.pf, Tip(EventSchema(d.event)), lines);
       r.Ok? && r.value.number == d.number && r.value.prev == d.prev
  }

  lemma LineHasNoLf(c: Setting, d: Draft)
    ensures LfFree(LineOf(c, d))
  {
    SerializedHasNoLineFeed(Obj(RecordOf(c, d)), CodePointOrder);
  }

  /** The appended line links to the lines before it. */
  lemma DraftLinks(c: Setting, lines: seq<Bytes>, d: Draft) returns (st: State)
    requires GoodSetting(c) && Continues(c, lines, d) && d.number < I64_LIMIT
    ensures Replay(c.pf, Tip(None), lines) == Ok(st) && st.number == d.number == |lines| && st.prev == d.prev
    ensures LinkLine(c.pf, LineOf(c, d), st) == Ok(StateAfter(c.pf, d.event, st))
    ensures LenientRecord(c.pf, LineOf(c, d)) == Some(StoredForm(RecordOf(c, d)))
  {
    var purpose := Tip(EventSchema(d.event));
    st := Replay(c.pf, purpose, lines).value;
    PurposesAgree(c.pf, purpose, lines);
    ReplayedState(c.pf, EventSchema(d.event), lines);
    AppendIsRead(c.pf, d.event, st, d.signature);
  }

  lemma ReplaySnocOk(pf: Platform, purpose: Purpose, lines: seq<Bytes>, line: Bytes, st: State, next: State,
                     record: seq<Member>)
    requires Replay(pf, purpose, lines) == Ok(st) && LinkLine(pf, line, st) == Ok(next)
    requires LenientRecord(pf, line) == Some(record) && Admits(pf, purpose, record, next)
    ensures Replay(pf, purpose, lines + [line]) == Ok(next)
  {
    ReplaySnoc(pf, purpose, lines, line);
    RecordChecked(pf, purpose, line, st, next, record);
  }

  lemma ReadyAppend(pf: Platform, lines: seq<Bytes>, line: Bytes)
    requires AllStrictReady(pf, lines) && StrictReady(pf, line)
    ensures AllStrictReady(pf, lines + [line])
  {
    assert (lines + [line])[..|lines|] == lines;
  }

  /** Appending the line of a draft that continues the chain keeps the store good. */
  lemma AppendKeepsGood(c: Setting, lines: seq<Bytes>, d: Draft)
    requires GoodSetting(c) && GoodLines(c, lines) && Continues(c, lines, d) && d.number < I64_LIMIT
    ensures GoodLines(c, lines + [LineOf(c, d)])
  {
    var st := DraftLinks(c, lines, d);
    var line, record, next := LineOf(c, d), StoredForm(RecordOf(c, d)), StateAfter(c.pf, d.event, st);
    ReplaySnocOk(c.pf, Tip(None), lines, line, st, next, record);
    if CorrectSigner(c, c.pf.verify) {
      PurposesAgree(c.pf, Verification, lines);
      AppendIsSigned(c.pf, c.pf.verify, d.event, st, d.signature);
      ReplaySnocOk(c.pf, Verification, lines, line, st, next, record);
    }
    if CorrectSigner(c, c.pf.strictVerify) && c.limit <= STRICT_NESTING {
      AppendIsSigned(c.pf, c.pf.strictVerify, d.event, st, d.signature);
      StoredFormIsCanonical(c.pf, d.event, st.number, st.prev, d.signature);
      ReadyAppend(c.pf, lines, line);
    }
  }

  lemma StrictSignerIsCorrect(c: Setting)
    requires GoodPlatform(c.pf) && CorrectSigner(c, c.pf.strictVerify)
    ensures CorrectSigner(c, c.pf.verify)
  {
  }

  /**
   A good store whose last line is whole is accepted by the writer's verifier, and by the
   strict one, with the same count and tip, exactly if the strict parser reads back every float.
   */
  lemma BothVerifiersAccept(c: Setting, stream: Bytes) returns (st: State)
    requires GoodPlatform(c.pf) && GoodLines(c, AllLines(stream)) && Unterminated(stream) == []
    requires CorrectSigner(c, c.pf.strictVerify) && c.limit <= STRICT_NESTING
    ensures ReadStore(c.pf, Verification, stream) == Ok(st) && st.number == |AllLines(stream)|
    ensures VerifyStream(c.pf, stream).Ok? <==> AllFixed(c.pf, AllLines(stream))
    ensures VerifyStream(c.pf, stream).Ok? ==> VerifyStream(c.pf, stream) == Ok(Report(st.number, TipOf(st)))
  {
    StrictSignerIsCorrect(c);
    st := Replay(c.pf, Verification, AllLines(stream)).value;
    StoredStreamDivides(c.pf, stream, st);
    ReadyAndFixed(c.pf, AllLines(stream));
  }

  // ----- the floats of an event, and of the line it becomes

  lemma PlainPairFixed(a: seq<Member>, x: Member, y: Member, read: Reading)
    requires (x.value.Int? || x.value.Str?) && (y.value.Int? || y.value.Str?)
    ensures MembersFixed(a + [x, y], read) <==> MembersFixed(a, read)
  {
    assert [x, y][1..] == [y] && [y][1..] == [];
    assert FloatsFixed(x.value, read) && FloatsFixed(y.value, read);
    assert MembersFixed([y][1..], read);
    assert MembersFixed([y], read);
    AppendKeepsFixed(a, [x, y], read);
  }

  /** Sealing and sorting leave the floats of an event as they are. */
  lemma SealedKeepsFixed(c: Setting, d: Draft, read: Reading)
    ensures FloatsFixed(Obj(StoredForm(RecordOf(c, d))), read) <==> FloatsFixed(Obj(d.event), read)
  {
    var candidate, record := Candidate(d.event, d.number, d.prev), RecordOf(c, d);
    PlainPairFixed(d.event, Member("seq", Int(d.number)), Member("prev_hash", Str(d.prev)), read);
    PlainPairFixed(candidate, Member("record_hash", Str(RecordHash(c.pf, candidate, CodePointOrder))),
                   Member("signature", Str(Hex.Encode(d.signature))), read);
    CanonKeepsFixed(Obj(record), read);
  }

  /** So whether the strict parser reads back a line's floats is decided by the event, before it is appended. */
  lemma LineIsFixed(c: Setting, d: Draft)
    requires LenientRecord(c.pf, LineOf(c, d)) == Some(StoredForm(RecordOf(c, d)))
    ensures LineFixed(c.pf, LineOf(c, d)) <==> FloatsFixed(Obj(d.event), c.pf.strictRead)
  {
    SealedKeepsFixed(c, d, c.pf.strictRead);
  }

  // ----- one append, with the lock held

  datatype AppendError = InvalidEvent | ChainRefused(error: StoreError) | SignerRaised | BadSignature | NotWritten

  /** Whether the line was written and synced, or how much of it reached the file before the error. */
  datatype Disk = Durable | Failing(kept: nat)

  function DraftFor(c: Setting, event: seq<Member>, number: nat, prev: string): Draft {
    Draft(event, number, prev, Signature(c, SignedBytes(c, event, number, prev)))
  }

  /** What reaches the file of the line that is being appended. */
  function Kept(line: Bytes, disk: Disk): Bytes {
    var encoded := line + [LF];
    if disk.Failing? && disk.kept < |encoded| then encoded[..disk.kept] else encoded
  }

  class ChainFile {
    var contents: Bytes

    /** Validates, links, signs and appends one event. */
    method LogEvent(c: Setting, event: seq<Member>, disk: Disk) returns (r: Result<seq<Member>, AppendError>)
      modifies this
      ensures EventSchema(event).None? <==> r == Err(InvalidEvent)
      ensures r.Err? && !r.error.NotWritten? ==> contents == old(contents)
      ensures EventSchema(event).Some? ==>
                var read := ReadStore(c.pf, Tip(EventSchema(event)), old(contents));
                if read.Err? then r == Err(ChainRefused(read.error))
                else
                  var d := DraftFor(c, event, read.value.number, read.value.prev);
                  if c.sign(SignedBytes(c, event, read.value.number, read.value.prev)).None? then r == Err(SignerRaised)
                  else if |d.signature| != 64 then r == Err(BadSignature)
                  else
                    && contents == old(contents) + Kept(LineOf(c, d), disk)
                    && r == if disk.Durable? then Ok(RecordOf(c, d)) else Err(NotWritten)
    {
      var version := EventSchema(event);
      if version.None? {
        return Err(InvalidEvent);
      }
      var tip := NextTip(c.pf, contents, version);
      if tip.Err? {
        return Err(ChainRefused(tip.error));
      }
      var (number, prev) := tip.value;
      var unsigned := Candidate(event, number, prev);
      var signed := c.sign(RecordBytes(unsigned, CodePointOrder));
      if signed.None? {
        return Err(SignerRaised);
      }
      var signature := signed.value;
      if |signature| != 64 {
        return Err(BadSignature);
      }
      var record := SealedRecord(c.pf, event, number, prev, signature);
      var encodedLine := Encode(Serialize(Obj(record), CodePointOrder));
      contents := contents + Kept(encodedLine, disk);
      r := if disk.Durable? then Ok(record) else Err(NotWritten);
    }
  }
}
