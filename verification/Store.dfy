/**
 The writer's own reader of a chain store: an iterator over linked records, and its two uses,
 finding the tip to append to and verifying a chain.
 */
module Store {
  import opened Prelude
  import opened Utf8
  import opened Lines
  import opened Json
  import opened Canonical
  import opened StrictJson
  import opened RecordSchema
  import opened ChainVerifier
  import Hex

  datatype StoreFault =
    | Unended
    | Blank
    | InvalidRecord
    | VersionsMixed
    | NotInCanonicalForm
    | WrongSequence
    | WrongPrevious
    | WrongHash
    | OtherVersion
    | WrongSignature

  datatype StoreError = StoreError(lineNumber: nat, fault: StoreFault)

  /** Why the store is read: to append a record of some format version, or to verify signatures. */
  datatype Purpose = Tip(required: Option<nat>) | Verification

  // ----- one line

  /** The record of a line, as the writer's reader parses it. */
  function LenientRecord(pf: Platform, line: Bytes): Option<seq<Member>> {
    match Decode(line)
    case None => None
    case Some(text) =>
      match LenientParse(pf.read, pf.nesting, text)
      case None => None
      case Some(v) => if v.Obj? then Some(v.members) else None
  }

  function LinkRecord(pf: Platform, line: Bytes, record: seq<Member>, st: State): (r: Result<State, StoreFault>)
    requires LenientSchema(record).Some?
    ensures r.Ok? ==> r.value.number == st.number + 1
  {
    var version := LenientSchema(record).value;
    if st.version.Some? && st.version.value != version then Err(VersionsMixed)
    else if Encode(Serialize(Obj(record), CodePointOrder)) != line then Err(NotInCanonicalForm)
    else if IntegerField(record, "seq").value != st.number then Err(WrongSequence)
    else if StringField(record, "prev_hash").value != st.prev then Err(WrongPrevious)
    else if StringField(record, "record_hash").value != RecordHash(pf, record, CodePointOrder) then Err(WrongHash)
    else Ok(State(st.number + 1, StringField(record, "record_hash").value, Some(version)))
  }

  /** The structural and hash checks that every reader of the store makes. */
  function LinkLine(pf: Platform, line: Bytes, st: State): (r: Result<State, StoreFault>)
    ensures r.Ok? ==> r.value.number == st.number + 1
  {
    if line == [] then Err(Blank)
    else if LenientRecord(pf, line).None? then Err(InvalidRecord)
    else
      var record := LenientRecord(pf, line).value;
      if LenientSchema(record).None? then Err(InvalidRecord) else LinkRecord(pf, line, record, st)
  }

  predicate RecordIsSigned(pf: Platform, record: seq<Member>) {
    SignatureField(record) && SignatureVerifies(pf.verify, record, CodePointOrder)
  }

  /** What the purpose adds to the checks of a linked record. */
  predicate Admits(pf: Platform, purpose: Purpose, record: seq<Member>, linked: State) {
    match purpose
    case Tip(required) => required.Some? ==> linked.version == required
    case Verification => RecordIsSigned(pf, record)
  }

  function Objection(purpose: Purpose): StoreFault {
    if purpose.Tip? then OtherVersion else WrongSignature
  }

  function CheckStored(pf: Platform, purpose: Purpose, line: Bytes, st: State): (r: Result<State, StoreFault>)
    ensures r.Ok? ==> r.value.number == st.number + 1
  {
    var linked := LinkLine(pf, line, st);
    if linked.Err? || Admits(pf, purpose, LenientRecord(pf, line).value, linked.value) then linked
    else Err(Objection(purpose))
  }

  // ----- whole stores

  function Append(pf: Platform, purpose: Purpose, r: Result<State, StoreError>,
                  line: Bytes): Result<State, StoreError> {
    if r.Err? then r
    else
      var checked := CheckStored(pf, purpose, line, r.value);
      if checked.Ok? then Ok(checked.value) else Err(StoreError(r.value.number + 1, checked.error))
  }

  /** Reading the first lines of a store. */
  function Replay(pf: Platform, purpose: Purpose, lines: seq<Bytes>): (r: Result<State, StoreError>)
    ensures r.Ok? ==> r.value.number == |lines|
    ensures r.Err? ==> 1 <= r.error.lineNumber <= |lines|
  {
    if lines == [] then Ok(START)
    else Append(pf, purpose, Replay(pf, purpose, lines[..|lines| - 1]), lines[|lines| - 1])
  }

  /** Reading a whole store. */
  function ReadStore(pf: Platform, purpose: Purpose, stream: Bytes): Result<State, StoreError> {
    var r := Replay(pf, purpose, LinesOf(Terminated(stream)));
    if r.Ok? && Unterminated(stream) != [] then Err(StoreError(r.value.number + 1, Unended)) else r
  }

  lemma ReplaySnoc(pf: Platform, purpose: Purpose, lines: seq<Bytes>, line: Bytes)
    ensures Replay(pf, purpose, lines + [line]) == Append(pf, purpose, Replay(pf, purpose, lines), line)
  {
    assert (lines + [line])[..|lines|] == lines;
  }

  lemma {:induction false} ErrorStays(pf: Platform, purpose: Purpose, lines: seq<Bytes>, more: seq<Bytes>)
    requires Replay(pf, purpose, lines).Err?
    ensures Replay(pf, purpose, lines + more) == Replay(pf, purpose, lines)
  {
    if more == [] {
      assert lines + more == lines;
    } else {
      var init, last := more[..|more| - 1], more[|more| - 1];
      ErrorStays(pf, purpose, lines, init);
      assert lines + more == (lines + init) + [last];
      ReplaySnoc(pf, purpose, lines + init, last);
    }
  }

  lemma ReplayKeepsError(pf: Platform, purpose: Purpose, lines: seq<Bytes>, k: nat)
    requires k <= |lines| && Replay(pf, purpose, lines[..k]).Err?
    ensures Replay(pf, purpose, lines) == Replay(pf, purpose, lines[..k])
  {
    ErrorStays(pf, purpose, lines[..k], lines[k..]);
    assert lines[..k] + lines[k..] == lines;
  }

  /** Where reading ends, with the lines read so far in order and `rest` ahead. */
  lemma StoreEnds(pf: Platform, purpose: Purpose, stream: Bytes, lines: seq<Bytes>, rest: Bytes, st: State)
    requires ReadSoFar(stream, lines, rest) && Replay(pf, purpose, lines) == Ok(st) && LfFree(rest)
    ensures ReadStore(pf, purpose, stream) == if rest == [] then Ok(st) else Err(StoreError(st.number + 1, Unended))
  {
    FirstLines(stream, lines, rest);
  }

  lemma StoreFails(pf: Platform, purpose: Purpose, stream: Bytes, lines: seq<Bytes>, more: Bytes, e: StoreError)
    requires ReadSoFar(stream, lines, more) && Replay(pf, purpose, lines) == Err(e)
    ensures ReadStore(pf, purpose, stream) == Err(e)
  {
    FirstLines(stream, lines, more);
    var all := LinesOf(Terminated(stream));
    assert all[..|lines|] == lines;
    ReplayKeepsError(pf, purpose, all, |lines|);
  }

  // ----- the iterator over records

  datatype Pulled = Finished | Failed(error: StoreError) | Yielded(lineNumber: nat, record: seq<Member>, signed: Bytes)

  /** What the iterator has established when it stops: nothing is left, or the next line is wrong. */
  ghost predicate StopsAt(pf: Platform, rest: Bytes, st: State, r: Pulled) {
    match r
    case Finished => rest == []
    case Failed(e) =>
      && e.lineNumber == st.number + 1
      && if LfFree(rest) then rest != [] && e.fault == Unended
         else exists line, more :: FailsOn(pf, rest, st, line, more, e.fault)
    case Yielded(_, _, _) => true
  }

  ghost predicate FailsOn(pf: Platform, rest: Bytes, st: State, line: Bytes, more: Bytes, fault: StoreFault) {
    rest == line + [LF] + more && LfFree(line) && LinkLine(pf, line, st) == Err(fault)
  }

  /** The record of one line, if it continues the records before it. */
  method LinkNext(pf: Platform, line: Bytes, st: State) returns (r: Result<State, StoreFault>, record: seq<Member>)
    ensures r == LinkLine(pf, line, st)
    ensures r.Ok? ==> LenientRecord(pf, line) == Some(record) && r.value.number == st.number + 1
  {
    r := LinkLine(pf, line, st);
    record := if r.Ok? then LenientRecord(pf, line).value else [];
  }

  class Records {
    const pf: Platform
    const reader: Reader
    var expectedSeq: nat
    var expectedPrevHash: string
    var expectedVersion: Option<nat>
    ghost var lines: seq<Bytes>

    ghost predicate Valid()
      reads this, reader
    {
      reader.Valid() && ReadSoFar(reader.data, lines, Rest()) && |lines| == expectedSeq
    }

    ghost function Rest(): Bytes
      reads this, reader
      requires reader.Valid()
    {
      reader.data[reader.position..]
    }

    /** What the next record must continue. */
    ghost function Expected(): State
      reads this
    {
      State(expectedSeq, expectedPrevHash, expectedVersion)
    }

    constructor (pf: Platform, stream: Bytes)
      ensures Valid() && fresh(reader) && this.pf == pf && reader.data == stream
      ensures Expected() == START && lines == []
    {
      this.pf := pf;
      var r := new Reader(stream);
      reader := r;
      expectedSeq, expectedPrevHash, expectedVersion := 0, GENESIS_HASH, None;
      lines := [];
      new;
      assert reader.data[0..] == stream && Join([]) + stream == stream;
    }

    /** The next record that continues the ones before it, or where and why there is none. */
    method Next() returns (r: Pulled)
      requires Valid()
      modifies this, reader
      ensures !r.Yielded? ==> lines == old(lines) && Expected() == old(Expected())
      ensures StopsAt(pf, old(Rest()), old(Expected()), r)
      ensures r.Yielded? ==>
                && Valid() && old(reader.position) < reader.position
                && |lines| > 0 && lines[..|lines| - 1] == old(lines) && r.lineNumber == expectedSeq
                && LinkLine(pf, lines[|lines| - 1], old(Expected())) == Ok(Expected())
                && LenientRecord(pf, lines[|lines| - 1]) == Some(r.record)
                && r.signed == RecordBytes(r.record, CodePointOrder)
    {
      ghost var rest, st := Rest(), Expected();
      var lineNumber := expectedSeq + 1;
      var physical := NextLine(reader);
      if physical.EndOfStream? {
        return Finished;
      }
      if physical.Partial? {
        return Failed(StoreError(lineNumber, Unended));
      }
      var line := physical.content;
      var checked, record := LinkNext(pf, line, State(expectedSeq, expectedPrevHash, expectedVersion));
      if checked.Err? {
        assert FailsOn(pf, rest, st, line, Rest(), checked.error);
        return Failed(StoreError(lineNumber, checked.error));
      }
      ReadLine(reader.data, lines, rest, line, Rest());
      expectedSeq, expectedPrevHash, expectedVersion := checked.value.number, checked.value.prev, checked.value.version;
      lines := lines + [line];
      r := Yielded(lineNumber, record, RecordBytes(record, CodePointOrder));
    }
  }

  // ----- its two consumers

  lemma LinkedRecord(pf: Platform, line: Bytes, st: State, linked: State, record: seq<Member>)
    requires LinkLine(pf, line, st) == Ok(linked) && LenientRecord(pf, line) == Some(record)
    ensures IntegerField(record, "seq") == Some(st.number) && linked.number == st.number + 1
    ensures StringField(record, "record_hash") == Some(linked.prev) && SignatureField(record)
  {
  }

  lemma RecordChecked(pf: Platform, purpose: Purpose, line: Bytes, st: State, linked: State, record: seq<Member>)
    requires LinkLine(pf, line, st) == Ok(linked) && LenientRecord(pf, line) == Some(record)
    ensures CheckStored(pf, purpose, line, st) ==
            if Admits(pf, purpose, record, linked) then Ok(linked) else Err(Objection(purpose))
  {
  }

  lemma ReplayStep(pf: Platform, purpose: Purpose, lines: seq<Bytes>, st: State)
    requires lines != [] && Replay(pf, purpose, lines[..|lines| - 1]) == Ok(st)
    ensures Replay(pf, purpose, lines) ==
            var checked := CheckStored(pf, purpose, lines[|lines| - 1], st);
            if checked.Ok? then Ok(checked.value) else Err(StoreError(st.number + 1, checked.error))
  {
  }

  /** A yielded record, and what becomes of the reading with it. */
  lemma RecordRead(pf: Platform, purpose: Purpose, stream: Bytes, lines: seq<Bytes>, more: Bytes, st: State,
                   linked: State, record: seq<Member>)
    requires lines != [] && ReadSoFar(stream, lines, more)
    requires Replay(pf, purpose, lines[..|lines| - 1]) == Ok(st)
    requires LinkLine(pf, lines[|lines| - 1], st) == Ok(linked)
    requires LenientRecord(pf, lines[|lines| - 1]) == Some(record)
    ensures IntegerField(record, "seq") == Some(st.number) && linked.number == st.number + 1
    ensures StringField(record, "record_hash") == Some(linked.prev) && SignatureField(record)
    ensures Admits(pf, purpose, record, linked) ==> Replay(pf, purpose, lines) == Ok(linked)
    ensures !Admits(pf, purpose, record, linked) ==>
              ReadStore(pf, purpose, stream) == Err(StoreError(st.number + 1, Objection(purpose)))
  {
    LinkedRecord(pf, lines[|lines| - 1], st, linked, record);
    RecordChecked(pf, purpose, lines[|lines| - 1], st, linked, record);
    ReplayStep(pf, purpose, lines, st);
    if !Admits(pf, purpose, record, linked) {
      StoreFails(pf, purpose, stream, lines, more, StoreError(st.number + 1, Objection(purpose)));
    }
  }

  lemma IterationStops(pf: Platform, purpose: Purpose, stream: Bytes, lines: seq<Bytes>, rest: Bytes, st: State,
                       r: Pulled)
    requires ReadSoFar(stream, lines, rest) && Replay(pf, purpose, lines) == Ok(st)
    requires !r.Yielded? && StopsAt(pf, rest, st, r)
    ensures ReadStore(pf, purpose, stream) == if r.Finished? then Ok(st) else Err(r.error)
  {
    if LfFree(rest) {
      StoreEnds(pf, purpose, stream, lines, rest, st);
    } else {
      var line, more :| FailsOn(pf, rest, st, line, more, r.error.fault);
      ReadLine(stream, lines, rest, line, more);
      ReplaySnoc(pf, purpose, lines, line);
      StoreFails(pf, purpose, stream, lines + [line], more, r.error);
    }
  }

  /** A step of the iterator, seen by a reading for some purpose that has gone well so far. */
  method NextFor(ghost purpose: Purpose, records: Records) returns (r: Pulled)
    requires records.Valid() && Replay(records.pf, purpose, records.lines) == Ok(records.Expected())
    modifies records, records.reader
    ensures !r.Yielded? ==>
              ReadStore(records.pf, purpose, records.reader.data) ==
              if r.Finished? then Ok(old(records.Expected())) else Err(r.error)
    ensures r.Yielded? ==>
              && records.Valid() && old(records.reader.position) < records.reader.position
              && r.lineNumber == records.expectedSeq == old(records.expectedSeq) + 1
              && IntegerField(r.record, "seq") == Some(old(records.expectedSeq)) && SignatureField(r.record)
              && StringField(r.record, "record_hash") == Some(records.expectedPrevHash)
              && r.signed == RecordBytes(r.record, CodePointOrder)
              && if Admits(records.pf, purpose, r.record, records.Expected())
                 then Replay(records.pf, purpose, records.lines) == Ok(records.Expected())
                 else
                   ReadStore(records.pf, purpose, records.reader.data)
                   == Err(StoreError(r.lineNumber, Objection(purpose)))
  {
    ghost var lines, rest, st := records.lines, records.Rest(), records.Expected();
    ghost var pf, stream := records.pf, records.reader.data;
    r := records.Next();
    if r.Yielded? {
      RecordRead(pf, purpose, stream, records.lines, records.Rest(), st, records.Expected(), r.record);
    } else {
      IterationStops(pf, purpose, stream, lines, rest, st, r);
    }
  }

  function TipResult(r: Result<State, StoreError>): Result<(nat, string), StoreError> {
    if r.Ok? then Ok((r.value.number, r.value.prev)) else Err(r.error)
  }

  /** The next sequence number and the hash before it, after validating the store. */
  method NextTip(pf: Platform, stream: Bytes, required: Option<nat>) returns (r: Result<(nat, string), StoreError>)
    ensures r == TipResult(ReadStore(pf, Tip(required), stream))
  {
    var nextSeq: nat := 0;
    var previousHash := GENESIS_HASH;
    var records := new Records(pf, stream);
    while true
      invariant fresh(records) && fresh(records.reader) && records.Valid()
      invariant records.pf == pf && records.reader.data == stream
      invariant Replay(pf, Tip(required), records.lines) == Ok(records.Expected())
      invariant nextSeq == records.expectedSeq && previousHash == records.expectedPrevHash
      decreases |stream| - records.reader.position
    {
      var step := NextFor(Tip(required), records);
      if !step.Yielded? {
        return if step.Finished? then Ok((nextSeq, previousHash)) else Err(step.error);
      }
      if required.Some? && records.expectedVersion != required {
        return Err(StoreError(step.lineNumber, OtherVersion));
      }
      nextSeq := IntegerField(step.record, "seq").value + 1;
      previousHash := StringField(step.record, "record_hash").value;
    }
  }

  datatype Verified = Verified(records: nat, tipHash: Option<string>)

  function VerificationResult(r: Result<State, StoreError>): Result<Verified, StoreError> {
    if r.Err? then Err(r.error)
    else Ok(Verified(r.value.number, if r.value.number == 0 then None else Some(r.value.prev)))
  }

  method CheckSignature(pf: Platform, record: seq<Member>, signed: Bytes) returns (verified: bool)
    requires SignatureField(record) && signed == RecordBytes(record, CodePointOrder)
    ensures verified == RecordIsSigned(pf, record)
  {
    verified := pf.verify(signed, Hex.Decode(StringField(record, "signature").value, 64));
  }

  /** One round of the verification: the next record, with its signature checked. */
  method VerifyNext(records: Records) returns (r: Pulled)
    requires records.Valid() && Replay(records.pf, Verification, records.lines) == Ok(records.Expected())
    modifies records, records.reader
    ensures !r.Yielded? ==>
              ReadStore(records.pf, Verification, records.reader.data) ==
              if r.Finished? then Ok(old(records.Expected())) else Err(r.error)
    ensures r.Yielded? ==>
              && records.Valid() && old(records.reader.position) < records.reader.position
              && records.expectedSeq == old(records.expectedSeq) + 1
              && StringField(r.record, "record_hash") == Some(records.expectedPrevHash)
              && Replay(records.pf, Verification, records.lines) == Ok(records.Expected())
  {
    r := NextFor(Verification, records);
    if r.Yielded? {
      var verified := CheckSignature(records.pf, r.record, r.signed);
      if !verified {
        r := Failed(StoreError(r.lineNumber, WrongSignature));
      }
    }
  }

  /** Verification of a whole chain, signatures included. */
  method VerifyChain(pf: Platform, stream: Bytes) returns (r: Result<Verified, StoreError>)
    ensures r == VerificationResult(ReadStore(pf, Verification, stream))
  {
    var recordsVerified: nat := 0;
    var tipHash: Option<string> := None;
    var records := new Records(pf, stream);
    while true
      invariant fresh(records) && fresh(records.reader) && records.Valid()
      invariant records.pf == pf && records.reader.data == stream
      invariant Replay(pf, Verification, records.lines) == Ok(records.Expected())
      invariant recordsVerified == records.expectedSeq
      invariant tipHash == if recordsVerified == 0 then None else Some(records.expectedPrevHash)
      decreases |stream| - records.reader.position
    {
      var step := VerifyNext(records);
      if !step.Yielded? {
        return if step.Finished? then Ok(Verified(recordsVerified, tipHash)) else Err(step.error);
      }
      recordsVerified := recordsVerified + 1;
      tipHash := Some(StringField(step.record, "record_hash").value);
    }
  }
}
