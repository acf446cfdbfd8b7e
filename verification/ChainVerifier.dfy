/**
 Streaming verification of a chain of canonical records: one line at a time, each bound to
 its predecessor by sequence number and hash, stopping at the first failure.
 */
module ChainVerifier {
  import opened Prelude
  import opened Utf8
  import opened Lines
  import opened Json
  import opened Canonical
  import opened StrictJson
  import opened RecordSchema
  import Hex

  /**
   What the programs are given: SHA-256, and from each one's own libraries how number tokens
   are read as doubles and how signatures are verified under the chain's public key.  The
   strict verifier has the first of each; the nesting limit is that of the writer's interpreter.
   */
  datatype Platform = Platform(
    sha256: HashFunction, strictRead: Reading, strictVerify: (Bytes, Bytes) -> bool,
    read: Reading, verify: (Bytes, Bytes) -> bool, nesting: nat)

  /** What the next record must continue: its number, the hash before it, and the chain's format version. */
  datatype State = State(number: nat, prev: string, version: Option<nat>)

  const START := State(0, GENESIS_HASH, None)

  datatype Fault =
    | NotTerminated
    | BlankLine
    | InvalidUtf8
    | InvalidJson
    | NotAnObject
    | SchemaMismatch
    | MixedVersions
    | NotCanonical
    | SequenceGap
    | SequenceRepeated
    | BrokenLink
    | HashMismatch
    | InvalidSignature

  datatype ChainError = ChainError(number: nat, fault: Fault)

  datatype ChainTip = ChainTip(number: nat, recordHash: string)

  datatype Report = Report(records: nat, tip: Option<ChainTip>)

  function Unsigned(members: seq<Member>): seq<Member> {
    Without(Without(members, "record_hash"), "signature")
  }

  /** The bytes that are hashed and signed. */
  function RecordBytes(members: seq<Member>, order: KeyOrder): Bytes {
    Encode(Serialize(Obj(Unsigned(members)), order))
  }

  function RecordHash(pf: Platform, members: seq<Member>, order: KeyOrder): string {
    Hex.Encode(pf.sha256(RecordBytes(members, order)))
  }

  predicate SignatureVerifies(verify: (Bytes, Bytes) -> bool, members: seq<Member>, order: KeyOrder)
    requires SignatureField(members)
  {
    verify(RecordBytes(members, order), Hex.Decode(StringField(members, "signature").value, 64))
  }

  // ----- the strict verifier, one line

  function CheckLinks(pf: Platform, members: seq<Member>, version: nat, st: State): (r: Result<State, Fault>)
    requires StrictSchema(members).Some?
    ensures r.Ok? ==> r.value.number == st.number + 1
  {
    var seqNumber := IntegerField(members, "seq").value;
    var recordHash := StringField(members, "record_hash").value;
    if seqNumber > st.number then Err(SequenceGap)
    else if seqNumber < st.number then Err(SequenceRepeated)
    else if StringField(members, "prev_hash").value != st.prev then Err(BrokenLink)
    else if RecordHash(pf, members, ByteOrder) != recordHash then Err(HashMismatch)
    else if !SignatureVerifies(pf.strictVerify, members, ByteOrder) then Err(InvalidSignature)
    else Ok(State(st.number + 1, recordHash, Some(version)))
  }

  function CheckRecord(pf: Platform, line: Bytes, v: Value, st: State): (r: Result<State, Fault>)
    ensures r.Ok? ==> r.value.number == st.number + 1
  {
    if !v.Obj? then Err(NotAnObject)
    else if StrictSchema(v.members).None? then Err(SchemaMismatch)
    else
      var version := StrictSchema(v.members).value;
      if st.version.Some? && st.version.value != version then Err(MixedVersions)
      else if Encode(Serialize(v, ByteOrder)) != line then Err(NotCanonical)
      else CheckLinks(pf, v.members, version, st)
  }

  function CheckLine(pf: Platform, line: Bytes, st: State): (r: Result<State, Fault>)
    ensures r.Ok? ==> r.value.number == st.number + 1
  {
    if line == [] then Err(BlankLine)
    else
      match Decode(line)
      case None => Err(InvalidUtf8)
      case Some(text) =>
        match StrictParse(pf.strictRead, text)
        case None => Err(InvalidJson)
        case Some(v) => CheckRecord(pf, line, v, st)
  }

  // ----- whole streams

  /** One more line, unless verification has failed before it. */
  function Extend(pf: Platform, r: Result<State, ChainError>, line: Bytes): Result<State, ChainError> {
    if r.Err? then r
    else
      var checked := CheckLine(pf, line, r.value);
      if checked.Ok? then Ok(checked.value) else Err(ChainError(r.value.number, checked.error))
  }

  /** Verification of the first lines of a chain. */
  function Run(pf: Platform, lines: seq<Bytes>): (r: Result<State, ChainError>)
    ensures r.Ok? ==> r.value.number == |lines|
    ensures r.Err? ==> r.error.number < |lines|
  {
    if lines == [] then Ok(START) else Extend(pf, Run(pf, lines[..|lines| - 1]), lines[|lines| - 1])
  }

  function TipOf(st: State): Option<ChainTip> {
    if st.number == 0 then None else Some(ChainTip(st.number - 1, st.prev))
  }

  function VerifyStream(pf: Platform, stream: Bytes): Result<Report, ChainError> {
    match Run(pf, LinesOf(Terminated(stream)))
    case Err(e) => Err(e)
    case Ok(st) =>
      if Unterminated(stream) != [] then Err(ChainError(st.number, NotTerminated))
      else Ok(Report(st.number, TipOf(st)))
  }

  lemma {:induction false} ErrorStays(pf: Platform, lines: seq<Bytes>, more: seq<Bytes>)
    requires Run(pf, lines).Err?
    ensures Run(pf, lines + more) == Run(pf, lines)
  {
    if more == [] {
      assert lines + more == lines;
    } else {
      var init, last := more[..|more| - 1], more[|more| - 1];
      ErrorStays(pf, lines, init);
      assert lines + more == (lines + init) + [last];
      RunSnoc(pf, lines + init, last);
    }
  }

  lemma RunKeepsError(pf: Platform, lines: seq<Bytes>, k: nat)
    requires k <= |lines| && Run(pf, lines[..k]).Err?
    ensures Run(pf, lines) == Run(pf, lines[..k])
  {
    ErrorStays(pf, lines[..k], lines[k..]);
    assert lines[..k] + lines[k..] == lines;
  }

  lemma RunSnoc(pf: Platform, lines: seq<Bytes>, line: Bytes)
    ensures Run(pf, lines + [line]) == Extend(pf, Run(pf, lines), line)
  {
    assert (lines + [line])[..|lines|] == lines;
  }

  /** The stream read so far, as complete lines, continues with `rest`. */
  ghost predicate ReadSoFar(stream: Bytes, lines: seq<Bytes>, rest: Bytes) {
    AllLfFree(lines) && stream == Join(lines) + rest
  }

  lemma ReadLine(stream: Bytes, lines: seq<Bytes>, rest: Bytes, line: Bytes, more: Bytes)
    requires ReadSoFar(stream, lines, rest) && rest == line + [LF] + more && LfFree(line)
    ensures ReadSoFar(stream, lines + [line], more)
  {
    JoinSnoc(lines, line);
    assert Join(lines) + (line + [LF] + more) == Join(lines) + line + [LF] + more;
  }

  lemma FirstLines(stream: Bytes, lines: seq<Bytes>, rest: Bytes)
    requires ReadSoFar(stream, lines, rest)
    ensures lines <= LinesOf(Terminated(stream))
    ensures LfFree(rest) ==> LinesOf(Terminated(stream)) == lines && Unterminated(stream) == rest
  {
    StreamIsJoined(rest);
    var tail, more := Unterminated(rest), LinesOf(Terminated(rest));
    JoinAppend(lines, more);
    assert stream == Join(lines + more) + tail;
    SplitStream(lines + more, tail);
    if LfFree(rest) {
      SplitStream(lines, rest);
    }
  }

  lemma {:induction false} JoinAppend(a: seq<Bytes>, b: seq<Bytes>)
    ensures Join(a + b) == Join(a) + Join(b)
  {
    if b == [] {
      assert a + b == a;
    } else {
      var init, last := b[..|b| - 1], b[|b| - 1];
      JoinAppend(a, init);
      assert a + b == (a + init) + [last] && b == init + [last];
      JoinSnoc(a + init, last);
      JoinSnoc(init, last);
      assert Join(a) + (Join(init) + last + [LF]) == Join(a) + Join(init) + last + [LF];
    }
  }

  /** The lines read so far verify, and leave the chain in state `st`. */
  ghost predicate VerifiedSoFar(pf: Platform, stream: Bytes, lines: seq<Bytes>, rest: Bytes, st: State) {
    ReadSoFar(stream, lines, rest) && Run(pf, lines) == Ok(st)
  }

  lemma StreamEnds(pf: Platform, stream: Bytes, lines: seq<Bytes>, rest: Bytes, st: State)
    requires VerifiedSoFar(pf, stream, lines, rest, st) && LfFree(rest)
    ensures VerifyStream(pf, stream)
            == if rest == [] then Ok(Report(st.number, TipOf(st))) else Err(ChainError(st.number, NotTerminated))
  {
    FirstLines(stream, lines, rest);
  }

  lemma StreamFails(pf: Platform, stream: Bytes, lines: seq<Bytes>, rest: Bytes, line: Bytes, more: Bytes,
                    e: ChainError)
    requires ReadSoFar(stream, lines, rest) && rest == line + [LF] + more && LfFree(line)
    requires Run(pf, lines + [line]) == Err(e)
    ensures VerifyStream(pf, stream) == Err(e)
  {
    ReadLine(stream, lines, rest, line, more);
    FirstLines(stream, lines + [line], more);
    var all := LinesOf(Terminated(stream));
    assert all[..|lines + [line]|] == lines + [line];
    RunKeepsError(pf, all, |lines + [line]|);
  }

  lemma StreamAdvances(pf: Platform, stream: Bytes, lines: seq<Bytes>, rest: Bytes, line: Bytes, more: Bytes, st: State)
    requires ReadSoFar(stream, lines, rest) && rest == line + [LF] + more && LfFree(line)
    requires Run(pf, lines + [line]) == Ok(st)
    ensures VerifiedSoFar(pf, stream, lines + [line], more, st)
  {
    ReadLine(stream, lines, rest, line, more);
  }

  datatype Physical = EndOfStream | Partial | Line(content: Bytes)

  /** The next physical line without its line feed, the end, or an unterminated rest. */
  method NextLine(reader: Reader) returns (r: Physical)
    requires reader.Valid()
    modifies reader
    ensures reader.Valid() && old(reader.position) <= reader.position
    ensures r.EndOfStream? ==> old(reader.data[reader.position..]) == []
    ensures r.Partial? ==> old(reader.data[reader.position..]) != [] && LfFree(old(reader.data[reader.position..]))
    ensures r.Line? ==> old(reader.position) < reader.position && LfFree(r.content)
    ensures r.Line? ==> old(reader.data[reader.position..]) == r.content + [LF] + reader.data[reader.position..]
  {
    ghost var rest := reader.data[reader.position..];
    var chunk := reader.ReadUntilLf();
    if chunk == [] {
      return EndOfStream;
    }
    assert rest == chunk + reader.data[reader.position..];
    var line, last := chunk[..|chunk| - 1], chunk[|chunk| - 1];
    assert chunk == line + [last];
    r := if last != LF then Partial else Line(line);
  }

  /** The checks of one line, in a chain whose first lines have been verified. */
  method VerifyLine(pf: Platform, line: Bytes, st: State, ghost lines: seq<Bytes>) returns (r: Result<State, Fault>)
    requires Run(pf, lines) == Ok(st)
    ensures r.Ok? ==> Run(pf, lines + [line]) == Ok(r.value) && r.value.number == st.number + 1
    ensures r.Err? ==> Run(pf, lines + [line]) == Err(ChainError(st.number, r.error))
  {
    RunSnoc(pf, lines, line);
    r := CheckLine(pf, line, st);
  }

  /** The streaming loop reports exactly the verdict on the whole stream. */
  method VerifyReader(pf: Platform, reader: Reader) returns (r: Result<Report, ChainError>)
    requires reader.Valid() && reader.position == 0
    modifies reader
    ensures r == VerifyStream(pf, reader.data)
  {
    var expectedSeq: nat := 0;
    var expectedPrev := GENESIS_HASH;
    var chainFormatVersion: Option<nat> := None;
    var tip: Option<ChainTip> := None;
    ghost var stream, lines, rest := reader.data, [], reader.data;
    assert reader.data[0..] == stream;
    while true
      invariant reader.Valid() && reader.data == stream && rest == stream[reader.position..]
      invariant VerifiedSoFar(pf, stream, lines, rest, State(expectedSeq, expectedPrev, chainFormatVersion))
      invariant tip == TipOf(State(expectedSeq, expectedPrev, chainFormatVersion))
      decreases |stream| - reader.position
    {
      var st := State(expectedSeq, expectedPrev, chainFormatVersion);
      var physical := NextLine(reader);
      if !physical.Line? {
        StreamEnds(pf, stream, lines, rest, st);
        return
          if physical.EndOfStream? then Ok(Report(expectedSeq, tip)) else Err(ChainError(expectedSeq, NotTerminated));
      }
      ghost var more := stream[reader.position..];
      var line := physical.content;
      var checked := VerifyLine(pf, line, st, lines);
      if checked.Err? {
        StreamFails(pf, stream, lines, rest, line, more, ChainError(expectedSeq, checked.error));
        return Err(ChainError(expectedSeq, checked.error));
      }
      var next := checked.value;
      StreamAdvances(pf, stream, lines, rest, line, more, next);
      lines, rest := lines + [line], more;
      expectedSeq, expectedPrev, chainFormatVersion := next.number, next.prev, next.version;
      tip := Some(ChainTip(expectedSeq - 1, expectedPrev));
    }
  }
}
