/** What an accepted chain guarantees: locality of failure, its prefixes, its tip, and its history. */
module ChainTheorems {
  import opened Prelude
  import opened Utf8
  import opened Lines
  import opened Json
  import opened Canonical
  import opened StrictJson
  import opened FixedFloats
  import opened RecordSchema
  import opened ChainVerifier
  import Hex

  // ----- failures are local and the first one is reported

  function AllLines(stream: Bytes): seq<Bytes> {
    LinesOf(Terminated(stream))
  }

  lemma {:induction false} RunFirstFailure(pf: Platform, lines: seq<Bytes>)
    requires Run(pf, lines).Err?
    ensures var e := Run(pf, lines).error;
            && Run(pf, lines[..e.number]).Ok?
            && CheckLine(pf, lines[e.number], Run(pf, lines[..e.number]).value) == Err(e.fault)
    decreases |lines|
  {
    var init := lines[..|lines| - 1];
    var e := Run(pf, lines).error;
    if Run(pf, init).Err? {
      RunFirstFailure(pf, init);
      assert init[..e.number] == lines[..e.number];
    } else {
      assert lines[..e.number] == init;
    }
  }

  /**
   An error at record k means that the first k lines form an accepted chain and that line k
   is the first bad one, or the unterminated rest after k good lines.
   */
  lemma ErrorIsFirstFailure(pf: Platform, stream: Bytes)
    requires VerifyStream(pf, stream).Err?
    ensures var lines, e := AllLines(stream), VerifyStream(pf, stream).error;
            && e.number <= |lines| && Run(pf, lines[..e.number]).Ok?
            && (e.number < |lines| ==>
                  CheckLine(pf, lines[e.number], Run(pf, lines[..e.number]).value) == Err(e.fault))
            && (e.number == |lines| ==> e.fault == NotTerminated && Unterminated(stream) != [])
  {
    var lines := AllLines(stream);
    if Run(pf, lines).Err? {
      RunFirstFailure(pf, lines);
    } else {
      assert lines[..|lines|] == lines;
    }
  }

  lemma {:induction false} RunPrefix(pf: Platform, lines: seq<Bytes>, k: nat)
    requires k <= |lines| && Run(pf, lines).Ok?
    ensures Run(pf, lines[..k]).Ok?
    decreases |lines|
  {
    if k == |lines| {
      assert lines[..k] == lines;
    } else {
      var init := lines[..|lines| - 1];
      RunPrefix(pf, init, k);
      assert init[..k] == lines[..k];
    }
  }

  lemma RunOfPrefix(pf: Platform, a: seq<Bytes>, b: seq<Bytes>)
    requires a <= b && Run(pf, b).Ok?
    ensures Run(pf, a).Ok?
  {
    assert b[..|a|] == a;
    RunPrefix(pf, b, |a|);
  }

  lemma VerifiedLines(pf: Platform, stream: Bytes)
    requires VerifyStream(pf, stream).Ok?
    ensures Run(pf, AllLines(stream)).Ok? && Unterminated(stream) == []
    ensures VerifyStream(pf, stream).value.records == |AllLines(stream)|
    ensures VerifyStream(pf, stream).value.tip == TipOf(Run(pf, AllLines(stream)).value)
  {
  }

  lemma LinesVerify(pf: Platform, stream: Bytes)
    requires Run(pf, AllLines(stream)).Ok? && Unterminated(stream) == []
    ensures VerifyStream(pf, stream).Ok? && VerifyStream(pf, stream).value.records == |AllLines(stream)|
  {
  }

  lemma PrefixLines(stream: Bytes, prefix: Bytes)
    requires prefix <= stream && (prefix == [] || prefix[|prefix| - 1] == LF)
    ensures AllLines(prefix) <= AllLines(stream) && Unterminated(prefix) == []
  {
    var lines := LinesOf(prefix);
    JoinLinesOf(prefix);
    FirstLines(stream, lines, stream[|prefix|..]);
    assert Join(lines) + [] == prefix;
    SplitStream(lines, []);
  }

  /** Every prefix of an accepted stream that is empty or ends in a line feed is accepted. */
  lemma PrefixIsAccepted(pf: Platform, stream: Bytes, prefix: Bytes)
    requires VerifyStream(pf, stream).Ok?
    requires prefix <= stream && (prefix == [] || prefix[|prefix| - 1] == LF)
    ensures VerifyStream(pf, prefix).Ok? && VerifyStream(pf, prefix).value.records == |AllLines(prefix)|
    ensures AllLines(prefix) <= AllLines(stream)
  {
    VerifiedLines(pf, stream);
    PrefixLines(stream, prefix);
    RunOfPrefix(pf, AllLines(prefix), AllLines(stream));
    LinesVerify(pf, prefix);
  }

  // ----- an accepted line

  /** The record that the strict parser reads from a line. */
  function StrictRecord(pf: Platform, line: Bytes): Option<seq<Member>> {
    match Decode(line)
    case None => None
    case Some(text) =>
      match StrictParse(pf.strictRead, text)
      case None => None
      case Some(v) => if v.Obj? then Some(v.members) else None
  }

  /** A line is the canonical text of a legal record. */
  ghost predicate HoldsRecord(pf: Platform, line: Bytes, record: seq<Member>) {
    && line == Encode(Render(Obj(record)))
    && Canon(Obj(record), CodePointOrder) == Obj(record)
    && Legal(Obj(record), STRICT_NESTING, pf.strictRead, true)
  }

  /** What the strict checks establish about the record of a line between two states. */
  ghost predicate Links(pf: Platform, record: seq<Member>, st: State, next: State) {
    && StrictSchema(record).Some? && next.version == Some(StrictSchema(record).value)
    && (st.version.Some? ==> st.version == next.version)
    && next.number == st.number + 1
    && IntegerField(record, "seq") == Some(st.number)
    && StringField(record, "prev_hash") == Some(st.prev)
    && StringField(record, "record_hash") == Some(next.prev)
    && RecordHash(pf, record, ByteOrder) == next.prev
    && SignatureField(record) && SignatureVerifies(pf.strictVerify, record, ByteOrder)
  }

  lemma SerializedLineHoldsRecord(pf: Platform, line: Bytes, record: seq<Member>, text: string)
    requires Normalizing(pf.strictRead)
    requires Decode(line) == Some(text) && StrictParse(pf.strictRead, text) == Some(Obj(record))
    requires Encode(Serialize(Obj(record), ByteOrder)) == line
    ensures HoldsRecord(pf, line, record)
  {
    DecodeEncoded(Serialize(Obj(record), ByteOrder));
    StrictCanonicalText(pf.strictRead, text);
    CanonAgrees(Obj(record));
  }

  lemma AcceptedRecordLinks(pf: Platform, line: Bytes, v: Value, st: State, next: State)
    requires CheckRecord(pf, line, v, st) == Ok(next)
    ensures v.Obj? && Links(pf, v.members, st, next) && Encode(Serialize(v, ByteOrder)) == line
  {
  }

  /** The line of an accepted step holds a record that links the two states. */
  lemma AcceptedLine(pf: Platform, line: Bytes, st: State, next: State) returns (record: seq<Member>)
    requires Normalizing(pf.strictRead) && CheckLine(pf, line, st) == Ok(next)
    ensures StrictRecord(pf, line) == Some(record)
    ensures HoldsRecord(pf, line, record) && Links(pf, record, st, next)
  {
    var text := Decode(line).value;
    var v := StrictParse(pf.strictRead, text).value;
    record := v.members;
    AcceptedRecordLinks(pf, line, v, st, next);
    SerializedLineHoldsRecord(pf, line, record, text);
  }

  /** How the verifier reads back a line that holds a record. */
  lemma HeldRecordParses(pf: Platform, line: Bytes, record: seq<Member>)
    requires HoldsRecord(pf, line, record)
    ensures line != [] && Decode(line) == Some(Render(Obj(record)))
    ensures StrictParse(pf.strictRead, Render(Obj(record))) == Some(Obj(record))
    ensures Encode(Serialize(Obj(record), ByteOrder)) == line
  {
    var v := Obj(record);
    CanonAgrees(v);
    DecodeEncoded(Render(v));
    ParsersInvertSerializers(v, CodePointOrder, 0, pf.strictRead, pf.read);
    assert Render(v) != [];
  }

  lemma LinkingRecordIsAccepted(pf: Platform, line: Bytes, record: seq<Member>, st: State, next: State)
    requires Encode(Serialize(Obj(record), ByteOrder)) == line && Links(pf, record, st, next)
    ensures CheckRecord(pf, line, Obj(record), st) == Ok(next)
  {
    assert CheckLinks(pf, record, StrictSchema(record).value, st) == Ok(next);
  }

  lemma LineCheckIs(pf: Platform, line: Bytes, text: string, v: Value, st: State)
    requires line != [] && Decode(line) == Some(text) && StrictParse(pf.strictRead, text) == Some(v)
    ensures CheckLine(pf, line, st) == CheckRecord(pf, line, v, st)
  {
  }

  /** Conversely, a line that holds a linking record is accepted. */
  lemma LinkingLineIsAccepted(pf: Platform, line: Bytes, record: seq<Member>, st: State, next: State)
    requires HoldsRecord(pf, line, record) && Links(pf, record, st, next)
    ensures CheckLine(pf, line, st) == Ok(next)
  {
    HeldRecordParses(pf, line, record);
    LinkingRecordIsAccepted(pf, line, record, st, next);
    LineCheckIs(pf, line, Render(Obj(record)), Obj(record), st);
  }

  // ----- the tip read from the last line alone

  /** The tip that anchoring reads: the last line of the chain, without any other check. */
  function ReadTip(pf: Platform, stream: Bytes): Option<ChainTip> {
    if stream == [] || stream[|stream| - 1] != LF then None
    else
      var body := stream[..|stream| - 1];
      TipOfLine(pf, body[AfterLastLf(body)..])
  }

  function TipOfLine(pf: Platform, line: Bytes): Option<ChainTip> {
    match Decode(line)
    case None => None
    case Some(text) =>
      match StrictParse(pf.strictRead, text)
      case None => None
      case Some(v) =>
        if Encode(Serialize(v, ByteOrder)) != line || !v.Obj? then None
        else TipFields(v.members)
  }

  function TipFields(record: seq<Member>): Option<ChainTip> {
    if IntegerField(record, "seq").None? || StringField(record, "record_hash").None? then None
    else Some(ChainTip(IntegerField(record, "seq").value, StringField(record, "record_hash").value))
  }

  lemma LastLine(stream: Bytes)
    requires stream != [] && stream[|stream| - 1] == LF
    ensures var body := stream[..|stream| - 1];
            AllLines(stream) != [] && AllLines(stream)[|AllLines(stream)| - 1] == body[AfterLastLf(body)..]
  {
    assert Terminated(stream) == stream;
  }

  lemma TipOfAcceptedLine(pf: Platform, line: Bytes, st: State, next: State)
    requires Normalizing(pf.strictRead) && CheckLine(pf, line, st) == Ok(next)
    ensures TipOfLine(pf, line) == Some(ChainTip(st.number, next.prev))
  {
    var record := AcceptedLine(pf, line, st, next);
    HeldRecordParses(pf, line, record);
    assert TipFields(record) == Some(ChainTip(st.number, next.prev));
  }

  lemma LastStep(pf: Platform, lines: seq<Bytes>) returns (st: State)
    requires lines != [] && Run(pf, lines).Ok?
    ensures Run(pf, lines[..|lines| - 1]) == Ok(st) && st.number == |lines| - 1
    ensures CheckLine(pf, lines[|lines| - 1], st) == Ok(Run(pf, lines).value)
  {
    st := Run(pf, lines[..|lines| - 1]).value;
  }

  lemma TerminatedStream(stream: Bytes)
    requires Unterminated(stream) == []
    ensures AllLines(stream) == [] <==> stream == []
    ensures stream != [] ==> stream[|stream| - 1] == LF
  {
    StreamIsJoined(stream);
    JoinEndsInLf(AllLines(stream));
    assert stream == Join(AllLines(stream)) + [] == Join(AllLines(stream));
  }

  lemma TipOfLines(pf: Platform, stream: Bytes)
    requires Normalizing(pf.strictRead) && Run(pf, AllLines(stream)).Ok? && Unterminated(stream) == []
    ensures ReadTip(pf, stream) == TipOf(Run(pf, AllLines(stream)).value)
    ensures stream != [] ==> ReadTip(pf, stream).Some?
  {
    var lines := AllLines(stream);
    TerminatedStream(stream);
    if stream != [] {
      LastLine(stream);
      var st := LastStep(pf, lines);
      TipOfAcceptedLine(pf, lines[|lines| - 1], st, Run(pf, lines).value);
    }
  }

  /** On an accepted chain the last line alone gives the tip of the full pass. */
  lemma TipFromLastLine(pf: Platform, stream: Bytes)
    requires Normalizing(pf.strictRead) && VerifyStream(pf, stream).Ok?
    ensures ReadTip(pf, stream) == VerifyStream(pf, stream).value.tip
    ensures stream != [] ==> ReadTip(pf, stream).Some?
  {
    VerifiedLines(pf, stream);
    TipOfLines(pf, stream);
  }
}
