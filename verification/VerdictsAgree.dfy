/**
 Where the verdicts of the strict verifier and of the writer's own verifier divide: for each, exactly
 what it demands of a record that the other accepts.
 */
module VerdictsAgree {
  import opened Prelude
  import opened Utf8
  import opened Decimal
  import opened Json
  import opened Canonical
  import opened StrictJson
  import opened FixedFloats
  import opened RecordSchema
  import opened ChainVerifier
  import opened ChainTheorems
  import opened Store

  // ----- nesting

  /** How many containers deep a value is. */
  function Depth(v: Value): nat {
    match v
    case Arr(items) => 1 + ItemsDepth(items)
    case Obj(members) => 1 + MembersDepth(members)
    case _ => 0
  }

  function Max(a: nat, b: nat): nat {
    if a < b then b else a
  }

  function ItemsDepth(items: seq<Value>): nat {
    if items == [] then 0 else Max(Depth(items[0]), ItemsDepth(items[1..]))
  }

  function MembersDepth(members: seq<Member>): nat {
    if members == [] then 0 else Max(Depth(members[0].value), MembersDepth(members[1..]))
  }

  /** A legal value is legal for exactly the budgets that cover its depth. */
  lemma {:induction false} LegalAtDepth(v: Value, budget: nat, other: nat, read: Reading, bounded: bool)
    requires Legal(v, budget, read, bounded)
    ensures Depth(v) <= budget
    ensures Depth(v) <= other ==> Legal(v, other, read, bounded)
    decreases v, 0
  {
    match v
    case Arr(items) => ItemsLegalAtDepth(items, budget - 1, if other == 0 then 0 else other - 1, read, bounded);
    case Obj(members) => MembersLegalAtDepth(members, budget - 1, if other == 0 then 0 else other - 1, read, bounded);
    case _ =>
  }

  lemma {:induction false} ItemsLegalAtDepth(items: seq<Value>, budget: nat, other: nat, read: Reading, bounded: bool)
    requires LegalItems(items, budget, read, bounded)
    ensures ItemsDepth(items) <= budget
    ensures ItemsDepth(items) <= other ==> LegalItems(items, other, read, bounded)
    decreases items, 0
  {
    if items != [] {
      LegalAtDepth(items[0], budget, other, read, bounded);
      ItemsLegalAtDepth(items[1..], budget, other, read, bounded);
    }
  }

  lemma {:induction false} MembersLegalAtDepth(members: seq<Member>, budget: nat, other: nat, read: Reading,
                                               bounded: bool)
    requires LegalMembers(members, budget, read, bounded)
    ensures MembersDepth(members) <= budget
    ensures MembersDepth(members) <= other ==> LegalMembers(members, other, read, bounded)
    decreases members, 0
  {
    if members != [] {
      LegalAtDepth(members[0].value, budget, other, read, bounded);
      MembersLegalAtDepth(members[1..], budget, other, read, bounded);
    }
  }

  // ----- what each verifier demands beyond the other

  /**
   The libraries do their part: the writer's parser reads back every double, those of the
   strict parser included, and a signature that verifies strictly verifies.
   */
  ghost predicate GoodPlatform(pf: Platform) {
    && GoodReading(pf.read) && Normalizing(pf.strictRead)
    && (forall t :: pf.strictRead(t).Some? ==> pf.read(LayoutToken(pf.strictRead(t).value)) == pf.strictRead(t))
    && (forall m, s :: pf.strictVerify(m, s) ==> pf.verify(m, s))
  }

  predicate HasDatetime(record: seq<Member>) {
    StringField(record, "ts_utc").Some? && LenientTimestamp(StringField(record, "ts_utc").value)
  }

  predicate StrictlySigned(pf: Platform, record: seq<Member>) {
    SignatureField(record) && SignatureVerifies(pf.strictVerify, record, CodePointOrder)
  }

  /** What the writer's verifier demands of a record that the strict one accepts. */
  predicate WriterDemands(pf: Platform, record: seq<Member>) {
    HasDatetime(record) && Depth(Obj(record)) <= pf.nesting
  }

  /**
   What the strict verifier demands of a record that the writer's accepts: shallow enough
   nesting, floats that its parser reads back, and a signature that verifies strictly.
   */
  predicate StrictDemands(pf: Platform, record: seq<Member>) {
    && Depth(Obj(record)) <= 127 && FloatsFixed(Obj(record), pf.strictRead)
    && StrictlySigned(pf, record)
  }

  // ----- records that each one's parser reads back

  /** A line is the canonical text of a record that the writer's reader can parse. */
  ghost predicate HoldsStored(pf: Platform, line: Bytes, record: seq<Member>) {
    && line == Encode(Render(Obj(record)))
    && Canon(Obj(record), CodePointOrder) == Obj(record)
    && Legal(Obj(record), pf.nesting, pf.read, false)
  }

  lemma {:induction false} StrictFloatsAreDoubles(v: Value, pf: Platform)
    requires GoodPlatform(pf) && FloatsFixed(v, pf.strictRead)
    ensures FloatsFixed(v, pf.read)
    decreases v, 0
  {
    match v
    case Arr(items) => StrictItemsAreDoubles(items, pf);
    case Obj(members) => StrictMembersAreDoubles(members, pf);
    case _ =>
  }

  lemma {:induction false} StrictItemsAreDoubles(items: seq<Value>, pf: Platform)
    requires GoodPlatform(pf) && ItemsFixed(items, pf.strictRead)
    ensures ItemsFixed(items, pf.read)
    decreases items, 0
  {
    if items != [] {
      StrictFloatsAreDoubles(items[0], pf);
      StrictItemsAreDoubles(items[1..], pf);
    }
  }

  lemma {:induction false} StrictMembersAreDoubles(members: seq<Member>, pf: Platform)
    requires GoodPlatform(pf) && MembersFixed(members, pf.strictRead)
    ensures MembersFixed(members, pf.read)
    decreases members, 0
  {
    if members != [] {
      StrictFloatsAreDoubles(members[0].value, pf);
      StrictMembersAreDoubles(members[1..], pf);
    }
  }

  lemma HeldForWriter(pf: Platform, line: Bytes, record: seq<Member>)
    requires GoodPlatform(pf) && HoldsRecord(pf, line, record)
    ensures MembersBounded(record) && FloatsFixed(Obj(record), pf.strictRead) && Depth(Obj(record)) <= STRICT_NESTING
    ensures HoldsStored(pf, line, record) <==> Depth(Obj(record)) <= pf.nesting
  {
    var v := Obj(record);
    LegalIsFixed(v, STRICT_NESTING, pf.strictRead, true);
    LegalWithinBounds(v, STRICT_NESTING, ExactReading);
    StrictFloatsAreDoubles(v, pf);
    LegalAtDepth(v, STRICT_NESTING, pf.nesting, ExactReading, false);
    LegalIsFixed(v, pf.nesting, pf.read, false);
    if Legal(v, pf.nesting, pf.read, false) {
      LegalAtDepth(v, pf.nesting, 0, pf.read, false);
    }
  }

  lemma HeldForStrict(pf: Platform, line: Bytes, record: seq<Member>)
    requires HoldsStored(pf, line, record) && MembersBounded(record)
    ensures Depth(Obj(record)) <= pf.nesting
    ensures HoldsRecord(pf, line, record) <==>
            Depth(Obj(record)) <= STRICT_NESTING && FloatsFixed(Obj(record), pf.strictRead)
  {
    var v := Obj(record);
    LegalIsFixed(v, pf.nesting, pf.read, false);
    LegalAtDepth(v, pf.nesting, STRICT_NESTING, ExactReading, false);
    LegalIsFixed(v, STRICT_NESTING, pf.strictRead, true);
    LegalWithinBounds(v, STRICT_NESTING, ExactReading);
    if Legal(v, STRICT_NESTING, pf.strictRead, true) {
      LegalAtDepth(v, STRICT_NESTING, 0, pf.strictRead, true);
    }
  }

  // ----- the writer's checks, stated on the record

  /** What the writer's checks establish about the record of a line between two states. */
  ghost predicate LinksStored(pf: Platform, record: seq<Member>, st: State, next: State) {
    && LenientSchema(record).Some? && next.version == Some(LenientSchema(record).value)
    && (st.version.Some? ==> st.version == next.version)
    && next.number == st.number + 1
    && IntegerField(record, "seq") == Some(st.number)
    && StringField(record, "prev_hash") == Some(st.prev)
    && StringField(record, "record_hash") == Some(next.prev)
    && RecordHash(pf, record, CodePointOrder) == next.prev
  }

  predicate IsText(line: Bytes, record: seq<Member>) {
    Encode(Serialize(Obj(record), CodePointOrder)) == line
  }

  lemma LinkingRecordPasses(pf: Platform, line: Bytes, record: seq<Member>, st: State, next: State)
    requires LinksStored(pf, record, st, next) && IsText(line, record)
    ensures LinkRecord(pf, line, record, st) == Ok(next)
  {
  }

  lemma PassingRecordLinks(pf: Platform, line: Bytes, record: seq<Member>, st: State, next: State)
    requires LenientSchema(record).Some? && LinkRecord(pf, line, record, st) == Ok(next)
    ensures LinksStored(pf, record, st, next) && IsText(line, record)
  {
  }

  lemma StoredTextHoldsRecord(pf: Platform, line: Bytes, record: seq<Member>)
    requires GoodReading(pf.read) && LenientRecord(pf, line) == Some(record)
    requires Encode(Serialize(Obj(record), CodePointOrder)) == line
    ensures HoldsStored(pf, line, record)
  {
    DecodeEncoded(Serialize(Obj(record), CodePointOrder));
    LenientCanonicalText(pf.read, pf.nesting, Serialize(Obj(record), CodePointOrder));
  }

  lemma HeldStoredParses(pf: Platform, line: Bytes, record: seq<Member>)
    requires HoldsStored(pf, line, record)
    ensures line != [] && LenientRecord(pf, line) == Some(record)
    ensures Encode(Serialize(Obj(record), CodePointOrder)) == line
  {
    DecodeEncoded(Render(Obj(record)));
    ParsersInvertSerializers(Obj(record), CodePointOrder, pf.nesting, pf.strictRead, pf.read);
    assert Render(Obj(record)) != [];
  }

  /** A line links two states exactly if it holds a record that does. */
  lemma LinkedLineIs(pf: Platform, line: Bytes, st: State, next: State)
    requires GoodReading(pf.read)
    ensures LinkLine(pf, line, st) == Ok(next) ==>
              && LenientRecord(pf, line).Some? && HoldsStored(pf, line, LenientRecord(pf, line).value)
              && LinksStored(pf, LenientRecord(pf, line).value, st, next)
  {
    if LinkLine(pf, line, st) == Ok(next) {
      var record := LenientRecord(pf, line).value;
      PassingRecordLinks(pf, line, record, st, next);
      StoredTextHoldsRecord(pf, line, record);
    }
  }

  lemma LinkingStoredIsAccepted(pf: Platform, line: Bytes, record: seq<Member>, st: State, next: State)
    requires HoldsStored(pf, line, record) && LinksStored(pf, record, st, next)
    ensures LinkLine(pf, line, st) == Ok(next) && LenientRecord(pf, line) == Some(record)
  {
    HeldStoredParses(pf, line, record);
    LinkingRecordPasses(pf, line, record, st, next);
  }

  lemma SameHashedBytes(record: seq<Member>)
    ensures RecordBytes(record, ByteOrder) == RecordBytes(record, CodePointOrder)
  {
    SerializersAgree(Obj(Unsigned(record)));
  }

  /** On a record within bounds the two sets of checks are the same, but for timestamps and signatures. */
  lemma ChecksAgree(pf: Platform, record: seq<Member>, st: State, next: State)
    requires MembersBounded(record)
    ensures Links(pf, record, st, next) && HasDatetime(record) <==>
            LinksStored(pf, record, st, next) && StrictlySigned(pf, record)
  {
    ValidatorsAgree(record);
    SameHashedBytes(record);
  }

  // ----- one line

  lemma SignedLineIs(pf: Platform, line: Bytes, st: State, next: State, record: seq<Member>)
    requires LenientRecord(pf, line) == Some(record)
    ensures CheckStored(pf, Verification, line, st) == Ok(next) <==>
            LinkLine(pf, line, st) == Ok(next) && RecordIsSigned(pf, record)
  {
  }

  lemma StrictSignatureVerifies(pf: Platform, record: seq<Member>)
    requires GoodPlatform(pf) && StrictlySigned(pf, record)
    ensures RecordIsSigned(pf, record)
  {
  }

  /** What the writer's verifier establishes about the record of a line that it accepts. */
  lemma StoredLine(pf: Platform, line: Bytes, st: State, next: State) returns (record: seq<Member>)
    requires GoodReading(pf.read) && CheckStored(pf, Verification, line, st) == Ok(next)
    ensures LenientRecord(pf, line) == Some(record) && HoldsStored(pf, line, record)
    ensures LinksStored(pf, record, st, next) && RecordIsSigned(pf, record) && MembersBounded(record)
  {
    record := LenientRecord(pf, line).value;
    SignedLineIs(pf, line, st, next, record);
    LinkedLineIs(pf, line, st, next);
    LenientRecordIsBounded(record);
  }

  /** A line holds one record for both parsers. */
  lemma SameRecordHeld(pf: Platform, line: Bytes, a: seq<Member>, b: seq<Member>)
    requires HoldsRecord(pf, line, a) && HoldsStored(pf, line, b)
    ensures a == b
  {
    var budget := Max(STRICT_NESTING, pf.nesting);
    LegalIsFixed(Obj(a), STRICT_NESTING, pf.strictRead, true);
    LegalWithinBounds(Obj(a), STRICT_NESTING, ExactReading);
    LegalAtDepth(Obj(a), STRICT_NESTING, budget, ExactReading, false);
    LegalIsFixed(Obj(b), pf.nesting, pf.read, false);
    LegalAtDepth(Obj(b), pf.nesting, budget, ExactReading, false);
    Utf8.EncodeIsInjective(Render(Obj(a)), Render(Obj(b)));
    RenderIsInjective(Obj(a), Obj(b), budget, ExactReading);
  }

  /** The strict verifier accepts a line, and the writer's does too. */
  lemma BothAcceptLine(pf: Platform, line: Bytes, st: State, next: State, other: State)
    requires GoodPlatform(pf) && CheckLine(pf, line, st) == Ok(next)
    requires CheckStored(pf, Verification, line, st) == Ok(other)
    ensures other == next && StrictRecord(pf, line).Some? && LenientRecord(pf, line) == StrictRecord(pf, line)
    ensures WriterDemands(pf, StrictRecord(pf, line).value) && StrictDemands(pf, StrictRecord(pf, line).value)
  {
    var record := AcceptedLine(pf, line, st, next);
    var stored := StoredLine(pf, line, st, other);
    SameRecordHeld(pf, line, record, stored);
    HeldForWriter(pf, line, record);
    HeldForStrict(pf, line, record);
    ChecksAgree(pf, record, st, next);
    ValidatorsAgree(record);
    SameHashedBytes(record);
  }

  /** A line that the strict verifier accepts divides the verdicts exactly if the writer's demands fail. */
  lemma StrictLineDivides(pf: Platform, line: Bytes, st: State, next: State)
    requires GoodPlatform(pf) && CheckLine(pf, line, st) == Ok(next)
    ensures StrictRecord(pf, line).Some?
    ensures CheckStored(pf, Verification, line, st).Ok? <==> WriterDemands(pf, StrictRecord(pf, line).value)
    ensures CheckStored(pf, Verification, line, st).Ok? ==> CheckStored(pf, Verification, line, st) == Ok(next)
  {
    var record := AcceptedLine(pf, line, st, next);
    if CheckStored(pf, Verification, line, st).Ok? {
      BothAcceptLine(pf, line, st, next, CheckStored(pf, Verification, line, st).value);
    } else if WriterDemands(pf, record) {
      HeldForWriter(pf, line, record);
      ChecksAgree(pf, record, st, next);
      StrictSignatureVerifies(pf, record);
      LinkingStoredIsAccepted(pf, line, record, st, next);
      SignedLineIs(pf, line, st, next, record);
    }
  }

  /** A line that the writer's verifier accepts divides the verdicts exactly if the strict demands fail. */
  lemma StoredLineDivides(pf: Platform, line: Bytes, st: State, next: State)
    requires GoodPlatform(pf) && CheckStored(pf, Verification, line, st) == Ok(next)
    ensures LenientRecord(pf, line).Some?
    ensures CheckLine(pf, line, st).Ok? <==> StrictDemands(pf, LenientRecord(pf, line).value)
    ensures CheckLine(pf, line, st).Ok? ==> CheckLine(pf, line, st) == Ok(next)
  {
    var record := StoredLine(pf, line, st, next);
    if CheckLine(pf, line, st).Ok? {
      BothAcceptLine(pf, line, st, CheckLine(pf, line, st).value, next);
    } else if StrictDemands(pf, record) {
      HeldForStrict(pf, line, record);
      ChecksAgree(pf, record, st, next);
      LinkingLineIsAccepted(pf, line, record, st, next);
    }
  }

  /** In particular a float that the strict parser takes for another double makes the line refused. */
  lemma MovedFloatIsRefused(pf: Platform, line: Bytes, st: State, next: State)
    requires GoodPlatform(pf) && CheckStored(pf, Verification, line, st) == Ok(next)
    requires !FloatsFixed(Obj(LenientRecord(pf, line).value), pf.strictRead)
    ensures CheckLine(pf, line, st).Err?
  {
    StoredLineDivides(pf, line, st, next);
  }

  // ----- whole chains

  predicate MeetsStrict(pf: Platform, line: Bytes) {
    LenientRecord(pf, line).Some? && StrictDemands(pf, LenientRecord(pf, line).value)
  }

  predicate MeetsWriter(pf: Platform, line: Bytes) {
    StrictRecord(pf, line).Some? && WriterDemands(pf, StrictRecord(pf, line).value)
  }

  /** Every record meets what the strict verifier demands. */
  predicate AllMeetStrict(pf: Platform, lines: seq<Bytes>) {
    lines == [] || (AllMeetStrict(pf, lines[..|lines| - 1]) && MeetsStrict(pf, lines[|lines| - 1]))
  }

  /** Every record meets what the writer's verifier demands. */
  predicate AllMeetWriter(pf: Platform, lines: seq<Bytes>) {
    lines == [] || (AllMeetWriter(pf, lines[..|lines| - 1]) && MeetsWriter(pf, lines[|lines| - 1]))
  }

  lemma RunStep(pf: Platform, lines: seq<Bytes>, before: State)
    requires lines != [] && Run(pf, lines[..|lines| - 1]) == Ok(before)
    ensures var checked := CheckLine(pf, lines[|lines| - 1], before);
            Run(pf, lines) == if checked.Ok? then Ok(checked.value) else Err(ChainError(before.number, checked.error))
  {
  }

  lemma RunFails(pf: Platform, lines: seq<Bytes>)
    requires lines != [] && Run(pf, lines[..|lines| - 1]).Err?
    ensures Run(pf, lines).Err?
  {
  }

  lemma ReplayFails(pf: Platform, purpose: Purpose, lines: seq<Bytes>)
    requires lines != [] && Replay(pf, purpose, lines[..|lines| - 1]).Err?
    ensures Replay(pf, purpose, lines).Err?
  {
  }

  /** Of the chains that the writer's verifier accepts, the strict one accepts exactly those that meet its demands. */
  lemma {:induction false} StoredRunDivides(pf: Platform, lines: seq<Bytes>, st: State)
    requires GoodPlatform(pf) && Replay(pf, Verification, lines) == Ok(st)
    ensures Run(pf, lines).Ok? <==> AllMeetStrict(pf, lines)
    ensures Run(pf, lines).Ok? ==> Run(pf, lines) == Ok(st)
    decreases |lines|
  {
    if lines != [] {
      var init, last := lines[..|lines| - 1], lines[|lines| - 1];
      var before := Replay(pf, Verification, init).value;
      ReplayStep(pf, Verification, lines, before);
      StoredRunDivides(pf, init, before);
      StoredLineDivides(pf, last, before, st);
      if Run(pf, init).Ok? {
        RunStep(pf, lines, before);
      } else {
        RunFails(pf, lines);
      }
    }
  }

  /** Of the chains that the strict verifier accepts, the writer's accepts exactly those that meet its demands. */
  lemma {:induction false} StrictRunDivides(pf: Platform, lines: seq<Bytes>, st: State)
    requires GoodPlatform(pf) && Run(pf, lines) == Ok(st)
    ensures Replay(pf, Verification, lines).Ok? <==> AllMeetWriter(pf, lines)
    ensures Replay(pf, Verification, lines).Ok? ==> Replay(pf, Verification, lines) == Ok(st)
    decreases |lines|
  {
    if lines != [] {
      var init, last := lines[..|lines| - 1], lines[|lines| - 1];
      var before := LastStep(pf, lines);
      StrictRunDivides(pf, init, before);
      StrictLineDivides(pf, last, before, st);
      if Replay(pf, Verification, init).Ok? {
        ReplayStep(pf, Verification, lines, before);
      } else {
        ReplayFails(pf, Verification, lines);
      }
    }
  }

  /** The same for streams: where the writer's verifier accepts, equal counts and tips or an unmet demand. */
  lemma StoredStreamDivides(pf: Platform, stream: Bytes, st: State)
    requires GoodPlatform(pf) && ReadStore(pf, Verification, stream) == Ok(st)
    ensures VerifyStream(pf, stream).Ok? <==> AllMeetStrict(pf, AllLines(stream))
    ensures VerifyStream(pf, stream).Ok? ==> VerifyStream(pf, stream) == Ok(Report(st.number, TipOf(st)))
  {
    StoredRunDivides(pf, AllLines(stream), st);
  }

  lemma StrictStreamDivides(pf: Platform, stream: Bytes, st: State)
    requires GoodPlatform(pf) && VerifyStream(pf, stream).Ok? && Run(pf, AllLines(stream)) == Ok(st)
    ensures ReadStore(pf, Verification, stream).Ok? <==> AllMeetWriter(pf, AllLines(stream))
    ensures ReadStore(pf, Verification, stream).Ok? ==> ReadStore(pf, Verification, stream) == Ok(st)
  {
    StrictRunDivides(pf, AllLines(stream), st);
  }
}
