/**
 One event that the writer appends and its own verifier accepts, and that the strict verifier
 refuses: its confidence is a double whose shortest text the strict parser takes for a neighbour.
 */
module MovedConfidence {
  import opened Prelude
  import opened Decimal
  import opened Notation
  import opened Json
  import opened StrictJson
  import opened RecordSchema
  import opened ChainVerifier
  import opened Store
  import opened VerdictsAgree
  import opened Logger
  import opened AppendLog
  import opened AppendProtocol
  import opened AppendSafety
  import opened BuiltStores
  import Hex

  /** The doubles 0.9452706955539223 and 0.9452706955539224. */
  const CONFIDENCE := Finite(false, "9452706955539223", -1)
  const NEIGHBOUR := Finite(false, "9452706955539224", -1)

  const TIMESTAMP: string := LEAP_DATE + ("T" + "23" + ":" + "59" + ":" + "59" + "Z")

  /** A decision event of format version 1. */
  function Event(timestamp: string, hash: string, confidence: Decimal): seq<Member> {
    [ Member("ts_utc", Str(timestamp)),
      Member("node_id", Str("node")),
      Member("raw_csi_hash", Str(hash)),
      Member("features_hash", Str(hash)),
      Member("model_id", Str("model")),
      Member("model_config_hash", Str(hash)),
      Member("class", Str("presence")),
      Member("confidence", Float(confidence)),
      Member("top_shap", Arr([]))]
  }

  // ----- the event is valid

  /** A decimal whose first digit stands right after the point lies between 0 and 1. */
  lemma UnitDecimal(digits: string)
    requires Normalized(Finite(false, digits, -1))
    ensures 0.0 <= DecimalValue(Finite(false, digits, -1)) <= 1.0
  {
    FractionBounds(digits[1..]);
    var x := DigitValue(digits[0]) as real + FractionValue(digits[1..]);
    assert Scale(x, -1) == Scale(x / 10.0, 0);
  }

  lemma TheDoubles()
    ensures Normalized(CONFIDENCE) && Normalized(NEIGHBOUR) && CONFIDENCE != NEIGHBOUR
  {
    assert CONFIDENCE.digits[15] != NEIGHBOUR.digits[15];
  }

  /** The text that the writer appends for it. */
  lemma ConfidenceText()
    requires Normalized(CONFIDENCE)
    ensures Layout(CONFIDENCE) == "0." + CONFIDENCE.digits
  {
    assert Zeros(0) + CONFIDENCE.digits == CONFIDENCE.digits;
  }

  lemma TimestampIsDatetime()
    ensures LenientTimestamp(TIMESTAMP)
  {
    var date, time := LEAP_DATE, "T" + "23" + ":" + "59" + ":" + "59" + "Z";
    LeapDate();
    LeapNumbers();
    assert |time| == 10 && time[0] == 'T' && time[3] == ':' && time[6] == ':' && time[9] == 'Z';
    assert time[1..3] == "23" && time[4..6] == "59" && time[7..9] == "59";
    var s := date + time;
    assert s[0..4] == date[0..4] && s[5..7] == date[5..7] && s[8..10] == date[8..10];
    assert s[11..13] == time[1..3] && s[14..16] == time[4..6] && s[17..19] == time[7..9];
  }

  lemma NamesDiffer(t: string, h: string, d: Decimal)
    ensures forall i, j | 0 <= i < j < 9 :: Event(t, h, d)[i].key != Event(t, h, d)[j].key
  {
    assert |"ts_utc"| == 6 && |"node_id"| == 7 && |"raw_csi_hash"| == 12 && |"features_hash"| == 13;
    assert |"model_id"| == 8 && |"model_config_hash"| == 17 && |"class"| == 5 && |"confidence"| == 10;
    assert |"top_shap"| == 8 && "model_id"[0] == 'm' && "top_shap"[0] == 't';
  }

  lemma Field(t: string, h: string, d: Decimal, i: nat)
    requires i < 9
    ensures Lookup(Event(t, h, d), Event(t, h, d)[i].key) == Some(Event(t, h, d)[i].value)
  {
    NamesDiffer(t, h, d);
    LookupAt(Event(t, h, d), i, Event(t, h, d)[i].key);
  }

  lemma Keys(t: string, h: string, d: Decimal)
    ensures KeySet(Event(t, h, d)) == VERSION_1_EVENT_FIELDS
  {
    forall k
      ensures k in KeySet(Event(t, h, d)) <==> k in VERSION_1_EVENT_FIELDS
    {
      var event := Event(t, h, d);
      KeysAt(event, k);
      assert k in VERSION_1_EVENT_FIELDS <==>
        k == event[0].key || k == event[1].key || k == event[2].key || k == event[3].key || k == event[4].key ||
        k == event[5].key || k == event[6].key || k == event[7].key || k == event[8].key;
    }
  }

  lemma EventIsVersion1(t: string, h: string, d: Decimal)
    ensures EventKind(Event(t, h, d)) == Some(Version1)
  {
    Keys(t, h, d);
    KeySetIs(Event(t, h, d), "format_version");
    KeySetIs(Event(t, h, d), "event_type");
  }

  lemma CommonFields(t: string, h: string, d: Decimal)
    ensures CommonContent(Event(t, h, d)) <==> LenientTimestamp(t) && Hex.IsLowerHex(h, 64)
  {
    Field(t, h, d, 0);
    Field(t, h, d, 1);
    Field(t, h, d, 2);
  }

  lemma DecisionFields(t: string, h: string, d: Decimal)
    ensures DecisionContent(Event(t, h, d)) <==>
            Hex.IsLowerHex(h, 64) && Normalized(d) && 0.0 <= DecimalValue(d) <= 1.0
  {
    Field(t, h, d, 3);
    Field(t, h, d, 4);
    Field(t, h, d, 5);
    Field(t, h, d, 6);
    Field(t, h, d, 7);
    Field(t, h, d, 8);
  }

  /** It is valid exactly if its timestamp, its hashes and its confidence are. */
  lemma EventIsAccepted(t: string, h: string, d: Decimal)
    ensures EventSchema(Event(t, h, d)) == Some(1) <==>
            LenientTimestamp(t) && Hex.IsLowerHex(h, 64) && Normalized(d) && 0.0 <= DecimalValue(d) <= 1.0
  {
    EventIsVersion1(t, h, d);
    Keys(t, h, d);
    CommonFields(t, h, d);
    DecisionFields(t, h, d);
  }

  lemma {:induction false} FlatMembers(members: seq<Member>, budget: nat, read: Reading)
    requires forall i | 0 <= i < |members| ::
               Legal(members[i].value, budget, read, false) && Depth(members[i].value) <= budget
    ensures LegalMembers(members, budget, read, false) && MembersDepth(members) <= budget
  {
    if members != [] {
      FlatMembers(members[1..], budget, read);
    }
  }

  lemma EventValues(t: string, h: string, d: Decimal, read: Reading, i: nat)
    requires i < 9 && Normalized(d) && read(LayoutToken(d)) == Some(d)
    ensures Legal(Event(t, h, d)[i].value, 1, read, false) && Depth(Event(t, h, d)[i].value) <= 1
  {
    if i == 8 {
      assert LegalItems([], 0, read, false) && ItemsDepth([]) == 0;
    }
  }

  /** The event is a dictionary of the writer's, if its confidence is one of the writer's doubles. */
  lemma EventIsDictionary(t: string, h: string, d: Decimal, pf: Platform)
    requires Normalized(d) && pf.read(LayoutToken(d)) == Some(d)
    ensures IsDictionary(pf, Event(t, h, d)) && Depth(Obj(Event(t, h, d))) <= 2
  {
    var event := Event(t, h, d);
    NamesDiffer(t, h, d);
    DistinctAt(event);
    forall i | 0 <= i < 9
      ensures Legal(event[i].value, 1, pf.read, false) && Depth(event[i].value) <= 1
    {
      EventValues(t, h, d, pf.read, i);
    }
    FlatMembers(event, 1, pf.read);
    assert Legal(Obj(event), 2, pf.read, false);
    LegalAtDepth(Obj(event), 2, Depth(Obj(event)), pf.read, false);
  }

  // ----- the event divides the verdicts

  lemma {:induction false} FixedAt(members: seq<Member>, i: nat, read: Reading)
    requires i < |members| && MembersFixed(members, read)
    ensures FloatsFixed(members[i].value, read)
  {
    if i > 0 {
      FixedAt(members[1..], i - 1, read);
    }
  }

  lemma ConfidenceMoves(t: string, h: string, d: Decimal, read: Reading)
    requires Normalized(d) && read(LayoutToken(d)) != Some(d)
    ensures !FloatsFixed(Obj(Event(t, h, d)), read)
  {
    if MembersFixed(Event(t, h, d), read) {
      FixedAt(Event(t, h, d), 7, read);
    }
  }

  /** The writer's library reads the text 0.9452706955539223 as that double, the strict verifier's as its neighbour. */
  predicate MovesConfidence(pf: Platform) {
    && Normalized(CONFIDENCE)
    && pf.read(LayoutToken(CONFIDENCE)) == Some(CONFIDENCE)
    && pf.strictRead(LayoutToken(CONFIDENCE)) == Some(NEIGHBOUR)
  }

  ghost predicate AlwaysSigns(c: Setting) {
    forall m :: |Signature(c, m)| == 64
  }

  lemma EventIsValid(c: Setting, h: string)
    requires Hex.IsLowerHex(h, 64) && 2 <= c.limit && MovesConfidence(c.pf)
    ensures ValidEvent(c, Event(TIMESTAMP, h, CONFIDENCE))
  {
    UnitDecimal(CONFIDENCE.digits);
    TimestampIsDatetime();
    EventIsAccepted(TIMESTAMP, h, CONFIDENCE);
    EventIsDictionary(TIMESTAMP, h, CONFIDENCE, c.pf);
  }

  /**
   On every such platform the writer appends and returns the event's record; one verifier accepts the
   store, one does not.
   */
  lemma ConfidenceDivides(c: Setting, h: string) returns (moves: seq<(nat, Action)>, t: System)
    requires GoodSetting(c) && GoodPlatform(c.pf) && CorrectSigner(c, c.pf.strictVerify) && AlwaysSigns(c)
    requires 2 <= c.limit <= STRICT_NESTING && MovesConfidence(c.pf) && Hex.IsLowerHex(h, 64)
    ensures ValidEvent(c, Event(TIMESTAMP, h, CONFIDENCE))
    ensures After(c, EMPTY, moves) == Some(t)
    ensures t.returned == [DraftFor(c, Event(TIMESTAMP, h, CONFIDENCE), 0, GENESIS_HASH)]
    ensures ReadStore(c.pf, Verification, t.data).Ok? && VerifyStream(c.pf, t.data).Err?
  {
    TheDoubles();
    EventIsValid(c, h);
    ConfidenceMoves(TIMESTAMP, h, CONFIDENCE, c.pf.strictRead);
    moves, t := MovedEventDivides(c, Event(TIMESTAMP, h, CONFIDENCE));
  }

  // ----- there are such platforms

  /** Reads every decimal exactly, but for the one token. */
  function MovingReading(t: Token): Option<Decimal> {
    if Normalized(CONFIDENCE) && t == LayoutToken(CONFIDENCE) then Some(NEIGHBOUR) else ExactReading(t)
  }

  function Accepting(message: Bytes, signature: Bytes): bool {
    true
  }

  function Signing(message: Bytes): Option<Bytes> {
    Some(seq(64, _ => 0))
  }

  function MovingSetting(sha256: HashFunction): Setting {
    var pf := Platform(sha256, MovingReading, Accepting, ExactReading, Accepting, STRICT_NESTING);
    Setting(pf, Signing, STRICT_NESTING)
  }

  /** So what is assumed of platforms, settings and signers can hold all at once. */
  lemma MovingSettingIsGood(sha256: HashFunction)
    ensures var c := MovingSetting(sha256);
            && GoodSetting(c) && GoodPlatform(c.pf) && CorrectSigner(c, c.pf.strictVerify) && AlwaysSigns(c)
            && MovesConfidence(c.pf) && 2 <= c.limit <= STRICT_NESTING
  {
    TheDoubles();
    forall d: Decimal | Normalized(d)
      ensures ExactReading(LayoutToken(d)) == Some(d)
    {
      LayoutReadsBack(d);
    }
  }
}
