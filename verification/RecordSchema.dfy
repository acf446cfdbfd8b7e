/**
 The two schema validators of chain records, each as its own program states it, and exactly
 where they differ: only in the timestamps that they accept.
 */
module RecordSchema {
  import opened Prelude
  import opened Decimal
  import opened Json
  import opened StrictJson
  import Hex

  /** What stands before the first record. */
  const GENESIS_HASH := Repeat('0', 64)

  /** The three record shapes: legacy records, and the two event types of format version 2. */
  datatype Kind = Version1 | Ingestion | Classification

  function KeySet(members: seq<Member>): set<string> {
    if members == [] then {} else {members[0].key} + KeySet(members[1..])
  }

  // ----- fields

  function StringField(members: seq<Member>, key: string): Option<string> {
    match Lookup(members, key)
    case Some(Str(s)) => Some(s)
    case _ => None
  }

  /** A non-negative integer field. */
  function IntegerField(members: seq<Member>, key: string): Option<nat> {
    match Lookup(members, key)
    case Some(Int(n)) => if n >= 0 then Some(n) else None
    case _ => None
  }

  predicate NonEmptyString(members: seq<Member>, key: string) {
    StringField(members, key).Some? && StringField(members, key).value != []
  }

  predicate HashField(members: seq<Member>, key: string) {
    StringField(members, key).Some? && Hex.IsLowerHex(StringField(members, key).value, 64)
  }

  predicate SignatureField(members: seq<Member>) {
    StringField(members, "signature").Some? && Hex.IsLowerHex(StringField(members, "signature").value, 128)
  }

  /** A number between 0 and 1. */
  predicate UnitNumber(v: Option<Value>) {
    match v
    case Some(Int(n)) => 0 <= n <= 1
    case Some(Float(d)) => Normalized(d) && 0.0 <= DecimalValue(d) <= 1.0
    case _ => false
  }

  // ----- timestamps

  predicate DigitsAt(s: string, from: nat, to: nat) {
    from <= to <= |s| && AllDigits(s[from..to])
  }

  function NumberAt(s: string, from: nat, to: nat): nat
    requires DigitsAt(s, from, to)
  {
    NatOf(s[from..to])
  }

  /** `YYYY-MM-DDTHH:MM:SS` with an optional fraction of one digit or more, ending in `Z`. */
  predicate TimestampShape(s: string) {
    && |s| >= 20
    && s[4] == '-' && s[7] == '-' && s[10] == 'T' && s[13] == ':' && s[16] == ':' && s[|s| - 1] == 'Z'
    && (|s| == 20 || (s[19] == '.' && |s| > 21 && DigitsAt(s, 20, |s| - 1)))
    && DigitsAt(s, 0, 4) && DigitsAt(s, 5, 7) && DigitsAt(s, 8, 10)
    && DigitsAt(s, 11, 13) && DigitsAt(s, 14, 16) && DigitsAt(s, 17, 19)
  }

  predicate IsLeapYear(year: nat) {
    year % 4 == 0 && (year % 100 != 0 || year % 400 == 0)
  }

  function DaysInMonth(year: nat, month: nat): nat {
    if month == 2 then (if IsLeapYear(year) then 29 else 28)
    else if month == 4 || month == 6 || month == 9 || month == 11 then 30
    else if 1 <= month <= 12 then 31
    else 0
  }

  /** Shape, calendar date, and a time of day with at most `lastSecond` seconds. */
  predicate IsTimestamp(s: string, firstYear: nat, lastSecond: nat) {
    TimestampShape(s) &&
    var year, month, day := NumberAt(s, 0, 4), NumberAt(s, 5, 7), NumberAt(s, 8, 10);
    && year >= firstYear && 1 <= day <= DaysInMonth(year, month)
    && NumberAt(s, 11, 13) <= 23 && NumberAt(s, 14, 16) <= 59 && NumberAt(s, 17, 19) <= lastSecond
  }

  /** The strict validator allows a leap second and the year 0. */
  predicate StrictTimestamp(s: string) {
    IsTimestamp(s, 0, 60)
  }

  /** The writer's validator builds a datetime: years from 1, and seconds up to 59. */
  predicate LenientTimestamp(s: string) {
    IsTimestamp(s, 1, 59)
  }

  lemma TwoDigits(s: string)
    requires |s| == 2 && AllDigits(s)
    ensures NatOf(s) == 10 * DigitValue(s[0]) + DigitValue(s[1])
  {
    assert s[..1] == [s[0]] && s[..1][..0] == [];
    assert NatOf(s[..1]) == DigitValue(s[0]);
  }

  lemma FourDigits(s: string)
    requires |s| == 4 && AllDigits(s)
    ensures NatOf(s) == 100 * NatOf(s[..2]) + NatOf(s[2..])
  {
    TwoDigits(s[2..]);
    assert s[..3][..2] == s[..2];
    assert NatOf(s[..3]) == 10 * NatOf(s[..2]) + DigitValue(s[2]);
  }

  const LEAP_DATE: string := "2016" + "-" + "12" + "-" + "31"
  const LEAP_TIME: string := "T" + "23" + ":" + "59" + ":" + "60" + "Z"

  lemma LeapDate()
    ensures |LEAP_DATE| == 10 && LEAP_DATE[4] == '-' && LEAP_DATE[7] == '-'
    ensures LEAP_DATE[0..4] == "2016" && LEAP_DATE[5..7] == "12" && LEAP_DATE[8..10] == "31"
  {
  }

  lemma LeapTime()
    ensures |LEAP_TIME| == 10 && LEAP_TIME[0] == 'T' && LEAP_TIME[3] == ':' && LEAP_TIME[6] == ':' &&
            LEAP_TIME[9] == 'Z'
    ensures LEAP_TIME[1..3] == "23" && LEAP_TIME[4..6] == "59" && LEAP_TIME[7..9] == "60"
  {
  }

  lemma LeapNumbers()
    ensures NatOf("2016") == 2016 && NatOf("12") == 12 && NatOf("31") == 31
    ensures NatOf("23") == 23 && NatOf("59") == 59 && NatOf("60") == 60
  {
    assert "2016"[..2] == "20" && "2016"[2..] == "16";
    TwoDigits("20");
    TwoDigits("16");
    FourDigits("2016");
    TwoDigits("12");
    TwoDigits("31");
    TwoDigits("23");
    TwoDigits("59");
    TwoDigits("60");
  }

  /** A leap second is a timestamp for the strict validator and none for the writer's. */
  lemma LeapSecondDivides()
    ensures StrictTimestamp(LEAP_DATE + LEAP_TIME) && !LenientTimestamp(LEAP_DATE + LEAP_TIME)
  {
    var date, time, s := LEAP_DATE, LEAP_TIME, LEAP_DATE + LEAP_TIME;
    LeapDate();
    LeapTime();
    LeapNumbers();
    assert s[0..4] == date[0..4] && s[5..7] == date[5..7] && s[8..10] == date[8..10];
    assert s[11..13] == time[1..3] && s[14..16] == time[4..6] && s[17..19] == time[7..9];
  }

  // ----- the strict validator

  const STRICT_VERSION_1: set<string> := {
    "seq", "ts_utc", "node_id", "raw_csi_hash", "features_hash", "model_id", "model_config_hash", "class",
    "confidence", "top_shap", "prev_hash", "record_hash", "signature"}
  const STRICT_INGESTION: set<string> := {
    "format_version", "event_type", "seq", "ts_utc", "node_id", "raw_csi_hash", "collector_schema_version",
    "collector_sequence_number", "prev_hash", "record_hash", "signature"}
  const STRICT_CLASSIFICATION: set<string> := {
    "format_version", "event_type", "seq", "ts_utc", "node_id", "raw_csi_hash", "features_hash", "model_id",
    "model_config_hash", "class", "confidence", "top_shap", "prev_hash", "record_hash", "signature"}

  function StrictFields(kind: Kind): set<string> {
    match kind
    case Version1 => STRICT_VERSION_1
    case Ingestion => STRICT_INGESTION
    case Classification => STRICT_CLASSIFICATION
  }

  function KindOfEventType(members: seq<Member>): Option<Kind> {
    match StringField(members, "event_type")
    case None => None
    case Some(t) =>
      if t == "ingestion_accepted" then Some(Ingestion)
      else if t == "classification_decision" then Some(Classification)
      else None
  }

  function StrictKind(members: seq<Member>): Option<Kind> {
    if Lookup(members, "format_version").None? then Some(Version1)
    else if IntegerField(members, "format_version") != Some(2) then None
    else KindOfEventType(members)
  }

  predicate StrictContent(members: seq<Member>, kind: Kind) {
    && IntegerField(members, "seq").Some?
    && StringField(members, "ts_utc").Some? && StrictTimestamp(StringField(members, "ts_utc").value)
    && NonEmptyString(members, "node_id")
    && HashField(members, "raw_csi_hash") && HashField(members, "prev_hash") && HashField(members, "record_hash")
    && SignatureField(members)
    && if kind.Ingestion? then
         NonEmptyString(members, "collector_schema_version") && IntegerField(members, "collector_sequence_number").Some?
       else
         && NonEmptyString(members, "model_id") && NonEmptyString(members, "class")
         && HashField(members, "features_hash") && HashField(members, "model_config_hash")
         && UnitNumber(Lookup(members, "confidence"))
  }

  function VersionOf(kind: Kind): nat {
    if kind.Version1? then 1 else 2
  }

  /** The format version of a record that passes the strict validator. */
  function StrictSchema(members: seq<Member>): Option<nat> {
    match StrictKind(members)
    case None => None
    case Some(kind) =>
      if KeySet(members) == StrictFields(kind) && StrictContent(members, kind) then Some(VersionOf(kind)) else None
  }

  // ----- the writer's validator

  const MANAGED_FIELDS: set<string> := {"seq", "prev_hash", "record_hash", "signature"}
  const COMMON_EVENT_FIELDS: set<string> := {"format_version", "event_type", "ts_utc", "node_id", "raw_csi_hash"}
  const MODEL_FIELDS: set<string> := {
    "features_hash", "model_id", "model_config_hash", "class", "confidence", "top_shap"}
  const VERSION_1_EVENT_FIELDS: set<string> := {
    "ts_utc", "node_id", "raw_csi_hash", "features_hash", "model_id", "model_config_hash", "class", "confidence",
    "top_shap"}
  const COLLECTOR_FIELDS: set<string> := {"collector_schema_version", "collector_sequence_number"}

  function EventFields(kind: Kind): set<string> {
    match kind
    case Version1 => VERSION_1_EVENT_FIELDS
    case Ingestion => COMMON_EVENT_FIELDS + COLLECTOR_FIELDS
    case Classification => COMMON_EVENT_FIELDS + MODEL_FIELDS
  }

  function EventKind(event: seq<Member>): Option<Kind> {
    if !HasKey(event, "format_version") then (if HasKey(event, "event_type") then None else Some(Version1))
    else if Lookup(event, "format_version") != Some(Int(2)) then None
    else KindOfEventType(event)
  }

  /** Integers within 64 bits at every depth. */
  predicate IntsBounded(v: Value) {
    match v
    case Int(n) => -I64_LIMIT <= n < I64_LIMIT
    case Arr(items) => ItemsBounded(items)
    case Obj(members) => MembersBounded(members)
    case _ => true
  }

  predicate ItemsBounded(items: seq<Value>) {
    items == [] || (IntsBounded(items[0]) && ItemsBounded(items[1..]))
  }

  predicate MembersBounded(members: seq<Member>) {
    members == [] || (IntsBounded(members[0].value) && MembersBounded(members[1..]))
  }

  predicate SequenceNumber(members: seq<Member>, key: string) {
    IntegerField(members, key).Some? && IntegerField(members, key).value < I64_LIMIT
  }

  predicate CommonContent(event: seq<Member>) {
    && NonEmptyString(event, "node_id")
    && StringField(event, "ts_utc").Some? && LenientTimestamp(StringField(event, "ts_utc").value)
    && HashField(event, "raw_csi_hash")
  }

  predicate CollectorContent(event: seq<Member>) {
    NonEmptyString(event, "collector_schema_version") && SequenceNumber(event, "collector_sequence_number")
  }

  predicate DecisionContent(event: seq<Member>) {
    && NonEmptyString(event, "model_id") && NonEmptyString(event, "class")
    && HashField(event, "features_hash") && HashField(event, "model_config_hash")
    && UnitNumber(Lookup(event, "confidence"))
    && Lookup(event, "top_shap").Some? && IntsBounded(Lookup(event, "top_shap").value)
  }

  predicate EventContent(event: seq<Member>, kind: Kind) {
    CommonContent(event) && if kind.Ingestion? then CollectorContent(event) else DecisionContent(event)
  }

  /** The caller-controlled part of a record. */
  function EventSchema(event: seq<Member>): Option<nat> {
    match EventKind(event)
    case None => None
    case Some(kind) =>
      if KeySet(event) == EventFields(kind) && EventContent(event, kind) then Some(VersionOf(kind)) else None
  }

  function EventOf(record: seq<Member>): seq<Member> {
    Without(Without(Without(Without(record, "seq"), "prev_hash"), "record_hash"), "signature")
  }

  predicate ManagedContent(record: seq<Member>) {
    && SequenceNumber(record, "seq")
    && HashField(record, "prev_hash") && HashField(record, "record_hash")
    && SignatureField(record)
  }

  /** The format version of a complete record that passes the writer's validator. */
  function LenientSchema(record: seq<Member>): Option<nat> {
    if MANAGED_FIELDS <= KeySet(record) && ManagedContent(record) then EventSchema(EventOf(record)) else None
  }

  // ----- removing a key

  lemma {:induction false} KeySetIs(members: seq<Member>, key: string)
    ensures key in KeySet(members) <==> HasKey(members, key)
  {
    if members != [] {
      KeySetIs(members[1..], key);
    }
  }

  lemma {:induction false} LookupAt(members: seq<Member>, i: nat, key: string)
    requires i < |members| && members[i].key == key && forall j | 0 <= j < i :: members[j].key != key
    ensures Lookup(members, key) == Some(members[i].value)
  {
    if i > 0 {
      LookupAt(members[1..], i - 1, key);
    }
  }

  lemma {:induction false} KeysAt(members: seq<Member>, key: string)
    ensures key in KeySet(members) <==> exists i | 0 <= i < |members| :: members[i].key == key
  {
    if members != [] {
      KeysAt(members[1..], key);
      assert members == [members[0]] + members[1..];
    }
  }

  lemma {:induction false} DistinctAt(members: seq<Member>)
    requires forall i, j | 0 <= i < j < |members| :: members[i].key != members[j].key
    ensures DistinctKeys(members)
  {
    if members != [] {
      DistinctAt(members[1..]);
      KeySetIs(members[1..], members[0].key);
      KeysAt(members[1..], members[0].key);
    }
  }

  lemma {:induction false} WithoutLookup(members: seq<Member>, key: string, k: string)
    ensures Lookup(Without(members, key), k) == if k == key then None else Lookup(members, k)
  {
    if members != [] {
      WithoutLookup(members[1..], key, k);
      if members[0].key != key {
        assert Without(members, key)[1..] == Without(members[1..], key);
      }
    }
  }

  lemma EventLookup(record: seq<Member>, k: string)
    ensures Lookup(EventOf(record), k) == if k in MANAGED_FIELDS then None else Lookup(record, k)
  {
    var a := Without(record, "seq");
    var b := Without(a, "prev_hash");
    var c := Without(b, "record_hash");
    WithoutLookup(record, "seq", k);
    WithoutLookup(a, "prev_hash", k);
    WithoutLookup(b, "record_hash", k);
    WithoutLookup(c, "signature", k);
  }

  lemma EventKeySet(record: seq<Member>)
    ensures KeySet(EventOf(record)) == KeySet(record) - MANAGED_FIELDS
  {
    forall k
      ensures k in KeySet(EventOf(record)) <==> k in KeySet(record) - MANAGED_FIELDS
    {
      KeySetIs(EventOf(record), k);
      KeySetIs(record, k);
      EventLookup(record, k);
    }
  }

  lemma FieldNamesDiffer()
    ensures MANAGED_FIELDS !! EventFields(Version1)
    ensures MANAGED_FIELDS !! EventFields(Ingestion)
    ensures MANAGED_FIELDS !! EventFields(Classification)
  {
    assert |"seq"| == 3 && |"prev_hash"| == 9 && |"record_hash"| == 11 && |"signature"| == 9;
  }

  lemma FieldsSplit(kind: Kind)
    ensures StrictFields(kind) == EventFields(kind) + MANAGED_FIELDS
  {
  }

  // ----- how the validators compare

  lemma SameFieldInEvent(record: seq<Member>, k: string)
    requires k !in MANAGED_FIELDS
    ensures Lookup(EventOf(record), k) == Lookup(record, k)
  {
    EventLookup(record, k);
  }

  lemma EventFieldsSurvive(record: seq<Member>, k: string)
    requires k in COMMON_EVENT_FIELDS + MODEL_FIELDS + COLLECTOR_FIELDS
    ensures Lookup(EventOf(record), k) == Lookup(record, k)
  {
    FieldNamesDiffer();
    assert k in EventFields(Ingestion) + EventFields(Classification);
    SameFieldInEvent(record, k);
  }

  lemma LegacyHasNoDiscriminator()
    ensures "event_type" !in STRICT_VERSION_1 && "format_version" !in STRICT_VERSION_1
  {
    assert |"event_type"| == 10 && |"format_version"| == 14;
    assert "event_type"[0] == 'e' && "confidence"[0] == 'c';
  }

  /** The kind depends on the two discriminating fields only. */
  lemma KindOfDiscriminators(record: seq<Member>, event: seq<Member>, kind: Kind)
    requires Lookup(event, "format_version") == Lookup(record, "format_version")
    requires Lookup(event, "event_type") == Lookup(record, "event_type")
    requires kind.Version1? ==> !HasKey(event, "event_type")
    ensures EventKind(event) == Some(kind) <==> StrictKind(record) == Some(kind)
  {
    assert HasKey(event, "format_version") == Lookup(record, "format_version").Some?;
    assert KindOfEventType(event) == KindOfEventType(record);
  }

  /** A record with the fields of its kind is of the same kind for both validators. */
  lemma KindsAgree(record: seq<Member>, kind: Kind)
    requires KeySet(record) == StrictFields(kind)
    ensures EventKind(EventOf(record)) == Some(kind) <==> StrictKind(record) == Some(kind)
  {
    var event := EventOf(record);
    EventFieldsSurvive(record, "format_version");
    EventFieldsSurvive(record, "event_type");
    if kind.Version1? {
      LegacyHasNoDiscriminator();
      KeySetIs(record, "event_type");
      assert HasKey(event, "event_type") == Lookup(record, "event_type").Some?;
    }
    KindOfDiscriminators(record, event, kind);
  }

  lemma FieldSetsAgree(record: seq<Member>, kind: Kind)
    ensures KeySet(record) == StrictFields(kind) <==>
            MANAGED_FIELDS <= KeySet(record) && KeySet(EventOf(record)) == EventFields(kind)
  {
    FieldNamesDiffer();
    FieldsSplit(kind);
    EventKeySet(record);
    var keys := KeySet(record);
    if MANAGED_FIELDS <= keys && keys - MANAGED_FIELDS == EventFields(kind) {
      assert keys == (keys - MANAGED_FIELDS) + MANAGED_FIELDS;
    }
  }

  /** The part of the writer's rules that the strict validator does not state itself. */
  predicate WriterBounds(record: seq<Member>, kind: Kind) {
    && StringField(record, "ts_utc").Some? && LenientTimestamp(StringField(record, "ts_utc").value)
    && SequenceNumber(record, "seq")
    && if kind.Ingestion? then SequenceNumber(record, "collector_sequence_number")
       else Lookup(record, "top_shap").Some? && IntsBounded(Lookup(record, "top_shap").value)
  }

  lemma CommonContentSurvives(record: seq<Member>)
    ensures CommonContent(EventOf(record)) == CommonContent(record)
  {
    EventFieldsSurvive(record, "ts_utc");
    EventFieldsSurvive(record, "node_id");
    EventFieldsSurvive(record, "raw_csi_hash");
  }

  lemma CollectorContentSurvives(record: seq<Member>)
    ensures CollectorContent(EventOf(record)) == CollectorContent(record)
  {
    EventFieldsSurvive(record, "collector_schema_version");
    EventFieldsSurvive(record, "collector_sequence_number");
  }

  lemma DecisionContentSurvives(record: seq<Member>)
    ensures DecisionContent(EventOf(record)) == DecisionContent(record)
  {
    EventFieldsSurvive(record, "model_id");
    EventFieldsSurvive(record, "class");
    EventFieldsSurvive(record, "features_hash");
    EventFieldsSurvive(record, "model_config_hash");
    EventFieldsSurvive(record, "confidence");
    EventFieldsSurvive(record, "top_shap");
  }

  lemma EventContentSurvives(record: seq<Member>, kind: Kind)
    ensures EventContent(EventOf(record), kind) == EventContent(record, kind)
  {
    CommonContentSurvives(record);
    CollectorContentSurvives(record);
    DecisionContentSurvives(record);
  }

  lemma ContentsAgree(record: seq<Member>, kind: Kind)
    ensures ManagedContent(record) && EventContent(record, kind) <==>
            StrictContent(record, kind) && WriterBounds(record, kind)
  {
  }

  lemma {:induction false} MemberBounded(members: seq<Member>, key: string)
    requires MembersBounded(members) && HasKey(members, key)
    ensures IntsBounded(Lookup(members, key).value)
  {
    if members[0].key != key {
      MemberBounded(members[1..], key);
    }
  }

  /** Which kind, if any, makes the writer's validator accept. */
  lemma LenientSchemaByKind(record: seq<Member>, kind: Kind)
    requires KeySet(record) == StrictFields(kind) && StrictKind(record) == Some(kind)
    ensures LenientSchema(record) ==
            if StrictContent(record, kind) && WriterBounds(record, kind) then Some(VersionOf(kind)) else None
  {
    KindsAgree(record, kind);
    FieldSetsAgree(record, kind);
    EventContentSurvives(record, kind);
    ContentsAgree(record, kind);
  }

  lemma LenientSchemaHasKind(record: seq<Member>) returns (kind: Kind)
    requires LenientSchema(record).Some?
    ensures KeySet(record) == StrictFields(kind) && StrictKind(record) == Some(kind)
  {
    kind := EventKind(EventOf(record)).value;
    FieldSetsAgree(record, kind);
    KindsAgree(record, kind);
  }

  lemma WithinBounds(record: seq<Member>, kind: Kind)
    requires MembersBounded(record) && KeySet(record) == StrictFields(kind) && StrictContent(record, kind)
    requires LenientTimestamp(StringField(record, "ts_utc").value)
    ensures WriterBounds(record, kind)
  {
    MemberBounded(record, "seq");
    if kind.Ingestion? {
      MemberBounded(record, "collector_sequence_number");
    } else {
      assert "top_shap" in StrictFields(kind);
      KeySetIs(record, "top_shap");
      MemberBounded(record, "top_shap");
    }
  }

  /**
   On records whose integers fit in 64 bits, as the strict parser returns them, the two
   validators differ in nothing but the timestamps that they accept.
   */
  lemma ValidatorsAgree(record: seq<Member>)
    requires MembersBounded(record)
    ensures LenientSchema(record).Some? <==>
            StrictSchema(record).Some? && LenientTimestamp(StringField(record, "ts_utc").value)
    ensures LenientSchema(record).Some? ==> LenientSchema(record) == StrictSchema(record)
  {
    if LenientSchema(record).Some? {
      var kind := LenientSchemaHasKind(record);
      LenientSchemaByKind(record, kind);
    }
    if StrictSchema(record).Some? {
      var kind := StrictKind(record).value;
      LenientSchemaByKind(record, kind);
      if LenientTimestamp(StringField(record, "ts_utc").value) {
        WithinBounds(record, kind);
      }
    }
  }

  predicate BoundedField(record: seq<Member>, k: string) {
    Lookup(record, k).Some? && IntsBounded(Lookup(record, k).value)
  }

  lemma CommonFieldsBounded(record: seq<Member>, kind: Kind)
    requires StrictContent(record, kind) && WriterBounds(record, kind)
    ensures BoundedField(record, "seq") && BoundedField(record, "ts_utc") && BoundedField(record, "node_id")
    ensures BoundedField(record, "raw_csi_hash") && BoundedField(record, "prev_hash")
    ensures BoundedField(record, "record_hash") && BoundedField(record, "signature")
  {
  }

  lemma KindFieldsBounded(record: seq<Member>, kind: Kind)
    requires StrictContent(record, kind) && WriterBounds(record, kind)
    ensures kind.Ingestion? ==>
              BoundedField(record, "collector_schema_version") && BoundedField(record, "collector_sequence_number")
    ensures !kind.Ingestion? ==>
              && BoundedField(record, "model_id") && BoundedField(record, "class") && BoundedField(record, "top_shap")
              && BoundedField(record, "features_hash") && BoundedField(record, "model_config_hash")
              && BoundedField(record, "confidence")
  {
  }

  lemma DiscriminatorsBounded(record: seq<Member>, kind: Kind)
    requires StrictKind(record) == Some(kind) && !kind.Version1?
    ensures BoundedField(record, "format_version") && BoundedField(record, "event_type")
  {
  }

  lemma FieldIsBounded(record: seq<Member>, kind: Kind, k: string)
    requires StrictKind(record) == Some(kind)
    requires StrictContent(record, kind) && WriterBounds(record, kind)
    requires k in StrictFields(kind)
    ensures BoundedField(record, k)
  {
    CommonFieldsBounded(record, kind);
    KindFieldsBounded(record, kind);
    if !kind.Version1? {
      DiscriminatorsBounded(record, kind);
    }
  }

  lemma {:induction false} AllBounded(members: seq<Member>, record: seq<Member>)
    requires DistinctKeys(members)
    requires forall k | HasKey(members, k) :: Lookup(record, k) == Lookup(members, k)
    requires forall k | HasKey(record, k) :: IntsBounded(Lookup(record, k).value)
    ensures MembersBounded(members)
  {
    if members != [] {
      assert HasKey(members, members[0].key);
      assert Lookup(members, members[0].key) == Some(members[0].value);
      forall k | HasKey(members[1..], k)
        ensures Lookup(record, k) == Lookup(members[1..], k)
      {
        assert k != members[0].key;
      }
      AllBounded(members[1..], record);
    }
  }

  /** A record that the writer's validator accepts has no integer beyond 64 bits, at any depth. */
  lemma LenientRecordIsBounded(record: seq<Member>)
    requires DistinctKeys(record) && LenientSchema(record).Some?
    ensures MembersBounded(record)
  {
    var kind := LenientSchemaHasKind(record);
    LenientSchemaByKind(record, kind);
    forall k | HasKey(record, k)
      ensures IntsBounded(Lookup(record, k).value)
    {
      KeySetIs(record, k);
      FieldIsBounded(record, kind, k);
    }
    AllBounded(record, record);
  }

  // ----- legality, for the strict parser's integers and for any

  lemma {:induction false} LegalWithinBounds(v: Value, budget: nat, read: Reading)
    ensures Legal(v, budget, read, true) <==> Legal(v, budget, read, false) && IntsBounded(v)
    decreases v, 0
  {
    match v
    case Arr(items) =>
      if budget > 0 {
        LegalItemsWithinBounds(items, budget - 1, read);
      }
    case Obj(members) =>
      if budget > 0 {
        LegalMembersWithinBounds(members, budget - 1, read);
      }
    case _ =>
  }

  lemma {:induction false} LegalItemsWithinBounds(items: seq<Value>, budget: nat, read: Reading)
    ensures LegalItems(items, budget, read, true) <==> LegalItems(items, budget, read, false) && ItemsBounded(items)
    decreases items, 0
  {
    if items != [] {
      LegalWithinBounds(items[0], budget, read);
      LegalItemsWithinBounds(items[1..], budget, read);
    }
  }

  lemma {:induction false} LegalMembersWithinBounds(members: seq<Member>, budget: nat, read: Reading)
    ensures LegalMembers(members, budget, read, true) <==>
            LegalMembers(members, budget, read, false) && MembersBounded(members)
    decreases members, 0
  {
    if members != [] {
      LegalWithinBounds(members[0].value, budget, read);
      LegalMembersWithinBounds(members[1..], budget, read);
    }
  }
}
