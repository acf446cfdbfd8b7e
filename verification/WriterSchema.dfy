/** What the writer's validator accepts, field by field: the three kinds of event, and the stored record. */
module WriterSchema {
  import opened Prelude
  import opened Decimal
  import opened Json
  import opened RecordSchema

  predicate IsText(v: Option<Value>) {
    match v
    case Some(Str(s)) => s != ""
    case _ => false
  }

  predicate IsTime(v: Option<Value>) {
    match v
    case Some(Str(s)) => LenientTimestamp(s)
    case _ => false
  }

  /** So many lowercase hexadecimal digits. */
  predicate IsHex(v: Option<Value>, length: nat) {
    match v
    case Some(Str(s)) => |s| == length && forall i | 0 <= i < |s| :: '0' <= s[i] <= '9' || 'a' <= s[i] <= 'f'
    case _ => false
  }

  predicate IsNumber(v: Option<Value>) {
    match v
    case Some(Int(n)) => 0 <= n < 0x8000_0000_0000_0000
    case _ => false
  }

  /** A number from 0 to 1, whole or not. */
  predicate IsShare(v: Option<Value>) {
    match v
    case Some(Int(n)) => n == 0 || n == 1
    case Some(Float(d)) => Normalized(d) && 0.0 <= DecimalValue(d) <= 1.0
    case _ => false
  }

  predicate HasCommon(event: seq<Member>) {
    IsTime(Lookup(event, "ts_utc")) && IsText(Lookup(event, "node_id")) && IsHex(Lookup(event, "raw_csi_hash"), 64)
  }

  predicate HasDecision(event: seq<Member>) {
    && IsHex(Lookup(event, "features_hash"), 64) && IsHex(Lookup(event, "model_config_hash"), 64)
    && IsText(Lookup(event, "model_id")) && IsText(Lookup(event, "class"))
    && IsShare(Lookup(event, "confidence"))
    && Lookup(event, "top_shap").Some? && IntsBounded(Lookup(event, "top_shap").value)
  }

  /** A decision of the first format. */
  predicate IsVersion1(event: seq<Member>) {
    && KeySet(event) == {"ts_utc", "node_id", "raw_csi_hash", "features_hash", "model_id", "model_config_hash", "class",
                         "confidence", "top_shap"}
    && HasCommon(event) && HasDecision(event)
  }

  /** A decision of the second format. */
  predicate IsClassification(event: seq<Member>) {
    && KeySet(event) == {"format_version", "event_type", "ts_utc", "node_id", "raw_csi_hash", "features_hash",
                         "model_id", "model_config_hash", "class", "confidence", "top_shap"}
    && Lookup(event, "format_version") == Some(Int(2))
    && Lookup(event, "event_type") == Some(Str("classification_decision"))
    && HasCommon(event) && HasDecision(event)
  }

  predicate IsIngestion(event: seq<Member>) {
    && KeySet(event) == {"format_version", "event_type", "ts_utc", "node_id", "raw_csi_hash",
                         "collector_schema_version", "collector_sequence_number"}
    && Lookup(event, "format_version") == Some(Int(2))
    && Lookup(event, "event_type") == Some(Str("ingestion_accepted"))
    && HasCommon(event) && IsText(Lookup(event, "collector_schema_version"))
    && IsNumber(Lookup(event, "collector_sequence_number"))
  }

  lemma KindOfVersion1(event: seq<Member>)
    ensures EventKind(event) == Some(Version1) <==> !HasKey(event, "format_version") && !HasKey(event, "event_type")
  {
  }

  lemma KindOfSecond(event: seq<Member>, kind: Kind, name: string)
    requires (kind == Ingestion && name == "ingestion_accepted") ||
             (kind == Classification && name == "classification_decision")
    ensures EventKind(event) == Some(kind) <==>
            Lookup(event, "format_version") == Some(Int(2)) && Lookup(event, "event_type") == Some(Str(name))
  {
    assert |"ingestion_accepted"| == 18 && |"classification_decision"| == 23;
  }

  lemma CommonIs(event: seq<Member>)
    ensures CommonContent(event) <==> HasCommon(event)
  {
  }

  lemma DecisionIs(event: seq<Member>)
    ensures DecisionContent(event) <==> HasDecision(event)
  {
  }

  lemma CollectorIs(event: seq<Member>)
    ensures CollectorContent(event) <==>
            && IsText(Lookup(event, "collector_schema_version"))
            && IsNumber(Lookup(event, "collector_sequence_number"))
  {
  }

  /** An event is of version 1 exactly if it is a decision of the first format. */
  lemma Version1Exact(event: seq<Member>)
    ensures EventSchema(event) == Some(1) <==> IsVersion1(event)
  {
    CommonIs(event);
    DecisionIs(event);
    KindOfVersion1(event);
    KeySetIs(event, "format_version");
    KeySetIs(event, "event_type");
  }

  lemma ClassificationExact(event: seq<Member>)
    ensures EventSchema(event) == Some(2) && EventKind(event) == Some(Classification) <==> IsClassification(event)
  {
    CommonIs(event);
    DecisionIs(event);
    KindOfSecond(event, Classification, "classification_decision");
  }

  lemma IngestionExact(event: seq<Member>)
    ensures EventSchema(event) == Some(2) && EventKind(event) == Some(Ingestion) <==> IsIngestion(event)
  {
    CommonIs(event);
    CollectorIs(event);
    KindOfSecond(event, Ingestion, "ingestion_accepted");
  }

  /** And of version 2 exactly if it is a decision or an ingestion of the second; there is no other. */
  lemma Version2Exact(event: seq<Member>)
    ensures EventSchema(event) == Some(2) <==> IsClassification(event) || IsIngestion(event)
    ensures EventSchema(event).Some? ==> EventSchema(event).value == 1 || EventSchema(event).value == 2
  {
    ClassificationExact(event);
    IngestionExact(event);
  }

  lemma ManagedIs(record: seq<Member>)
    ensures ManagedContent(record) <==>
            && IsNumber(Lookup(record, "seq"))
            && IsHex(Lookup(record, "prev_hash"), 64) && IsHex(Lookup(record, "record_hash"), 64)
            && IsHex(Lookup(record, "signature"), 128)
  {
  }

  lemma ManagedKeys(record: seq<Member>)
    ensures ManagedContent(record) ==> MANAGED_FIELDS <= KeySet(record)
  {
    KeySetIs(record, "seq");
    KeySetIs(record, "prev_hash");
    KeySetIs(record, "record_hash");
    KeySetIs(record, "signature");
  }

  /** A stored record is an event with its four managed fields. */
  lemma StoredExact(record: seq<Member>, version: nat)
    ensures LenientSchema(record) == Some(version) <==>
            && IsNumber(Lookup(record, "seq"))
            && IsHex(Lookup(record, "prev_hash"), 64) && IsHex(Lookup(record, "record_hash"), 64)
            && IsHex(Lookup(record, "signature"), 128)
            && EventSchema(EventOf(record)) == Some(version)
  {
    ManagedIs(record);
    ManagedKeys(record);
  }
}
