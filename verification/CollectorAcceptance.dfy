/**
 Which payloads the collector accepts, told from the payload and from the bytes on the connection,
 and what an accepted event becomes on the chain.
 */
module CollectorAcceptance {
  import opened Prelude
  import opened Utf8
  import opened Lines
  import opened Json
  import opened JsonRoundTrip
  import opened Canonical
  import opened StrictJson
  import opened RecordSchema
  import opened ChainVerifier
  import opened Logger
  import opened AppendLog
  import opened Framing
  import opened Collector
  import opened Decimal
  import opened UtcText
  import opened Timestamps

  // ----- the payload

  /** The members of a payload, in whatever order, and no others. */
  ghost predicate IsPayload(m: seq<Member>, e: SensorEvent) {
    && Lookup(m, "schema_version") == Some(Str("0.1"))
    && Lookup(m, "node_id") == Some(Str(e.nodeId))
    && Lookup(m, "timestamp_utc") == Some(Str(e.timestamp))
    && Lookup(m, "csi_window_sha256") == Some(Str(e.digest))
    && Lookup(m, "sequence_number") == Some(Int(e.sequence))
    && forall k :: HasKey(m, k) ==> IsPayloadKey(k)
  }

  predicate IsPayloadKey(k: string) {
    || k == "schema_version" || k == "node_id" || k == "timestamp_utc" || k == "csi_window_sha256"
    || k == "sequence_number"
  }

  lemma PayloadKeys(m: seq<Member>)
    ensures KeySet(m) == PAYLOAD_FIELDS <==> forall k :: HasKey(m, k) <==> IsPayloadKey(k)
  {
    forall k
      ensures k in KeySet(m) <==> HasKey(m, k)
      ensures k in PAYLOAD_FIELDS <==> IsPayloadKey(k)
    {
      KeySetIs(m, k);
    }
    if forall k :: HasKey(m, k) <==> IsPayloadKey(k) {
      assert forall k :: k in KeySet(m) <==> k in PAYLOAD_FIELDS;
    }
    if KeySet(m) == PAYLOAD_FIELDS {
      assert forall k :: HasKey(m, k) <==> k in KeySet(m);
    }
  }

  lemma ValidPayload(m: seq<Member>, e: SensorEvent)
    requires IsPayload(m, e) && ValidSensorEvent(e)
    ensures ValidatePayload(Obj(m)) == Ok(e)
  {
    PayloadKeys(m);
  }

  lemma ValidatedPayload(m: seq<Member>, e: SensorEvent)
    requires ValidatePayload(Obj(m)) == Ok(e)
    ensures IsPayload(m, e) && ValidSensorEvent(e)
  {
    PayloadKeys(m);
  }

  /** The validator turns exactly the payloads of an event into the event. */
  lemma PayloadExact(v: Value, e: SensorEvent)
    ensures ValidatePayload(v) == Ok(e) <==> v.Obj? && IsPayload(v.members, e) && ValidSensorEvent(e)
  {
    if v.Obj? {
      if ValidatePayload(v) == Ok(e) {
        ValidatedPayload(v.members, e);
      }
      if IsPayload(v.members, e) && ValidSensorEvent(e) {
        ValidPayload(v.members, e);
      }
    }
  }

  /** A letter or a digit, or after the first character one of three marks. */
  predicate IsNodeChar(c: char, first: bool) {
    || 65 <= c as int <= 90 || 97 <= c as int <= 122 || 48 <= c as int <= 57
    || (!first && (c as int == 46 || c as int == 95 || c as int == 45))
  }

  lemma NodeIdExact(s: string)
    ensures IsNodeId(s) <==> 1 <= |s| <= 128 && forall i | 0 <= i < |s| :: IsNodeChar(s[i], i == 0)
  {
    assert '.' as int == 46 && '_' as int == 95 && '-' as int == 45;
    assert 'A' as int == 65 && 'Z' as int == 90 && 'a' as int == 97 && 'z' as int == 122;
    assert '0' as int == 48 && '9' as int == 57;
  }

  /** A payload's timestamp is a calendar time with at most nine digits of fraction. */
  lemma PayloadTimestampExact(s: string)
    ensures IsPayloadTimestamp(s) <==> exists t, fraction ::
              IsTime(t, 1, 59) && AllDigits(fraction) && |fraction| <= 9
              && s == SecondText(t) + (FractionOf(fraction) + "Z")
  {
    if IsPayloadTimestamp(s) {
      var t, fraction := TimestampIsTime(s, 1, 59);
      TextLength(t, fraction);
    }
    if t, fraction :| IsTime(t, 1, 59) && AllDigits(fraction) && |fraction| <= 9
                      && s == SecondText(t) + (FractionOf(fraction) + "Z") {
      TimeIsTimestamp(t, fraction, 1, 59);
      TextLength(t, fraction);
    }
  }

  lemma TextLength(t: DateTime, fraction: string)
    requires IsTime(t, 1, 59)
    ensures |SecondText(t) + (FractionOf(fraction) + "Z")| == 20 + (if fraction == "" then 0 else 1 + |fraction|)
  {
    PadsAreDigits(t, 59);
    DatePieces(Pad(t.year, 4), Pad(t.month, 2), Pad(t.day, 2));
    TimePieces(Pad(t.hour, 2), Pad(t.minute, 2), Pad(t.second, 2));
    TailPieces(fraction);
  }

  /** Exactly these connections are admitted, with this event. */
  lemma AdmittedExactly(pf: Platform, names: seq<string>, enrolled: set<string>, frame: Result<string, ReadError>,
                        e: SensorEvent)
    ensures Admit(pf, names, enrolled, frame) == Ok(e) <==>
            && names == [e.nodeId] && e.nodeId in enrolled && ValidSensorEvent(e)
            && frame.Ok? && LenientParse(pf.read, pf.nesting, frame.value).Some?
            && LenientParse(pf.read, pf.nesting, frame.value).value.Obj?
            && IsPayload(LenientParse(pf.read, pf.nesting, frame.value).value.members, e)
  {
    if frame.Ok? && LenientParse(pf.read, pf.nesting, frame.value).Some? {
      var v := LenientParse(pf.read, pf.nesting, frame.value).value;
      PayloadExact(v, e);
      if ValidatePayload(v).Ok? {
        PayloadExact(v, ValidatePayload(v).value);
      }
    }
  }

  /** Why a connection is turned away before its number is looked at. */
  lemma AdmitReasons(pf: Platform, names: seq<string>, enrolled: set<string>, frame: Result<string, ReadError>)
    ensures var r := Admit(pf, names, enrolled, frame);
            && (r == Err(InvalidCertificateName) <==> |names| != 1)
            && (r == Err(NotEnrolled) <==> |names| == 1 && names[0] !in enrolled)
            && (|names| == 1 && names[0] in enrolled && frame.Err? ==>
                  r == if frame.error.InvalidUtf8? || frame.error.SocketFailed? then Err(InvalidJsonPayload)
                       else Err(Unreadable(frame.error)))
            && (r == Err(NodeIdMismatch) ==>
                  exists e :: ValidSensorEvent(e) && e.nodeId != names[0] && frame.Ok?
                              && LenientParse(pf.read, pf.nesting, frame.value).Some?
                              && ValidatePayload(LenientParse(pf.read, pf.nesting, frame.value).value) == Ok(e))
  {
    if Admit(pf, names, enrolled, frame) == Err(NodeIdMismatch) {
      var v := LenientParse(pf.read, pf.nesting, frame.value).value;
      PayloadExact(v, ValidatePayload(v).value);
    }
  }

  // ----- the bytes

  lemma {:induction false} PayloadValues(m: seq<Member>, i: nat, e: SensorEvent)
    requires i < |m| && IsPayload(m, e) && DistinctKeys(m)
    ensures m[i].value.Int? || m[i].value.Str?
  {
    KeysAt(m, m[i].key);
    KeySetIs(m, m[i].key);
    MemberIsLookedUp(m, i);
  }

  lemma {:induction false} MemberIsLookedUp(m: seq<Member>, i: nat)
    requires i < |m| && DistinctKeys(m)
    ensures Lookup(m, m[i].key) == Some(m[i].value)
  {
    if i > 0 {
      KeysAt(m[1..], m[i].key);
      KeySetIs(m[1..], m[i].key);
      assert m[1..][i - 1] == m[i];
      MemberIsLookedUp(m[1..], i - 1);
    }
  }

  lemma PayloadIsLegal(m: seq<Member>, e: SensorEvent, budget: nat, read: Reading)
    requires IsPayload(m, e) && DistinctKeys(m) && budget >= 1
    ensures Legal(Obj(m), budget, read, false)
  {
    forall i | 0 <= i < |m|
      ensures m[i].value.Int? || m[i].value.Str?
    {
      PayloadValues(m, i, e);
    }
    PlainMembers(m, budget - 1, read);
  }

  lemma LegalTextIsRead(pf: Platform, v: Value)
    requires Legal(v, pf.nesting, pf.read, false)
    ensures LenientParse(pf.read, pf.nesting, Render(v)) == Some(v)
  {
    PoliciesReadNumbers(pf.read);
    LegalIsReadable(v, pf.nesting, LenientPolicy(pf.read), pf.read, false);
    TextRoundTrip(v, pf.nesting, LenientPolicy(pf.read));
  }

  /** The compact text of a payload is read back as the payload. */
  lemma PayloadIsRead(pf: Platform, m: seq<Member>, e: SensorEvent)
    requires IsPayload(m, e) && DistinctKeys(m) && pf.nesting >= 1
    ensures LenientParse(pf.read, pf.nesting, Render(Obj(m))) == Some(Obj(m))
  {
    PayloadIsLegal(m, e, pf.nesting, pf.read);
    LegalTextIsRead(pf, Obj(m));
  }

  lemma TextIsFramed(text: string, rest: Bytes, ending: Ending, limit: nat)
    requires LF !in Encode(text) && 1 <= |Encode(text)| <= limit
    ensures Frame(Encode(text) + ([LF] + rest), ending, limit) == Ok(text)
  {
    FrameOfLine(Encode(text), rest, ending, limit);
    DecodeEncoded(text);
  }

  lemma PayloadText(m: seq<Member>)
    ensures LF !in Encode(Render(Obj(m))) && 1 <= |Encode(Render(Obj(m)))|
  {
    RenderNoControls(Obj(m));
    LineFeedByte(Render(Obj(m)));
    assert Render(Obj(m)) != [];
  }

  /** A payload on one line, from the node that its certificate names, is admitted, whatever follows the line. */
  lemma PayloadIsAdmitted(pf: Platform, enrolled: set<string>, m: seq<Member>, e: SensorEvent, rest: Bytes,
                          ending: Ending, limit: nat)
    requires IsPayload(m, e) && DistinctKeys(m) && ValidSensorEvent(e)
    requires e.nodeId in enrolled && pf.nesting >= 1 && |Encode(Render(Obj(m)))| <= limit
    ensures Admit(pf, [e.nodeId], enrolled, Frame(Encode(Render(Obj(m))) + ([LF] + rest), ending, limit)) == Ok(e)
  {
    PayloadText(m);
    TextIsFramed(Render(Obj(m)), rest, ending, limit);
    PayloadIsRead(pf, m, e);
    AdmittedExactly(pf, [e.nodeId], enrolled, Ok(Render(Obj(m))), e);
  }

  /** Such a payload with a fresh number is accepted exactly if the writer appends its event. */
  method ServePayload(server: CollectorServer, socket: Socket, limit: nat, disk: Disk,
                      ghost m: seq<Member>, e: SensorEvent, ghost rest: Bytes)
    returns (accepted: bool, reason: Reason)
    requires socket.Valid() && socket.position == 0
    requires IsPayload(m, e) && DistinctKeys(m) && ValidSensorEvent(e)
    requires server.c.pf.nesting >= 1 && e.nodeId in server.enrolledNodes
    requires socket.data == Encode(Render(Obj(m))) + ([LF] + rest) && |Encode(Render(Obj(m)))| <= limit
    requires e.nodeId in server.lastSequences ==> server.lastSequences[e.nodeId] < e.sequence
    modifies server`lastSequences, server.chain, socket
    ensures accepted <==> WriterAppends(server.c, old(server.chain.contents), e, disk)
    ensures accepted ==>
              && reason == HandedOff && server.lastSequences == old(server.lastSequences)[e.nodeId := e.sequence]
              && AppendedTo(server.c, old(server.chain.contents), server.chain.contents, e)
  {
    PayloadIsAdmitted(server.c.pf, server.enrolledNodes, m, e, rest, socket.ending, limit);
    accepted, reason := server.HandleConnection([e.nodeId], socket, limit, disk);
  }

  // ----- the record on the chain

  /** What the record of an accepted event holds besides its links. */
  lemma IngestionRecord(c: Setting, d: Draft, e: SensorEvent)
    requires ValidSensorEvent(e) && e.sequence < I64_LIMIT && d.event == IngestionEvent(e)
    ensures var record := RecordOf(c, d);
            && Lookup(record, "format_version") == Some(Int(2))
            && Lookup(record, "event_type") == Some(Str("ingestion_accepted"))
            && Lookup(record, "ts_utc") == Some(Str(e.timestamp))
            && Lookup(record, "node_id") == Some(Str(e.nodeId))
            && Lookup(record, "raw_csi_hash") == Some(Str(e.digest))
            && Lookup(record, "collector_schema_version") == Some(Str("0.1"))
            && Lookup(record, "collector_sequence_number") == Some(Int(e.sequence))
  {
    RecordField(c, d, e, 0);
    RecordField(c, d, e, 1);
    RecordField(c, d, e, 2);
    RecordField(c, d, e, 3);
    RecordField(c, d, e, 4);
    RecordField(c, d, e, 5);
    RecordField(c, d, e, 6);
  }

  lemma RecordField(c: Setting, d: Draft, e: SensorEvent, i: nat)
    requires ValidSensorEvent(e) && e.sequence < I64_LIMIT && d.event == IngestionEvent(e) && i < 7
    ensures Lookup(RecordOf(c, d), d.event[i].key) == Some(d.event[i].value)
  {
    var key := d.event[i].key;
    WriterTakesEvent(e);
    IngestionField(e, i);
    if key in MANAGED_FIELDS {
      EventHasNoManagedKey(d.event, key);
    }
    SealedLookup(c.pf, d.event, d.number, d.prev, d.signature, key);
    CandidateLookup(d.event, d.number, d.prev, key);
  }
}
