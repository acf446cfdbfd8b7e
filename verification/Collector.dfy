/** One connection of the ingest collector: checks, replay protection, and the hand-over to the chain. */
module Collector {
  import opened Prelude
  import opened Json
  import opened StrictJson
  import opened RecordSchema
  import opened ChainVerifier
  import opened Store
  import opened VerdictsAgree
  import opened Logger
  import opened AppendLog
  import opened Framing
  import Hex

  // ----- the payload

  /** A validated payload; its schema version is always 0.1. */
  datatype SensorEvent = SensorEvent(nodeId: string, timestamp: string, digest: string, sequence: nat)

  datatype PayloadError =
    | PayloadNotObject
    | MissingFields
    | UnknownFields
    | UnsupportedVersion
    | InvalidNodeId
    | InvalidTimestamp
    | InvalidDigest
    | InvalidSequence

  const PAYLOAD_FIELDS: set<string> := {
    "schema_version", "node_id", "timestamp_utc", "csi_window_sha256", "sequence_number"}

  predicate IsAlphanumeric(c: char) {
    'A' <= c <= 'Z' || 'a' <= c <= 'z' || '0' <= c <= '9'
  }

  predicate IsNodeId(s: string) {
    && 1 <= |s| <= 128 && IsAlphanumeric(s[0])
    && forall i | 1 <= i < |s| :: IsAlphanumeric(s[i]) || s[i] == '.' || s[i] == '_' || s[i] == '-'
  }

  /** A timestamp of the writer with at most nine digits of fraction. */
  predicate IsPayloadTimestamp(s: string) {
    LenientTimestamp(s) && |s| <= 30
  }

  function ValidatePayload(v: Value): Result<SensorEvent, PayloadError> {
    if !v.Obj? then Err(PayloadNotObject)
    else
      var m := v.members;
      if !(PAYLOAD_FIELDS <= KeySet(m)) then Err(MissingFields)
      else if KeySet(m) != PAYLOAD_FIELDS then Err(UnknownFields)
      else if Lookup(m, "schema_version") != Some(Str("0.1")) then Err(UnsupportedVersion)
      else
        var nodeId, timestamp := StringField(m, "node_id"), StringField(m, "timestamp_utc");
        var digest, sequence := StringField(m, "csi_window_sha256"), IntegerField(m, "sequence_number");
        if nodeId.None? || !IsNodeId(nodeId.value) then Err(InvalidNodeId)
        else if timestamp.None? || !IsPayloadTimestamp(timestamp.value) then Err(InvalidTimestamp)
        else if digest.None? || !Hex.IsLowerHex(digest.value, 64) then Err(InvalidDigest)
        else if sequence.None? || sequence.value >= U64_LIMIT then Err(InvalidSequence)
        else Ok(SensorEvent(nodeId.value, timestamp.value, digest.value, sequence.value))
  }

  /** What validation guarantees about an event. */
  predicate ValidSensorEvent(e: SensorEvent) {
    IsNodeId(e.nodeId) && IsPayloadTimestamp(e.timestamp) && Hex.IsLowerHex(e.digest, 64) && e.sequence < U64_LIMIT
  }

  // ----- the event on the chain

  /** The ingestion event that is handed to the writer of the chain. */
  function IngestionEvent(e: SensorEvent): seq<Member> {
    [ Member("format_version", Int(2)),
      Member("event_type", Str("ingestion_accepted")),
      Member("ts_utc", Str(e.timestamp)),
      Member("node_id", Str(e.nodeId)),
      Member("raw_csi_hash", Str(e.digest)),
      Member("collector_schema_version", Str("0.1")),
      Member("collector_sequence_number", Int(e.sequence))]
  }

  /** No two names of the ingestion event have the same length. */
  lemma IngestionNames(e: SensorEvent)
    ensures forall i, j | 0 <= i < j < 7 :: IngestionEvent(e)[i].key != IngestionEvent(e)[j].key
  {
    assert |"format_version"| == 14 && |"event_type"| == 10 && |"ts_utc"| == 6 && |"node_id"| == 7;
    assert |"raw_csi_hash"| == 12 && |"collector_schema_version"| == 24 && |"collector_sequence_number"| == 25;
  }

  lemma IngestionField(e: SensorEvent, i: nat)
    requires i < 7
    ensures Lookup(IngestionEvent(e), IngestionEvent(e)[i].key) == Some(IngestionEvent(e)[i].value)
  {
    IngestionNames(e);
    LookupAt(IngestionEvent(e), i, IngestionEvent(e)[i].key);
  }

  lemma IngestionKeys(e: SensorEvent)
    ensures KeySet(IngestionEvent(e)) == EventFields(Ingestion)
  {
    forall k
      ensures k in KeySet(IngestionEvent(e)) <==> k in EventFields(Ingestion)
    {
      var event := IngestionEvent(e);
      KeysAt(event, k);
      assert k in EventFields(Ingestion) <==>
        k == event[0].key || k == event[1].key || k == event[2].key || k == event[3].key || k == event[4].key ||
        k == event[5].key || k == event[6].key;
    }
  }

  lemma IngestionKind(e: SensorEvent)
    ensures EventKind(IngestionEvent(e)) == Some(Ingestion)
  {
    IngestionField(e, 0);
    IngestionField(e, 1);
  }

  lemma IngestionContent(e: SensorEvent)
    requires ValidSensorEvent(e)
    ensures EventContent(IngestionEvent(e), Ingestion) <==> e.sequence < I64_LIMIT
  {
    IngestionCommon(e);
    IngestionField(e, 5);
    IngestionField(e, 6);
  }

  lemma IngestionCommon(e: SensorEvent)
    requires ValidSensorEvent(e)
    ensures CommonContent(IngestionEvent(e))
  {
    IngestionField(e, 2);
    IngestionField(e, 3);
    IngestionField(e, 4);
  }

  /** The writer takes a validated event exactly if its sequence number fits in 63 bits. */
  lemma WriterTakesEvent(e: SensorEvent)
    requires ValidSensorEvent(e)
    ensures EventSchema(IngestionEvent(e)) == if e.sequence < I64_LIMIT then Some(2) else None
  {
    IngestionKeys(e);
    IngestionKind(e);
    IngestionContent(e);
  }

  lemma {:induction false} PlainMembers(members: seq<Member>, budget: nat, read: Reading)
    requires forall i | 0 <= i < |members| :: members[i].value.Int? || members[i].value.Str?
    ensures MembersDepth(members) == 0 && LegalMembers(members, budget, read, false)
  {
    if members != [] {
      PlainMembers(members[1..], budget, read);
    }
  }

  /** It is a flat dictionary, so every parser can enter it. */
  lemma IngestionIsDictionary(pf: Platform, e: SensorEvent)
    ensures IsDictionary(pf, IngestionEvent(e)) && Depth(Obj(IngestionEvent(e))) == 1
  {
    IngestionNames(e);
    DistinctAt(IngestionEvent(e));
    PlainMembers(IngestionEvent(e), 0, pf.read);
  }

  // ----- one connection

  datatype Reason =
    | InvalidCertificateName
    | NotEnrolled
    | Unreadable(readError: ReadError)
    | InvalidJsonPayload
    | InvalidPayload(payloadError: PayloadError)
    | NodeIdMismatch
    | Replayed
    | HandoffFailed
    | HandedOff

  /** The checks before the replay check: certificate, enrolment, framing, JSON, schema, and the node's own name. */
  function Admit(pf: Platform, names: seq<string>, enrolled: set<string>, frame: Result<string, ReadError>)
    : (r: Result<SensorEvent, Reason>)
    ensures r.Ok? ==> ValidSensorEvent(r.value)
    ensures r.Ok? ==> names == [r.value.nodeId] && r.value.nodeId in enrolled
  {
    if |names| != 1 then Err(InvalidCertificateName)
    else if names[0] !in enrolled then Err(NotEnrolled)
    else if frame.Err? then
      Err(if frame.error.InvalidUtf8? || frame.error.SocketFailed? then InvalidJsonPayload else Unreadable(frame.error))
    else
      match LenientParse(pf.read, pf.nesting, frame.value)
      case None => Err(InvalidJsonPayload)
      case Some(v) =>
        match ValidatePayload(v)
        case Err(e) => Err(InvalidPayload(e))
        case Ok(event) => if event.nodeId != names[0] then Err(NodeIdMismatch) else Ok(event)
  }

  /** A number that the node has used, or passed, already. */
  predicate IsReplay(last: map<string, nat>, e: SensorEvent) {
    e.nodeId in last && e.sequence <= last[e.nodeId]
  }

  class CollectorServer {
    const c: Setting
    const chain: ChainFile
    var lastSequences: map<string, nat>
    var enrolledNodes: set<string>

    constructor (c: Setting, chain: ChainFile, enrolled: set<string>)
      ensures this.c == c && this.chain == chain && lastSequences == map[] && enrolledNodes == enrolled
    {
      this.c, this.chain := c, chain;
      lastSequences, enrolledNodes := map[], enrolled;
    }

    method ReloadSecurityState(enrolled: set<string>)
      modifies this`enrolledNodes
      ensures enrolledNodes == enrolled
    {
      enrolledNodes := enrolled;
    }

    /** Reserves the event's number for its node, unless it is a replay. */
    method ReserveSequence(e: SensorEvent) returns (isReplay: bool)
      modifies this`lastSequences
      ensures isReplay == IsReplay(old(lastSequences), e)
      ensures lastSequences == if isReplay then old(lastSequences) else old(lastSequences)[e.nodeId := e.sequence]
    {
      isReplay := e.nodeId in lastSequences && e.sequence <= lastSequences[e.nodeId];
      if !isReplay {
        lastSequences := lastSequences[e.nodeId := e.sequence];
      }
    }

    /** Hands an event to the writer of the chain. */
    method HandOff(e: SensorEvent, disk: Disk) returns (logged: bool)
      requires ValidSensorEvent(e)
      modifies chain
      ensures var read := ReadStore(c.pf, Tip(Some(2)), old(chain.contents));
              if e.sequence >= I64_LIMIT || read.Err? then !logged && chain.contents == old(chain.contents)
              else
                var d := DraftFor(c, IngestionEvent(e), read.value.number, read.value.prev);
                && (logged <==> |d.signature| == 64 && disk.Durable?)
                && (logged ==> chain.contents == old(chain.contents) + Kept(LineOf(c, d), Durable))
    {
      WriterTakesEvent(e);
      var r := chain.LogEvent(c, IngestionEvent(e), disk);
      logged := r.Ok?;
    }

    /** Everything between the handshake and the answer, for one connection. */
    method HandleConnection(names: seq<string>, socket: Socket, limit: nat, disk: Disk)
      returns (accepted: bool, reason: Reason)
      requires socket.Valid() && socket.position == 0
      modifies this`lastSequences, chain, socket
      ensures var admitted := Admit(c.pf, names, enrolledNodes, Frame(socket.data, socket.ending, limit));
              if admitted.Err? then
                !accepted && reason == admitted.error
                && lastSequences == old(lastSequences) && chain.contents == old(chain.contents)
              else if IsReplay(old(lastSequences), admitted.value) then
                !accepted && reason == Replayed
                && lastSequences == old(lastSequences) && chain.contents == old(chain.contents)
              else
                && lastSequences == old(lastSequences)[admitted.value.nodeId := admitted.value.sequence]
                && reason == (if accepted then HandedOff else HandoffFailed)
                && (accepted <==> WriterAppends(c, old(chain.contents), admitted.value, disk))
                && (accepted ==> AppendedTo(c, old(chain.contents), chain.contents, admitted.value))
    {
      if |names| != 1 {
        return false, InvalidCertificateName;
      }
      if names[0] !in enrolledNodes {
        return false, NotEnrolled;
      }
      var frame := ReadJsonLine(socket, limit);
      var admitted := Admit(c.pf, names, enrolledNodes, frame);
      if admitted.Err? {
        return false, admitted.error;
      }
      var event := admitted.value;
      var isReplay := ReserveSequence(event);
      if isReplay {
        return false, Replayed;
      }
      accepted := HandOff(event, disk);
      reason := if accepted then HandedOff else HandoffFailed;
    }
  }

  /**
   The writer can number the event, reads the store, gets a signature from its signer, and the disk takes
   the line.
   */
  predicate WriterAppends(c: Setting, before: Bytes, e: SensorEvent, disk: Disk) {
    var read := ReadStore(c.pf, Tip(Some(2)), before);
    && e.sequence < I64_LIMIT && read.Ok?
    && |DraftFor(c, IngestionEvent(e), read.value.number, read.value.prev).signature| == 64 && disk.Durable?
  }

  /** The store has grown by the record of the event, linked to the tip that was there. */
  predicate AppendedTo(c: Setting, before: Bytes, after: Bytes, e: SensorEvent) {
    var read := ReadStore(c.pf, Tip(Some(2)), before);
    && e.sequence < I64_LIMIT && read.Ok?
    && after == before + Kept(LineOf(c, DraftFor(c, IngestionEvent(e), read.value.number, read.value.prev)), Durable)
  }
}
