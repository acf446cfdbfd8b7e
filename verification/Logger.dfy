/**
 The record that the writer appends for an event: what every reader of the store makes of it,
 and when it reads it back at all.
 */
module Logger {
  import opened Prelude
  import opened Utf8
  import opened Json
  import opened Canonical
  import opened StrictJson
  import opened RecordSchema
  import opened ChainVerifier
  import opened Store
  import opened TipHistory
  import opened VerdictsAgree
  import Hex

  /** What a dictionary of the writer's language can hold: binary64 floats, no repeated key at any depth. */
  predicate IsDictionary(pf: Platform, event: seq<Member>) {
    Legal(Obj(event), Depth(Obj(event)), pf.read, false)
  }

  function Candidate(event: seq<Member>, number: nat, prev: string): seq<Member> {
    event + [Member("seq", Int(number)), Member("prev_hash", Str(prev))]
  }

  function SealedRecord(pf: Platform, event: seq<Member>, number: nat, prev: string, signature: Bytes): seq<Member> {
    var candidate := Candidate(event, number, prev);
    candidate + [
      Member("record_hash", Str(RecordHash(pf, candidate, CodePointOrder))),
      Member("signature", Str(Hex.Encode(signature)))]
  }

  /** The line that is appended, without its line feed. */
  function SealedLine(pf: Platform, event: seq<Member>, number: nat, prev: string, signature: Bytes): Bytes {
    Encode(Serialize(Obj(SealedRecord(pf, event, number, prev, signature)), CodePointOrder))
  }

  /** The record as a reader of the store finds it: in key order. */
  function StoredForm(record: seq<Member>): seq<Member> {
    Sort(CanonMembers(record, CodePointOrder), CodePointOrder)
  }

  // ----- the content of a record in key order

  function CanonOption(v: Option<Value>): Option<Value> {
    match v
    case None => None
    case Some(v) => Some(Canon(v, CodePointOrder))
  }

  lemma {:induction false} CanonMembersLookup(members: seq<Member>, key: string)
    ensures Lookup(CanonMembers(members, CodePointOrder), key) == CanonOption(Lookup(members, key))
  {
    if members != [] {
      CanonMembersLookup(members[1..], key);
      assert CanonMembers(members, CodePointOrder)[1..] == CanonMembers(members[1..], CodePointOrder);
    }
  }

  lemma StoredLookup(record: seq<Member>, key: string)
    requires DistinctKeys(record)
    ensures Lookup(StoredForm(record), key) == CanonOption(Lookup(record, key))
  {
    CanonMembersDistinct(record);
    SortLookup(CanonMembers(record, CodePointOrder), key);
    CanonMembersLookup(record, key);
  }

  lemma {:induction false} AppendLookup(a: seq<Member>, b: seq<Member>, key: string)
    ensures Lookup(a + b, key) == if HasKey(a, key) then Lookup(a, key) else Lookup(b, key)
  {
    if a == [] {
      assert a + b == b;
    } else {
      assert (a + b)[1..] == a[1..] + b;
      AppendLookup(a[1..], b, key);
    }
  }

  lemma {:induction false} AppendDistinct(a: seq<Member>, b: seq<Member>)
    requires DistinctKeys(a) && DistinctKeys(b)
    requires forall k | HasKey(b, k) :: !HasKey(a, k)
    ensures DistinctKeys(a + b)
  {
    if a == [] {
      assert a + b == b;
    } else {
      assert (a + b)[1..] == a[1..] + b;
      AppendLookup(a[1..], b, a[0].key);
      AppendDistinct(a[1..], b);
    }
  }

  // ----- the bounds and the depth survive sorting

  lemma {:induction false} InsertKeepsBounds(m: Member, sorted: seq<Member>)
    ensures MembersBounded(Insert(m, sorted, CodePointOrder)) <==> IntsBounded(m.value) && MembersBounded(sorted)
    ensures MembersDepth(Insert(m, sorted, CodePointOrder)) == Max(Depth(m.value), MembersDepth(sorted))
  {
    var r := Insert(m, sorted, CodePointOrder);
    if sorted == [] || !CodePointLess(sorted[0].key, m.key) {
      assert r[1..] == sorted;
    } else {
      InsertKeepsBounds(m, sorted[1..]);
      assert r[1..] == Insert(m, sorted[1..], CodePointOrder);
    }
  }

  lemma {:induction false} SortKeepsBounds(members: seq<Member>)
    ensures MembersBounded(Sort(members, CodePointOrder)) <==> MembersBounded(members)
    ensures MembersDepth(Sort(members, CodePointOrder)) == MembersDepth(members)
  {
    if members != [] {
      SortKeepsBounds(members[1..]);
      InsertKeepsBounds(members[0], Sort(members[1..], CodePointOrder));
    }
  }

  lemma {:induction false} CanonKeepsBounds(v: Value)
    ensures IntsBounded(Canon(v, CodePointOrder)) <==> IntsBounded(v)
    ensures Depth(Canon(v, CodePointOrder)) == Depth(v)
    decreases v, 0
  {
    match v
    case Arr(items) => CanonItemsKeepBounds(items);
    case Obj(members) =>
      CanonMembersKeepBounds(members);
      SortKeepsBounds(CanonMembers(members, CodePointOrder));
    case _ =>
  }

  lemma {:induction false} CanonItemsKeepBounds(items: seq<Value>)
    ensures ItemsBounded(CanonItems(items, CodePointOrder)) <==> ItemsBounded(items)
    ensures ItemsDepth(CanonItems(items, CodePointOrder)) == ItemsDepth(items)
    decreases items, 0
  {
    if items != [] {
      CanonKeepsBounds(items[0]);
      CanonItemsKeepBounds(items[1..]);
    }
  }

  lemma {:induction false} CanonMembersKeepBounds(members: seq<Member>)
    ensures MembersBounded(CanonMembers(members, CodePointOrder)) <==> MembersBounded(members)
    ensures MembersDepth(CanonMembers(members, CodePointOrder)) == MembersDepth(members)
    decreases members, 0
  {
    if members != [] {
      CanonKeepsBounds(members[0].value);
      CanonMembersKeepBounds(members[1..]);
    }
  }

  // ----- the writer's validator sees only content

  /** The content of `b` is the content of `a` in canonical form. */
  ghost predicate SameContent(a: seq<Member>, b: seq<Member>) {
    forall k :: Lookup(b, k) == CanonOption(Lookup(a, k))
  }

  lemma FieldsOfContent(a: seq<Member>, b: seq<Member>, k: string)
    requires SameContent(a, b)
    ensures StringField(a, k) == StringField(b, k) && IntegerField(a, k) == IntegerField(b, k)
    ensures UnitNumber(Lookup(a, k)) == UnitNumber(Lookup(b, k)) && HasKey(a, k) == HasKey(b, k)
    ensures Lookup(a, k).Some? ==> IntsBounded(Lookup(a, k).value) == IntsBounded(Lookup(b, k).value)
  {
    assert Lookup(b, k) == CanonOption(Lookup(a, k));
    if Lookup(a, k).Some? {
      CanonKeepsBounds(Lookup(a, k).value);
    }
  }

  lemma KeySetOfContent(a: seq<Member>, b: seq<Member>)
    requires SameContent(a, b)
    ensures KeySet(a) == KeySet(b)
  {
    forall k
      ensures k in KeySet(a) <==> k in KeySet(b)
    {
      KeySetIs(a, k);
      KeySetIs(b, k);
      FieldsOfContent(a, b, k);
    }
  }

  lemma KindOfContent(a: seq<Member>, b: seq<Member>)
    requires SameContent(a, b)
    ensures EventKind(a) == EventKind(b)
  {
    FieldsOfContent(a, b, "format_version");
    FieldsOfContent(a, b, "event_type");
    assert Lookup(b, "format_version") == CanonOption(Lookup(a, "format_version"));
    assert Lookup(a, "format_version") == Some(Int(2)) <==> Lookup(b, "format_version") == Some(Int(2));
  }

  lemma CommonOfContent(a: seq<Member>, b: seq<Member>)
    requires SameContent(a, b)
    ensures CommonContent(a) == CommonContent(b) && CollectorContent(a) == CollectorContent(b)
  {
    FieldsOfContent(a, b, "node_id");
    FieldsOfContent(a, b, "ts_utc");
    FieldsOfContent(a, b, "raw_csi_hash");
    FieldsOfContent(a, b, "collector_schema_version");
    FieldsOfContent(a, b, "collector_sequence_number");
  }

  lemma DecisionOfContent(a: seq<Member>, b: seq<Member>)
    requires SameContent(a, b)
    ensures DecisionContent(a) == DecisionContent(b)
  {
    FieldsOfContent(a, b, "model_id");
    FieldsOfContent(a, b, "class");
    FieldsOfContent(a, b, "features_hash");
    FieldsOfContent(a, b, "model_config_hash");
    FieldsOfContent(a, b, "confidence");
    FieldsOfContent(a, b, "top_shap");
  }

  lemma EventContentOfContent(a: seq<Member>, b: seq<Member>, kind: Kind)
    requires SameContent(a, b)
    ensures EventContent(a, kind) == EventContent(b, kind)
  {
    CommonOfContent(a, b);
    DecisionOfContent(a, b);
  }

  lemma SchemaOfContent(a: seq<Member>, b: seq<Member>)
    requires SameContent(a, b)
    ensures EventSchema(a) == EventSchema(b)
  {
    KindOfContent(a, b);
    KeySetOfContent(a, b);
    if EventKind(a).Some? {
      EventContentOfContent(a, b, EventKind(a).value);
    }
  }

  // ----- the sealed record

  lemma EventHasNoManagedKey(event: seq<Member>, key: string)
    requires EventSchema(event).Some? && key in MANAGED_FIELDS
    ensures !HasKey(event, key)
  {
    FieldNamesDiffer();
    KeySetIs(event, key);
  }

  lemma PairKeys(x: Member, y: Member, key: string)
    requires x.key != y.key
    ensures HasKey([x, y], key) <==> key == x.key || key == y.key
    ensures DistinctKeys([x, y])
  {
    assert [x, y][1..] == [y] && [y][1..] == [];
    assert HasKey([y], key) <==> key == y.key;
    assert !HasKey([y], x.key) && DistinctKeys([y]);
  }

  lemma AddPair(a: seq<Member>, x: Member, y: Member, key: string)
    requires x.key != y.key && !HasKey(a, x.key) && !HasKey(a, y.key)
    ensures Lookup(a + [x, y], key) ==
            if key == x.key then Some(x.value) else if key == y.key then Some(y.value) else Lookup(a, key)
    ensures DistinctKeys(a) ==> DistinctKeys(a + [x, y])
  {
    assert [x, y][1..] == [y];
    AppendLookup(a, [x, y], key);
    PairKeys(x, y, x.key);
    if DistinctKeys(a) {
      forall k | HasKey([x, y], k)
        ensures !HasKey(a, k)
      {
        PairKeys(x, y, k);
      }
      AppendDistinct(a, [x, y]);
    }
  }

  lemma ManagedNamesDiffer()
    ensures "seq" != "prev_hash" && "seq" != "record_hash" && "seq" != "signature"
    ensures "prev_hash" != "record_hash" && "prev_hash" != "signature" && "record_hash" != "signature"
  {
    assert |"seq"| == 3 && |"prev_hash"| == 9 && |"record_hash"| == 11 && |"signature"| == 9;
    assert "prev_hash"[0] == 'p' && "signature"[0] == 's';
  }

  lemma CandidateLookup(event: seq<Member>, number: nat, prev: string, key: string)
    requires EventSchema(event).Some?
    ensures Lookup(Candidate(event, number, prev), key) ==
            if key == "seq" then Some(Int(number))
            else if key == "prev_hash" then Some(Str(prev))
            else Lookup(event, key)
    ensures DistinctKeys(event) ==> DistinctKeys(Candidate(event, number, prev))
  {
    EventHasNoManagedKey(event, "seq");
    EventHasNoManagedKey(event, "prev_hash");
    ManagedNamesDiffer();
    AddPair(event, Member("seq", Int(number)), Member("prev_hash", Str(prev)), key);
  }

  lemma SealedLookup(pf: Platform, event: seq<Member>, number: nat, prev: string, signature: Bytes, key: string)
    requires EventSchema(event).Some?
    ensures Lookup(SealedRecord(pf, event, number, prev, signature), key) ==
            if key == "record_hash" then Some(Str(RecordHash(pf, Candidate(event, number, prev), CodePointOrder)))
            else if key == "signature" then Some(Str(Hex.Encode(signature)))
            else Lookup(Candidate(event, number, prev), key)
    ensures DistinctKeys(event) ==> DistinctKeys(SealedRecord(pf, event, number, prev, signature))
  {
    var candidate := Candidate(event, number, prev);
    EventHasNoManagedKey(event, "record_hash");
    EventHasNoManagedKey(event, "signature");
    ManagedNamesDiffer();
    CandidateLookup(event, number, prev, "record_hash");
    CandidateLookup(event, number, prev, "signature");
    AddPair(candidate, Member("record_hash", Str(RecordHash(pf, candidate, CodePointOrder))),
            Member("signature", Str(Hex.Encode(signature))), key);
  }

  lemma {:induction false} AppendDepth(a: seq<Member>, b: seq<Member>)
    ensures MembersDepth(a + b) == Max(MembersDepth(a), MembersDepth(b))
  {
    if a == [] {
      assert a + b == b;
    } else {
      assert (a + b)[1..] == a[1..] + b;
      AppendDepth(a[1..], b);
    }
  }

  lemma {:induction false} AppendLegal(a: seq<Member>, b: seq<Member>, budget: nat, read: Reading, bounded: bool)
    ensures LegalMembers(a + b, budget, read, bounded) <==>
            LegalMembers(a, budget, read, bounded) && LegalMembers(b, budget, read, bounded)
  {
    if a == [] {
      assert a + b == b;
    } else {
      assert (a + b)[1..] == a[1..] + b;
      AppendLegal(a[1..], b, budget, read, bounded);
    }
  }

  /** Two plain members add no depth and no illegal number. */
  lemma AddPlainPair(a: seq<Member>, x: Member, y: Member, budget: nat, read: Reading)
    requires (x.value.Int? || x.value.Str?) && (y.value.Int? || y.value.Str?)
    ensures MembersDepth(a + [x, y]) == MembersDepth(a)
    ensures LegalMembers(a + [x, y], budget, read, false) == LegalMembers(a, budget, read, false)
  {
    assert [x, y][1..] == [y] && [y][1..] == [];
    assert MembersDepth([y]) == 0 && LegalMembers([y], budget, read, false);
    AppendDepth(a, [x, y]);
    AppendLegal(a, [x, y], budget, read, false);
  }

  lemma AddedPairIsLegal(pf: Platform, a: seq<Member>, x: Member, y: Member)
    requires IsDictionary(pf, a) && DistinctKeys(a + [x, y])
    requires (x.value.Int? || x.value.Str?) && (y.value.Int? || y.value.Str?)
    ensures IsDictionary(pf, a + [x, y]) && Depth(Obj(a + [x, y])) == Depth(Obj(a))
  {
    AddPlainPair(a, x, y, Depth(Obj(a)) - 1, pf.read);
  }

  lemma SealedIsLegal(pf: Platform, event: seq<Member>, number: nat, prev: string, signature: Bytes)
    requires EventSchema(event).Some? && IsDictionary(pf, event)
    ensures Legal(Obj(SealedRecord(pf, event, number, prev, signature)), Depth(Obj(event)), pf.read, false)
    ensures Depth(Obj(SealedRecord(pf, event, number, prev, signature))) == Depth(Obj(event))
  {
    var candidate := Candidate(event, number, prev);
    CandidateLookup(event, number, prev, "");
    SealedLookup(pf, event, number, prev, signature, "");
    AddedPairIsLegal(pf, event, Member("seq", Int(number)), Member("prev_hash", Str(prev)));
    AddedPairIsLegal(pf, candidate, Member("record_hash", Str(RecordHash(pf, candidate, CodePointOrder))),
                     Member("signature", Str(Hex.Encode(signature))));
  }

  lemma UnsignedIsCanonical(record: seq<Member>)
    requires IsCanonical(Obj(record))
    ensures IsCanonical(Obj(Unsigned(record)))
  {
    WithoutKeepsSorted(record, "record_hash");
    WithoutKeepsCanonical(record, "record_hash");
    WithoutKeepsSorted(Without(record, "record_hash"), "signature");
    WithoutKeepsCanonical(Without(record, "record_hash"), "signature");
  }

  lemma {:induction false} WithoutIsDistinct(members: seq<Member>, key: string)
    requires DistinctKeys(members)
    ensures DistinctKeys(Without(members, key))
  {
    if members != [] {
      WithoutIsDistinct(members[1..], key);
      if members[0].key != key {
        WithoutLookup(members[1..], key, members[0].key);
        assert Without(members, key)[1..] == Without(members[1..], key);
      }
    }
  }

  lemma UnsignedIsDistinct(members: seq<Member>)
    requires DistinctKeys(members)
    ensures DistinctKeys(Unsigned(members))
  {
    WithoutIsDistinct(members, "record_hash");
    WithoutIsDistinct(Without(members, "record_hash"), "signature");
  }

  lemma StoredFormLookup(pf: Platform, event: seq<Member>, number: nat, prev: string, signature: Bytes, key: string)
    requires EventSchema(event).Some? && DistinctKeys(event)
    ensures Lookup(StoredForm(SealedRecord(pf, event, number, prev, signature)), key) ==
            if key == "record_hash" then Some(Str(RecordHash(pf, Candidate(event, number, prev), CodePointOrder)))
            else if key == "signature" then Some(Str(Hex.Encode(signature)))
            else CanonOption(Lookup(Candidate(event, number, prev), key))
  {
    SealedLookup(pf, event, number, prev, signature, key);
    StoredLookup(SealedRecord(pf, event, number, prev, signature), key);
  }

  lemma StoredFormIsCanonical(pf: Platform, event: seq<Member>, number: nat, prev: string, signature: Bytes)
    requires EventSchema(event).Some? && IsDictionary(pf, event)
    ensures var c := StoredForm(SealedRecord(pf, event, number, prev, signature));
            && IsCanonical(Obj(c)) && Canon(Obj(c), CodePointOrder) == Obj(c)
            && Legal(Obj(c), Depth(Obj(event)), pf.read, false) && Depth(Obj(c)) == Depth(Obj(event))
            && SealedLine(pf, event, number, prev, signature) == Encode(Render(Obj(c)))
  {
    var record := SealedRecord(pf, event, number, prev, signature);
    SealedIsLegal(pf, event, number, prev, signature);
    LegalIsDistinct(Obj(record), Depth(Obj(event)), pf.read, false);
    CanonIsCanonical(Obj(record));
    CanonicalIsFixed(Canon(Obj(record), CodePointOrder));
    CanonKeepsLegal(Obj(record), Depth(Obj(event)), pf.read, false);
    CanonKeepsBounds(Obj(record));
  }

  /** The hash and the signature of the stored record cover the bytes that the writer hashed and signed. */
  lemma StoredHashedBytes(pf: Platform, event: seq<Member>, number: nat, prev: string, signature: Bytes)
    requires EventSchema(event).Some? && IsDictionary(pf, event)
    ensures RecordBytes(StoredForm(SealedRecord(pf, event, number, prev, signature)), CodePointOrder)
            == RecordBytes(Candidate(event, number, prev), CodePointOrder)
  {
    var candidate, c := Candidate(event, number, prev), StoredForm(SealedRecord(pf, event, number, prev, signature));
    StoredFormIsCanonical(pf, event, number, prev, signature);
    CandidateLookup(event, number, prev, "record_hash");
    var d := StoredForm(Unsigned(candidate));
    UnsignedIsDistinct(candidate);
    UnsignedIsCanonical(c);
    CanonMembersDistinct(Unsigned(candidate));
    SortSorts(CanonMembers(Unsigned(candidate), CodePointOrder));
    forall key
      ensures Lookup(Unsigned(c), key) == Lookup(d, key)
    {
      StoredFormLookup(pf, event, number, prev, signature, key);
      UnsignedLookup(c, key);
      UnsignedLookup(candidate, key);
      StoredLookup(Unsigned(candidate), key);
    }
    SortedIsUnique(Unsigned(c), d);
    CanonicalIsFixed(Obj(Unsigned(c)));
  }

  // ----- what a reader of the store makes of the appended line

  lemma StoredContent(pf: Platform, event: seq<Member>, number: nat, prev: string, signature: Bytes)
    requires EventSchema(event).Some? && DistinctKeys(event)
    ensures SameContent(event, EventOf(StoredForm(SealedRecord(pf, event, number, prev, signature))))
  {
    var c := StoredForm(SealedRecord(pf, event, number, prev, signature));
    forall k
      ensures Lookup(EventOf(c), k) == CanonOption(Lookup(event, k))
    {
      EventLookup(c, k);
      if k in MANAGED_FIELDS {
        EventHasNoManagedKey(event, k);
      } else {
        StoredFormLookup(pf, event, number, prev, signature, k);
        CandidateLookup(event, number, prev, k);
      }
    }
  }

  lemma StoredManagedFields(pf: Platform, event: seq<Member>, number: nat, prev: string, signature: Bytes)
    requires EventSchema(event).Some? && DistinctKeys(event)
    ensures var c := StoredForm(SealedRecord(pf, event, number, prev, signature));
            && Lookup(c, "seq") == Some(Int(number)) && Lookup(c, "prev_hash") == Some(Str(prev))
            && Lookup(c, "record_hash") == Some(Str(RecordHash(pf, Candidate(event, number, prev), CodePointOrder)))
            && Lookup(c, "signature") == Some(Str(Hex.Encode(signature)))
            && MANAGED_FIELDS <= KeySet(c)
  {
    var c := StoredForm(SealedRecord(pf, event, number, prev, signature));
    ManagedNamesDiffer();
    StoredFormLookup(pf, event, number, prev, signature, "seq");
    StoredFormLookup(pf, event, number, prev, signature, "prev_hash");
    StoredFormLookup(pf, event, number, prev, signature, "record_hash");
    StoredFormLookup(pf, event, number, prev, signature, "signature");
    CandidateLookup(event, number, prev, "seq");
    CandidateLookup(event, number, prev, "prev_hash");
    KeySetIs(c, "seq");
    KeySetIs(c, "prev_hash");
    KeySetIs(c, "record_hash");
    KeySetIs(c, "signature");
  }

  lemma ManagedContentIs(record: seq<Member>, number: nat, prev: string, digest: Digest, signature: Bytes)
    requires Hex.IsLowerHex(prev, 64) && |signature| == 64
    requires Lookup(record, "seq") == Some(Int(number)) && Lookup(record, "prev_hash") == Some(Str(prev))
    requires Lookup(record, "record_hash") == Some(Str(Hex.Encode(digest)))
    requires Lookup(record, "signature") == Some(Str(Hex.Encode(signature)))
    ensures ManagedContent(record) <==> number < I64_LIMIT
  {
    Hex.EncodeIsLowerHex(signature);
    Hex.EncodeIsLowerHex(digest);
  }

  lemma StoredSchema(pf: Platform, event: seq<Member>, number: nat, prev: string, signature: Bytes)
    requires EventSchema(event).Some? && DistinctKeys(event) && Hex.IsLowerHex(prev, 64) && |signature| == 64
    ensures var c := StoredForm(SealedRecord(pf, event, number, prev, signature));
            LenientSchema(c) == if number < I64_LIMIT then EventSchema(event) else None
  {
    var c := StoredForm(SealedRecord(pf, event, number, prev, signature));
    StoredManagedFields(pf, event, number, prev, signature);
    StoredContent(pf, event, number, prev, signature);
    SchemaOfContent(event, EventOf(c));
    var digest := pf.sha256(RecordBytes(Candidate(event, number, prev), CodePointOrder));
    ManagedContentIs(c, number, prev, digest, signature);
  }

  /** The state that a reader of the store is in after the appended record. */
  function StateAfter(pf: Platform, event: seq<Member>, st: State): State
    requires EventSchema(event).Some?
  {
    State(st.number + 1, RecordHash(pf, Candidate(event, st.number, st.prev), CodePointOrder), EventSchema(event))
  }

  lemma StoredLinks(pf: Platform, event: seq<Member>, st: State, signature: Bytes)
    requires EventSchema(event).Some? && IsDictionary(pf, event) && Hex.IsLowerHex(st.prev, 64) && |signature| == 64
    requires st.version.None? || st.version == EventSchema(event)
    requires st.number < I64_LIMIT
    ensures var c := StoredForm(SealedRecord(pf, event, st.number, st.prev, signature));
            LinksStored(pf, c, st, StateAfter(pf, event, st))
  {
    StoredManagedFields(pf, event, st.number, st.prev, signature);
    StoredSchema(pf, event, st.number, st.prev, signature);
    StoredHashedBytes(pf, event, st.number, st.prev, signature);
  }

  lemma StoredHolds(pf: Platform, event: seq<Member>, st: State, signature: Bytes)
    requires EventSchema(event).Some? && IsDictionary(pf, event)
    ensures var c := StoredForm(SealedRecord(pf, event, st.number, st.prev, signature));
            Depth(Obj(event)) <= pf.nesting ==> HoldsStored(pf, SealedLine(pf, event, st.number, st.prev, signature), c)
  {
    var c := StoredForm(SealedRecord(pf, event, st.number, st.prev, signature));
    StoredFormIsCanonical(pf, event, st.number, st.prev, signature);
    LegalAtDepth(Obj(c), Depth(Obj(event)), pf.nesting, pf.read, false);
  }

  lemma HeldIsStored(pf: Platform, event: seq<Member>, st: State, signature: Bytes, record: seq<Member>)
    requires EventSchema(event).Some? && IsDictionary(pf, event)
    requires HoldsStored(pf, SealedLine(pf, event, st.number, st.prev, signature), record)
    ensures record == StoredForm(SealedRecord(pf, event, st.number, st.prev, signature))
    ensures Depth(Obj(event)) <= pf.nesting
  {
    var c := StoredForm(SealedRecord(pf, event, st.number, st.prev, signature));
    StoredFormIsCanonical(pf, event, st.number, st.prev, signature);
    var budget := Max(pf.nesting, Depth(Obj(event)));
    LegalAtDepth(Obj(record), pf.nesting, budget, pf.read, false);
    LegalAtDepth(Obj(c), Depth(Obj(event)), budget, pf.read, false);
    Utf8.EncodeIsInjective(Render(Obj(c)), Render(Obj(record)));
    RenderIsInjective(Obj(c), Obj(record), budget, pf.read);
  }

  /**
   An appended line is read back, as the next record of the chain, exactly if its number fits
   in 63 bits and the reader's parser enters its nesting.
   */
  lemma AppendIsRead(pf: Platform, event: seq<Member>, st: State, signature: Bytes)
    requires GoodReading(pf.read) && EventSchema(event).Some? && IsDictionary(pf, event)
    requires Hex.IsLowerHex(st.prev, 64) && |signature| == 64
    requires st.version.None? || st.version == EventSchema(event)
    ensures var line := SealedLine(pf, event, st.number, st.prev, signature);
            && (LinkLine(pf, line, st).Ok? <==> st.number < I64_LIMIT && Depth(Obj(event)) <= pf.nesting)
            && (LinkLine(pf, line, st).Ok? ==>
                  && LinkLine(pf, line, st).value == StateAfter(pf, event, st)
                  && LenientRecord(pf, line)
                     == Some(StoredForm(SealedRecord(pf, event, st.number, st.prev, signature))))
  {
    var line := SealedLine(pf, event, st.number, st.prev, signature);
    var c := StoredForm(SealedRecord(pf, event, st.number, st.prev, signature));
    if LinkLine(pf, line, st).Ok? {
      LinkedLineIs(pf, line, st, LinkLine(pf, line, st).value);
      HeldIsStored(pf, event, st, signature, LenientRecord(pf, line).value);
      StoredSchema(pf, event, st.number, st.prev, signature);
    }
    if st.number < I64_LIMIT && Depth(Obj(event)) <= pf.nesting {
      StoredHolds(pf, event, st, signature);
      StoredLinks(pf, event, st, signature);
      LinkingStoredIsAccepted(pf, line, c, st, StateAfter(pf, event, st));
    }
  }

  lemma VerifyingRecordIsSigned(verify: (Bytes, Bytes) -> bool, record: seq<Member>, signature: Bytes)
    requires Lookup(record, "signature") == Some(Str(Hex.Encode(signature))) && |signature| == 64
    requires verify(RecordBytes(record, CodePointOrder), signature)
    ensures SignatureField(record) && SignatureVerifies(verify, record, CodePointOrder)
  {
    Hex.EncodeIsLowerHex(signature);
    Hex.DecodeEncoded(signature);
  }

  /** A signature that verifies over the signed bytes verifies for the stored record, by the same verification. */
  lemma AppendIsSigned(pf: Platform, verify: (Bytes, Bytes) -> bool, event: seq<Member>, st: State, signature: Bytes)
    requires EventSchema(event).Some? && IsDictionary(pf, event) && |signature| == 64
    requires verify(RecordBytes(Candidate(event, st.number, st.prev), CodePointOrder), signature)
    ensures var c := StoredForm(SealedRecord(pf, event, st.number, st.prev, signature));
            SignatureField(c) && SignatureVerifies(verify, c, CodePointOrder)
  {
    StoredManagedFields(pf, event, st.number, st.prev, signature);
    StoredHashedBytes(pf, event, st.number, st.prev, signature);
    VerifyingRecordIsSigned(verify, StoredForm(SealedRecord(pf, event, st.number, st.prev, signature)), signature);
  }
}
