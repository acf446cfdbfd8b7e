/**
 What is hashed and signed, told from the bytes of a line: the compact text of its record without
 the hash and the signature, in key order, and nothing else.
 */
module SealedBytes {
  import opened Prelude
  import opened Utf8
  import opened Json
  import opened Canonical
  import opened StrictJson
  import opened RecordSchema
  import opened ChainVerifier
  import opened ChainTheorems
  import opened TipHistory
  import opened Store
  import opened VerdictsAgree
  import opened Logger
  import opened AppendLog
  import Hex

  predicate InOrder(members: seq<Member>) {
    forall i, j | 0 <= i < j < |members| :: CodePointLess(members[i].key, members[j].key)
  }

  /** The members of a record but for its hash and its signature, in key order. */
  ghost predicate HashForm(record: seq<Member>, u: seq<Member>) {
    && InOrder(u)
    && forall k :: Lookup(u, k) == if k == "record_hash" || k == "signature" then None else Lookup(record, k)
  }

  /** The digest is that of the compact text of `u`, and the record's own signature verifies over that text. */
  ghost predicate IsSealed(pf: Platform, verify: (Bytes, Bytes) -> bool, record: seq<Member>, u: seq<Member>,
                           digest: string)
  {
    && HashForm(record, u)
    && digest == Hex.Encode(pf.sha256(Encode(Render(Obj(u)))))
    && exists signature: Bytes ::
         && |signature| == 64 && Lookup(record, "signature") == Some(Str(Hex.Encode(signature)))
         && verify(Encode(Render(Obj(u))), signature)
  }

  // ----- order

  lemma {:induction false} AboveEach(key: string, members: seq<Member>, i: nat)
    requires AllAbove(key, members) && i < |members|
    ensures CodePointLess(key, members[i].key)
  {
    if i > 0 {
      AboveEach(key, members[1..], i - 1);
    }
  }

  lemma {:induction false} SortedAt(members: seq<Member>, i: nat, j: nat)
    requires Sorted(members) && i < j < |members|
    ensures CodePointLess(members[i].key, members[j].key)
  {
    SortedHead(members);
    if i == 0 {
      AboveEach(members[0].key, members[1..], j - 1);
    } else {
      SortedAt(members[1..], i - 1, j - 1);
    }
  }

  lemma SortedIsInOrder(members: seq<Member>)
    requires Sorted(members)
    ensures InOrder(members)
  {
    forall i, j | 0 <= i < j < |members|
      ensures CodePointLess(members[i].key, members[j].key)
    {
      SortedAt(members, i, j);
    }
  }

  lemma {:induction false} InOrderIsSorted(members: seq<Member>)
    requires InOrder(members)
    ensures Sorted(members)
  {
    if members != [] {
      InOrderIsSorted(members[1..]);
    }
  }

  // ----- one record

  lemma HashFormIs(record: seq<Member>)
    requires IsCanonical(Obj(record))
    ensures HashForm(record, Unsigned(record))
    ensures RecordBytes(record, CodePointOrder) == Encode(Render(Obj(Unsigned(record))))
    ensures RecordBytes(record, ByteOrder) == Encode(Render(Obj(Unsigned(record))))
  {
    UnsignedIsCanonical(record);
    SortedIsInOrder(Unsigned(record));
    CanonicalIsFixed(Obj(Unsigned(record)));
    SameHashedBytes(record);
    forall k
      ensures Lookup(Unsigned(record), k)
              == if k == "record_hash" || k == "signature" then None else Lookup(record, k)
    {
      UnsignedLookup(record, k);
    }
  }

  lemma HashFormIsUnique(record: seq<Member>, u: seq<Member>)
    requires IsCanonical(Obj(record)) && HashForm(record, u)
    ensures u == Unsigned(record)
  {
    HashFormIs(record);
    InOrderIsSorted(u);
    InOrderIsSorted(Unsigned(record));
    forall k
      ensures Lookup(u, k) == Lookup(Unsigned(record), k)
    {
    }
    SortedIsUnique(u, Unsigned(record));
  }

  lemma SignedRecordIsSealed(pf: Platform, verify: (Bytes, Bytes) -> bool, record: seq<Member>, order: KeyOrder)
    requires IsCanonical(Obj(record)) && SignatureField(record) && SignatureVerifies(verify, record, order)
    ensures IsSealed(pf, verify, record, Unsigned(record), RecordHash(pf, record, order))
  {
    HashFormIs(record);
    var text := StringField(record, "signature").value;
    Hex.EncodeDecoded(text, 64);
    assert Lookup(record, "signature") == Some(Str(Hex.Encode(Hex.Decode(text, 64))));
  }

  lemma SealedRecordIsSigned(pf: Platform, verify: (Bytes, Bytes) -> bool, record: seq<Member>, u: seq<Member>,
                             digest: string, order: KeyOrder)
    requires IsCanonical(Obj(record)) && IsSealed(pf, verify, record, u, digest)
    ensures RecordHash(pf, record, order) == digest
    ensures SignatureField(record) && SignatureVerifies(verify, record, order)
  {
    HashFormIs(record);
    HashFormIsUnique(record, u);
    var signature: Bytes :| |signature| == 64 && Lookup(record, "signature") == Some(Str(Hex.Encode(signature)))
      && verify(Encode(Render(Obj(u))), signature);
    VerifyingRecordIsSigned(verify, record, signature);
  }

  // ----- one line

  /** The fields that link a record to the state before it, and to the one after it. */
  ghost predicate HasLinks(record: seq<Member>, st: State, next: State) {
    && Lookup(record, "seq") == Some(Int(st.number)) && next.number == st.number + 1
    && Lookup(record, "prev_hash") == Some(Str(st.prev)) && Lookup(record, "record_hash") == Some(Str(next.prev))
  }

  lemma FieldsAreLinks(record: seq<Member>, st: State, next: State)
    requires IntegerField(record, "seq") == Some(st.number) && next.number == st.number + 1
    requires StringField(record, "prev_hash") == Some(st.prev) && StringField(record, "record_hash") == Some(next.prev)
    ensures HasLinks(record, st, next)
  {
  }

  /** An accepted line is the text of a record that links up and is sealed. */
  lemma AcceptedLineIsSealed(pf: Platform, line: Bytes, st: State, next: State)
      returns (record: seq<Member>, u: seq<Member>)
    requires Normalizing(pf.strictRead) && CheckLine(pf, line, st) == Ok(next)
    ensures StrictRecord(pf, line) == Some(record) && line == Encode(Render(Obj(record)))
    ensures HasLinks(record, st, next) && IsSealed(pf, pf.strictVerify, record, u, next.prev)
  {
    record := AcceptedLine(pf, line, st, next);
    u := Unsigned(record);
    HeldRecordIsCanonical(pf, line, record);
    FieldsAreLinks(record, st, next);
    SignedRecordIsSealed(pf, pf.strictVerify, record, ByteOrder);
  }

  /** Conversely, the canonical text of a valid record that links up and is sealed is accepted. */
  lemma SealedLineIsAccepted(pf: Platform, line: Bytes, record: seq<Member>, u: seq<Member>, st: State, next: State)
    requires HoldsRecord(pf, line, record) && StrictSchema(record).Some? && next.version == StrictSchema(record)
    requires st.version.None? || st.version == next.version
    requires HasLinks(record, st, next) && IsSealed(pf, pf.strictVerify, record, u, next.prev)
    ensures CheckLine(pf, line, st) == Ok(next)
  {
    HeldRecordIsCanonical(pf, line, record);
    SealedRecordIsSigned(pf, pf.strictVerify, record, u, next.prev, ByteOrder);
    LinkingLineIsAccepted(pf, line, record, st, next);
  }

  lemma StoredIsCanonical(pf: Platform, line: Bytes, record: seq<Member>)
    requires HoldsStored(pf, line, record)
    ensures IsCanonical(Obj(record))
  {
    LegalIsDistinct(Obj(record), pf.nesting, pf.read, false);
    CanonIsCanonical(Obj(record));
  }

  /** The same for the writer's verifier, with its own verification of signatures. */
  lemma StoredLineIsSealed(pf: Platform, line: Bytes, st: State, next: State)
      returns (record: seq<Member>, u: seq<Member>)
    requires GoodReading(pf.read) && CheckStored(pf, Verification, line, st) == Ok(next)
    ensures LenientRecord(pf, line) == Some(record) && line == Encode(Render(Obj(record)))
    ensures HasLinks(record, st, next) && IsSealed(pf, pf.verify, record, u, next.prev)
  {
    record := StoredLine(pf, line, st, next);
    u := Unsigned(record);
    StoredIsCanonical(pf, line, record);
    FieldsAreLinks(record, st, next);
    SignedRecordIsSealed(pf, pf.verify, record, CodePointOrder);
  }

  lemma SealedLineIsStored(pf: Platform, line: Bytes, record: seq<Member>, u: seq<Member>, st: State, next: State)
    requires HoldsStored(pf, line, record) && LenientSchema(record).Some? && next.version == LenientSchema(record)
    requires st.version.None? || st.version == next.version
    requires HasLinks(record, st, next) && IsSealed(pf, pf.verify, record, u, next.prev)
    ensures CheckStored(pf, Verification, line, st) == Ok(next)
  {
    StoredIsCanonical(pf, line, record);
    SealedRecordIsSigned(pf, pf.verify, record, u, next.prev, CodePointOrder);
    LinkingStoredIsAccepted(pf, line, record, st, next);
    SignedLineIs(pf, line, st, next, record);
  }

  // ----- which check fails

  /** The record's own signature verifies over the text of `u`. */
  ghost predicate IsSignedOver(verify: (Bytes, Bytes) -> bool, record: seq<Member>, u: seq<Member>) {
    exists signature: Bytes ::
      && |signature| == 64 && Lookup(record, "signature") == Some(Str(Hex.Encode(signature)))
      && verify(Encode(Render(Obj(u))), signature)
  }

  lemma SignedOverIs(verify: (Bytes, Bytes) -> bool, record: seq<Member>, order: KeyOrder)
    requires IsCanonical(Obj(record)) && SignatureField(record)
    ensures IsSignedOver(verify, record, Unsigned(record)) <==> SignatureVerifies(verify, record, order)
  {
    HashFormIs(record);
    var text := StringField(record, "signature").value;
    Hex.EncodeDecoded(text, 64);
    if IsSignedOver(verify, record, Unsigned(record)) {
      var signature: Bytes :| |signature| == 64 && Lookup(record, "signature") == Some(Str(Hex.Encode(signature)))
                              && verify(Encode(Render(Obj(Unsigned(record)))), signature);
      Hex.DecodeEncoded(signature);
    }
  }

  lemma LinkFault(pf: Platform, line: Bytes, record: seq<Member>, st: State, version: nat)
    requires HoldsRecord(pf, line, record) && StrictSchema(record) == Some(version)
    requires st.version.None? || st.version == Some(version)
    ensures CheckLine(pf, line, st) == CheckLinks(pf, record, version, st)
  {
    HeldRecordParses(pf, line, record);
    LineCheckIs(pf, line, Render(Obj(record)), Obj(record), st);
  }

  /** The links of a record are as they should be, up to its hash. */
  ghost predicate LinksUp(record: seq<Member>, st: State, n: nat) {
    n == st.number && Lookup(record, "prev_hash") == Some(Str(st.prev))
  }

  function TextDigest(pf: Platform, u: seq<Member>): string {
    Hex.Encode(pf.sha256(Encode(Render(Obj(u)))))
  }

  lemma RecordFault(pf: Platform, record: seq<Member>, u: seq<Member>, st: State, version: nat, n: nat)
    requires IsCanonical(Obj(record)) && StrictSchema(record) == Some(version) && u == Unsigned(record)
    requires Lookup(record, "seq") == Some(Int(n))
    ensures var r, hash := CheckLinks(pf, record, version, st), Lookup(record, "record_hash");
            && (r == Err(SequenceGap) <==> n > st.number)
            && (r == Err(SequenceRepeated) <==> n < st.number)
            && (r == Err(BrokenLink) <==> n == st.number && !LinksUp(record, st, n))
            && (r == Err(HashMismatch) <==> LinksUp(record, st, n) && hash != Some(Str(TextDigest(pf, u))))
            && (r == Err(InvalidSignature) <==>
                  && LinksUp(record, st, n) && hash == Some(Str(TextDigest(pf, u)))
                  && !IsSignedOver(pf.strictVerify, record, u))
  {
    HashFormIs(record);
    SignedOverIs(pf.strictVerify, record, ByteOrder);
  }

  /**
   Why the strict verifier refuses the canonical text of a valid record: the first link that is not as it
   should be.
   */
  lemma StrictFault(pf: Platform, line: Bytes, record: seq<Member>, u: seq<Member>, st: State, version: nat, n: nat)
    requires HoldsRecord(pf, line, record) && StrictSchema(record) == Some(version) && HashForm(record, u)
    requires st.version.None? || st.version == Some(version)
    requires Lookup(record, "seq") == Some(Int(n))
    ensures var r, hash := CheckLine(pf, line, st), Lookup(record, "record_hash");
            && (r == Err(SequenceGap) <==> n > st.number)
            && (r == Err(SequenceRepeated) <==> n < st.number)
            && (r == Err(BrokenLink) <==> n == st.number && !LinksUp(record, st, n))
            && (r == Err(HashMismatch) <==> LinksUp(record, st, n) && hash != Some(Str(TextDigest(pf, u))))
            && (r == Err(InvalidSignature) <==>
                  && LinksUp(record, st, n) && hash == Some(Str(TextDigest(pf, u)))
                  && !IsSignedOver(pf.strictVerify, record, u))
  {
    HeldRecordIsCanonical(pf, line, record);
    LinkFault(pf, line, record, st, version);
    HashFormIsUnique(record, u);
    RecordFault(pf, record, u, st, version, n);
  }

  // ----- whole streams

  /** What stands before record i: 64 zeros, or the hash that the record before it states. */
  ghost predicate IsBefore(pf: Platform, lines: seq<Bytes>, i: nat, previous: string)
    requires i < |lines|
  {
    if i == 0 then |previous| == 64 && forall k | 0 <= k < 64 :: previous[k] == '0'
    else
      && StrictRecord(pf, lines[i - 1]).Some?
      && Lookup(StrictRecord(pf, lines[i - 1]).value, "record_hash") == Some(Str(previous))
  }

  lemma StateBefore(pf: Platform, lines: seq<Bytes>, i: nat, st: State)
    requires Normalizing(pf.strictRead) && i < |lines| && Run(pf, lines[..i]) == Ok(st)
    ensures st.number == i && IsBefore(pf, lines, i, st.prev)
  {
    if i == 0 {
      assert lines[..0] == [];
      RepeatIs('0', 64);
    } else {
      var before := LastStep(pf, lines[..i]);
      var record, _ := AcceptedLineIsSealed(pf, lines[i - 1], before, st);
    }
  }

  /**
   In an accepted stream record i has number i, names the hash before it, states the hash of its
   own text, and is signed over that text.
   */
  lemma AcceptedStream(pf: Platform, stream: Bytes, i: nat)
      returns (record: seq<Member>, u: seq<Member>, previous: string, digest: string)
    requires Normalizing(pf.strictRead) && VerifyStream(pf, stream).Ok? && i < |AllLines(stream)|
    ensures StrictRecord(pf, AllLines(stream)[i]) == Some(record)
    ensures AllLines(stream)[i] == Encode(Render(Obj(record)))
    ensures Lookup(record, "seq") == Some(Int(i))
    ensures Lookup(record, "prev_hash") == Some(Str(previous)) && IsBefore(pf, AllLines(stream), i, previous)
    ensures Lookup(record, "record_hash") == Some(Str(digest)) && IsSealed(pf, pf.strictVerify, record, u, digest)
  {
    var lines := AllLines(stream);
    VerifiedLines(pf, stream);
    RunPrefix(pf, lines, i + 1);
    var st := LastStep(pf, lines[..i + 1]);
    var next := Run(pf, lines[..i + 1]).value;
    assert lines[..i + 1][..i] == lines[..i];
    StateBefore(pf, lines, i, st);
    record, u := AcceptedLineIsSealed(pf, lines[i], st, next);
    previous, digest := st.prev, next.prev;
  }

  /** What the writer's verifier finds before record i. */
  ghost predicate IsStoredBefore(pf: Platform, lines: seq<Bytes>, i: nat, previous: string)
    requires i < |lines|
  {
    if i == 0 then |previous| == 64 && forall k | 0 <= k < 64 :: previous[k] == '0'
    else
      && LenientRecord(pf, lines[i - 1]).Some?
      && Lookup(LenientRecord(pf, lines[i - 1]).value, "record_hash") == Some(Str(previous))
  }

  lemma StoredPrefix(pf: Platform, lines: seq<Bytes>, k: nat)
    requires Replay(pf, Verification, lines).Ok? && k <= |lines|
    ensures Replay(pf, Verification, lines[..k]).Ok?
  {
    if Replay(pf, Verification, lines[..k]).Err? {
      ReplayKeepsError(pf, Verification, lines, k);
    }
  }

  lemma LastStored(pf: Platform, lines: seq<Bytes>, k: nat) returns (st: State, next: State)
    requires Replay(pf, Verification, lines).Ok? && 0 < k <= |lines|
    ensures Replay(pf, Verification, lines[..k - 1]) == Ok(st) && st.number == k - 1
    ensures Replay(pf, Verification, lines[..k]) == Ok(next)
    ensures CheckStored(pf, Verification, lines[k - 1], st) == Ok(next)
  {
    StoredPrefix(pf, lines, k);
    StoredPrefix(pf, lines, k - 1);
    var first := lines[..k];
    assert first[..|first| - 1] == lines[..k - 1];
    st, next := Replay(pf, Verification, lines[..k - 1]).value, Replay(pf, Verification, first).value;
    ReplayStep(pf, Verification, first, st);
  }

  lemma StoredStateBefore(pf: Platform, lines: seq<Bytes>, i: nat, st: State)
    requires GoodReading(pf.read) && Replay(pf, Verification, lines).Ok? && i < |lines|
    requires Replay(pf, Verification, lines[..i]) == Ok(st)
    ensures IsStoredBefore(pf, lines, i, st.prev)
  {
    if i == 0 {
      assert lines[..0] == [];
      RepeatIs('0', 64);
    } else {
      var before, next := LastStored(pf, lines, i);
      var record, _ := StoredLineIsSealed(pf, lines[i - 1], before, next);
    }
  }

  /** The same for a store that the writer's verifier accepts. */
  lemma StoredStream(pf: Platform, stream: Bytes, i: nat)
      returns (record: seq<Member>, u: seq<Member>, previous: string, digest: string)
    requires GoodReading(pf.read) && ReadStore(pf, Verification, stream).Ok? && i < |AllLines(stream)|
    ensures LenientRecord(pf, AllLines(stream)[i]) == Some(record)
    ensures AllLines(stream)[i] == Encode(Render(Obj(record)))
    ensures Lookup(record, "seq") == Some(Int(i))
    ensures Lookup(record, "prev_hash") == Some(Str(previous)) && IsStoredBefore(pf, AllLines(stream), i, previous)
    ensures Lookup(record, "record_hash") == Some(Str(digest)) && IsSealed(pf, pf.verify, record, u, digest)
  {
    var lines := AllLines(stream);
    var st, next := LastStored(pf, lines, i + 1);
    StoredStateBefore(pf, lines, i, st);
    record, u := StoredLineIsSealed(pf, lines[i], st, next);
    previous, digest := st.prev, next.prev;
  }

  // ----- the writer

  lemma SignedField(c: Setting, event: seq<Member>, number: nat, prev: string, k: string)
    requires EventSchema(event).Some? && IsDictionary(c.pf, event)
    ensures Lookup(Unsigned(StoredForm(SealedRecord(c.pf, event, number, prev, []))), k) ==
            if k == "seq" then Some(Int(number))
            else if k == "prev_hash" then Some(Str(prev))
            else CanonOption(Lookup(event, k))
  {
    ManagedNamesDiffer();
    UnsignedLookup(StoredForm(SealedRecord(c.pf, event, number, prev, [])), k);
    StoredFormLookup(c.pf, event, number, prev, [], k);
    CandidateLookup(event, number, prev, k);
    if k == "record_hash" || k == "signature" {
      EventHasNoManagedKey(event, k);
    }
  }

  /** What the signer is given: the text of the event with its number and the hash before it, in key order. */
  lemma SignedText(c: Setting, event: seq<Member>, number: nat, prev: string) returns (u: seq<Member>)
    requires EventSchema(event).Some? && IsDictionary(c.pf, event)
    ensures InOrder(u) && SignedBytes(c, event, number, prev) == Encode(Render(Obj(u)))
    ensures forall k :: Lookup(u, k) ==
              if k == "seq" then Some(Int(number))
              else if k == "prev_hash" then Some(Str(prev))
              else CanonOption(Lookup(event, k))
  {
    var stored := StoredForm(SealedRecord(c.pf, event, number, prev, []));
    u := Unsigned(stored);
    StoredFormIsCanonical(c.pf, event, number, prev, []);
    StoredHashedBytes(c.pf, event, number, prev, []);
    HashFormIs(stored);
    forall k
      ensures Lookup(u, k) ==
              if k == "seq" then Some(Int(number))
              else if k == "prev_hash" then Some(Str(prev))
              else CanonOption(Lookup(event, k))
    {
      SignedField(c, event, number, prev, k);
    }
  }

  /** The record that is appended: the event, its number, the hash before it, the digest and signature of that text. */
  lemma AppendedRecord(c: Setting, d: Draft, key: string) returns (u: seq<Member>)
    requires EventSchema(d.event).Some? && IsDictionary(c.pf, d.event)
    ensures InOrder(u) && SignedBytes(c, d.event, d.number, d.prev) == Encode(Render(Obj(u)))
    ensures Lookup(RecordOf(c, d), key) ==
            if key == "seq" then Some(Int(d.number))
            else if key == "prev_hash" then Some(Str(d.prev))
            else if key == "record_hash" then Some(Str(Hex.Encode(c.pf.sha256(Encode(Render(Obj(u)))))))
            else if key == "signature" then Some(Str(Hex.Encode(d.signature)))
            else Lookup(d.event, key)
  {
    u := SignedText(c, d.event, d.number, d.prev);
    ManagedNamesDiffer();
    SealedLookup(c.pf, d.event, d.number, d.prev, d.signature, key);
    CandidateLookup(d.event, d.number, d.prev, key);
  }
}
