/**
 The tip of a chain determines its history: two accepted chains with the same tip hash hold
 the same records, up to signatures, unless two of their records collide under SHA-256.
 */
module TipHistory {
  import opened Prelude
  import Utf8
  import opened Json
  import opened Canonical
  import opened StrictJson
  import opened DuplicateKeys
  import opened RecordSchema
  import opened ChainVerifier
  import opened ChainTheorems
  import Hex

  // ----- removing keys from a canonical record

  lemma {:induction false} WithoutAbove(bound: string, members: seq<Member>, key: string)
    requires AllAbove(bound, members)
    ensures AllAbove(bound, Without(members, key))
  {
    if members != [] {
      WithoutAbove(bound, members[1..], key);
      if members[0].key != key {
        assert Without(members, key)[1..] == Without(members[1..], key);
      }
    }
  }

  lemma {:induction false} WithoutKeepsSorted(members: seq<Member>, key: string)
    requires Sorted(members)
    ensures Sorted(Without(members, key))
  {
    if members != [] {
      SortedHead(members);
      WithoutKeepsSorted(members[1..], key);
      if members[0].key != key {
        var r := Without(members, key);
        assert r[1..] == Without(members[1..], key);
        WithoutAbove(members[0].key, members[1..], key);
      }
    }
  }

  lemma {:induction false} WithoutKeepsCanonical(members: seq<Member>, key: string)
    requires CanonicalMembers(members)
    ensures CanonicalMembers(Without(members, key))
  {
    if members != [] {
      WithoutKeepsCanonical(members[1..], key);
      if members[0].key != key {
        assert Without(members, key)[1..] == Without(members[1..], key);
      }
    }
  }

  /** A record in canonical form: sorted, legal, and the same after serialization. */
  ghost predicate CanonicalRecord(record: seq<Member>) {
    IsCanonical(Obj(record)) && Legal(Obj(record), STRICT_NESTING, ExactReading, false)
  }

  lemma WithoutKeepsRecord(record: seq<Member>, key: string)
    requires CanonicalRecord(record)
    ensures CanonicalRecord(Without(record, key))
  {
    WithoutKeepsSorted(record, key);
    WithoutKeepsCanonical(record, key);
    WithoutLegal(record, key, key, STRICT_NESTING - 1, ExactReading, false);
  }

  lemma HeldRecordIsCanonical(pf: Platform, line: Bytes, record: seq<Member>)
    requires HoldsRecord(pf, line, record)
    ensures CanonicalRecord(record)
  {
    LegalIsFixed(Obj(record), STRICT_NESTING, pf.strictRead, true);
    LegalIsDistinct(Obj(record), STRICT_NESTING, ExactReading, true);
    CanonIsCanonical(Obj(record));
    LegalWithinBounds(Obj(record), STRICT_NESTING, ExactReading);
  }

  // ----- the hashed bytes determine the record, up to its signature

  lemma UnsignedBytesDetermine(a: seq<Member>, b: seq<Member>)
    requires CanonicalRecord(a) && CanonicalRecord(b)
    requires RecordBytes(a, ByteOrder) == RecordBytes(b, ByteOrder)
    ensures Unsigned(a) == Unsigned(b)
  {
    WithoutKeepsRecord(a, "record_hash");
    WithoutKeepsRecord(Without(a, "record_hash"), "signature");
    WithoutKeepsRecord(b, "record_hash");
    WithoutKeepsRecord(Without(b, "record_hash"), "signature");
    Utf8.EncodeIsInjective(Serialize(Obj(Unsigned(a)), ByteOrder), Serialize(Obj(Unsigned(b)), ByteOrder));
    CanonAgrees(Obj(Unsigned(a)));
    CanonAgrees(Obj(Unsigned(b)));
    CanonicalIsFixed(Obj(Unsigned(a)));
    CanonicalIsFixed(Obj(Unsigned(b)));
    RenderIsInjective(Obj(Unsigned(a)), Obj(Unsigned(b)), STRICT_NESTING, ExactReading);
  }

  lemma UnsignedLookup(record: seq<Member>, key: string)
    ensures Lookup(Unsigned(record), key) ==
            if key == "record_hash" || key == "signature" then None else Lookup(record, key)
  {
    WithoutLookup(record, "record_hash", key);
    WithoutLookup(Without(record, "record_hash"), "signature", key);
  }

  lemma SameUpToSignature(a: seq<Member>, b: seq<Member>)
    requires CanonicalRecord(a) && CanonicalRecord(b)
    requires Unsigned(a) == Unsigned(b) && Lookup(a, "record_hash") == Lookup(b, "record_hash")
    ensures Without(a, "signature") == Without(b, "signature")
  {
    WithoutKeepsRecord(a, "signature");
    WithoutKeepsRecord(b, "signature");
    forall key
      ensures Lookup(Without(a, "signature"), key) == Lookup(Without(b, "signature"), key)
    {
      WithoutLookup(a, "signature", key);
      WithoutLookup(b, "signature", key);
      UnsignedLookup(a, key);
      UnsignedLookup(b, key);
    }
    SortedIsUnique(Without(a, "signature"), Without(b, "signature"));
  }

  lemma UnsignedFields(a: seq<Member>, b: seq<Member>)
    requires Unsigned(a) == Unsigned(b)
    ensures Lookup(a, "seq") == Lookup(b, "seq") && Lookup(a, "prev_hash") == Lookup(b, "prev_hash")
  {
    assert |"seq"| == 3 && |"prev_hash"| == 9 && |"record_hash"| == 11;
    assert "prev_hash"[0] == 'p' && "signature"[0] == 's';
    UnsignedLookup(a, "seq");
    UnsignedLookup(b, "seq");
    UnsignedLookup(a, "prev_hash");
    UnsignedLookup(b, "prev_hash");
  }

  // ----- histories

  /** The bytes that a line's hash covers. */
  function HashedBytes(pf: Platform, line: Bytes): Bytes {
    match StrictRecord(pf, line)
    case None => []
    case Some(record) => RecordBytes(record, ByteOrder)
  }

  ghost predicate LinesCollide(pf: Platform, x: Bytes, y: Bytes) {
    HashedBytes(pf, x) != HashedBytes(pf, y) && pf.sha256(HashedBytes(pf, x)) == pf.sha256(HashedBytes(pf, y))
  }

  /** A line of one chain and a line of the other hash different bytes to the same digest. */
  ghost predicate Collide(pf: Platform, a: seq<Bytes>, b: seq<Bytes>) {
    exists i, j | 0 <= i < |a| && 0 <= j < |b| :: LinesCollide(pf, a[i], b[j])
  }

  /** Two lines hold records that are equal in every field but the signature. */
  ghost predicate SameRecord(pf: Platform, x: Bytes, y: Bytes) {
    && StrictRecord(pf, x).Some? && StrictRecord(pf, y).Some?
    && Without(StrictRecord(pf, x).value, "signature") == Without(StrictRecord(pf, y).value, "signature")
  }

  ghost predicate SameHistory(pf: Platform, a: seq<Bytes>, b: seq<Bytes>) {
    |a| == |b| && forall i | 0 <= i < |a| :: SameRecord(pf, a[i], b[i])
  }

  /** Two records that link states with the same new hash, and hash no different bytes. */
  lemma LinkedRecordsAgree(pf: Platform, a: seq<Member>, b: seq<Member>, s: State, t: State, s': State, t': State)
    requires CanonicalRecord(a) && CanonicalRecord(b)
    requires Links(pf, a, s, s') && Links(pf, b, t, t') && s'.prev == t'.prev
    requires RecordBytes(a, ByteOrder) == RecordBytes(b, ByteOrder) ||
             pf.sha256(RecordBytes(a, ByteOrder)) != pf.sha256(RecordBytes(b, ByteOrder))
    ensures Without(a, "signature") == Without(b, "signature") && s.number == t.number && s.prev == t.prev
  {
    Hex.EncodeIsInjective(pf.sha256(RecordBytes(a, ByteOrder)), pf.sha256(RecordBytes(b, ByteOrder)));
    UnsignedBytesDetermine(a, b);
    UnsignedFields(a, b);
    SameUpToSignature(a, b);
  }

  lemma LastRecord(pf: Platform, lines: seq<Bytes>) returns (record: seq<Member>, st: State, next: State)
    requires Normalizing(pf.strictRead) && lines != [] && Run(pf, lines).Ok?
    ensures Run(pf, lines[..|lines| - 1]) == Ok(st) && st.number == |lines| - 1
    ensures Run(pf, lines) == Ok(next)
    ensures CanonicalRecord(record) && Links(pf, record, st, next)
    ensures StrictRecord(pf, lines[|lines| - 1]) == Some(record)
  {
    st := LastStep(pf, lines);
    next := Run(pf, lines).value;
    record := AcceptedLine(pf, lines[|lines| - 1], st, next);
    HeldRecordIsCanonical(pf, lines[|lines| - 1], record);
  }

  /** Two lines that do not collide, and whose records link to the same hash, hold the same record. */
  lemma LinkedLinesAgree(pf: Platform, x: Bytes, y: Bytes, a: seq<Member>, b: seq<Member>,
                         s: State, t: State, s': State, t': State)
    requires StrictRecord(pf, x) == Some(a) && StrictRecord(pf, y) == Some(b) && !LinesCollide(pf, x, y)
    requires CanonicalRecord(a) && CanonicalRecord(b)
    requires Links(pf, a, s, s') && Links(pf, b, t, t') && s'.prev == t'.prev
    ensures SameRecord(pf, x, y) && s.number == t.number && s.prev == t.prev
  {
    LinkedRecordsAgree(pf, a, b, s, t, s', t');
  }

  /** What the last lines of two chains with the same tip say about the lines before them. */
  lemma LastRecordsAgree(pf: Platform, a: seq<Bytes>, b: seq<Bytes>) returns (s: State, t: State)
    requires Normalizing(pf.strictRead)
    requires Run(pf, a).Ok? && Run(pf, b).Ok? && a != [] && b != []
    requires Run(pf, a).value.prev == Run(pf, b).value.prev
    requires !LinesCollide(pf, a[|a| - 1], b[|b| - 1])
    ensures |a| == |b| && SameRecord(pf, a[|a| - 1], b[|b| - 1])
    ensures Run(pf, a[..|a| - 1]) == Ok(s) && Run(pf, b[..|b| - 1]) == Ok(t) && s.prev == t.prev
  {
    var x, y, s', t';
    x, s, s' := LastRecord(pf, a);
    y, t, t' := LastRecord(pf, b);
    LinkedLinesAgree(pf, a[|a| - 1], b[|b| - 1], x, y, s, t, s', t');
  }

  lemma HistoryExtends(pf: Platform, a: seq<Bytes>, b: seq<Bytes>)
    requires a != [] && |a| == |b| && SameRecord(pf, a[|a| - 1], b[|b| - 1])
    requires |a| > 1 ==> SameHistory(pf, a[..|a| - 1], b[..|b| - 1])
    ensures SameHistory(pf, a, b)
  {
    forall i | 0 <= i < |a|
      ensures SameRecord(pf, a[i], b[i])
    {
      if i < |a| - 1 {
        assert SameRecord(pf, a[..|a| - 1][i], b[..|b| - 1][i]);
      }
    }
  }

  lemma CollisionExtends(pf: Platform, a: seq<Bytes>, b: seq<Bytes>, i: nat, j: nat)
    requires i <= |a| && j <= |b| && Collide(pf, a[..i], b[..j])
    ensures Collide(pf, a, b)
  {
    var k, m :| 0 <= k < i && 0 <= m < j && LinesCollide(pf, a[..i][k], b[..j][m]);
    assert LinesCollide(pf, a[k], b[m]);
  }

  /** The tip determines the history, or the two chains exhibit a hash collision. */
  lemma {:induction false} TipDeterminesHistory(pf: Platform, a: seq<Bytes>, b: seq<Bytes>)
    requires Normalizing(pf.strictRead)
    requires Run(pf, a).Ok? && Run(pf, b).Ok? && a != [] && b != []
    requires Run(pf, a).value.prev == Run(pf, b).value.prev
    ensures Collide(pf, a, b) || SameHistory(pf, a, b)
    decreases |a|
  {
    var i, j := |a| - 1, |b| - 1;
    if !LinesCollide(pf, a[i], b[j]) {
      var s, t := LastRecordsAgree(pf, a, b);
      if i > 0 {
        TipDeterminesHistory(pf, a[..i], b[..j]);
      }
      if i > 0 && Collide(pf, a[..i], b[..j]) {
        CollisionExtends(pf, a, b, i, j);
      } else {
        HistoryExtends(pf, a, b);
      }
    }
  }

  /** The same for whole streams: an equal tip leaves no room for another history. */
  lemma StreamTipDeterminesHistory(pf: Platform, x: Bytes, y: Bytes)
    requires Normalizing(pf.strictRead)
    requires VerifyStream(pf, x).Ok? && VerifyStream(pf, y).Ok?
    requires VerifyStream(pf, x).value.tip.Some? && VerifyStream(pf, y).value.tip.Some?
    requires VerifyStream(pf, x).value.tip.value.recordHash == VerifyStream(pf, y).value.tip.value.recordHash
    ensures Collide(pf, AllLines(x), AllLines(y)) || SameHistory(pf, AllLines(x), AllLines(y))
  {
    VerifiedLines(pf, x);
    VerifiedLines(pf, y);
    TipDeterminesHistory(pf, AllLines(x), AllLines(y));
  }
}
