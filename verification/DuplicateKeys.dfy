/**
 What the parsers return is always legal, and a text with a repeated key, at any depth, is
 refused: by the strict parser outright, by the lenient one because re-serializing never
 gives the text back.
 */
module DuplicateKeys {
  import opened Prelude
  import opened Decimal
  import opened JsonText
  import opened Json
  import opened JsonRoundTrip
  import opened Canonical
  import opened StrictJson

  // ----- what a parser that does not keep repeated keys returns is legal

  /** The policy only yields legal numbers. */
  ghost predicate YieldsLegal(p: Policy, read: Reading, bounded: bool) {
    forall t: Token :: p.numbers(t).Some? ==>
      (p.numbers(t).value.Int? || p.numbers(t).value.Float?) && LegalNumber(p.numbers(t).value, read, bounded)
  }

  lemma StrictYieldsLegal(read: Reading)
    requires Normalizing(read)
    ensures YieldsLegal(StrictPolicy(read), ExactReading, true)
  {
    forall t: Token | StrictNumber(read, t).Some?
      ensures LegalNumber(StrictNumber(read, t).value, ExactReading, true)
    {
      if StrictNumber(read, t).value.Float? {
        LayoutReadsBack(StrictNumber(read, t).value.d);
      }
    }
  }

  lemma LenientYieldsLegal(read: Reading)
    requires GoodReading(read)
    ensures YieldsLegal(LenientPolicy(read), read, false)
  {
  }

  lemma {:induction false} WithoutLegal(members: seq<Member>, key: string, k: string, budget: nat, read: Reading,
                                        bounded: bool)
    requires LegalMembers(members, budget, read, bounded) && DistinctKeys(members)
    ensures LegalMembers(Without(members, key), budget, read, bounded) && DistinctKeys(Without(members, key))
    ensures HasKey(Without(members, key), k) <==> k != key && HasKey(members, k)
  {
    if members != [] {
      var r := Without(members, key);
      WithoutLegal(members[1..], key, k, budget, read, bounded);
      WithoutLegal(members[1..], key, members[0].key, budget, read, bounded);
      if members[0].key != key {
        assert r[1..] == Without(members[1..], key);
      }
    }
  }

  lemma {:induction false} LookupLegal(members: seq<Member>, key: string, budget: nat, read: Reading, bounded: bool)
    requires LegalMembers(members, budget, read, bounded) && HasKey(members, key)
    ensures Legal(Lookup(members, key).value, budget, read, bounded)
  {
    if members[0].key != key {
      LookupLegal(members[1..], key, budget, read, bounded);
    }
  }

  lemma AddMemberLegal(m: Member, later: seq<Member>, d: Duplicates, budget: nat, read: Reading, bounded: bool)
    requires !d.Keep? && AddMember(m, later, d).Some?
    requires Legal(m.value, budget, read, bounded)
    requires LegalMembers(later, budget, read, bounded) && DistinctKeys(later)
    ensures var r := AddMember(m, later, d).value;
            LegalMembers(r, budget, read, bounded) && DistinctKeys(r)
  {
    var r := AddMember(m, later, d).value;
    if !HasKey(later, m.key) {
      assert r[1..] == later;
    } else {
      WithoutLegal(later, m.key, m.key, budget, read, bounded);
      LookupLegal(later, m.key, budget, read, bounded);
      assert r[1..] == Without(later, m.key);
    }
  }

  lemma {:induction false} ValueIsLegal(s: string, budget: nat, p: Policy, read: Reading, bounded: bool, v: Value,
                                        rest: string)
    requires YieldsLegal(p, read, bounded) && !p.duplicates.Keep? && ReadsAs(s, budget, p, v, rest)
    ensures Legal(v, budget, read, bounded)
    decreases |s|, 3
  {
    var t := SkipBlanks(s);
    assert ParseToken(t, budget, p) == Some(Parsed(v, rest));
    if t[0] == '[' {
      ArrayIsLegal(t[1..], budget - 1, p, read, bounded, v, rest);
    } else if t[0] == '{' {
      ObjectIsLegal(t[1..], budget - 1, p, read, bounded, v, rest);
    }
  }

  lemma {:induction false} ArrayIsLegal(s: string, budget: nat, p: Policy, read: Reading, bounded: bool, v: Value,
                                        rest: string)
    requires YieldsLegal(p, read, bounded) && !p.duplicates.Keep?
    requires ParseArray(s, budget, p) == Some(Parsed(v, rest))
    ensures Legal(v, budget + 1, read, bounded)
    decreases |s|, 5
  {
    if v.items != [] {
      ItemsAreLegal(s, budget, p, read, bounded, v.items, rest);
    }
  }

  lemma {:induction false} ItemsAreLegal(s: string, budget: nat, p: Policy, read: Reading, bounded: bool,
                                         items: seq<Value>, rest: string)
    requires YieldsLegal(p, read, bounded) && !p.duplicates.Keep? && ReadsItems(s, budget, p, items, rest)
    ensures items != [] && LegalItems(items, budget, read, bounded)
    decreases |s|, 4
  {
    var Parsed(v, more) := ParseValue(s, budget, p).value;
    ValueIsLegal(s, budget, p, read, bounded, v, more);
    var t := SkipBlanks(more);
    if t[0] == ',' {
      var Parsed(later, _) := ParseItems(t[1..], budget, p).value;
      ItemsAreLegal(t[1..], budget, p, read, bounded, later, rest);
      assert items[1..] == later;
    }
  }

  lemma {:induction false} ObjectIsLegal(s: string, budget: nat, p: Policy, read: Reading, bounded: bool, v: Value,
                                         rest: string)
    requires YieldsLegal(p, read, bounded) && !p.duplicates.Keep?
    requires ParseObject(s, budget, p) == Some(Parsed(v, rest))
    ensures Legal(v, budget + 1, read, bounded)
    decreases |s|, 5
  {
    if v.members != [] {
      MembersAreLegal(SkipBlanks(s), budget, p, read, bounded, v.members, rest);
    }
  }

  lemma {:induction false} MembersAreLegal(s: string, budget: nat, p: Policy, read: Reading, bounded: bool,
                                           members: seq<Member>, rest: string)
    requires YieldsLegal(p, read, bounded) && !p.duplicates.Keep? && ReadsMembers(s, budget, p, members, rest)
    ensures LegalMembers(members, budget, read, bounded) && DistinctKeys(members)
    decreases |s|, 4
  {
    var Parsed(m, more) := ParseMember(s, budget, p).value;
    MemberIsLegal(s, budget, p, read, bounded, m, more);
    var t := SkipBlanks(more);
    if t[0] == ',' {
      var u := SkipBlanks(t[1..]);
      var Parsed(later, _) := ParseMembers(u, budget, p).value;
      MembersAreLegal(u, budget, p, read, bounded, later, rest);
      AddMemberLegal(m, later, p.duplicates, budget, read, bounded);
    } else {
      AddMemberLegal(m, [], p.duplicates, budget, read, bounded);
    }
  }

  lemma {:induction false} MemberIsLegal(s: string, budget: nat, p: Policy, read: Reading, bounded: bool, m: Member,
                                         rest: string)
    requires YieldsLegal(p, read, bounded) && !p.duplicates.Keep? && ReadsMember(s, budget, p, m, rest)
    ensures Legal(m.value, budget, read, bounded)
    decreases |s|, 3
  {
    var t := SkipBlanks(ParseStringTail(s[1..]).value.rest);
    ValueIsLegal(t[1..], budget, p, read, bounded, m.value, rest);
  }

  /** The strict parser returns legal values, but for floats that it would not read back. */
  lemma StrictParsedIsLegal(read: Reading, s: string)
    requires Normalizing(read) && StrictParse(read, s).Some?
    ensures Legal(StrictParse(read, s).value, STRICT_NESTING, ExactReading, true)
  {
    StrictYieldsLegal(read);
    var Parsed(v, rest) := ParseValue(s, STRICT_NESTING, StrictPolicy(read)).value;
    ValueIsLegal(s, STRICT_NESTING, StrictPolicy(read), ExactReading, true, v, rest);
  }

  /** The writer's parser returns legal values. */
  lemma LenientParsedIsLegal(read: Reading, nesting: nat, s: string)
    requires GoodReading(read) && LenientParse(read, nesting, s).Some?
    ensures Legal(LenientParse(read, nesting, s).value, nesting, read, false)
  {
    LenientYieldsLegal(read);
    var Parsed(v, rest) := ParseValue(s, nesting, LenientPolicy(read)).value;
    ValueIsLegal(s, nesting, LenientPolicy(read), read, false, v, rest);
  }

  // ----- keeping and refusing repeated keys agree on every value without them

  /** The second policy reads every number that the first one reads, and both keep or refuse repeated keys. */
  ghost predicate Extends(p: Policy, q: Policy) {
    && (forall t :: p.numbers(t).Some? ==> q.numbers(t) == p.numbers(t))
    && !p.duplicates.LastWins? && !q.duplicates.LastWins?
  }

  lemma {:induction false} ValueTransfers(s: string, budget: nat, p: Policy, q: Policy, v: Value, rest: string)
    requires Extends(p, q) && ReadsAs(s, budget, p, v, rest)
    requires q.duplicates.Refuse? ==> DeepDistinct(v)
    ensures ReadsAs(s, budget, q, v, rest)
    decreases |s|, 3
  {
    var t := SkipBlanks(s);
    assert ParseToken(t, budget, p) == Some(Parsed(v, rest));
    if t[0] == '[' {
      ArrayTransfers(t[1..], budget - 1, p, q, v, rest);
    } else if t[0] == '{' {
      ObjectTransfers(t[1..], budget - 1, p, q, v, rest);
    }
    assert ParseToken(t, budget, q) == Some(Parsed(v, rest));
  }

  lemma {:induction false} ArrayTransfers(s: string, budget: nat, p: Policy, q: Policy, v: Value, rest: string)
    requires Extends(p, q) && ParseArray(s, budget, p) == Some(Parsed(v, rest))
    requires q.duplicates.Refuse? ==> DeepDistinct(v)
    ensures ParseArray(s, budget, q) == Some(Parsed(v, rest))
    decreases |s|, 5
  {
    var t := SkipBlanks(s);
    if t == [] || t[0] != ']' {
      ItemsTransfer(s, budget, p, q, v.items, rest);
    }
  }

  lemma {:induction false} ItemsTransfer(s: string, budget: nat, p: Policy, q: Policy, items: seq<Value>, rest: string)
    requires Extends(p, q) && ReadsItems(s, budget, p, items, rest)
    requires q.duplicates.Refuse? ==> DeepDistinctItems(items)
    ensures ReadsItems(s, budget, q, items, rest)
    decreases |s|, 4
  {
    var Parsed(v, more) := ParseValue(s, budget, p).value;
    ValueTransfers(s, budget, p, q, v, more);
    var t := SkipBlanks(more);
    if t[0] == ',' {
      var Parsed(later, _) := ParseItems(t[1..], budget, p).value;
      assert items[1..] == later;
      ItemsTransfer(t[1..], budget, p, q, later, rest);
    }
  }

  lemma {:induction false} ObjectTransfers(s: string, budget: nat, p: Policy, q: Policy, v: Value, rest: string)
    requires Extends(p, q) && ParseObject(s, budget, p) == Some(Parsed(v, rest))
    requires q.duplicates.Refuse? ==> DeepDistinct(v)
    ensures ParseObject(s, budget, q) == Some(Parsed(v, rest))
    decreases |s|, 5
  {
    var t := SkipBlanks(s);
    if t == [] || t[0] != '}' {
      MembersTransfer(t, budget, p, q, v.members, rest);
    }
  }

  lemma {:induction false} MembersTransfer(s: string, budget: nat, p: Policy, q: Policy, members: seq<Member>,
                                           rest: string)
    requires Extends(p, q) && ReadsMembers(s, budget, p, members, rest)
    requires q.duplicates.Refuse? ==> DistinctKeys(members) && DeepDistinctMembers(members)
    ensures ReadsMembers(s, budget, q, members, rest)
    decreases |s|, 4
  {
    var Parsed(m, more) := ParseMember(s, budget, p).value;
    assert members[0] == m;
    MemberTransfers(s, budget, p, q, m, more);
    var t := SkipBlanks(more);
    if t[0] == ',' {
      var u := SkipBlanks(t[1..]);
      var Parsed(later, _) := ParseMembers(u, budget, p).value;
      assert members[1..] == later;
      MembersTransfer(u, budget, p, q, later, rest);
    }
  }

  lemma {:induction false} MemberTransfers(s: string, budget: nat, p: Policy, q: Policy, m: Member, rest: string)
    requires Extends(p, q) && ReadsMember(s, budget, p, m, rest)
    requires q.duplicates.Refuse? ==> DeepDistinct(m.value)
    ensures ReadsMember(s, budget, q, m, rest)
    decreases |s|, 3
  {
    var t := SkipBlanks(ParseStringTail(s[1..]).value.rest);
    ValueTransfers(t[1..], budget, p, q, m.value, rest);
  }

  // ----- texts with a repeated key

  function Keeping(p: Policy): Policy {
    p.(duplicates := Keep)
  }

  /** Read with every member kept, the text has an object, at some depth, with a repeated key. */
  predicate RepeatsKey(s: string, budget: nat, p: Policy) {
    ParseText(s, budget, Keeping(p)).Some? && !DeepDistinct(ParseText(s, budget, Keeping(p)).value)
  }

  /** The strict parser refuses repeated keys at every depth, and nothing else that a keeping parser reads. */
  lemma StrictRefusesExactlyRepeatedKeys(read: Reading, s: string)
    requires Normalizing(read)
    ensures var kept := ParseText(s, STRICT_NESTING, Keeping(StrictPolicy(read)));
            StrictParse(read, s) == if RepeatsKey(s, STRICT_NESTING, StrictPolicy(read)) then None else kept
  {
    var p := StrictPolicy(read);
    var q := Keeping(p);
    var strict, kept := StrictParse(read, s), ParseText(s, STRICT_NESTING, q);
    if strict.Some? {
      var Parsed(v, rest) := ParseValue(s, STRICT_NESTING, p).value;
      ValueTransfers(s, STRICT_NESTING, p, q, v, rest);
      StrictParsedIsLegal(read, s);
      LegalIsDistinct(v, STRICT_NESTING, ExactReading, true);
    }
    if kept.Some? && DeepDistinct(kept.value) {
      var Parsed(v, rest) := ParseValue(s, STRICT_NESTING, q).value;
      ValueTransfers(s, STRICT_NESTING, q, p, v, rest);
    }
  }

  /** Where the last occurrence wins, the text is never what its value serializes to. */
  lemma RepeatedKeysAreNotCanonical(read: Reading, nesting: nat, s: string, order: KeyOrder)
    requires GoodReading(read) && RepeatsKey(s, nesting, LenientPolicy(read))
    ensures var r := LenientParse(read, nesting, s);
            r.Some? ==> Serialize(r.value, order) != s
  {
    var r := LenientParse(read, nesting, s);
    if r.Some? && Serialize(r.value, order) == s {
      LenientParsedIsLegal(read, nesting, s);
      PoliciesReadNumbers(read);
      SerializeRoundTrip(r.value, order, nesting, Keeping(LenientPolicy(read)), read, false);
      CanonKeepsLegal(r.value, nesting, read, false);
      LegalIsDistinct(Canon(r.value, CodePointOrder), nesting, read, false);
    }
  }
}
