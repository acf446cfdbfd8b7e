/**
 Which canonical texts a parser reads back as what they were written from: exactly those whose
 floats, at every depth, its own reading of numbers gives back.
 */
module FixedFloats {
  import opened Prelude
  import opened Utf8
  import opened Decimal
  import opened Json
  import opened JsonRoundTrip
  import opened Canonical
  import opened StrictJson
  import opened DuplicateKeys

  /** The policy with an answer for every token: null where it has none. */
  function Completed(p: Policy): Policy {
    p.(numbers := t => if p.numbers(t).Some? then p.numbers(t) else Some(Null))
  }

  /** The policy makes no container of a number. */
  ghost predicate YieldsScalars(p: Policy) {
    forall t :: p.numbers(t).Some? ==> !p.numbers(t).value.Arr? && !p.numbers(t).value.Obj?
  }

  // ----- rereading changes no key

  lemma {:induction false} RereadKeepsSorted(members: seq<Member>, p: Policy)
    ensures Sorted(RereadMembers(members, p)) <==> Sorted(members)
  {
    if |members| > 1 {
      assert RereadMembers(members, p)[1..] == RereadMembers(members[1..], p);
      assert RereadMembers(members[1..], p)[0] == RereadMember(members[1], p);
      RereadKeepsSorted(members[1..], p);
    }
  }

  lemma {:induction false} RereadKeepsCanonical(v: Value, p: Policy)
    requires YieldsScalars(p) && IsCanonical(v)
    ensures IsCanonical(Reread(v, p))
    decreases v, 0
  {
    match v
    case Arr(items) => RereadItemsCanonical(items, p);
    case Obj(members) =>
      RereadKeepsSorted(members, p);
      RereadMembersCanonical(members, p);
    case _ =>
  }

  lemma {:induction false} RereadItemsCanonical(items: seq<Value>, p: Policy)
    requires YieldsScalars(p) && CanonicalItems(items)
    ensures CanonicalItems(RereadItems(items, p))
    decreases items, 0
  {
    if items != [] {
      RereadKeepsCanonical(items[0], p);
      RereadItemsCanonical(items[1..], p);
      assert RereadItems(items, p)[1..] == RereadItems(items[1..], p);
    }
  }

  lemma {:induction false} RereadMembersCanonical(members: seq<Member>, p: Policy)
    requires YieldsScalars(p) && CanonicalMembers(members)
    ensures CanonicalMembers(RereadMembers(members, p))
    decreases members, 0
  {
    if members != [] {
      RereadKeepsCanonical(members[0].value, p);
      RereadMembersCanonical(members[1..], p);
      assert RereadMembers(members, p)[1..] == RereadMembers(members[1..], p);
    }
  }

  // ----- what the strict parser makes of the text of a value

  lemma {:induction false} TextIsReadable(v: Value, budget: nat, p: Policy)
    requires Legal(v, budget, ExactReading, true)
    ensures Readable(v, budget, Completed(p))
    decreases v, 0
  {
    match v
    case Arr(items) => ItemsAreReadable(items, budget - 1, p);
    case Obj(members) => MembersAreReadable(members, budget - 1, p);
    case _ =>
  }

  lemma {:induction false} ItemsAreReadable(items: seq<Value>, budget: nat, p: Policy)
    requires LegalItems(items, budget, ExactReading, true)
    ensures ReadableItems(items, budget, Completed(p))
    decreases items, 0
  {
    if items != [] {
      TextIsReadable(items[0], budget, p);
      ItemsAreReadable(items[1..], budget, p);
    }
  }

  lemma {:induction false} MembersAreReadable(members: seq<Member>, budget: nat, p: Policy)
    requires LegalMembers(members, budget, ExactReading, true)
    ensures ReadableMembers(members, budget, Completed(p))
    decreases members, 0
  {
    if members != [] {
      TextIsReadable(members[0].value, budget, p);
      MembersAreReadable(members[1..], budget, p);
    }
  }

  /** Whatever the strict parser returns for the text of a value is that value with its numbers reread. */
  lemma StrictRereads(v: Value, read: Reading)
    requires Normalizing(read) && Legal(v, STRICT_NESTING, ExactReading, true)
    ensures var r := StrictParse(read, Render(v));
            r.Some? ==> r.value == Reread(v, Completed(StrictPolicy(read)))
  {
    var p := StrictPolicy(read);
    var r := StrictParse(read, Render(v));
    TextIsReadable(v, STRICT_NESTING, p);
    TextRoundTrip(v, STRICT_NESTING, Completed(p));
    if r.Some? {
      var Parsed(w, rest) := ParseValue(Render(v), STRICT_NESTING, p).value;
      StrictParsedIsLegal(read, Render(v));
      LegalIsDistinct(w, STRICT_NESTING, ExactReading, true);
      ValueTransfers(Render(v), STRICT_NESTING, p, Completed(p), w, rest);
    }
  }

  /** A float that survives rereading is read back from its own token. */
  lemma {:induction false} UnchangedIsFixed(v: Value, budget: nat, read: Reading)
    requires Legal(v, budget, ExactReading, true) && Reread(v, Completed(StrictPolicy(read))) == v
    ensures FloatsFixed(v, read)
    decreases v, 0
  {
    match v
    case Float(d) => LayoutIsNotInteger(d);
    case Arr(items) => UnchangedItemsFixed(items, budget - 1, read);
    case Obj(members) => UnchangedMembersFixed(members, budget - 1, read);
    case _ =>
  }

  lemma {:induction false} UnchangedItemsFixed(items: seq<Value>, budget: nat, read: Reading)
    requires LegalItems(items, budget, ExactReading, true) && RereadItems(items, Completed(StrictPolicy(read))) == items
    ensures ItemsFixed(items, read)
    decreases items, 0
  {
    if items != [] {
      var again := RereadItems(items, Completed(StrictPolicy(read)));
      assert again[0] == items[0] && again[1..] == items[1..];
      UnchangedIsFixed(items[0], budget, read);
      UnchangedItemsFixed(items[1..], budget, read);
    }
  }

  lemma {:induction false} UnchangedMembersFixed(members: seq<Member>, budget: nat, read: Reading)
    requires LegalMembers(members, budget, ExactReading, true)
    requires RereadMembers(members, Completed(StrictPolicy(read))) == members
    ensures MembersFixed(members, read)
    decreases members, 0
  {
    if members != [] {
      var again := RereadMembers(members, Completed(StrictPolicy(read)));
      assert again[0] == members[0] && again[1..] == members[1..];
      UnchangedIsFixed(members[0].value, budget, read);
      UnchangedMembersFixed(members[1..], budget, read);
    }
  }

  /** The strict parser reads the text of a value back exactly if its reading gives back every float in it. */
  lemma StrictReadsBackFixedFloats(v: Value, read: Reading)
    requires Normalizing(read) && Legal(v, STRICT_NESTING, ExactReading, true)
    ensures StrictParse(read, Render(v)) == Some(v) <==> FloatsFixed(v, read)
  {
    if StrictParse(read, Render(v)) == Some(v) {
      StrictRereads(v, read);
      UnchangedIsFixed(v, STRICT_NESTING, read);
    }
    if FloatsFixed(v, read) {
      LegalIsFixed(v, STRICT_NESTING, read, true);
      PoliciesReadNumbers(read);
      LegalIsReadable(v, STRICT_NESTING, StrictPolicy(read), read, true);
      TextRoundTrip(v, STRICT_NESTING, StrictPolicy(read));
    }
  }

  /** A float that the strict reading moves is not read back: its text stands for another value, or none. */
  lemma MovedFloat(d: Decimal, read: Reading)
    requires Normalized(d) && read(LayoutToken(d)) != Some(d)
    ensures StrictNumber(read, NumberToken(Float(d))) != Some(Float(d))
  {
    LayoutIsNotInteger(d);
  }

  // ----- canonical form has the same floats

  lemma {:induction false} InsertKeepsFixed(m: Member, sorted: seq<Member>, read: Reading)
    ensures MembersFixed(Insert(m, sorted, CodePointOrder), read) <==>
            FloatsFixed(m.value, read) && MembersFixed(sorted, read)
  {
    var r := Insert(m, sorted, CodePointOrder);
    if sorted == [] || !CodePointLess(sorted[0].key, m.key) {
      assert r[1..] == sorted;
    } else {
      InsertKeepsFixed(m, sorted[1..], read);
      assert r[1..] == Insert(m, sorted[1..], CodePointOrder);
    }
  }

  lemma {:induction false} SortKeepsFixed(members: seq<Member>, read: Reading)
    ensures MembersFixed(Sort(members, CodePointOrder), read) <==> MembersFixed(members, read)
  {
    if members != [] {
      SortKeepsFixed(members[1..], read);
      InsertKeepsFixed(members[0], Sort(members[1..], CodePointOrder), read);
    }
  }

  lemma {:induction false} CanonKeepsFixed(v: Value, read: Reading)
    ensures FloatsFixed(Canon(v, CodePointOrder), read) <==> FloatsFixed(v, read)
    decreases v, 0
  {
    match v
    case Arr(items) => CanonItemsKeepFixed(items, read);
    case Obj(members) =>
      CanonMembersKeepFixed(members, read);
      SortKeepsFixed(CanonMembers(members, CodePointOrder), read);
    case _ =>
  }

  lemma {:induction false} CanonItemsKeepFixed(items: seq<Value>, read: Reading)
    ensures ItemsFixed(CanonItems(items, CodePointOrder), read) <==> ItemsFixed(items, read)
    decreases items, 0
  {
    if items != [] {
      CanonKeepsFixed(items[0], read);
      CanonItemsKeepFixed(items[1..], read);
    }
  }

  lemma {:induction false} CanonMembersKeepFixed(members: seq<Member>, read: Reading)
    ensures MembersFixed(CanonMembers(members, CodePointOrder), read) <==> MembersFixed(members, read)
    decreases members, 0
  {
    if members != [] {
      CanonKeepsFixed(members[0].value, read);
      CanonMembersKeepFixed(members[1..], read);
    }
  }

  lemma {:induction false} AppendKeepsFixed(a: seq<Member>, b: seq<Member>, read: Reading)
    ensures MembersFixed(a + b, read) <==> MembersFixed(a, read) && MembersFixed(b, read)
  {
    if a == [] {
      assert a + b == b;
    } else {
      assert (a + b)[1..] == a[1..] + b;
      AppendKeepsFixed(a[1..], b, read);
    }
  }

  // ----- texts that a verifier lets through

  /**
   A text that equals the serialization of what the strict parser makes of it holds a canonical
   value, all of whose floats are read back: nothing need be assumed of the reading for that.
   */
  lemma StrictCanonicalText(read: Reading, s: string)
    requires Normalizing(read)
    ensures var r := StrictParse(read, s);
            r.Some? && Serialize(r.value, ByteOrder) == s ==>
              Canon(r.value, CodePointOrder) == r.value && Legal(r.value, STRICT_NESTING, read, true)
  {
    var r := StrictParse(read, s);
    if r.Some? && Serialize(r.value, ByteOrder) == s {
      var v, c := r.value, Canon(r.value, CodePointOrder);
      StrictParsedIsLegal(read, s);
      CanonAgrees(v);
      CanonKeepsLegal(v, STRICT_NESTING, ExactReading, true);
      StrictRereads(c, read);
      LegalIsDistinct(v, STRICT_NESTING, ExactReading, true);
      CanonIsCanonical(v);
      RereadKeepsCanonical(c, Completed(StrictPolicy(read)));
      CanonicalIsFixed(v);
      StrictReadsBackFixedFloats(v, read);
      LegalIsFixed(v, STRICT_NESTING, read, true);
    }
  }

  /** The same for the writer's parser, which reads back its own doubles. */
  lemma LenientCanonicalText(read: Reading, nesting: nat, s: string)
    requires GoodReading(read)
    ensures var r := LenientParse(read, nesting, s);
            r.Some? && Serialize(r.value, CodePointOrder) == s ==>
              Canon(r.value, CodePointOrder) == r.value && Legal(r.value, nesting, read, false)
  {
    if LenientParse(read, nesting, s).Some? {
      LenientParsedIsLegal(read, nesting, s);
      ParsersInvertSerializers(LenientParse(read, nesting, s).value, CodePointOrder, nesting, read, read);
    }
  }
}
