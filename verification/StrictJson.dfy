/**
 The two parsers of chain lines: one refuses repeated keys and keeps integers within 64 bits,
 the other lets the last occurrence of a key win and has integers of any size.  What they
 return, and why a line with a repeated key passes neither verifier.
 */
module StrictJson {
  import opened Prelude
  import opened Utf8
  import opened Decimal
  import opened Json
  import opened JsonRoundTrip
  import opened Canonical

  /**
   How a program reads a number token as a binary64 value: the shortest decimal of the double
   that it takes the token for, or None when the number is too large.  The readings of the
   two programs are parameters, and need not agree.
   */
  type Reading = Token -> Option<Decimal>

  /** What is read is some double, written as a normalized decimal. */
  ghost predicate Normalizing(read: Reading) {
    forall t :: read(t).Some? ==> Normalized(read(t).value)
  }

  /** The reading of a program that reads back every double from its own shortest text. */
  ghost predicate GoodReading(read: Reading) {
    Normalizing(read) && forall t :: read(t).Some? ==> read(LayoutToken(read(t).value)) == read(t)
  }

  /** A reading that depends on the decimal alone, such as rounding to the nearest double. */
  function ReadingOf(round: Decimal -> Option<Decimal>): Reading {
    t => if WellFormedToken(t) then round(TokenDecimal(t)) else None
  }

  /** Rounding that returns normalized decimals and leaves its own results alone. */
  ghost predicate GoodRounding(round: Decimal -> Option<Decimal>) {
    forall d :: Normalized(d) && round(d).Some? ==>
      Normalized(round(d).value) && round(round(d).value) == round(d)
  }

  /** Such a rounding is a good reading, since the layout of a decimal reads back. */
  lemma RoundingIsGoodReading(round: Decimal -> Option<Decimal>)
    requires GoodRounding(round)
    ensures GoodReading(ReadingOf(round))
  {
    var read := ReadingOf(round);
    forall t: Token | read(t).Some?
      ensures Normalized(read(t).value) && read(LayoutToken(read(t).value)) == read(t)
    {
      assert Normalized(TokenDecimal(t));
      LayoutReadsBack(read(t).value);
    }
  }

  /** Every decimal is taken for itself: legal numbers, for this reading, are the normalized ones. */
  function ExactReading(t: Token): Option<Decimal> {
    if WellFormedToken(t) then Some(TokenDecimal(t)) else None
  }

  /** The deepest nesting of containers that the strict parser enters. */
  const STRICT_NESTING := 127

  predicate IsIntegerToken(t: Token) {
    t.fraction.None? && t.exponent.None?
  }

  function FloatOf(read: Reading, t: Token): Option<Value> {
    match read(t)
    case None => None
    case Some(d) => Some(Float(d))
  }

  /** Integers outside the unsigned 64-bit range, and a negative zero, become floats. */
  function StrictNumber(read: Reading, t: Token): Option<Value> {
    if !WellFormedToken(t) then None
    else if !IsIntegerToken(t) then FloatOf(read, t)
    else
      var n: int := NatOf(t.integer);
      if t.negative then
        if 0 < n <= I64_LIMIT then Some(Int(-n)) else FloatOf(read, t)
      else if n < I64_LIMIT then Some(Int(n))
      else if n < U64_LIMIT then None
      else FloatOf(read, t)
  }

  function LenientNumber(read: Reading, t: Token): Option<Value> {
    if !WellFormedToken(t) then None
    else if !IsIntegerToken(t) then FloatOf(read, t)
    else if t.negative then Some(Int(-(NatOf(t.integer) as int)))
    else Some(Int(NatOf(t.integer)))
  }

  function StrictPolicy(read: Reading): Policy {
    Policy(Refuse, t => StrictNumber(read, t))
  }

  function LenientPolicy(read: Reading): Policy {
    Policy(LastWins, t => LenientNumber(read, t))
  }

  /** The verifier's parser, and the writer's, whose nesting limit is that of its interpreter. */
  function StrictParse(read: Reading, s: string): Option<Value> {
    ParseText(s, STRICT_NESTING, StrictPolicy(read))
  }

  function LenientParse(read: Reading, nesting: nat, s: string): Option<Value> {
    ParseText(s, nesting, LenientPolicy(read))
  }

  /**
   Integers of the signed 64-bit range, and only they, become integers; the upper half of the unsigned
   range is refused.
   */
  lemma StrictIntegers(read: Reading, t: Token)
    requires WellFormedToken(t) && t.fraction.None? && t.exponent.None?
    ensures var n: int := if t.negative then -(NatOf(t.integer) as int) else NatOf(t.integer);
            && ((exists k :: StrictNumber(read, t) == Some(Int(k))) <==>
                  -0x8000_0000_0000_0000 <= n < 0x8000_0000_0000_0000 && (n == 0 ==> !t.negative))
            && (forall k :: StrictNumber(read, t) == Some(Int(k)) ==> k == n)
            && (0x8000_0000_0000_0000 <= n < 0x1_0000_0000_0000_0000 ==> StrictNumber(read, t) == None)
  {
    var n: int := if t.negative then -(NatOf(t.integer) as int) else NatOf(t.integer);
    if -0x8000_0000_0000_0000 <= n < 0x8000_0000_0000_0000 && (n == 0 ==> !t.negative) {
      assert StrictNumber(read, t) == Some(Int(n));
    }
  }

  // ----- legal values

  predicate LegalNumber(v: Value, read: Reading, bounded: bool) {
    match v
    case Int(n) => bounded ==> -I64_LIMIT <= n < I64_LIMIT
    case Float(d) => Normalized(d) && read(LayoutToken(d)) == Some(d)
    case _ => true
  }

  /** Representable numbers, distinct keys, and at most `budget` levels of containers. */
  predicate Legal(v: Value, budget: nat, read: Reading, bounded: bool) {
    match v
    case Arr(items) => budget > 0 && LegalItems(items, budget - 1, read, bounded)
    case Obj(members) =>
      budget > 0 && DistinctKeys(members) && LegalMembers(members, budget - 1, read, bounded)
    case _ => LegalNumber(v, read, bounded)
  }

  predicate LegalItems(items: seq<Value>, budget: nat, read: Reading, bounded: bool) {
    items == [] || (Legal(items[0], budget, read, bounded) && LegalItems(items[1..], budget, read, bounded))
  }

  predicate LegalMembers(members: seq<Member>, budget: nat, read: Reading, bounded: bool) {
    members == [] ||
    (Legal(members[0].value, budget, read, bounded) && LegalMembers(members[1..], budget, read, bounded))
  }

  lemma {:induction false} LegalIsDistinct(v: Value, budget: nat, read: Reading, bounded: bool)
    requires Legal(v, budget, read, bounded)
    ensures DeepDistinct(v)
    decreases v, 0
  {
    match v
    case Arr(items) => LegalItemsDistinct(items, budget - 1, read, bounded);
    case Obj(members) => LegalMembersDistinct(members, budget - 1, read, bounded);
    case _ =>
  }

  lemma {:induction false} LegalItemsDistinct(items: seq<Value>, budget: nat, read: Reading, bounded: bool)
    requires LegalItems(items, budget, read, bounded)
    ensures DeepDistinctItems(items)
    decreases items, 0
  {
    if items != [] {
      LegalIsDistinct(items[0], budget, read, bounded);
      LegalItemsDistinct(items[1..], budget, read, bounded);
    }
  }

  lemma {:induction false} LegalMembersDistinct(members: seq<Member>, budget: nat, read: Reading, bounded: bool)
    requires LegalMembers(members, budget, read, bounded)
    ensures DeepDistinctMembers(members)
    decreases members, 0
  {
    if members != [] {
      LegalIsDistinct(members[0].value, budget, read, bounded);
      LegalMembersDistinct(members[1..], budget, read, bounded);
    }
  }

  // ----- floats that a reading gives back

  /** Every float, at any depth, is read back from its own token. */
  predicate FloatsFixed(v: Value, read: Reading) {
    match v
    case Float(d) => Normalized(d) && read(LayoutToken(d)) == Some(d)
    case Arr(items) => ItemsFixed(items, read)
    case Obj(members) => MembersFixed(members, read)
    case _ => true
  }

  predicate ItemsFixed(items: seq<Value>, read: Reading) {
    items == [] || (FloatsFixed(items[0], read) && ItemsFixed(items[1..], read))
  }

  predicate MembersFixed(members: seq<Member>, read: Reading) {
    members == [] || (FloatsFixed(members[0].value, read) && MembersFixed(members[1..], read))
  }

  /** Legal for a reading means legal for the exact one, with every float fixed. */
  lemma {:induction false} LegalIsFixed(v: Value, budget: nat, read: Reading, bounded: bool)
    ensures Legal(v, budget, read, bounded) <==> Legal(v, budget, ExactReading, bounded) && FloatsFixed(v, read)
    decreases v, 0
  {
    match v
    case Float(d) =>
      if Normalized(d) {
        LayoutReadsBack(d);
      }
    case Arr(items) =>
      if budget > 0 {
        LegalItemsFixed(items, budget - 1, read, bounded);
      }
    case Obj(members) =>
      if budget > 0 {
        LegalMembersFixed(members, budget - 1, read, bounded);
      }
    case _ =>
  }

  lemma {:induction false} LegalItemsFixed(items: seq<Value>, budget: nat, read: Reading, bounded: bool)
    ensures LegalItems(items, budget, read, bounded) <==>
            LegalItems(items, budget, ExactReading, bounded) && ItemsFixed(items, read)
    decreases items, 0
  {
    if items != [] {
      LegalIsFixed(items[0], budget, read, bounded);
      LegalItemsFixed(items[1..], budget, read, bounded);
    }
  }

  lemma {:induction false} LegalMembersFixed(members: seq<Member>, budget: nat, read: Reading, bounded: bool)
    ensures LegalMembers(members, budget, read, bounded) <==>
            LegalMembers(members, budget, ExactReading, bounded) && MembersFixed(members, read)
    decreases members, 0
  {
    if members != [] {
      LegalIsFixed(members[0].value, budget, read, bounded);
      LegalMembersFixed(members[1..], budget, read, bounded);
    }
  }

  // ----- the canonical form of a legal value is legal

  lemma {:induction false} InsertKeepsLegal(m: Member, sorted: seq<Member>, budget: nat, read: Reading, bounded: bool)
    requires Legal(m.value, budget, read, bounded) && LegalMembers(sorted, budget, read, bounded)
    ensures LegalMembers(Insert(m, sorted, CodePointOrder), budget, read, bounded)
  {
    var r := Insert(m, sorted, CodePointOrder);
    if sorted == [] || !CodePointLess(sorted[0].key, m.key) {
      assert r[1..] == sorted;
    } else {
      InsertKeepsLegal(m, sorted[1..], budget, read, bounded);
      assert r[1..] == Insert(m, sorted[1..], CodePointOrder);
    }
  }

  lemma {:induction false} SortKeepsLegal(members: seq<Member>, budget: nat, read: Reading, bounded: bool)
    requires LegalMembers(members, budget, read, bounded)
    ensures LegalMembers(Sort(members, CodePointOrder), budget, read, bounded)
  {
    if members != [] {
      SortKeepsLegal(members[1..], budget, read, bounded);
      InsertKeepsLegal(members[0], Sort(members[1..], CodePointOrder), budget, read, bounded);
    }
  }

  lemma {:induction false} CanonKeepsLegal(v: Value, budget: nat, read: Reading, bounded: bool)
    requires Legal(v, budget, read, bounded)
    ensures Legal(Canon(v, CodePointOrder), budget, read, bounded)
    decreases v, 0
  {
    match v
    case Arr(items) => CanonItemsLegal(items, budget - 1, read, bounded);
    case Obj(members) =>
      var c := CanonMembers(members, CodePointOrder);
      CanonMembersLegal(members, budget - 1, read, bounded);
      CanonMembersDistinct(members);
      SortSorts(c);
      SortedHasDistinctKeys(Sort(c, CodePointOrder));
      SortKeepsLegal(c, budget - 1, read, bounded);
    case _ =>
  }

  lemma {:induction false} CanonItemsLegal(items: seq<Value>, budget: nat, read: Reading, bounded: bool)
    requires LegalItems(items, budget, read, bounded)
    ensures LegalItems(CanonItems(items, CodePointOrder), budget, read, bounded)
    decreases items, 0
  {
    if items != [] {
      CanonKeepsLegal(items[0], budget, read, bounded);
      CanonItemsLegal(items[1..], budget, read, bounded);
    }
  }

  lemma {:induction false} CanonMembersLegal(members: seq<Member>, budget: nat, read: Reading, bounded: bool)
    requires LegalMembers(members, budget, read, bounded)
    ensures LegalMembers(CanonMembers(members, CodePointOrder), budget, read, bounded)
    decreases members, 0
  {
    if members != [] {
      CanonKeepsLegal(members[0].value, budget, read, bounded);
      CanonMembersLegal(members[1..], budget, read, bounded);
    }
  }

  // ----- legal values are readable

  /** The policy maps the token of every legal number back to the number. */
  ghost predicate ReadsNumbers(p: Policy, read: Reading, bounded: bool) {
    forall v: Value :: (v.Int? || v.Float?) && LegalNumber(v, read, bounded) ==> p.numbers(NumberToken(v)) == Some(v)
  }

  lemma StrictReadsNumber(v: Value, read: Reading)
    requires (v.Int? || v.Float?) && LegalNumber(v, read, true)
    ensures StrictNumber(read, NumberToken(v)) == Some(v)
  {
    match v
    case Int(n) => NatTextReads(Magnitude(n));
    case Float(d) => LayoutIsNotInteger(d);
  }

  lemma LenientReadsNumber(v: Value, read: Reading)
    requires (v.Int? || v.Float?) && LegalNumber(v, read, false)
    ensures LenientNumber(read, NumberToken(v)) == Some(v)
  {
    match v
    case Int(n) => NatTextReads(Magnitude(n));
    case Float(d) => LayoutIsNotInteger(d);
  }

  lemma PoliciesReadNumbers(read: Reading)
    ensures ReadsNumbers(StrictPolicy(read), read, true)
    ensures ReadsNumbers(LenientPolicy(read), read, false)
    ensures ReadsNumbers(LenientPolicy(read), read, true)
    ensures ReadsNumbers(StrictPolicy(read).(duplicates := Keep), read, true)
    ensures ReadsNumbers(LenientPolicy(read).(duplicates := Keep), read, false)
  {
    forall v: Value | (v.Int? || v.Float?) && LegalNumber(v, read, true)
      ensures StrictNumber(read, NumberToken(v)) == Some(v)
    {
      StrictReadsNumber(v, read);
    }
    forall v: Value | (v.Int? || v.Float?) && LegalNumber(v, read, false)
      ensures LenientNumber(read, NumberToken(v)) == Some(v)
    {
      LenientReadsNumber(v, read);
    }
  }

  lemma {:induction false} LegalIsReadable(v: Value, budget: nat, p: Policy, read: Reading, bounded: bool)
    requires ReadsNumbers(p, read, bounded) && Legal(v, budget, read, bounded)
    ensures Readable(v, budget, p) && Reread(v, p) == v
    decreases v, 0
  {
    match v
    case Arr(items) => LegalItemsReadable(items, budget - 1, p, read, bounded);
    case Obj(members) => LegalMembersReadable(members, budget - 1, p, read, bounded);
    case _ =>
  }

  lemma {:induction false} LegalItemsReadable(items: seq<Value>, budget: nat, p: Policy, read: Reading, bounded: bool)
    requires ReadsNumbers(p, read, bounded) && LegalItems(items, budget, read, bounded)
    ensures ReadableItems(items, budget, p) && RereadItems(items, p) == items
    decreases items, 0
  {
    if items != [] {
      assert items == [items[0]] + items[1..];
      LegalIsReadable(items[0], budget, p, read, bounded);
      LegalItemsReadable(items[1..], budget, p, read, bounded);
    }
  }

  lemma {:induction false} LegalMembersReadable(members: seq<Member>, budget: nat, p: Policy, read: Reading,
                                                bounded: bool)
    requires ReadsNumbers(p, read, bounded) && LegalMembers(members, budget, read, bounded)
    ensures ReadableMembers(members, budget, p) && RereadMembers(members, p) == members
    decreases members, 0
  {
    if members != [] {
      assert members == [members[0]] + members[1..];
      LegalIsReadable(members[0].value, budget, p, read, bounded);
      LegalMembersReadable(members[1..], budget, p, read, bounded);
    }
  }

  /** Either parser applied to the serialized form of a legal value gives its canonical form. */
  lemma SerializeRoundTrip(v: Value, order: KeyOrder, budget: nat, p: Policy, read: Reading, bounded: bool)
    requires ReadsNumbers(p, read, bounded) && Legal(v, budget, read, bounded)
    ensures ParseText(Serialize(v, order), budget, p) == Some(Canon(v, CodePointOrder))
  {
    CanonAgrees(v);
    CanonKeepsLegal(v, budget, read, bounded);
    LegalIsReadable(Canon(v, CodePointOrder), budget, p, read, bounded);
    TextRoundTrip(Canon(v, CodePointOrder), budget, p);
  }

  /** Each parser gives back the canonical form of every value that is legal for its own reading. */
  lemma ParsersInvertSerializers(v: Value, order: KeyOrder, nesting: nat, strictRead: Reading, read: Reading)
    ensures Legal(v, STRICT_NESTING, strictRead, true) ==>
              StrictParse(strictRead, Serialize(v, order)) == Some(Canon(v, CodePointOrder))
    ensures Legal(v, nesting, read, false) ==>
              LenientParse(read, nesting, Serialize(v, order)) == Some(Canon(v, CodePointOrder))
  {
    PoliciesReadNumbers(strictRead);
    PoliciesReadNumbers(read);
    if Legal(v, STRICT_NESTING, strictRead, true) {
      SerializeRoundTrip(v, order, STRICT_NESTING, StrictPolicy(strictRead), strictRead, true);
    }
    if Legal(v, nesting, read, false) {
      SerializeRoundTrip(v, order, nesting, LenientPolicy(read), read, false);
    }
  }

  /** Legal canonical values with the same text are the same value. */
  lemma RenderIsInjective(v: Value, w: Value, budget: nat, read: Reading)
    requires Legal(v, budget, read, false) && Legal(w, budget, read, false)
    requires Render(v) == Render(w)
    ensures v == w
  {
    PoliciesReadNumbers(read);
    LegalIsReadable(v, budget, LenientPolicy(read), read, false);
    LegalIsReadable(w, budget, LenientPolicy(read), read, false);
    TextRoundTrip(v, budget, LenientPolicy(read));
    TextRoundTrip(w, budget, LenientPolicy(read));
  }
}
