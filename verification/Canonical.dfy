/**
 The canonical form: every object, at every depth, in key order.  One implementation sorts
 keys by their UTF-8 bytes, the other by code point; the texts are the same.
 */
module Canonical {
  import opened Prelude
  import opened Utf8
  import opened Decimal
  import opened JsonText
  import opened Json

  datatype KeyOrder = ByteOrder | CodePointOrder

  predicate KeyLess(order: KeyOrder, a: string, b: string) {
    match order
    case ByteOrder => ByteLess(Encode(a), Encode(b))
    case CodePointOrder => CodePointLess(a, b)
  }

  function Insert(m: Member, sorted: seq<Member>, order: KeyOrder): (r: seq<Member>)
    ensures |r| == |sorted| + 1
  {
    if sorted == [] || !KeyLess(order, sorted[0].key, m.key) then [m] + sorted
    else [sorted[0]] + Insert(m, sorted[1..], order)
  }

  function Sort(members: seq<Member>, order: KeyOrder): (r: seq<Member>)
    ensures |r| == |members|
  {
    if members == [] then [] else Insert(members[0], Sort(members[1..], order), order)
  }

  /** The value with every object sorted. */
  function Canon(v: Value, order: KeyOrder): Value {
    match v
    case Arr(items) => Arr(CanonItems(items, order))
    case Obj(members) => Obj(Sort(CanonMembers(members, order), order))
    case _ => v
  }

  function CanonItems(items: seq<Value>, order: KeyOrder): (r: seq<Value>)
    ensures |r| == |items|
  {
    if items == [] then [] else [Canon(items[0], order)] + CanonItems(items[1..], order)
  }

  function CanonMembers(members: seq<Member>, order: KeyOrder): (r: seq<Member>)
    ensures |r| == |members|
  {
    if members == [] then []
    else [Member(members[0].key, Canon(members[0].value, order))] + CanonMembers(members[1..], order)
  }

  function Serialize(v: Value, order: KeyOrder): string {
    Render(Canon(v, order))
  }

  // ----- both orders give the same text

  lemma KeyOrdersAgree(a: string, b: string)
    ensures KeyLess(ByteOrder, a, b) == KeyLess(CodePointOrder, a, b)
  {
    ByteOrderIsCodePointOrder(a, b);
  }

  lemma {:induction false} InsertAgrees(m: Member, sorted: seq<Member>)
    ensures Insert(m, sorted, ByteOrder) == Insert(m, sorted, CodePointOrder)
  {
    if sorted != [] {
      KeyOrdersAgree(sorted[0].key, m.key);
      InsertAgrees(m, sorted[1..]);
    }
  }

  lemma {:induction false} SortAgrees(members: seq<Member>)
    ensures Sort(members, ByteOrder) == Sort(members, CodePointOrder)
  {
    if members != [] {
      SortAgrees(members[1..]);
      InsertAgrees(members[0], Sort(members[1..], ByteOrder));
    }
  }

  /** At every nesting level the byte order and the code-point order print the same object. */
  lemma {:induction false} CanonAgrees(v: Value)
    ensures Canon(v, ByteOrder) == Canon(v, CodePointOrder)
    decreases v, 0
  {
    match v
    case Arr(items) => CanonItemsAgree(items);
    case Obj(members) =>
      CanonMembersAgree(members);
      SortAgrees(CanonMembers(members, ByteOrder));
    case _ =>
  }

  lemma {:induction false} CanonItemsAgree(items: seq<Value>)
    ensures CanonItems(items, ByteOrder) == CanonItems(items, CodePointOrder)
    decreases items, 0
  {
    if items != [] {
      CanonAgrees(items[0]);
      CanonItemsAgree(items[1..]);
    }
  }

  lemma {:induction false} CanonMembersAgree(members: seq<Member>)
    ensures CanonMembers(members, ByteOrder) == CanonMembers(members, CodePointOrder)
    decreases members, 0
  {
    if members != [] {
      CanonAgrees(members[0].value);
      CanonMembersAgree(members[1..]);
    }
  }

  /** The two serializers agree on every value. */
  lemma SerializersAgree(v: Value)
    ensures Serialize(v, ByteOrder) == Serialize(v, CodePointOrder)
  {
    CanonAgrees(v);
  }

  // ----- the order is total, so sorting has one result

  lemma {:induction false} LessIsTransitive(a: string, b: string, c: string)
    requires CodePointLess(a, b) && CodePointLess(b, c)
    ensures CodePointLess(a, c)
  {
    if a != [] && a[0] == b[0] && b[0] == c[0] {
      LessIsTransitive(a[1..], b[1..], c[1..]);
    }
  }

  lemma {:induction false} LessIsTotal(a: string, b: string)
    ensures a == b || CodePointLess(a, b) || CodePointLess(b, a)
    ensures !(CodePointLess(a, b) && CodePointLess(b, a))
    ensures CodePointLess(a, b) ==> a != b
  {
    if a != [] && b != [] && a[0] == b[0] {
      LessIsTotal(a[1..], b[1..]);
      assert a == [a[0]] + a[1..] && b == [b[0]] + b[1..];
    }
  }

  /** Strictly increasing keys. */
  predicate Sorted(members: seq<Member>) {
    |members| > 1 ==> CodePointLess(members[0].key, members[1].key) && Sorted(members[1..])
  }

  predicate AllAbove(key: string, members: seq<Member>) {
    members == [] || (CodePointLess(key, members[0].key) && AllAbove(key, members[1..]))
  }

  lemma {:induction false} SortedHead(members: seq<Member>)
    requires members != [] && Sorted(members)
    ensures AllAbove(members[0].key, members[1..]) && Sorted(members[1..])
  {
    if |members| > 1 {
      SortedHead(members[1..]);
      AllAboveLower(members[0].key, members[1].key, members[2..]);
      assert members[1..][1..] == members[2..];
    }
  }

  lemma {:induction false} AllAboveLower(a: string, b: string, members: seq<Member>)
    requires CodePointLess(a, b) && AllAbove(b, members)
    ensures AllAbove(a, members)
  {
    if members != [] {
      LessIsTransitive(a, b, members[0].key);
      AllAboveLower(a, b, members[1..]);
    }
  }

  lemma {:induction false} AllAboveHasNoKey(key: string, members: seq<Member>)
    requires AllAbove(key, members)
    ensures !HasKey(members, key)
  {
    if members != [] {
      LessIsTotal(key, members[0].key);
      AllAboveHasNoKey(key, members[1..]);
    }
  }

  lemma {:induction false} SortedHasDistinctKeys(members: seq<Member>)
    requires Sorted(members)
    ensures DistinctKeys(members)
  {
    if members != [] {
      SortedHead(members);
      AllAboveHasNoKey(members[0].key, members[1..]);
      SortedHasDistinctKeys(members[1..]);
    }
  }

  lemma {:induction false} InsertHasKey(m: Member, sorted: seq<Member>, key: string)
    ensures HasKey(Insert(m, sorted, CodePointOrder), key) <==> m.key == key || HasKey(sorted, key)
  {
    var r := Insert(m, sorted, CodePointOrder);
    if sorted == [] || !CodePointLess(sorted[0].key, m.key) {
      assert r[1..] == sorted;
    } else {
      InsertHasKey(m, sorted[1..], key);
      assert r[1..] == Insert(m, sorted[1..], CodePointOrder);
    }
  }

  lemma {:induction false} InsertKeepsSorted(m: Member, sorted: seq<Member>)
    requires Sorted(sorted) && !HasKey(sorted, m.key)
    ensures Sorted(Insert(m, sorted, CodePointOrder))
  {
    var r := Insert(m, sorted, CodePointOrder);
    if sorted == [] || !CodePointLess(sorted[0].key, m.key) {
      assert r[1..] == sorted;
      if sorted != [] {
        LessIsTotal(m.key, sorted[0].key);
      }
    } else {
      SortedHead(sorted);
      InsertKeepsSorted(m, sorted[1..]);
      assert r[1..] == Insert(m, sorted[1..], CodePointOrder);
      assert r[1] == m || r[1] == sorted[1];
    }
  }

  lemma {:induction false} SortHasKey(members: seq<Member>, key: string)
    ensures HasKey(Sort(members, CodePointOrder), key) <==> HasKey(members, key)
  {
    if members != [] {
      SortHasKey(members[1..], key);
      InsertHasKey(members[0], Sort(members[1..], CodePointOrder), key);
    }
  }

  lemma {:induction false} SortSorts(members: seq<Member>)
    requires DistinctKeys(members)
    ensures Sorted(Sort(members, CodePointOrder))
  {
    if members != [] {
      SortSorts(members[1..]);
      SortHasKey(members[1..], members[0].key);
      InsertKeepsSorted(members[0], Sort(members[1..], CodePointOrder));
    }
  }

  lemma {:induction false} SortedIsFixed(members: seq<Member>)
    requires Sorted(members)
    ensures Sort(members, CodePointOrder) == members
  {
    if members != [] {
      SortedHead(members);
      SortedIsFixed(members[1..]);
      if |members| > 1 {
        LessIsTotal(members[0].key, members[1].key);
      }
      assert members == [members[0]] + members[1..];
    }
  }

  // ----- an object's content is what its keys map to

  lemma {:induction false} InsertLookup(m: Member, sorted: seq<Member>, key: string)
    requires !HasKey(sorted, m.key)
    ensures Lookup(Insert(m, sorted, CodePointOrder), key)
            == if m.key == key then Some(m.value) else Lookup(sorted, key)
  {
    var r := Insert(m, sorted, CodePointOrder);
    if sorted == [] || !CodePointLess(sorted[0].key, m.key) {
      assert r[1..] == sorted;
    } else {
      InsertLookup(m, sorted[1..], key);
      assert r[1..] == Insert(m, sorted[1..], CodePointOrder);
    }
  }

  /** Sorting changes the place of a key, never its value. */
  lemma {:induction false} SortLookup(members: seq<Member>, key: string)
    requires DistinctKeys(members)
    ensures Lookup(Sort(members, CodePointOrder), key) == Lookup(members, key)
  {
    if members != [] {
      SortLookup(members[1..], key);
      SortHasKey(members[1..], members[0].key);
      InsertLookup(members[0], Sort(members[1..], CodePointOrder), key);
    }
  }

  lemma {:induction false} LookupAbove(key: string, members: seq<Member>, k: string)
    requires AllAbove(key, members) && (k == key || CodePointLess(k, key))
    ensures Lookup(members, k) == None
  {
    if members != [] {
      LessIsTotal(key, members[0].key);
      if k != key {
        LessIsTransitive(k, key, members[0].key);
      }
      LessIsTotal(k, members[0].key);
      LookupAbove(key, members[1..], k);
    }
  }

  /** Sorted objects with the same content are the same sequence: any correct sort returns this one. */
  lemma {:induction false} SortedIsUnique(a: seq<Member>, b: seq<Member>)
    requires Sorted(a) && Sorted(b)
    requires forall key :: Lookup(a, key) == Lookup(b, key)
    ensures a == b
    decreases |a|
  {
    if a == [] || b == [] {
      var key := if a != [] then a[0].key else if b != [] then b[0].key else [];
      assert Lookup(a, key) == Lookup(b, key);
    } else {
      SortedHead(a);
      SortedHead(b);
      FirstKeysAgree(a, b);
      forall key
        ensures Lookup(a[1..], key) == Lookup(b[1..], key)
      {
        assert Lookup(a, key) == Lookup(b, key);
        if key == a[0].key {
          LookupAbove(a[0].key, a[1..], key);
          LookupAbove(b[0].key, b[1..], key);
        }
      }
      SortedIsUnique(a[1..], b[1..]);
      assert Lookup(a, a[0].key) == Lookup(b, a[0].key);
      assert a == [a[0]] + a[1..] && b == [b[0]] + b[1..];
    }
  }

  lemma FirstKeysAgree(a: seq<Member>, b: seq<Member>)
    requires a != [] && b != [] && AllAbove(a[0].key, a[1..]) && AllAbove(b[0].key, b[1..])
    requires Lookup(a, b[0].key) == Lookup(b, b[0].key) && Lookup(a, a[0].key) == Lookup(b, a[0].key)
    ensures a[0].key == b[0].key
  {
    LessIsTotal(a[0].key, b[0].key);
    if CodePointLess(a[0].key, b[0].key) {
      LookupAbove(b[0].key, b[1..], a[0].key);
    } else if CodePointLess(b[0].key, a[0].key) {
      LookupAbove(a[0].key, a[1..], b[0].key);
    }
  }

  // ----- canonical values

  predicate DeepDistinct(v: Value) {
    match v
    case Arr(items) => DeepDistinctItems(items)
    case Obj(members) => DistinctKeys(members) && DeepDistinctMembers(members)
    case _ => true
  }

  predicate DeepDistinctItems(items: seq<Value>) {
    items == [] || (DeepDistinct(items[0]) && DeepDistinctItems(items[1..]))
  }

  predicate DeepDistinctMembers(members: seq<Member>) {
    members == [] || (DeepDistinct(members[0].value) && DeepDistinctMembers(members[1..]))
  }

  /** Every object is in strictly increasing key order. */
  predicate IsCanonical(v: Value) {
    match v
    case Arr(items) => CanonicalItems(items)
    case Obj(members) => Sorted(members) && CanonicalMembers(members)
    case _ => true
  }

  predicate CanonicalItems(items: seq<Value>) {
    items == [] || (IsCanonical(items[0]) && CanonicalItems(items[1..]))
  }

  predicate CanonicalMembers(members: seq<Member>) {
    members == [] || (IsCanonical(members[0].value) && CanonicalMembers(members[1..]))
  }

  lemma {:induction false} CanonMembersHasKey(members: seq<Member>, key: string)
    ensures HasKey(CanonMembers(members, CodePointOrder), key) <==> HasKey(members, key)
  {
    if members != [] {
      CanonMembersHasKey(members[1..], key);
    }
  }

  lemma {:induction false} CanonMembersDistinct(members: seq<Member>)
    ensures DistinctKeys(CanonMembers(members, CodePointOrder)) <==> DistinctKeys(members)
  {
    if members != [] {
      CanonMembersHasKey(members[1..], members[0].key);
      CanonMembersDistinct(members[1..]);
    }
  }

  lemma {:induction false} InsertKeepsCanonical(m: Member, sorted: seq<Member>)
    ensures CanonicalMembers(Insert(m, sorted, CodePointOrder)) <==> IsCanonical(m.value) && CanonicalMembers(sorted)
  {
    var r := Insert(m, sorted, CodePointOrder);
    if sorted == [] || !CodePointLess(sorted[0].key, m.key) {
      assert r[1..] == sorted;
    } else {
      InsertKeepsCanonical(m, sorted[1..]);
      assert r[1..] == Insert(m, sorted[1..], CodePointOrder);
    }
  }

  lemma {:induction false} SortKeepsCanonical(members: seq<Member>)
    ensures CanonicalMembers(Sort(members, CodePointOrder)) <==> CanonicalMembers(members)
  {
    if members != [] {
      SortKeepsCanonical(members[1..]);
      InsertKeepsCanonical(members[0], Sort(members[1..], CodePointOrder));
    }
  }

  /** Without repeated keys the canonical form is canonical. */
  lemma {:induction false} CanonIsCanonical(v: Value)
    requires DeepDistinct(v)
    ensures IsCanonical(Canon(v, CodePointOrder))
    decreases v, 0
  {
    match v
    case Arr(items) => CanonItemsCanonical(items);
    case Obj(members) =>
      var c := CanonMembers(members, CodePointOrder);
      CanonMembersCanonical(members);
      CanonMembersDistinct(members);
      SortSorts(c);
      SortKeepsCanonical(c);
    case _ =>
  }

  lemma {:induction false} CanonItemsCanonical(items: seq<Value>)
    requires DeepDistinctItems(items)
    ensures CanonicalItems(CanonItems(items, CodePointOrder))
    decreases items, 0
  {
    if items != [] {
      CanonIsCanonical(items[0]);
      CanonItemsCanonical(items[1..]);
    }
  }

  lemma {:induction false} CanonMembersCanonical(members: seq<Member>)
    requires DeepDistinctMembers(members)
    ensures CanonicalMembers(CanonMembers(members, CodePointOrder))
    decreases members, 0
  {
    if members != [] {
      CanonIsCanonical(members[0].value);
      CanonMembersCanonical(members[1..]);
    }
  }

  /** A canonical value is its own canonical form. */
  lemma {:induction false} CanonicalIsFixed(v: Value)
    requires IsCanonical(v)
    ensures Canon(v, CodePointOrder) == v
    decreases v, 0
  {
    match v
    case Arr(items) => CanonicalItemsFixed(items);
    case Obj(members) =>
      CanonicalMembersFixed(members);
      SortedIsFixed(members);
    case _ =>
  }

  lemma {:induction false} CanonicalItemsFixed(items: seq<Value>)
    requires CanonicalItems(items)
    ensures CanonItems(items, CodePointOrder) == items
    decreases items, 0
  {
    if items != [] {
      CanonicalIsFixed(items[0]);
      CanonicalItemsFixed(items[1..]);
      assert items == [items[0]] + items[1..];
    }
  }

  lemma {:induction false} CanonicalMembersFixed(members: seq<Member>)
    requires CanonicalMembers(members)
    ensures CanonMembers(members, CodePointOrder) == members
    decreases members, 0
  {
    if members != [] {
      CanonicalIsFixed(members[0].value);
      CanonicalMembersFixed(members[1..]);
      assert members == [members[0]] + members[1..];
    }
  }

  /** Sorting twice is sorting once. */
  lemma CanonIsIdempotent(v: Value)
    requires DeepDistinct(v)
    ensures Canon(Canon(v, CodePointOrder), CodePointOrder) == Canon(v, CodePointOrder)
  {
    CanonIsCanonical(v);
    CanonicalIsFixed(Canon(v, CodePointOrder));
  }

  // ----- no raw control characters

  /** Every character is printable or above: in particular no line feed. */
  predicate NoControls(s: string) {
    forall i | 0 <= i < |s| :: s[i] as int >= 0x20
  }

  lemma {:induction false} StringTailNoControls(s: string)
    ensures NoControls(RenderStringTail(s))
  {
    if s != [] {
      StringTailNoControls(s[1..]);
    }
  }

  lemma NumberNoControls(v: Value)
    requires v.Int? || v.Float?
    ensures NoControls(Render(v))
  {
    var t := NumberToken(v);
    var sign := if t.negative then "-" else "";
    assert NoControls(sign + t.integer);
    assert NoControls(FractionText(t.fraction)) && NoControls(ExponentText(t.exponent));
    assert Render(v) == sign + t.integer + FractionText(t.fraction) + ExponentText(t.exponent);
  }

  lemma {:induction false} RenderNoControls(v: Value)
    ensures NoControls(Render(v))
    decreases v, 0
  {
    match v
    case Null =>
    case Bool(_) =>
    case Int(_) => NumberNoControls(v);
    case Float(_) => NumberNoControls(v);
    case Str(s) => StringTailNoControls(s);
    case Arr(items) =>
      if items != [] {
        ItemsNoControls(items);
      }
    case Obj(members) =>
      if members != [] {
        MembersNoControls(members);
      }
  }

  lemma {:induction false} ItemsNoControls(items: seq<Value>)
    requires items != []
    ensures NoControls(RenderItems(items))
    decreases items, 0
  {
    RenderNoControls(items[0]);
    if |items| > 1 {
      ItemsNoControls(items[1..]);
    }
  }

  lemma {:induction false} MembersNoControls(members: seq<Member>)
    requires members != []
    ensures NoControls(RenderMembers(members))
    decreases members, 0
  {
    RenderNoControls(members[0].value);
    StringTailNoControls(members[0].key);
    assert NoControls(RenderMember(members[0]));
    if |members| > 1 {
      MembersNoControls(members[1..]);
    }
  }

  /** The canonical bytes of a value contain no line feed, so a line holds exactly one record. */
  lemma SerializedHasNoLineFeed(v: Value, order: KeyOrder)
    ensures 0x0a !in Encode(Serialize(v, order))
  {
    RenderNoControls(Canon(v, order));
    LineFeedByte(Serialize(v, order));
  }
}
