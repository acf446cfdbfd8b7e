/**
 The imperative halves of the canonical form: the writer that appends to one output text, and
 the visitor that collects an object's members into a map.
 */
module CanonicalWriter {
  import opened Prelude
  import opened Decimal
  import opened JsonText
  import opened Json
  import opened Canonical

  // ----- sorting entries and canonicalizing their values commute

  function CanonMember(m: Member, order: KeyOrder): Member {
    Member(m.key, Canon(m.value, order))
  }

  lemma {:induction false} InsertCommutes(m: Member, sorted: seq<Member>, order: KeyOrder)
    ensures CanonMembers(Insert(m, sorted, order), order) ==
            Insert(CanonMember(m, order), CanonMembers(sorted, order), order)
  {
    var r := Insert(m, sorted, order);
    if sorted == [] || !KeyLess(order, sorted[0].key, m.key) {
      assert r[1..] == sorted;
    } else {
      InsertCommutes(m, sorted[1..], order);
      assert r[1..] == Insert(m, sorted[1..], order);
      assert CanonMembers(sorted, order)[1..] == CanonMembers(sorted[1..], order);
    }
  }

  lemma {:induction false} SortCommutes(members: seq<Member>, order: KeyOrder)
    ensures CanonMembers(Sort(members, order), order) == Sort(CanonMembers(members, order), order)
  {
    if members != [] {
      SortCommutes(members[1..], order);
      InsertCommutes(members[0], Sort(members[1..], order), order);
    }
  }

  lemma {:induction false} InsertMember(m: Member, sorted: seq<Member>, order: KeyOrder, e: Member)
    requires e in Insert(m, sorted, order)
    ensures e == m || e in sorted
  {
    if sorted != [] && KeyLess(order, sorted[0].key, m.key) && e != sorted[0] {
      InsertMember(m, sorted[1..], order, e);
    }
  }

  lemma {:induction false} SortMember(members: seq<Member>, order: KeyOrder, e: Member)
    requires e in Sort(members, order)
    ensures e in members
  {
    if members != [] {
      InsertMember(members[0], Sort(members[1..], order), order, e);
      if e != members[0] {
        SortMember(members[1..], order, e);
      }
    }
  }

  lemma {:induction false} CanonItemsAt(items: seq<Value>, order: KeyOrder, i: nat)
    requires i < |items|
    ensures CanonItems(items, order)[i] == Canon(items[i], order)
  {
    if i > 0 {
      CanonItemsAt(items[1..], order, i - 1);
    }
  }

  lemma {:induction false} CanonMembersAt(members: seq<Member>, order: KeyOrder, i: nat)
    requires i < |members|
    ensures CanonMembers(members, order)[i] == CanonMember(members[i], order)
  {
    if i > 0 {
      CanonMembersAt(members[1..], order, i - 1);
    }
  }

  // ----- what is still to be written after `i` elements

  function ItemsLeft(items: seq<Value>, i: nat): string
    requires i <= |items|
  {
    if i == |items| then "]" else Separator(i) + RenderItems(items[i..])
  }

  function MembersLeft(members: seq<Member>, i: nat): string
    requires i <= |members|
  {
    if i == |members| then "}" else Separator(i) + RenderMembers(members[i..])
  }

  function Separator(i: nat): string {
    if i == 0 then "" else ","
  }

  lemma Reassociate(goal: string, before: string, separator: string, element: string, left: string)
    requires goal == before + (separator + (element + left))
    ensures goal == before + separator + element + left
  {
  }

  /** Writing element `i` keeps the written text and the rest equal to the whole. */
  lemma ItemWritten(goal: string, before: string, items: seq<Value>, i: nat)
    requires i < |items| && goal == before + ItemsLeft(items, i)
    ensures goal == before + Separator(i) + Render(items[i]) + ItemsLeft(items, i + 1)
  {
    assert items[i..][1..] == items[i + 1..];
    var element, left := Render(items[i]), ItemsLeft(items, i + 1);
    assert RenderItems(items[i..]) == element + left;
    Reassociate(goal, before, Separator(i), element, left);
  }

  lemma MemberWritten(goal: string, before: string, members: seq<Member>, i: nat)
    requires i < |members| && goal == before + MembersLeft(members, i)
    ensures goal == before + Separator(i) + RenderMember(members[i]) + MembersLeft(members, i + 1)
  {
    assert members[i..][1..] == members[i + 1..];
    var element, left := RenderMember(members[i]), MembersLeft(members, i + 1);
    assert RenderMembers(members[i..]) == element + left;
    Reassociate(goal, before, Separator(i), element, left);
  }

  lemma ContainersLeft(items: seq<Value>, members: seq<Member>)
    ensures Render(Arr(items)) == "[" + ItemsLeft(items, 0)
    ensures Render(Obj(members)) == "{" + MembersLeft(members, 0)
  {
    assert items[0..] == items && members[0..] == members;
  }

  class Output {
    var text: string

    constructor ()
      ensures text == []
    {
      text := [];
    }

    method Push(s: string)
      modifies this
      ensures text == old(text) + s
    {
      text := text + s;
    }
  }

  /** Appends the canonical text of a value and changes nothing else. */
  method WriteValue(v: Value, output: Output)
    modifies output
    ensures output.text == old(output.text) + Serialize(v, ByteOrder)
    decreases v, 1
  {
    match v {
      case Null => output.Push("null");
      case Bool(b) => output.Push(if b then "true" else "false");
      case Int(_) => output.Push(TokenText(NumberToken(v)));
      case Float(_) => output.Push(TokenText(NumberToken(v)));
      case Str(s) => output.Push("\"" + RenderStringTail(s));
      case Arr(items) => WriteItems(items, output);
      case Obj(members) => WriteMembers(members, output);
    }
  }

  method WriteItems(items: seq<Value>, output: Output)
    modifies output
    ensures output.text == old(output.text) + Serialize(Arr(items), ByteOrder)
    decreases items, 2
  {
    ghost var canon := CanonItems(items, ByteOrder);
    ghost var goal := output.text + Render(Arr(canon));
    ContainersLeft(canon, []);
    output.Push("[");
    for i := 0 to |items|
      invariant goal == output.text + ItemsLeft(canon, i)
    {
      ItemWritten(goal, output.text, canon, i);
      CanonItemsAt(items, ByteOrder, i);
      if i != 0 {
        output.Push(",");
      } else {
        assert output.text + Separator(i) == output.text;
      }
      WriteValue(items[i], output);
    }
    output.Push("]");
  }

  method WriteMembers(members: seq<Member>, output: Output)
    modifies output
    ensures output.text == old(output.text) + Serialize(Obj(members), ByteOrder)
    decreases members, 2
  {
    var entries := Sort(members, ByteOrder);
    WriteEntries(entries, members, output);
    SortCommutes(members, ByteOrder);
  }

  method WriteEntries(entries: seq<Member>, ghost members: seq<Member>, output: Output)
    requires entries == Sort(members, ByteOrder)
    modifies output
    ensures output.text == old(output.text) + Render(Obj(CanonMembers(entries, ByteOrder)))
    decreases members, 1
  {
    ghost var canon := CanonMembers(entries, ByteOrder);
    ghost var goal := output.text + Render(Obj(canon));
    ContainersLeft([], canon);
    output.Push("{");
    for i := 0 to |entries|
      invariant goal == output.text + MembersLeft(canon, i)
    {
      MemberWritten(goal, output.text, canon, i);
      CanonMembersAt(entries, ByteOrder, i);
      SortMember(members, ByteOrder, entries[i]);
      if i != 0 {
        output.Push(",");
      } else {
        assert output.text + Separator(i) == output.text;
      }
      WriteMember(entries[i], members, output);
    }
    output.Push("}");
  }

  method WriteMember(m: Member, ghost members: seq<Member>, output: Output)
    requires m in members
    modifies output
    ensures output.text == old(output.text) + RenderMember(CanonMember(m, ByteOrder))
    decreases members, 0
  {
    ghost var before := output.text;
    var key := "\"" + RenderStringTail(m.key);
    output.Push(key);
    output.Push(":");
    WriteValue(m.value, output);
    MemberText(CanonMember(m, ByteOrder), key);
    Reassociate(before + RenderMember(CanonMember(m, ByteOrder)), before, key, ":", Serialize(m.value, ByteOrder));
  }

  lemma MemberText(m: Member, key: string)
    requires key == "\"" + RenderStringTail(m.key)
    ensures RenderMember(m) == key + (":" + Render(m.value))
  {
  }

  // ----- collecting the members of an object

  /** Inserts members one by one and fails at the first key already present. */
  method VisitMap(members: seq<Member>) returns (r: Option<map<string, Value>>)
    ensures r.Some? <==> DistinctKeys(members)
    ensures r.Some? ==> forall key :: key in r.value <==> HasKey(members, key)
    ensures r.Some? ==> forall key | key in r.value :: Lookup(members, key) == Some(r.value[key])
  {
    var values: map<string, Value> := map[];
    assert members[..0] == [];
    for i := 0 to |members|
      invariant DistinctKeys(members[..i])
      invariant forall key :: key in values <==> HasKey(members[..i], key)
      invariant forall key | key in values :: Lookup(members[..i], key) == Some(values[key])
    {
      var m := members[i];
      assert members[..i + 1] == members[..i] + [m];
      if m.key in values {
        PrefixRepeats(members, i);
        return None;
      }
      SnocDistinct(members[..i], m);
      forall key
        ensures HasKey(members[..i + 1], key) <==> HasKey(members[..i], key) || key == m.key
        ensures Lookup(members[..i + 1], key)
                == if HasKey(members[..i], key) then Lookup(members[..i], key) else Lookup([m], key)
      {
        SnocLookup(members[..i], m, key);
      }
      values := values[m.key := m.value];
    }
    assert members[..|members|] == members;
    r := Some(values);
  }

  lemma {:induction false} SnocLookup(members: seq<Member>, m: Member, key: string)
    ensures HasKey(members + [m], key) <==> HasKey(members, key) || key == m.key
    ensures Lookup(members + [m], key) == if HasKey(members, key) then Lookup(members, key) else Lookup([m], key)
  {
    if members == [] {
      assert members + [m] == [m];
    } else {
      assert (members + [m])[1..] == members[1..] + [m];
      SnocLookup(members[1..], m, key);
    }
  }

  lemma {:induction false} SnocDistinct(members: seq<Member>, m: Member)
    ensures DistinctKeys(members + [m]) <==> DistinctKeys(members) && !HasKey(members, m.key)
  {
    if members == [] {
      assert members + [m] == [m];
    } else {
      assert (members + [m])[1..] == members[1..] + [m];
      SnocDistinct(members[1..], m);
      SnocLookup(members[1..], m, members[0].key);
    }
  }

  lemma {:induction false} AppendRepeats(a: seq<Member>, b: seq<Member>)
    requires !DistinctKeys(a)
    ensures !DistinctKeys(a + b)
  {
    assert (a + b)[1..] == a[1..] + b;
    if HasKey(a[1..], a[0].key) {
      AppendHasKey(a[1..], b, a[0].key);
    } else {
      AppendRepeats(a[1..], b);
    }
  }

  lemma {:induction false} AppendHasKey(a: seq<Member>, b: seq<Member>, key: string)
    requires HasKey(a, key)
    ensures HasKey(a + b, key)
  {
    assert (a + b)[1..] == a[1..] + b;
    if a[0].key != key {
      AppendHasKey(a[1..], b, key);
    }
  }

  lemma PrefixRepeats(members: seq<Member>, i: nat)
    requires i < |members| && HasKey(members[..i], members[i].key)
    ensures !DistinctKeys(members)
  {
    SnocDistinct(members[..i], members[i]);
    assert members == members[..i] + [members[i]] + members[i + 1..];
    AppendRepeats(members[..i] + [members[i]], members[i + 1..]);
  }
}
