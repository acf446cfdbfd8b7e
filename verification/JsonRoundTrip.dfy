/** Parsing the compact text of a value gives the value back, but for what the policy makes of its numbers. */
module JsonRoundTrip {
  import opened Prelude
  import opened Decimal
  import opened JsonText
  import opened Json

  // ----- the values whose text a parser with this nesting budget and policy can read

  predicate ReadableNumber(v: Value, p: Policy)
    requires v.Int? || v.Float?
  {
    p.numbers(NumberToken(v)).Some?
  }

  predicate Readable(v: Value, budget: nat, p: Policy) {
    match v
    case Null => true
    case Bool(_) => true
    case Int(_) => ReadableNumber(v, p)
    case Float(_) => ReadableNumber(v, p)
    case Str(_) => true
    case Arr(items) => budget > 0 && ReadableItems(items, budget - 1, p)
    case Obj(members) =>
      budget > 0 && ReadableMembers(members, budget - 1, p) && (p.duplicates.Keep? || DistinctKeys(members))
  }

  predicate ReadableItems(items: seq<Value>, budget: nat, p: Policy) {
    items == [] || (Readable(items[0], budget, p) && ReadableItems(items[1..], budget, p))
  }

  predicate ReadableMembers(members: seq<Member>, budget: nat, p: Policy) {
    members == [] || (Readable(members[0].value, budget, p) && ReadableMembers(members[1..], budget, p))
  }

  // ----- what the parser makes of the text of a value

  function RereadNumber(v: Value, p: Policy): Value
    requires v.Int? || v.Float?
  {
    match p.numbers(NumberToken(v))
    case None => Null
    case Some(w) => w
  }

  /** The value with every number read again from its token. */
  function Reread(v: Value, p: Policy): Value {
    match v
    case Int(_) => RereadNumber(v, p)
    case Float(_) => RereadNumber(v, p)
    case Arr(items) => Arr(RereadItems(items, p))
    case Obj(members) => Obj(RereadMembers(members, p))
    case _ => v
  }

  function RereadItems(items: seq<Value>, p: Policy): (r: seq<Value>)
    ensures |r| == |items|
  {
    if items == [] then [] else [Reread(items[0], p)] + RereadItems(items[1..], p)
  }

  function RereadMember(m: Member, p: Policy): Member {
    Member(m.key, Reread(m.value, p))
  }

  function RereadMembers(members: seq<Member>, p: Policy): (r: seq<Member>)
    ensures |r| == |members|
  {
    if members == [] then [] else [RereadMember(members[0], p)] + RereadMembers(members[1..], p)
  }

  lemma {:induction false} RereadHasKey(members: seq<Member>, p: Policy, key: string)
    ensures HasKey(RereadMembers(members, p), key) <==> HasKey(members, key)
  {
    if members != [] {
      RereadHasKey(members[1..], p, key);
    }
  }

  // ----- one layer of the parser at a time

  predicate ReadsAs(s: string, budget: nat, p: Policy, v: Value, rest: string) {
    ParseValue(s, budget, p) == Some(Parsed(v, rest))
  }

  predicate ReadsItems(s: string, budget: nat, p: Policy, items: seq<Value>, rest: string) {
    ParseItems(s, budget, p) == Some(Parsed(items, rest))
  }

  predicate ReadsMember(s: string, budget: nat, p: Policy, m: Member, rest: string) {
    ParseMember(s, budget, p) == Some(Parsed(m, rest))
  }

  predicate ReadsMembers(s: string, budget: nat, p: Policy, members: seq<Member>, rest: string) {
    ParseMembers(s, budget, p) == Some(Parsed(members, rest))
  }

  predicate Unblank(s: string) {
    s != [] && !IsBlank(s[0])
  }

  lemma TokenLayer(s: string, budget: nat, p: Policy)
    requires Unblank(s)
    ensures ParseValue(s, budget, p) == ParseToken(s, budget, p)
  {
    assert SkipBlanks(s) == s;
  }

  lemma StringReads(text: string, budget: nat, p: Policy, rest: string)
    ensures ReadsAs("\"" + RenderStringTail(text) + rest, budget, p, Str(text), rest)
  {
    var s := "\"" + RenderStringTail(text) + rest;
    assert s[1..] == RenderStringTail(text) + rest;
    TokenLayer(s, budget, p);
    StringRoundTrip(text, rest);
  }

  lemma TokenStarts(t: Token, rest: string)
    requires WellFormedToken(t)
    ensures var s := TokenText(t) + rest; s != [] && (s[0] == '-' || IsDigit(s[0]))
  {
  }

  lemma NumberReads(v: Value, budget: nat, p: Policy, rest: string)
    requires (v.Int? || v.Float?) && ReadableNumber(v, p) && Stops(rest)
    ensures ReadsAs(TokenText(NumberToken(v)) + rest, budget, p, RereadNumber(v, p), rest)
  {
    var t := NumberToken(v);
    TokenStarts(t, rest);
    TokenLayer(TokenText(t) + rest, budget, p);
    TokenRoundTrip(t, rest);
  }

  lemma LiteralReads(v: Value, budget: nat, p: Policy, rest: string)
    requires v.Null? || v.Bool?
    ensures ReadsAs(Render(v) + rest, budget, p, v, rest)
  {
    var s := Render(v) + rest;
    TokenLayer(s, budget, p);
    assert s[0] == Render(v)[0] && s[1] == Render(v)[1];
    assert Render(v) <= s && s[|Render(v)|..] == rest;
  }

  lemma ArrayLayer(s: string, body: string, budget: nat, p: Policy, items: seq<Value>, rest: string)
    requires budget > 0 && s == "[" + body
    requires if items == [] then body == "]" + rest
             else Unblank(body) && body[0] != ']' && ReadsItems(body, budget - 1, p, items, rest)
    ensures ReadsAs(s, budget, p, Arr(items), rest)
  {
    TokenLayer(s, budget, p);
    assert s[1..] == body;
    assert SkipBlanks(body) == body;
    assert ParseToken(s, budget, p) == ParseArray(body, budget - 1, p);
    if items == [] {
      assert body[1..] == rest;
    }
  }

  lemma ObjectLayer(s: string, body: string, budget: nat, p: Policy, members: seq<Member>, rest: string)
    requires budget > 0 && s == "{" + body
    requires if members == [] then body == "}" + rest
             else Unblank(body) && body[0] != '}' && ReadsMembers(body, budget - 1, p, members, rest)
    ensures ReadsAs(s, budget, p, Obj(members), rest)
  {
    TokenLayer(s, budget, p);
    assert s[1..] == body;
    assert SkipBlanks(body) == body;
    assert ParseToken(s, budget, p) == ParseObject(body, budget - 1, p);
    if members == [] {
      assert body[1..] == rest;
    }
  }

  lemma LastItem(s: string, budget: nat, p: Policy, v: Value, rest: string)
    requires ReadsAs(s, budget, p, v, "]" + rest)
    ensures ReadsItems(s, budget, p, [v], rest)
  {
    var t := "]" + rest;
    assert SkipBlanks(t) == t && t[1..] == rest;
  }

  lemma NextItem(s: string, budget: nat, p: Policy, v: Value, more: string, items: seq<Value>, rest: string)
    requires ReadsAs(s, budget, p, v, "," + more)
    requires ReadsItems(more, budget, p, items, rest)
    ensures ReadsItems(s, budget, p, [v] + items, rest)
  {
    var t := "," + more;
    assert SkipBlanks(t) == t && t[1..] == more;
  }

  lemma MemberLayer(s: string, budget: nat, p: Policy, m: Member, afterKey: string, rest: string)
    requires s == "\"" + (RenderStringTail(m.key) + (":" + afterKey))
    requires ReadsAs(afterKey, budget, p, m.value, rest)
    ensures ReadsMember(s, budget, p, m, rest)
  {
    var t := ":" + afterKey;
    assert s[1..] == RenderStringTail(m.key) + t;
    StringRoundTrip(m.key, t);
    assert SkipBlanks(t) == t && t[1..] == afterKey;
  }

  lemma LastMember(s: string, budget: nat, p: Policy, m: Member, rest: string)
    requires ReadsMember(s, budget, p, m, "}" + rest)
    ensures ReadsMembers(s, budget, p, [m], rest)
  {
    var t := "}" + rest;
    assert SkipBlanks(t) == t && t[1..] == rest;
    assert [m] + [] == [m];
  }

  lemma NextMember(s: string, budget: nat, p: Policy, m: Member, more: string, later: seq<Member>, rest: string)
    requires ReadsMember(s, budget, p, m, "," + more)
    requires Unblank(more) && ReadsMembers(more, budget, p, later, rest)
    requires p.duplicates.Keep? || !HasKey(later, m.key)
    ensures ReadsMembers(s, budget, p, [m] + later, rest)
  {
    var t := "," + more;
    assert SkipBlanks(t) == t && t[1..] == more;
    assert SkipBlanks(more) == more;
  }

  lemma RenderStarts(v: Value)
    ensures Unblank(Render(v)) && Render(v)[0] != ']'
  {
    if v.Int? || v.Float? {
      var t := NumberToken(v);
      assert Render(v)[0] == '-' || Render(v)[0] == t.integer[0];
    }
  }

  lemma MembersStart(members: seq<Member>)
    requires members != []
    ensures RenderMembers(members) != [] && RenderMembers(members)[0] == '\"'
  {
    assert RenderMember(members[0])[0] == '\"';
  }

  // ----- the induction

  /** Parsing the text of a readable value gives the reread value and leaves what follows it. */
  lemma {:induction false} ValueReads(v: Value, budget: nat, p: Policy, rest: string)
    requires Readable(v, budget, p) && Stops(rest)
    ensures ReadsAs(Render(v) + rest, budget, p, Reread(v, p), rest)
    decreases v, 0
  {
    match v
    case Null => LiteralReads(v, budget, p, rest);
    case Bool(_) => LiteralReads(v, budget, p, rest);
    case Int(_) => NumberReads(v, budget, p, rest);
    case Float(_) => NumberReads(v, budget, p, rest);
    case Str(s) => StringReads(s, budget, p, rest);
    case Arr(items) => ArrayReads(items, budget, p, rest);
    case Obj(members) => ObjectReads(members, budget, p, rest);
  }

  lemma {:induction false} ArrayReads(items: seq<Value>, budget: nat, p: Policy, rest: string)
    requires budget > 0 && ReadableItems(items, budget - 1, p)
    ensures ReadsAs(Render(Arr(items)) + rest, budget, p, Arr(RereadItems(items, p)), rest)
    decreases items, 1
  {
    if items == [] {
      assert Render(Arr(items)) + rest == "[" + ("]" + rest);
      ArrayLayer(Render(Arr(items)) + rest, "]" + rest, budget, p, [], rest);
    } else {
      var body := RenderItems(items) + rest;
      assert Render(Arr(items)) + rest == "[" + body;
      ItemsRead(items, budget - 1, p, rest);
      RenderStarts(items[0]);
      assert body[0] == Render(items[0])[0];
      ArrayLayer(Render(Arr(items)) + rest, body, budget, p, RereadItems(items, p), rest);
    }
  }

  lemma {:induction false} ItemsRead(items: seq<Value>, budget: nat, p: Policy, rest: string)
    requires items != [] && ReadableItems(items, budget, p)
    ensures ReadsItems(RenderItems(items) + rest, budget, p, RereadItems(items, p), rest)
    decreases items, 0
  {
    var s := RenderItems(items) + rest;
    if |items| == 1 {
      assert s == Render(items[0]) + ("]" + rest);
      ValueReads(items[0], budget, p, "]" + rest);
      LastItem(s, budget, p, Reread(items[0], p), rest);
      assert RereadItems(items, p) == [Reread(items[0], p)];
    } else {
      var more := RenderItems(items[1..]) + rest;
      assert s == Render(items[0]) + ("," + more);
      ValueReads(items[0], budget, p, "," + more);
      ItemsRead(items[1..], budget, p, rest);
      NextItem(s, budget, p, Reread(items[0], p), more, RereadItems(items[1..], p), rest);
    }
  }

  lemma {:induction false} ObjectReads(members: seq<Member>, budget: nat, p: Policy, rest: string)
    requires budget > 0 && ReadableMembers(members, budget - 1, p) && (p.duplicates.Keep? || DistinctKeys(members))
    ensures ReadsAs(Render(Obj(members)) + rest, budget, p, Obj(RereadMembers(members, p)), rest)
    decreases members, 1
  {
    if members == [] {
      assert Render(Obj(members)) + rest == "{" + ("}" + rest);
      ObjectLayer(Render(Obj(members)) + rest, "}" + rest, budget, p, [], rest);
    } else {
      var body := RenderMembers(members) + rest;
      assert Render(Obj(members)) + rest == "{" + body;
      MembersRead(members, budget - 1, p, rest);
      MembersStart(members);
      ObjectLayer(Render(Obj(members)) + rest, body, budget, p, RereadMembers(members, p), rest);
    }
  }

  lemma {:induction false} MembersRead(members: seq<Member>, budget: nat, p: Policy, rest: string)
    requires members != [] && ReadableMembers(members, budget, p) && (p.duplicates.Keep? || DistinctKeys(members))
    ensures ReadsMembers(RenderMembers(members) + rest, budget, p, RereadMembers(members, p), rest)
    decreases members, 0
  {
    var s, m := RenderMembers(members) + rest, members[0];
    if |members| == 1 {
      var tail := "}" + rest;
      assert s == RenderMember(m) + tail;
      ValueReads(m.value, budget, p, tail);
      MemberReads(m, budget, p, tail);
      LastMember(s, budget, p, RereadMember(m, p), rest);
      assert RereadMembers(members, p) == [RereadMember(m, p)];
    } else {
      var more := RenderMembers(members[1..]) + rest;
      var tail := "," + more;
      assert s == RenderMember(m) + tail;
      ValueReads(m.value, budget, p, tail);
      MemberReads(m, budget, p, tail);
      MembersRead(members[1..], budget, p, rest);
      MembersStart(members[1..]);
      RereadHasKey(members[1..], p, m.key);
      NextMember(s, budget, p, RereadMember(m, p), more, RereadMembers(members[1..], p), rest);
    }
  }

  lemma MemberText(key: string, value: string, rest: string)
    ensures "\"" + key + ":" + value + rest == "\"" + (key + (":" + (value + rest)))
  {
  }

  lemma MemberReads(m: Member, budget: nat, p: Policy, rest: string)
    requires ReadsAs(Render(m.value) + rest, budget, p, Reread(m.value, p), rest)
    ensures ReadsMember(RenderMember(m) + rest, budget, p, RereadMember(m, p), rest)
  {
    var afterKey := Render(m.value) + rest;
    MemberText(RenderStringTail(m.key), Render(m.value), rest);
    MemberLayer(RenderMember(m) + rest, budget, p, RereadMember(m, p), afterKey, rest);
  }

  /** A whole text: the parser inverts rendering, but for what it makes of the numbers. */
  lemma TextRoundTrip(v: Value, budget: nat, p: Policy)
    requires Readable(v, budget, p)
    ensures ParseText(Render(v), budget, p) == Some(Reread(v, p))
  {
    assert Render(v) + [] == Render(v);
    ValueReads(v, budget, p, []);
  }
}
