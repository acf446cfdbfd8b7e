/**
 JSON values, their compact text, and the parser that reads them back (sections 4 and 5 of
 RFC 8259).  Objects keep their members in text order; how repeated keys are treated and how
 number tokens become values are the parser's policy.
 */
module Json {
  import opened Prelude
  import opened Decimal
  import opened JsonText

  datatype Value =
    | Null
    | Bool(b: bool)
    | Int(n: int)
    | Float(d: Decimal)
    | Str(s: string)
    | Arr(items: seq<Value>)
    | Obj(members: seq<Member>)

  datatype Member = Member(key: string, value: Value)

  // ----- text

  function IntegerToken(n: int): (t: Token)
    ensures WellFormedToken(t)
  {
    NatTextReads(Magnitude(n));
    Token(n < 0, NatText(Magnitude(n)), None, None)
  }

  /** The token of a number; one that is not a normalized decimal has none of its own. */
  function NumberToken(v: Value): (t: Token)
    requires v.Int? || v.Float?
    ensures WellFormedToken(t)
  {
    if v.Int? then IntegerToken(v.n)
    else if Normalized(v.d) then LayoutToken(v.d)
    else IntegerToken(0)
  }

  /** The compact text of a value, with every object in the order of its members. */
  function Render(v: Value): string {
    match v
    case Null => "null"
    case Bool(b) => if b then "true" else "false"
    case Int(_) => TokenText(NumberToken(v))
    case Float(_) => TokenText(NumberToken(v))
    case Str(s) => "\"" + RenderStringTail(s)
    case Arr(items) => "[" + (if items == [] then "]" else RenderItems(items))
    case Obj(members) => "{" + (if members == [] then "}" else RenderMembers(members))
  }

  function RenderItems(items: seq<Value>): string
    requires items != []
  {
    Render(items[0]) + (if |items| == 1 then "]" else "," + RenderItems(items[1..]))
  }

  function RenderMember(m: Member): string {
    "\"" + RenderStringTail(m.key) + ":" + Render(m.value)
  }

  function RenderMembers(members: seq<Member>): string
    requires members != []
  {
    RenderMember(members[0]) + (if |members| == 1 then "}" else "," + RenderMembers(members[1..]))
  }

  // ----- repeated keys

  predicate HasKey(members: seq<Member>, key: string) {
    members != [] && (members[0].key == key || HasKey(members[1..], key))
  }

  predicate DistinctKeys(members: seq<Member>) {
    members == [] || (!HasKey(members[1..], members[0].key) && DistinctKeys(members[1..]))
  }

  function Lookup(members: seq<Member>, key: string): (r: Option<Value>)
    ensures r.Some? == HasKey(members, key)
  {
    if members == [] then None
    else if members[0].key == key then Some(members[0].value)
    else Lookup(members[1..], key)
  }

  function Without(members: seq<Member>, key: string): (r: seq<Member>)
    ensures |r| <= |members|
  {
    if members == [] then []
    else if members[0].key == key then Without(members[1..], key)
    else [members[0]] + Without(members[1..], key)
  }

  // ----- the parser

  datatype Duplicates = Keep | Refuse | LastWins

  datatype Policy = Policy(duplicates: Duplicates, numbers: Token -> Option<Value>)

  /**
   Puts a member in front of the members read after it.  Where the last occurrence of a key
   wins, the entry keeps the place of the first one.
   */
  function AddMember(m: Member, later: seq<Member>, duplicates: Duplicates): Option<seq<Member>> {
    if duplicates.Keep? || !HasKey(later, m.key) then Some([m] + later)
    else if duplicates.Refuse? then None
    else Some([Member(m.key, Lookup(later, m.key).value)] + Without(later, m.key))
  }

  predicate IsBlank(c: char) {
    c == ' ' || c == '\t' || c == '\n' || c == '\r'
  }

  function SkipBlanks(s: string): (r: string)
    ensures |r| <= |s|
  {
    if s != [] && IsBlank(s[0]) then SkipBlanks(s[1..]) else s
  }

  /** The three literal names. */
  function ParseLiteral(s: string): (r: Option<Parsed<Value>>)
    ensures r.Some? ==> |r.value.rest| < |s|
  {
    if "null" <= s then Some(Parsed(Null, s[4..]))
    else if "true" <= s then Some(Parsed(Bool(true), s[4..]))
    else if "false" <= s then Some(Parsed(Bool(false), s[5..]))
    else None
  }

  /** The value at the front of `s`, nested at most `budget` containers deep. */
  function ParseValue(s: string, budget: nat, p: Policy): (r: Option<Parsed<Value>>)
    ensures r.Some? ==> |r.value.rest| < |s|
    decreases |s|, 3
  {
    var t := SkipBlanks(s);
    if t == [] then None else ParseToken(t, budget, p)
  }

  function ParseToken(s: string, budget: nat, p: Policy): (r: Option<Parsed<Value>>)
    requires s != []
    ensures r.Some? ==> |r.value.rest| < |s|
    decreases |s|, 2
  {
    if s[0] == '\"' then
      match ParseStringTail(s[1..])
      case None => None
      case Some(Parsed(text, rest)) => Some(Parsed(Str(text), rest))
    else if s[0] == '[' then (if budget == 0 then None else ParseArray(s[1..], budget - 1, p))
    else if s[0] == '{' then (if budget == 0 then None else ParseObject(s[1..], budget - 1, p))
    else if s[0] == '-' || IsDigit(s[0]) then
      match ScanNumber(s)
      case None => None
      case Some(Parsed(token, rest)) =>
        match p.numbers(token)
        case None => None
        case Some(v) => Some(Parsed(v, rest))
    else ParseLiteral(s)
  }

  /** The rest of an array after its opening bracket. */
  function ParseArray(s: string, budget: nat, p: Policy): (r: Option<Parsed<Value>>)
    ensures r.Some? ==> |r.value.rest| < |s|
    decreases |s|, 5
  {
    var t := SkipBlanks(s);
    if t != [] && t[0] == ']' then Some(Parsed(Arr([]), t[1..]))
    else
      match ParseItems(s, budget, p)
      case None => None
      case Some(Parsed(items, rest)) => Some(Parsed(Arr(items), rest))
  }

  function ParseItems(s: string, budget: nat, p: Policy): (r: Option<Parsed<seq<Value>>>)
    ensures r.Some? ==> |r.value.rest| < |s|
    decreases |s|, 4
  {
    match ParseValue(s, budget, p)
    case None => None
    case Some(Parsed(v, more)) =>
      var t := SkipBlanks(more);
      if t == [] then None
      else if t[0] == ']' then Some(Parsed([v], t[1..]))
      else if t[0] != ',' then None
      else
        match ParseItems(t[1..], budget, p)
        case None => None
        case Some(Parsed(items, rest)) => Some(Parsed([v] + items, rest))
  }

  /** The rest of an object after its opening brace. */
  function ParseObject(s: string, budget: nat, p: Policy): (r: Option<Parsed<Value>>)
    ensures r.Some? ==> |r.value.rest| < |s|
    decreases |s|, 5
  {
    var t := SkipBlanks(s);
    if t != [] && t[0] == '}' then Some(Parsed(Obj([]), t[1..]))
    else
      match ParseMembers(t, budget, p)
      case None => None
      case Some(Parsed(members, rest)) => Some(Parsed(Obj(members), rest))
  }

  /** A key, its colon, and the value after it. */
  function ParseMember(s: string, budget: nat, p: Policy): (r: Option<Parsed<Member>>)
    ensures r.Some? ==> |r.value.rest| < |s|
    decreases |s|, 3
  {
    if s == [] || s[0] != '\"' then None else
    match ParseStringTail(s[1..])
    case None => None
    case Some(Parsed(key, afterKey)) =>
      var t := SkipBlanks(afterKey);
      if t == [] || t[0] != ':' then None else
      match ParseValue(t[1..], budget, p)
      case None => None
      case Some(Parsed(v, rest)) => Some(Parsed(Member(key, v), rest))
  }

  function ParseMembers(s: string, budget: nat, p: Policy): (r: Option<Parsed<seq<Member>>>)
    ensures r.Some? ==> |r.value.rest| < |s|
    decreases |s|, 4
  {
    match ParseMember(s, budget, p)
    case None => None
    case Some(Parsed(m, more)) =>
      var t := SkipBlanks(more);
      if t == [] then None
      else if t[0] == '}' then
        (match AddMember(m, [], p.duplicates)
         case None => None
         case Some(members) => Some(Parsed(members, t[1..])))
      else if t[0] != ',' then None
      else
        match ParseMembers(SkipBlanks(t[1..]), budget, p)
        case None => None
        case Some(Parsed(later, rest)) =>
          match AddMember(m, later, p.duplicates)
          case None => None
          case Some(members) => Some(Parsed(members, rest))
  }

  /** Exactly one value, with blanks around it. */
  function ParseText(s: string, budget: nat, p: Policy): Option<Value> {
    match ParseValue(s, budget, p)
    case None => None
    case Some(Parsed(v, rest)) => if SkipBlanks(rest) == [] then Some(v) else None
  }
}
