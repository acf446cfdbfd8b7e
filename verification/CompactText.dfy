/**
 The canonical text is compact: no blank outside a string, the shortest escape for every character,
 and lowercase hexadecimal digits.
 */
module CompactText {
  import opened Prelude
  import opened Decimal
  import opened JsonText
  import opened Json
  import opened Canonical
  import Hex

  /** Where a reader is: outside strings, inside one, or after its reverse solidus. */
  datatype Mode = Outside | Inside | Escaped

  /** The mode after a character; a blank outside strings has none. */
  function Next(mode: Mode, c: char): Option<Mode> {
    match mode
    case Outside =>
      if c == ' ' || c == '\t' || c == '\n' || c == '\r' then None
      else Some(if c == '\"' then Inside else Outside)
    case Inside => Some(if c == '\"' then Outside else if c == '\\' then Escaped else Inside)
    case Escaped => Some(Inside)
  }

  function Walk(s: string, mode: Mode): Option<Mode> {
    if s == [] then Some(mode)
    else
      match Next(mode, s[0])
      case None => None
      case Some(next) => Walk(s[1..], next)
  }

  lemma {:induction false} WalkAppend(s: string, t: string, mode: Mode)
    ensures Walk(s + t, mode) == match Walk(s, mode) case None => None case Some(m) => Walk(t, m)
  {
    if s == [] {
      assert s + t == t;
    } else {
      assert (s + t)[1..] == s[1..] + t;
      if Next(mode, s[0]).Some? {
        WalkAppend(s[1..], t, Next(mode, s[0]).value);
      }
    }
  }

  lemma Through(s: string, t: string, mode: Mode, m: Mode)
    requires Walk(s, mode) == Some(m)
    ensures Walk(s + t, mode) == Walk(t, m)
  {
    WalkAppend(s, t, mode);
  }

  lemma OneChar(c: char, mode: Mode)
    ensures Walk([c], mode) == Next(mode, c)
  {
    if Next(mode, c).Some? {
      assert [c][1..] == [];
    }
  }

  // ----- strings

  lemma EscapeWalks(c: char)
    ensures Walk(EscapeChar(c), Inside) == Some(Inside)
  {
    var e := EscapeChar(c);
    if |e| == 1 {
      OneChar(c, Inside);
    } else if |e| == 2 {
      assert e[1..] == [e[1]];
      OneChar(e[1], Escaped);
    } else {
      UnicodeWalks(e);
    }
  }

  lemma UnicodeWalks(e: string)
    requires |e| == 6 && e[0] == '\\' && forall i | 1 <= i < 6 :: e[i] != '\"' && e[i] != '\\'
    ensures Walk(e, Inside) == Some(Inside)
  {
    assert Walk(e[6..], Inside) == Some(Inside);
    assert e[5..][1..] == e[6..] && e[4..][1..] == e[5..] && e[3..][1..] == e[4..] && e[2..][1..] == e[3..];
    assert e[1..][1..] == e[2..];
    assert Walk(e[2..], Inside) == Walk(e[3..], Inside) == Walk(e[4..], Inside) == Walk(e[5..], Inside);
  }

  lemma {:induction false} TailWalks(s: string)
    ensures Walk(RenderStringTail(s), Inside) == Some(Outside)
  {
    if s == [] {
      OneChar('\"', Inside);
    } else {
      EscapeWalks(s[0]);
      TailWalks(s[1..]);
      Through(EscapeChar(s[0]), RenderStringTail(s[1..]), Inside, Inside);
    }
  }

  lemma StringWalks(s: string)
    ensures Walk("\"" + RenderStringTail(s), Outside) == Some(Outside)
  {
    OneChar('\"', Outside);
    Through("\"", RenderStringTail(s), Outside, Inside);
    TailWalks(s);
  }

  // ----- numbers and names

  predicate IsPlainChar(c: char) {
    c != '\"' && c != ' ' && c != '\t' && c != '\n' && c != '\r'
  }

  lemma {:induction false} PlainWalks(s: string)
    requires forall i | 0 <= i < |s| :: IsPlainChar(s[i])
    ensures Walk(s, Outside) == Some(Outside)
  {
    if s != [] {
      PlainWalks(s[1..]);
    }
  }

  lemma NumberWalks(v: Value)
    requires v.Int? || v.Float?
    ensures Walk(Render(v), Outside) == Some(Outside)
  {
    var t := NumberToken(v);
    PlainWalks(if t.negative then "-" else "");
    PlainWalks(t.integer);
    PlainWalks(FractionText(t.fraction));
    PlainWalks(ExponentText(t.exponent));
    var sign := if t.negative then "-" else "";
    Through(sign, t.integer, Outside, Outside);
    Through(sign + t.integer, FractionText(t.fraction), Outside, Outside);
    Through(sign + t.integer + FractionText(t.fraction), ExponentText(t.exponent), Outside, Outside);
  }

  // ----- values

  /** No blank stands outside a string in the text of a value. */
  lemma {:induction false} TextIsCompact(v: Value)
    ensures Walk(Render(v), Outside) == Some(Outside)
    decreases v, 0
  {
    match v
    case Null => PlainWalks("null");
    case Bool(b) => PlainWalks(if b then "true" else "false");
    case Int(_) => NumberWalks(v);
    case Float(_) => NumberWalks(v);
    case Str(s) => StringWalks(s);
    case Arr(items) =>
      PlainWalks("[");
      if items == [] {
        PlainWalks("]");
        Through("[", "]", Outside, Outside);
      } else {
        ItemsAreCompact(items);
        Through("[", RenderItems(items), Outside, Outside);
      }
    case Obj(members) =>
      PlainWalks("{");
      if members == [] {
        PlainWalks("}");
        Through("{", "}", Outside, Outside);
      } else {
        MembersAreCompact(members);
        Through("{", RenderMembers(members), Outside, Outside);
      }
  }

  lemma {:induction false} ItemsAreCompact(items: seq<Value>)
    requires items != []
    ensures Walk(RenderItems(items), Outside) == Some(Outside)
    decreases items, 0
  {
    TextIsCompact(items[0]);
    if |items| == 1 {
      PlainWalks("]");
      Through(Render(items[0]), "]", Outside, Outside);
    } else {
      ItemsAreCompact(items[1..]);
      PlainWalks(",");
      Through(",", RenderItems(items[1..]), Outside, Outside);
      Through(Render(items[0]), "," + RenderItems(items[1..]), Outside, Outside);
    }
  }

  lemma MemberIsCompact(m: Member)
    requires Walk(Render(m.value), Outside) == Some(Outside)
    ensures Walk(RenderMember(m), Outside) == Some(Outside)
  {
    var key := "\"" + RenderStringTail(m.key);
    StringWalks(m.key);
    PlainWalks(":");
    Through(key, ":", Outside, Outside);
    Through(key + ":", Render(m.value), Outside, Outside);
  }

  lemma {:induction false} MembersAreCompact(members: seq<Member>)
    requires members != []
    ensures Walk(RenderMembers(members), Outside) == Some(Outside)
    decreases members, 0
  {
    TextIsCompact(members[0].value);
    MemberIsCompact(members[0]);
    if |members| == 1 {
      PlainWalks("}");
      Through(RenderMember(members[0]), "}", Outside, Outside);
    } else {
      MembersAreCompact(members[1..]);
      PlainWalks(",");
      Through(",", RenderMembers(members[1..]), Outside, Outside);
      Through(RenderMember(members[0]), "," + RenderMembers(members[1..]), Outside, Outside);
    }
  }

  /** In particular the canonical text has none, nor any control character. */
  lemma CanonicalTextIsCompact(v: Value, order: KeyOrder)
    ensures Walk(Serialize(v, order), Outside) == Some(Outside)
    ensures forall i | 0 <= i < |Serialize(v, order)| :: Serialize(v, order)[i] as int >= 0x20
  {
    TextIsCompact(Canon(v, order));
    RenderNoControls(Canon(v, order));
  }

  // ----- escapes

  /** No text that stands for a character in a string is shorter than its escape. */
  lemma EscapeIsShortest(c: char, text: string)
    requires text != "" && text[0] != '\"' && ParseStringChar(text) == Some(Parsed(c, []))
    ensures |EscapeChar(c)| <= |text|
  {
    var x := c as int;
    if |text| == 1 {
      assert text == [c];
    }
  }

  /** And its hexadecimal digits, if any, are lowercase. */
  lemma EscapeIsLowercase(c: char)
    requires |EscapeChar(c)| == 6
    ensures EscapeChar(c)[..4] == "\\u00" && Hex.IsLowerHex(EscapeChar(c)[4..], 2)
  {
    assert EscapeChar(c)[4..] == [Hex.HexChar(c as int / 16), Hex.HexChar(c as int % 16)];
  }
}
