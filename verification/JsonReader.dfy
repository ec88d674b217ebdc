/** A reader for RFC 8259, and the theorems that tie both printers to it. */
module JsonReader {
  import opened Json
  import opened Wrappers

  datatype Token = Mark(c: CodeUnit) | Literal(s: Text) | NumberToken(literal: Text) | Word(w: Value)

  // ----- lexing, sections 2 and 7 of RFC 8259

  predicate IsSpace(c: CodeUnit) {
    c in {0x20, 0x09, 0x0a, 0x0d}
  }

  predicate IsMark(c: CodeUnit) {
    c in {LBRACKET, RBRACKET, LBRACE, RBRACE, COLON, COMMA}
  }

  function HexValue(c: CodeUnit): Option<int> {
    if IsDigit(c) then Some(c - 0x30)
    else if 0x61 <= c <= 0x66 then Some(c - 0x61 + 10)
    else if 0x41 <= c <= 0x46 then Some(c - 0x41 + 10)
    else None
  }

  function Unhex4(t: Text): (r: Option<CodeUnit>)
    requires |t| >= 4
  {
    var a, b, c, d := HexValue(t[0]), HexValue(t[1]), HexValue(t[2]), HexValue(t[3]);
    if a.Some? && b.Some? && c.Some? && d.Some? then
      var n := 4096 * a.value + 256 * b.value + 16 * c.value + d.value;
      if 0 <= n < 0x1_0000 then Some(n) else None
    else None
  }

  /** The characters up to the closing quotation mark, and the rest after it. */
  function ReadString(t: Text): (r: Option<(Text, Text)>)
    ensures r.Some? ==> |r.value.1| < |t|
    decreases |t|
  {
    if t == [] || t[0] < 0x20 then None
    else if t[0] == QUOTE then Some(([], t[1..]))
    else
      var first: Option<(CodeUnit, Text)> :=
        if t[0] != BACKSLASH then Some((t[0], t[1..]))
        else if |t| < 2 then None
        else if t[1] in {QUOTE, BACKSLASH, 0x2f} then Some((t[1], t[2..]))
        else if t[1] == 0x62 then Some((0x08, t[2..]))
        else if t[1] == 0x66 then Some((0x0c, t[2..]))
        else if t[1] == 0x6e then Some((0x0a, t[2..]))
        else if t[1] == 0x72 then Some((0x0d, t[2..]))
        else if t[1] == 0x74 then Some((0x09, t[2..]))
        else if t[1] == 0x75 && |t| >= 6 && Unhex4(t[2..6]).Some? then Some((Unhex4(t[2..6]).value, t[6..]))
        else None;
      if first.None? then None
      else
        var more := ReadString(first.value.1);
        if more.None? then None else Some(([first.value.0] + more.value.0, more.value.1))
  }

  /** The longest run of characters that occur in numbers. */
  function NumberRun(t: Text): (r: Text)
    ensures r <= t
  {
    if t != [] && IsNumberChar(t[0]) then [t[0]] + NumberRun(t[1..]) else []
  }

  function Prepend(k: Token, ks: Option<seq<Token>>): Option<seq<Token>> {
    if ks.Some? then Some([k] + ks.value) else None
  }

  function Lex(t: Text): Option<seq<Token>>
    decreases |t|
  {
    if t == [] then Some([])
    else if IsSpace(t[0]) then Lex(t[1..])
    else if IsMark(t[0]) then Prepend(Mark(t[0]), Lex(t[1..]))
    else if t[0] == QUOTE then
      var s := ReadString(t[1..]);
      if s.None? then None else Prepend(Literal(s.value.0), Lex(s.value.1))
    else if NULL <= t then Prepend(Word(Null), Lex(t[4..]))
    else if TRUE <= t then Prepend(Word(Bool(true)), Lex(t[4..]))
    else if FALSE <= t then Prepend(Word(Bool(false)), Lex(t[5..]))
    else if IsNumber(NumberRun(t)) then Prepend(NumberToken(NumberRun(t)), Lex(t[|NumberRun(t)|..]))
    else None
  }

  // ----- parsing, sections 3 to 5 of RFC 8259

  type Parsed<T> = Option<(T, seq<Token>)>

  function ParseValue(ts: seq<Token>): (r: Parsed<Value>)
    ensures r.Some? ==> |r.value.1| < |ts|
    decreases |ts|, 0
  {
    if ts == [] then None
    else match ts[0]
      case Word(w) => Some((w, ts[1..]))
      case NumberToken(l) => Some((Number(l), ts[1..]))
      case Literal(s) => Some((String(s), ts[1..]))
      case Mark(c) =>
        if c == LBRACKET then
          if |ts| > 1 && ts[1] == Mark(RBRACKET) then Some((Array([]), ts[2..]))
          else
            var items := ParseItems(ts[1..]);
            if items.None? then None else Some((Array(items.value.0), items.value.1))
        else if c == LBRACE then
          if |ts| > 1 && ts[1] == Mark(RBRACE) then Some((Object([]), ts[2..]))
          else
            var members := ParseMembers(ts[1..]);
            if members.None? then None else Some((Object(members.value.0), members.value.1))
        else None
  }

  /** One or more values between commas, up to the closing bracket. */
  function ParseItems(ts: seq<Token>): (r: Parsed<seq<Value>>)
    ensures r.Some? ==> |r.value.1| < |ts|
    decreases |ts|, 1
  {
    var v := ParseValue(ts);
    if v.None? || v.value.1 == [] then None
    else if v.value.1[0] == Mark(RBRACKET) then Some(([v.value.0], v.value.1[1..]))
    else if v.value.1[0] != Mark(COMMA) then None
    else
      var more := ParseItems(v.value.1[1..]);
      if more.None? then None else Some(([v.value.0] + more.value.0, more.value.1))
  }

  function ParseMembers(ts: seq<Token>): (r: Parsed<seq<Member>>)
    ensures r.Some? ==> |r.value.1| < |ts|
    decreases |ts|, 1
  {
    if |ts| < 2 || !ts[0].Literal? || ts[1] != Mark(COLON) then None
    else
      var v := ParseValue(ts[2..]);
      if v.None? || v.value.1 == [] then None
      else
        var m := Member(ts[0].s, v.value.0);
        if v.value.1[0] == Mark(RBRACE) then Some(([m], v.value.1[1..]))
        else if v.value.1[0] != Mark(COMMA) then None
        else
          var more := ParseMembers(v.value.1[1..]);
          if more.None? then None else Some(([m] + more.value.0, more.value.1))
  }

  /** A JSON text is one value. */
  function Parse(t: Text): Option<Value> {
    var ts := Lex(t);
    if ts.None? then None
    else
      var v := ParseValue(ts.value);
      if v.Some? && v.value.1 == [] then Some(v.value.0) else None
  }

  // ----- the tokens of a tree

  function Tokens(v: Value): seq<Token> {
    match v
    case Null => [Word(Null)]
    case Bool(b) => [Word(Bool(b))]
    case Number(l) => [NumberToken(l)]
    case NotFinite => [Word(Null)]
    case String(s) => [Literal(s)]
    case Array(items) => [Mark(LBRACKET)] + ItemTokens(items, []) + [Mark(RBRACKET)]
    case Object(members) => [Mark(LBRACE)] + MemberTokens(members, []) + [Mark(RBRACE)]
  }

  function ItemTokens(items: seq<Value>, sep: seq<Token>): seq<Token> {
    if items == [] then [] else sep + Tokens(items[0]) + ItemTokens(items[1..], [Mark(COMMA)])
  }

  function MemberTokens(members: seq<Member>, sep: seq<Token>): seq<Token> {
    if members == [] then []
    else
      sep + [Literal(members[0].name), Mark(COLON)] + Tokens(members[0].value) + MemberTokens(members[1..], [Mark(COMMA)])
  }

  lemma TokensStart(v: Value)
    ensures Tokens(v) != [] && Tokens(v)[0] !in {Mark(RBRACKET), Mark(RBRACE), Mark(COMMA)}
  {
  }

  // ----- parsing the tokens gives the tree

  lemma {:induction false} ParseTokens(v: Value, rest: seq<Token>)
    ensures ParseValue(Tokens(v) + rest) == Some((Meaning(v), rest))
    decreases v
  {
    match v
    case Array(items) =>
      hide ParseValue, ParseItems;
      if items == [] {
        ParseEmpty(rest);
        assert Tokens(v) + rest == [Mark(LBRACKET), Mark(RBRACKET)] + rest;
      } else {
        ParseItemTokens(items, rest);
        TokensStart(items[0]);
        assert ItemTokens(items, [])[0] == Tokens(items[0])[0];
        ParseFilledArray(ItemTokens(items, []), MeaningItems(items), rest);
      }
    case Object(members) =>
      hide ParseValue, ParseMembers;
      if members == [] {
        ParseEmpty(rest);
        assert Tokens(v) + rest == [Mark(LBRACE), Mark(RBRACE)] + rest;
      } else {
        ParseMemberTokens(members, rest);
        assert MemberTokens(members, [])[0] == Literal(members[0].name);
        ParseFilledObject(MemberTokens(members, []), MeaningMembers(members), rest);
      }
    case _ => assert (Tokens(v) + rest)[1..] == rest;
  }

  lemma ParseEmpty(rest: seq<Token>)
    ensures ParseValue([Mark(LBRACKET), Mark(RBRACKET)] + rest) == Some((Array([]), rest))
    ensures ParseValue([Mark(LBRACE), Mark(RBRACE)] + rest) == Some((Object([]), rest))
  {
    assert ([Mark(LBRACKET), Mark(RBRACKET)] + rest)[2..] == rest;
    assert ([Mark(LBRACE), Mark(RBRACE)] + rest)[2..] == rest;
  }

  lemma ParseFilledArray(inner: seq<Token>, items: seq<Value>, rest: seq<Token>)
    requires inner != [] && inner[0] != Mark(RBRACKET)
    requires ParseItems(inner + [Mark(RBRACKET)] + rest) == Some((items, rest))
    ensures ParseValue([Mark(LBRACKET)] + inner + [Mark(RBRACKET)] + rest) == Some((Array(items), rest))
  {
    hide ParseItems;
    var ts := [Mark(LBRACKET)] + inner + [Mark(RBRACKET)] + rest;
    assert ts[1..] == inner + [Mark(RBRACKET)] + rest && ts[1] == inner[0];
  }

  lemma ParseFilledObject(inner: seq<Token>, members: seq<Member>, rest: seq<Token>)
    requires inner != [] && inner[0] != Mark(RBRACE)
    requires ParseMembers(inner + [Mark(RBRACE)] + rest) == Some((members, rest))
    ensures ParseValue([Mark(LBRACE)] + inner + [Mark(RBRACE)] + rest) == Some((Object(members), rest))
  {
    hide ParseMembers;
    var ts := [Mark(LBRACE)] + inner + [Mark(RBRACE)] + rest;
    assert ts[1..] == inner + [Mark(RBRACE)] + rest && ts[1] == inner[0];
  }

  lemma {:induction false} ParseItemTokens(items: seq<Value>, rest: seq<Token>)
    requires items != []
    ensures ParseItems(ItemTokens(items, []) + [Mark(RBRACKET)] + rest) == Some((MeaningItems(items), rest))
    decreases items
  {
    var more := ItemTokens(items[1..], [Mark(COMMA)]) + [Mark(RBRACKET)] + rest;
    ParseTokens(items[0], more);
    assert ItemTokens(items, []) + [Mark(RBRACKET)] + rest == Tokens(items[0]) + more;
    if items[1..] == [] {
      assert more[0] == Mark(RBRACKET) && more[1..] == rest;
      assert MeaningItems(items) == [Meaning(items[0])];
    } else {
      ParseItemTokens(items[1..], rest);
      assert ItemTokens(items[1..], [Mark(COMMA)]) == [Mark(COMMA)] + ItemTokens(items[1..], []);
      assert more[1..] == ItemTokens(items[1..], []) + [Mark(RBRACKET)] + rest;
    }
  }

  lemma ParseMember(name: Text, ts: seq<Token>, v: Value, more: seq<Token>)
    requires ParseValue(ts) == Some((v, more)) && more != [] && more[0] in {Mark(RBRACE), Mark(COMMA)}
    ensures ParseMembers([Literal(name), Mark(COLON)] + ts) ==
      if more[0] == Mark(RBRACE) then Some(([Member(name, v)], more[1..]))
      else
        var r := ParseMembers(more[1..]);
        if r.None? then None else Some(([Member(name, v)] + r.value.0, r.value.1))
  {
    assert ([Literal(name), Mark(COLON)] + ts)[2..] == ts;
  }

  lemma {:induction false} ParseMemberTokens(members: seq<Member>, rest: seq<Token>)
    requires members != []
    ensures ParseMembers(MemberTokens(members, []) + [Mark(RBRACE)] + rest) == Some((MeaningMembers(members), rest))
    decreases members
  {
    hide ParseMembers, ParseValue, Tokens, Meaning;
    var m := members[0];
    var more := MemberTokens(members[1..], [Mark(COMMA)]) + [Mark(RBRACE)] + rest;
    ParseTokens(m.value, more);
    assert MemberTokens(members, []) + [Mark(RBRACE)] + rest == [Literal(m.name), Mark(COLON)] + (Tokens(m.value) + more);
    ParseMember(m.name, Tokens(m.value) + more, Meaning(m.value), more);
    if members[1..] == [] {
      assert more[1..] == rest;
      assert MeaningMembers(members) == [Member(m.name, Meaning(m.value))];
    } else {
      ParseMemberTokens(members[1..], rest);
      assert MemberTokens(members[1..], [Mark(COMMA)]) == [Mark(COMMA)] + MemberTokens(members[1..], []);
      assert more[1..] == MemberTokens(members[1..], []) + [Mark(RBRACE)] + rest;
    }
  }
}
