/** The printers as the source has them: recursive methods that append to one buffer. */
module JsonPrinters {
  import opened Json
  import opened JsonRoundTrip
  import opened Wrappers

  class StringBuffer {
    var text: Text

    constructor ()
      ensures text == []
    {
      text := [];
    }

    method Append(t: Text)
      modifies this
      ensures text == old(text) + t
    {
      text := text + t;
    }
  }

  lemma {:induction false} EscapeMore(s: Text, c: CodeUnit)
    ensures Escape(s + [c]) == Escape(s) + EscapeChar(c)
  {
    hide EscapeChar;
    if s == [] {
      assert [] + [c] == [c] && [c][1..] == [];
    } else {
      assert (s + [c])[1..] == s[1..] + [c];
      EscapeMore(s[1..], c);
      Assoc(EscapeChar(s[0]), Escape(s[1..]), EscapeChar(c));
    }
  }

  method SerializeString(s: Text, b: StringBuffer)
    modifies b
    ensures b.text == old(b.text) + Quoted(s)
  {
    b.Append([QUOTE]);
    for i := 0 to |s|
      invariant b.text == old(b.text) + [QUOTE] + Escape(s[..i])
    {
      assert s[..i + 1] == s[..i] + [s[i]];
      EscapeMore(s[..i], s[i]);
      b.Append(EscapeChar(s[i]));
    }
    assert s[..|s|] == s;
    b.Append([QUOTE]);
  }

  method Serialize(v: Value, b: StringBuffer)
    modifies b
    ensures b.text == old(b.text) + Compact(v)
    decreases v, 0
  {
    match v
    case Null => b.Append(NULL);
    case Bool(x) => b.Append(if x then TRUE else FALSE);
    case Number(l) => b.Append(l);
    case NotFinite => b.Append(NULL);
    case String(s) => SerializeString(s, b);
    case Array(items) => SerializeArray(items, b);
    case Object(members) => SerializeObject(members, b);
  }

  lemma Append3(t: Text, a: Text, b: Text, c: Text)
    ensures t + (a + b + c) == t + a + b + c
  {
    Assoc(t, a + b, c);
    Assoc(t, a, b);
  }

  lemma Append5(t: Text, a: Text, b: Text, c: Text, d: Text, e: Text)
    ensures t + (a + b + c + d + e) == t + a + b + c + d + e
  {
    Append3(t, a + b + c, d, e);
    Append3(t, a, b, c);
  }

  method SerializeArray(items: seq<Value>, b: StringBuffer)
    modifies b
    ensures b.text == old(b.text) + ([LBRACKET] + CompactItems(items, []) + [RBRACKET])
    decreases items, 1
  {
    b.Append([LBRACKET]);
    ghost var start := b.text;
    var d: Text := [];
    for e := 0 to |items|
      invariant b.text + CompactItems(items[e..], d) == start + CompactItems(items, [])
    {
      assert items[e..][1..] == items[e + 1..];
      Append3(b.text, d, Compact(items[e]), CompactItems(items[e + 1..], [COMMA]));
      b.Append(d);
      d := [COMMA];
      Serialize(items[e], b);
    }
    assert b.text + [] == b.text;
    Append3(old(b.text), [LBRACKET], CompactItems(items, []), [RBRACKET]);
    b.Append([RBRACKET]);
  }

  method SerializeObject(members: seq<Member>, b: StringBuffer)
    modifies b
    ensures b.text == old(b.text) + ([LBRACE] + CompactMembers(members, []) + [RBRACE])
    decreases members, 1
  {
    hide Quoted;
    b.Append([LBRACE]);
    ghost var start := b.text;
    var c: Text := [];
    for d := 0 to |members|
      invariant b.text + CompactMembers(members[d..], c) == start + CompactMembers(members, [])
    {
      assert members[d..][1..] == members[d + 1..];
      var m := members[d];
      Append5(b.text, c, Quoted(m.name), [COLON], Compact(m.value), CompactMembers(members[d + 1..], [COMMA]));
      b.Append(c);
      SerializeString(m.name, b);
      b.Append([COLON]);
      Serialize(m.value, b);
      c := [COMMA];
    }
    assert b.text + [] == b.text;
    Append3(old(b.text), [LBRACE], CompactMembers(members, []), [RBRACE]);
    b.Append([RBRACE]);
  }

  /** A line break and the spaces of an indentation. */
  method PrintNewLine(n: nat, b: StringBuffer)
    modifies b
    ensures b.text == old(b.text) + NewLine(n)
  {
    Assoc(b.text, [NEWLINE], Spaces(n));
    b.Append([NEWLINE]);
    b.Append(Spaces(n));
  }

  method PrintObject(v: Value, b: StringBuffer, c: nat) returns (thrown: bool)
    modifies b
    ensures thrown <==> Printed(v, c).None?
    ensures !thrown ==> b.text == old(b.text) + Printed(v, c).value
    decreases v, 0
  {
    thrown := false;
    match v
    case Array(items) => thrown := PrintArray(items, b, c);
    case Object(members) => thrown := PrintMembers(members, b, c);
    case _ => Serialize(v, b);
  }

  method PrintArray(items: seq<Value>, b: StringBuffer, c: nat) returns (thrown: bool)
    modifies b
    ensures thrown <==> Printed(Array(items), c).None?
    ensures !thrown ==> b.text == old(b.text) + Printed(Array(items), c).value
    decreases items, 1
  {
    hide NewLine, Prints, Printed, Pretty;
    PrintedItemsExactly(items, [], c + 2);
    PrintedArray(items, c);
    b.Append([LBRACKET]);
    ghost var start := b.text;
    for e := 0 to |items|
      invariant forall i :: 0 <= i < e ==> Prints(items[i])
      invariant b.text + PrettyItems(items[e..], if e == 0 then [] else [COMMA], c + 2)
             == start + PrettyItems(items, [], c + 2)
    {
      assert items[e..][1..] == items[e + 1..];
      var sep := if e > 0 then [COMMA] else [];
      ghost var item := Pretty(items[e], c + 2);
      Append3(b.text, sep + NewLine(c + 2), item, PrettyItems(items[e + 1..], [COMMA], c + 2));
      Assoc(b.text, sep, NewLine(c + 2));
      b.Append(sep);
      PrintNewLine(c + 2, b);
      PrintedExactly(items[e], c + 2);
      thrown := PrintObject(items[e], b, c + 2);
      if thrown {
        assert items[e] in items;
        return;
      }
    }
    assert b.text + [] == b.text;
    var nl := if items == [] then [] else NewLine(c);
    Append3(old(b.text), [LBRACKET] + PrettyItems(items, [], c + 2), nl, [RBRACKET]);
    Assoc(old(b.text), [LBRACKET], PrettyItems(items, [], c + 2));
    if |items| > 0 {
      PrintNewLine(c, b);
    } else {
      assert b.text + nl == b.text;
    }
    b.Append([RBRACKET]);
    thrown := false;
  }

  lemma PrintedArray(items: seq<Value>, c: nat)
    ensures Printed(Array(items), c) ==
      if forall x :: x in items ==> Prints(x) then
        Some([LBRACKET] + PrettyItems(items, [], c + 2) + (if items == [] then [] else NewLine(c)) + [RBRACKET])
      else None
  {
    hide NewLine, Prints;
    PrintedItemsExactly(items, [], c + 2);
  }

  lemma PrintedObject(members: seq<Member>, c: nat)
    ensures Printed(Object(members), c) ==
      if !Shadows(members) && forall m :: m in members ==> Prints(m.value) then
        Some([LBRACE] + PrettyMembers(members, [], c + 2) + (if members == [] then [] else NewLine(c)) + [RBRACE])
      else None
  {
    hide NewLine, Prints, Shadows, Quoted;
    PrintedMembersExactly(members, [], c + 2);
  }

  /** One member behind its separator. */
  method PrintMember(m: Member, sep: Text, b: StringBuffer, c: nat) returns (thrown: bool)
    modifies b
    ensures thrown <==> !Prints(m.value)
    ensures !thrown ==>
      b.text == old(b.text) + (sep + NewLine(c)) + Quoted(m.name) + [COLON, SPACE] + Pretty(m.value, c)
    decreases m, 0
  {
    hide NewLine, Quoted, Prints, Printed, Pretty;
    Assoc(b.text, sep, NewLine(c));
    b.Append(sep);
    PrintNewLine(c, b);
    SerializeString(m.name, b);
    b.Append([COLON, SPACE]);
    PrintedExactly(m.value, c);
    thrown := PrintObject(m.value, b, c);
  }

  method PrintMembers(members: seq<Member>, b: StringBuffer, c: nat) returns (thrown: bool)
    modifies b
    ensures thrown <==> Printed(Object(members), c).None?
    ensures !thrown ==> b.text == old(b.text) + Printed(Object(members), c).value
    decreases members, 1
  {
    hide NewLine, Quoted, Prints, Printed, Pretty, Shadows;
    PrintedObject(members, c);
    b.Append([LBRACE]);
    ghost var start := b.text;
    for d := 0 to |members|
      invariant forall i :: 0 <= i < d ==> Prints(members[i].value)
      invariant d > 0 ==> !Shadows(members)
      invariant b.text + PrettyMembers(members[d..], if d == 0 then [] else [COMMA], c + 2)
             == start + PrettyMembers(members, [], c + 2)
    {
      if Shadows(members) {
        // the call of hasOwnProperty
        return true;
      }
      assert members[d..][1..] == members[d + 1..];
      ghost var before := b.text;
      thrown := PrintMember(members[d], if d > 0 then [COMMA] else [], b, c + 2);
      if thrown {
        assert members[d] in members;
        return;
      }
      Append5(before, (if d > 0 then [COMMA] else []) + NewLine(c + 2), Quoted(members[d].name), [COLON, SPACE],
              Pretty(members[d].value, c + 2), PrettyMembers(members[d + 1..], [COMMA], c + 2));
    }
    NoneShadows(members);
    assert b.text + [] == b.text;
    var nl := if members == [] then [] else NewLine(c);
    Append3(old(b.text), [LBRACE] + PrettyMembers(members, [], c + 2), nl, [RBRACE]);
    Assoc(old(b.text), [LBRACE], PrettyMembers(members, [], c + 2));
    if |members| > 0 {
      PrintNewLine(c, b);
    } else {
      assert b.text + nl == b.text;
    }
    b.Append([RBRACE]);
    thrown := false;
  }

  lemma NoneShadows(members: seq<Member>)
    ensures members == [] ==> !Shadows(members)
  {
  }
}
