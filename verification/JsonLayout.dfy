/** How the pretty text is laid out in lines. */
module JsonLayout {
  import opened Json
  import opened JsonText

  datatype Line = Line(indent: nat, text: Text)

  /** The lines of a value: `head` stands before it on its first line, `tail` behind it on its
      last. A filled array or object has a line for each bracket, and its contents stand two
      columns further in. */
  function Lines(v: Value, indent: nat, head: Text, tail: Text): seq<Line>
    decreases v, 0
  {
    match v
    case Array(items) =>
      if items == [] then [Line(indent, head + Compact(v) + tail)]
      else [Line(indent, head + [LBRACKET])] + ItemLines(items, indent + 2) + [Line(indent, [RBRACKET] + tail)]
    case Object(members) =>
      if members == [] then [Line(indent, head + Compact(v) + tail)]
      else [Line(indent, head + [LBRACE])] + MemberLines(members, indent + 2) + [Line(indent, [RBRACE] + tail)]
    case _ => [Line(indent, head + Compact(v) + tail)]
  }

  /** A comma ends every item but the last. */
  function ItemLines(items: seq<Value>, indent: nat): seq<Line>
    decreases items, 1
  {
    if items == [] then []
    else Lines(items[0], indent, [], if |items| == 1 then [] else [COMMA]) + ItemLines(items[1..], indent)
  }

  function MemberLines(members: seq<Member>, indent: nat): seq<Line>
    decreases members, 1
  {
    if members == [] then []
    else
      Lines(members[0].value, indent, Quoted(members[0].name) + [COLON, SPACE], if |members| == 1 then [] else [COMMA])
        + MemberLines(members[1..], indent)
  }

  function TextOf(lines: seq<Line>): Text {
    if lines == [] then [] else NewLine(lines[0].indent) + lines[0].text + TextOf(lines[1..])
  }

  lemma {:induction false} TextOfConcat(a: seq<Line>, b: seq<Line>)
    ensures TextOf(a + b) == TextOf(a) + TextOf(b)
  {
    hide NewLine;
    if a == [] {
      assert a + b == b && [] + TextOf(b) == TextOf(b);
    } else {
      TextOfConcat(a[1..], b);
      assert (a + b)[1..] == a[1..] + b;
      Assoc(NewLine(a[0].indent) + a[0].text, TextOf(a[1..]), TextOf(b));
    }
  }

  lemma TextOfOne(l: Line)
    ensures TextOf([l]) == NewLine(l.indent) + l.text
  {
    assert TextOf([l][1..]) == [];
    assert NewLine(l.indent) + l.text + [] == NewLine(l.indent) + l.text;
  }

  lemma Assoc(a: Text, b: Text, c: Text)
    ensures a + b + c == a + (b + c)
  {
  }

  /** The pretty text of a value, when it has one, on a new line is exactly its lines. */
  lemma PrettyIsLines(v: Value, indent: nat, head: Text, tail: Text)
    ensures var t := Printed(v, indent);
      && (t.Some? <==> Prints(v))
      && (t.Some? ==> NewLine(indent) + (head + t.value + tail) == TextOf(Lines(v, indent, head, tail)))
  {
    hide Printed, Prints, Lines, TextOf;
    PrintedExactly(v, indent);
    LayoutIsLines(v, indent, head, tail);
  }

  lemma {:induction false} LayoutIsLines(v: Value, indent: nat, head: Text, tail: Text)
    ensures NewLine(indent) + (head + Pretty(v, indent) + tail) == TextOf(Lines(v, indent, head, tail))
    decreases v, 0
  {
    hide NewLine, TextOf;
    match v
    case Array(items) =>
      if items == [] {
        TextOfOne(Line(indent, head + Compact(v) + tail));
        EmptyIsCompact(v, indent);
      } else {
        ItemsAreLines(items, [], indent + 2);
        FilledIsLines(indent, head, LBRACKET, ItemLines(items, indent + 2), RBRACKET, tail);
        assert [] + TextOf(ItemLines(items, indent + 2)) == TextOf(ItemLines(items, indent + 2));
      }
    case Object(members) =>
      if members == [] {
        TextOfOne(Line(indent, head + Compact(v) + tail));
        EmptyIsCompact(v, indent);
      } else {
        MembersAreLines(members, [], indent + 2);
        FilledIsLines(indent, head, LBRACE, MemberLines(members, indent + 2), RBRACE, tail);
        assert [] + TextOf(MemberLines(members, indent + 2)) == TextOf(MemberLines(members, indent + 2));
      }
    case _ => TextOfOne(Line(indent, head + Compact(v) + tail));
  }

  lemma EmptyIsCompact(v: Value, indent: nat)
    requires v == Array([]) || v == Object([])
    ensures Pretty(v, indent) == Compact(v)
  {
  }

  lemma FilledIsLines(indent: nat, head: Text, open: CodeUnit, inner: seq<Line>, close: CodeUnit, tail: Text)
    ensures NewLine(indent) + (head + ([open] + TextOf(inner) + NewLine(indent) + [close]) + tail)
      == TextOf([Line(indent, head + [open])] + inner + [Line(indent, [close] + tail)])
  {
    hide NewLine, TextOf;
    var nl, t := NewLine(indent), TextOf(inner);
    TextOfConcat([Line(indent, head + [open])] + inner, [Line(indent, [close] + tail)]);
    TextOfConcat([Line(indent, head + [open])], inner);
    TextOfOne(Line(indent, head + [open]));
    TextOfOne(Line(indent, [close] + tail));
    assert nl + (head + ([open] + t + nl + [close]) + tail) == nl + (head + [open]) + t + (nl + ([close] + tail));
  }

  lemma {:induction false} ItemsAreLines(items: seq<Value>, sep: Text, indent: nat)
    requires items != []
    ensures PrettyItems(items, sep, indent) == sep + TextOf(ItemLines(items, indent))
    decreases items, 1
  {
    hide NewLine, TextOf;
    var rest, tail := items[1..], if |items| == 1 then [] else [COMMA];
    var first := Pretty(items[0], indent);
    LayoutIsLines(items[0], indent, [], tail);
    TextOfConcat(Lines(items[0], indent, [], tail), ItemLines(rest, indent));
    ItemInLine(sep, NewLine(indent), first, tail, TextOf(ItemLines(rest, indent)));
    if rest == [] {
      NoLines();
    } else {
      ItemsAreLines(rest, [COMMA], indent);
    }
  }

  lemma ItemInLine(sep: Text, nl: Text, first: Text, tail: Text, more: Text)
    ensures sep + nl + first + (tail + more) == sep + (nl + ([] + first + tail) + more)
  {
  }

  lemma NoLines()
    ensures TextOf([]) == []
  {
  }

  lemma {:induction false} MembersAreLines(members: seq<Member>, sep: Text, indent: nat)
    requires members != []
    ensures PrettyMembers(members, sep, indent) == sep + TextOf(MemberLines(members, indent))
    decreases members, 1
  {
    hide NewLine, TextOf, Quoted;
    var m, rest, tail := members[0], members[1..], if |members| == 1 then [] else [COMMA];
    var name, first := Quoted(m.name), Pretty(m.value, indent);
    var head := name + [COLON, SPACE];
    LayoutIsLines(m.value, indent, head, tail);
    TextOfConcat(Lines(m.value, indent, head, tail), MemberLines(rest, indent));
    FieldInLine(sep, NewLine(indent), name, first, tail, TextOf(MemberLines(rest, indent)));
    if rest == [] {
      NoLines();
    } else {
      MembersAreLines(rest, [COMMA], indent);
    }
  }

  lemma FieldInLine(sep: Text, nl: Text, name: Text, first: Text, tail: Text, more: Text)
    ensures sep + nl + name + [COLON, SPACE] + first + (tail + more)
      == sep + (nl + ((name + [COLON, SPACE]) + first + tail) + more)
  {
  }

  // ----- the lines hold no line breaks

  lemma {:induction false} LinesAreSingle(v: Value, indent: nat, head: Text, tail: Text)
    requires WellFormed(v) && Printable(head) && Printable(tail)
    ensures forall l :: l in Lines(v, indent, head, tail) ==> Printable(l.text)
    decreases v, 0
  {
    CompactIsAscii(v);
    match v
    case Array(items) => ItemLinesAreSingle(items, indent + 2);
    case Object(members) => MemberLinesAreSingle(members, indent + 2);
    case _ =>
  }

  lemma {:induction false} ItemLinesAreSingle(items: seq<Value>, indent: nat)
    requires forall x :: x in items ==> WellFormed(x)
    ensures forall l :: l in ItemLines(items, indent) ==> Printable(l.text)
    decreases items, 1
  {
    if items != [] {
      LinesAreSingle(items[0], indent, [], if |items| == 1 then [] else [COMMA]);
      ItemLinesAreSingle(items[1..], indent);
    }
  }

  lemma {:induction false} MemberLinesAreSingle(members: seq<Member>, indent: nat)
    requires forall m :: m in members ==> WellFormed(m.value)
    ensures forall l :: l in MemberLines(members, indent) ==> Printable(l.text)
    decreases members, 1
  {
    if members != [] {
      var m := members[0];
      QuotedIsAscii(m.name);
      LinesAreSingle(m.value, indent, Quoted(m.name) + [COLON, SPACE], if |members| == 1 then [] else [COMMA]);
      MemberLinesAreSingle(members[1..], indent);
    }
  }
}
