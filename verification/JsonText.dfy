/** The two texts compared as texts: the pretty one is the compact one with whitespace added
    outside strings, and both are printable ASCII. */
module JsonText {
  import opened Json
  import opened JsonReader
  import opened JsonRoundTrip

  /** The length of the rest of a string, closing quotation mark included. */
  function StringEnd(t: Text): (n: nat)
    ensures n <= |t|
  {
    if t == [] then 0
    else if t[0] == QUOTE then 1
    else if t[0] == BACKSLASH && |t| > 1 then 2 + StringEnd(t[2..])
    else 1 + StringEnd(t[1..])
  }

  /** A text without the whitespace outside its strings. */
  function Strip(t: Text): Text
    decreases |t|
  {
    if t == [] then []
    else if IsSpace(t[0]) then Strip(t[1..])
    else if t[0] == QUOTE then
      var n := 1 + StringEnd(t[1..]);
      t[..n] + Strip(t[n..])
    else [t[0]] + Strip(t[1..])
  }

  predicate Plain(t: Text) {
    forall c :: c in t ==> !IsSpace(c) && c != QUOTE
  }

  lemma {:induction false} StripPlain(t: Text, rest: Text)
    requires Plain(t)
    ensures Strip(t + rest) == t + Strip(rest)
  {
    if t == [] {
      assert t + rest == rest;
    } else {
      assert (t + rest)[1..] == t[1..] + rest;
      StripPlain(t[1..], rest);
      assert [t[0]] + (t[1..] + Strip(rest)) == t + Strip(rest);
    }
  }

  lemma {:induction false} StripSpaces(n: nat, rest: Text)
    ensures Strip(Spaces(n) + rest) == Strip(rest)
  {
    if n == 0 {
      assert Spaces(0) + rest == rest;
    } else {
      StripSpaces(n - 1, rest);
      assert (Spaces(n) + rest)[1..] == Spaces(n - 1) + rest;
    }
  }

  lemma StripNewLine(indent: nat, rest: Text)
    ensures Strip(NewLine(indent) + rest) == Strip(rest)
  {
    StripSpaces(indent, rest);
    assert (NewLine(indent) + rest)[1..] == Spaces(indent) + rest;
  }

  // ----- strings

  lemma {:induction false} EndOfPlain(t: Text, rest: Text)
    requires forall c :: c in t ==> c != QUOTE && c != BACKSLASH
    ensures StringEnd(t + rest) == |t| + StringEnd(rest)
  {
    if t == [] {
      assert t + rest == rest;
    } else {
      assert (t + rest)[1..] == t[1..] + rest;
      assert t[0] in t && forall c: CodeUnit :: c in t[1..] ==> c in t;
      EndOfPlain(t[1..], rest);
    }
  }

  lemma EndOfChar(c: CodeUnit, rest: Text)
    ensures StringEnd(EscapeChar(c) + rest) == |EscapeChar(c)| + StringEnd(rest)
  {
    var e := EscapeChar(c);
    if MustEscape(c) {
      EndOfPlain(e[2..], rest);
      assert (e + rest)[2..] == e[2..] + rest;
    } else {
      assert (e + rest)[1..] == rest;
    }
  }

  lemma {:induction false} EndOfEscaped(s: Text, rest: Text)
    ensures StringEnd(Escape(s) + [QUOTE] + rest) == |Escape(s)| + 1
  {
    hide EscapeChar;
    if s == [] {
      assert Escape(s) + [QUOTE] + rest == [QUOTE] + rest;
    } else {
      EndOfEscaped(s[1..], rest);
      EndOfChar(s[0], Escape(s[1..]) + [QUOTE] + rest);
      assert Escape(s) + [QUOTE] + rest == EscapeChar(s[0]) + (Escape(s[1..]) + [QUOTE] + rest);
    }
  }

  lemma StripQuoted(s: Text, rest: Text)
    ensures Strip(Quoted(s) + rest) == Quoted(s) + Strip(rest)
  {
    hide Escape;
    var t := Quoted(s) + rest;
    assert t[1..] == Escape(s) + [QUOTE] + rest;
    EndOfEscaped(s, rest);
    assert t[..|Quoted(s)|] == Quoted(s) && t[|Quoted(s)|..] == rest;
  }

  // ----- the whole text

  lemma StripScalar(v: Value, rest: Text)
    requires WellFormed(v) && !v.Array? && !v.Object?
    ensures Strip(Compact(v) + rest) == Compact(v) + Strip(rest)
  {
    match v
    case Number(l) =>
      NumberChars(l);
      StripPlain(l, rest);
    case String(s) => StripQuoted(s, rest);
    case _ => StripPlain(Compact(v), rest);
  }

  lemma StripClosing(indent: nat, empty: bool, c: CodeUnit, rest: Text)
    requires IsMark(c)
    ensures Strip((if empty then [] else NewLine(indent)) + [c] + rest) == [c] + Strip(rest)
  {
    StripNewLine(indent, [c] + rest);
    StripPlain([c], rest);
    Assoc(if empty then [] else NewLine(indent), [c], rest);
    assert [] + ([c] + rest) == [c] + rest;
  }

  /** One item of a list: `pretty` strips to `compact`. */
  lemma StripItem(sep: Text, pretty: Text, compact: Text, more: Text, more': Text, rest: Text)
    requires sep == [] || sep == [COMMA]
    requires Strip(pretty + (more + rest)) == compact + Strip(more + rest)
    requires Strip(more + rest) == more' + Strip(rest)
    ensures Strip(sep + pretty + more + rest) == sep + compact + more' + Strip(rest)
  {
    hide Strip;
    StripPlain(sep, pretty + (more + rest));
    Assoc(sep + pretty, more, rest);
    Assoc(sep, pretty, more + rest);
    Assoc(sep + compact, more', Strip(rest));
    Assoc(sep, compact, more' + Strip(rest));
  }

  lemma {:induction false} StripPretty(v: Value, indent: nat, rest: Text)
    requires WellFormed(v)
    ensures Strip(Pretty(v, indent) + rest) == Compact(v) + Strip(rest)
    decreases v, 0
  {
    hide Strip;
    match v
    case Array(items) =>
      var nl := if items == [] then [] else NewLine(indent);
      var inner, flat := PrettyItems(items, [], indent + 2), CompactItems(items, []);
      StripClosing(indent, items == [], RBRACKET, rest);
      StripItems(items, [], indent + 2, nl + [RBRACKET] + rest);
      StripBrackets(LBRACKET, inner, flat, nl, RBRACKET, rest);
    case Object(members) =>
      var nl := if members == [] then [] else NewLine(indent);
      var inner, flat := PrettyMembers(members, [], indent + 2), CompactMembers(members, []);
      StripClosing(indent, members == [], RBRACE, rest);
      StripMembers(members, [], indent + 2, nl + [RBRACE] + rest);
      StripBrackets(LBRACE, inner, flat, nl, RBRACE, rest);
    case _ => StripScalar(v, rest);
  }

  lemma StripBrackets(open: CodeUnit, inner: Text, flat: Text, nl: Text, close: CodeUnit, rest: Text)
    requires IsMark(open)
    requires Strip(inner + (nl + [close] + rest)) == flat + Strip(nl + [close] + rest)
    requires Strip(nl + [close] + rest) == [close] + Strip(rest)
    ensures Strip([open] + inner + nl + [close] + rest) == [open] + flat + [close] + Strip(rest)
  {
    hide Strip;
    StripPlain([open], inner + (nl + [close] + rest));
    Assoc([open] + inner + nl, [close], rest);
    Assoc([open] + inner, nl, [close] + rest);
    Assoc(nl, [close], rest);
    Assoc([open], inner, nl + [close] + rest);
    Assoc([open] + flat, [close], Strip(rest));
    Assoc([open], flat, [close] + Strip(rest));
  }

  lemma {:induction false} StripItems(items: seq<Value>, sep: Text, indent: nat, rest: Text)
    requires (forall x :: x in items ==> WellFormed(x)) && (sep == [] || sep == [COMMA])
    ensures Strip(PrettyItems(items, sep, indent) + rest) == CompactItems(items, sep) + Strip(rest)
    decreases items, 1
  {
    hide Strip, NewLine;
    if items == [] {
      assert [] + rest == rest && [] + Strip(rest) == Strip(rest);
    } else {
      var more, item := PrettyItems(items[1..], [COMMA], indent), Pretty(items[0], indent);
      StripItems(items[1..], [COMMA], indent, rest);
      StripPretty(items[0], indent, more + rest);
      StripNewLine(indent, item + (more + rest));
      Assoc(NewLine(indent), item, more + rest);
      StripItem(sep, NewLine(indent) + item, Compact(items[0]), more, CompactItems(items[1..], [COMMA]), rest);
      Assoc(sep, NewLine(indent), item);
    }
  }

  lemma StripField(name: Text, value: Text, compact: Text, tail: Text)
    requires Strip(value + tail) == compact + Strip(tail)
    ensures Strip(Quoted(name) + [COLON, SPACE] + value + tail) == Quoted(name) + [COLON] + compact + Strip(tail)
  {
    StripSpaces(1, value + tail);
    hide Strip, Quoted;
    StripQuoted(name, [COLON, SPACE] + (value + tail));
    StripPlain([COLON], Spaces(1) + (value + tail));
    assert [COLON, SPACE] + (value + tail) == [COLON] + (Spaces(1) + (value + tail));
    Assoc(Quoted(name) + [COLON, SPACE], value, tail);
    Assoc(Quoted(name), [COLON, SPACE], value + tail);
    Assoc(Quoted(name) + [COLON], compact, Strip(tail));
    Assoc(Quoted(name), [COLON], compact + Strip(tail));
  }

  lemma {:induction false} StripMembers(members: seq<Member>, sep: Text, indent: nat, rest: Text)
    requires (forall m :: m in members ==> WellFormed(m.value)) && (sep == [] || sep == [COMMA])
    ensures Strip(PrettyMembers(members, sep, indent) + rest) == CompactMembers(members, sep) + Strip(rest)
    decreases members, 1
  {
    hide Strip, NewLine, Quoted;
    if members == [] {
      assert [] + rest == rest && [] + Strip(rest) == Strip(rest);
    } else {
      var m, more := members[0], PrettyMembers(members[1..], [COMMA], indent);
      var value := Pretty(m.value, indent);
      StripMembers(members[1..], [COMMA], indent, rest);
      StripPretty(m.value, indent, more + rest);
      StripField(m.name, value, Compact(m.value), more + rest);
      var field, flat := Quoted(m.name) + [COLON, SPACE] + value, Quoted(m.name) + [COLON] + Compact(m.value);
      StripNewLine(indent, field + (more + rest));
      Assoc(NewLine(indent), field, more + rest);
      StripItem(sep, NewLine(indent) + field, flat, more, CompactMembers(members[1..], [COMMA]), rest);
      Assoc(sep, NewLine(indent), field);
      Assoc(sep + NewLine(indent), Quoted(m.name) + [COLON, SPACE], value);
      Assoc(sep + NewLine(indent), Quoted(m.name), [COLON, SPACE]);
      Assoc(sep, Quoted(m.name) + [COLON], Compact(m.value));
      Assoc(sep, Quoted(m.name), [COLON]);
    }
  }

  /** Without the whitespace outside strings, the pretty text is the compact text. */
  lemma PrettyStripsToCompact(v: Value, indent: nat)
    requires WellFormed(v)
    ensures var t := Printed(v, indent);
      (t.Some? <==> Prints(v)) && (t.Some? ==> Strip(t.value) == Compact(v))
  {
    hide Printed, Prints;
    PrintedExactly(v, indent);
    StripPretty(v, indent, []);
    assert Pretty(v, indent) + [] == Pretty(v, indent) && Compact(v) + [] == Compact(v);
  }

  // ----- printable ASCII

  predicate Printable(t: Text) {
    forall c :: c in t ==> 0x20 <= c <= 0x7e
  }

  /** Whatever code units a string holds, lone surrogates included, it is written in ASCII. */
  lemma {:induction false} QuotedIsAscii(s: Text)
    ensures Printable(Escape(s)) && Printable(Quoted(s))
  {
    if s != [] {
      QuotedIsAscii(s[1..]);
      assert Printable(EscapeChar(s[0]));
    }
  }

  lemma {:induction false} CompactIsAscii(v: Value)
    requires WellFormed(v)
    ensures Printable(Compact(v))
    decreases v, 0
  {
    match v
    case Number(l) => NumberChars(l);
    case String(s) => QuotedIsAscii(s);
    case Array(items) => CompactItemsAscii(items, []);
    case Object(members) => CompactMembersAscii(members, []);
    case _ =>
  }

  lemma {:induction false} CompactItemsAscii(items: seq<Value>, sep: Text)
    requires (forall x :: x in items ==> WellFormed(x)) && Printable(sep)
    ensures Printable(CompactItems(items, sep))
    decreases items, 1
  {
    if items != [] {
      CompactIsAscii(items[0]);
      CompactItemsAscii(items[1..], [COMMA]);
    }
  }

  lemma {:induction false} CompactMembersAscii(members: seq<Member>, sep: Text)
    requires (forall m :: m in members ==> WellFormed(m.value)) && Printable(sep)
    ensures Printable(CompactMembers(members, sep))
    decreases members, 1
  {
    if members != [] {
      QuotedIsAscii(members[0].name);
      CompactIsAscii(members[0].value);
      CompactMembersAscii(members[1..], [COMMA]);
    }
  }
}
