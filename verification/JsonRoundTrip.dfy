/** Reading back what the printers write. */
module JsonRoundTrip {
  import opened Json
  import opened JsonReader
  import opened Wrappers

  /** Tokens put before the result of lexing the rest of a text. */
  function Attach(ts: seq<Token>, more: Option<seq<Token>>): Option<seq<Token>> {
    if more.Some? then Some(ts + more.value) else None
  }

  lemma AttachTwice(a: seq<Token>, b: seq<Token>, more: Option<seq<Token>>)
    ensures Attach(a, Attach(b, more)) == Attach(a + b, more)
  {
    if more.Some? {
      assert a + (b + more.value) == a + b + more.value;
    }
  }

  predicate EndsNumber(rest: Text) {
    rest == [] || !IsNumberChar(rest[0])
  }

  // ----- strings

  lemma HexRoundTrip(c: CodeUnit)
    ensures |Hex4(c)| == 4 && Unhex4(Hex4(c)) == Some(c)
  {
    hide HexValue, HexDigit;
    ReadDigit(c / 4096);
    ReadDigit(c / 256 % 16);
    ReadDigit(c / 16 % 16);
    ReadDigit(c % 16);
    FourDigits(c);
  }

  lemma ReadDigit(d: int)
    requires 0 <= d < 16
    ensures HexValue(HexDigit(d)) == Some(d)
  {
  }

  lemma FourDigits(c: CodeUnit)
    ensures c == 4096 * (c / 4096) + 256 * (c / 256 % 16) + 16 * (c / 16 % 16) + c % 16
  {
    assert c / 256 == 16 * (c / 4096) + c / 256 % 16;
    assert c / 16 == 16 * (c / 256) + c / 16 % 16;
    assert c == 4096 * (c / 4096) + 256 * (c / 256 % 16) + 16 * (c / 16 % 16) + c % 16;
  }

  predicate IsLowerHex(c: CodeUnit) {
    IsDigit(c) || 0x61 <= c <= 0x66
  }

  lemma Hex4IsLower(c: CodeUnit)
    ensures forall i :: 0 <= i < |Hex4(c)| ==> IsLowerHex(Hex4(c)[i])
  {
  }

  /** The letters of the five control characters with an escape of their own. */
  const LETTERS: map<CodeUnit, char> := map[0x08 := 'b', 0x09 := 't', 0x0a := 'n', 0x0c := 'f', 0x0d := 'r']

  /** Printable ASCII but the quote and the backslash stands for itself, these two behind a
      backslash, five control characters have a letter, and all else is written as the four
      hexadecimal digits, in lower case, of its code. */
  lemma EscapesExactly(c: CodeUnit)
    ensures var t := EscapeChar(c);
      if 0x20 <= c <= 0x7e && c != QUOTE && c != BACKSLASH then t == [c]
      else if c == QUOTE || c == BACKSLASH then t == [BACKSLASH, c]
      else if c in LETTERS then t == [BACKSLASH, LETTERS[c] as int]
      else
        && |t| == 6 && t[..2] == [BACKSLASH, 'u' as int] && Unhex4(t[2..]) == Some(c)
        && forall i :: 2 <= i < 6 ==> IsLowerHex(t[i])
  {
    HexRoundTrip(c);
    Hex4IsLower(c);
    hide Hex4, Unhex4, IsLowerHex;
    var h := Hex4(c);
    var u := [BACKSLASH, 0x75] + h;
    assert u[2..] == h && u[..2] == [BACKSLASH, 0x75] && forall i :: 2 <= i < 6 ==> u[i] == h[i - 2];
  }

  function Ascii(s: string): Text {
    seq(|s|, i requires 0 <= i < |s| => if s[i] < '\U{80}' then s[i] as int else 0)
  }

  /** The words and marks are those of the grammar. */
  lemma MarksExactly()
    ensures Compact(Null) == Compact(NotFinite) == Ascii("null")
    ensures Compact(Bool(true)) == Ascii("true") && Compact(Bool(false)) == Ascii("false")
    ensures [LBRACKET, RBRACKET, LBRACE, RBRACE, COMMA, COLON, QUOTE, BACKSLASH] == Ascii("[]{},:\"\\")
    ensures [SPACE, NEWLINE] == Ascii(" \n")
  {
  }

  lemma ReadUnicode(c: CodeUnit, rest: Text)
    ensures ReadString([BACKSLASH, 0x75] + Hex4(c) + rest) == Then(c, ReadString(rest))
  {
    HexRoundTrip(c);
    hide Unhex4, HexDigit;
    var h := Hex4(c);
    hide Hex4;
    var t := [BACKSLASH, 0x75] + h + rest;
    assert t[2..6] == h && t[6..] == rest;
  }

  /** The result of reading one character and then the rest. */
  function Then(c: CodeUnit, more: Option<(Text, Text)>): Option<(Text, Text)> {
    if more.None? then None else Some(([c] + more.value.0, more.value.1))
  }

  lemma ReadPlain(c: CodeUnit, rest: Text)
    requires !MustEscape(c)
    ensures ReadString([c] + rest) == Then(c, ReadString(rest))
  {
    assert ([c] + rest)[1..] == rest;
  }

  lemma {:induction false} ReadPair(c: CodeUnit, e: CodeUnit, rest: Text)
    requires EscapeChar(c) == [BACKSLASH, e] && MustEscape(c)
    ensures ReadString([BACKSLASH, e] + rest) == Then(c, ReadString(rest))
  {
    assert e == EscapeChar(c)[1];
    assert ([BACKSLASH, e] + rest)[2..] == rest;
  }

  lemma ReadChar(c: CodeUnit, rest: Text)
    ensures ReadString(EscapeChar(c) + rest) == Then(c, ReadString(rest))
  {
    if !MustEscape(c) {
      ReadPlain(c, rest);
    } else if |EscapeChar(c)| == 2 {
      ReadPair(c, EscapeChar(c)[1], rest);
    } else {
      ReadUnicode(c, rest);
    }
  }

  lemma {:induction false} ReadEscaped(s: Text, rest: Text)
    ensures ReadString(Escape(s) + [QUOTE] + rest) == Some((s, rest))
  {
    hide EscapeChar;
    if s == [] {
      assert ([QUOTE] + rest)[1..] == rest;
      assert Escape(s) + [QUOTE] + rest == [QUOTE] + rest;
    } else {
      ReadEscaped(s[1..], rest);
      ReadChar(s[0], Escape(s[1..]) + [QUOTE] + rest);
      assert Escape(s) + [QUOTE] + rest == EscapeChar(s[0]) + (Escape(s[1..]) + [QUOTE] + rest);
      assert [s[0]] + s[1..] == s;
    }
  }

  lemma LexQuoted(s: Text, rest: Text)
    ensures Lex(Quoted(s) + rest) == Attach([Literal(s)], Lex(rest))
  {
    ReadEscaped(s, rest);
    assert (Quoted(s) + rest)[1..] == Escape(s) + [QUOTE] + rest;
  }

  // ----- the other tokens

  lemma LexMark(c: CodeUnit, rest: Text)
    requires IsMark(c)
    ensures Lex([c] + rest) == Attach([Mark(c)], Lex(rest))
  {
    assert ([c] + rest)[1..] == rest;
  }

  lemma {:induction false} LexSpaces(n: nat, rest: Text)
    ensures Lex(Spaces(n) + rest) == Lex(rest)
  {
    hide Lex;
    if n == 0 {
      assert Spaces(0) + rest == rest;
    } else {
      LexSpaces(n - 1, rest);
      LexSpace(Spaces(n - 1) + rest);
      assert Spaces(n) + rest == [SPACE] + (Spaces(n - 1) + rest);
    }
  }

  lemma LexSpace(rest: Text)
    ensures Lex([SPACE] + rest) == Lex(rest)
  {
    assert ([SPACE] + rest)[1..] == rest;
  }

  lemma LexNewLine(indent: nat, rest: Text)
    ensures Lex(NewLine(indent) + rest) == Lex(rest)
  {
    LexSpaces(indent, rest);
    assert (NewLine(indent) + rest)[1..] == Spaces(indent) + rest;
  }

  lemma {:induction false} RunOfNumber(l: Text, rest: Text)
    requires EndsNumber(rest) && forall c :: c in l ==> IsNumberChar(c)
    ensures NumberRun(l + rest) == l
  {
    if l == [] {
      assert l + rest == rest;
    } else {
      assert (l + rest)[1..] == l[1..] + rest;
      RunOfNumber(l[1..], rest);
    }
  }

  lemma LexNumber(l: Text, rest: Text)
    requires IsNumber(l) && EndsNumber(rest)
    ensures Lex(l + rest) == Attach([NumberToken(l)], Lex(rest))
  {
    NumberChars(l);
    RunOfNumber(l, rest);
    hide IsNumber;
    var t := l + rest;
    assert t[0] == l[0] && t[|l|..] == rest;
    assert NULL[0] != t[0] && TRUE[0] != t[0] && FALSE[0] != t[0];
  }

  lemma LexWord(v: Value, rest: Text)
    requires v.Null? || v.Bool? || v.NotFinite?
    ensures Lex(Compact(v) + rest) == Attach(Tokens(v), Lex(rest))
  {
    var t := Compact(v) + rest;
    assert t[|Compact(v)|..] == rest;
    assert t[0] == Compact(v)[0];
    if v.Bool? {
      assert NULL[0] != t[0];
      if !v.b {
        assert TRUE[0] != t[0];
      }
    }
  }

  /** Every value that is no array or object, which both printers write alike. */
  lemma LexScalar(v: Value, rest: Text)
    requires WellFormed(v) && !v.Array? && !v.Object? && EndsNumber(rest)
    ensures Lex(Compact(v) + rest) == Attach(Tokens(v), Lex(rest))
  {
    match v
    case Number(l) => LexNumber(l, rest);
    case String(s) => LexQuoted(s, rest);
    case _ => LexWord(v, rest);
  }

  // ----- the compact text

  lemma {:induction false} LexCompact(v: Value, rest: Text)
    requires WellFormed(v) && EndsNumber(rest)
    ensures Lex(Compact(v) + rest) == Attach(Tokens(v), Lex(rest))
    decreases v, 0
  {
    hide Lex, Attach;
    match v
    case Array(items) =>
      LexCompactItems(items, [], [], [RBRACKET] + rest);
      LexEnclosed(LBRACKET, CompactItems(items, []), ItemTokens(items, []), RBRACKET, rest);
    case Object(members) =>
      LexCompactMembers(members, [], [], [RBRACE] + rest);
      LexEnclosed(LBRACE, CompactMembers(members, []), MemberTokens(members, []), RBRACE, rest);
    case _ => LexScalar(v, rest);
  }

  lemma LexEnclosed(open: CodeUnit, inner: Text, ti: seq<Token>, close: CodeUnit, rest: Text)
    requires IsMark(open) && IsMark(close)
    requires Lex(inner + ([close] + rest)) == Attach(ti, Lex([close] + rest))
    ensures Lex([open] + inner + [close] + rest) == Attach([Mark(open)] + ti + [Mark(close)], Lex(rest))
  {
    hide Lex, Attach;
    LexMark(open, inner + ([close] + rest));
    LexMark(close, rest);
    AttachTwice(ti, [Mark(close)], Lex(rest));
    AttachTwice([Mark(open)], ti + [Mark(close)], Lex(rest));
    Assoc([Mark(open)], ti, [Mark(close)]);
    Assoc([open], inner, [close]);
    Assoc([open], inner + [close], rest);
    Assoc(inner, [close], rest);
  }

  /** A separator is nothing or a comma. */
  predicate Separator(sep: Text, st: seq<Token>) {
    (sep == [] && st == []) || (sep == [COMMA] && st == [Mark(COMMA)])
  }

  lemma LexSeparator(sep: Text, st: seq<Token>, rest: Text)
    requires Separator(sep, st)
    ensures Lex(sep + rest) == Attach(st, Lex(rest))
  {
    if sep == [] {
      assert sep + rest == rest;
      assert Lex(rest).Some? ==> st + Lex(rest).value == Lex(rest).value;
    } else {
      LexMark(COMMA, rest);
    }
  }

  lemma {:induction false} LexCompactItems(items: seq<Value>, sep: Text, st: seq<Token>, rest: Text)
    requires (forall x :: x in items ==> WellFormed(x)) && Separator(sep, st) && rest != [] && EndsNumber(rest)
    ensures Lex(CompactItems(items, sep) + rest) == Attach(ItemTokens(items, st), Lex(rest))
    decreases items, 1
  {
    hide Lex, Attach;
    if items == [] {
      assert CompactItems(items, sep) + rest == rest;
      LexSeparator([], [], rest);
      assert [] + rest == rest;
    } else {
      var more := CompactItems(items[1..], [COMMA]);
      LexCompactItems(items[1..], [COMMA], [Mark(COMMA)], rest);
      LexCompact(items[0], more + rest);
      LexItem(sep, st, Compact(items[0]), Tokens(items[0]), more, ItemTokens(items[1..], [Mark(COMMA)]), rest);
    }
  }

  lemma Assoc<T>(a: seq<T>, b: seq<T>, c: seq<T>)
    ensures a + b + c == a + (b + c)
  {
  }

  lemma LexColon(colon: Text, rest: Text)
    requires colon == [COLON] || colon == [COLON, SPACE]
    ensures Lex(colon + rest) == Attach([Mark(COLON)], Lex(rest))
  {
    LexSpaces(|colon| - 1, rest);
    LexMark(COLON, Spaces(|colon| - 1) + rest);
    assert colon + rest == [COLON] + (Spaces(|colon| - 1) + rest);
  }

  /** A name, a colon, perhaps a space, and a value. */
  lemma LexField(name: Text, colon: Text, value: Text, tv: seq<Token>, tail: Text)
    requires colon == [COLON] || colon == [COLON, SPACE]
    requires Lex(value + tail) == Attach(tv, Lex(tail))
    ensures Lex(Quoted(name) + colon + value + tail) == Attach([Literal(name), Mark(COLON)] + tv, Lex(tail))
  {
    hide Lex, Attach, Quoted;
    LexColon(colon, value + tail);
    LexQuoted(name, colon + (value + tail));
    Assoc(Quoted(name) + colon, value, tail);
    Assoc(Quoted(name), colon, value + tail);
    AttachTwice([Literal(name)], [Mark(COLON)], Attach(tv, Lex(tail)));
    AttachTwice([Literal(name), Mark(COLON)], tv, Lex(tail));
    assert [Literal(name)] + [Mark(COLON)] == [Literal(name), Mark(COLON)];
  }

  lemma {:induction false} LexCompactMembers(members: seq<Member>, sep: Text, st: seq<Token>, rest: Text)
    requires (forall m :: m in members ==> WellFormed(m.value)) && Separator(sep, st) && rest != [] && EndsNumber(rest)
    ensures Lex(CompactMembers(members, sep) + rest) == Attach(MemberTokens(members, st), Lex(rest))
    decreases members, 1
  {
    hide Lex, Attach, Quoted;
    if members == [] {
      assert CompactMembers(members, sep) + rest == rest;
      LexSeparator([], [], rest);
      assert [] + rest == rest;
    } else {
      var m, more := members[0], CompactMembers(members[1..], [COMMA]);
      LexCompactMembers(members[1..], [COMMA], [Mark(COMMA)], rest);
      LexCompact(m.value, more + rest);
      LexField(m.name, [COLON], Compact(m.value), Tokens(m.value), more + rest);
      LexItem(sep, st, Quoted(m.name) + [COLON] + Compact(m.value), [Literal(m.name), Mark(COLON)] + Tokens(m.value),
              more, MemberTokens(members[1..], [Mark(COMMA)]), rest);
      Assoc(sep, Quoted(m.name), [COLON]);
      Assoc(sep, Quoted(m.name) + [COLON], Compact(m.value));
      Assoc(st, [Literal(m.name), Mark(COLON)], Tokens(m.value));
    }
  }

  /** One item of a list, after its separator and before the others. */
  lemma LexItem(sep: Text, st: seq<Token>, item: Text, ti: seq<Token>, more: Text, tm: seq<Token>, rest: Text)
    requires Separator(sep, st)
    requires Lex(item + (more + rest)) == Attach(ti, Lex(more + rest))
    requires Lex(more + rest) == Attach(tm, Lex(rest))
    ensures Lex(sep + item + more + rest) == Attach(st + ti + tm, Lex(rest))
  {
    hide Lex, Attach;
    LexSeparator(sep, st, item + (more + rest));
    Assoc(sep + item, more, rest);
    Assoc(sep, item, more + rest);
    AttachTwice(st, ti, Attach(tm, Lex(rest)));
    AttachTwice(st + ti, tm, Lex(rest));
  }

  // ----- the pretty text

  lemma LexClosing(indent: nat, empty: bool, c: CodeUnit, rest: Text)
    requires IsMark(c)
    ensures var closing := (if empty then [] else NewLine(indent)) + [c];
      Lex(closing + rest) == Attach([Mark(c)], Lex(rest)) && EndsNumber(closing + rest)
  {
    LexNewLine(indent, [c] + rest);
    LexMark(c, rest);
    var nl := if empty then [] else NewLine(indent);
    Assoc(nl, [c], rest);
    assert [] + ([c] + rest) == [c] + rest;
  }

  /** Brackets around a list. */
  lemma LexBrackets(open: CodeUnit, inner: Text, ti: seq<Token>, closing: Text, close: CodeUnit, rest: Text)
    requires IsMark(open) && IsMark(close)
    requires Lex(inner + (closing + rest)) == Attach(ti, Lex(closing + rest))
    requires Lex(closing + rest) == Attach([Mark(close)], Lex(rest))
    ensures Lex([open] + inner + closing + rest) == Attach([Mark(open)] + ti + [Mark(close)], Lex(rest))
  {
    hide Lex, Attach;
    LexMark(open, inner + (closing + rest));
    Assoc([open] + inner, closing, rest);
    Assoc([open], inner, closing + rest);
    AttachTwice([Mark(open)], ti, Attach([Mark(close)], Lex(rest)));
    AttachTwice([Mark(open)] + ti, [Mark(close)], Lex(rest));
  }

  lemma {:induction false} LexPretty(v: Value, indent: nat, rest: Text)
    requires WellFormed(v) && EndsNumber(rest)
    ensures Lex(Pretty(v, indent) + rest) == Attach(Tokens(v), Lex(rest))
    decreases v, 0
  {
    hide Lex, Attach;
    match v
    case Array(items) =>
      var nl := if items == [] then [] else NewLine(indent);
      LexClosing(indent, items == [], RBRACKET, rest);
      LexPrettyItems(items, [], [], indent + 2, nl + [RBRACKET] + rest);
      LexBrackets(LBRACKET, PrettyItems(items, [], indent + 2), ItemTokens(items, []), nl + [RBRACKET], RBRACKET, rest);
      Assoc([LBRACKET] + PrettyItems(items, [], indent + 2), nl, [RBRACKET]);
    case Object(members) =>
      var nl := if members == [] then [] else NewLine(indent);
      LexClosing(indent, members == [], RBRACE, rest);
      LexPrettyMembers(members, [], [], indent + 2, nl + [RBRACE] + rest);
      LexBrackets(LBRACE, PrettyMembers(members, [], indent + 2), MemberTokens(members, []), nl + [RBRACE], RBRACE, rest);
      Assoc([LBRACE] + PrettyMembers(members, [], indent + 2), nl, [RBRACE]);
    case _ => LexScalar(v, rest);
  }

  lemma {:induction false} LexPrettyItems(items: seq<Value>, sep: Text, st: seq<Token>, indent: nat, rest: Text)
    requires (forall x :: x in items ==> WellFormed(x)) && Separator(sep, st) && rest != [] && EndsNumber(rest)
    ensures Lex(PrettyItems(items, sep, indent) + rest) == Attach(ItemTokens(items, st), Lex(rest))
    decreases items, 1
  {
    hide Lex, Attach, NewLine;
    if items == [] {
      assert PrettyItems(items, sep, indent) + rest == rest;
      LexSeparator([], [], rest);
      assert [] + rest == rest;
    } else {
      var more, item := PrettyItems(items[1..], [COMMA], indent), Pretty(items[0], indent);
      LexPrettyItems(items[1..], [COMMA], [Mark(COMMA)], indent, rest);
      LexPretty(items[0], indent, more + rest);
      LexNewLine(indent, item + (more + rest));
      Assoc(NewLine(indent), item, more + rest);
      LexItem(sep, st, NewLine(indent) + item, Tokens(items[0]), more, ItemTokens(items[1..], [Mark(COMMA)]), rest);
      Assoc(sep, NewLine(indent), item);
    }
  }

  lemma {:induction false} LexPrettyMembers(members: seq<Member>, sep: Text, st: seq<Token>, indent: nat, rest: Text)
    requires (forall m :: m in members ==> WellFormed(m.value)) && Separator(sep, st) && rest != [] && EndsNumber(rest)
    ensures Lex(PrettyMembers(members, sep, indent) + rest) == Attach(MemberTokens(members, st), Lex(rest))
    decreases members, 1
  {
    hide Lex, Attach, Quoted, NewLine;
    if members == [] {
      assert PrettyMembers(members, sep, indent) + rest == rest;
      LexSeparator([], [], rest);
      assert [] + rest == rest;
    } else {
      var m, more := members[0], PrettyMembers(members[1..], [COMMA], indent);
      var value := Pretty(m.value, indent);
      LexPrettyMembers(members[1..], [COMMA], [Mark(COMMA)], indent, rest);
      LexPretty(m.value, indent, more + rest);
      LexField(m.name, [COLON, SPACE], value, Tokens(m.value), more + rest);
      var field := Quoted(m.name) + [COLON, SPACE] + value;
      LexNewLine(indent, field + (more + rest));
      Assoc(NewLine(indent), field, more + rest);
      LexItem(sep, st, NewLine(indent) + field, [Literal(m.name), Mark(COLON)] + Tokens(m.value),
              more, MemberTokens(members[1..], [Mark(COMMA)]), rest);
      Assoc(sep, NewLine(indent), field);
      Assoc(sep + NewLine(indent), Quoted(m.name) + [COLON, SPACE], value);
      Assoc(sep + NewLine(indent), Quoted(m.name), [COLON, SPACE]);
      Assoc(st, [Literal(m.name), Mark(COLON)], Tokens(m.value));
    }
  }

  // ----- the theorems

  lemma ParseWhole(v: Value, t: Text)
    requires Lex(t) == Some(Tokens(v))
    ensures Parse(t) == Some(Meaning(v))
  {
    hide Lex, ParseValue, Tokens;
    ParseTokens(v, []);
    assert Tokens(v) + [] == Tokens(v);
  }

  /** The compact text of a tree reads back as that tree. */
  lemma CompactRoundTrip(v: Value)
    requires WellFormed(v)
    ensures Parse(Compact(v)) == Some(Meaning(v))
  {
    LexCompact(v, []);
    assert Compact(v) + [] == Compact(v) && Tokens(v) + [] == Tokens(v);
    ParseWhole(v, Compact(v));
  }

  /** So does the pretty text, at any indentation, of every tree that has one: there is no member
      named `hasOwnProperty`. */
  lemma PrettyRoundTrip(v: Value, indent: nat)
    requires WellFormed(v)
    ensures var t := Printed(v, indent);
      (t.Some? <==> Prints(v)) && (t.Some? ==> Parse(t.value) == Some(Meaning(v)))
  {
    hide Printed, Prints;
    PrintedExactly(v, indent);
    LexPretty(v, indent, []);
    assert Pretty(v, indent) + [] == Pretty(v, indent) && Tokens(v) + [] == Tokens(v);
    ParseWhole(v, Pretty(v, indent));
  }
}
