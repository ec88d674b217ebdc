/** `goog.json.Serializer` and `goog.format.JsonPrettyPrinter` with its text delimiters, and a
    reader for RFC 8259 to say what their output means.

    Strings are sequences of UTF-16 code units. A finite number stands for the literal that
    JavaScript prints for it. */
module Json {
  import opened Wrappers

  type CodeUnit = n: int | 0 <= n < 0x1_0000
  type Text = seq<CodeUnit>

  const QUOTE: CodeUnit := 0x22
  const COMMA: CodeUnit := 0x2c
  const COLON: CodeUnit := 0x3a
  const BACKSLASH: CodeUnit := 0x5c
  const LBRACKET: CodeUnit := 0x5b
  const RBRACKET: CodeUnit := 0x5d
  const LBRACE: CodeUnit := 0x7b
  const RBRACE: CodeUnit := 0x7d
  const SPACE: CodeUnit := 0x20
  const NEWLINE: CodeUnit := 0x0a

  const NULL: Text := [0x6e, 0x75, 0x6c, 0x6c]
  const TRUE: Text := [0x74, 0x72, 0x75, 0x65]
  const FALSE: Text := [0x66, 0x61, 0x6c, 0x73, 0x65]

  datatype Value =
    | Null
    | Bool(b: bool)
    | Number(literal: Text)
    | NotFinite                                   // NaN and the infinities
    | String(s: Text)
    | Array(items: seq<Value>)
    | Object(members: seq<Member>)

  datatype Member = Member(name: Text, value: Value)

  // ----- number literals, section 6 of RFC 8259

  predicate IsDigit(c: CodeUnit) {
    0x30 <= c <= 0x39
  }

  /** The rest of t after its leading digits. */
  function SkipDigits(t: Text): Text {
    if t != [] && IsDigit(t[0]) then SkipDigits(t[1..]) else t
  }

  function SkipFraction(t: Text): Option<Text> {
    if t == [] || t[0] != 0x2e then Some(t)
    else if |t| > 1 && IsDigit(t[1]) then Some(SkipDigits(t[1..]))
    else None
  }

  predicate IsExponent(t: Text) {
    t == [] ||
    (t[0] in {0x45, 0x65} &&
      var d := if |t| > 1 && t[1] in {0x2b, 0x2d} then t[2..] else t[1..];
      d != [] && SkipDigits(d) == [])
  }

  predicate IsUnsigned(t: Text) {
    t != [] && IsDigit(t[0]) &&
    var rest := SkipFraction(if t[0] == 0x30 then t[1..] else SkipDigits(t));
    rest.Some? && IsExponent(rest.value)
  }

  predicate IsNumber(t: Text) {
    t != [] && IsUnsigned(if t[0] == 0x2d then t[1..] else t)
  }

  predicate IsNumberChar(c: CodeUnit) {
    IsDigit(c) || c in {0x2b, 0x2d, 0x2e, 0x45, 0x65}
  }

  lemma {:induction false} DigitsAreNumberChars(t: Text)
    requires forall c :: c in SkipDigits(t) ==> IsNumberChar(c)
    ensures forall c :: c in t ==> IsNumberChar(c)
  {
    if t != [] && IsDigit(t[0]) {
      DigitsAreNumberChars(t[1..]);
      assert t == [t[0]] + t[1..];
    }
  }

  lemma ExponentChars(t: Text)
    requires IsExponent(t)
    ensures forall c :: c in t ==> IsNumberChar(c)
  {
    if t != [] {
      var d := if |t| > 1 && t[1] in {0x2b, 0x2d} then t[2..] else t[1..];
      DigitsAreNumberChars(d);
      assert t == [t[0]] + (if |t| > 1 && t[1] in {0x2b, 0x2d} then [t[1]] else []) + d;
    }
  }

  lemma FractionChars(t: Text)
    requires SkipFraction(t).Some? && forall c :: c in SkipFraction(t).value ==> IsNumberChar(c)
    ensures forall c :: c in t ==> IsNumberChar(c)
  {
    if t != [] && t[0] == 0x2e {
      DigitsAreNumberChars(t[1..]);
      assert t == [t[0]] + t[1..];
    }
  }

  lemma NumberChars(t: Text)
    requires IsNumber(t)
    ensures (IsDigit(t[0]) || t[0] == 0x2d) && forall c :: c in t ==> IsNumberChar(c)
  {
    var u := if t[0] == 0x2d then t[1..] else t;
    var i := if u[0] == 0x30 then u[1..] else SkipDigits(u);
    ExponentChars(SkipFraction(i).value);
    FractionChars(i);
    if u[0] == 0x30 {
      assert u == [u[0]] + i;
    } else {
      DigitsAreNumberChars(u);
    }
    assert t[0] == 0x2d ==> t == [t[0]] + u;
  }

  /** The trees the theorems are about: every number literal is one. */
  ghost predicate WellFormed(v: Value) {
    match v
    case Number(l) => IsNumber(l)
    case Array(items) => forall x :: x in items ==> WellFormed(x)
    case Object(members) => forall m :: m in members ==> WellFormed(m.value)
    case _ => true
  }

  /** What is left of a tree in JSON: a number that is not finite becomes null. */
  function Meaning(v: Value): Value {
    match v
    case NotFinite => Null
    case Array(items) => Array(MeaningItems(items))
    case Object(members) => Object(MeaningMembers(members))
    case _ => v
  }

  function MeaningItems(items: seq<Value>): seq<Value> {
    if items == [] then [] else [Meaning(items[0])] + MeaningItems(items[1..])
  }

  function MeaningMembers(members: seq<Member>): seq<Member> {
    if members == [] then []
    else [Member(members[0].name, Meaning(members[0].value))] + MeaningMembers(members[1..])
  }

  // ----- strings

  /** The class `[\\\"\x00-\x1f\x7f-\uffff]` of the characters to replace. */
  predicate MustEscape(c: CodeUnit) {
    c == BACKSLASH || c == QUOTE || c < 0x20 || c >= 0x7f
  }

  function HexDigit(d: int): CodeUnit
    requires 0 <= d < 16
  {
    if d < 10 then 0x30 + d else 0x61 + d - 10
  }

  /** `toString(16)` after the zeros that make four digits. */
  function Hex4(c: CodeUnit): Text {
    [HexDigit(c / 4096), HexDigit(c / 256 % 16), HexDigit(c / 16 % 16), HexDigit(c % 16)]
  }

  function EscapeChar(c: CodeUnit): Text {
    if !MustEscape(c) then [c]
    else if c == QUOTE || c == BACKSLASH then [BACKSLASH, c]
    else if c == 0x08 then [BACKSLASH, 0x62]
    else if c == 0x0c then [BACKSLASH, 0x66]
    else if c == 0x0a then [BACKSLASH, 0x6e]
    else if c == 0x0d then [BACKSLASH, 0x72]
    else if c == 0x09 then [BACKSLASH, 0x74]
    else [BACKSLASH, 0x75] + Hex4(c)
  }

  function Escape(s: Text): Text {
    if s == [] then [] else EscapeChar(s[0]) + Escape(s[1..])
  }

  function Quoted(s: Text): Text {
    [QUOTE] + Escape(s) + [QUOTE]
  }

  // ----- the compact text

  function Compact(v: Value): Text {
    match v
    case Null => NULL
    case Bool(b) => if b then TRUE else FALSE
    case Number(l) => l
    case NotFinite => NULL
    case String(s) => Quoted(s)
    case Array(items) => [LBRACKET] + CompactItems(items, []) + [RBRACKET]
    case Object(members) => [LBRACE] + CompactMembers(members, []) + [RBRACE]
  }

  /** The items, each after a separator, which is `sep` before the first. */
  function CompactItems(items: seq<Value>, sep: Text): Text {
    if items == [] then [] else sep + Compact(items[0]) + CompactItems(items[1..], [COMMA])
  }

  function CompactMembers(members: seq<Member>, sep: Text): Text {
    if members == [] then []
    else
      sep + Quoted(members[0].name) + [COLON] + Compact(members[0].value) + CompactMembers(members[1..], [COMMA])
  }

  // ----- the layout of the pretty text

  function Spaces(n: nat): Text {
    seq(n, _ => SPACE)
  }

  function NewLine(indent: nat): Text {
    [NEWLINE] + Spaces(indent)
  }

  function Pretty(v: Value, indent: nat): Text {
    match v
    case Array(items) =>
      [LBRACKET] + PrettyItems(items, [], indent + 2) + (if items == [] then [] else NewLine(indent)) + [RBRACKET]
    case Object(members) =>
      [LBRACE] + PrettyMembers(members, [], indent + 2) + (if members == [] then [] else NewLine(indent)) + [RBRACE]
    case _ => Compact(v)
  }

  function PrettyItems(items: seq<Value>, sep: Text, indent: nat): Text {
    if items == [] then []
    else sep + NewLine(indent) + Pretty(items[0], indent) + PrettyItems(items[1..], [COMMA], indent)
  }

  function PrettyMembers(members: seq<Member>, sep: Text, indent: nat): Text {
    if members == [] then []
    else
      sep + NewLine(indent) + Quoted(members[0].name) + [COLON, SPACE] + Pretty(members[0].value, indent)
        + PrettyMembers(members[1..], [COMMA], indent)
  }

  // ----- the pretty printer

  /** `hasOwnProperty` */
  const HAS_OWN: Text := [0x68, 0x61, 0x73, 0x4f, 0x77, 0x6e, 0x50, 0x72, 0x6f, 0x70, 0x65, 0x72, 0x74, 0x79]

  /** The printer calls `hasOwnProperty` on the object that it prints, and a member of this name
      stands in the way: it is a value and no function, so the call throws. */
  predicate Shadows(members: seq<Member>) {
    exists i :: 0 <= i < |members| && members[i].name == HAS_OWN
  }

  /** `printObject_`; None is the exception. */
  function Printed(v: Value, indent: nat): Option<Text> {
    match v
    case Array(items) =>
      var inner := PrintedItems(items, [], indent + 2);
      if inner.None? then None
      else Some([LBRACKET] + inner.value + (if items == [] then [] else NewLine(indent)) + [RBRACKET])
    case Object(members) =>
      var inner := PrintedMembers(members, [], indent + 2);
      if Shadows(members) || inner.None? then None
      else Some([LBRACE] + inner.value + (if members == [] then [] else NewLine(indent)) + [RBRACE])
    case _ => Some(Compact(v))
  }

  function PrintedItems(items: seq<Value>, sep: Text, indent: nat): Option<Text> {
    if items == [] then Some([])
    else
      var item, more := Printed(items[0], indent), PrintedItems(items[1..], [COMMA], indent);
      if item.None? || more.None? then None else Some(sep + NewLine(indent) + item.value + more.value)
  }

  function PrintedMembers(members: seq<Member>, sep: Text, indent: nat): Option<Text> {
    if members == [] then Some([])
    else
      var value, more := Printed(members[0].value, indent), PrintedMembers(members[1..], [COMMA], indent);
      if value.None? || more.None? then None
      else Some(sep + NewLine(indent) + Quoted(members[0].name) + [COLON, SPACE] + value.value + more.value)
  }

  /** No object of the tree has a member named `hasOwnProperty`. */
  ghost predicate Prints(v: Value) {
    match v
    case Array(items) => forall x :: x in items ==> Prints(x)
    case Object(members) => !Shadows(members) && forall m :: m in members ==> Prints(m.value)
    case _ => true
  }

  /** The printer gives a text exactly for these trees, and then in the layout above. */
  lemma {:induction false} PrintedExactly(v: Value, indent: nat)
    ensures Printed(v, indent) == if Prints(v) then Some(Pretty(v, indent)) else None
    decreases v, 0
  {
    hide NewLine, Shadows, Quoted;
    match v
    case Array(items) => PrintedItemsExactly(items, [], indent + 2);
    case Object(members) => PrintedMembersExactly(members, [], indent + 2);
    case _ =>
  }

  lemma {:induction false} PrintedItemsExactly(items: seq<Value>, sep: Text, indent: nat)
    ensures PrintedItems(items, sep, indent) ==
      if forall x :: x in items ==> Prints(x) then Some(PrettyItems(items, sep, indent)) else None
    decreases items, 1
  {
    hide NewLine, Pretty, Prints;
    if items != [] {
      PrintedExactly(items[0], indent);
      PrintedItemsExactly(items[1..], [COMMA], indent);
      assert items == [items[0]] + items[1..];
      assert forall x :: x in items <==> x == items[0] || x in items[1..];
    }
  }

  lemma {:induction false} PrintedMembersExactly(members: seq<Member>, sep: Text, indent: nat)
    ensures PrintedMembers(members, sep, indent) ==
      if forall m :: m in members ==> Prints(m.value) then Some(PrettyMembers(members, sep, indent)) else None
    decreases members, 1
  {
    hide NewLine, Pretty, Prints, Quoted;
    if members != [] {
      PrintedExactly(members[0].value, indent);
      PrintedMembersExactly(members[1..], [COMMA], indent);
      assert members == [members[0]] + members[1..];
      assert forall m :: m in members <==> m == members[0] || m in members[1..];
    }
  }

  /** A tree with a compact text and no pretty one. */
  lemma ShadowedIsNotPrinted(v: Value, indent: nat)
    ensures Printed(Object([Member(HAS_OWN, v)]), indent) == None
    ensures Compact(Object([Member(HAS_OWN, v)])) == [LBRACE] + Quoted(HAS_OWN) + [COLON] + Compact(v) + [RBRACE]
  {
    hide Quoted;
    var members := [Member(HAS_OWN, v)];
    assert members[0].name == HAS_OWN && members[1..] == [];
    assert CompactMembers(members[1..], [COMMA]) == [];
    var inner := Quoted(HAS_OWN) + [COLON] + Compact(v);
    assert CompactMembers(members, []) == [] + Quoted(HAS_OWN) + [COLON] + Compact(v) + [] == inner;
    assert [LBRACE] + inner + [RBRACE] == [LBRACE] + Quoted(HAS_OWN) + [COLON] + Compact(v) + [RBRACE];
  }
}
