/**
 The grammar of JsonText is unambiguous: no byte string is written by two different trees, so what the
 decoder builds is a function of the bytes.
 */
module JsonReading {
  import opened Foundation
  import opened Decimals
  import opened JsonText

  // ---------- reading the front of a text ----------

  lemma SameFront<T>(u: seq<T>, x: seq<T>, v: seq<T>, y: seq<T>)
    requires u + x == v + y && |u| == |v|
    ensures u == v && x == y
  {
    assert (u + x)[..|u|] == u && (v + y)[..|v|] == v;
    assert (u + x)[|u|..] == x && (v + y)[|v|..] == y;
  }

  predicate StopsRun(inRun: Byte -> bool, text: Bytes) {
    text == [] || !inRun(text[0])
  }

  function RunLength(inRun: Byte -> bool, text: Bytes): nat {
    if StopsRun(inRun, text) then 0 else 1 + RunLength(inRun, text[1..])
  }

  lemma {:induction false} RunLengthOf(inRun: Byte -> bool, u: Bytes, x: Bytes)
    requires (forall i :: 0 <= i < |u| ==> inRun(u[i])) && StopsRun(inRun, x)
    ensures RunLength(inRun, u + x) == |u|
  {
    if u == [] {
      assert u + x == x;
    } else {
      RunLengthOf(inRun, u[1..], x);
      assert (u + x)[1..] == u[1..] + x;
    }
  }

  /** A run of bytes of one class ends where the class ends. */
  lemma RunIsUnique(inRun: Byte -> bool, u: Bytes, x: Bytes, v: Bytes, y: Bytes)
    requires u + x == v + y
    requires forall i :: 0 <= i < |u| ==> inRun(u[i])
    requires forall i :: 0 <= i < |v| ==> inRun(v[i])
    requires StopsRun(inRun, x) && StopsRun(inRun, y)
    ensures u == v && x == y
  {
    RunLengthOf(inRun, u, x);
    RunLengthOf(inRun, v, y);
    SameFront(u, x, v, y);
  }

  // ---------- strings ----------

  /** The length of a character and its scalar value, read off its bytes. */
  function Utf8Length(first: Byte): nat {
    if first < 0x80 then 1 else if first < 0xE0 then 2 else if first < 0xF0 then 3 else 4
  }

  function FromUtf8(bytes: Bytes): int
    requires 1 <= |bytes| <= 4
  {
    var a: int := bytes[0];
    match |bytes|
    case 1 => a
    case 2 => (a - 0xC0) * 0x40 + Trailing(bytes[1])
    case 3 => (a - 0xE0) * 0x1000 + Trailing(bytes[1]) * 0x40 + Trailing(bytes[2])
    case _ => (a - 0xF0) * 0x40000 + Trailing(bytes[1]) * 0x1000 + Trailing(bytes[2]) * 0x40 + Trailing(bytes[3])
  }

  function Trailing(b: Byte): int {
    b as int - 0x80
  }

  lemma Utf8IsReadable(scalar: nat)
    requires scalar <= 0x10FFFF
    ensures var bytes := Utf8(scalar);
      1 <= |bytes| <= 4 && Utf8Length(bytes[0]) == |bytes| && FromUtf8(bytes) == scalar
  {
    var two, three := scalar / 0x40, scalar / 0x1000;
    assert scalar == two * 0x40 + scalar % 0x40;
    assert two == three * 0x40 + two % 0x40;
    if scalar >= 0x10000 {
      assert three == scalar / 0x40000 * 0x40 + three % 0x40;
    }
  }

  lemma Utf8IsUnique(a: nat, x: Bytes, b: nat, y: Bytes)
    requires a <= 0x10FFFF && b <= 0x10FFFF && Utf8(a) + x == Utf8(b) + y
    ensures a == b && x == y
  {
    var u, v := Utf8(a), Utf8(b);
    Utf8IsReadable(a);
    Utf8IsReadable(b);
    hide Utf8, FromUtf8;
    assert u[0] == (u + x)[0] == (v + y)[0] == v[0];
    SameFront(u, x, v, y);
  }

  /** The first byte tells an unescaped character from an escape, and both from the closing quote. */
  lemma CharStart(c: StringChar)
    requires WellFormedChar(c)
    ensures PrintChar(c) != [] && PrintChar(c)[0] != QUOTE
    ensures PrintChar(c)[0] == BACKSLASH <==> !c.Unescaped?
  {
  }

  lemma CharIsUnique(c: StringChar, x: Bytes, d: StringChar, y: Bytes)
    requires WellFormedChar(c) && WellFormedChar(d) && PrintChar(c) + x == PrintChar(d) + y
    ensures c == d && x == y
  {
    var u, v := PrintChar(c), PrintChar(d);
    CharStart(c);
    CharStart(d);
    assert u[0] == (u + x)[0] == (v + y)[0] == v[0];
    if c.Unescaped? {
      Utf8IsUnique(c.scalar, x, d.scalar, y);
    } else {
      assert u[1] == (u + x)[1] == (v + y)[1] == v[1];
      assert |u| == |v|;
      SameFront(u, x, v, y);
      if c.Hex? {
        assert u[2..] == c.digits && v[2..] == d.digits;
      }
    }
  }

  lemma PrintCharsCons(chars: seq<StringChar>, x: Bytes)
    requires WellFormedChars(chars) && chars != []
    ensures PrintChars(chars) + ([QUOTE] + x) == PrintChar(chars[0]) + (PrintChars(chars[1..]) + ([QUOTE] + x))
  {
  }

  lemma {:induction false} CharsAreUnique(a: seq<StringChar>, x: Bytes, b: seq<StringChar>, y: Bytes)
    requires WellFormedChars(a) && WellFormedChars(b)
    requires PrintChars(a) + ([QUOTE] + x) == PrintChars(b) + ([QUOTE] + y)
    ensures a == b && x == y
    decreases |a|
  {
    hide PrintChars, PrintChar;
    QuoteEnds(a, x);
    QuoteEnds(b, y);
    if a == [] {
      SameFront([QUOTE], x, [QUOTE], y);
    } else {
      PrintCharsCons(a, x);
      PrintCharsCons(b, y);
      CharIsUnique(
        a[0], PrintChars(a[1..]) + ([QUOTE] + x), b[0], PrintChars(b[1..]) + ([QUOTE] + y));
      CharsAreUnique(a[1..], x, b[1..], y);
    }
  }

  /** The first quote byte after the opening one closes the string. */
  lemma QuoteEnds(chars: seq<StringChar>, x: Bytes)
    requires WellFormedChars(chars)
    ensures (PrintChars(chars) + ([QUOTE] + x))[0] == QUOTE <==> chars == []
    ensures chars == [] ==> PrintChars(chars) + ([QUOTE] + x) == [QUOTE] + x
  {
    if chars != [] {
      CharStart(chars[0]);
      PrintCharsCons(chars, x);
    }
  }

  lemma StringIsUnique(a: seq<StringChar>, x: Bytes, b: seq<StringChar>, y: Bytes)
    requires WellFormedChars(a) && WellFormedChars(b) && PrintString(a) + x == PrintString(b) + y
    ensures a == b && x == y
  {
    var u, v := PrintChars(a) + ([QUOTE] + x), PrintChars(b) + ([QUOTE] + y);
    assert PrintString(a) + x == [QUOTE] + u && PrintString(b) + y == [QUOTE] + v;
    SameFront([QUOTE], u, [QUOTE], v);
    CharsAreUnique(a, x, b, y);
  }

  // ---------- numbers ----------

  predicate InNumber(b: Byte) {
    IsDigit(b) || b == POINT || b == 0x65 || b == 0x45
  }

  function PrintFraction(fraction: Bytes): Bytes {
    if fraction == [] then [] else [POINT] + fraction
  }

  predicate WellFormedExponent(e: Exponent) {
    e.Exponent? ==>
      e.mark in [0x65, 0x45] && e.sign in [[], [PLUS], [MINUS]] && e.digits != [] && AllDigits(e.digits)
  }

  /** An exponent mark is never what follows a number. */
  lemma ExponentStart(e: Exponent, x: Bytes)
    requires WellFormedExponent(e) && StopsRun(InNumber, x)
    ensures var text := PrintExponent(e) + x;
      && (e.Exponent? <==> text != [] && text[0] in [0x65, 0x45])
      && (e.NoExponent? ==> text == x)
      && (e.Exponent? ==> text == [e.mark] + (e.sign + (e.digits + x)))
  {
  }

  lemma SignIsUnique(a: Bytes, x: Bytes, b: Bytes, y: Bytes)
    requires a in [[], [PLUS], [MINUS]] && b in [[], [PLUS], [MINUS]] && a + x == b + y
    requires x != [] && y != [] && IsDigit(x[0]) && IsDigit(y[0])
    ensures a == b && x == y
  {
    assert a == [] <==> IsDigit((a + x)[0]);
    assert b == [] <==> IsDigit((b + y)[0]);
    SameFront(a, x, b, y);
  }

  lemma ExponentIsUnique(a: Exponent, x: Bytes, b: Exponent, y: Bytes)
    requires WellFormedExponent(a) && WellFormedExponent(b)
    requires PrintExponent(a) + x == PrintExponent(b) + y && StopsRun(InNumber, x) && StopsRun(InNumber, y)
    ensures a == b && x == y
  {
    ExponentStart(a, x);
    ExponentStart(b, y);
    hide PrintExponent;
    if a.Exponent? {
      SameFront([a.mark], a.sign + (a.digits + x), [b.mark], b.sign + (b.digits + y));
      SignIsUnique(a.sign, a.digits + x, b.sign, b.digits + y);
      RunIsUnique(IsDigit, a.digits, x, b.digits, y);
    }
  }

  /** What can follow the digits before or after the point. */
  predicate AfterFraction(text: Bytes) {
    text != [] ==> !IsDigit(text[0]) && text[0] != POINT
  }

  lemma FractionStart(fraction: Bytes, x: Bytes)
    requires AfterFraction(x)
    ensures var text := PrintFraction(fraction) + x;
      && (fraction != [] <==> text != [] && text[0] == POINT)
      && (text == if fraction == [] then x else [POINT] + (fraction + x))
  {
  }

  lemma FractionIsUnique(a: Bytes, x: Bytes, b: Bytes, y: Bytes)
    requires AllDigits(a) && AllDigits(b) && PrintFraction(a) + x == PrintFraction(b) + y
    requires AfterFraction(x) && AfterFraction(y)
    ensures a == b && x == y
  {
    FractionStart(a, x);
    FractionStart(b, y);
    hide PrintFraction;
    if a != [] {
      SameFront([POINT], a + x, [POINT], b + y);
      RunIsUnique(IsDigit, a, x, b, y);
    }
  }

  /** What follows the digits before the point. */
  function Tail(n: Number, x: Bytes): Bytes {
    PrintFraction(n.fraction) + (PrintExponent(n.exponent) + x)
  }

  lemma FivePieces(a: Bytes, b: Bytes, c: Bytes, d: Bytes, x: Bytes)
    ensures a + b + c + d + x == a + (b + (c + (d + x)))
  {
  }

  lemma NumberParts(n: Number, x: Bytes)
    requires WellFormedNumber(n) && StopsRun(InNumber, x)
    ensures PrintNumber(n) + x == (if n.minus then [MINUS] else []) + (n.whole + Tail(n, x))
    ensures WellFormedExponent(n.exponent) && AfterFraction(PrintExponent(n.exponent) + x)
    ensures StopsRun(IsDigit, Tail(n, x))
  {
    FivePieces(
      if n.minus then [MINUS] else [], n.whole, PrintFraction(n.fraction), PrintExponent(n.exponent), x);
    ExponentStart(n.exponent, x);
    FractionStart(n.fraction, PrintExponent(n.exponent) + x);
    hide PrintExponent, AllDigits;
  }

  lemma NumberIsUnique(a: Number, x: Bytes, b: Number, y: Bytes)
    requires WellFormedNumber(a) && WellFormedNumber(b) && PrintNumber(a) + x == PrintNumber(b) + y
    requires StopsRun(InNumber, x) && StopsRun(InNumber, y)
    ensures a == b && x == y
  {
    NumberParts(a, x);
    NumberParts(b, y);
    hide PrintNumber;
    var u, v := a.whole + Tail(a, x), b.whole + Tail(b, y);
    var minusA, minusB := if a.minus then [MINUS] else [], if b.minus then [MINUS] else [];
    assert u[0] == a.whole[0] && v[0] == b.whole[0];
    assert (minusA + u)[0] == (minusB + v)[0];
    assert a.minus == b.minus;
    SameFront(minusA, u, minusB, v);
    RunIsUnique(IsDigit, a.whole, Tail(a, x), b.whole, Tail(b, y));
    FractionIsUnique(a.fraction, PrintExponent(a.exponent) + x, b.fraction, PrintExponent(b.exponent) + y);
    ExponentIsUnique(a.exponent, x, b.exponent, y);
  }

  // ---------- values ----------

  /** What can follow a value: white space, a separator or a closing bracket. */
  predicate Follows(text: Bytes) {
    text != [] ==> IsWhite(text[0]) || text[0] in [COMMA, CLOSE_BRACKET, CLOSE_BRACE]
  }

  datatype Kind = AtNull | AtTrue | AtFalse | AtNumber | AtString | AtArray | AtObject | AtOther

  function KindOf(b: Byte): Kind {
    if b == 0x6E then AtNull
    else if b == 0x74 then AtTrue
    else if b == 0x66 then AtFalse
    else if b == MINUS || IsDigit(b) then AtNumber
    else if b == QUOTE then AtString
    else if b == OPEN_BRACKET then AtArray
    else if b == OPEN_BRACE then AtObject
    else AtOther
  }

  function TreeKind(t: Tree): Kind {
    match t
    case NullTree => AtNull
    case TrueTree => AtTrue
    case FalseTree => AtFalse
    case NumberTree(_) => AtNumber
    case StringTree(_) => AtString
    case EmptyArrayTree(_) => AtArray
    case ArrayTree(_) => AtArray
    case EmptyObjectTree(_) => AtObject
    case ObjectTree(_) => AtObject
  }

  /** The first byte of a value tells its kind. */
  lemma FirstByte(t: Tree, x: Bytes)
    requires WellFormedTree(t)
    ensures PrintTree(t) + x != [] && KindOf((PrintTree(t) + x)[0]) == TreeKind(t)
  {
    if t.NumberTree? {
      NumberParts(t.number, []);
    }
  }

  lemma WhiteIsUnique(u: Bytes, x: Bytes, v: Bytes, y: Bytes)
    requires AllWhite(u) && AllWhite(v) && u + x == v + y
    requires x != [] ==> !IsWhite(x[0])
    requires y != [] ==> !IsWhite(y[0])
    ensures u == v && x == y
  {
    RunIsUnique(IsWhite, u, x, v, y);
  }

  lemma LiteralIsUnique(t: Tree, x: Bytes, y: Bytes)
    requires t in [NullTree, TrueTree, FalseTree] && PrintTree(t) + x == PrintTree(t) + y
    ensures x == y
  {
    SameFront(PrintTree(t), x, PrintTree(t), y);
  }

  // ---------- what stands inside brackets ----------

  lemma PushIn(u: Bytes, w: Bytes, z: Bytes)
    ensures (u + w) + z == u + (w + z)
  {
  }

  lemma PushInside(a: Bytes, b: Bytes, c: Bytes, d: Bytes, z: Bytes)
    ensures (a + (b + (c + d))) + z == a + (b + (c + (d + z)))
  {
    PushIn(a, b + (c + d), z);
    PushIn(b, c + d, z);
    PushIn(c, d, z);
  }

  /** The text after a list's opening bracket. */
  function Inside(t: Tree, x: Bytes): Bytes
    requires WellFormedTree(t) && TreeKind(t) in [AtArray, AtObject]
  {
    match t
    case EmptyArrayTree(white) => white + ([CLOSE_BRACKET] + x)
    case ArrayTree(items) => PrintItems(items) + ([CLOSE_BRACKET] + x)
    case EmptyObjectTree(white) => white + ([CLOSE_BRACE] + x)
    case ObjectTree(members) => PrintMembers(members) + ([CLOSE_BRACE] + x)
  }

  function MoreItemsText(items: Items, x: Bytes): Bytes
    requires WellFormedItems(items)
  {
    if items.MoreItems? then [COMMA] + (PrintItems(items.rest) + ([CLOSE_BRACKET] + x)) else [CLOSE_BRACKET] + x
  }

  function ItemText(items: Items, x: Bytes): Bytes
    requires WellFormedItems(items)
  {
    PrintTree(items.item) + (items.after + MoreItemsText(items, x))
  }

  lemma ItemsText(items: Items, x: Bytes)
    requires WellFormedItems(items)
    ensures PrintItems(items) + ([CLOSE_BRACKET] + x) == items.before + ItemText(items, x)
    ensures ItemText(items, x) != [] && KindOf(ItemText(items, x)[0]) != AtOther && !IsWhite(ItemText(items, x)[0])
    ensures Follows(items.after + MoreItemsText(items, x))
  {
    FirstByte(items.item, items.after + MoreItemsText(items, x));
    hide PrintTree, WellFormedTree, TreeKind;
    ItemsPieces(items, x);
  }

  lemma ItemsPieces(items: Items, x: Bytes)
    requires WellFormedItems(items)
    ensures PrintItems(items) + ([CLOSE_BRACKET] + x) == items.before + ItemText(items, x)
  {
    ItemsUnfolded(items, x);
    hide PrintItems, PrintMoreItems, MoreItemsText, PrintTree, ItemText, WellFormedTree, WellFormedItems;
    var value, more, z := PrintTree(items.item), PrintMoreItems(items), [CLOSE_BRACKET] + x;
    PushInside(items.before, value, items.after, more, z);
  }

  lemma ItemsUnfolded(items: Items, x: Bytes)
    requires WellFormedItems(items)
    ensures PrintItems(items) == items.before + (PrintTree(items.item) + (items.after + PrintMoreItems(items)))
    ensures ItemText(items, x) == PrintTree(items.item) + (items.after + MoreItemsText(items, x))
    ensures PrintMoreItems(items) + ([CLOSE_BRACKET] + x) == MoreItemsText(items, x)
  {
    hide PrintTree, WellFormedTree;
    if items.MoreItems? {
      PushIn([COMMA], PrintItems(items.rest), [CLOSE_BRACKET] + x);
    }
  }

  function MoreMembersText(members: Members, x: Bytes): Bytes
    requires WellFormedMembers(members)
  {
    if members.MoreMembers? then [COMMA] + (PrintMembers(members.rest) + ([CLOSE_BRACE] + x)) else [CLOSE_BRACE] + x
  }

  function ValueText(members: Members, x: Bytes): Bytes
    requires WellFormedMembers(members)
  {
    PrintTree(members.item) + (members.after + MoreMembersText(members, x))
  }

  function KeyText(members: Members, x: Bytes): Bytes
    requires WellFormedMembers(members)
  {
    PrintString(members.key) + (members.mid + ([COLON] + (members.lead + ValueText(members, x))))
  }

  lemma MembersText(members: Members, x: Bytes)
    requires WellFormedMembers(members)
    ensures PrintMembers(members) + ([CLOSE_BRACE] + x) == members.before + KeyText(members, x)
    ensures KeyText(members, x) != [] && KeyText(members, x)[0] == QUOTE
    ensures ValueText(members, x) != [] && !IsWhite(ValueText(members, x)[0])
    ensures Follows(members.after + MoreMembersText(members, x))
  {
    FirstByte(members.item, members.after + MoreMembersText(members, x));
    hide PrintTree, WellFormedTree, TreeKind;
    MembersPieces(members, x);
  }

  lemma PushThrough(a: Bytes, b: Bytes, c: Bytes, colon: Bytes, d: Bytes, e: Bytes, f: Bytes, g: Bytes, z: Bytes)
    ensures (a + (b + (c + (colon + (d + (e + (f + g))))))) + z
      == a + (b + (c + (colon + (d + (e + (f + (g + z)))))))
  {
    PushInside(d, e, f, g, z);
    PushIn(colon, d + (e + (f + g)), z);
    PushInside(a, b, c, colon + (d + (e + (f + g))), z);
  }

  lemma MembersPieces(members: Members, x: Bytes)
    requires WellFormedMembers(members)
    ensures PrintMembers(members) + ([CLOSE_BRACE] + x) == members.before + KeyText(members, x)
  {
    MembersUnfolded(members, x);
    hide PrintMembers, PrintMoreMembers, MoreMembersText, PrintTree, PrintString, KeyText, ValueText;
    hide WellFormedTree, WellFormedMembers, WellFormedChars;
    var key, value := PrintString(members.key), PrintTree(members.item);
    PushThrough(
      members.before, key, members.mid, [COLON], members.lead, value, members.after, PrintMoreMembers(members),
      [CLOSE_BRACE] + x);
  }

  lemma MembersUnfolded(members: Members, x: Bytes)
    requires WellFormedMembers(members)
    ensures PrintMembers(members) == members.before + (PrintString(members.key) + (members.mid + ([COLON]
      + (members.lead + (PrintTree(members.item) + (members.after + PrintMoreMembers(members)))))))
    ensures KeyText(members, x) == PrintString(members.key) + (members.mid + ([COLON]
      + (members.lead + (PrintTree(members.item) + (members.after + MoreMembersText(members, x))))))
    ensures PrintMoreMembers(members) + ([CLOSE_BRACE] + x) == MoreMembersText(members, x)
  {
    hide PrintTree, PrintString, WellFormedTree, WellFormedChars;
    if members.MoreMembers? {
      PushIn([COMMA], PrintMembers(members.rest), [CLOSE_BRACE] + x);
    }
  }

  /** The first byte that is not white space. */
  function FirstInk(text: Bytes): Option<Byte> {
    if text == [] then None else if IsWhite(text[0]) then FirstInk(text[1..]) else Some(text[0])
  }

  lemma {:induction false} InkAfterWhite(white: Bytes, x: Bytes)
    requires AllWhite(white) && x != [] && !IsWhite(x[0])
    ensures FirstInk(white + x) == Some(x[0])
  {
    if white == [] {
      assert white + x == x;
    } else {
      InkAfterWhite(white[1..], x);
      assert (white + x)[1..] == white[1..] + x;
    }
  }

  predicate IsEmptyList(t: Tree) {
    t.EmptyArrayTree? || t.EmptyObjectTree?
  }

  /** A list is empty exactly when its first visible byte is a closing bracket. */
  lemma EmptyIsVisible(t: Tree, x: Bytes)
    requires WellFormedTree(t) && TreeKind(t) in [AtArray, AtObject]
    ensures FirstInk(Inside(t, x)).Some?
    ensures IsEmptyList(t) <==> FirstInk(Inside(t, x)).value in [CLOSE_BRACKET, CLOSE_BRACE]
  {
    match t
    case EmptyArrayTree(white) => InkAfterWhite(white, [CLOSE_BRACKET] + x);
    case EmptyObjectTree(white) => InkAfterWhite(white, [CLOSE_BRACE] + x);
    case ArrayTree(items) =>
      ItemsText(items, x);
      InkAfterWhite(items.before, ItemText(items, x));
    case ObjectTree(members) =>
      MembersText(members, x);
      InkAfterWhite(members.before, KeyText(members, x));
  }

  lemma ListText(t: Tree, x: Bytes)
    requires WellFormedTree(t) && TreeKind(t) in [AtArray, AtObject]
    ensures PrintTree(t) + x == [if TreeKind(t) == AtArray then OPEN_BRACKET else OPEN_BRACE] + Inside(t, x)
  {
    match t
    case EmptyArrayTree(white) => PushIn(white, [CLOSE_BRACKET], x);
    case EmptyObjectTree(white) => PushIn(white, [CLOSE_BRACE], x);
    case ArrayTree(items) => PushIn(PrintItems(items), [CLOSE_BRACKET], x);
    case ObjectTree(members) => PushIn(PrintMembers(members), [CLOSE_BRACE], x);
  }

  lemma InsideIsSame(a: Tree, x: Bytes, b: Tree, y: Bytes)
    requires WellFormedTree(a) && WellFormedTree(b) && PrintTree(a) + x == PrintTree(b) + y
    requires TreeKind(a) == TreeKind(b) && TreeKind(a) in [AtArray, AtObject]
    ensures Inside(a, x) == Inside(b, y) && (IsEmptyList(a) <==> IsEmptyList(b))
  {
    hide PrintTree, Inside, FirstInk, WellFormedTree;
    ListText(a, x);
    ListText(b, y);
    EmptyIsVisible(a, x);
    EmptyIsVisible(b, y);
    var open := [if TreeKind(a) == AtArray then OPEN_BRACKET else OPEN_BRACE];
    SameFront(open, Inside(a, x), open, Inside(b, y));
  }

  // ---------- one tree for one text ----------

  /** No two values are written alike, whatever follows them. */
  lemma {:induction false} TreeIsUnique(a: Tree, x: Bytes, b: Tree, y: Bytes)
    requires WellFormedTree(a) && WellFormedTree(b) && PrintTree(a) + x == PrintTree(b) + y
    requires Follows(x) && Follows(y)
    ensures a == b && x == y
    decreases a
  {
    FirstByte(a, x);
    FirstByte(b, y);
    match TreeKind(a)
    case AtNumber => NumberIsUnique(a.number, x, b.number, y);
    case AtString => StringIsUnique(a.chars, x, b.chars, y);
    case AtArray => ListIsUnique(a, x, b, y);
    case AtObject => ListIsUnique(a, x, b, y);
    case _ => LiteralIsUnique(a, x, y);
  }

  lemma {:induction false} ListIsUnique(a: Tree, x: Bytes, b: Tree, y: Bytes)
    requires WellFormedTree(a) && WellFormedTree(b) && PrintTree(a) + x == PrintTree(b) + y
    requires TreeKind(a) == TreeKind(b) && TreeKind(a) in [AtArray, AtObject]
    ensures a == b && x == y
    decreases a, 0
  {
    InsideIsSame(a, x, b, y);
    hide PrintTree;
    match a
    case EmptyArrayTree(white) =>
      WhiteIsUnique(white, [CLOSE_BRACKET] + x, b.white, [CLOSE_BRACKET] + y);
      SameFront([CLOSE_BRACKET], x, [CLOSE_BRACKET], y);
    case EmptyObjectTree(white) =>
      WhiteIsUnique(white, [CLOSE_BRACE] + x, b.white, [CLOSE_BRACE] + y);
      SameFront([CLOSE_BRACE], x, [CLOSE_BRACE], y);
    case ArrayTree(items) => ItemsAreUnique(items, x, b.items, y);
    case ObjectTree(members) => MembersAreUnique(members, x, b.members, y);
  }

  lemma {:induction false} ItemsAreUnique(a: Items, x: Bytes, b: Items, y: Bytes)
    requires WellFormedItems(a) && WellFormedItems(b)
    requires PrintItems(a) + ([CLOSE_BRACKET] + x) == PrintItems(b) + ([CLOSE_BRACKET] + y)
    ensures a == b && x == y
    decreases a
  {
    hide PrintItems, PrintTree, WellFormedTree, KindOf;
    ItemsText(a, x);
    ItemsText(b, y);
    WhiteIsUnique(a.before, ItemText(a, x), b.before, ItemText(b, y));
    TreeIsUnique(a.item, a.after + MoreItemsText(a, x), b.item, b.after + MoreItemsText(b, y));
    WhiteIsUnique(a.after, MoreItemsText(a, x), b.after, MoreItemsText(b, y));
    if a.MoreItems? {
      SameFront(
        [COMMA], PrintItems(a.rest) + ([CLOSE_BRACKET] + x), [COMMA], PrintItems(b.rest) + ([CLOSE_BRACKET] + y));
      ItemsAreUnique(a.rest, x, b.rest, y);
    } else {
      SameFront([CLOSE_BRACKET], x, [CLOSE_BRACKET], y);
    }
  }

  lemma {:induction false} MembersAreUnique(a: Members, x: Bytes, b: Members, y: Bytes)
    requires WellFormedMembers(a) && WellFormedMembers(b)
    requires PrintMembers(a) + ([CLOSE_BRACE] + x) == PrintMembers(b) + ([CLOSE_BRACE] + y)
    ensures a == b && x == y
    decreases a
  {
    hide PrintMembers, PrintTree, WellFormedTree, KindOf, KeyText;
    MembersText(a, x);
    MembersText(b, y);
    WhiteIsUnique(a.before, KeyText(a, x), b.before, KeyText(b, y));
    KeyIsUnique(a, x, b, y);
    TreeIsUnique(a.item, a.after + MoreMembersText(a, x), b.item, b.after + MoreMembersText(b, y));
    WhiteIsUnique(a.after, MoreMembersText(a, x), b.after, MoreMembersText(b, y));
    if a.MoreMembers? {
      SameFront(
        [COMMA], PrintMembers(a.rest) + ([CLOSE_BRACE] + x), [COMMA], PrintMembers(b.rest) + ([CLOSE_BRACE] + y));
      MembersAreUnique(a.rest, x, b.rest, y);
    } else {
      SameFront([CLOSE_BRACE], x, [CLOSE_BRACE], y);
    }
  }

  lemma KeyIsUnique(a: Members, x: Bytes, b: Members, y: Bytes)
    requires WellFormedMembers(a) && WellFormedMembers(b) && KeyText(a, x) == KeyText(b, y)
    ensures a.key == b.key && a.mid == b.mid && a.lead == b.lead && ValueText(a, x) == ValueText(b, y)
  {
    hide PrintMembers, PrintTree, PrintString, WellFormedTree, ValueText;
    MembersText(a, x);
    MembersText(b, y);
    var u, v := a.lead + ValueText(a, x), b.lead + ValueText(b, y);
    StringIsUnique(a.key, a.mid + ([COLON] + u), b.key, b.mid + ([COLON] + v));
    WhiteIsUnique(a.mid, [COLON] + u, b.mid, [COLON] + v);
    SameFront([COLON], u, [COLON], v);
    WhiteIsUnique(a.lead, ValueText(a, x), b.lead, ValueText(b, y));
  }

  /** The grammar is unambiguous: a text is written by one document alone. */
  lemma DocumentIsUnique(a: Document, b: Document)
    requires WellFormedDocument(a) && WellFormedDocument(b) && PrintDocument(a) == PrintDocument(b)
    ensures a == b
  {
    FirstByte(a.tree, a.after);
    FirstByte(b.tree, b.after);
    WhiteIsUnique(a.before, PrintTree(a.tree) + a.after, b.before, PrintTree(b.tree) + b.after);
    TreeIsUnique(a.tree, a.after, b.tree, b.after);
  }

  // ---------- the decoder as a function of the bytes ----------

  ghost predicate Reads(payload: Bytes, d: Document) {
    WellFormedDocument(d) && PrintDocument(d) == payload
  }

  /** The strict decoder on a payload: the value of its one document, or a syntax error. */
  ghost function DecodePayload(payload: Bytes, finite: Number -> bool): Result<Value, DecodeError> {
    if exists d :: Reads(payload, d) then
      var d :| Reads(payload, d);
      Decode(d.tree, finite)
    else Err(Syntax)
  }

  lemma DecodePayloadReads(d: Document, finite: Number -> bool)
    requires WellFormedDocument(d)
    ensures DecodePayload(PrintDocument(d), finite) == Decode(d.tree, finite)
  {
    var payload := PrintDocument(d);
    assert Reads(payload, d);
    forall other | Reads(payload, other)
      ensures other == d
    {
      DocumentIsUnique(d, other);
    }
  }
}
