/**
 The concrete syntax of RFC 8259 as trees, the UTF-8 bytes each tree is written as, and the
 data-model value the standard decoder builds from it under the strict hooks of
 scripts/contracts/contractlib.py (duplicate members, integer range and non-finite numbers rejected).

 Every insignificant choice of a text (white space, escape spelling, number spelling) is kept in the
 tree, so quantifying over well-formed trees is quantifying over all JSON texts.
 */
module JsonText {
  import opened Foundation
  import opened Decimals

  const QUOTE: Byte := 0x22
  const BACKSLASH: Byte := 0x5C
  const COMMA: Byte := 0x2C
  const COLON: Byte := 0x3A
  const MINUS: Byte := 0x2D
  const PLUS: Byte := 0x2B
  const POINT: Byte := 0x2E
  const ZERO: Byte := 0x30
  const OPEN_BRACKET: Byte := 0x5B
  const CLOSE_BRACKET: Byte := 0x5D
  const OPEN_BRACE: Byte := 0x7B
  const CLOSE_BRACE: Byte := 0x7D

  const MAX_SAFE_INTEGER: int := 9_007_199_254_740_991

  // ---------- lexical classes ----------

  predicate IsWhite(b: Byte) {
    b == 0x20 || b == 0x09 || b == 0x0D || b == 0x0A
  }

  predicate IsHex(b: Byte) {
    IsDigit(b) || 0x41 <= b <= 0x46 || 0x61 <= b <= 0x66
  }

  predicate AllWhite(bytes: Bytes) {
    forall i :: 0 <= i < |bytes| ==> IsWhite(bytes[i])
  }

  predicate IsSurrogate(unit: nat) {
    0xD800 <= unit <= 0xDFFF
  }

  // ---------- strings ----------

  /** One `char` of section 7: an unescaped scalar value, a two-character escape or a \uXXXX escape. */
  datatype StringChar =
    | Unescaped(scalar: nat)
    | Escape(letter: Byte)
    | Hex(digits: Bytes)

  predicate WellFormedChar(c: StringChar) {
    match c
    case Unescaped(scalar) =>
      0x20 <= scalar <= 0x10FFFF && scalar != 0x22 && scalar != 0x5C && !IsSurrogate(scalar)
    case Escape(letter) => letter in [0x22, 0x5C, 0x2F, 0x62, 0x66, 0x6E, 0x72, 0x74]
    case Hex(digits) => |digits| == 4 && forall i :: 0 <= i < 4 ==> IsHex(digits[i])
  }

  predicate WellFormedChars(chars: seq<StringChar>) {
    forall i :: 0 <= i < |chars| ==> WellFormedChar(chars[i])
  }

  /** UTF-8 (RFC 3629, section 3). */
  function Utf8(scalar: nat): (bytes: Bytes)
    requires scalar <= 0x10FFFF
    ensures scalar < 0x80 ==> bytes == [scalar]
    ensures scalar >= 0x80 ==> forall i :: 0 <= i < |bytes| ==> bytes[i] >= 0x80
  {
    if scalar < 0x80 then [scalar]
    else if scalar < 0x800 then [0xC0 + scalar / 0x40, 0x80 + scalar % 0x40]
    else if scalar < 0x10000 then
      [0xE0 + scalar / 0x1000, 0x80 + scalar / 0x40 % 0x40, 0x80 + scalar % 0x40]
    else
      [0xF0 + scalar / 0x40000, 0x80 + scalar / 0x1000 % 0x40, 0x80 + scalar / 0x40 % 0x40, 0x80 + scalar % 0x40]
  }

  function PrintChar(c: StringChar): Bytes
    requires WellFormedChar(c)
  {
    match c
    case Unescaped(scalar) => Utf8(scalar)
    case Escape(letter) => [BACKSLASH, letter]
    case Hex(digits) => [BACKSLASH, 0x75] + digits
  }

  function PrintChars(chars: seq<StringChar>): Bytes
    requires WellFormedChars(chars)
  {
    if chars == [] then [] else PrintChar(chars[0]) + PrintChars(chars[1..])
  }

  function PrintString(chars: seq<StringChar>): Bytes
    requires WellFormedChars(chars)
  {
    [QUOTE] + (PrintChars(chars) + [QUOTE])
  }

  function HexDigit(b: Byte): nat {
    if IsDigit(b) then b - 0x30 else if 0x41 <= b <= 0x46 then b - 0x37 else if 0x61 <= b <= 0x66 then b - 0x57 else 0
  }

  function HexUnit(digits: Bytes): nat
    requires |digits| == 4
  {
    0x1000 * HexDigit(digits[0]) + 0x100 * HexDigit(digits[1]) + 0x10 * HexDigit(digits[2]) + HexDigit(digits[3])
  }

  function EscapeValue(letter: Byte): nat {
    match letter
    case 0x62 => 0x08
    case 0x66 => 0x0C
    case 0x6E => 0x0A
    case 0x72 => 0x0D
    case 0x74 => 0x09
    case _ => letter
  }

  /** The decoded string: a high \u escape directly followed by a low \u escape is one character. */
  function DecodeChars(chars: seq<StringChar>): seq<nat>
    requires WellFormedChars(chars)
  {
    if chars == [] then []
    else match chars[0]
      case Unescaped(scalar) => [scalar] + DecodeChars(chars[1..])
      case Escape(letter) => [EscapeValue(letter)] + DecodeChars(chars[1..])
      case Hex(high) =>
        var unit := HexUnit(high);
        if 0xD800 <= unit <= 0xDBFF && |chars| > 1 && chars[1].Hex? && 0xDC00 <= HexUnit(chars[1].digits) <= 0xDFFF then
          [0x10000 + 0x400 * (unit - 0xD800) + (HexUnit(chars[1].digits) - 0xDC00)] + DecodeChars(chars[2..])
        else
          [unit] + DecodeChars(chars[1..])
  }

  predicate HasSurrogate(text: seq<nat>) {
    exists i :: 0 <= i < |text| && IsSurrogate(text[i])
  }

  // ---------- numbers ----------

  datatype Exponent = NoExponent | Exponent(mark: Byte, sign: Bytes, digits: Bytes)

  datatype Number = Number(minus: bool, whole: Bytes, fraction: Bytes, exponent: Exponent)

  predicate WellFormedNumber(n: Number) {
    && n.whole != [] && AllDigits(n.whole) && (n.whole[0] == ZERO ==> |n.whole| == 1)
    && AllDigits(n.fraction)
    && (n.exponent.Exponent? ==>
          && n.exponent.mark in [0x65, 0x45]
          && n.exponent.sign in [[], [PLUS], [MINUS]]
          && n.exponent.digits != [] && AllDigits(n.exponent.digits))
  }

  predicate IsInteger(n: Number) {
    n.fraction == [] && n.exponent.NoExponent?
  }

  function PrintExponent(e: Exponent): Bytes {
    if e.NoExponent? then [] else [e.mark] + e.sign + e.digits
  }

  function PrintNumber(n: Number): Bytes {
    (if n.minus then [MINUS] else []) + n.whole + (if n.fraction == [] then [] else [POINT] + n.fraction)
    + PrintExponent(n.exponent)
  }

  function IntegerValue(n: Number): int
    requires WellFormedNumber(n)
  {
    var magnitude: int := DigitsValue(n.whole);
    if n.minus then -magnitude else magnitude
  }

  // ---------- texts ----------

  datatype Tree =
    | NullTree
    | TrueTree
    | FalseTree
    | NumberTree(number: Number)
    | StringTree(chars: seq<StringChar>)
    | EmptyArrayTree(white: Bytes)
    | ArrayTree(items: Items)
    | EmptyObjectTree(white: Bytes)
    | ObjectTree(members: Members)

  datatype Items =
    | LastItem(before: Bytes, item: Tree, after: Bytes)
    | MoreItems(before: Bytes, item: Tree, after: Bytes, rest: Items)

  datatype Members =
    | LastMember(before: Bytes, key: seq<StringChar>, mid: Bytes, lead: Bytes, item: Tree, after: Bytes)
    | MoreMembers(before: Bytes, key: seq<StringChar>, mid: Bytes, lead: Bytes, item: Tree, after: Bytes, rest: Members)

  /** A whole document: one value between optional white space. */
  datatype Document = Document(before: Bytes, tree: Tree, after: Bytes)

  predicate WellFormedTree(t: Tree)
    decreases t
  {
    match t
    case NullTree => true
    case TrueTree => true
    case FalseTree => true
    case NumberTree(number) => WellFormedNumber(number)
    case StringTree(chars) => WellFormedChars(chars)
    case EmptyArrayTree(white) => AllWhite(white)
    case ArrayTree(items) => WellFormedItems(items)
    case EmptyObjectTree(white) => AllWhite(white)
    case ObjectTree(members) => WellFormedMembers(members)
  }

  predicate WellFormedItems(items: Items)
    decreases items
  {
    && AllWhite(items.before) && WellFormedTree(items.item) && AllWhite(items.after)
    && (items.MoreItems? ==> WellFormedItems(items.rest))
  }

  predicate WellFormedMembers(members: Members)
    decreases members
  {
    && AllWhite(members.before) && WellFormedChars(members.key) && AllWhite(members.mid)
    && AllWhite(members.lead) && WellFormedTree(members.item) && AllWhite(members.after)
    && (members.MoreMembers? ==> WellFormedMembers(members.rest))
  }

  predicate WellFormedDocument(d: Document) {
    AllWhite(d.before) && WellFormedTree(d.tree) && AllWhite(d.after)
  }

  const NULL_TEXT: Bytes := [0x6E, 0x75, 0x6C, 0x6C]
  const TRUE_TEXT: Bytes := [0x74, 0x72, 0x75, 0x65]
  const FALSE_TEXT: Bytes := [0x66, 0x61, 0x6C, 0x73, 0x65]

  function PrintTree(t: Tree): Bytes
    requires WellFormedTree(t)
    decreases t
  {
    match t
    case NullTree => NULL_TEXT
    case TrueTree => TRUE_TEXT
    case FalseTree => FALSE_TEXT
    case NumberTree(number) => PrintNumber(number)
    case StringTree(chars) => PrintString(chars)
    case EmptyArrayTree(white) => [OPEN_BRACKET] + (white + [CLOSE_BRACKET])
    case ArrayTree(items) => [OPEN_BRACKET] + (PrintItems(items) + [CLOSE_BRACKET])
    case EmptyObjectTree(white) => [OPEN_BRACE] + (white + [CLOSE_BRACE])
    case ObjectTree(members) => [OPEN_BRACE] + (PrintMembers(members) + [CLOSE_BRACE])
  }

  function PrintItems(items: Items): Bytes
    requires WellFormedItems(items)
    decreases items
  {
    items.before + (PrintTree(items.item) + (items.after + PrintMoreItems(items)))
  }

  function PrintMoreItems(items: Items): Bytes
    requires WellFormedItems(items)
    decreases items, 0
  {
    if items.MoreItems? then [COMMA] + PrintItems(items.rest) else []
  }

  function PrintMembers(members: Members): Bytes
    requires WellFormedMembers(members)
    decreases members
  {
    members.before + (PrintString(members.key) + (members.mid + ([COLON] + (members.lead
    + (PrintTree(members.item) + (members.after + PrintMoreMembers(members)))))))
  }

  function PrintMoreMembers(members: Members): Bytes
    requires WellFormedMembers(members)
    decreases members, 0
  {
    if members.MoreMembers? then [COMMA] + PrintMembers(members.rest) else []
  }

  function PrintDocument(d: Document): Bytes
    requires WellFormedDocument(d)
  {
    d.before + (PrintTree(d.tree) + d.after)
  }

  // ---------- the decoded data model ----------

  /** A decoded value; a float keeps only whether it is finite. */
  datatype Value =
    | Null
    | Bool(truth: bool)
    | Int(number: int)
    | Float(finite: bool)
    | Str(text: seq<nat>)
    | List(elems: seq<Value>)
    | Dict(members: seq<Member>)

  datatype Member = Member(key: seq<nat>, value: Value)

  datatype DecodeError = DuplicateMember | IntegerRange | NonFiniteNumber | Syntax

  /** `_parse_integer`: more than sixteen digits fail before the number is even computed. */
  function ParseInteger(n: Number): Result<int, DecodeError>
    requires WellFormedNumber(n)
  {
    if |n.whole| > 16 then Err(IntegerRange)
    else
      var value := IntegerValue(n);
      if value < -MAX_SAFE_INTEGER || value > MAX_SAFE_INTEGER then Err(IntegerRange) else Ok(value)
  }

  /** The strict decoder; `finite` says which fractional or exponent numbers fit a binary64. */
  function Decode(t: Tree, finite: Number -> bool): Result<Value, DecodeError>
    requires WellFormedTree(t)
    decreases t
  {
    match t
    case NullTree => Ok(Null)
    case TrueTree => Ok(Bool(true))
    case FalseTree => Ok(Bool(false))
    case NumberTree(number) =>
      if IsInteger(number) then
        var parsed := ParseInteger(number);
        if parsed.Err? then Err(parsed.error) else Ok(Int(parsed.value))
      else if finite(number) then Ok(Float(true)) else Err(NonFiniteNumber)
    case StringTree(chars) => Ok(Str(DecodeChars(chars)))
    case EmptyArrayTree(_) => Ok(List([]))
    case ArrayTree(items) =>
      var elems := DecodeItems(items, finite);
      if elems.Err? then Err(elems.error) else Ok(List(elems.value))
    case EmptyObjectTree(_) => Ok(Dict([]))
    case ObjectTree(members) =>
      var pairs := DecodeMembers(members, finite);
      if pairs.Err? then Err(pairs.error)
      else if DistinctKeys(pairs.value) then Ok(Dict(pairs.value)) else Err(DuplicateMember)
  }

  function DecodeItems(items: Items, finite: Number -> bool): Result<seq<Value>, DecodeError>
    requires WellFormedItems(items)
    decreases items
  {
    var first := Decode(items.item, finite);
    if first.Err? then Err(first.error)
    else if items.LastItem? then Ok([first.value])
    else
      var rest := DecodeItems(items.rest, finite);
      if rest.Err? then rest else Ok([first.value] + rest.value)
  }

  function DecodeMembers(members: Members, finite: Number -> bool): Result<seq<Member>, DecodeError>
    requires WellFormedMembers(members)
    decreases members
  {
    var first := Decode(members.item, finite);
    if first.Err? then Err(first.error)
    else
      var member := Member(DecodeChars(members.key), first.value);
      if members.LastMember? then Ok([member])
      else
        var rest := DecodeMembers(members.rest, finite);
        if rest.Err? then rest else Ok([member] + rest.value)
  }

  predicate DistinctKeys(members: seq<Member>) {
    forall i, j :: 0 <= i < j < |members| ==> members[i].key != members[j].key
  }

  // ---------- accounting ----------

  /** Values plus object keys: the reference count both implementations must agree on. */
  function Nodes(v: Value): (n: nat)
    decreases v
  {
    match v
    case List(elems) => 1 + NodesOfList(elems)
    case Dict(members) => 1 + NodesOfDict(members)
    case _ => 1
  }

  function NodesOfList(elems: seq<Value>): nat
    decreases elems
  {
    if elems == [] then 0 else Nodes(elems[0]) + NodesOfList(elems[1..])
  }

  function NodesOfDict(members: seq<Member>): nat
    decreases members
  {
    if members == [] then 0 else 1 + Nodes(members[0].value) + NodesOfDict(members[1..])
  }

  /** Nesting levels, the root counting one. */
  function Depth(v: Value): nat
    decreases v
  {
    match v
    case List(elems) => 1 + DepthOfList(elems)
    case Dict(members) => 1 + DepthOfDict(members)
    case _ => 1
  }

  function DepthOfList(elems: seq<Value>): nat
    decreases elems
  {
    if elems == [] then 0 else Max(Depth(elems[0]), DepthOfList(elems[1..]))
  }

  function DepthOfDict(members: seq<Member>): nat
    decreases members
  {
    if members == [] then 0 else Max(Depth(members[0].value), DepthOfDict(members[1..]))
  }

  /** The same two measures read off the text, whether or not it decodes. */
  function TreeNodes(t: Tree): nat
    decreases t
  {
    match t
    case ArrayTree(items) => 1 + ItemsNodes(items)
    case ObjectTree(members) => 1 + MembersNodes(members)
    case _ => 1
  }

  function ItemsNodes(items: Items): nat
    decreases items
  {
    TreeNodes(items.item) + if items.MoreItems? then ItemsNodes(items.rest) else 0
  }

  function MembersNodes(members: Members): nat
    decreases members
  {
    1 + TreeNodes(members.item) + if members.MoreMembers? then MembersNodes(members.rest) else 0
  }

  function TreeDepth(t: Tree): nat
    decreases t
  {
    match t
    case ArrayTree(items) => 1 + ItemsDepth(items)
    case ObjectTree(members) => 1 + MembersDepth(members)
    case _ => 1
  }

  function ItemsDepth(items: Items): nat
    decreases items
  {
    Max(TreeDepth(items.item), if items.MoreItems? then ItemsDepth(items.rest) else 0)
  }

  function MembersDepth(members: Members): nat
    decreases members
  {
    Max(TreeDepth(members.item), if members.MoreMembers? then MembersDepth(members.rest) else 0)
  }

  // ---------- facts ----------

  lemma {:induction false} DecodeKeepsAccounting(t: Tree, finite: Number -> bool)
    requires WellFormedTree(t) && Decode(t, finite).Ok?
    ensures Nodes(Decode(t, finite).value) == TreeNodes(t)
    ensures Depth(Decode(t, finite).value) == TreeDepth(t)
    decreases t
  {
    match t
    case ArrayTree(items) => DecodeItemsKeepsAccounting(items, finite);
    case ObjectTree(members) => DecodeMembersKeepsAccounting(members, finite);
    case _ =>
  }

  lemma {:induction false} DecodeItemsKeepsAccounting(items: Items, finite: Number -> bool)
    requires WellFormedItems(items) && DecodeItems(items, finite).Ok?
    ensures NodesOfList(DecodeItems(items, finite).value) == ItemsNodes(items)
    ensures DepthOfList(DecodeItems(items, finite).value) == ItemsDepth(items)
    decreases items
  {
    DecodeKeepsAccounting(items.item, finite);
    if items.MoreItems? {
      DecodeItemsKeepsAccounting(items.rest, finite);
      assert DecodeItems(items, finite).value[1..] == DecodeItems(items.rest, finite).value;
    } else {
      assert DecodeItems(items, finite).value[1..] == [];
    }
  }

  lemma {:induction false} DecodeMembersKeepsAccounting(members: Members, finite: Number -> bool)
    requires WellFormedMembers(members) && DecodeMembers(members, finite).Ok?
    ensures NodesOfDict(DecodeMembers(members, finite).value) == MembersNodes(members)
    ensures DepthOfDict(DecodeMembers(members, finite).value) == MembersDepth(members)
    decreases members
  {
    DecodeKeepsAccounting(members.item, finite);
    if members.MoreMembers? {
      DecodeMembersKeepsAccounting(members.rest, finite);
      assert DecodeMembers(members, finite).value[1..] == DecodeMembers(members.rest, finite).value;
    } else {
      assert DecodeMembers(members, finite).value[1..] == [];
    }
  }

  /** The sixteen-digit shortcut decides nothing: an integer is accepted exactly when it is in range. */
  lemma ParseIntegerExact(n: Number)
    requires WellFormedNumber(n)
    ensures ParseInteger(n).Ok? <==> -9_007_199_254_740_991 <= IntegerValue(n) <= 9_007_199_254_740_991
    ensures ParseInteger(n).Ok? ==> ParseInteger(n).value == IntegerValue(n)
  {
    if |n.whole| > 16 {
      DigitsValueAtLeast(n.whole);
      Power10Grows(16, |n.whole| - 1);
      assert Power10(16) == 10_000_000_000_000_000 by {
        assert Power10(4) == 10_000;
        assert Power10(8) == 100_000_000;
        assert Power10(12) == 1_000_000_000_000;
      }
    }
  }
}
