/**
 What strict decoding accepts and what it makes of a text, read off the text itself: the values of a text with
 their nesting levels, its object keys, and strings as the UTF-16 code units that their characters and escapes
 name (section 7 of RFC 8259).
 */
module JsonMeaning {
  import opened Foundation
  import opened Decimals
  import opened JsonText

  // ---------- strings as code units ----------

  /** The two-character escapes of section 7. */
  const ESCAPES: map<Byte, nat> :=
    map[0x22 := 0x22, 0x5C := 0x5C, 0x2F := 0x2F, 0x62 := 0x08, 0x66 := 0x0C, 0x6E := 0x0A, 0x72 := 0x0D, 0x74 := 0x09]

  const LOWER_HEX: Bytes :=
    [0x30, 0x31, 0x32, 0x33, 0x34, 0x35, 0x36, 0x37, 0x38, 0x39, 0x61, 0x62, 0x63, 0x64, 0x65, 0x66]

  const UPPER_HEX: Bytes :=
    [0x30, 0x31, 0x32, 0x33, 0x34, 0x35, 0x36, 0x37, 0x38, 0x39, 0x41, 0x42, 0x43, 0x44, 0x45, 0x46]

  predicate IsHigh(unit: nat) {
    0xD800 <= unit < 0xDC00
  }

  predicate IsLow(unit: nat) {
    0xDC00 <= unit < 0xE000
  }

  /** UTF-16 (RFC 2781, section 2.1); a lone surrogate stands for itself. */
  function Utf16(c: nat): (units: seq<nat>)
    ensures units != []
  {
    if c < 0x10000 then [c] else [0xD800 + (c - 0x10000) / 0x400, 0xDC00 + (c - 0x10000) % 0x400]
  }

  function Utf16Text(text: seq<nat>): seq<nat> {
    if text == [] then [] else Utf16(text[0]) + Utf16Text(text[1..])
  }

  /** `unit` is spelled by four hexadecimal digits of either case. */
  ghost predicate SpellsUnit(digits: Bytes, unit: nat)
    requires |digits| == 4
  {
    exists a: nat, b: nat, c: nat, d: nat ::
      && PlacedAt(digits[0], a) && PlacedAt(digits[1], b) && PlacedAt(digits[2], c) && PlacedAt(digits[3], d)
      && unit == ((a * 16 + b) * 16 + c) * 16 + d
  }

  predicate PlacedAt(digit: Byte, place: nat) {
    place < 16 && (LOWER_HEX[place] == digit || UPPER_HEX[place] == digit)
  }

  function CharUnits(c: StringChar): (units: seq<nat>)
    requires WellFormedChar(c)
  {
    match c
    case Unescaped(scalar) => Utf16(scalar)
    case Escape(letter) => [ESCAPES[letter]]
    case Hex(digits) => [HexUnit(digits)]
  }

  function Units(chars: seq<StringChar>): seq<nat>
    requires WellFormedChars(chars)
  {
    if chars == [] then [] else CharUnits(chars[0]) + Units(chars[1..])
  }

  /** Every surrogate is half of a pair. */
  predicate Paired(units: seq<nat>) {
    units == []
    || (!IsSurrogate(units[0]) && Paired(units[1..]))
    || (|units| > 1 && IsHigh(units[0]) && IsLow(units[1]) && Paired(units[2..]))
  }

  lemma HexUnitIsSpelled(digits: Bytes, unit: nat)
    requires |digits| == 4
    ensures SpellsUnit(digits, unit) <==> (forall i :: 0 <= i < 4 ==> IsHex(digits[i])) && unit == HexUnit(digits)
  {
    DigitPlace(digits[0]);
    DigitPlace(digits[1]);
    DigitPlace(digits[2]);
    DigitPlace(digits[3]);
    var a, b, c, d := HexDigit(digits[0]), HexDigit(digits[1]), HexDigit(digits[2]), HexDigit(digits[3]);
    assert HexUnit(digits) == ((a * 16 + b) * 16 + c) * 16 + d;
    if forall i :: 0 <= i < 4 ==> IsHex(digits[i]) {
      assert PlacedAt(digits[0], a) && PlacedAt(digits[1], b) && PlacedAt(digits[2], c) && PlacedAt(digits[3], d);
    }
  }

  lemma DigitPlace(digit: Byte)
    ensures forall place: nat :: PlacedAt(digit, place) <==> IsHex(digit) && place == HexDigit(digit)
  {
  }

  /** UTF-16 read back: a pair of surrogates is one character. */
  function FromUtf16(units: seq<nat>): seq<nat> {
    if units == [] then []
    else if |units| > 1 && IsHigh(units[0]) && IsLow(units[1]) then
      [0x10000 + (units[0] - 0xD800) * 0x400 + (units[1] - 0xDC00)] + FromUtf16(units[2..])
    else [units[0]] + FromUtf16(units[1..])
  }

  lemma HexUnitFits(digits: Bytes)
    requires |digits| == 4
    ensures HexUnit(digits) < 0x10000
  {
  }

  lemma EscapeIsTabled(letter: Byte)
    requires WellFormedChar(Escape(letter))
    ensures ESCAPES[letter] == EscapeValue(letter) < 0x80
  {
  }

  /** The first unit of a character is low only in a \u escape that says so. */
  lemma FirstUnit(c: StringChar)
    requires WellFormedChar(c)
    ensures IsLow(CharUnits(c)[0]) ==> c.Hex? && IsLow(HexUnit(c.digits))
    ensures c.Escape? ==> CharUnits(c) == [EscapeValue(c.letter)] && !IsHigh(EscapeValue(c.letter))
    ensures c.Unescaped? ==> forall more :: FromUtf16(CharUnits(c) + more) == [c.scalar] + FromUtf16(more)
  {
    hide HexUnit, EscapeValue;
    match c
    case Unescaped(scalar) =>
      forall more
        ensures FromUtf16(CharUnits(c) + more) == [c.scalar] + FromUtf16(more)
      {
        ReadsBack(scalar, more);
      }
    case Escape(letter) => EscapeIsTabled(letter);
    case Hex(_) =>
  }

  lemma ReadsBack(scalar: nat, more: seq<nat>)
    requires scalar <= 0x10FFFF && !IsSurrogate(scalar)
    ensures FromUtf16(Utf16(scalar) + more) == [scalar] + FromUtf16(more)
  {
    var all := Utf16(scalar) + more;
    if scalar < 0x10000 {
      assert all[1..] == more;
    } else {
      assert all[2..] == more;
    }
  }

  lemma UnitsHead(chars: seq<StringChar>)
    requires WellFormedChars(chars) && chars != []
    ensures Units(chars) != [] && Units(chars)[0] == CharUnits(chars[0])[0]
    ensures chars[0].Hex? ==> Units(chars)[0] == HexUnit(chars[0].digits) && Units(chars)[1..] == Units(chars[1..])
  {
    hide HexUnit;
    assert WellFormedChar(chars[0]);
  }

  /** A \u escape is joined with the next character exactly when the units are. */
  lemma HexStep(chars: seq<StringChar>)
    requires WellFormedChars(chars) && chars != [] && chars[0].Hex?
    ensures var units := Units(chars);
      && units != [] && (Joins(chars) <==> |units| > 1 && IsHigh(units[0]) && IsLow(units[1]))
      && units[0] == HexUnit(chars[0].digits) && units[1..] == Units(chars[1..])
      && (Joins(chars) ==> units[1] == HexUnit(chars[1].digits) && units[2..] == Units(chars[2..]))
  {
    UnitsHead(chars);
    assert WellFormedChars(chars[1..]);
    if |chars| > 1 {
      UnitsHead(chars[1..]);
      assert chars[1..][0] == chars[1] && chars[1..][1..] == chars[2..];
      assert WellFormedChar(chars[1]);
      FirstUnit(chars[1]);
    }
    hide Units, CharUnits, HexUnit;
    assert |Units(chars)| > 1 ==> Units(chars)[1] == Units(chars)[1..][0];
    assert |Units(chars)| > 1 ==> Units(chars)[2..] == Units(chars)[1..][1..];
  }

  /** The first two characters are a pair of \u escapes that make one. */
  predicate Joins(chars: seq<StringChar>)
    requires WellFormedChars(chars)
  {
    && |chars| > 1 && chars[0].Hex? && chars[1].Hex?
    && IsHigh(HexUnit(chars[0].digits)) && IsLow(HexUnit(chars[1].digits))
  }

  /** The decoder's characters are what UTF-16 makes of the units of the text, pairs of \u escapes included. */
  lemma {:induction false} DecodeReadsUnits(chars: seq<StringChar>)
    requires WellFormedChars(chars)
    ensures DecodeChars(chars) == FromUtf16(Units(chars))
    decreases |chars|
  {
    hide HexUnit, CharUnits, EscapeValue;
    if chars != [] {
      assert WellFormedChar(chars[0]);
      assert Units(chars) == CharUnits(chars[0]) + Units(chars[1..]);
      DecodeReadsUnits(chars[1..]);
      if chars[0].Hex? {
        HexStep(chars);
        if Joins(chars) {
          DecodeReadsUnits(chars[2..]);
        }
      } else {
        FirstUnit(chars[0]);
        if chars[0].Escape? {
          assert Units(chars)[1..] == Units(chars[1..]);
        }
      }
    }
  }

  lemma {:induction false} UnitsAreNarrow(chars: seq<StringChar>)
    requires WellFormedChars(chars)
    ensures forall i :: 0 <= i < |Units(chars)| ==> Units(chars)[i] < 0x10000
    decreases |chars|
  {
    if chars != [] {
      UnitsAreNarrow(chars[1..]);
      assert WellFormedChar(chars[0]);
      match chars[0]
      case Unescaped(_) =>
      case Escape(letter) => EscapeIsTabled(letter);
      case Hex(digits) => HexUnitFits(digits);
    }
  }

  lemma PairInverts(high: nat, low: nat)
    requires IsHigh(high) && IsLow(low)
    ensures Utf16(0x10000 + (high - 0xD800) * 0x400 + (low - 0xDC00)) == [high, low]
  {
  }

  lemma Utf16Cons(c: nat, rest: seq<nat>)
    ensures Utf16Text([c] + rest) == Utf16(c) + Utf16Text(rest)
  {
    assert ([c] + rest)[1..] == rest;
  }

  lemma NoUnits()
    ensures Utf16Text([]) == []
  {
  }

  lemma UnitInverts(unit: nat)
    requires unit < 0x10000
    ensures Utf16(unit) == [unit]
  {
  }

  lemma {:induction false} Utf16Inverts(units: seq<nat>)
    requires forall i :: 0 <= i < |units| ==> units[i] < 0x10000
    ensures Utf16Text(FromUtf16(units)) == units
    decreases |units|
  {
    hide Utf16, Utf16Text, IsHigh, IsLow;
    if units == [] {
      NoUnits();
    } else if |units| > 1 && IsHigh(units[0]) && IsLow(units[1]) {
      PairInverts(units[0], units[1]);
      Utf16Cons(FromUtf16(units)[0], FromUtf16(units[2..]));
      Utf16Inverts(units[2..]);
      assert units == [units[0], units[1]] + units[2..];
    } else {
      UnitInverts(units[0]);
      Utf16Cons(units[0], FromUtf16(units[1..]));
      Utf16Inverts(units[1..]);
      assert units == [units[0]] + units[1..];
    }
  }

  /** Two strings decode alike exactly when they are written with the same units. */
  lemma SameTextSameUnits(a: seq<StringChar>, b: seq<StringChar>)
    requires WellFormedChars(a) && WellFormedChars(b)
    ensures DecodeChars(a) == DecodeChars(b) <==> Units(a) == Units(b)
  {
    DecodeReadsUnits(a);
    DecodeReadsUnits(b);
    UnitsAreNarrow(a);
    UnitsAreNarrow(b);
    Utf16Inverts(Units(a));
    Utf16Inverts(Units(b));
  }

  lemma {:induction false} SurrogatesAreUnpaired(units: seq<nat>)
    ensures HasSurrogate(FromUtf16(units)) <==> !Paired(units)
    decreases |units|
  {
    if units != [] {
      var joined := |units| > 1 && IsHigh(units[0]) && IsLow(units[1]);
      var rest := if joined then units[2..] else units[1..];
      SurrogatesAreUnpaired(rest);
      var text := FromUtf16(units);
      assert text == [text[0]] + FromUtf16(rest);
      assert HasSurrogate(text) <==> IsSurrogate(text[0]) || HasSurrogate(FromUtf16(rest)) by {
        HasSurrogateCons(text[0], FromUtf16(rest));
      }
    }
  }

  lemma HasSurrogateCons(first: nat, rest: seq<nat>)
    ensures HasSurrogate([first] + rest) <==> IsSurrogate(first) || HasSurrogate(rest)
  {
    var all := [first] + rest;
    if IsSurrogate(first) {
      assert IsSurrogate(all[0]);
    }
    if i :| 0 <= i < |rest| && IsSurrogate(rest[i]) {
      assert IsSurrogate(all[i + 1]);
    }
    if i :| 0 <= i < |all| && IsSurrogate(all[i]) {
      assert i > 0 ==> rest[i - 1] == all[i];
    }
  }

  // ---------- the values and keys of a text ----------

  /** A value of a text, and how many values enclose it or are it. */
  datatype Place = Place(tree: Tree, level: nat)

  function Places(t: Tree, level: nat): seq<Place>
    decreases t
  {
    [Place(t, level)] +
    match t
    case ArrayTree(items) => ItemPlaces(items, level + 1)
    case ObjectTree(members) => MemberPlaces(members, level + 1)
    case _ => []
  }

  function ItemPlaces(items: Items, level: nat): seq<Place>
    decreases items
  {
    Places(items.item, level) + if items.MoreItems? then ItemPlaces(items.rest, level) else []
  }

  function MemberPlaces(members: Members, level: nat): seq<Place>
    decreases members
  {
    Places(members.item, level) + if members.MoreMembers? then MemberPlaces(members.rest, level) else []
  }

  /** The keys of one object, in their order. */
  function KeysOf(members: Members): (keys: seq<seq<StringChar>>)
    requires WellFormedMembers(members)
    ensures forall i :: 0 <= i < |keys| ==> WellFormedChars(keys[i])
    decreases members
  {
    [members.key] + if members.MoreMembers? then KeysOf(members.rest) else []
  }

  /** The object keys of a text, at every depth. */
  function AllKeys(t: Tree): seq<seq<StringChar>>
    decreases t
  {
    match t
    case ArrayTree(items) => ItemKeys(items)
    case ObjectTree(members) => MemberKeys(members)
    case _ => []
  }

  function ItemKeys(items: Items): seq<seq<StringChar>>
    decreases items
  {
    AllKeys(items.item) + if items.MoreItems? then ItemKeys(items.rest) else []
  }

  function MemberKeys(members: Members): seq<seq<StringChar>>
    decreases members
  {
    [members.key] + AllKeys(members.item) + if members.MoreMembers? then MemberKeys(members.rest) else []
  }

  // ---------- the two measures ----------

  lemma {:induction false} NodesCounted(t: Tree, level: nat)
    ensures TreeNodes(t) == |Places(t, level)| + |AllKeys(t)|
    decreases t
  {
    match t
    case ArrayTree(items) => ItemNodesCounted(items, level + 1);
    case ObjectTree(members) => MemberNodesCounted(members, level + 1);
    case _ =>
  }

  lemma {:induction false} ItemNodesCounted(items: Items, level: nat)
    ensures ItemsNodes(items) == |ItemPlaces(items, level)| + |ItemKeys(items)|
    decreases items
  {
    NodesCounted(items.item, level);
    if items.MoreItems? {
      ItemNodesCounted(items.rest, level);
    }
  }

  lemma {:induction false} MemberNodesCounted(members: Members, level: nat)
    ensures MembersNodes(members) == |MemberPlaces(members, level)| + |MemberKeys(members)|
    decreases members
  {
    NodesCounted(members.item, level);
    if members.MoreMembers? {
      MemberNodesCounted(members.rest, level);
    }
  }

  /** `deepest` is the greatest level. */
  ghost predicate Deepest(places: seq<Place>, deepest: int) {
    && (forall p :: p in places ==> p.level <= deepest)
    && exists p :: p in places && p.level == deepest
  }

  lemma DeepestOfBoth(a: seq<Place>, b: seq<Place>, m: int, n: int)
    requires Deepest(a, m) && Deepest(b, n)
    ensures Deepest(a + b, Max(m, n))
  {
    var p :| p in a && p.level == m;
    var q :| q in b && q.level == n;
    assert p in a + b && q in a + b;
  }

  lemma {:induction false} DepthReached(t: Tree, level: nat)
    ensures Deepest(Places(t, level), level + TreeDepth(t) - 1) && TreeDepth(t) >= 1
    decreases t
  {
    var here := [Place(t, level)];
    assert Place(t, level) in here;
    match t
    case ArrayTree(items) =>
      ItemDepthReached(items, level + 1);
      DeepestOfBoth(here, ItemPlaces(items, level + 1), level, level + ItemsDepth(items));
    case ObjectTree(members) =>
      MemberDepthReached(members, level + 1);
      DeepestOfBoth(here, MemberPlaces(members, level + 1), level, level + MembersDepth(members));
    case _ =>
      assert Places(t, level) == here;
  }

  lemma {:induction false} ItemDepthReached(items: Items, level: nat)
    ensures Deepest(ItemPlaces(items, level), level + ItemsDepth(items) - 1) && ItemsDepth(items) >= 1
    decreases items
  {
    DepthReached(items.item, level);
    if items.MoreItems? {
      ItemDepthReached(items.rest, level);
      DeepestOfBoth(
        Places(items.item, level), ItemPlaces(items.rest, level), level + TreeDepth(items.item) - 1,
        level + ItemsDepth(items.rest) - 1);
    } else {
      assert ItemPlaces(items, level) == Places(items.item, level);
    }
  }

  lemma {:induction false} MemberDepthReached(members: Members, level: nat)
    ensures Deepest(MemberPlaces(members, level), level + MembersDepth(members) - 1) && MembersDepth(members) >= 1
    decreases members
  {
    DepthReached(members.item, level);
    if members.MoreMembers? {
      MemberDepthReached(members.rest, level);
      DeepestOfBoth(
        Places(members.item, level), MemberPlaces(members.rest, level), level + TreeDepth(members.item) - 1,
        level + MembersDepth(members.rest) - 1);
    } else {
      assert MemberPlaces(members, level) == Places(members.item, level);
    }
  }

  // ---------- what the decoder accepts ----------

  /** Two keys of one object never name the same string, whatever their spelling. */
  ghost predicate KeysDiffer(members: Members)
    requires WellFormedMembers(members)
  {
    var keys := KeysOf(members);
    forall i, j :: 0 <= i < j < |keys| ==> Units(keys[i]) != Units(keys[j])
  }

  /** What strict decoding demands of one value of a text. */
  ghost predicate DecodableHere(t: Tree, finite: Number -> bool) {
    WellFormedTree(t) &&
    match t
    case NumberTree(n) =>
      if n.fraction == [] && n.exponent.NoExponent?
      then -9_007_199_254_740_991 <= IntegerValue(n) <= 9_007_199_254_740_991 else finite(n)
    case ObjectTree(members) => KeysDiffer(members)
    case _ => true
  }

  ghost predicate AllDecodable(places: seq<Place>, finite: Number -> bool) {
    forall p :: p in places ==> DecodableHere(p.tree, finite)
  }

  lemma AllDecodableConcat(a: seq<Place>, b: seq<Place>, finite: Number -> bool)
    ensures AllDecodable(a + b, finite) <==> AllDecodable(a, finite) && AllDecodable(b, finite)
  {
    hide DecodableHere;
    assert forall p :: p in a + b <==> p in a || p in b;
  }

  /** The strict decoder accepts exactly the texts all of whose values are decodable. */
  lemma {:induction false} DecodesExactly(t: Tree, level: nat, finite: Number -> bool)
    requires WellFormedTree(t)
    ensures Decode(t, finite).Ok? <==> AllDecodable(Places(t, level), finite)
    decreases t
  {
    var here := [Place(t, level)];
    assert Place(t, level) in here;
    assert AllDecodable(here, finite) <==> DecodableHere(t, finite);
    hide DecodableHere;
    match t
    case ArrayTree(items) =>
      ItemsDecodeExactly(items, level + 1, finite);
      AllDecodableConcat(here, ItemPlaces(items, level + 1), finite);
    case ObjectTree(members) =>
      MembersDecodeExactly(members, level + 1, finite);
      AllDecodableConcat(here, MemberPlaces(members, level + 1), finite);
      if DecodeMembers(members, finite).Ok? {
        KeysDecoded(members, finite);
      }
    case NumberTree(n) =>
      ParseIntegerExact(n);
      assert Places(t, level) == here;
    case _ =>
      assert Places(t, level) == here;
  }

  lemma {:induction false} ItemsDecodeExactly(items: Items, level: nat, finite: Number -> bool)
    requires WellFormedItems(items)
    ensures DecodeItems(items, finite).Ok? <==> AllDecodable(ItemPlaces(items, level), finite)
    decreases items
  {
    DecodesExactly(items.item, level, finite);
    if items.MoreItems? {
      ItemsDecodeExactly(items.rest, level, finite);
      AllDecodableConcat(Places(items.item, level), ItemPlaces(items.rest, level), finite);
    } else {
      assert ItemPlaces(items, level) == Places(items.item, level);
    }
  }

  lemma {:induction false} MembersDecodeExactly(members: Members, level: nat, finite: Number -> bool)
    requires WellFormedMembers(members)
    ensures DecodeMembers(members, finite).Ok? <==> AllDecodable(MemberPlaces(members, level), finite)
    decreases members
  {
    DecodesExactly(members.item, level, finite);
    if members.MoreMembers? {
      MembersDecodeExactly(members.rest, level, finite);
      AllDecodableConcat(Places(members.item, level), MemberPlaces(members.rest, level), finite);
    } else {
      assert MemberPlaces(members, level) == Places(members.item, level);
    }
  }

  /** The decoded keys are the keys of the object, read as text. */
  lemma {:induction false} DecodedKeys(members: Members, finite: Number -> bool)
    requires WellFormedMembers(members) && DecodeMembers(members, finite).Ok?
    ensures var pairs, keys := DecodeMembers(members, finite).value, KeysOf(members);
      && |pairs| == |keys|
      && forall i :: 0 <= i < |keys| ==> pairs[i].key == DecodeChars(keys[i])
    decreases members
  {
    if members.MoreMembers? {
      DecodedKeys(members.rest, finite);
    }
  }

  lemma KeysDecoded(members: Members, finite: Number -> bool)
    requires WellFormedMembers(members) && DecodeMembers(members, finite).Ok?
    ensures DistinctKeys(DecodeMembers(members, finite).value) <==> KeysDiffer(members)
  {
    DecodedKeys(members, finite);
    var keys := KeysOf(members);
    forall i, j | 0 <= i < j < |keys|
      ensures DecodeChars(keys[i]) == DecodeChars(keys[j]) <==> Units(keys[i]) == Units(keys[j])
    {
      SameTextSameUnits(keys[i], keys[j]);
    }
  }

  // ---------- what the decoder makes of a value ----------

  function ItemTrees(items: Items): (trees: seq<Tree>)
    requires WellFormedItems(items)
    ensures forall i :: 0 <= i < |trees| ==> WellFormedTree(trees[i])
    decreases items
  {
    [items.item] + if items.MoreItems? then ItemTrees(items.rest) else []
  }

  function MemberTrees(members: Members): (trees: seq<Tree>)
    requires WellFormedMembers(members)
    ensures |trees| == |KeysOf(members)| && forall i :: 0 <= i < |trees| ==> WellFormedTree(trees[i])
    decreases members
  {
    [members.item] + if members.MoreMembers? then MemberTrees(members.rest) else []
  }

  lemma {:induction false} DecodedItems(items: Items, finite: Number -> bool)
    requires WellFormedItems(items) && DecodeItems(items, finite).Ok?
    ensures var elems, trees := DecodeItems(items, finite).value, ItemTrees(items);
      |elems| == |trees| && forall i :: 0 <= i < |trees| ==> Decode(trees[i], finite) == Ok(elems[i])
    decreases items
  {
    if items.MoreItems? {
      DecodedItems(items.rest, finite);
    }
  }

  lemma {:induction false} DecodedMembers(members: Members, finite: Number -> bool)
    requires WellFormedMembers(members) && DecodeMembers(members, finite).Ok?
    ensures var pairs, trees := DecodeMembers(members, finite).value, MemberTrees(members);
      |pairs| == |trees| && forall i :: 0 <= i < |trees| ==> Decode(trees[i], finite) == Ok(pairs[i].value)
    decreases members
  {
    if members.MoreMembers? {
      DecodedMembers(members.rest, finite);
    }
  }

  /** Every value is what is written: literals, numbers, text, and the parts of a list in their order. */
  lemma DecodedValue(t: Tree, finite: Number -> bool)
    requires WellFormedTree(t) && Decode(t, finite).Ok?
    ensures var v := Decode(t, finite).value;
      match t
      case NullTree => v == Null
      case TrueTree => v == Bool(true)
      case FalseTree => v == Bool(false)
      case NumberTree(n) =>
        v == if n.fraction == [] && n.exponent.NoExponent? then Int(IntegerValue(n)) else Float(true)
      case StringTree(chars) => v == Str(FromUtf16(Units(chars)))
      case EmptyArrayTree(_) => v == List([])
      case ArrayTree(items) =>
        && v.List? && |v.elems| == |ItemTrees(items)|
        && forall i :: 0 <= i < |v.elems| ==> Decode(ItemTrees(items)[i], finite) == Ok(v.elems[i])
      case EmptyObjectTree(_) => v == Dict([])
      case ObjectTree(members) =>
        && v.Dict? && |v.members| == |KeysOf(members)|
        && forall i :: 0 <= i < |v.members| ==>
             && v.members[i].key == FromUtf16(Units(KeysOf(members)[i]))
             && Decode(MemberTrees(members)[i], finite) == Ok(v.members[i].value)
  {
    match t
    case NumberTree(n) => ParseIntegerExact(n);
    case StringTree(chars) => DecodeReadsUnits(chars);
    case ArrayTree(items) => DecodedItems(items, finite);
    case ObjectTree(members) =>
      DecodedKeys(members, finite);
      DecodedMembers(members, finite);
      forall i | 0 <= i < |KeysOf(members)|
        ensures DecodeChars(KeysOf(members)[i]) == FromUtf16(Units(KeysOf(members)[i]))
      {
        DecodeReadsUnits(KeysOf(members)[i]);
      }
    case _ =>
  }

  // ---------- surrogates ----------

  ghost predicate AllPaired(places: seq<Place>, keys: seq<seq<StringChar>>) {
    && (forall p :: p in places && p.tree.StringTree? && WellFormedChars(p.tree.chars) ==> Paired(Units(p.tree.chars)))
    && (forall key :: key in keys && WellFormedChars(key) ==> Paired(Units(key)))
  }

  lemma AllPairedConcat(
    a: seq<Place>, b: seq<Place>, k: seq<seq<StringChar>>, l: seq<seq<StringChar>>)
    ensures AllPaired(a + b, k + l) <==> AllPaired(a, k) && AllPaired(b, l)
  {
    assert forall p :: p in a + b <==> p in a || p in b;
    assert forall key :: key in k + l <==> key in k || key in l;
  }

  lemma PairedIsText(chars: seq<StringChar>)
    requires WellFormedChars(chars)
    ensures HasSurrogate(DecodeChars(chars)) <==> !Paired(Units(chars))
  {
    DecodeReadsUnits(chars);
    SurrogatesAreUnpaired(Units(chars));
  }
}
