/**
 Strict JSON admission of scripts/contracts/contractlib.py: a byte scanner that counts nodes and
 depth before anything is parsed, an explicit-stack walk that counts them again on the decoded value,
 and the check that the two counts agree.
 */
module JsonAdmission {
  import opened Foundation
  import opened Decimals
  import opened JsonText
  import opened JsonReading
  import opened JsonMeaning

  const MAX_BYTES: nat := 4 * 1024 * 1024
  const MAX_DEPTH: nat := 64
  const MAX_NODES: nat := 100_000

  datatype Refusal = TooManyBytes | TooDeep | TooManyNodes | BadNumber | BadUnicode

  datatype Accounting = Accounting(nodes: nat, depth: nat)

  predicate WithinLimits(a: Accounting) {
    a.nodes <= MAX_NODES && a.depth <= MAX_DEPTH
  }

  // ---------- specification of the byte scanner ----------

  /** Where the scanner stands: next byte, nodes so far, open containers, deepest value so far. */
  datatype Scan = Scan(index: nat, nodes: nat, open: nat, deepest: nat)

  function SkipWhite(p: Bytes, i: nat): (j: nat)
    ensures j >= i
    decreases |p| - i
  {
    if i < |p| && IsWhite(p[i]) then SkipWhite(p, i + 1) else i
  }

  /** First position after the closing quote of a string whose content starts at `i`. */
  function SkipString(p: Bytes, i: nat): (j: nat)
    ensures j >= i
    decreases |p| - i
  {
    if i >= |p| then i
    else if p[i] == QUOTE then i + 1
    else if p[i] == BACKSLASH then SkipString(p, i + 2)
    else SkipString(p, i + 1)
  }

  predicate EndsNumber(b: Byte) {
    IsWhite(b) || b == COMMA || b == CLOSE_BRACKET || b == CLOSE_BRACE
  }

  function SkipNumber(p: Bytes, i: nat): (j: nat)
    ensures j >= i
    decreases |p| - i
  {
    if i < |p| && !EndsNumber(p[i]) then SkipNumber(p, i + 1) else i
  }

  predicate StartsWith(p: Bytes, i: nat, word: Bytes) {
    i + |word| <= |p| && p[i..i + |word|] == word
  }

  predicate ColonAhead(p: Bytes, i: nat) {
    var look := SkipWhite(p, i);
    look < |p| && p[look] == COLON
  }

  function WithValue(s: Scan, index: nat): Scan {
    Scan(index, s.nodes + 1, s.open, Max(s.deepest, s.open + 1))
  }

  /** One lexical token, without limits. */
  function Step(p: Bytes, s: Scan): (next: Scan)
    requires s.index < |p|
    ensures next.index > s.index && next.nodes >= s.nodes && next.deepest >= s.deepest
  {
    var i := s.index;
    var b := p[i];
    if IsWhite(b) || b == COMMA || b == COLON then s.(index := i + 1)
    else if b == OPEN_BRACE || b == OPEN_BRACKET then WithValue(s, i + 1).(open := s.open + 1)
    else if b == CLOSE_BRACE || b == CLOSE_BRACKET then
      s.(index := i + 1, open := if s.open == 0 then 0 else s.open - 1)
    else if b == QUOTE then
      var end := SkipString(p, i + 1);
      if ColonAhead(p, end) then s.(index := end, nodes := s.nodes + 1) else WithValue(s, end)
    else if b == MINUS || IsDigit(b) then WithValue(s, SkipNumber(p, i + 1))
    else if StartsWith(p, i, TRUE_TEXT) || StartsWith(p, i, NULL_TEXT) then WithValue(s, i + 4)
    else if StartsWith(p, i, FALSE_TEXT) then WithValue(s, i + 5)
    else s.(index := i + 1)
  }

  /** The scan of everything from `s` on. */
  function Run(p: Bytes, s: Scan): (end: Scan)
    ensures end.index >= |p| && end.nodes >= s.nodes && end.deepest >= s.deepest
    decreases |p| - s.index
  {
    if s.index >= |p| then s else Run(p, Step(p, s))
  }

  lemma RunStep(p: Bytes, s: Scan)
    requires s.index < |p|
    ensures Run(p, s) == Run(p, Step(p, s))
  {
  }

  lemma RunEnd(p: Bytes, s: Scan)
    requires s.index >= |p|
    ensures Run(p, s) == s
  {
  }

  const START: Scan := Scan(0, 0, 0, 0)

  function ScanAccounting(p: Bytes): Accounting {
    var end := Run(p, START);
    Accounting(end.nodes, end.deepest)
  }

  // ---------- the byte scanner ----------

  /** The inner loop over a string: a backslash always takes the byte after it along. */
  method StringEnd(payload: Bytes, start: nat) returns (index: nat)
    ensures index == SkipString(payload, start)
  {
    index := start;
    while index < |payload|
      invariant SkipString(payload, index) == SkipString(payload, start)
      decreases |payload| - index
    {
      if payload[index] == QUOTE {
        index := index + 1;
        return;
      }
      if payload[index] == BACKSLASH {
        index := index + 2;
      } else {
        index := index + 1;
      }
    }
  }

  /** `_preflight_json_bytes`, on arbitrary bytes. */
  method Preflight(payload: Bytes) returns (r: Result<Accounting, Refusal>)
    ensures r.Ok? <==> |payload| <= MAX_BYTES && WithinLimits(ScanAccounting(payload))
    ensures r.Ok? ==> r.value == ScanAccounting(payload)
    ensures r == Err(TooManyBytes) <==> |payload| > MAX_BYTES
    ensures r == Err(TooDeep) ==> ScanAccounting(payload).depth > MAX_DEPTH
    ensures r == Err(TooManyNodes) ==> ScanAccounting(payload).nodes > MAX_NODES
  {
    hide Run, StartsWith, SkipString;
    if |payload| > MAX_BYTES {
      return Err(TooManyBytes);
    }
    var nodes: nat, depth: nat, maximumDepth: nat, index: nat := 0, 0, 0, 0;
    while index < |payload|
      invariant nodes <= MAX_NODES && maximumDepth <= MAX_DEPTH
      invariant Run(payload, Scan(index, nodes, depth, maximumDepth)) == Run(payload, START)
      decreases |payload| - index
    {
      ghost var before := Scan(index, nodes, depth, maximumDepth);
      ghost var after := Step(payload, before);
      RunStep(payload, before);
      var current := payload[index];
      if IsWhite(current) || current == COMMA || current == COLON {
        index := index + 1;
      } else if current == OPEN_BRACE || current == OPEN_BRACKET {
        var valueDepth := depth + 1;
        if valueDepth > MAX_DEPTH {
          return Err(TooDeep);
        }
        maximumDepth := Max(maximumDepth, valueDepth);
        nodes := nodes + 1;
        if nodes > MAX_NODES {
          return Err(TooManyNodes);
        }
        depth := depth + 1;
        index := index + 1;
      } else if current == CLOSE_BRACE || current == CLOSE_BRACKET {
        depth := Max(0, depth - 1);
        index := index + 1;
      } else if current == QUOTE {
        index := StringEnd(payload, index + 1);
        nodes := nodes + 1;
        if nodes > MAX_NODES {
          return Err(TooManyNodes);
        }
        var lookahead := index;
        while lookahead < |payload| && IsWhite(payload[lookahead])
          invariant SkipWhite(payload, lookahead) == SkipWhite(payload, index)
        {
          lookahead := lookahead + 1;
        }
        if lookahead >= |payload| || payload[lookahead] != COLON {
          var valueDepth := depth + 1;
          if valueDepth > MAX_DEPTH {
            return Err(TooDeep);
          }
          maximumDepth := Max(maximumDepth, valueDepth);
        }
      } else if current == MINUS || IsDigit(current) {
        nodes := nodes + 1;
        if nodes > MAX_NODES {
          return Err(TooManyNodes);
        }
        var valueDepth := depth + 1;
        if valueDepth > MAX_DEPTH {
          return Err(TooDeep);
        }
        maximumDepth := Max(maximumDepth, valueDepth);
        index := index + 1;
        ghost var rest := index;
        while index < |payload| && !EndsNumber(payload[index])
          invariant SkipNumber(payload, index) == SkipNumber(payload, rest)
        {
          index := index + 1;
        }
      } else {
        var literalLength := 0;
        if StartsWith(payload, index, TRUE_TEXT) || StartsWith(payload, index, NULL_TEXT) {
          literalLength := 4;
        } else if StartsWith(payload, index, FALSE_TEXT) {
          literalLength := 5;
        }
        if literalLength != 0 {
          nodes := nodes + 1;
          if nodes > MAX_NODES {
            return Err(TooManyNodes);
          }
          var valueDepth := depth + 1;
          if valueDepth > MAX_DEPTH {
            return Err(TooDeep);
          }
          maximumDepth := Max(maximumDepth, valueDepth);
          index := index + literalLength;
        } else {
          index := index + 1;
        }
      }
      assert Scan(index, nodes, depth, maximumDepth) == after;
    }
    RunEnd(payload, Scan(index, nodes, depth, maximumDepth));
    return Ok(Accounting(nodes, maximumDepth));
  }

  // ---------- the scanner against the grammar ----------

  /** What may follow a value in a text: white space, then the end or a byte that closes or separates. */
  ghost predicate ValueEnds(p: Bytes, i: nat) {
    var look := SkipWhite(p, i);
    look >= |p| || p[look] == COMMA || p[look] == CLOSE_BRACKET || p[look] == CLOSE_BRACE
  }

  lemma {:induction false} SkipWhiteOver(p: Bytes, i: nat, white: Bytes)
    requires At(p, i, white) && AllWhite(white)
    ensures SkipWhite(p, i) == SkipWhite(p, i + |white|)
    decreases |white|
  {
    if white != [] {
      assert p[i] == p[i..i + |white|][0] == white[0];
      assert p[i + 1..i + |white|] == p[i..i + |white|][1..];
      SkipWhiteOver(p, i + 1, white[1..]);
    }
  }

  lemma ValueEndsAtTheEnd(p: Bytes, i: nat, white: Bytes)
    requires At(p, i, white) && AllWhite(white) && i + |white| == |p|
    ensures ValueEnds(p, i)
  {
    SkipWhiteOver(p, i, white);
  }

  lemma {:induction false} RunOverWhite(p: Bytes, s: Scan, white: Bytes)
    requires At(p, s.index, white) && AllWhite(white)
    ensures Run(p, s) == Run(p, s.(index := s.index + |white|))
    decreases |white|
  {
    if white != [] {
      var i := s.index;
      assert p[i] == p[i..i + |white|][0] == white[0];
      assert p[i + 1..i + |white|] == p[i..i + |white|][1..];
      RunOverWhite(p, s.(index := i + 1), white[1..]);
    }
  }

  lemma QuoteEnds(p: Bytes, i: nat)
    requires At(p, i, [QUOTE])
    ensures SkipString(p, i) == i + 1
  {
    assert p[i] == p[i..i + 1][0];
  }

  lemma {:induction false} SkipStringOverChars(p: Bytes, i: nat, chars: seq<StringChar>)
    requires WellFormedChars(chars) && At(p, i, PrintChars(chars) + [QUOTE])
    ensures SkipString(p, i) == i + |PrintChars(chars)| + 1
    decreases |chars|
  {
    hide SkipString, At, PrintChar;
    if chars == [] {
      assert [] + [QUOTE] == [QUOTE];
      QuoteEnds(p, i);
    } else {
      var head := PrintChar(chars[0]);
      var tail := PrintChars(chars[1..]);
      assert PrintChars(chars) + [QUOTE] == head + (tail + [QUOTE]);
      AtConcat(p, i, head, tail + [QUOTE]);
      SkipStringOverChar(p, i, chars[0]);
      SkipStringOverChars(p, i + |head|, chars[1..]);
    }
  }

  lemma EscapeSkips(p: Bytes, i: nat)
    requires i < |p| && p[i] == BACKSLASH
    ensures SkipString(p, i) == SkipString(p, i + 2)
  {
  }

  lemma SkipStringOverChar(p: Bytes, i: nat, c: StringChar)
    requires WellFormedChar(c) && At(p, i, PrintChar(c))
    ensures SkipString(p, i) == SkipString(p, i + |PrintChar(c)|)
  {
    hide SkipString;
    var printed := PrintChar(c);
    forall k | 0 <= k < |printed|
      ensures p[i + k] == printed[k]
    {
      assert p[i..i + |printed|][k] == p[i + k];
    }
    match c
    case Unescaped(scalar) => SkipPlain(p, i, |printed|);
    case Escape(letter) => EscapeSkips(p, i);
    case Hex(digits) =>
      EscapeSkips(p, i);
      assert p[i + 2..i + 6] == digits by {
        assert p[i + 2..i + 6] == p[i..i + 6][2..];
      }
      SkipPlain(p, i + 2, 4);
  }

  lemma {:induction false} SkipPlain(p: Bytes, i: nat, n: nat)
    requires i + n <= |p| && forall k :: i <= k < i + n ==> p[k] != QUOTE && p[k] != BACKSLASH
    ensures SkipString(p, i) == SkipString(p, i + n)
    decreases n
  {
    if n > 0 {
      SkipPlain(p, i + 1, n - 1);
    }
  }

  /** A string token, wherever it stands: one node, and a level only when no colon follows. */
  lemma RunOverString(p: Bytes, s: Scan, chars: seq<StringChar>)
    requires WellFormedChars(chars) && At(p, s.index, PrintString(chars))
    ensures var end := s.index + |PrintString(chars)|;
      Run(p, s) == Run(p, if ColonAhead(p, end) then s.(index := end, nodes := s.nodes + 1) else WithValue(s, end))
  {
    hide Run, PrintChars, SkipWhite, SkipString;
    AtConcat(p, s.index, [QUOTE], PrintChars(chars) + [QUOTE]);
    assert p[s.index] == p[s.index..s.index + 1][0];
    SkipStringOverChars(p, s.index + 1, chars);
    RunStep(p, s);
  }

  lemma {:induction false} SkipNumberOver(p: Bytes, i: nat, digits: Bytes)
    requires At(p, i, digits) && forall k :: 0 <= k < |digits| ==> !EndsNumber(digits[k])
    requires i + |digits| >= |p| || EndsNumber(p[i + |digits|])
    ensures SkipNumber(p, i) == i + |digits|
    decreases |digits|
  {
    if digits != [] {
      assert p[i] == p[i..i + |digits|][0] == digits[0];
      assert p[i + 1..i + |digits|] == p[i..i + |digits|][1..];
      SkipNumberOver(p, i + 1, digits[1..]);
    }
  }

  lemma NumberBytes(n: Number)
    requires WellFormedNumber(n)
    ensures PrintNumber(n) != [] && (PrintNumber(n)[0] == MINUS || IsDigit(PrintNumber(n)[0]))
    ensures forall k :: 0 <= k < |PrintNumber(n)| ==> !EndsNumber(PrintNumber(n)[k])
  {
  }

  lemma RunOverNumber(p: Bytes, s: Scan, n: Number)
    requires WellFormedNumber(n) && At(p, s.index, PrintNumber(n)) && ValueEnds(p, s.index + |PrintNumber(n)|)
    ensures Run(p, s) == Run(p, WithValue(s, s.index + |PrintNumber(n)|))
  {
    hide Run, PrintNumber, WellFormedNumber, SkipNumber;
    NumberBytes(n);
    var printed := PrintNumber(n);
    var i := s.index;
    assert p[i] == p[i..i + |printed|][0] == printed[0];
    assert p[i + 1..i + |printed|] == p[i..i + |printed|][1..];
    SkipNumberOver(p, i + 1, printed[1..]);
    RunStep(p, s);
  }

  lemma RunOverLiteral(p: Bytes, s: Scan, t: Tree)
    requires t.NullTree? || t.TrueTree? || t.FalseTree?
    requires At(p, s.index, PrintTree(t))
    ensures Run(p, s) == Run(p, WithValue(s, s.index + |PrintTree(t)|))
  {
    var word := PrintTree(t);
    assert p[s.index] == p[s.index..s.index + |word|][0] == word[0];
    assert StartsWith(p, s.index, word);
    if t.FalseTree? {
      assert p[s.index..s.index + 4][0] == 0x66;
      assert !StartsWith(p, s.index, TRUE_TEXT) && !StartsWith(p, s.index, NULL_TEXT);
    }
  }

  predicate IsOpener(b: Byte) {
    b == OPEN_BRACE || b == OPEN_BRACKET
  }

  predicate IsCloser(b: Byte) {
    b == CLOSE_BRACE || b == CLOSE_BRACKET
  }

  lemma RunOverOpener(p: Bytes, s: Scan, b: Byte)
    requires At(p, s.index, [b]) && IsOpener(b)
    ensures Run(p, s) == Run(p, Scan(s.index + 1, s.nodes + 1, s.open + 1, Max(s.deepest, s.open + 1)))
  {
    assert p[s.index] == p[s.index..s.index + 1][0];
  }

  lemma RunOverCloser(p: Bytes, s: Scan, b: Byte)
    requires At(p, s.index, [b]) && IsCloser(b) && s.open > 0
    ensures Run(p, s) == Run(p, Scan(s.index + 1, s.nodes, s.open - 1, s.deepest))
  {
    assert p[s.index] == p[s.index..s.index + 1][0];
  }

  lemma RunOverSeparator(p: Bytes, s: Scan, b: Byte)
    requires At(p, s.index, [b]) && (b == COMMA || b == COLON)
    ensures Run(p, s) == Run(p, s.(index := s.index + 1))
  {
    assert p[s.index] == p[s.index..s.index + 1][0];
  }

  /** Effect of a complete value: its nodes are added and its depth counts from the open containers. */
  function AfterValue(s: Scan, length: nat, nodes: nat, depth: nat): Scan {
    Scan(s.index + length, s.nodes + nodes, s.open, Max(s.deepest, s.open + depth))
  }

  lemma {:induction false} RunOverValue(p: Bytes, s: Scan, t: Tree)
    requires WellFormedTree(t) && At(p, s.index, PrintTree(t)) && ValueEnds(p, s.index + |PrintTree(t)|)
    ensures Run(p, s) == Run(p, AfterValue(s, |PrintTree(t)|, TreeNodes(t), TreeDepth(t)))
    decreases t, 0
  {
    hide Run, Step, At, ValueEnds, SkipWhite, PrintChars, PrintNumber, PrintItems, PrintMembers;
    hide WellFormedItems, WellFormedMembers, ItemsNodes, ItemsDepth, MembersNodes, MembersDepth;
    match t
    case NullTree => RunOverLiteral(p, s, t);
    case TrueTree => RunOverLiteral(p, s, t);
    case FalseTree => RunOverLiteral(p, s, t);
    case NumberTree(number) => RunOverNumber(p, s, number);
    case StringTree(chars) =>
      RunOverString(p, s, chars);
      ValueEndsIsNoColon(p, s.index + |PrintString(chars)|);
    case EmptyArrayTree(white) => RunOverEmpty(p, s, OPEN_BRACKET, white, CLOSE_BRACKET);
    case EmptyObjectTree(white) => RunOverEmpty(p, s, OPEN_BRACE, white, CLOSE_BRACE);
    case ArrayTree(items) => RunOverArray(p, s, items);
    case ObjectTree(members) => RunOverObject(p, s, members);
  }

  lemma RunOverArray(p: Bytes, s: Scan, items: Items)
    requires WellFormedItems(items) && At(p, s.index, [OPEN_BRACKET] + (PrintItems(items) + [CLOSE_BRACKET]))
    ensures Run(p, s) == Run(p, AfterValue(s, |PrintItems(items)| + 2, 1 + ItemsNodes(items), 1 + ItemsDepth(items)))
    decreases items, 1
  {
    hide Run, Step, At, WellFormedItems, PrintItems, ItemsNodes, ItemsDepth;
    var body := PrintItems(items);
    AtConcat(p, s.index, [OPEN_BRACKET], body + [CLOSE_BRACKET]);
    AtConcat(p, s.index + 1, body, [CLOSE_BRACKET]);
    RunOverOpener(p, s, OPEN_BRACKET);
    var inside := Scan(s.index + 1, s.nodes + 1, s.open + 1, Max(s.deepest, s.open + 1));
    RunOverItems(p, inside, items);
    RunOverCloser(p, AfterValue(inside, |body|, ItemsNodes(items), ItemsDepth(items)), CLOSE_BRACKET);
  }

  lemma RunOverObject(p: Bytes, s: Scan, members: Members)
    requires WellFormedMembers(members) && At(p, s.index, [OPEN_BRACE] + (PrintMembers(members) + [CLOSE_BRACE]))
    ensures Run(p, s)
      == Run(p, AfterValue(s, |PrintMembers(members)| + 2, 1 + MembersNodes(members), 1 + MembersDepth(members)))
    decreases members, 1
  {
    hide Run, Step, At, WellFormedMembers, PrintMembers, MembersNodes, MembersDepth;
    var body := PrintMembers(members);
    AtConcat(p, s.index, [OPEN_BRACE], body + [CLOSE_BRACE]);
    AtConcat(p, s.index + 1, body, [CLOSE_BRACE]);
    RunOverOpener(p, s, OPEN_BRACE);
    var inside := Scan(s.index + 1, s.nodes + 1, s.open + 1, Max(s.deepest, s.open + 1));
    RunOverMembers(p, inside, members);
    RunOverCloser(p, AfterValue(inside, |body|, MembersNodes(members), MembersDepth(members)), CLOSE_BRACE);
  }

  lemma ValueEndsIsNoColon(p: Bytes, i: nat)
    requires ValueEnds(p, i)
    ensures !ColonAhead(p, i)
  {
  }

  lemma RunOverEmpty(p: Bytes, s: Scan, open: Byte, white: Bytes, close: Byte)
    requires IsOpener(open) && IsCloser(close)
    requires AllWhite(white) && At(p, s.index, [open] + (white + [close]))
    ensures Run(p, s) == Run(p, WithValue(s, s.index + |white| + 2))
  {
    hide Run, Step, At;
    AtConcat(p, s.index, [open], white + [close]);
    AtConcat(p, s.index + 1, white, [close]);
    RunOverOpener(p, s, open);
    var inside := Scan(s.index + 1, s.nodes + 1, s.open + 1, Max(s.deepest, s.open + 1));
    RunOverWhite(p, inside, white);
    RunOverCloser(p, inside.(index := inside.index + |white|), close);
  }

  /** After a value, white space and a byte that closes or continues its container. */
  lemma ValueEndsBefore(p: Bytes, i: nat, white: Bytes, b: Byte)
    requires AllWhite(white) && At(p, i, white) && At(p, i + |white|, [b])
    requires b == COMMA || IsCloser(b)
    ensures ValueEnds(p, i)
  {
    SkipWhiteOver(p, i, white);
    assert p[i + |white|] == p[i + |white|..i + |white| + 1][0];
  }

  /** White space, a value, white space, and the byte after it. */
  lemma RunOverPadded(p: Bytes, s: Scan, before: Bytes, t: Tree, after: Bytes, next: Byte)
    requires AllWhite(before) && AllWhite(after) && WellFormedTree(t) && (next == COMMA || IsCloser(next))
    requires At(p, s.index, before) && At(p, s.index + |before|, PrintTree(t))
    requires At(p, s.index + |before| + |PrintTree(t)|, after)
    requires At(p, s.index + |before| + |PrintTree(t)| + |after|, [next])
    ensures Run(p, s) ==
      Run(p, AfterValue(s, |before| + |PrintTree(t)| + |after|, TreeNodes(t), TreeDepth(t)))
    decreases t, 1
  {
    hide Run, Step, At, ValueEnds, SkipWhite, PrintTree, TreeNodes, TreeDepth;
    var s1 := s.(index := s.index + |before|);
    var s2 := AfterValue(s1, |PrintTree(t)|, TreeNodes(t), TreeDepth(t));
    RunOverWhite(p, s, before);
    ValueEndsBefore(p, s2.index, after, next);
    RunOverValue(p, s1, t);
    RunOverWhite(p, s2, after);
  }

  lemma {:induction false} RunOverItems(p: Bytes, s: Scan, items: Items)
    requires WellFormedItems(items) && s.open > 0
    requires At(p, s.index, PrintItems(items)) && At(p, s.index + |PrintItems(items)|, [CLOSE_BRACKET])
    ensures Run(p, s) == Run(p, AfterValue(s, |PrintItems(items)|, ItemsNodes(items), ItemsDepth(items)))
    decreases items, 0
  {
    hide Run, Step, At, PrintTree, TreeNodes, TreeDepth;
    var value := PrintTree(items.item);
    var more := PrintMoreItems(items);
    AtConcat(p, s.index, items.before, value + (items.after + more));
    AtConcat(p, s.index + |items.before|, value, items.after + more);
    AtConcat(p, s.index + |items.before| + |value|, items.after, more);
    var s1 := AfterValue(s, |items.before| + |value| + |items.after|, TreeNodes(items.item), TreeDepth(items.item));
    if items.MoreItems? {
      AtConcat(p, s1.index, [COMMA], PrintItems(items.rest));
      RunOverPadded(p, s, items.before, items.item, items.after, COMMA);
      RunOverSeparator(p, s1, COMMA);
      RunOverItems(p, s1.(index := s1.index + 1), items.rest);
    } else {
      RunOverPadded(p, s, items.before, items.item, items.after, CLOSE_BRACKET);
    }
  }

  /** A key with its colon: one node, no level. */
  lemma RunOverKey(p: Bytes, s: Scan, key: seq<StringChar>, mid: Bytes)
    requires WellFormedChars(key) && AllWhite(mid)
    requires At(p, s.index, PrintString(key)) && At(p, s.index + |PrintString(key)|, mid)
    requires At(p, s.index + |PrintString(key)| + |mid|, [COLON])
    ensures Run(p, s) ==
      Run(p, Scan(s.index + |PrintString(key)| + |mid| + 1, s.nodes + 1, s.open, s.deepest))
  {
    hide Run, Step, PrintString;
    var s1 := Scan(s.index + |PrintString(key)|, s.nodes + 1, s.open, s.deepest);
    var s2 := s1.(index := s1.index + |mid|);
    assert ColonAhead(p, s1.index) by {
      SkipWhiteOver(p, s1.index, mid);
      assert p[s2.index] == p[s2.index..s2.index + 1][0];
    }
    RunOverString(p, s, key);
    RunOverWhite(p, s1, mid);
    RunOverSeparator(p, s2, COLON);
  }

  lemma {:induction false} RunOverMembers(p: Bytes, s: Scan, members: Members)
    requires WellFormedMembers(members) && s.open > 0
    requires At(p, s.index, PrintMembers(members)) && At(p, s.index + |PrintMembers(members)|, [CLOSE_BRACE])
    ensures Run(p, s) == Run(p, AfterValue(s, |PrintMembers(members)|, MembersNodes(members), MembersDepth(members)))
    decreases members, 0
  {
    hide Run, Step, At, PrintTree, TreeNodes, TreeDepth, PrintString;
    var key, value, more := PrintString(members.key), PrintTree(members.item), PrintMoreMembers(members);
    var tail := members.lead + (value + (members.after + more));
    var i1 := s.index + |members.before|;
    var i2 := i1 + |key| + |members.mid| + 1;
    AtConcat(p, s.index, members.before, key + (members.mid + ([COLON] + tail)));
    AtConcat(p, i1, key, members.mid + ([COLON] + tail));
    AtConcat(p, i1 + |key|, members.mid, [COLON] + tail);
    AtConcat(p, i1 + |key| + |members.mid|, [COLON], tail);
    AtConcat(p, i2, members.lead, value + (members.after + more));
    AtConcat(p, i2 + |members.lead|, value, members.after + more);
    AtConcat(p, i2 + |members.lead| + |value|, members.after, more);
    var s1 := s.(index := i1);
    var s2 := Scan(i2, s.nodes + 1, s.open, s.deepest);
    var s3 := AfterValue(
      s2, |members.lead| + |value| + |members.after|, TreeNodes(members.item), TreeDepth(members.item));
    RunOverWhite(p, s, members.before);
    RunOverKey(p, s1, members.key, members.mid);
    if members.MoreMembers? {
      AtConcat(p, s3.index, [COMMA], PrintMembers(members.rest));
      RunOverPadded(p, s2, members.lead, members.item, members.after, COMMA);
      RunOverSeparator(p, s3, COMMA);
      RunOverMembers(p, s3.(index := s3.index + 1), members.rest);
    } else {
      RunOverPadded(p, s2, members.lead, members.item, members.after, CLOSE_BRACE);
    }
  }

  lemma RunOverPieces(p: Bytes, before: Bytes, t: Tree, after: Bytes)
    requires AllWhite(before) && AllWhite(after) && WellFormedTree(t)
    requires At(p, 0, before) && At(p, |before|, PrintTree(t)) && At(p, |before| + |PrintTree(t)|, after)
    requires |p| == |before| + |PrintTree(t)| + |after|
    ensures Run(p, START) == Scan(|p|, TreeNodes(t), 0, TreeDepth(t))
  {
    hide Run, Step, At, PrintTree, TreeNodes, TreeDepth, SkipWhite, ValueEnds, WellFormedTree;
    var s1 := Scan(|before|, 0, 0, 0);
    var s2 := Scan(|before| + |PrintTree(t)|, TreeNodes(t), 0, TreeDepth(t));
    var s3 := Scan(|p|, TreeNodes(t), 0, TreeDepth(t));
    ValueEndsAtTheEnd(p, s2.index, after);
    RunOverWhite(p, START, before);
    RunOverValue(p, s1, t);
    RunOverWhite(p, s2, after);
    RunEnd(p, s3);
  }

  /** On every RFC 8259 text the scanner counts exactly the nodes and levels the text denotes. */
  lemma ScannerCountsTheText(d: Document)
    requires WellFormedDocument(d)
    ensures ScanAccounting(PrintDocument(d)) == Accounting(TreeNodes(d.tree), TreeDepth(d.tree))
  {
    hide Run, PrintTree, WellFormedTree;
    var p, value := PrintDocument(d), PrintTree(d.tree);
    assert At(p, 0, p);
    AtConcat(p, 0, d.before, value + d.after);
    AtConcat(p, |d.before|, value, d.after);
    RunOverPieces(p, d.before, d.tree, d.after);
  }

  // ---------- the model walk ----------

  predicate ScalarOk(v: Value) {
    match v
    case Int(number) => -MAX_SAFE_INTEGER <= number <= MAX_SAFE_INTEGER
    case Float(finite) => finite
    case Str(text) => !HasSurrogate(text)
    case _ => true
  }

  predicate ScalarsOk(v: Value)
    decreases v
  {
    match v
    case List(elems) => forall i :: 0 <= i < |elems| ==> ScalarsOk(elems[i])
    case Dict(members) =>
      forall i :: 0 <= i < |members| ==> !HasSurrogate(members[i].key) && ScalarsOk(members[i].value)
    case _ => ScalarOk(v)
  }

  lemma ScalarsOfList(elems: seq<Value>)
    requires elems != []
    ensures ScalarsOk(List(elems)) <==> ScalarsOk(elems[0]) && ScalarsOk(List(elems[1..]))
  {
  }

  lemma ScalarsOfDict(members: seq<Member>)
    requires members != []
    ensures ScalarsOk(Dict(members)) <==>
      !HasSurrogate(members[0].key) && ScalarsOk(members[0].value) && ScalarsOk(Dict(members[1..]))
  {
  }

  /** The scalars of a decoded value are sound exactly when no string or key of its text has a lone surrogate. */
  lemma {:induction false} ScalarsArePaired(t: Tree, level: nat, finite: Number -> bool)
    requires WellFormedTree(t) && Decode(t, finite).Ok?
    ensures ScalarsOk(Decode(t, finite).value) <==> AllPaired(Places(t, level), AllKeys(t))
    decreases t
  {
    hide AllPaired, ScalarsOk;
    var here := [Place(t, level)];
    OwnPlaceIsPaired(t, level);
    match t
    case ArrayTree(items) =>
      ItemScalarsArePaired(items, level + 1, finite);
      AllPairedConcat(here, ItemPlaces(items, level + 1), [], ItemKeys(items));
      assert [] + ItemKeys(items) == ItemKeys(items);
    case ObjectTree(members) =>
      MemberScalarsArePaired(members, level + 1, finite);
      AllPairedConcat(here, MemberPlaces(members, level + 1), [], MemberKeys(members));
      assert [] + MemberKeys(members) == MemberKeys(members);
    case _ => LeafScalarIsPaired(t, level, finite);
  }

  lemma OwnPlaceIsPaired(t: Tree, level: nat)
    requires WellFormedTree(t)
    ensures AllPaired([Place(t, level)], []) <==> (t.StringTree? ==> Paired(Units(t.chars)))
  {
    assert Place(t, level) in [Place(t, level)];
  }

  /** The same for a value without parts. */
  lemma LeafScalarIsPaired(t: Tree, level: nat, finite: Number -> bool)
    requires WellFormedTree(t) && Decode(t, finite).Ok? && !t.ArrayTree? && !t.ObjectTree?
    ensures ScalarsOk(Decode(t, finite).value) <==> AllPaired(Places(t, level), AllKeys(t))
  {
    OwnPlaceIsPaired(t, level);
    assert Places(t, level) == [Place(t, level)];
    hide AllPaired;
    match t
    case NumberTree(n) => ParseIntegerExact(n);
    case StringTree(chars) => PairedIsText(chars);
    case _ =>
  }

  lemma {:induction false} ItemScalarsArePaired(items: Items, level: nat, finite: Number -> bool)
    requires WellFormedItems(items) && DecodeItems(items, finite).Ok?
    ensures ScalarsOk(List(DecodeItems(items, finite).value)) <==> AllPaired(ItemPlaces(items, level), ItemKeys(items))
    decreases items
  {
    var elems := DecodeItems(items, finite).value;
    ScalarsArePaired(items.item, level, finite);
    ScalarsOfList(elems);
    hide ScalarsOk, AllPaired;
    if items.MoreItems? {
      ItemScalarsArePaired(items.rest, level, finite);
      AllPairedConcat(
        Places(items.item, level), ItemPlaces(items.rest, level), AllKeys(items.item), ItemKeys(items.rest));
      assert elems[1..] == DecodeItems(items.rest, finite).value;
    } else {
      assert elems[1..] == [];
      assert ItemPlaces(items, level) == Places(items.item, level) && ItemKeys(items) == AllKeys(items.item);
    }
  }

  lemma {:induction false} MemberScalarsArePaired(members: Members, level: nat, finite: Number -> bool)
    requires WellFormedMembers(members) && DecodeMembers(members, finite).Ok?
    ensures ScalarsOk(Dict(DecodeMembers(members, finite).value)) <==>
      AllPaired(MemberPlaces(members, level), MemberKeys(members))
    decreases members
  {
    var pairs := DecodeMembers(members, finite).value;
    var here, own := Places(members.item, level), [members.key] + AllKeys(members.item);
    ScalarsArePaired(members.item, level, finite);
    ScalarsOfDict(pairs);
    PairedIsText(members.key);
    AllPairedConcat([], here, [members.key], AllKeys(members.item));
    assert [] + here == here;
    assert AllPaired([], [members.key]) <==> Paired(Units(members.key)) by {
      assert members.key in [members.key];
    }
    hide ScalarsOk, AllPaired;
    if members.MoreMembers? {
      MemberScalarsArePaired(members.rest, level, finite);
      AllPairedConcat(here, MemberPlaces(members.rest, level), own, MemberKeys(members.rest));
      assert pairs[1..] == DecodeMembers(members.rest, finite).value;
    } else {
      assert pairs[1..] == [];
      assert MemberPlaces(members, level) == here && MemberKeys(members) == own;
    }
  }

  datatype Pending = Pending(value: Value, depth: nat)

  function PendingNodes(stack: seq<Pending>): nat {
    if stack == [] then 0 else PendingNodes(stack[..|stack| - 1]) + Nodes(stack[|stack| - 1].value)
  }

  function PendingDepth(stack: seq<Pending>): nat {
    if stack == [] then 0
    else
      var top := stack[|stack| - 1];
      Max(PendingDepth(stack[..|stack| - 1]), top.depth + Depth(top.value) - 1)
  }

  predicate PendingOk(stack: seq<Pending>) {
    forall i :: 0 <= i < |stack| ==> ScalarsOk(stack[i].value)
  }

  /** Children of one list, in reverse, so that the first child is popped first. */
  function Pushed(elems: seq<Value>, depth: nat): (s: seq<Pending>)
    ensures |s| == |elems|
    ensures forall i :: 0 <= i < |s| ==> s[i] == Pending(elems[|elems| - 1 - i], depth)
  {
    if elems == [] then [] else Pushed(elems[1..], depth) + [Pending(elems[0], depth)]
  }

  function Values(members: seq<Member>): (vs: seq<Value>)
    ensures |vs| == |members|
    ensures forall i :: 0 <= i < |vs| ==> vs[i] == members[i].value
  {
    if members == [] then [] else [members[0].value] + Values(members[1..])
  }

  /** Taking the top off the stack moves its own node into the count and leaves its children to push. */
  lemma PopMeasures(stack: seq<Pending>, top: Pending)
    ensures PendingNodes(stack + [top]) == PendingNodes(stack) + Nodes(top.value)
    ensures PendingDepth(stack + [top]) == Max(PendingDepth(stack), top.depth + Depth(top.value) - 1)
    ensures PendingOk(stack + [top]) <==> PendingOk(stack) && ScalarsOk(top.value)
    ensures Nodes(top.value) >= 1 && Depth(top.value) >= 1
  {
    var whole := stack + [top];
    assert whole[..|whole| - 1] == stack;
    assert whole[|whole| - 1] == top;
    if PendingOk(whole) {
      forall i | 0 <= i < |stack|
        ensures ScalarsOk(stack[i].value)
      {
        assert whole[i] == stack[i];
      }
    }
  }

  lemma {:induction false} PushedMeasures(stack: seq<Pending>, elems: seq<Value>, depth: nat)
    ensures PendingNodes(stack + Pushed(elems, depth)) == PendingNodes(stack) + NodesOfList(elems)
    ensures elems != [] ==> DepthOfList(elems) >= 1
    ensures elems != [] ==>
      PendingDepth(stack + Pushed(elems, depth)) == Max(PendingDepth(stack), depth + DepthOfList(elems) - 1)
    decreases |elems|
  {
    hide PendingNodes, PendingDepth, PendingOk;
    if elems == [] {
      assert stack + Pushed(elems, depth) == stack;
    } else {
      PushedMeasures(stack, elems[1..], depth);
      var below := stack + Pushed(elems[1..], depth);
      assert stack + Pushed(elems, depth) == below + [Pending(elems[0], depth)];
      PopMeasures(below, Pending(elems[0], depth));
      if elems[1..] == [] {
        assert below == stack;
      }
    }
  }

  lemma {:induction false} DictMeasures(members: seq<Member>)
    ensures NodesOfDict(members) == |members| + NodesOfList(Values(members))
    ensures DepthOfDict(members) == DepthOfList(Values(members))
    decreases |members|
  {
    if members != [] {
      DictMeasures(members[1..]);
      assert Values(members)[1..] == Values(members[1..]);
    }
  }

  lemma PushedOk(stack: seq<Pending>, elems: seq<Value>, depth: nat)
    ensures PendingOk(stack + Pushed(elems, depth)) <==>
      PendingOk(stack) && forall i :: 0 <= i < |elems| ==> ScalarsOk(elems[i])
  {
    var pushed := Pushed(elems, depth);
    var all := stack + pushed;
    if PendingOk(all) {
      forall i | 0 <= i < |stack|
        ensures ScalarsOk(stack[i].value)
      {
        assert all[i] == stack[i];
      }
      forall i | 0 <= i < |elems|
        ensures ScalarsOk(elems[i])
      {
        assert all[|stack| + |elems| - 1 - i] == pushed[|elems| - 1 - i];
      }
    }
  }

  /** The object branch of the walk: keys are counted and checked while the children are pushed. */
  method PushMembers(stack: seq<Pending>, nodes: nat, members: seq<Member>, depth: nat)
    returns (r: Result<(seq<Pending>, nat), Refusal>)
    requires nodes <= MAX_NODES
    ensures r.Ok? <==>
      nodes + |members| <= MAX_NODES && forall i :: 0 <= i < |members| ==> !HasSurrogate(members[i].key)
    ensures r.Ok? ==> r.value == (stack + Pushed(Values(members), depth), nodes + |members|)
    ensures r.Err? ==> r.error == TooManyNodes || r.error == BadUnicode
    ensures r == Err(TooManyNodes) ==> nodes + |members| > MAX_NODES
    ensures r == Err(BadUnicode) ==> exists i :: 0 <= i < |members| && HasSurrogate(members[i].key)
  {
    hide HasSurrogate, Pushed, Values;
    var working, counted := stack, nodes;
    ghost var pushed := Pushed(Values(members), depth);
    var k := |members|;
    while k > 0
      invariant 0 <= k <= |members|
      invariant counted == nodes + (|members| - k) && counted <= MAX_NODES
      invariant forall i :: k <= i < |members| ==> !HasSurrogate(members[i].key)
      invariant working == stack + pushed[..|members| - k]
    {
      k := k - 1;
      if HasSurrogate(members[k].key) {
        return Err(BadUnicode);
      }
      counted := counted + 1;
      if counted > MAX_NODES {
        return Err(TooManyNodes);
      }
      working := working + [Pending(members[k].value, depth)];
    }
    assert pushed[..|members|] == pushed;
    return Ok((working, counted));
  }

  /** Expanding a list on top of the stack: its node is counted, its children take its place. */
  lemma ExpandList(stack: seq<Pending>, elems: seq<Value>, depth: nat)
    ensures var top, rest := stack + [Pending(List(elems), depth)], stack + Pushed(elems, depth + 1);
      && PendingNodes(top) == 1 + PendingNodes(rest)
      && PendingDepth(top) == Max(depth, PendingDepth(rest))
      && (PendingOk(top) <==> PendingOk(rest))
  {
    hide PendingNodes, PendingDepth, PendingOk;
    PopMeasures(stack, Pending(List(elems), depth));
    PushedMeasures(stack, elems, depth + 1);
    PushedOk(stack, elems, depth + 1);
    if elems == [] {
      assert stack + Pushed(elems, depth + 1) == stack;
    }
  }

  /** The same for an object, whose keys are counted and checked as it is expanded. */
  lemma ExpandDict(stack: seq<Pending>, members: seq<Member>, depth: nat)
    ensures var top, rest := stack + [Pending(Dict(members), depth)], stack + Pushed(Values(members), depth + 1);
      && PendingNodes(top) == 1 + |members| + PendingNodes(rest)
      && PendingDepth(top) == Max(depth, PendingDepth(rest))
      && (PendingOk(top) <==> PendingOk(rest) && forall i :: 0 <= i < |members| ==> !HasSurrogate(members[i].key))
  {
    hide PendingNodes, PendingDepth, PendingOk, HasSurrogate;
    PopMeasures(stack, Pending(Dict(members), depth));
    DictMeasures(members);
    PushedMeasures(stack, Values(members), depth + 1);
    PushedOk(stack, Values(members), depth + 1);
    if members == [] {
      assert stack + Pushed(Values(members), depth + 1) == stack;
    }
  }

  lemma ExpandScalar(stack: seq<Pending>, v: Value, depth: nat)
    requires !v.List? && !v.Dict?
    ensures PendingNodes(stack + [Pending(v, depth)]) == 1 + PendingNodes(stack)
    ensures PendingDepth(stack + [Pending(v, depth)]) == Max(depth, PendingDepth(stack))
    ensures PendingOk(stack + [Pending(v, depth)]) <==> PendingOk(stack) && ScalarOk(v)
  {
    hide PendingNodes, PendingDepth, PendingOk;
    PopMeasures(stack, Pending(v, depth));
  }

  lemma EmptyMeasures()
    ensures PendingNodes([]) == 0 && PendingDepth([]) == 0 && PendingOk([])
  {
  }

  lemma RootMeasures(value: Value)
    ensures PendingNodes([]) == 0 && PendingDepth([]) == 0 && PendingOk([])
    ensures var stack := [Pending(value, 1)];
      PendingNodes(stack) == Nodes(value) && PendingDepth(stack) == Depth(value)
      && (PendingOk(stack) <==> ScalarsOk(value))
  {
    hide PendingNodes, PendingDepth, PendingOk;
    EmptyMeasures();
    PopMeasures([], Pending(value, 1));
    assert [Pending(value, 1)] == [] + [Pending(value, 1)];
  }

  /** `_validate_json_model`: an explicit stack instead of recursion. */
  method ValidateModel(value: Value) returns (r: Result<Accounting, Refusal>)
    ensures r.Ok? <==> WithinLimits(Accounting(Nodes(value), Depth(value))) && ScalarsOk(value)
    ensures r.Ok? ==> r.value == Accounting(Nodes(value), Depth(value))
    ensures r == Err(TooDeep) ==> Depth(value) > MAX_DEPTH
    ensures r == Err(TooManyNodes) ==> Nodes(value) > MAX_NODES
    ensures r == Err(BadNumber) || r == Err(BadUnicode) ==> !ScalarsOk(value)
    ensures r != Err(TooManyBytes)
  {
    hide PendingNodes, PendingDepth, PendingOk, Pushed, Values, HasSurrogate, Nodes, Depth, ScalarsOk;
    var nodes: nat, maximumDepth: nat := 0, 0;
    var stack := [Pending(value, 1)];
    RootMeasures(value);
    while stack != []
      invariant nodes <= MAX_NODES && maximumDepth <= MAX_DEPTH
      invariant nodes + PendingNodes(stack) == Nodes(value)
      invariant Max(maximumDepth, PendingDepth(stack)) == Depth(value)
      invariant PendingOk(stack) <==> ScalarsOk(value)
      decreases PendingNodes(stack)
    {
      var current, depth := stack[|stack| - 1].value, stack[|stack| - 1].depth;
      ghost var whole := stack;
      stack := stack[..|stack| - 1];
      assert whole == stack + [Pending(current, depth)];
      match current {
        case List(elems) => ExpandList(stack, elems, depth);
        case Dict(members) => ExpandDict(stack, members, depth);
        case _ => ExpandScalar(stack, current, depth);
      }
      if depth > MAX_DEPTH {
        return Err(TooDeep);
      }
      maximumDepth := Max(maximumDepth, depth);
      nodes := nodes + 1;
      if nodes > MAX_NODES {
        return Err(TooManyNodes);
      }
      match current {
        case Null =>
        case Bool(_) =>
        case Int(number) =>
          if number < -MAX_SAFE_INTEGER || number > MAX_SAFE_INTEGER {
            return Err(BadNumber);
          }
        case Float(finite) =>
          if !finite {
            return Err(BadNumber);
          }
        case Str(text) =>
          if HasSurrogate(text) {
            return Err(BadUnicode);
          }
        case List(elems) =>
          stack := stack + Pushed(elems, depth + 1);
        case Dict(members) =>
          var pushed := PushMembers(stack, nodes, members, depth + 1);
          if pushed.Err? {
            return Err(pushed.error);
          }
          stack, nodes := pushed.value.0, pushed.value.1;
      }
    }
    return Ok(Accounting(nodes, maximumDepth));
  }

  // ---------- strict_json_bytes ----------

  datatype Verdict =
    | Accepted(value: Value)
    | Refused(reason: Refusal)
    | Undecodable(cause: DecodeError)
    | AccountingDiffers

  /** `strict_json_bytes`; `decoded` is what the standard decoder makes of the payload. */
  method StrictJsonBytes(payload: Bytes, decoded: Result<Value, DecodeError>) returns (v: Verdict)
    ensures v.Accepted? <==>
      && |payload| <= MAX_BYTES && decoded.Ok? && ScalarsOk(decoded.value)
      && WithinLimits(ScanAccounting(payload))
      && ScanAccounting(payload) == Accounting(Nodes(decoded.value), Depth(decoded.value))
    ensures v.Accepted? ==> decoded == Ok(v.value)
    ensures v.AccountingDiffers? ==>
      decoded.Ok? && ScanAccounting(payload) != Accounting(Nodes(decoded.value), Depth(decoded.value))
    ensures v.Undecodable? ==> decoded == Err(v.cause)
  {
    var preflight := Preflight(payload);
    if preflight.Err? {
      return Refused(preflight.error);
    }
    if decoded.Err? {
      return Undecodable(decoded.error);
    }
    var observed := ValidateModel(decoded.value);
    if observed.Err? {
      return Refused(observed.error);
    }
    if preflight.value != observed.value {
      return AccountingDiffers;
    }
    return Accepted(decoded.value);
  }

  /** What strict admission owes a caller, read off the text alone: its size, its values and its keys. */
  ghost predicate Admissible(d: Document, finite: Number -> bool)
    requires WellFormedDocument(d)
  {
    var places, keys := Places(d.tree, 1), AllKeys(d.tree);
    && |PrintDocument(d)| <= 4_194_304 && |places| + |keys| <= 100_000
    && (forall p :: p in places ==> p.level <= 64)
    && AllDecodable(places, finite) && AllPaired(places, keys)
  }

  lemma AdmissibleDecodes(d: Document, finite: Number -> bool)
    requires WellFormedDocument(d)
    ensures Admissible(d, finite) <==>
      && |PrintDocument(d)| <= MAX_BYTES && WithinLimits(Accounting(TreeNodes(d.tree), TreeDepth(d.tree)))
      && Decode(d.tree, finite).Ok? && ScalarsOk(Decode(d.tree, finite).value)
  {
    NodesCounted(d.tree, 1);
    DepthReached(d.tree, 1);
    DecodesExactly(d.tree, 1, finite);
    if Decode(d.tree, finite).Ok? {
      ScalarsArePaired(d.tree, 1, finite);
    }
    hide PrintDocument, Places, AllKeys, TreeNodes, TreeDepth, AllDecodable, AllPaired, ScalarsOk;
  }

  /**
   Every payload, JSON text or not: the scan and the recursive count of the decoded value never differ, and
   admission is exactly being the text of an admissible document.
   */
  method AdmitPayload(payload: Bytes, decoded: Result<Value, DecodeError>, ghost finite: Number -> bool)
    returns (v: Verdict)
    requires decoded == DecodePayload(payload, finite)
    ensures v.Accepted? <==> exists d :: Reads(payload, d) && Admissible(d, finite)
    ensures v.Accepted? ==> forall d :: Reads(payload, d) ==> Decode(d.tree, finite) == Ok(v.value)
    ensures !v.AccountingDiffers?
  {
    hide Admissible, ScalarsOk, PrintDocument, Decode;
    forall d | Reads(payload, d)
      ensures decoded == Decode(d.tree, finite)
      ensures ScanAccounting(payload) == Accounting(TreeNodes(d.tree), TreeDepth(d.tree))
      ensures decoded.Ok? ==> ScanAccounting(payload) == Accounting(Nodes(decoded.value), Depth(decoded.value))
      ensures Admissible(d, finite) <==>
        && |payload| <= MAX_BYTES && WithinLimits(ScanAccounting(payload))
        && decoded.Ok? && ScalarsOk(decoded.value)
    {
      DecodePayloadReads(d, finite);
      ScannerCountsTheText(d);
      AdmissibleDecodes(d, finite);
      if decoded.Ok? {
        DecodeKeepsAccounting(d.tree, finite);
      }
    }
    v := StrictJsonBytes(payload, decoded);
  }

  /** The same for a text given by its tree. */
  method AdmitDocument(d: Document, finite: Number -> bool) returns (v: Verdict)
    requires WellFormedDocument(d)
    ensures v.Accepted? <==> Admissible(d, finite)
    ensures v.Accepted? ==> Decode(d.tree, finite) == Ok(v.value)
    ensures !v.AccountingDiffers?
  {
    DecodePayloadReads(d, finite);
    v := AdmitPayload(PrintDocument(d), Decode(d.tree, finite), finite);
    assert Reads(PrintDocument(d), d);
    forall other | Reads(PrintDocument(d), other)
      ensures other == d
    {
      DocumentIsUnique(d, other);
    }
  }
}
