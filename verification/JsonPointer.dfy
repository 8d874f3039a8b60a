/**
 JSON pointers of internal/operations/operations.go: parsing into unescaped tokens (RFC 6901) and
 array index tokens. Pointers and tokens are byte strings; `valid` says which tokens are valid NFC Unicode.
 */
module JsonPointer {
  import opened Foundation
  import opened Decimals
  import opened Splitting

  const SLASH: Byte := 0x2F
  const TILDE: Byte := 0x7E
  const HASH: Byte := 0x23
  const DASH: Byte := 0x2D
  const MAX_POINTER_BYTES: nat := 4096
  const MAX_INT: int := 0x7FFF_FFFF_FFFF_FFFF

  type Token = Bytes

  datatype PointerError = EmptyPointer | PointerTooLong | NotAbsolute | BadEscape | BadToken

  // ---------- the printer every pointer is measured against ----------

  function EscapeToken(token: Token): Bytes {
    if token == [] then []
    else
      (if token[0] == TILDE then [TILDE, 0x30] else if token[0] == SLASH then [TILDE, 0x31] else [token[0]])
      + EscapeToken(token[1..])
  }

  function PrintPointer(tokens: seq<Token>): Bytes {
    if tokens == [] then [] else [SLASH] + EscapeToken(tokens[0]) + PrintPointer(tokens[1..])
  }

  // ---------- specification of the parser ----------

  function UnescapeToken(raw: Bytes): Option<Token> {
    if raw == [] then Some([])
    else if raw[0] != TILDE then
      var rest := UnescapeToken(raw[1..]);
      if rest.None? then None else Some([raw[0]] + rest.value)
    else if |raw| < 2 || (raw[1] != 0x30 && raw[1] != 0x31) then None
    else
      var rest := UnescapeToken(raw[2..]);
      if rest.None? then None else Some([if raw[1] == 0x30 then TILDE else SLASH] + rest.value)
  }

  function UnescapeAll(raws: seq<Bytes>, valid: Token -> bool): Result<seq<Token>, PointerError> {
    if raws == [] then Ok([])
    else
      var token := UnescapeToken(raws[0]);
      if token.None? then Err(BadEscape)
      else if !valid(token.value) then Err(BadToken)
      else
        var rest := UnescapeAll(raws[1..], valid);
        if rest.Err? then rest else Ok([token.value] + rest.value)
  }

  function Parse(pointer: Bytes, valid: Token -> bool): Result<seq<Token>, PointerError> {
    if pointer == [] then Err(EmptyPointer)
    else if |pointer| > MAX_POINTER_BYTES then Err(PointerTooLong)
    else if pointer[0] != SLASH then Err(NotAbsolute)
    else UnescapeAll(Split(pointer[1..], SLASH), valid)
  }

  // ---------- the parser ----------

  function Extend(decoded: Token, rest: Option<Token>): Option<Token> {
    if rest.None? then None else Some(decoded + rest.value)
  }

  lemma ExtendNothing(rest: Option<Token>)
    ensures Extend([], rest) == rest
  {
    if rest.Some? {
      assert [] + rest.value == rest.value;
    }
  }

  lemma ExtendByte(decoded: Token, b: Byte, rest: Option<Token>)
    ensures Extend(decoded, Extend([b], rest)) == Extend(decoded + [b], rest)
  {
    if rest.Some? {
      assert decoded + ([b] + rest.value) == decoded + [b] + rest.value;
    }
  }

  /** The escape loop over one raw token. */
  method DecodeToken(raw: Bytes) returns (token: Option<Token>)
    ensures token == UnescapeToken(raw)
  {
    var decoded: Bytes := [];
    var j := 0;
    assert raw[0..] == raw;
    ExtendNothing(UnescapeToken(raw));
    while j < |raw|
      invariant 0 <= j <= |raw|
      invariant UnescapeToken(raw) == Extend(decoded, UnescapeToken(raw[j..]))
    {
      hide UnescapeToken;
      if raw[j] != TILDE {
        ExtendByte(decoded, raw[j], UnescapeToken(raw[j + 1..]));
        decoded := decoded + [raw[j]];
      } else {
        if j + 1 >= |raw| {
          return None;
        }
        if raw[j + 1] == 0x30 {
          ExtendByte(decoded, TILDE, UnescapeToken(raw[j + 2..]));
          decoded := decoded + [TILDE];
        } else if raw[j + 1] == 0x31 {
          ExtendByte(decoded, SLASH, UnescapeToken(raw[j + 2..]));
          decoded := decoded + [SLASH];
        } else {
          return None;
        }
        j := j + 1;
      }
      j := j + 1;
    }
    assert raw[j..] == [] && decoded + [] == decoded;
    return Some(decoded);
  }

  /** `parsePointer`. */
  method ParsePointer(pointer: Bytes, valid: Token -> bool) returns (r: Result<seq<Token>, PointerError>)
    ensures r == Parse(pointer, valid)
  {
    if pointer == [] {
      return Err(EmptyPointer);
    }
    if |pointer| > MAX_POINTER_BYTES {
      return Err(PointerTooLong);
    }
    if pointer[0] == HASH || pointer[0] != SLASH {
      return Err(NotAbsolute);
    }
    var raws := Split(pointer[1..], SLASH);
    var tokens: seq<Token> := [];
    var i := 0;
    while i < |raws|
      invariant 0 <= i <= |raws|
      invariant UnescapeAll(raws, valid).Err? <==> UnescapeAll(raws[i..], valid).Err?
      invariant UnescapeAll(raws, valid).Err? ==> UnescapeAll(raws, valid) == UnescapeAll(raws[i..], valid)
      invariant UnescapeAll(raws, valid).Ok? ==>
        UnescapeAll(raws, valid).value == tokens + UnescapeAll(raws[i..], valid).value
    {
      assert raws[i..][1..] == raws[i + 1..];
      var token := DecodeToken(raws[i]);
      if token.None? {
        return Err(BadEscape);
      }
      if !valid(token.value) {
        return Err(BadToken);
      }
      tokens := tokens + [token.value];
      i := i + 1;
    }
    assert raws[i..] == [] && tokens + [] == tokens;
    return Ok(tokens);
  }

  // ---------- parsing and printing are inverse ----------

  function EscapeAll(tokens: seq<Token>): (raws: seq<Bytes>)
    ensures |raws| == |tokens|
  {
    if tokens == [] then [] else [EscapeToken(tokens[0])] + EscapeAll(tokens[1..])
  }

  lemma {:induction false} UnescapeEscape(token: Token)
    ensures UnescapeToken(EscapeToken(token)) == Some(token) && MarkFree(EscapeToken(token), SLASH)
  {
    if token != [] {
      UnescapeEscape(token[1..]);
      var width := if token[0] == TILDE || token[0] == SLASH then 2 else 1;
      assert EscapeToken(token)[width..] == EscapeToken(token[1..]);
      assert token == [token[0]] + token[1..];
    }
  }

  lemma {:induction false} EscapeUnescape(raw: Bytes)
    requires MarkFree(raw, SLASH) && UnescapeToken(raw).Some?
    ensures EscapeToken(UnescapeToken(raw).value) == raw
  {
    if raw != [] {
      var width := if raw[0] == TILDE then 2 else 1;
      EscapeUnescape(raw[width..]);
      assert UnescapeToken(raw).value[1..] == UnescapeToken(raw[width..]).value;
    }
  }

  lemma {:induction false} PrintIsJoin(tokens: seq<Token>)
    requires tokens != []
    ensures PrintPointer(tokens) == [SLASH] + Join(EscapeAll(tokens), SLASH)
  {
    var first, rest := EscapeToken(tokens[0]), tokens[1..];
    if rest == [] {
      assert PrintPointer(tokens) == [SLASH] + first + [] == [SLASH] + first;
    } else {
      PrintIsJoin(rest);
      assert EscapeAll(tokens)[1..] == EscapeAll(rest);
      assert Join(EscapeAll(tokens), SLASH) == first + ([SLASH] + Join(EscapeAll(rest), SLASH));
      assert [SLASH] + first + PrintPointer(rest) == [SLASH] + (first + PrintPointer(rest));
    }
  }

  ghost predicate AllValid(tokens: seq<Token>, valid: Token -> bool) {
    forall i :: 0 <= i < |tokens| ==> valid(tokens[i])
  }

  lemma {:induction false} UnescapeAllOfEscaped(tokens: seq<Token>, valid: Token -> bool)
    requires AllValid(tokens, valid)
    ensures UnescapeAll(EscapeAll(tokens), valid) == Ok(tokens)
    ensures forall i :: 0 <= i < |tokens| ==> MarkFree(EscapeAll(tokens)[i], SLASH)
  {
    if tokens != [] {
      UnescapeEscape(tokens[0]);
      UnescapeAllOfEscaped(tokens[1..], valid);
      assert EscapeAll(tokens)[1..] == EscapeAll(tokens[1..]);
      assert tokens == [tokens[0]] + tokens[1..];
    }
  }

  lemma {:induction false} EscapeAllOfUnescaped(raws: seq<Bytes>, valid: Token -> bool)
    requires UnescapeAll(raws, valid).Ok? && forall i :: 0 <= i < |raws| ==> MarkFree(raws[i], SLASH)
    ensures EscapeAll(UnescapeAll(raws, valid).value) == raws
    ensures AllValid(UnescapeAll(raws, valid).value, valid)
  {
    if raws != [] {
      EscapeUnescape(raws[0]);
      EscapeAllOfUnescaped(raws[1..], valid);
      assert UnescapeAll(raws, valid).value[1..] == UnescapeAll(raws[1..], valid).value;
    }
  }

  /** The parser accepts exactly the printed forms of non-empty valid token lists, and inverts the printer. */
  lemma ParseInvertsPrint(pointer: Bytes, tokens: seq<Token>, valid: Token -> bool)
    ensures Parse(pointer, valid) == Ok(tokens) <==>
      && tokens != [] && AllValid(tokens, valid)
      && pointer == PrintPointer(tokens) && |pointer| <= 4096
  {
    if Parse(pointer, valid) == Ok(tokens) {
      JoinSplit(pointer[1..], SLASH);
      SplitMarkFree(pointer[1..], SLASH);
      EscapeAllOfUnescaped(Split(pointer[1..], SLASH), valid);
      PrintIsJoin(tokens);
    }
    if tokens != [] && AllValid(tokens, valid) && pointer == PrintPointer(tokens) && |pointer| <= MAX_POINTER_BYTES {
      PrintIsJoin(tokens);
      UnescapeAllOfEscaped(tokens, valid);
      SplitJoin(EscapeAll(tokens), SLASH);
    }
  }

  /** Distinct token lists have distinct spellings. */
  lemma {:induction false} PrintPointerInjective(a: seq<Token>, b: seq<Token>)
    requires PrintPointer(a) == PrintPointer(b)
    ensures a == b
  {
    if a != [] && b != [] {
      PrintIsJoin(a);
      PrintIsJoin(b);
      var any: Token -> bool := _ => true;
      UnescapeAllOfEscaped(a, any);
      UnescapeAllOfEscaped(b, any);
      SplitJoin(EscapeAll(a), SLASH);
      SplitJoin(EscapeAll(b), SLASH);
      assert PrintPointer(a)[1..] == Join(EscapeAll(a), SLASH);
      assert PrintPointer(b)[1..] == Join(EscapeAll(b), SLASH);
    }
  }

  // ---------- the escapes of RFC 6901 ----------

  /** Every occurrence of the two bytes `a`, `b`, from left to right, replaced by `plain`. */
  function Replaced(text: Bytes, a: Byte, b: Byte, plain: Byte): Bytes {
    if |text| < 2 then text
    else if text[0] == a && text[1] == b then [plain] + Replaced(text[2..], a, b, plain)
    else [text[0]] + Replaced(text[1..], a, b, plain)
  }

  lemma ReplacedCons(first: Byte, rest: Bytes, a: Byte, b: Byte, plain: Byte)
    requires first != a
    ensures Replaced([first] + rest, a, b, plain) == [first] + Replaced(rest, a, b, plain)
  {
    assert ([first] + rest)[1..] == rest;
  }

  /**
   Section 4: a token is read by replacing every "~1" by "/" and then every "~0" by "~"; it can be read when every
   "~" is followed by one of the two digits.
   */
  lemma {:induction false} UnescapeReplaces(raw: Bytes)
    ensures UnescapeToken(raw).Some? <==>
      forall i :: 0 <= i < |raw| && raw[i] == TILDE ==> i + 1 < |raw| && raw[i + 1] in [0x30, 0x31]
    ensures UnescapeToken(raw).Some? ==>
      UnescapeToken(raw).value == Replaced(Replaced(raw, TILDE, 0x31, 0x2F), TILDE, 0x30, TILDE)
    decreases |raw|
  {
    if raw != [] {
      if raw[0] != TILDE {
        var rest := raw[1..];
        UnescapeReplaces(rest);
        assert raw == [raw[0]] + rest;
        ReplacedCons(raw[0], rest, TILDE, 0x31, 0x2F);
        ReplacedCons(raw[0], Replaced(rest, TILDE, 0x31, 0x2F), TILDE, 0x30, TILDE);
        assert forall i :: 1 <= i < |raw| ==> raw[i] == rest[i - 1];
      } else if |raw| > 1 && (raw[1] == 0x30 || raw[1] == 0x31) {
        var rest := raw[2..];
        UnescapeReplaces(rest);
        EscapeReplaced(raw);
        assert forall i :: 2 <= i < |raw| ==> raw[i] == rest[i - 2];
      }
    }
  }

  lemma EscapeReplaced(raw: Bytes)
    requires |raw| > 1 && raw[0] == TILDE && (raw[1] == 0x30 || raw[1] == 0x31)
    ensures var rest := Replaced(Replaced(raw[2..], TILDE, 0x31, 0x2F), TILDE, 0x30, TILDE);
      Replaced(Replaced(raw, TILDE, 0x31, 0x2F), TILDE, 0x30, TILDE)
      == [if raw[1] == 0x30 then TILDE else 0x2F] + rest
  {
    var rest := Replaced(raw[2..], TILDE, 0x31, 0x2F);
    if raw[1] == 0x31 {
      ReplacedCons(0x2F, rest, TILDE, 0x30, TILDE);
    } else {
      assert raw[1..] == [raw[1]] + raw[2..];
      ReplacedCons(raw[1], raw[2..], TILDE, 0x31, 0x2F);
      assert Replaced(raw, TILDE, 0x31, 0x2F) == [TILDE, 0x30] + rest;
      assert ([TILDE, 0x30] + rest)[2..] == rest;
    }
  }

  // ---------- array index tokens ----------

  datatype IndexError = AppendToken | NotCanonical | NotDigits | OutOfRange

  /** `arrayIndex`; the conversion fails above the largest Go int. */
  method ArrayIndex(token: Token, length: nat, allowEnd: bool) returns (r: Result<nat, IndexError>)
    requires length < MAX_INT
    ensures r == IndexOf(token, length, allowEnd)
  {
    if token == [DASH] {
      return Err(AppendToken);
    }
    if token == [] || (|token| > 1 && token[0] == 0x30) {
      return Err(NotCanonical);
    }
    var i := 0;
    while i < |token|
      invariant 0 <= i <= |token| && forall k :: 0 <= k < i ==> IsDigit(token[k])
    {
      if token[i] < 0x30 || token[i] > 0x39 {
        return Err(NotDigits);
      }
      i := i + 1;
    }
    var index := DigitsValue(token);
    if index > MAX_INT {
      return Err(NotDigits);
    }
    var limit := length - 1;
    if allowEnd {
      limit := length;
    }
    if index < 0 || index > limit {
      return Err(OutOfRange);
    }
    return Ok(index);
  }

  function IndexOf(token: Token, length: nat, allowEnd: bool): Result<nat, IndexError> {
    if token == [DASH] then Err(AppendToken)
    else if token == [] || (|token| > 1 && token[0] == 0x30) then Err(NotCanonical)
    else if !AllDigits(token) || DigitsValue(token) > MAX_INT then Err(NotDigits)
    else if DigitsValue(token) >= length + (if allowEnd then 1 else 0) then Err(OutOfRange)
    else Ok(DigitsValue(token))
  }

  /** A token names index `i` exactly when it is the decimal numeral of `i` and `i` is in range. */
  lemma IndexOfExact(token: Token, length: nat, allowEnd: bool, i: nat)
    requires length < MAX_INT
    ensures IndexOf(token, length, allowEnd) == Ok(i) <==>
      i < length + (if allowEnd then 1 else 0) && token == Decimal(i)
  {
    DecimalIsCanonical(i);
    if IsCanonical(token) {
      CanonicalIsDecimal(token);
    }
  }
}
