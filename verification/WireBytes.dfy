/**
 Bounded wire bytes of scripts/contracts/oci_graph.py: unpadded base64url (RFC 4648 section 5) with
 every alias of a byte string refused.
 */
module WireBytes {
  import opened Foundation

  datatype WireError = Padding | NotBase64 | LimitExceeded | NotCanonical

  type Sextet = s: int | 0 <= s < 64

  // ---------- alphabet ----------

  function Letter(s: Sextet): (c: char)
    ensures c != '='
  {
    if s < 26 then ('A' as int + s) as char
    else if s < 52 then ('a' as int + (s - 26)) as char
    else if s < 62 then ('0' as int + (s - 52)) as char
    else if s == 62 then '-' else '_'
  }

  /** The lenient library decoder: it also takes the two letters of the standard alphabet. */
  function LetterValue(c: char): Option<Sextet> {
    if 'A' <= c <= 'Z' then Some(c as int - 'A' as int)
    else if 'a' <= c <= 'z' then Some(c as int - 'a' as int + 26)
    else if '0' <= c <= '9' then Some(c as int - '0' as int + 52)
    else if c == '-' || c == '+' then Some(62)
    else if c == '_' || c == '/' then Some(63)
    else None
  }

  /** The table "base64url" of RFC 4648, section 5. */
  const ALPHABET: string :=
    "ABCDEFGHIJKLM" + "NOPQRSTUVWXYZ" + "abcdefghijklm" + "nopqrstuvwxyz" + "0123456789" + "-_"

  lemma CapitalsInRow(i: nat)
    requires i < 13
    ensures "ABCDEFGHIJKLM"[i] == (65 + i) as char && "NOPQRSTUVWXYZ"[i] == (78 + i) as char
  {
    assert i in [0, 1, 2, 3, 4, 5, 6, 7, 8, 9, 10, 11, 12];
  }

  lemma SmallsInRow(i: nat)
    requires i < 13
    ensures "abcdefghijklm"[i] == (97 + i) as char && "nopqrstuvwxyz"[i] == (110 + i) as char
  {
    assert i in [0, 1, 2, 3, 4, 5, 6, 7, 8, 9, 10, 11, 12];
  }

  lemma DigitsInRow(i: nat)
    requires i < 10
    ensures "0123456789"[i] == (48 + i) as char
  {
    assert i in [0, 1, 2, 3, 4, 5, 6, 7, 8, 9];
  }

  /** Where each place of the table lies in its parts. */
  lemma PartsOfTable(s: Sextet)
    ensures |ALPHABET| == 64
    ensures ALPHABET[s] ==
      if s < 13 then "ABCDEFGHIJKLM"[s] else if s < 26 then "NOPQRSTUVWXYZ"[s - 13]
      else if s < 39 then "abcdefghijklm"[s - 26] else if s < 52 then "nopqrstuvwxyz"[s - 39]
      else if s < 62 then "0123456789"[s - 52] else "-_"[s - 62]
  {
  }

  lemma LetterIsTabled(s: Sextet)
    ensures |ALPHABET| == 64 && Letter(s) == ALPHABET[s]
  {
    PartsOfTable(s);
    if s < 13 {
      CapitalsInRow(s);
    } else if s < 26 {
      CapitalsInRow(s - 13);
    } else if s < 39 {
      SmallsInRow(s - 26);
    } else if s < 52 {
      SmallsInRow(s - 39);
    } else if s < 62 {
      DigitsInRow(s - 52);
    }
  }

  lemma LetterValueOfLetter(s: Sextet)
    ensures LetterValue(Letter(s)) == Some(s)
  {
  }

  // ---------- groups of bytes and sextets ----------

  function ToSextets(p: Bytes): seq<Sextet> {
    if |p| == 0 then []
    else if |p| == 1 then [p[0] / 4, p[0] % 4 * 16]
    else if |p| == 2 then [p[0] / 4, p[0] % 4 * 16 + p[1] / 16, p[1] % 16 * 4]
    else
      [p[0] / 4, p[0] % 4 * 16 + p[1] / 16, p[1] % 16 * 4 + p[2] / 64, p[2] % 64] + ToSextets(p[3..])
  }

  /** Left-over bits of a short last group are dropped, whatever they are. */
  function FromSextets(s: seq<Sextet>): Bytes
    requires |s| % 4 != 1
  {
    if |s| == 0 then []
    else if |s| == 2 then [First(s[0], s[1])]
    else if |s| == 3 then [First(s[0], s[1]), Second(s[1], s[2])]
    else
      assert |s| >= 4 && (|s| - 4) % 4 == |s| % 4;
      [First(s[0], s[1]), Second(s[1], s[2]), Third(s[2], s[3])] + FromSextets(s[4..])
  }

  function First(a: Sextet, b: Sextet): Byte {
    var high: int, low: int := a, b;
    high * 4 + low / 16
  }

  function Second(b: Sextet, c: Sextet): Byte {
    var high: int, low: int := b, c;
    high % 16 * 16 + low / 4
  }

  function Third(c: Sextet, d: Sextet): Byte {
    var high: int, low: int := c, d;
    high % 4 * 64 + low
  }

  // ---------- the codec ----------

  /** `encode_bounded_bytes`. */
  function Encode(p: Bytes): (text: string)
    ensures |text| == |ToSextets(p)|
  {
    var sextets := ToSextets(p);
    seq(|sextets|, i requires 0 <= i < |sextets| => Letter(sextets[i]))
  }

  function LetterValues(text: string): Option<seq<Sextet>> {
    if text == "" then Some([])
    else
      var head, tail := LetterValue(text[0]), LetterValues(text[1..]);
      if head.None? || tail.None? then None else Some([head.value] + tail.value)
  }

  lemma {:induction false} LetterValuesLength(text: string)
    ensures LetterValues(text).Some? ==> |LetterValues(text).value| == |text|
  {
    if text != "" {
      LetterValuesLength(text[1..]);
    }
  }

  /** The library decoder on text without padding. */
  function RawDecode(text: string): Option<Bytes> {
    var values := LetterValues(text);
    if values.None? || |values.value| % 4 == 1 then None else Some(FromSextets(values.value))
  }

  /** `decode_bounded_bytes`. */
  function Decode(text: string, maximumBytes: nat): Result<Bytes, WireError> {
    if '=' in text then Err(Padding)
    else
      var payload := RawDecode(text);
      if payload.None? then Err(NotBase64)
      else if |payload.value| > maximumBytes then Err(LimitExceeded)
      else if Encode(payload.value) != text then Err(NotCanonical)
      else Ok(payload.value)
  }

  // ---------- round trip ----------

  /** One full group of three bytes and back. */
  lemma GroupSurvives(a: Byte, b: Byte, c: Byte)
    ensures First(a / 4, a % 4 * 16 + b / 16) == a
    ensures Second(a % 4 * 16 + b / 16, b % 16 * 4 + c / 64) == b
    ensures Third(b % 16 * 4 + c / 64, c % 64) == c
  {
  }

  lemma {:induction false} FromToSextets(p: Bytes)
    ensures |ToSextets(p)| % 4 != 1
    ensures FromSextets(ToSextets(p)) == p
    decreases |p|
  {
    if |p| >= 3 {
      FromToSextets(p[3..]);
      assert |ToSextets(p)| == 4 + |ToSextets(p[3..])|;
      assert ToSextets(p)[4..] == ToSextets(p[3..]);
      GroupSurvives(p[0], p[1], p[2]);
      assert p == [p[0], p[1], p[2]] + p[3..];
    }
  }

  lemma {:induction false} LetterValuesOfLetters(text: string, sextets: seq<Sextet>)
    requires |text| == |sextets| && forall i :: 0 <= i < |text| ==> text[i] == Letter(sextets[i])
    ensures LetterValues(text) == Some(sextets) && '=' !in text
    decreases |text|
  {
    if text != "" {
      LetterValueOfLetter(sextets[0]);
      LetterValuesOfLetters(text[1..], sextets[1..]);
      assert sextets == [sextets[0]] + sextets[1..];
      assert text == [text[0]] + text[1..];
    }
  }

  /** Decoding succeeds exactly on the encodings of short enough payloads, and inverts the encoder. */
  lemma DecodeExact(text: string, maximumBytes: nat, p: Bytes)
    ensures Decode(text, maximumBytes) == Ok(p) <==> text == Encode(p) && |p| <= maximumBytes
  {
    LetterValuesOfLetters(Encode(p), ToSextets(p));
    FromToSextets(p);
  }

  /** No two accepted texts mean the same bytes, and no two byte strings share a text. */
  lemma EncodingIsBijective(a: string, b: string, maximumBytes: nat, p: Bytes, q: Bytes)
    ensures Decode(a, maximumBytes).Ok? && Decode(a, maximumBytes) == Decode(b, maximumBytes) ==> a == b
    ensures Encode(p) == Encode(q) ==> p == q
  {
    if Decode(a, maximumBytes).Ok? && Decode(a, maximumBytes) == Decode(b, maximumBytes) {
      DecodeExact(a, maximumBytes, Decode(a, maximumBytes).value);
      DecodeExact(b, maximumBytes, Decode(a, maximumBytes).value);
    }
    if Encode(p) == Encode(q) {
      DecodeExact(Encode(p), |p|, p);
      DecodeExact(Encode(p), |p| + |q|, q);
      DecodeExact(Encode(p), |p| + |q|, p);
    }
  }

  // ---------- the bit order of RFC 4648 ----------

  /** The low `width` bits of a number, most significant first. */
  function Bits(n: nat, width: nat): (bits: seq<nat>)
    ensures |bits| == width
  {
    if width == 0 then [] else Bits(n / 2, width - 1) + [n % 2]
  }

  function ByteBits(p: Bytes): seq<nat> {
    if p == [] then [] else Bits(p[0], 8) + ByteBits(p[1..])
  }

  function SextetBits(s: seq<Sextet>): seq<nat> {
    if s == [] then [] else Bits(s[0], 6) + SextetBits(s[1..])
  }

  function Power2(n: nat): (p: nat)
    ensures p >= 1
  {
    if n == 0 then 1 else 2 * Power2(n - 1)
  }

  /** The bits of a number split wherever the number is cut. */
  lemma {:induction false} BitsJoin(high: nat, low: nat, unit: nat, widthHigh: nat, widthLow: nat)
    requires low < unit == Power2(widthLow)
    ensures Bits(high * unit + low, widthHigh + widthLow) == Bits(high, widthHigh) + Bits(low, widthLow)
    decreases widthLow
  {
    if widthLow > 0 {
      var half := Power2(widthLow - 1);
      var scaled := high * half;
      assert high * unit == 2 * scaled;
      BitsJoin(high, low / 2, half, widthHigh, widthLow - 1);
      assert (2 * scaled + low) / 2 == scaled + low / 2 && (2 * scaled + low) % 2 == low % 2;
    } else {
      assert low == 0;
    }
  }

  lemma CutByte(a: Byte)
    ensures Bits(a, 8) == Bits(a / 4, 6) + Bits(a % 4, 2)
    ensures Bits(a, 8) == Bits(a / 16, 4) + Bits(a % 16, 4)
    ensures Bits(a, 8) == Bits(a / 64, 2) + Bits(a % 64, 6)
  {
    assert Power2(2) == 4 && Power2(4) == 16 && Power2(6) == 64;
    BitsJoin(a / 4, a % 4, 4, 6, 2);
    BitsJoin(a / 16, a % 16, 16, 4, 4);
    BitsJoin(a / 64, a % 64, 64, 2, 6);
  }

  lemma {:induction false} BitsOfZero(width: nat)
    ensures Bits(0, width) == Zeros(width)
  {
    if width > 0 {
      BitsOfZero(width - 1);
    }
  }

  lemma Power2Of4()
    ensures Power2(4) == 16
  {
  }

  lemma CutSextet2(x: nat, y: nat)
    requires y < 16
    ensures Bits(x * 16 + y, 6) == Bits(x, 2) + Bits(y, 4)
  {
    Power2Of4();
    hide Power2, Bits;
    BitsJoin(x, y, 16, 2, 4);
  }

  lemma CutSextet4(x: nat, y: nat)
    requires y < 4
    ensures Bits(x * 4 + y, 6) == Bits(x, 4) + Bits(y, 2)
  {
    assert Power2(2) == 4;
    BitsJoin(x, y, 4, 4, 2);
  }

  /** Section 4: the sextets are the payload's bits from left to right, filled up with zero bits (section 3.5). */
  lemma {:induction false} SextetsSpellTheBits(p: Bytes)
    ensures SextetBits(ToSextets(p)) ==
      ByteBits(p) + Zeros(if |p| % 3 == 0 then 0 else if |p| % 3 == 1 then 4 else 2)
    decreases |p|
  {
    hide Bits, Zeros, SextetBits, ByteBits;
    if |p| == 0 {
      NoBits();
    } else if |p| == 1 {
      OneByte(p[0]);
      assert p == [p[0]];
    } else if |p| == 2 {
      TwoBytes(p[0], p[1]);
      assert p == [p[0], p[1]];
    } else {
      SextetsSpellTheBits(p[3..]);
      ThreeBytes(p[0], p[1], p[2]);
      var group := ToSextets(p)[..4];
      assert ToSextets(p) == group + ToSextets(p[3..]);
      SextetBitsConcat(group, ToSextets(p[3..]));
      ByteBitsConcat(p[..3], p[3..]);
      assert p[..3] == [p[0], p[1], p[2]] && p == p[..3] + p[3..];
    }
  }

  /** The letters of a text, each as its place in the table of section 5. */
  ghost predicate Spelled(text: string, places: seq<Sextet>) {
    |text| == |places| && forall i :: 0 <= i < |text| ==> text[i] == ALPHABET[places[i]]
  }

  /** The encoding, letter by letter through the table, spells the payload's bits and the fill. */
  lemma EncodingSpellsTheBits(p: Bytes)
    ensures exists places :: Spelled(Encode(p), places)
    ensures forall places :: Spelled(Encode(p), places) ==>
      SextetBits(places) == ByteBits(p) + Zeros(if |p| % 3 == 0 then 0 else if |p| % 3 == 1 then 4 else 2)
  {
    hide Bits, Zeros, SextetBits, ByteBits, ToSextets, Encode, Letter;
    SextetsSpellTheBits(p);
    EncodeIsTabled(p);
    forall places | Spelled(Encode(p), places)
      ensures places == ToSextets(p)
    {
      PlacesAreUnique(Encode(p), places, ToSextets(p));
    }
  }

  lemma EncodeIsTabled(p: Bytes)
    ensures Spelled(Encode(p), ToSextets(p))
  {
    var sextets := ToSextets(p);
    hide ToSextets, Letter;
    forall i | 0 <= i < |sextets|
      ensures Encode(p)[i] == ALPHABET[sextets[i]]
    {
      LetterIsTabled(sextets[i]);
    }
  }

  lemma PlacesAreUnique(text: string, a: seq<Sextet>, b: seq<Sextet>)
    requires Spelled(text, a) && Spelled(text, b)
    ensures a == b
  {
    forall i | 0 <= i < |a|
      ensures a[i] == b[i]
    {
      LetterIsTabled(a[i]);
      LetterIsTabled(b[i]);
      LetterValueOfLetter(a[i]);
      LetterValueOfLetter(b[i]);
    }
  }

  lemma NoBits()
    ensures SextetBits([]) == [] && ByteBits([]) == [] && Zeros(0) == []
  {
  }

  lemma {:induction false} SextetBitsConcat(a: seq<Sextet>, b: seq<Sextet>)
    ensures SextetBits(a + b) == SextetBits(a) + SextetBits(b)
  {
    if a == [] {
      assert a + b == b;
    } else {
      assert (a + b)[1..] == a[1..] + b;
      SextetBitsConcat(a[1..], b);
    }
  }

  lemma {:induction false} ByteBitsConcat(a: Bytes, b: Bytes)
    ensures ByteBits(a + b) == ByteBits(a) + ByteBits(b)
  {
    if a == [] {
      assert a + b == b;
    } else {
      assert (a + b)[1..] == a[1..] + b;
      ByteBitsConcat(a[1..], b);
    }
  }

  lemma OneByte(a: Byte)
    ensures SextetBits([a / 4, a % 4 * 16]) == ByteBits([a]) + Zeros(4)
  {
    hide Bits, Zeros;
    CutByte(a);
    CutSextet2(a % 4, 0);
    BitsOfZero(4);
    UnfoldSextets([a / 4, a % 4 * 16]);
    UnfoldBytes([a]);
  }

  lemma TwoBytes(a: Byte, b: Byte)
    ensures SextetBits([a / 4, a % 4 * 16 + b / 16, b % 16 * 4]) == ByteBits([a, b]) + Zeros(2)
  {
    hide Bits, Zeros;
    CutByte(a);
    CutByte(b);
    CutSextet2(a % 4, b / 16);
    CutSextet4(b % 16, 0);
    BitsOfZero(2);
    UnfoldSextets([a / 4, a % 4 * 16 + b / 16, b % 16 * 4]);
    UnfoldBytes([a, b]);
  }

  lemma ThreeBytes(a: Byte, b: Byte, c: Byte)
    ensures SextetBits([a / 4, a % 4 * 16 + b / 16, b % 16 * 4 + c / 64, c % 64]) == ByteBits([a, b, c])
  {
    hide Bits;
    CutByte(a);
    CutByte(b);
    CutByte(c);
    CutSextet2(a % 4, b / 16);
    CutSextet4(b % 16, c / 64);
    UnfoldSextets([a / 4, a % 4 * 16 + b / 16, b % 16 * 4 + c / 64, c % 64]);
    UnfoldBytes([a, b, c]);
  }

  lemma UnfoldBytes(p: Bytes)
    ensures |p| == 1 ==> ByteBits(p) == Bits(p[0], 8)
    ensures |p| == 2 ==> ByteBits(p) == Bits(p[0], 8) + Bits(p[1], 8)
    ensures |p| == 3 ==> ByteBits(p) == Bits(p[0], 8) + Bits(p[1], 8) + Bits(p[2], 8)
  {
    hide Bits;
    if |p| > 0 && |p| <= 3 {
      assert |p| > 1 ==> ByteBits(p[1..]) == Bits(p[1], 8) + ByteBits(p[2..]);
      assert |p| > 2 ==> ByteBits(p[2..]) == Bits(p[2], 8) + ByteBits(p[3..]);
      assert ByteBits(p[|p|..]) == [];
    }
  }

  lemma UnfoldSextets(s: seq<Sextet>)
    ensures |s| == 2 ==> SextetBits(s) == Bits(s[0], 6) + Bits(s[1], 6)
    ensures |s| == 3 ==> SextetBits(s) == Bits(s[0], 6) + Bits(s[1], 6) + Bits(s[2], 6)
    ensures |s| == 4 ==> SextetBits(s) == Bits(s[0], 6) + Bits(s[1], 6) + Bits(s[2], 6) + Bits(s[3], 6)
  {
    hide Bits;
    if |s| > 0 && |s| <= 4 {
      assert |s| > 1 ==> SextetBits(s[1..]) == Bits(s[1], 6) + SextetBits(s[2..]);
      assert |s| > 2 ==> SextetBits(s[2..]) == Bits(s[2], 6) + SextetBits(s[3..]);
      assert |s| > 3 ==> SextetBits(s[3..]) == Bits(s[3], 6) + SextetBits(s[4..]);
      assert SextetBits(s[|s|..]) == [];
    }
  }
}
