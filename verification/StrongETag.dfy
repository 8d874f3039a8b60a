/** The ETag codec of internal/api/etag.go. Header values and digests are byte strings. */
module StrongETag {
  import opened Foundation
  import opened Decimals

  const MAX_INT64: int := 0x7FFF_FFFF_FFFF_FFFF
  const MIN_INT64: int := -0x8000_0000_0000_0000

  type Int64 = x: int | MIN_INT64 <= x <= MAX_INT64

  const QUOTE: Byte := 0x22
  const BACKSLASH: Byte := 0x5C
  const MINUS: Byte := 0x2D
  const SHA256: Bytes := [0x73, 0x68, 0x61, 0x32, 0x35, 0x36, 0x3A]

  predicate IsHexDigit(b: Byte) {
    0x30 <= b <= 0x39 || 0x61 <= b <= 0x66
  }

  /** "sha256:" and 64 lower-case hexadecimal digits. */
  predicate IsDigest(digest: Bytes) {
    |digest| == 71 && digest[..7] == SHA256 && forall i :: 7 <= i < 71 ==> IsHexDigit(digest[i])
  }

  /** Go's `%d`. */
  function SignedDecimal(n: Int64): Bytes {
    var value: int := n;
    if value < 0 then [MINUS] + Decimal(-value) else Decimal(value)
  }

  /** What Go's `%q` puts between the quotes, for printable ASCII. */
  function Escaped(text: Bytes): Bytes {
    if text == [] then []
    else (if text[0] == QUOTE || text[0] == BACKSLASH then [BACKSLASH, text[0]] else [text[0]]) + Escaped(text[1..])
  }

  /** `strongETag`. */
  function Print(revision: Int64, digest: Bytes): Bytes {
    [QUOTE] + Escaped(SignedDecimal(revision) + [MINUS] + digest) + [QUOTE]
  }

  /** The regular expression: a quoted positive decimal numeral, a dash and a digest. */
  ghost predicate Spells(value: Bytes, numeral: Bytes, digest: Bytes) {
    && value == [QUOTE] + numeral + [MINUS] + digest + [QUOTE]
    && numeral != [] && AllDigits(numeral) && numeral[0] != 0x30 && IsDigest(digest)
  }

  /** `parseStrongETag`: the digest has a fixed length, so the numeral is what stands before it. */
  function Parse(value: Bytes): Option<(Int64, Bytes)> {
    if |value| < 75 || value[0] != QUOTE || value[|value| - 1] != QUOTE || value[|value| - 73] != MINUS then None
    else
      var numeral, digest := value[1..|value| - 73], value[|value| - 72..|value| - 1];
      if !AllDigits(numeral) || numeral[0] == 0x30 || !IsDigest(digest) then None
      else if DigitsValue(numeral) > MAX_INT64 then None
      else Some((DigitsValue(numeral), digest))
  }

  lemma ValueParts(value: Bytes)
    requires |value| >= 75
    ensures value
      == [value[0]] + value[1..|value| - 73] + [value[|value| - 73]] + value[|value| - 72..|value| - 1]
         + [value[|value| - 1]]
  {
  }

  lemma Regroup(a: Byte, numeral: Bytes, b: Byte, digest: Bytes, c: Byte)
    ensures [a] + (numeral + [b] + digest) + [c] == [a] + numeral + [b] + digest + [c]
  {
  }

  lemma SpelledSlices(numeral: Bytes, digest: Bytes)
    requires |digest| == 71
    ensures var value := [QUOTE] + numeral + [MINUS] + digest + [QUOTE];
      && |value| == |numeral| + 74 && value[0] == QUOTE && value[|value| - 1] == QUOTE && value[|value| - 73] == MINUS
      && value[1..|value| - 73] == numeral && value[|value| - 72..|value| - 1] == digest
  {
    var value := [QUOTE] + numeral + [MINUS] + digest + [QUOTE];
    assert value == [QUOTE] + (numeral + ([MINUS] + (digest + [QUOTE])));
    assert value[1..] == numeral + ([MINUS] + (digest + [QUOTE]));
    assert value[1..|value| - 73] == value[1..][..|numeral|];
    assert value[|value| - 72..] == digest + [QUOTE];
    assert value[|value| - 72..|value| - 1] == value[|value| - 72..][..71];
  }

  /** Parsing accepts exactly the spellings of numbers that fit 64 bits. */
  lemma ParseIsSpelling(value: Bytes, revision: Int64, digest: Bytes)
    ensures Parse(value) == Some((revision, digest)) <==>
      exists numeral :: Spells(value, numeral, digest) && DigitsValue(numeral) == revision
  {
    if Parse(value) == Some((revision, digest)) {
      var numeral := value[1..|value| - 73];
      ValueParts(value);
      assert Spells(value, numeral, digest);
    }
    if numeral :| Spells(value, numeral, digest) && DigitsValue(numeral) == revision {
      SpelledSlices(numeral, digest);
    }
  }

  ghost predicate Plain(text: Bytes) {
    forall i :: 0 <= i < |text| ==> text[i] != QUOTE && text[i] != BACKSLASH
  }

  lemma {:induction false} PlainIsKept(text: Bytes)
    requires Plain(text)
    ensures Escaped(text) == text
    decreases |text|
  {
    if text != [] {
      PlainIsKept(text[1..]);
    }
  }

  lemma TagIsPlain(numeral: Bytes, digest: Bytes)
    requires Plain(numeral) && IsDigest(digest)
    ensures Plain(numeral + [MINUS] + digest)
  {
    forall i | 0 <= i < |digest|
      ensures digest[i] != QUOTE && digest[i] != BACKSLASH
    {
      if i < 7 {
        assert digest[i] == digest[..7][i] == SHA256[i];
      } else {
        assert IsHexDigit(digest[i]);
      }
    }
  }

  /** Printing and parsing undo each other on positive revisions with well-formed digests, and only there. */
  lemma PrintThenParse(revision: Int64, digest: Bytes)
    ensures Parse(Print(revision, digest)) == Some((revision, digest)) <==> revision > 0 && IsDigest(digest)
  {
    if revision > 0 && IsDigest(digest) {
      var numeral := Decimal(revision);
      DecimalIsCanonical(revision);
      TagIsPlain(numeral, digest);
      PlainIsKept(numeral + [MINUS] + digest);
      Regroup(QUOTE, numeral, MINUS, digest, QUOTE);
      hide Escaped, Parse, IsDigest, Plain;
      assert Print(revision, digest) == [QUOTE] + numeral + [MINUS] + digest + [QUOTE];
      assert Spells(Print(revision, digest), numeral, digest);
      ParseIsSpelling(Print(revision, digest), revision, digest);
    }
    if Parse(Print(revision, digest)) == Some((revision, digest)) {
      ParsedIsPositive(Print(revision, digest));
    }
  }

  lemma ParsedIsPositive(value: Bytes)
    ensures Parse(value).Some? ==> Parse(value).value.0 > 0 && IsDigest(Parse(value).value.1)
  {
    if Parse(value).Some? {
      CanonicalIsDecimal(value[1..|value| - 73]);
    }
  }

  /** Every accepted header value is the printed form of what it parses to. */
  lemma ParseThenPrint(value: Bytes)
    requires Parse(value).Some?
    ensures Print(Parse(value).value.0, Parse(value).value.1) == value
  {
    var (revision, digest) := Parse(value).value;
    var numeral := value[1..|value| - 73];
    CanonicalIsDecimal(numeral);
    TagIsPlain(numeral, digest);
    PlainIsKept(numeral + [MINUS] + digest);
    ValueParts(value);
    hide Parse, IsDigest, AllDigits, DigitsValue, Escaped, Plain;
    Regroup(QUOTE, numeral, MINUS, digest, QUOTE);
  }

  /** The tag of a digest is the signed revision, a dash and the digest in double quotes. */
  lemma PrintSpells(revision: Int64, digest: Bytes)
    requires IsDigest(digest)
    ensures var value: int := revision;
      exists numeral ::
        && IsCanonical(numeral) && DigitsValue(numeral) == (if value < 0 then -value else value)
        && Print(revision, digest)
           == [0x22] + ((if value < 0 then [0x2D] else []) + numeral) + [0x2D] + digest + [0x22]
  {
    var value: int := revision;
    var magnitude: nat := if value < 0 then -value else value;
    var numeral := Decimal(magnitude);
    DecimalIsCanonical(magnitude);
    var signed := (if revision < 0 then [MINUS] else []) + numeral;
    assert SignedDecimal(revision) == signed;
    TagIsPlain(signed, digest);
    PlainIsKept(signed + [MINUS] + digest);
    Regroup(QUOTE, signed, MINUS, digest, QUOTE);
  }

  /** The tag of a revision that has turned negative is no precondition any more. */
  lemma NegativeTagIsUnusable(revision: Int64, digest: Bytes)
    requires revision < 0
    ensures Parse(Print(revision, digest)).None?
  {
    var value := Print(revision, digest);
    var text := SignedDecimal(revision) + [MINUS] + digest;
    assert text[0] == MINUS && Escaped(text)[0] == MINUS;
    assert value[1] == MINUS;
    if |value| >= 75 {
      assert value[1..|value| - 73][0] == MINUS || |value| == 74;
    }
  }

  /** Under one revision the tag tells digests apart. */
  lemma TagFixesDigest(revision: Int64, a: Bytes, b: Bytes)
    requires IsDigest(a) && IsDigest(b) && Print(revision, a) == Print(revision, b)
    ensures a == b
  {
    var numeral := SignedDecimal(revision);
    var x, y := numeral + [MINUS] + a, numeral + [MINUS] + b;
    TagIsPlain(numeral, a);
    TagIsPlain(numeral, b);
    PlainIsKept(x);
    PlainIsKept(y);
    hide Escaped, IsDigest, SignedDecimal, Plain;
    assert ([QUOTE] + x + [QUOTE])[1..|x| + 1] == x && ([QUOTE] + y + [QUOTE])[1..|y| + 1] == y;
    assert x[|x| - 71..] == a && y[|y| - 71..] == b;
  }
}
