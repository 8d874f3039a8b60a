/**
 The ustar printer of scripts/contracts/generate_protocol_fixtures.py, and a reader written from the
 "ustar Interchange Format" of POSIX pax (IEEE Std 1003.1), which knows nothing of the printer.
 */
module Ustar {
  import opened Foundation
  import opened Ordering

  /** A name is its UTF-8 encoding; a mode is a Python integer. */
  datatype Member = Member(name: Bytes, payload: Bytes, mode: int)

  datatype TarError = UnsafeName | FieldOverflow

  const BLOCK := 512
  const MAGIC: Bytes := [117, 115, 116, 97, 114, 0]
  const VERSION: Bytes := [48, 48]
  const BLANK: Bytes := [32, 32, 32, 32, 32, 32, 32, 32]
  const REGULAR: Bytes := [48]

  // ---------- octal numbers ----------

  function Power8(n: nat): nat {
    if n == 0 then 1 else 8 * Power8(n - 1)
  }

  function Octal(v: nat): (digits: Bytes)
    ensures digits != []
  {
    if v < 8 then [48 + v] else Octal(v / 8) + [48 + v % 8]
  }

  /** Python's `{value:0{width}o}`: a minus sign counts towards the width. */
  function ZeroPadded(value: int, width: nat): Bytes {
    var sign := if value < 0 then [45] else [];
    var digits := Octal(if value < 0 then -value else value);
    var have := |sign| + |digits|;
    sign + seq(if have < width then width - have else 0, _ => 48) + digits
  }

  function OctalField(value: int, width: nat): Result<Bytes, TarError>
    requires width > 0
  {
    var rendered := ZeroPadded(value, width - 1) + [0];
    if |rendered| == width then Ok(rendered) else Err(FieldOverflow)
  }

  /** What a field holds for a value that fits it. */
  predicate Fits(value: int, width: nat)
    requires width > 2
  {
    0 < value + Power8(width - 2) && value < Power8(width - 1)
  }

  predicate IsOctalDigit(b: Byte) {
    48 <= b < 56
  }

  /** A numeral read from the left, most significant digit first. */
  function OctalValue(digits: Bytes): int {
    if digits == [] then 0 else 8 * OctalValue(digits[..|digits| - 1]) + digits[|digits| - 1] - 48
  }

  lemma {:induction false} OctalReads(v: nat)
    ensures OctalValue(Octal(v)) == v
    ensures forall i :: 0 <= i < |Octal(v)| ==> IsOctalDigit(Octal(v)[i])
  {
    if v >= 8 {
      OctalReads(v / 8);
      assert Octal(v)[..|Octal(v)| - 1] == Octal(v / 8);
    } else {
      assert Octal(v)[..0] == [];
    }
  }

  lemma {:induction false} OctalLength(v: nat, n: nat)
    requires n > 0
    ensures |Octal(v)| <= n <==> v < Power8(n)
    decreases v
  {
    assert Power8(n) == 8 * Power8(n - 1);
    if v >= 8 {
      if n == 1 {
        assert Power8(1) == 8 * Power8(0);
      } else {
        OctalLength(v / 8, n - 1);
      }
    } else {
      PowerPositive(n - 1);
    }
  }

  lemma {:induction false} PowerPositive(n: nat)
    ensures Power8(n) >= 1
  {
    if n > 0 {
      PowerPositive(n - 1);
    }
  }

  lemma {:induction false} LeadingZeros(zeros: nat, digits: Bytes)
    ensures OctalValue(seq(zeros, _ => 48) + digits) == OctalValue(digits)
    decreases |digits|, zeros
  {
    var all: Bytes := seq(zeros, _ => 48) + digits;
    if digits != [] {
      assert all[..|all| - 1] == seq(zeros, _ => 48) + digits[..|digits| - 1];
      LeadingZeros(zeros, digits[..|digits| - 1]);
    } else if zeros > 0 {
      var fewer: Bytes := seq(zeros - 1, _ => 48);
      assert all[..|all| - 1] == fewer + [];
      LeadingZeros(zeros - 1, []);
    }
  }

  /** A numeric field accepts exactly the values that fit, filling its width. */
  lemma FieldAccepts(value: int, width: nat)
    requires width > 2
    ensures OctalField(value, width).Ok? <==> Fits(value, width)
    ensures Fits(value, width) ==> |ZeroPadded(value, width - 1)| == width - 1
  {
    OctalLength(if value < 0 then -value else value, width - 1);
    OctalLength(if value < 0 then -value else value, width - 2);
    PowerPositive(width - 2);
    PowerPositive(width - 1);
  }

  // ---------- one header ----------

  function Sum(s: Bytes): nat {
    if s == [] then 0 else Sum(s[..|s| - 1]) + s[|s| - 1]
  }

  lemma {:induction false} SumConcat(s: Bytes, t: Bytes)
    ensures Sum(s + t) == Sum(s) + Sum(t)
    decreases |t|
  {
    if t == [] {
      assert s + t == s;
    } else {
      SumConcat(s, t[..|t| - 1]);
      assert (s + t)[..|s + t| - 1] == s + t[..|t| - 1];
    }
  }

  lemma {:induction false} SumIsBounded(s: Bytes)
    ensures Sum(s) <= 255 * |s|
    decreases |s|
  {
    if s != [] {
      SumIsBounded(s[..|s| - 1]);
    }
  }

  function Field(value: int, width: nat): Bytes
    requires width > 0
  {
    ZeroPadded(value, width - 1) + [0]
  }

  function PaddedName(name: Bytes): Bytes
    requires |name| <= 100
  {
    name + Zeros(100 - |name|)
  }

  function BeforeChecksum(name: Bytes, size: nat, mode: int): Bytes
    requires |name| <= 100
  {
    PaddedName(name) + Field(mode, 8) + Field(0, 8) + Field(0, 8) + Field(size, 12) + Field(0, 12)
  }

  function AfterChecksum(): Bytes {
    REGULAR + Zeros(100) + MAGIC + VERSION + Zeros(247)
  }

  /** The byte sum of a header whose checksum field holds blanks. */
  function Checksum(name: Bytes, size: nat, mode: int): nat
    requires |name| <= 100
  {
    Sum(BeforeChecksum(name, size, mode) + BLANK + AfterChecksum())
  }

  /** The header as one run of fields. */
  function Header(name: Bytes, size: nat, mode: int): Bytes
    requires |name| <= 100
  {
    BeforeChecksum(name, size, mode) + (ZeroPadded(Checksum(name, size, mode), 6) + [0, 32]) + AfterChecksum()
  }

  /** Members a header can describe. */
  predicate Printable(m: Member) {
    0 < |m.name| <= 100 && Fits(m.mode, 8) && Fits(|m.payload|, 12)
  }

  lemma ShapeOfParts(name: Bytes, size: nat, mode: int)
    requires |name| <= 100 && Fits(mode, 8) && Fits(size, 12)
    ensures |BeforeChecksum(name, size, mode)| == 148 && |AfterChecksum()| == 356
  {
    FieldAccepts(mode, 8);
    FieldAccepts(size, 12);
    PowerPositive(6);
    PowerPositive(7);
    PowerPositive(10);
    PowerPositive(11);
    FieldAccepts(0, 8);
    FieldAccepts(0, 12);
  }

  /** The checksum always fits its six digits, so the last write never changes the header's length. */
  lemma ChecksumFits(name: Bytes, size: nat, mode: int)
    requires |name| <= 100 && Fits(mode, 8) && Fits(size, 12)
    ensures |ZeroPadded(Checksum(name, size, mode), 6)| == 6
    ensures |Header(name, size, mode)| == BLOCK
  {
    ShapeOfParts(name, size, mode);
    SumIsBounded(BeforeChecksum(name, size, mode) + BLANK + AfterChecksum());
    OctalLength(Checksum(name, size, mode), 6);
  }

  lemma OnePlaced(before: Bytes, start: Bytes, at: nat, part: Bytes, i: nat)
    requires i < |part| && at + |part| <= |start| && before == start[..at] + part[..i] + start[at + i..]
    ensures before[at + i := part[i]] == start[..at] + part[..i + 1] + start[at + i + 1..]
  {
  }

  /** Slice assignment of the same length. */
  method WriteAt(header: array<Byte>, at: nat, part: Bytes)
    requires at + |part| <= header.Length
    modifies header
    ensures header[..] == old(header[..at]) + part + old(header[at + |part|..])
  {
    var i := 0;
    while i < |part|
      invariant 0 <= i <= |part|
      invariant header[..] == old(header[..])[..at] + part[..i] + old(header[..])[at + i..]
    {
      ghost var before := header[..];
      header[at + i] := part[i];
      assert header[..] == before[at + i := part[i]];
      OnePlaced(before, old(header[..]), at, part, i);
      i := i + 1;
    }
    assert part[..i] == part;
  }

  /** A header under construction: `done` followed by zeros up to the block size. */
  ghost predicate Underway(content: Bytes, done: Bytes) {
    |done| <= BLOCK && content == done + Zeros(BLOCK - |done|)
  }

  method WriteField(header: array<Byte>, at: nat, part: Bytes, ghost done: Bytes) returns (ghost now: Bytes)
    requires header.Length == BLOCK && Underway(header[..], done) && |done| <= at && at + |part| <= BLOCK
    modifies header
    ensures now == (if at == |done| then done + part else done + Zeros(at - |done|) + part)
    ensures |now| == at + |part| && Underway(header[..], now)
  {
    WriteAt(header, at, part);
    now := if at == |done| then done + part else done + Zeros(at - |done|) + part;
  }

  lemma ChecksumWritten(blanked: Bytes, final: Bytes, name: Bytes, size: nat, mode: int)
    requires |name| <= 100 && Fits(mode, 8) && Fits(size, 12)
    requires blanked == BeforeChecksum(name, size, mode) + BLANK + AfterChecksum() && |blanked| == BLOCK
    requires var field := ZeroPadded(Sum(blanked), 6) + [0, 32];
      |field| == 8 && final == blanked[..148] + field + blanked[156..]
    ensures final == Header(name, size, mode)
  {
    ShapeOfParts(name, size, mode);
    hide BeforeChecksum, AfterChecksum;
    assert blanked[..148] == BeforeChecksum(name, size, mode);
    assert blanked[156..] == AfterChecksum();
  }

  /** The first half of `ustar_header`: the name and the numbers before the checksum. */
  method WriteNumbers(header: array<Byte>, name: Bytes, size: Bytes, mode: Bytes)
    requires header.Length == BLOCK && header[..] == Zeros(BLOCK)
    requires |name| <= 100 && |mode| == 8 && |size| == 12 && Fits(0, 8) && Fits(0, 12)
    modifies header
    ensures Underway(
      header[..], PaddedName(name) + mode + Field(0, 8) + Field(0, 8) + size + Field(0, 12))
  {
    FieldAccepts(0, 8);
    FieldAccepts(0, 12);
    var zero8, zero12 := OctalField(0, 8).value, OctalField(0, 12).value;
    hide ZeroPadded, Fits;
    assert PaddedName(name) == name + Zeros(100 - |name|) && |PaddedName(name)| == 100;
    hide PaddedName;
    ghost var done: Bytes := [];
    assert Underway(header[..], done);
    hide Underway;
    done := WriteField(header, 0, name, done);
    assert done == name;
    done := WriteField(header, 100, mode, done);
    assert done == PaddedName(name) + mode;
    done := WriteField(header, 108, zero8, done);
    done := WriteField(header, 116, zero8, done);
    done := WriteField(header, 124, size, done);
    done := WriteField(header, 136, zero12, done);
  }

  /** The second half: the blanked checksum and the constants behind it. */
  method WriteConstants(header: array<Byte>, ghost numbers: Bytes)
    requires header.Length == BLOCK && |numbers| == 148 && Underway(header[..], numbers)
    modifies header
    ensures header[..] == numbers + BLANK + AfterChecksum()
  {
    ghost var done := numbers;
    done := WriteField(header, 148, BLANK, done);
    done := WriteField(header, 156, REGULAR, done);
    done := WriteField(header, 257, MAGIC, done);
    done := WriteField(header, 263, VERSION, done);
    assert header[..] == numbers + BLANK + AfterChecksum();
  }

  /** `ustar_header`. */
  method UstarHeader(name: Bytes, size: nat, mode: int) returns (r: Result<Bytes, TarError>)
    ensures r.Ok? <==> 0 < |name| <= 100 && Fits(mode, 8) && Fits(size, 12)
    ensures r.Ok? ==> r.value == Header(name, size, mode)
    ensures r == Err(UnsafeName) <==> !(0 < |name| <= 100)
  {
    if !(0 < |name| <= 100) {
      return Err(UnsafeName);
    }
    FieldAccepts(mode, 8);
    FieldAccepts(size, 12);
    var modeField := OctalField(mode, 8);
    if modeField.Err? {
      return Err(FieldOverflow);
    }
    var sizeField := OctalField(size, 12);
    if sizeField.Err? {
      return Err(FieldOverflow);
    }
    PowerPositive(6);
    PowerPositive(7);
    PowerPositive(10);
    PowerPositive(11);
    ChecksumFits(name, size, mode);
    ShapeOfParts(name, size, mode);
    hide ZeroPadded, Header, Fits, Underway;
    var header := new Byte[512](_ => 0);
    assert header[..] == Zeros(BLOCK);
    WriteNumbers(header, name, sizeField.value, modeField.value);
    assert Underway(header[..], BeforeChecksum(name, size, mode));
    hide BeforeChecksum;
    WriteConstants(header, BeforeChecksum(name, size, mode));
    var checksum := Sum(header[..]);
    ghost var was := header[..];
    WriteAt(header, 148, ZeroPadded(checksum, 6) + [0, 32]);
    ChecksumWritten(was, header[..], name, size, mode);
    return Ok(header[..]);
  }

  // ---------- the archive ----------

  /** Python's order on names: code point order, which UTF-8 keeps. */
  predicate NameBefore(a: Member, b: Member) {
    LexBefore(ByteBefore, a.name, b.name)
  }

  /** `sorted(members, key=name)`. */
  function SortedByName(members: seq<Member>): seq<Member> {
    SortBy(NameBefore, members)
  }

  function Padding(size: nat): Bytes {
    Zeros((0 - size) % 512)
  }

  function Entry(m: Member): Bytes
    requires Printable(m)
  {
    Header(m.name, |m.payload|, m.mode) + m.payload + Padding(|m.payload|)
  }

  ghost predicate AllPrintable(members: seq<Member>) {
    forall i :: 0 <= i < |members| ==> Printable(members[i])
  }

  function Entries(members: seq<Member>): Bytes
    requires AllPrintable(members)
  {
    if members == [] then [] else Entry(members[0]) + Entries(members[1..])
  }

  lemma {:induction false} EntriesSnoc(members: seq<Member>, m: Member)
    requires AllPrintable(members + [m])
    ensures AllPrintable(members) && Printable(m)
    ensures Entries(members + [m]) == Entries(members) + Entry(m)
    decreases |members|
  {
    hide Header, Fits;
    assert forall i :: 0 <= i < |members| ==> members[i] == (members + [m])[i];
    assert (members + [m])[|members|] == m;
    if members == [] {
      assert [m][1..] == [];
    } else {
      assert (members + [m])[1..] == members[1..] + [m];
      EntriesSnoc(members[1..], m);
    }
  }

  lemma ConcatRegroups(a: Bytes, b: Bytes, c: Bytes, d: Bytes)
    ensures a + b + c + d == a + (b + c + d)
  {
  }

  ghost predicate Printed(output: Bytes, members: seq<Member>) {
    AllPrintable(members) && output == Entries(members)
  }

  lemma PrintedSnoc(output: Bytes, members: seq<Member>, m: Member)
    requires Printed(output, members) && Printable(m)
    ensures Printed(output + Header(m.name, |m.payload|, m.mode) + m.payload + Padding(|m.payload|), members + [m])
  {
    var header := Header(m.name, |m.payload|, m.mode);
    hide Header, Printable, Padding;
    assert AllPrintable(members + [m]);
    EntriesSnoc(members, m);
    hide Entries, AllPrintable;
    ConcatRegroups(output, header, m.payload, Padding(|m.payload|));
  }

  /** `build_tar`. */
  method BuildTar(members: seq<Member>) returns (r: Result<Bytes, TarError>)
    ensures r.Ok? <==> AllPrintable(SortedByName(members))
    ensures r.Ok? ==> r.value == Entries(SortedByName(members)) + Zeros(1024)
  {
    hide Header, Fits, SortedByName;
    var output: Bytes := [];
    var sorted := SortedByName(members);
    var n := 0;
    while n < |sorted|
      invariant 0 <= n <= |sorted|
      invariant Printed(output, sorted[..n])
    {
      var m := sorted[n];
      var header := UstarHeader(m.name, |m.payload|, m.mode);
      if header.Err? {
        assert !Printable(sorted[n]);
        return header;
      }
      PrintedSnoc(output, sorted[..n], m);
      hide Printed;
      assert sorted[..n + 1] == sorted[..n] + [m];
      output := output + header.value;
      output := output + m.payload;
      output := output + Zeros((0 - |m.payload|) % 512);
      n := n + 1;
    }
    assert sorted[..n] == sorted;
    return Ok(output + Zeros(1024));
  }

  lemma NamesAreOrdered()
    ensures IsOrder(NameBefore)
  {
    forall a: Bytes, b: Bytes, c: Bytes
      ensures LexBefore(ByteBefore, a, b) ==> !LexBefore(ByteBefore, b, a)
      ensures !LexBefore(ByteBefore, a, b) && !LexBefore(ByteBefore, b, c) ==> !LexBefore(ByteBefore, a, c)
    {
      LexIsTotal(ByteBefore, a, b, c);
    }
  }

  /** The members come out in order of name, members of one name in the order given. */
  lemma MembersAreSorted(members: seq<Member>, m: Member)
    ensures Ordered(NameBefore, SortedByName(members))
    ensures multiset(SortedByName(members)) == multiset(members)
    ensures Ties(NameBefore, SortedByName(members), m) == Ties(NameBefore, members, m)
  {
    NamesAreOrdered();
    SortIsStable(NameBefore, members, m);
  }

  // ---------- the reader ----------

  function DigitRun(field: Bytes): (n: nat)
    ensures n <= |field| && forall i :: 0 <= i < n ==> IsOctalDigit(field[i])
    ensures n < |field| ==> !IsOctalDigit(field[n])
  {
    if field == [] || !IsOctalDigit(field[0]) then 0 else 1 + DigitRun(field[1..])
  }

  /** Octal digits ended by one or more spaces or NULs. */
  function ReadNumber(field: Bytes): Option<int> {
    var n := DigitRun(field);
    if n == 0 || n == |field| || exists i :: n <= i < |field| && field[i] != 0 && field[i] != 32 then None
    else Some(OctalValue(field[..n]))
  }

  /** Bytes up to the first NUL. */
  function ReadText(field: Bytes): (text: Bytes)
    ensures |text| <= |field| && 0 !in text && text == field[..|text|]
    ensures |text| < |field| ==> field[|text|] == 0
  {
    if field == [] || field[0] == 0 then [] else [field[0]] + ReadText(field[1..])
  }

  datatype Described = Described(name: Bytes, size: int, mode: int)

  function ReadHeader(block: Bytes): Option<Described>
    requires |block| == BLOCK
  {
    var stored, size, mode := ReadNumber(block[148..156]), ReadNumber(block[124..136]), ReadNumber(block[100..108]);
    var prefix := ReadText(block[345..500]);
    if stored != Some(Sum(block[..148]) + 8 * 32 + Sum(block[156..])) then None
    else if block[257..263] != MAGIC || block[263..265] != VERSION then None
    else if block[156] != 48 && block[156] != 0 then None
    else if size.None? || size.value < 0 || mode.None? then None
    else Some(Described(
      if prefix == [] then ReadText(block[0..100]) else prefix + [47] + ReadText(block[0..100]),
      size.value, mode.value))
  }

  function ReadArchive(bytes: Bytes): Option<seq<Member>> {
    if |bytes| < BLOCK then None
    else if bytes[..BLOCK] == Zeros(BLOCK) then
      if |bytes| >= 2 * BLOCK && bytes[BLOCK..2 * BLOCK] == Zeros(BLOCK) then Some([]) else None
    else
      var header := ReadHeader(bytes[..BLOCK]);
      if header.None? then None
      else
        var end := BLOCK + (header.value.size + 511) / 512 * 512;
        if |bytes| < end then None
        else
          var rest := ReadArchive(bytes[end..]);
          if rest.None? then None
          else Some([Member(header.value.name, bytes[BLOCK..BLOCK + header.value.size], header.value.mode)]
            + rest.value)
  }

  // ---------- reading what was printed ----------

  lemma {:induction false} DigitRunOf(digits: Bytes, rest: Bytes)
    requires forall i :: 0 <= i < |digits| ==> IsOctalDigit(digits[i])
    requires rest != [] && !IsOctalDigit(rest[0])
    ensures DigitRun(digits + rest) == |digits|
    decreases |digits|
  {
    if digits == [] {
      assert digits + rest == rest;
    } else {
      assert (digits + rest)[1..] == digits[1..] + rest;
      DigitRunOf(digits[1..], rest);
    }
  }

  lemma ReadPrintedNumber(value: int, width: nat, rest: Bytes)
    requires rest == [0] || rest == [0, 32]
    ensures value >= 0 ==> ReadNumber(ZeroPadded(value, width) + rest) == Some(value)
    ensures value < 0 ==> ReadNumber(ZeroPadded(value, width) + rest) == None
  {
    var field := ZeroPadded(value, width) + rest;
    if value >= 0 {
      OctalReads(value);
      var digits := Octal(value);
      var fill := if |digits| < width then width - |digits| else 0;
      assert ZeroPadded(value, width) == seq(fill, _ => 48) + digits;
      LeadingZeros(fill, digits);
      DigitRunOf(ZeroPadded(value, width), rest);
      assert field[..|ZeroPadded(value, width)|] == ZeroPadded(value, width);
    } else {
      assert field[0] == 45;
    }
  }

  lemma {:induction false} ReadTextStops(text: Bytes, rest: Bytes)
    requires 0 !in text
    ensures ReadText(text + [0] + rest) == text
    decreases |text|
  {
    var field := text + [0] + rest;
    if text != [] {
      assert field[1..] == text[1..] + [0] + rest;
      ReadTextStops(text[1..], rest);
      assert text == [text[0]] + text[1..];
    }
  }

  /** Reading a NUL-padded name recovers it exactly when it has no NUL of its own. */
  lemma {:induction false} ReadPaddedName(name: Bytes, zeros: nat)
    ensures ReadText(name + Zeros(zeros)) == name <==> 0 !in name
    ensures 0 in name ==> |ReadText(name + Zeros(zeros))| < |name|
    decreases |name|
  {
    var field := name + Zeros(zeros);
    if name != [] && name[0] != 0 {
      assert field[1..] == name[1..] + Zeros(zeros);
      ReadPaddedName(name[1..], zeros);
      assert name == [name[0]] + name[1..];
    }
  }

  lemma HeaderFields(name: Bytes, size: nat, mode: int)
    requires |name| <= 100 && Fits(mode, 8) && Fits(size, 12)
    ensures var h := Header(name, size, mode);
      && |h| == BLOCK && h[..148] == BeforeChecksum(name, size, mode) && h[156..] == AfterChecksum()
      && h[148..156] == ZeroPadded(Checksum(name, size, mode), 6) + [0, 32]
  {
    ShapeOfParts(name, size, mode);
    ChecksumFits(name, size, mode);
    hide BeforeChecksum, AfterChecksum, Checksum, ZeroPadded, Fits;
  }

  lemma NumberFields(name: Bytes, size: nat, mode: int)
    requires |name| <= 100 && Fits(mode, 8) && Fits(size, 12)
    ensures var b := BeforeChecksum(name, size, mode);
      && |b| == 148 && b[0..100] == PaddedName(name)
      && b[100..108] == Field(mode, 8) && b[124..136] == Field(size, 12)
  {
    ShapeOfParts(name, size, mode);
    FieldAccepts(mode, 8);
    FieldAccepts(size, 12);
    PowerPositive(6);
    PowerPositive(7);
    FieldAccepts(0, 8);
    hide ZeroPadded, Fits;
    var named := PaddedName(name);
    var moded := named + Field(mode, 8);
    var owned := moded + Field(0, 8) + Field(0, 8);
    assert |moded| == 108 && moded[..100] == named && moded[100..] == Field(mode, 8);
    assert |owned| == 124 && owned[..108] == moded;
    var b := BeforeChecksum(name, size, mode);
    assert b == owned + Field(size, 12) + Field(0, 12);
    assert b[..124] == owned;
  }

  lemma {:induction false} SumOfSpaces(n: nat)
    ensures Sum(seq(n, _ => 32)) == 32 * n
  {
    if n > 0 {
      SumOfSpaces(n - 1);
      var spaces: Bytes := seq(n, _ => 32);
      assert spaces[..n - 1] == seq(n - 1, _ => 32);
    }
  }

  /** The stored checksum is the byte sum of the header with its checksum field blanked. */
  lemma ChecksumIsBlankedSum(name: Bytes, size: nat, mode: int)
    requires |name| <= 100 && Fits(mode, 8) && Fits(size, 12)
    ensures var h := Header(name, size, mode);
      && |h| == BLOCK
      && Checksum(name, size, mode) == Sum(h[..148]) + 8 * 32 + Sum(h[156..])
      && ReadNumber(h[148..156]) == Some(Checksum(name, size, mode) as int)
  {
    HeaderFields(name, size, mode);
    SumConcat(BeforeChecksum(name, size, mode) + BLANK, AfterChecksum());
    SumConcat(BeforeChecksum(name, size, mode), BLANK);
    assert BLANK == seq(8, _ => 32);
    SumOfSpaces(8);
    ReadPrintedNumber(Checksum(name, size, mode), 6, [0, 32]);
  }

  /** Everything a reader looks at in a printed header. */
  lemma HeaderSlices(name: Bytes, size: nat, mode: int)
    requires |name| <= 100 && Fits(mode, 8) && Fits(size, 12)
    ensures var h := Header(name, size, mode);
      && |h| == BLOCK && h[0..100] == PaddedName(name) && h[100..108] == Field(mode, 8)
      && h[124..136] == Field(size, 12) && h[156] == 48 && h[257..263] == MAGIC && h[263..265] == VERSION
      && h[345..500] == Zeros(155)
  {
    var h := Header(name, size, mode);
    HeaderFields(name, size, mode);
    NumberFields(name, size, mode);
    hide Header, BeforeChecksum, AfterChecksum, ZeroPadded, Checksum, Fits;
    assert h[156] == h[156..][0];
  }

  /** What each field of a printed header reads as. */
  lemma FieldsRead(name: Bytes, size: nat, mode: int)
    requires |name| <= 100 && Fits(mode, 8) && Fits(size, 12)
    ensures var h := Header(name, size, mode);
      && |h| == BLOCK && h != Zeros(BLOCK)
      && ReadNumber(h[100..108]) == (if mode < 0 then None else Some(mode))
      && ReadNumber(h[124..136]) == Some(size as int)
      && ReadText(h[0..100]) == ReadText(PaddedName(name)) && ReadText(h[345..500]) == []
  {
    var h := Header(name, size, mode);
    HeaderSlices(name, size, mode);
    hide Header, ZeroPadded, PaddedName, Fits;
    ReadPrintedNumber(mode, 7, [0]);
    ReadPrintedNumber(size, 11, [0]);
    assert h[156] != Zeros(BLOCK)[156];
    hide ReadNumber;
  }

  lemma HeaderOfFields(h: Bytes, size: nat, mode: Option<int>)
    requires |h| == BLOCK && ReadNumber(h[148..156]) == Some(Sum(h[..148]) + 8 * 32 + Sum(h[156..]))
    requires h[257..263] == MAGIC && h[263..265] == VERSION && h[156] == 48
    requires ReadNumber(h[124..136]) == Some(size) && ReadNumber(h[100..108]) == mode && ReadText(h[345..500]) == []
    ensures ReadHeader(h) == if mode.None? then None else Some(Described(ReadText(h[0..100]), size, mode.value))
  {
    hide ReadNumber, ReadText, Sum;
  }

  /** A reader rejects a header exactly when its mode is negative, and cuts the name at its first NUL. */
  lemma HeaderReads(name: Bytes, size: nat, mode: int)
    requires |name| <= 100 && Fits(mode, 8) && Fits(size, 12)
    ensures var h := Header(name, size, mode);
      && |h| == BLOCK && h != Zeros(BLOCK)
      && ReadHeader(h) == if mode < 0 then None else Some(Described(ReadText(PaddedName(name)), size, mode))
  {
    HeaderSlices(name, size, mode);
    FieldsRead(name, size, mode);
    ChecksumIsBlankedSum(name, size, mode);
    hide Fits, Header, Checksum, PaddedName, ReadNumber, ReadText, Sum, Zeros, Field, ReadHeader;
    HeaderOfFields(Header(name, size, mode), size, if mode < 0 then None else Some(mode));
  }

  lemma PaddingRounds(size: nat)
    ensures size + |Padding(size)| == (size + 511) / 512 * 512
  {
  }

  lemma StepSlices(header: Bytes, payload: Bytes, padding: Bytes, rest: Bytes)
    ensures var bytes := header + payload + padding + rest;
      && bytes[..|header|] == header && bytes[|header|..|header| + |payload|] == payload
      && bytes[|header| + |payload| + |padding|..] == rest
  {
    var bytes := header + payload + padding + rest;
    assert bytes == header + (payload + (padding + rest));
  }

  /** One step of the reader over a block, the content it announces, and the rest. */
  lemma ArchiveStep(header: Bytes, payload: Bytes, rest: Bytes)
    requires |header| == BLOCK && header != Zeros(BLOCK)
    requires ReadHeader(header).Some? ==> ReadHeader(header).value.size == |payload|
    ensures ReadArchive(header + payload + Padding(|payload|) + rest)
      == if ReadHeader(header).None? || ReadArchive(rest).None? then None
         else Some([Member(ReadHeader(header).value.name, payload, ReadHeader(header).value.mode)]
           + ReadArchive(rest).value)
  {
    hide ReadHeader, Zeros;
    PaddingRounds(|payload|);
    StepSlices(header, payload, Padding(|payload|), rest);
    hide Padding;
  }

  lemma EntryReads(m: Member, rest: Bytes)
    requires Printable(m)
    ensures var r := ReadArchive(rest);
      ReadArchive(Entry(m) + rest)
      == if m.mode < 0 || r.None? then None
         else Some([Member(ReadText(PaddedName(m.name)), m.payload, m.mode)] + r.value)
  {
    HeaderReads(m.name, |m.payload|, m.mode);
    ArchiveStep(Header(m.name, |m.payload|, m.mode), m.payload, rest);
    hide Header, Fits, ReadHeader, ReadText, ReadArchive;
  }

  /** Members a standard reader recovers. */
  predicate Readable(m: Member) {
    0 !in m.name && m.mode >= 0
  }

  ghost predicate AllReadable(members: seq<Member>) {
    forall i :: 0 <= i < |members| ==> Readable(members[i])
  }

  lemma AllReadableCons(m: Member, others: seq<Member>)
    ensures AllReadable([m] + others) <==> Readable(m) && AllReadable(others)
  {
    if AllReadable([m] + others) {
      assert ([m] + others)[0] == m;
      assert forall i :: 0 <= i < |others| ==> ([m] + others)[i + 1] == others[i];
    }
  }

  lemma HeadCompared(m: Member, name: Bytes, r: Option<seq<Member>>, others: seq<Member>)
    ensures (if m.mode < 0 || r.None? then None else Some([Member(name, m.payload, m.mode)] + r.value))
      == Some([m] + others)
      <==> m.mode >= 0 && name == m.name && r == Some(others)
  {
    if r.Some? {
      var read := [Member(name, m.payload, m.mode)] + r.value;
      assert read[0] == Member(name, m.payload, m.mode) && ([m] + others)[0] == m;
      assert read[1..] == r.value && ([m] + others)[1..] == others;
    }
  }

  /** How many blocks the members take. */
  function Blocks(members: seq<Member>): nat {
    if members == [] then 0 else 1 + (|members[0].payload| + 511) / 512 + Blocks(members[1..])
  }

  lemma {:induction false} EntriesLength(members: seq<Member>)
    requires AllPrintable(members)
    ensures |Entries(members)| == 512 * Blocks(members)
    decreases |members|
  {
    hide Entry, Fits;
    if members != [] {
      EntryLength(members[0]);
      EntriesLength(members[1..]);
    }
  }

  lemma EntryLength(m: Member)
    requires Printable(m)
    ensures |Entry(m)| == 512 * (1 + (|m.payload| + 511) / 512)
  {
    HeaderFields(m.name, |m.payload|, m.mode);
    hide Header, Fits;
  }

  ghost predicate ReadsBack(members: seq<Member>, trailer: Bytes)
    requires AllPrintable(members)
  {
    ReadArchive(Entries(members) + trailer) == Some(members) <==> AllReadable(members)
  }

  lemma ReadsBackCons(m: Member, others: seq<Member>, trailer: Bytes)
    requires AllPrintable([m] + others) && AllPrintable(others) && ReadsBack(others, trailer)
    ensures ReadsBack([m] + others, trailer)
  {
    hide ReadArchive, ReadText, Entry, Fits;
    var members := [m] + others;
    assert members[0] == m && members[1..] == others;
    EntryReads(m, Entries(others) + trailer);
    ReadPaddedName(m.name, 100 - |m.name|);
    hide PaddedName, Printable;
    assert Entries(members) == Entry(m) + Entries(others);
    AllReadableCons(m, others);
    hide Entries, AllReadable;
    assert Entries(members) + trailer == Entry(m) + (Entries(others) + trailer);
    HeadCompared(m, ReadText(PaddedName(m.name)), ReadArchive(Entries(others) + trailer), others);
  }

  lemma {:induction false} EntriesRead(members: seq<Member>, trailer: Bytes)
    requires AllPrintable(members) && ReadArchive(trailer) == Some([])
    ensures ReadsBack(members, trailer)
    decreases |members|
  {
    if members == [] {
      assert Entries(members) + trailer == trailer;
    } else {
      assert members == [members[0]] + members[1..];
      EntriesRead(members[1..], trailer);
      ReadsBackCons(members[0], members[1..], trailer);
    }
  }

  lemma TrailerReads()
    ensures ReadArchive(Zeros(1024)) == Some([])
  {
    var trailer := Zeros(1024);
    assert trailer[..BLOCK] == Zeros(BLOCK) && trailer[BLOCK..2 * BLOCK] == Zeros(BLOCK);
  }

  /**
   A standard reader recovers the members in order of name from what `build_tar` prints exactly when
   every name is free of NULs and no mode is negative; the length is always a whole number of blocks.
   */
  lemma BuildThenRead(members: seq<Member>)
    requires AllPrintable(SortedByName(members))
    ensures var sorted := SortedByName(members);
      && |Entries(sorted) + Zeros(1024)| == 512 * (Blocks(sorted) + 2)
      && (ReadArchive(Entries(sorted) + Zeros(1024)) == Some(sorted) <==> AllReadable(members))
  {
    var sorted := SortedByName(members);
    TrailerReads();
    EntriesRead(sorted, Zeros(1024));
    EntriesLength(sorted);
    SortedElements(NameBefore, members);
    hide SortedByName, Entries, ReadArchive, Printable, Readable;
    SameElements(members, sorted);
    SameElements(sorted, members);
    hide AllReadable;
  }

  lemma SameElements(s: seq<Member>, t: seq<Member>)
    requires multiset(s) == multiset(t)
    ensures AllReadable(s) ==> AllReadable(t)
  {
    forall i | 0 <= i < |t|
      ensures t[i] in s
    {
      assert t[i] in multiset(t);
    }
  }

  /** Any accepted name comes back cut at its first NUL. */
  lemma NameIsCut(m: Member, text: Bytes, tail: Bytes)
    requires Printable(m) && m.mode >= 0 && m.name == text + [0] + tail && 0 !in text
    ensures ReadArchive(Entry(m) + Zeros(1024)) == Some([m.(name := text)])
  {
    assert PaddedName(m.name) == text + [0] + (tail + Zeros(100 - |m.name|));
    ReadTextStops(text, tail + Zeros(100 - |m.name|));
    hide Printable, Entry, ReadArchive, ReadText, PaddedName;
    assert ReadText(PaddedName(m.name)) == text;
    TrailerReads();
    EntryReads(m, Zeros(1024));
    hide Zeros;
    var none: seq<Member> := [];
    assert [m.(name := text)] + none == [m.(name := text)];
  }

  lemma NulNameIsCut()
    ensures var m := Member([97, 0, 98], [], 420);
      Printable(m) && ReadArchive(Entry(m) + Zeros(1024)) == Some([Member([97], [], 420)])
  {
    var m := Member([97, 0, 98], [], 420);
    PowerPositive(11);
    PowerPositive(10);
    assert Printable(m);
    hide Fits, Entry, ReadArchive, Zeros;
    assert m.name == [97] + [0] + [98];
    NameIsCut(m, [97], [98]);
  }

  /** A negative mode is accepted and makes the archive unreadable. */
  lemma NegativeModeIsUnreadable()
    ensures var m := Member([97], [], -1);
      Printable(m) && ReadArchive(Entry(m) + Zeros(1024)) == None
  {
    var m := Member([97], [], -1);
    PowerPositive(11);
    PowerPositive(10);
    assert Printable(m);
    hide Fits, Entry, ReadArchive, ReadText;
    EntryReads(m, Zeros(1024));
  }

  // ---------- the layout, byte by byte ----------

  /** A numeral of exactly this many octal digits. */
  ghost predicate OctalText(text: Bytes, value: int, digits: nat) {
    |text| == digits && (forall i :: 0 <= i < digits ==> 48 <= text[i] <= 55) && OctalValue(text) == value
  }

  /** A numeric field of POSIX, or what Python writes for a negative number. */
  ghost predicate NumericField(field: Bytes, value: int, width: nat) {
    && |field| == width > 1 && field[width - 1] == 0
    && (value >= 0 ==> OctalText(field[..width - 1], value, width - 1))
    && (value < 0 ==> field[0] == 45 && OctalText(field[1..width - 1], -value, width - 2))
  }

  lemma FilledSpells(fill: nat, v: nat)
    ensures OctalText(seq(fill, _ => 48) + Octal(v), v, fill + |Octal(v)|)
  {
    OctalReads(v);
    LeadingZeros(fill, Octal(v));
    hide Octal, OctalValue;
  }

  lemma PaddedSpells(value: int, digits: nat)
    requires digits > 1 && |ZeroPadded(value, digits)| == digits
    ensures value >= 0 ==> OctalText(ZeroPadded(value, digits), value, digits)
    ensures value < 0 ==>
      ZeroPadded(value, digits)[0] == 45 && OctalText(ZeroPadded(value, digits)[1..], -value, digits - 1)
  {
    var magnitude: nat := if value < 0 then -value else value;
    var sign := if value < 0 then 1 else 0;
    var fill: nat := if sign + |Octal(magnitude)| < digits then digits - sign - |Octal(magnitude)| else 0;
    FilledSpells(fill, magnitude);
    hide OctalText, Octal, ZeroPadded;
    PaddedParts(value, digits, magnitude, fill);
    var text := seq(fill, _ => 48) + Octal(magnitude);
    assert |text| == fill + |Octal(magnitude)|;
    if value < 0 {
      assert ([45] + text)[1..] == text;
    } else {
      assert [] + text == text;
    }
  }

  lemma PaddedParts(value: int, digits: nat, magnitude: nat, fill: nat)
    requires magnitude == if value < 0 then -value else value
    requires var have := (if value < 0 then 1 else 0) + |Octal(magnitude)|;
      fill == if have < digits then digits - have else 0
    ensures ZeroPadded(value, digits)
      == (if value < 0 then [45] else []) + (seq(fill, _ => 48) + Octal(magnitude))
  {
    hide Octal;
  }

  lemma FieldSpells(value: int, width: nat)
    requires width > 2 && Fits(value, width)
    ensures NumericField(Field(value, width), value, width)
  {
    FieldAccepts(value, width);
    PaddedSpells(value, width - 1);
    hide ZeroPadded, OctalText;
    var text := ZeroPadded(value, width - 1);
    assert Field(value, width)[..width - 1] == text && Field(value, width)[1..width - 1] == text[1..];
  }

  lemma FieldLengths(size: nat, mode: int)
    requires Fits(mode, 8) && Fits(size, 12)
    ensures |Field(mode, 8)| == |Field(0, 8)| == 8 && |Field(size, 12)| == |Field(0, 12)| == 12
  {
    FieldAccepts(mode, 8);
    FieldAccepts(size, 12);
    PowerPositive(6);
    PowerPositive(7);
    PowerPositive(10);
    PowerPositive(11);
    FieldAccepts(0, 8);
    FieldAccepts(0, 12);
  }

  lemma HalvesLie(name: Bytes, size: nat, mode: int)
    requires |name| <= 100 && Fits(mode, 8) && Fits(size, 12)
    ensures var h := Header(name, size, mode);
      && |h| == 512 && At(h, 0, BeforeChecksum(name, size, mode)) && At(h, 156, AfterChecksum())
      && At(h, 148, ZeroPadded(Checksum(name, size, mode), 6) + [0, 32])
  {
    hide Header, BeforeChecksum, AfterChecksum, ZeroPadded, Checksum, Fits;
    HeaderFields(name, size, mode);
    ShapeOfParts(name, size, mode);
  }

  lemma NumbersLie(h: Bytes, name: Bytes, size: nat, mode: int)
    requires |name| <= 100 && Fits(mode, 8) && Fits(size, 12) && At(h, 0, BeforeChecksum(name, size, mode))
    ensures At(h, 0, name) && At(h, |name|, Zeros(100 - |name|)) && At(h, 100, Field(mode, 8))
    ensures At(h, 108, Field(0, 8)) && At(h, 116, Field(0, 8)) && At(h, 124, Field(size, 12))
    ensures At(h, 136, Field(0, 12))
  {
    hide At, Field, Fits;
    FieldLengths(size, mode);
    var p, m, z, s, t := PaddedName(name), Field(mode, 8), Field(0, 8), Field(size, 12), Field(0, 12);
    AtConcat(h, 0, p + m + z + z + s, t);
    AtConcat(h, 0, p + m + z + z, s);
    AtConcat(h, 0, p + m + z, z);
    AtConcat(h, 0, p + m, z);
    AtConcat(h, 0, p, m);
    AtConcat(h, 0, name, Zeros(100 - |name|));
  }

  lemma ConstantsLie(h: Bytes)
    requires At(h, 156, AfterChecksum())
    ensures At(h, 156, [48]) && At(h, 157, Zeros(100)) && At(h, 257, [117, 115, 116, 97, 114, 0])
    ensures At(h, 263, [48, 48]) && At(h, 265, Zeros(247))
  {
    hide At;
    AtConcat(h, 156, REGULAR + Zeros(100) + MAGIC + VERSION, Zeros(247));
    AtConcat(h, 156, REGULAR + Zeros(100) + MAGIC, VERSION);
    AtConcat(h, 156, REGULAR + Zeros(100), MAGIC);
    AtConcat(h, 156, REGULAR, Zeros(100));
  }

  /** A number lies at a place of a header, in a field of this width. */
  ghost predicate NumberAt(header: Bytes, at: nat, value: int, width: nat) {
    at + width <= |header| && NumericField(header[at..at + width], value, width)
  }

  /** Zero bytes from one place to the next. */
  ghost predicate ZerosBetween(header: Bytes, from: nat, to: nat) {
    from <= to <= |header| && forall i :: from <= i < to ==> header[i] == 0
  }

  /** The header of the format, field by field: owner, group and time are zero, everything unused is zero. */
  ghost predicate LaidOut(h: Bytes, name: Bytes, size: nat, mode: int) {
    && |h| == 512 && |name| <= 100 && h[..|name|] == name && ZerosBetween(h, |name|, 100)
    && NumberAt(h, 100, mode, 8) && NumberAt(h, 108, 0, 8) && NumberAt(h, 116, 0, 8)
    && NumberAt(h, 124, size, 12) && NumberAt(h, 136, 0, 12)
    && OctalText(h[148..154], Sum(h[..148]) + 8 * 32 + Sum(h[156..]), 6) && h[154] == 0 && h[155] == 32
    && h[156] == 48 && ZerosBetween(h, 157, 257)
    && h[257..263] == [117, 115, 116, 97, 114, 0] && h[263..265] == [48, 48] && ZerosBetween(h, 265, 512)
  }

  lemma FieldAtIsNumber(h: Bytes, at: nat, value: int, width: nat)
    requires width > 2 && Fits(value, width) && At(h, at, Field(value, width))
    ensures NumberAt(h, at, value, width)
  {
    FieldAccepts(value, width);
    FieldSpells(value, width);
    hide ZeroPadded, NumericField;
  }

  lemma ZerosLie(h: Bytes, from: nat, to: nat)
    requires from <= to && At(h, from, Zeros(to - from))
    ensures ZerosBetween(h, from, to)
  {
    forall i | from <= i < to
      ensures h[i] == 0
    {
      assert h[i] == h[from..to][i - from];
    }
  }

  lemma ChecksumLies(h: Bytes, name: Bytes, size: nat, mode: int)
    requires |name| <= 100 && Fits(mode, 8) && Fits(size, 12) && h == Header(name, size, mode)
    ensures |h| == 512 && OctalText(h[148..154], Sum(h[..148]) + 8 * 32 + Sum(h[156..]), 6)
    ensures h[154] == 0 && h[155] == 32
  {
    hide Header, ZeroPadded, Fits, Checksum, OctalText, Sum;
    HeaderFields(name, size, mode);
    ChecksumFits(name, size, mode);
    ChecksumIsBlankedSum(name, size, mode);
    PaddedSpells(Checksum(name, size, mode), 6);
    var text := ZeroPadded(Checksum(name, size, mode), 6);
    assert h[148..154] == (text + [0, 32])[..6] == text;
    assert h[154] == h[148..156][6] && h[155] == h[148..156][7];
  }

  /** Every printed header is laid out as the format says. */
  lemma HeaderMeans(name: Bytes, size: nat, mode: int)
    requires |name| <= 100 && Fits(mode, 8) && Fits(size, 12)
    ensures LaidOut(Header(name, size, mode), name, size, mode)
  {
    hide Header, Field, BeforeChecksum, AfterChecksum, NumberAt, ZerosBetween, OctalText, Sum, Fits, ZeroPadded;
    var h := Header(name, size, mode);
    ZeroFits();
    HalvesLie(name, size, mode);
    NumbersLie(h, name, size, mode);
    ConstantsLie(h);
    ChecksumLies(h, name, size, mode);
    FieldAtIsNumber(h, 100, mode, 8);
    FieldAtIsNumber(h, 108, 0, 8);
    FieldAtIsNumber(h, 116, 0, 8);
    FieldAtIsNumber(h, 124, size, 12);
    FieldAtIsNumber(h, 136, 0, 12);
    ZerosLie(h, |name|, 100);
    ZerosLie(h, 157, 257);
    ZerosLie(h, 265, 512);
    assert h[156..157][0] == h[156];
  }

  lemma ZeroFits()
    ensures Fits(0, 8) && Fits(0, 12)
  {
    PowerPositive(6);
    PowerPositive(7);
    PowerPositive(10);
    PowerPositive(11);
  }

  /** An entry is its header, its payload and zeros up to the next whole block. */
  lemma EntryMeans(m: Member)
    requires Printable(m)
    ensures var e, end := Entry(m), 512 + |m.payload|;
      && |e| >= end && LaidOut(e[..512], m.name, |m.payload|, m.mode) && e[512..end] == m.payload
      && ZerosBetween(e, end, |e|) && |e| % 512 == 0 && |e| - end < 512
  {
    hide Header, Fits, LaidOut;
    HeaderMeans(m.name, |m.payload|, m.mode);
    ChecksumFits(m.name, |m.payload|, m.mode);
    var header, padding := Header(m.name, |m.payload|, m.mode), Padding(|m.payload|);
    assert Entry(m)[..512] == header && Entry(m)[512..512 + |m.payload|] == m.payload;
    assert Entry(m)[512 + |m.payload|..] == padding;
    forall i | 512 + |m.payload| <= i < |Entry(m)|
      ensures Entry(m)[i] == 0
    {
      assert Entry(m)[i] == padding[i - 512 - |m.payload|];
    }
  }
}
