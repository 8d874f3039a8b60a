/**
 The desired-state store of internal/desiredstate/store.go and its conditional HTTP surface in
 internal/api/desiredstate.go. Every call runs under the store's mutex, so a concurrent execution is
 a sequence of calls. RFC 8785 canonicalization and SHA-256 are parameters.
 */
module DesiredState {
  import opened Foundation
  import opened Decimals
  import opened StrongETag

  datatype Key = Key(consumer: string, target: string)

  datatype Precondition = Precondition(kind: string, revision: Int64, digest: Bytes)

  datatype Record = Record(key: Key, revision: Int64, digest: Bytes, payload: Bytes)

  datatype CasError = PreconditionInvalid | NotCanonicalizable | PreconditionFailed

  type Hash = bytes: Bytes | |bytes| == 32 witness seq(32, _ => 0)

  datatype Platform = Platform(canonicalize: Bytes -> Option<Bytes>, sha256: Bytes -> Hash)

  type Records = map<Key, Record>

  function HexDigit(n: int): Byte
    requires 0 <= n < 16
  {
    if n < 10 then 0x30 + n else 0x57 + n
  }

  function Hex(bytes: Bytes): (text: Bytes)
    ensures |text| == 2 * |bytes|
  {
    if bytes == [] then [] else [HexDigit(bytes[0] / 16), HexDigit(bytes[0] % 16)] + Hex(bytes[1..])
  }

  lemma {:induction false} HexIsHex(bytes: Bytes)
    ensures forall i :: 0 <= i < |Hex(bytes)| ==> IsHexDigit(Hex(bytes)[i])
  {
    if bytes != [] {
      HexIsHex(bytes[1..]);
    }
  }

  // ---------- reading digests ----------

  function HexValue(b: Byte): (value: Option<nat>)
    ensures value.Some? ==> value.value < 16
  {
    if 0x30 <= b <= 0x39 then Some(b as nat - 0x30) else if 0x61 <= b <= 0x66 then Some(b as nat - 0x57) else None
  }

  /** A reader of lower-case hexadecimal text. */
  function ReadHex(text: Bytes): Option<Bytes> {
    if text == [] then Some([])
    else if |text| == 1 then None
    else
      var high, low, rest := HexValue(text[0]), HexValue(text[1]), ReadHex(text[2..]);
      if high.None? || low.None? || rest.None? then None else Some([16 * high.value + low.value] + rest.value)
  }

  lemma {:induction false} ReadHexInverts(bytes: Bytes)
    ensures ReadHex(Hex(bytes)) == Some(bytes)
  {
    if bytes != [] {
      ReadHexInverts(bytes[1..]);
      assert Hex(bytes)[2..] == Hex(bytes[1..]);
      assert bytes == [bytes[0]] + bytes[1..];
    }
  }

  /** The digest is "sha256:" and the hexadecimal text of the hash. */
  ghost predicate Names(digest: Bytes, hash: Hash) {
    |digest| == 71 && digest[..7] == SHA256 && ReadHex(digest[7..]) == Some(hash)
  }

  function DigestOf(payload: Bytes, platform: Platform): Option<Bytes> {
    var canonical := platform.canonicalize(payload);
    if canonical.None? then None else Some(SHA256 + Hex(platform.sha256(canonical.value)))
  }

  lemma DigestIsDigest(payload: Bytes, platform: Platform)
    ensures DigestOf(payload, platform).Some? ==> IsDigest(DigestOf(payload, platform).value)
  {
    var canonical := platform.canonicalize(payload);
    if canonical.Some? {
      HexIsHex(platform.sha256(canonical.value));
    }
  }

  /** The digest of a payload names the hash of its canonical form. */
  lemma DigestNames(payload: Bytes, platform: Platform)
    ensures DigestOf(payload, platform).Some? <==> platform.canonicalize(payload).Some?
    ensures platform.canonicalize(payload).Some? ==>
      Names(DigestOf(payload, platform).value, platform.sha256(platform.canonicalize(payload).value))
  {
    var canonical := platform.canonicalize(payload);
    if canonical.Some? {
      var hex := Hex(platform.sha256(canonical.value));
      ReadHexInverts(platform.sha256(canonical.value));
      assert (SHA256 + hex)[7..] == hex && (SHA256 + hex)[..7] == SHA256;
    }
  }

  // ---------- one compare-and-swap ----------

  /** `validatePrecondition`. */
  predicate WellFormed(p: Precondition) {
    match p.kind
    case "absent" => p.revision == 0 && p.digest == []
    case "match" => p.revision > 0 && p.digest != []
    case _ => false
  }

  /** Go's signed 64-bit increment. */
  function Increment(revision: Int64): Int64 {
    if revision == MAX_INT64 then MIN_INT64 else revision + 1
  }

  predicate Holds(records: Records, key: Key, p: Precondition) {
    if p.kind == "absent" then key !in records
    else key in records && records[key].revision == p.revision && records[key].digest == p.digest
  }

  /** When a write commits. */
  predicate Commits(records: Records, key: Key, p: Precondition, payload: Bytes, platform: Platform) {
    WellFormed(p) && platform.canonicalize(payload).Some? && Holds(records, key, p)
  }

  function Successor(records: Records, key: Key, payload: Bytes, platform: Platform): Record
    requires platform.canonicalize(payload).Some?
  {
    Record(
      key, if key in records then Increment(records[key].revision) else 1, DigestOf(payload, platform).value, payload)
  }

  class Store {
    var records: Records

    constructor ()
      ensures records == map[]
    {
      records := map[];
    }

    /** `Read`. */
    method Read(key: Key) returns (r: Option<Record>)
      ensures r == if key in records then Some(records[key]) else None
    {
      r := if key in records then Some(records[key]) else None;
    }

    /** `CompareAndSwap`. */
    method CompareAndSwap(key: Key, p: Precondition, payload: Bytes, platform: Platform)
      returns (r: Result<Record, CasError>)
      modifies this
      ensures r.Ok? <==> Commits(old(records), key, p, payload, platform)
      ensures r.Ok? <==>
        && platform.canonicalize(payload).Some?
        && (|| (p.kind == "absent" && p.revision == 0 && p.digest == [] && key !in old(records))
            || (p.kind == "match" && p.revision > 0 && p.digest != [] && key in old(records)
                && p.revision == old(records)[key].revision && p.digest == old(records)[key].digest))
      ensures r.Ok? ==> r.value.key == key && r.value.payload == payload
      ensures r.Ok? ==>
        r.value.revision
        == if key !in old(records) then 1
           else if old(records)[key].revision == MAX_INT64 then MIN_INT64
           else old(records)[key].revision + 1
      ensures r.Ok? ==> r.value == Successor(old(records), key, payload, platform)
      ensures r.Ok? ==> Names(r.value.digest, platform.sha256(platform.canonicalize(payload).value))
      ensures records == if r.Ok? then old(records)[key := r.value] else old(records)
      ensures r == Err(PreconditionInvalid) <==> !WellFormed(p)
      ensures r == Err(NotCanonicalizable) <==> WellFormed(p) && platform.canonicalize(payload).None?
      ensures r == Err(PreconditionFailed) ==> !Holds(old(records), key, p)
    {
      if !WellFormed(p) {
        return Err(PreconditionInvalid);
      }
      var newDigest := DigestOf(payload, platform);
      DigestNames(payload, platform);
      if newDigest.None? {
        return Err(NotCanonicalizable);
      }
      var known := key in records;
      if p.kind == "absent" {
        if known {
          return Err(PreconditionFailed);
        }
      } else {
        if !known || records[key].revision != p.revision || records[key].digest != p.digest {
          return Err(PreconditionFailed);
        }
      }
      var nextRevision: Int64 := 1;
      if known {
        nextRevision := Increment(records[key].revision);
      }
      var record := Record(key, nextRevision, newDigest.value, payload);
      records := records[key := record];
      return Ok(record);
    }
  }

  // ---------- interleavings ----------

  datatype Call = Get(key: Key) | Put(key: Key, p: Precondition, payload: Bytes)

  /** Call `n` is a write to `key` that commits, in the state the calls before it leave. */
  predicate WritesTo(calls: seq<Call>, n: nat, key: Key, platform: Platform)
    requires n < |calls|
    decreases n, 0
  {
    calls[n].Put? && calls[n].key == key
      && Commits(After(calls, n, platform), key, calls[n].p, calls[n].payload, platform)
  }

  /** The records after the first `n` calls on a new store. */
  function After(calls: seq<Call>, n: nat, platform: Platform): Records
    requires n <= |calls|
    decreases n
  {
    if n == 0 then map[]
    else
      var before := After(calls, n - 1, platform);
      match calls[n - 1]
      case Get(_) => before
      case Put(key, p, payload) =>
        if Commits(before, key, p, payload, platform) then before[key := Successor(before, key, payload, platform)]
        else before
  }

  /** How many of the first `n` calls wrote to `key`. */
  function Writes(calls: seq<Call>, n: nat, key: Key, platform: Platform): nat
    requires n <= |calls|
  {
    if n == 0 then 0 else Writes(calls, n - 1, key, platform) + if WritesTo(calls, n - 1, key, platform) then 1 else 0
  }

  const EXHAUSTED: nat := 0x8000_0000_0000_0000

  /**
   Revisions count the writes: 1, 2, 3 and so on without gaps. The width is reached after 2^63 writes, when the
   revision turns negative and no precondition can ever match the key again.
   */
  lemma {:induction false} RevisionCountsWrites(calls: seq<Call>, n: nat, key: Key, platform: Platform)
    requires n <= |calls|
    ensures var writes := Writes(calls, n, key, platform);
      var records := After(calls, n, platform);
      && writes <= EXHAUSTED
      && (key in records <==> writes > 0)
      && (key in records ==>
            && records[key].key == key && IsDigest(records[key].digest)
            && records[key].revision == if writes < EXHAUSTED then writes else MIN_INT64)
  {
    if n > 0 {
      RevisionCountsWrites(calls, n - 1, key, platform);
      if calls[n - 1].Put? {
        DigestIsDigest(calls[n - 1].payload, platform);
      }
      hide IsDigest, DigestOf;
    }
  }

  /** In every run a stored digest names the hash of the canonical form of the payload stored with it. */
  lemma {:induction false} RecordsNamePayloads(calls: seq<Call>, n: nat, key: Key, platform: Platform)
    requires n <= |calls| && key in After(calls, n, platform)
    ensures var record := After(calls, n, platform)[key];
      && platform.canonicalize(record.payload).Some?
      && Names(record.digest, platform.sha256(platform.canonicalize(record.payload).value))
  {
    hide Names, DigestOf;
    if n > 0 {
      if calls[n - 1].Put? {
        DigestNames(calls[n - 1].payload, platform);
      }
      if key in After(calls, n - 1, platform) {
        RecordsNamePayloads(calls, n - 1, key, platform);
      }
    }
  }

  /** The next write to a key produces the next revision; a key with 2^63 writes is never written again. */
  lemma RevisionsAreConsecutive(calls: seq<Call>, n: nat, key: Key, platform: Platform)
    requires n < |calls| && WritesTo(calls, n, key, platform)
    ensures Writes(calls, n, key, platform) < EXHAUSTED
    ensures var next := Successor(After(calls, n, platform), key, calls[n].payload, platform);
      && After(calls, n + 1, platform) == After(calls, n, platform)[key := next]
      && next.revision
        == (if Writes(calls, n, key, platform) + 1 < EXHAUSTED then Writes(calls, n, key, platform) + 1 else MIN_INT64)
  {
    RevisionCountsWrites(calls, n, key, platform);
    hide DigestOf;
  }

  /** A call that does not commit, and any call on another key, leaves a record as it was. */
  lemma OthersKeepRecord(calls: seq<Call>, n: nat, key: Key, platform: Platform)
    requires n < |calls| && !WritesTo(calls, n, key, platform)
    ensures Writes(calls, n + 1, key, platform) == Writes(calls, n, key, platform)
    ensures key in After(calls, n + 1, platform) <==> key in After(calls, n, platform)
    ensures key in After(calls, n, platform) ==> After(calls, n + 1, platform)[key] == After(calls, n, platform)[key]
  {
  }

  lemma {:induction false} WritesGrow(calls: seq<Call>, i: nat, j: nat, key: Key, platform: Platform)
    requires i <= j <= |calls|
    ensures Writes(calls, i, key, platform) <= Writes(calls, j, key, platform)
    ensures Writes(calls, i, key, platform) == Writes(calls, j, key, platform) && key in After(calls, i, platform) ==>
      key in After(calls, j, platform) && After(calls, j, platform)[key] == After(calls, i, platform)[key]
    decreases j
  {
    if i < j {
      WritesGrow(calls, i, j - 1, key, platform);
      if !WritesTo(calls, j - 1, key, platform) {
        OthersKeepRecord(calls, j - 1, key, platform);
      }
      hide After, WritesTo;
    }
  }

  /** No precondition commits twice on one key, even when an old payload comes back in between. */
  lemma NoAba(calls: seq<Call>, i: nat, j: nat, key: Key, platform: Platform)
    requires i < j < |calls| && WritesTo(calls, i, key, platform) && WritesTo(calls, j, key, platform)
    ensures calls[i].p != calls[j].p
  {
    RevisionCountsWrites(calls, i, key, platform);
    RevisionCountsWrites(calls, j, key, platform);
    WritesGrow(calls, i + 1, j, key, platform);
    assert Writes(calls, i + 1, key, platform) == Writes(calls, i, key, platform) + 1;
    hide After, Writes, IsDigest, DigestOf;
  }

  lemma {:induction false} AfterPrefix(calls: seq<Call>, more: seq<Call>, n: nat, key: Key, platform: Platform)
    requires n <= |calls|
    ensures After(calls + more, n, platform) == After(calls, n, platform)
    ensures Writes(calls + more, n, key, platform) == Writes(calls, n, key, platform)
    decreases n
  {
    if n > 0 {
      AfterPrefix(calls, more, n - 1, key, platform);
      assert (calls + more)[n - 1] == calls[n - 1];
    }
  }

  /** Every number of writes up to the exhaustion is reached, by swapping against the record just written. */
  lemma {:induction false} WritesAreReached(key: Key, payload: Bytes, platform: Platform, n: nat)
    returns (calls: seq<Call>)
    requires platform.canonicalize(payload).Some? && n <= EXHAUSTED
    ensures |calls| == n && Writes(calls, n, key, platform) == n
  {
    calls := [];
    if n > 0 {
      var before := WritesAreReached(key, payload, platform, n - 1);
      RevisionCountsWrites(before, n - 1, key, platform);
      var records := After(before, n - 1, platform);
      var p :=
        if n == 1 then Precondition("absent", 0, [])
        else Precondition("match", records[key].revision, records[key].digest);
      calls := before + [Put(key, p, payload)];
      AfterPrefix(before, [Put(key, p, payload)], n - 1, key, platform);
      assert calls[n - 1] == Put(key, p, payload);
      assert Commits(records, key, p, payload, platform);
    }
  }

  /** The exhausted state exists on every platform that canonicalizes anything: a record nobody can replace. */
  lemma ExhaustionIsReached(key: Key, payload: Bytes, platform: Platform) returns (calls: seq<Call>)
    requires platform.canonicalize(payload).Some?
    ensures var records := After(calls, |calls|, platform);
      && key in records && records[key].revision == MIN_INT64
      && ParsePrecondition([], Print(records[key].revision, records[key].digest)) == None
      && forall p, other :: !Commits(records, key, p, other, platform)
  {
    calls := WritesAreReached(key, payload, platform, EXHAUSTED);
    RevisionCountsWrites(calls, |calls|, key, platform);
    var read := After(calls, |calls|, platform)[key];
    hide After, Writes, DigestOf;
    NegativeTagIsUnusable(read.revision, read.digest);
    assert Print(read.revision, read.digest)[0] == QUOTE;
  }

  // ---------- the HTTP surface ----------

  const STAR: Bytes := [0x2A]

  /** `parsePrecondition`; an absent header reads as the empty value. */
  function ParsePrecondition(ifNoneMatch: Bytes, ifMatch: Bytes): Option<Precondition> {
    if ifNoneMatch != [] then
      if ifNoneMatch != STAR || ifMatch != [] then None else Some(Precondition("absent", 0, []))
    else if ifMatch == [] || ifMatch == STAR then None
    else
      var tag := Parse(ifMatch);
      if tag.None? then None else Some(Precondition("match", tag.value.0, tag.value.1))
  }

  /** The headers ask for an absent key by `*`, or for the record a strong ETag spells, or for nothing at all. */
  lemma HeadersMean(ifNoneMatch: Bytes, ifMatch: Bytes, p: Precondition)
    ensures ParsePrecondition(ifNoneMatch, ifMatch) == Some(p) <==>
      || (ifNoneMatch == [0x2A] && ifMatch == [] && p == Precondition("absent", 0, []))
      || (ifNoneMatch == [] && p.kind == "match"
          && exists numeral :: Spells(ifMatch, numeral, p.digest) && DigitsValue(numeral) == p.revision)
  {
    ParseIsSpelling(ifMatch, p.revision, p.digest);
    hide Parse;
    forall numeral | Spells(ifMatch, numeral, p.digest)
      ensures |ifMatch| > 1
    {
    }
  }

  datatype Problem = Problem(
    code: string, operation: string, sideEffectState: string, expectedRevision: Int64, expectedDigest: Bytes,
    currentRevision: Int64, currentDigest: Bytes)

  datatype Response = Stored(etag: Bytes, body: Bytes) | Refused(status: int, problem: Problem)

  function Plainly(code: string, operation: string, sideEffectState: string): Problem {
    Problem(code, operation, sideEffectState, 0, [], 0, [])
  }

  class DesiredStateHandler {
    const store: Store

    constructor (store0: Store)
      ensures store == store0
    {
      store := store0;
    }

    /** `get`. */
    method Get(key: Key) returns (r: Response)
      ensures r.Stored? <==> key in store.records
      ensures r.Stored? ==>
        r == Stored(Print(store.records[key].revision, store.records[key].digest), store.records[key].payload)
      ensures r.Refused? ==>
        && r.status == 404 && r.problem.code == "resource_not_found" && r.problem.operation == "read-target-state"
        && r.problem.sideEffectState == "none"
    {
      var record := store.Read(key);
      if record.None? {
        return Refused(404, Plainly("resource_not_found", "read-target-state", "none"));
      }
      return Stored(Print(record.value.revision, record.value.digest), record.value.payload);
    }

    /** `put`; the body is None when it is not JSON. */
    method Put(key: Key, body: Option<Bytes>, ifNoneMatch: Bytes, ifMatch: Bytes, platform: Platform)
      returns (r: Response)
      modifies store
      ensures var p := ParsePrecondition(ifNoneMatch, ifMatch);
        r.Stored? <==> body.Some? && p.Some? && Commits(old(store.records), key, p.value, body.value, platform)
      ensures r.Stored? ==>
        && key in store.records && store.records == old(store.records)[key := store.records[key]]
        && store.records[key] == Successor(old(store.records), key, body.value, platform)
        && Names(store.records[key].digest, platform.sha256(platform.canonicalize(body.value).value))
        && r == Stored(Print(store.records[key].revision, store.records[key].digest), body.value)
      ensures r.Refused? ==> store.records == old(store.records) && r.problem.sideEffectState == "not-committed"
      ensures r.Refused? ==>
        && r.problem.operation == "compare-and-swap-target-state"
        && r.problem.code
           == (if r.status == 400 then "invalid_request"
               else if r.status == 412 then "desired_state_cas_mismatch" else "dependency_unavailable")
      ensures r.Refused? && r.status != 412 ==> r.problem.expectedRevision == 0 && r.problem.expectedDigest == []
      ensures r.Refused? && (r.status != 412 || key !in store.records) ==>
        r.problem.currentRevision == 0 && r.problem.currentDigest == []
      ensures r.Refused? ==>
        var p := ParsePrecondition(ifNoneMatch, ifMatch);
        && (r.status == 400 <==> body.None? || p.None?)
        && (r.status == 503 <==> body.Some? && p.Some? && platform.canonicalize(body.value).None?)
        && (r.status == 412 <==> body.Some? && p.Some? && platform.canonicalize(body.value).Some?)
        && (r.status == 412 ==>
              && !Holds(store.records, key, p.value)
              && r.problem.expectedRevision == p.value.revision && r.problem.expectedDigest == p.value.digest
              && (key in store.records ==>
                    && r.problem.currentRevision == store.records[key].revision
                    && r.problem.currentDigest == store.records[key].digest))
    {
      var operation, state := "compare-and-swap-target-state", "not-committed";
      if body.None? {
        return Refused(400, Plainly("invalid_request", operation, state));
      }
      var p := ParsePrecondition(ifNoneMatch, ifMatch);
      if p.None? {
        return Refused(400, Plainly("invalid_request", operation, state));
      }
      ParsedIsWellFormed(ifNoneMatch, ifMatch);
      hide ParsePrecondition, DigestOf, Print;
      var committed := store.CompareAndSwap(key, p.value, body.value, platform);
      match committed
      case Ok(record) =>
        return Stored(Print(record.revision, record.digest), record.payload);
      case Err(PreconditionFailed) =>
        var current := store.Read(key);
        var problem := Plainly("desired_state_cas_mismatch", operation, state)
          .(expectedRevision := p.value.revision, expectedDigest := p.value.digest);
        if current.Some? {
          problem := problem.(currentRevision := current.value.revision, currentDigest := current.value.digest);
        }
        return Refused(412, problem);
      case Err(PreconditionInvalid) =>
        return Refused(400, Plainly("invalid_request", operation, state));
      case Err(NotCanonicalizable) =>
        return Refused(503, Plainly("dependency_unavailable", operation, state));
    }
  }

  /** Whatever the headers yield passes the store's own validation. */
  lemma ParsedIsWellFormed(ifNoneMatch: Bytes, ifMatch: Bytes)
    ensures ParsePrecondition(ifNoneMatch, ifMatch).Some? ==> WellFormed(ParsePrecondition(ifNoneMatch, ifMatch).value)
  {
    ParsedIsPositive(ifMatch);
  }

  /**
   A write conditioned on the ETag of an earlier read commits exactly when nobody wrote to the key in between;
   the ETag is usable unless the revisions of the key are exhausted.
   */
  lemma TagDetectsWrites(calls: seq<Call>, i: nat, j: nat, key: Key, platform: Platform)
    requires i < j < |calls| && calls[i] == Get(key) && key in After(calls, i, platform)
    ensures var read := After(calls, i, platform)[key];
      var p := ParsePrecondition([], Print(read.revision, read.digest));
      && (p.Some? <==> Writes(calls, i, key, platform) < EXHAUSTED)
      && (p.Some? && calls[j].Put? && calls[j].key == key && calls[j].p == p.value &&
            platform.canonicalize(calls[j].payload).Some? ==>
            (WritesTo(calls, j, key, platform) <==> forall k :: i <= k < j ==> !WritesTo(calls, k, key, platform)))
  {
    var read := After(calls, i, platform)[key];
    var tag := Print(read.revision, read.digest);
    RevisionCountsWrites(calls, i, key, platform);
    RevisionCountsWrites(calls, j, key, platform);
    PrintThenParse(read.revision, read.digest);
    assert tag[0] == QUOTE;
    WritesGrow(calls, i, j, key, platform);
    SameCountIsNoWrite(calls, i, j, key, platform);
    hide After, Writes, IsDigest, DigestOf, Parse, Print;
  }

  lemma {:induction false} SameCountIsNoWrite(calls: seq<Call>, i: nat, j: nat, key: Key, platform: Platform)
    requires i <= j <= |calls|
    ensures Writes(calls, i, key, platform) == Writes(calls, j, key, platform) <==>
      forall k :: i <= k < j ==> !WritesTo(calls, k, key, platform)
    decreases j
  {
    if i < j {
      hide WritesTo;
      SameCountIsNoWrite(calls, i, j - 1, key, platform);
      WritesGrow(calls, i, j - 1, key, platform);
    }
  }

  // ---------- what a digest says about a payload ----------

  ghost predicate Injective(platform: Platform) {
    forall a, b :: platform.sha256(a) == platform.sha256(b) ==> a == b
  }

  /**
   Two payloads with one canonical form get one digest, and one ETag under one revision; when the hash has no
   collisions, only those do.
   */
  lemma CanonicalFormDecides(
    records: Records, key: Key, a: Bytes, b: Bytes, platform: Platform, revision: Int64)
    requires platform.canonicalize(a).Some? && platform.canonicalize(b).Some?
    ensures var x := Successor(records, key, a, platform).digest;
      var y := Successor(records, key, b, platform).digest;
      && (platform.canonicalize(a) == platform.canonicalize(b) ==> x == y)
      && (Injective(platform) && x == y ==> platform.canonicalize(a) == platform.canonicalize(b))
      && (Print(revision, x) == Print(revision, y) <==> x == y)
  {
    DigestNames(a, platform);
    DigestNames(b, platform);
    DigestIsDigest(a, platform);
    DigestIsDigest(b, platform);
    var x, y := DigestOf(a, platform).value, DigestOf(b, platform).value;
    hide Print, IsDigest;
    if Print(revision, x) == Print(revision, y) {
      TagFixesDigest(revision, x, y);
    }
  }
}
