/**
 The bounded OCI graph verifier and the manifest builder of scripts/contracts/oci_graph.py. Hashing,
 the object store and strict canonical parsing are parameters. An OCI subject names no repository, so
 one verification stays inside one repository and objects are keyed by digest.
 */
module OciGraph {
  import opened Foundation

  const MANIFEST_TYPE := "application/vnd.oci.image.manifest.v1+json"
  const CONFIG_TYPE := "application/vnd.oci.empty.v1+json"
  const LAYER_TYPE := "application/vnd.oci.image.layer.v1.tar+gzip"
  const EMPTY_CONFIG: Bytes := [0x7B, 0x7D]
  const ROLE_ORDER := [
    "portable-definition", "public-skills", "public-render", "private-customization",
    "approved-private-skills", "effective-private-render", "evidence"]

  datatype Descriptor = Descriptor(mediaType: string, digest: nat, size: int)

  datatype Layer = Layer(blob: Descriptor, role: string)

  datatype Manifest = Manifest(
    schemaVersion: int, mediaType: string, artifactType: string, config: Descriptor, layers: seq<Layer>,
    subject: Option<Descriptor>, annotations: Option<map<string, string>>)

  datatype RootDescriptor = RootDescriptor(
    repository: string, digest: nat, mediaType: string, artifactType: string, size: int,
    subjectDigest: Option<nat>, annotationsDigest: Option<nat>)

  datatype Limits = Limits(
    maximumDepth: nat, maximumObjects: nat, maximumManifestBytes: nat, maximumBlobBytes: nat, maximumTotalBytes: nat)

  /**
   What surrounds a verifier: SHA-256, the store, the strict parser (None for bytes that are not the
   canonical text of a manifest with the closed member sets), the annotations digest and the registries.
   */
  datatype World = World(
    hash: Bytes -> nat, fetch: (string, nat) -> Option<Bytes>, parse: Bytes -> Option<Manifest>,
    annotationsDigest: map<string, string> -> nat,
    types: set<string>, layerRoles: map<string, set<string>>, limits: Limits)

  datatype Record = Record(mediaType: string, size: int)

  datatype Edge = Edge(from: nat, kind: string, index: nat, to: nat, role: string)

  /** A use of an object: as a manifest or as a config or layer blob. */
  datatype Ref = Ref(descriptor: Descriptor, manifest: bool)

  datatype GraphError =
    | RootMismatch | Equivocation | Missing | DigestMismatch | SizeMismatch | LimitExceeded | Cycle
    | BadManifest | BadConfig | BadLayers | BadSubject | RootMetadata

  // ---------- fetching one object ----------

  function RecordOf(ref: Ref): Record {
    Record(ref.descriptor.mediaType, ref.descriptor.size)
  }

  /** The stored bytes have the named digest and size and respect the limit of their use. */
  predicate Exact(w: World, repository: string, ref: Ref) {
    var payload := w.fetch(repository, ref.descriptor.digest);
    && payload.Some? && w.hash(payload.value) == ref.descriptor.digest && |payload.value| == ref.descriptor.size
    && |payload.value| <= (if ref.manifest then w.limits.maximumManifestBytes else w.limits.maximumBlobBytes)
  }

  ghost function SumSizes(records: map<nat, Record>): int {
    if records == map[] then 0
    else
      var d :| d in records;
      records[d].size + SumSizes(records - {d})
  }

  /** The record the sum starts with. */
  lemma FirstSummed(records: map<nat, Record>) returns (d: nat)
    requires records != map[]
    ensures d in records && SumSizes(records) == records[d].size + SumSizes(records - {d})
  {
    d :| d in records && SumSizes(records) == records[d].size + SumSizes(records - {d});
  }

  lemma {:induction false} SumSizesInsert(records: map<nat, Record>, d: nat, r: Record)
    requires d !in records
    ensures SumSizes(records[d := r]) == SumSizes(records) + r.size
    decreases |records|
  {
    hide SumSizes;
    var all := records[d := r];
    assert d in all;
    var e := FirstSummed(all);
    if e == d {
      assert all - {d} == records;
    } else {
      assert all - {e} == (records - {e})[d := r];
      SumSizesInsert(records - {e}, d, r);
      assert (records - {e})[e := records[e]] == records;
      SumSizesInsert(records - {e}, e, records[e]);
    }
  }

  ghost predicate CanFetch(w: World, repository: string, records: map<nat, Record>, ref: Ref) {
    && Exact(w, repository, ref)
    && if ref.descriptor.digest in records then records[ref.descriptor.digest] == RecordOf(ref)
       else
         && |records| < w.limits.maximumObjects
         && SumSizes(records) + ref.descriptor.size <= w.limits.maximumTotalBytes
  }

  function Recorded(records: map<nat, Record>, ref: Ref): map<nat, Record> {
    if ref.descriptor.digest in records then records else records[ref.descriptor.digest := RecordOf(ref)]
  }

  ghost predicate CanFetchAll(w: World, repository: string, records: map<nat, Record>, refs: seq<Ref>)
    decreases |refs|
  {
    refs == [] ||
    (CanFetch(w, repository, records, refs[0]) && CanFetchAll(w, repository, Recorded(records, refs[0]), refs[1..]))
  }

  function RecordedAll(records: map<nat, Record>, refs: seq<Ref>): map<nat, Record>
    decreases |refs|
  {
    if refs == [] then records else RecordedAll(Recorded(records, refs[0]), refs[1..])
  }

  lemma {:induction false} FetchConcat(
    w: World, repository: string, records: map<nat, Record>, a: seq<Ref>, b: seq<Ref>)
    ensures RecordedAll(records, a + b) == RecordedAll(RecordedAll(records, a), b)
    ensures CanFetchAll(w, repository, records, a + b) <==>
      CanFetchAll(w, repository, records, a) && CanFetchAll(w, repository, RecordedAll(records, a), b)
    decreases |a|
  {
    if a == [] {
      assert a + b == b;
    } else {
      assert (a + b)[1..] == a[1..] + b;
      FetchConcat(w, repository, Recorded(records, a[0]), a[1..], b);
    }
  }

  // ---------- one manifest ----------

  /** The one allowed config, stored as exactly these two bytes. */
  predicate ConfigOk(w: World, repository: string, m: Manifest) {
    && m.config == Descriptor(CONFIG_TYPE, w.hash(EMPTY_CONFIG), 2)
    && w.fetch(repository, m.config.digest) == Some(EMPTY_CONFIG)
  }

  predicate LayerOk(w: World, m: Manifest, i: nat)
    requires i < |m.layers| && m.artifactType in w.layerRoles
  {
    && m.layers[i].blob.mediaType == LAYER_TYPE
    && m.layers[i].role in w.layerRoles[m.artifactType] && m.layers[i].role in ROLE_ORDER
  }

  function Position(role: string): (p: nat)
    ensures role in ROLE_ORDER ==> p < |ROLE_ORDER| && ROLE_ORDER[p] == role
  {
    if role == ROLE_ORDER[0] then 0 else if role == ROLE_ORDER[1] then 1 else if role == ROLE_ORDER[2] then 2
    else if role == ROLE_ORDER[3] then 3 else if role == ROLE_ORDER[4] then 4 else if role == ROLE_ORDER[5] then 5
    else if role == ROLE_ORDER[6] then 6 else 7
  }

  function Roles(layers: seq<Layer>): (roles: seq<string>)
    ensures |roles| == |layers| && forall i :: 0 <= i < |layers| ==> roles[i] == layers[i].role
  {
    seq(|layers|, i requires 0 <= i < |layers| => layers[i].role)
  }

  function Digests(layers: seq<Layer>): (digests: seq<nat>)
    ensures |digests| == |layers| && forall i :: 0 <= i < |layers| ==> digests[i] == layers[i].blob.digest
  {
    seq(|layers|, i requires 0 <= i < |layers| => layers[i].blob.digest)
  }

  predicate InRoleOrder(layers: seq<Layer>) {
    forall i, j :: 0 <= i < j < |layers| ==> Position(layers[i].role) <= Position(layers[j].role)
  }

  /** Registered roles, each role and digest once, in role order. */
  ghost predicate LayersOk(w: World, m: Manifest) {
    && |m.layers| > 0 && m.artifactType in w.layerRoles
    && (forall i :: 0 <= i < |m.layers| ==> LayerOk(w, m, i))
    && NoRepeats(Roles(m.layers)) && NoRepeats(Digests(m.layers)) && InRoleOrder(m.layers)
  }

  predicate ProfileOk(w: World, m: Manifest, expectedType: Option<string>) {
    && m.schemaVersion == 2 && m.mediaType == MANIFEST_TYPE && m.artifactType in w.types
    && (expectedType.Some? ==> m.artifactType == expectedType.value)
  }

  ghost predicate ManifestOk(w: World, repository: string, m: Manifest, expectedType: Option<string>) {
    ProfileOk(w, m, expectedType) && ConfigOk(w, repository, m) && LayersOk(w, m)
  }

  // ---------- the subject chain ----------

  datatype Link = Link(descriptor: Descriptor, manifest: Manifest)

  function Stored(w: World, repository: string, descriptor: Descriptor): Option<Manifest> {
    var payload := w.fetch(repository, descriptor.digest);
    if payload.None? then None else w.parse(payload.value)
  }

  /** The manifests reached from a descriptor, or None when one is malformed, repeated or too deep. */
  ghost function Follow(
    w: World, repository: string, descriptor: Descriptor, depth: nat, visiting: set<nat>, done: set<nat>,
    expectedType: Option<string>): Option<seq<Link>>
    decreases w.limits.maximumDepth + 1 - depth
  {
    if depth > w.limits.maximumDepth || descriptor.digest in visiting then None
    else if descriptor.digest in done then Some([])
    else if |done| >= w.limits.maximumObjects then None
    else
      var stored := Stored(w, repository, descriptor);
      if stored.None? || !ManifestOk(w, repository, stored.value, expectedType) then None
      else
        var here := Link(descriptor, stored.value);
        if stored.value.subject.None? then Some([here])
        else if stored.value.subject.value.mediaType != MANIFEST_TYPE then None
        else
          var rest := Follow(
            w, repository, stored.value.subject.value, depth + 1, visiting + {descriptor.digest}, done, None);
          if rest.None? then None else Some([here] + rest.value)
  }

  function LayerRefs(layers: seq<Layer>): (refs: seq<Ref>)
    ensures |refs| == |layers| && forall i :: 0 <= i < |refs| ==> refs[i] == Ref(layers[i].blob, false)
  {
    seq(|layers|, i requires 0 <= i < |layers| => Ref(layers[i].blob, false))
  }

  function LinkRefs(link: Link): seq<Ref> {
    [Ref(link.descriptor, true)] + ([Ref(link.manifest.config, false)] + LayerRefs(link.manifest.layers))
  }

  function ChainRefs(chain: seq<Link>): seq<Ref> {
    if chain == [] then [] else LinkRefs(chain[0]) + ChainRefs(chain[1..])
  }

  function LayerEdges(link: Link): seq<Edge> {
    seq(|link.manifest.layers|, i requires 0 <= i < |link.manifest.layers| =>
      Edge(link.descriptor.digest, "layer", i, link.manifest.layers[i].blob.digest, link.manifest.layers[i].role))
  }

  function ObjectEdges(link: Link): seq<Edge> {
    [Edge(link.descriptor.digest, "config", 0, link.manifest.config.digest, "empty-config")] + LayerEdges(link)
  }

  function SubjectEdges(link: Link): seq<Edge> {
    if link.manifest.subject.None? then []
    else [Edge(link.descriptor.digest, "subject", 0, link.manifest.subject.value.digest, "same-repository-subject")]
  }

  function LinkEdges(link: Link): seq<Edge> {
    ObjectEdges(link) + SubjectEdges(link)
  }

  function ChainEdges(chain: seq<Link>): seq<Edge> {
    if chain == [] then [] else LinkEdges(chain[0]) + ChainEdges(chain[1..])
  }

  function ChainObjects(chain: seq<Link>): map<nat, Manifest> {
    if chain == [] then map[] else ChainObjects(chain[1..])[chain[0].descriptor.digest := chain[0].manifest]
  }

  /** The depth of the last manifest visited along a chain that starts at `depth`. */
  function DeepestOf(depth: nat, chain: seq<Link>): (deepest: nat)
    ensures deepest >= depth
    decreases |chain|
  {
    if chain == [] || chain[0].manifest.subject.None? then depth else DeepestOf(depth + 1, chain[1..])
  }

  ghost predicate RootMetadataOk(w: World, root: RootDescriptor, m: Manifest) {
    && root.subjectDigest == (if m.subject.None? then None else Some(m.subject.value.digest))
    && root.annotationsDigest == (if m.annotations.None? then None else Some(w.annotationsDigest(m.annotations.value)))
  }

  ghost function RootChain(w: World, root: RootDescriptor): Option<seq<Link>> {
    Follow(w, root.repository, Descriptor(root.mediaType, root.digest, root.size), 0, {}, {}, Some(root.artifactType))
  }

  /** When `verify` accepts. */
  ghost predicate Accepted(w: World, root: RootDescriptor, repository: string, artifactType: string) {
    && root.repository == repository && root.mediaType == MANIFEST_TYPE && root.artifactType == artifactType
    && RootChain(w, root).Some? && RootChain(w, root).value != []
    && CanFetchAll(w, repository, map[], ChainRefs(RootChain(w, root).value))
    && RootMetadataOk(w, root, RootChain(w, root).value[0].manifest)
  }

  lemma NothingToFetch(w: World, repository: string, records: map<nat, Record>)
    ensures CanFetchAll(w, repository, records, ChainRefs([])) && RecordedAll(records, ChainRefs([])) == records
  {
  }

  /** The fetches of one link, one after the other. */
  lemma LinkFetches(w: World, repository: string, records: map<nat, Record>, link: Link)
    ensures var first, second := Ref(link.descriptor, true), Ref(link.manifest.config, false);
      var afterFirst := Recorded(records, first);
      var afterSecond := Recorded(afterFirst, second);
      && RecordedAll(records, LinkRefs(link)) == RecordedAll(afterSecond, LayerRefs(link.manifest.layers))
      && (CanFetchAll(w, repository, records, LinkRefs(link)) <==>
            && CanFetch(w, repository, records, first) && CanFetch(w, repository, afterFirst, second)
            && CanFetchAll(w, repository, afterSecond, LayerRefs(link.manifest.layers)))
  {
    var refs := LinkRefs(link);
    assert refs[1..] == [Ref(link.manifest.config, false)] + LayerRefs(link.manifest.layers);
    assert refs[1..][1..] == LayerRefs(link.manifest.layers);
  }

  lemma ChainFetches(w: World, repository: string, records: map<nat, Record>, link: Link, rest: seq<Link>)
    ensures RecordedAll(records, ChainRefs([link] + rest))
      == RecordedAll(RecordedAll(records, LinkRefs(link)), ChainRefs(rest))
    ensures CanFetchAll(w, repository, records, ChainRefs([link] + rest)) <==>
      && CanFetchAll(w, repository, records, LinkRefs(link))
      && CanFetchAll(w, repository, RecordedAll(records, LinkRefs(link)), ChainRefs(rest))
  {
    assert ([link] + rest)[1..] == rest;
    FetchConcat(w, repository, records, LinkRefs(link), ChainRefs(rest));
  }

  /** The chain of a stored manifest is that manifest and the chain of its subject. */
  function Chained(link: Link, rest: Option<seq<Link>>): Option<seq<Link>> {
    if link.manifest.subject.None? then Some([link])
    else if link.manifest.subject.value.mediaType != MANIFEST_TYPE || rest.None? then None
    else Some([link] + rest.value)
  }

  ghost function FollowSubject(
    w: World, repository: string, link: Link, depth: nat, visiting: set<nat>, done: set<nat>): Option<seq<Link>>
  {
    if link.manifest.subject.None? then None
    else Follow(w, repository, link.manifest.subject.value, depth + 1, visiting, done, None)
  }

  lemma FollowStops(
    w: World, repository: string, descriptor: Descriptor, depth: nat, visiting: set<nat>, done: set<nat>,
    expectedType: Option<string>)
    ensures var followed := Follow(w, repository, descriptor, depth, visiting, done, expectedType);
      && (depth > w.limits.maximumDepth || descriptor.digest in visiting ==> followed.None?)
      && (depth <= w.limits.maximumDepth && descriptor.digest !in visiting && descriptor.digest in done ==>
            followed == Some([]))
      && (descriptor.digest !in done && |done| >= w.limits.maximumObjects ==> followed.None?)
  {
  }

  lemma RegroupEdges(base: seq<Edge>, link: Link, rest: seq<Link>)
    ensures base + ChainEdges([link] + rest) == base + ObjectEdges(link) + SubjectEdges(link) + ChainEdges(rest)
  {
    hide ObjectEdges, SubjectEdges;
    ChainUnfold(link, rest);
  }

  lemma NothingAdded(objects: map<nat, Manifest>, edges: seq<Edge>, depth: nat)
    ensures objects + ChainObjects([]) == objects && edges + ChainEdges([]) == edges && DeepestOf(depth, []) == depth
  {
    assert objects + map[] == objects;
  }

  lemma DeepestUnfold(depth: nat, link: Link, rest: seq<Link>)
    ensures DeepestOf(depth, [link] + rest)
      == if link.manifest.subject.None? then depth else DeepestOf(depth + 1, rest)
    ensures DeepestOf(depth + 1, rest) >= depth
  {
    assert ([link] + rest)[1..] == rest;
  }

  lemma RegroupObjects(base: map<nat, Manifest>, link: Link, rest: seq<Link>)
    ensures (base + ChainObjects(rest))[link.descriptor.digest := link.manifest] == base + ChainObjects([link] + rest)
    ensures base + ChainObjects([]) == base
  {
    ChainUnfold(link, rest);
  }

  /** Every verified chain ends at a manifest without subject, one level below per link. */
  lemma {:induction false} DeepestIsLast(
    w: World, repository: string, descriptor: Descriptor, depth: nat, visiting: set<nat>, expectedType: Option<string>)
    requires Follow(w, repository, descriptor, depth, visiting, {}, expectedType).Some?
    ensures var chain := Follow(w, repository, descriptor, depth, visiting, {}, expectedType).value;
      DeepestOf(depth, chain) == depth + |chain| - 1
    decreases w.limits.maximumDepth + 1 - depth
  {
    var chain := Follow(w, repository, descriptor, depth, visiting, {}, expectedType).value;
    if chain[0].manifest.subject.Some? {
      var subject := chain[0].manifest.subject.value;
      FollowNonempty(w, repository, subject, depth + 1, visiting + {descriptor.digest}, None);
      DeepestIsLast(w, repository, subject, depth + 1, visiting + {descriptor.digest}, None);
      assert Follow(w, repository, subject, depth + 1, visiting + {descriptor.digest}, {}, None) == Some(chain[1..]);
    }
  }

  /** With nothing finished yet, a chain has at least the manifest it starts at. */
  lemma FollowNonempty(
    w: World, repository: string, descriptor: Descriptor, depth: nat, visiting: set<nat>, expectedType: Option<string>)
    ensures Follow(w, repository, descriptor, depth, visiting, {}, expectedType) != Some([])
  {
  }

  lemma RootIsFirst(
    w: World, repository: string, descriptor: Descriptor, depth: nat, visiting: set<nat>, expectedType: Option<string>)
    ensures var followed := Follow(w, repository, descriptor, depth, visiting, {}, expectedType);
      followed.Some? ==>
        && followed.value != [] && followed.value[0].descriptor == descriptor
        && descriptor.digest in ChainObjects(followed.value)
        && ChainObjects(followed.value)[descriptor.digest] == followed.value[0].manifest
  {
  }

  lemma ChainUnfold(link: Link, rest: seq<Link>)
    ensures ChainObjects([link] + rest) == ChainObjects(rest)[link.descriptor.digest := link.manifest]
    ensures ChainEdges([link] + rest) == LinkEdges(link) + ChainEdges(rest)
    ensures ChainObjects([]) == map[] && ChainEdges([]) == []
  {
    assert ([link] + rest)[1..] == rest;
  }

  lemma FollowUnfold(
    w: World, repository: string, descriptor: Descriptor, depth: nat, visiting: set<nat>, done: set<nat>,
    expectedType: Option<string>)
    requires depth <= w.limits.maximumDepth && descriptor.digest !in visiting
    requires descriptor.digest !in done && |done| < w.limits.maximumObjects
    ensures var stored := Stored(w, repository, descriptor);
      Follow(w, repository, descriptor, depth, visiting, done, expectedType) ==
      if stored.None? || !ManifestOk(w, repository, stored.value, expectedType) then None
      else
        var link := Link(descriptor, stored.value);
        Chained(link, FollowSubject(w, repository, link, depth, visiting + {descriptor.digest}, done))
  {
  }

  /** What a followed chain starts with, and the fetches of its first link and of the rest. */
  lemma FollowFetches(
    w: World, repository: string, descriptor: Descriptor, depth: nat, visiting: set<nat>, done: set<nat>,
    expectedType: Option<string>, records: map<nat, Record>)
    requires depth <= w.limits.maximumDepth && descriptor.digest !in visiting
    requires descriptor.digest !in done && |done| < w.limits.maximumObjects
    ensures var stored, followed :=
        Stored(w, repository, descriptor), Follow(w, repository, descriptor, depth, visiting, done, expectedType);
      followed == if stored.None? || !ManifestOk(w, repository, stored.value, expectedType) then None
      else
        var link := Link(descriptor, stored.value);
        Chained(link, FollowSubject(w, repository, link, depth, visiting + {descriptor.digest}, done))
    ensures var followed := Follow(w, repository, descriptor, depth, visiting, done, expectedType);
      followed.Some? ==>
        var link, rest := Link(descriptor, Stored(w, repository, descriptor).value), followed.value[1..];
        && followed.value == [link] + rest
        && RecordedAll(records, ChainRefs(followed.value))
           == RecordedAll(RecordedAll(records, LinkRefs(link)), ChainRefs(rest))
        && (CanFetchAll(w, repository, records, ChainRefs(followed.value)) <==>
              && CanFetchAll(w, repository, records, LinkRefs(link))
              && CanFetchAll(w, repository, RecordedAll(records, LinkRefs(link)), ChainRefs(rest)))
  {
    hide CanFetchAll, RecordedAll, ManifestOk, Follow, ChainRefs, LinkRefs, Stored;
    FollowUnfold(w, repository, descriptor, depth, visiting, done, expectedType);
    var followed := Follow(w, repository, descriptor, depth, visiting, done, expectedType);
    if followed.Some? {
      ChainFetches(w, repository, records, followed.value[0], followed.value[1..]);
      assert [followed.value[0]] + followed.value[1..] == followed.value;
    }
  }

  // ---------- the verifier ----------

  /** The manifest stands for the config, layers, artifact type and subject that the source copies from it. */
  datatype Report = Report(manifest: Manifest, objectCount: nat, totalBytes: int, maximumDepthObserved: nat)

  class OciGraphVerifier {
    const world: World
    var objects: map<nat, Manifest>
    var payloadRecords: map<nat, Record>
    var edges: seq<Edge>
    var visiting: set<nat>
    var totalBytes: int
    var observedDepth: nat

    constructor (world: World)
      ensures this.world == world
    {
      this.world := world;
      objects, payloadRecords, edges, visiting, totalBytes, observedDepth := map[], map[], [], {}, 0, 0;
    }

    /** The running total is the total of what is recorded. */
    ghost predicate Valid()
      reads this
    {
      totalBytes == SumSizes(payloadRecords)
    }

    /** `fetch_exact`. */
    method FetchExact(repository: string, descriptor: Descriptor, manifest: bool) returns (r: Result<Bytes, GraphError>)
      requires Valid()
      modifies this`payloadRecords, this`totalBytes
      ensures Valid()
      ensures r.Ok? <==> CanFetch(world, repository, old(payloadRecords), Ref(descriptor, manifest))
      ensures r.Ok? ==> payloadRecords == Recorded(old(payloadRecords), Ref(descriptor, manifest))
      ensures r.Ok? ==> world.fetch(repository, descriptor.digest) == Some(r.value)
    {
      var known := descriptor.digest in payloadRecords;
      if known && payloadRecords[descriptor.digest] != Record(descriptor.mediaType, descriptor.size) {
        return Err(Equivocation);
      }
      var payload := world.fetch(repository, descriptor.digest);
      if payload.None? {
        return Err(Missing);
      }
      if world.hash(payload.value) != descriptor.digest {
        return Err(DigestMismatch);
      }
      if |payload.value| != descriptor.size {
        return Err(SizeMismatch);
      }
      if |payload.value| > (if manifest then world.limits.maximumManifestBytes else world.limits.maximumBlobBytes) {
        return Err(LimitExceeded);
      }
      if !known {
        if |payloadRecords| >= world.limits.maximumObjects {
          return Err(LimitExceeded);
        }
        if totalBytes + |payload.value| > world.limits.maximumTotalBytes {
          return Err(LimitExceeded);
        }
        SumSizesInsert(payloadRecords, descriptor.digest, Record(descriptor.mediaType, descriptor.size));
        totalBytes := totalBytes + |payload.value|;
        payloadRecords := payloadRecords[descriptor.digest := Record(descriptor.mediaType, descriptor.size)];
      }
      return Ok(payload.value);
    }

    /** The layer loop: role and digest checks, the fetch and the edge of every layer. */
    method VisitLayers(repository: string, link: Link) returns (ok: bool)
      requires Valid() && link.manifest.artifactType in world.layerRoles
      modifies this`payloadRecords, this`totalBytes, this`edges
      ensures Valid()
      ensures ok <==>
        && (forall i :: 0 <= i < |link.manifest.layers| ==> LayerOk(world, link.manifest, i))
        && NoRepeats(Roles(link.manifest.layers)) && NoRepeats(Digests(link.manifest.layers))
        && InRoleOrder(link.manifest.layers)
        && CanFetchAll(world, repository, old(payloadRecords), LayerRefs(link.manifest.layers))
      ensures ok ==> payloadRecords == RecordedAll(old(payloadRecords), LayerRefs(link.manifest.layers))
      ensures ok ==> edges == old(edges) + LayerEdges(link)
    {
      hide CanFetchAll, RecordedAll, NoRepeats, Gathers, CanFetch, Recorded, Position, InRoleOrder;
      var layers := link.manifest.layers;
      ghost var refs, roles, digests := LayerRefs(layers), Roles(layers), Digests(layers);
      var seenRoles: set<string> := {};
      var seenDigests: set<nat> := {};
      var n := 0;
      NothingFetched(world, repository, payloadRecords, refs, roles, digests);
      while n < |layers|
        invariant 0 <= n <= |layers| && Valid()
        invariant forall i :: 0 <= i < n ==> LayerOk(world, link.manifest, i)
        invariant NoRepeats(roles[..n]) && Gathers(seenRoles, roles[..n])
        invariant NoRepeats(digests[..n]) && Gathers(seenDigests, digests[..n])
        invariant CanFetchAll(world, repository, old(payloadRecords), refs[..n])
        invariant payloadRecords == RecordedAll(old(payloadRecords), refs[..n])
        invariant edges == old(edges) + LayerEdges(link)[..n]
      {
        var layer := layers[n];
        FetchOneMore(world, repository, old(payloadRecords), refs, n);
        ScanOneMore(seenRoles, roles, n);
        ScanOneMore(seenDigests, digests, n);
        if layer.blob.mediaType != LAYER_TYPE {
          assert !LayerOk(world, link.manifest, n);
          return false;
        }
        if layer.role !in world.layerRoles[link.manifest.artifactType] || layer.role !in ROLE_ORDER {
          assert !LayerOk(world, link.manifest, n);
          return false;
        }
        if layer.role in seenRoles || layer.blob.digest in seenDigests {
          return false;
        }
        seenRoles := seenRoles + {layer.role};
        seenDigests := seenDigests + {layer.blob.digest};
        var payload := FetchExact(repository, layer.blob, false);
        if payload.Err? {
          return false;
        }
        edges := edges + [Edge(link.descriptor.digest, "layer", n, layer.blob.digest, layer.role)];
        n := n + 1;
      }
      assert refs[..n] == refs && roles[..n] == roles && digests[..n] == digests;
      assert LayerEdges(link)[..n] == LayerEdges(link);
      return InRoleOrder(layers);
    }

    /** From the manifest fetch to the last layer: everything about one manifest but its subject. */
    method VisitObject(repository: string, descriptor: Descriptor, expectedType: Option<string>)
      returns (r: Option<Manifest>)
      requires Valid()
      modifies this`payloadRecords, this`totalBytes, this`edges
      ensures Valid()
      ensures r.Some? <==>
        && Stored(world, repository, descriptor).Some?
        && ManifestOk(world, repository, Stored(world, repository, descriptor).value, expectedType)
        && CanFetchAll(
             world, repository, old(payloadRecords),
             LinkRefs(Link(descriptor, Stored(world, repository, descriptor).value)))
      ensures r.Some? ==> r == Stored(world, repository, descriptor)
      ensures r.Some? ==> payloadRecords == RecordedAll(old(payloadRecords), LinkRefs(Link(descriptor, r.value)))
      ensures r.Some? ==> edges == old(edges) + ObjectEdges(Link(descriptor, r.value))
    {
      hide CanFetchAll, RecordedAll, CanFetch, Recorded, Exact, InRoleOrder, NoRepeats;
      ghost var records := payloadRecords;
      if Stored(world, repository, descriptor).Some? {
        LinkFetches(world, repository, records, Link(descriptor, Stored(world, repository, descriptor).value));
      }
      var payload := FetchExact(repository, descriptor, true);
      if payload.Err? {
        return None;
      }
      var parsed := world.parse(payload.value);
      if parsed.None? {
        return None;
      }
      var document := parsed.value;
      if document.schemaVersion != 2 || document.mediaType != MANIFEST_TYPE || document.artifactType !in world.types {
        return None;
      }
      if expectedType.Some? && document.artifactType != expectedType.value {
        return None;
      }
      if document.config != Descriptor(CONFIG_TYPE, world.hash(EMPTY_CONFIG), 2) {
        return None;
      }
      var config := FetchExact(repository, document.config, false);
      if config.Err? {
        return None;
      }
      if config.value != EMPTY_CONFIG {
        return None;
      }
      edges := edges + [Edge(descriptor.digest, "config", 0, document.config.digest, "empty-config")];
      if |document.layers| == 0 || document.artifactType !in world.layerRoles {
        return None;
      }
      var layersOk := VisitLayers(repository, Link(descriptor, document));
      if !layersOk {
        return None;
      }
      return parsed;
    }

    /** `visit_manifest`: one manifest, then the chain its subject starts. */
    method VisitManifest(
      repository: string, descriptor: Descriptor, depth: nat, expectedType: Option<string>,
      root: Option<RootDescriptor>)
      returns (ok: bool, ghost chain: seq<Link>)
      requires Valid()
      modifies this
      ensures Valid()
      ensures var followed := Follow(
          world, repository, descriptor, depth, old(visiting), old(objects).Keys, expectedType);
        ok <==>
          && followed.Some? && CanFetchAll(world, repository, old(payloadRecords), ChainRefs(followed.value))
          && (root.Some? && followed.value != [] ==> RootMetadataOk(world, root.value, followed.value[0].manifest))
      ensures ok ==>
        Some(chain) == Follow(world, repository, descriptor, depth, old(visiting), old(objects).Keys, expectedType)
      ensures ok ==> payloadRecords == RecordedAll(old(payloadRecords), ChainRefs(chain))
      ensures ok ==> visiting == old(visiting) && objects == old(objects) + ChainObjects(chain)
      ensures ok ==> edges == old(edges) + ChainEdges(chain)
      ensures ok ==> observedDepth == Max(old(observedDepth), DeepestOf(depth, chain))
      decreases world.limits.maximumDepth + 1 - depth, 2
    {
      hide CanFetchAll, RecordedAll, ManifestOk, RootMetadataOk, Follow, ChainRefs, ChainEdges, ChainObjects, SumSizes;
      hide LinkRefs, LinkEdges, ObjectEdges, Stored, DeepestOf;
      chain := [];
      ghost var followed := Follow(
        world, repository, descriptor, depth, visiting, objects.Keys, expectedType);
      FollowStops(world, repository, descriptor, depth, visiting, objects.Keys, expectedType);
      if depth > world.limits.maximumDepth {
        return false, chain;
      }
      observedDepth := Max(observedDepth, depth);
      if descriptor.digest in visiting {
        return false, chain;
      }
      if descriptor.digest in objects {
        NothingToFetch(world, repository, payloadRecords);
        NothingAdded(objects, edges, depth);
        return true, chain;
      }
      if |objects| >= world.limits.maximumObjects {
        return false, chain;
      }
      ok, chain := VisitNew(repository, descriptor, depth, expectedType, root);
    }

    /** The rest of `visit_manifest`, for a manifest neither in progress nor finished. */
    method VisitNew(
      repository: string, descriptor: Descriptor, depth: nat, expectedType: Option<string>,
      root: Option<RootDescriptor>)
      returns (ok: bool, ghost chain: seq<Link>)
      requires Valid() && depth <= world.limits.maximumDepth && descriptor.digest !in visiting
      requires descriptor.digest !in objects && |objects| < world.limits.maximumObjects && depth <= observedDepth
      modifies this
      ensures Valid()
      ensures var followed := Follow(
          world, repository, descriptor, depth, old(visiting), old(objects).Keys, expectedType);
        ok <==>
          && followed.Some? && CanFetchAll(world, repository, old(payloadRecords), ChainRefs(followed.value))
          && (root.Some? && followed.value != [] ==> RootMetadataOk(world, root.value, followed.value[0].manifest))
      ensures ok ==>
        Some(chain) == Follow(world, repository, descriptor, depth, old(visiting), old(objects).Keys, expectedType)
      ensures ok ==> chain != [] && payloadRecords == RecordedAll(old(payloadRecords), ChainRefs(chain))
      ensures ok ==> visiting == old(visiting) && objects == old(objects) + ChainObjects(chain)
      ensures ok ==> edges == old(edges) + ChainEdges(chain)
      ensures ok ==> observedDepth == Max(old(observedDepth), DeepestOf(depth, chain))
      decreases world.limits.maximumDepth + 1 - depth, 1
    {
      hide CanFetchAll, RecordedAll, ManifestOk, RootMetadataOk, Follow, ChainRefs, ChainEdges, ChainObjects;
      hide LinkRefs, Stored;
      hide ObjectEdges, SubjectEdges, LinkEdges, DeepestOf, SumSizes, FollowSubject, Chained;
      chain := [];
      ghost var followed := Follow(world, repository, descriptor, depth, visiting, objects.Keys, expectedType);
      FollowFetches(world, repository, descriptor, depth, visiting, objects.Keys, expectedType, payloadRecords);
      visiting := visiting + {descriptor.digest};
      var visited := VisitObject(repository, descriptor, expectedType);
      if visited.None? {
        return false, chain;
      }
      var document := visited.value;
      ghost var link := Link(descriptor, document);
      var subjectOk;
      subjectOk, chain := VisitSubject(repository, Link(descriptor, document), depth);
      if !subjectOk {
        return false, chain;
      }
      assert ([link] + chain)[1..] == chain;
      if root.Some? {
        var described := CheckRootMetadata(root.value, document);
        if !described {
          return false, chain;
        }
      }
      RegroupEdges(old(edges), link, chain);
      RegroupObjects(old(objects), link, chain);
      objects := objects[descriptor.digest := document];
      visiting := visiting - {descriptor.digest};
      chain := [link] + chain;
      return true, chain;
    }

    /** The subject branch: an edge and the visit of the manifest it names. */
    method VisitSubject(repository: string, link: Link, depth: nat) returns (ok: bool, ghost rest: seq<Link>)
      requires Valid() && depth <= world.limits.maximumDepth && depth <= observedDepth
      modifies this
      ensures Valid()
      ensures var chained := Chained(
          link, FollowSubject(world, repository, link, depth, old(visiting), old(objects).Keys));
        && (ok <==>
              chained.Some? && CanFetchAll(world, repository, old(payloadRecords), ChainRefs(chained.value[1..])))
        && (ok ==> chained == Some([link] + rest))
      ensures ok ==> payloadRecords == RecordedAll(old(payloadRecords), ChainRefs(rest)) && visiting == old(visiting)
      ensures ok ==> objects == old(objects) + ChainObjects(rest)
      ensures ok ==> edges == old(edges) + SubjectEdges(link) + ChainEdges(rest)
      ensures ok ==> observedDepth == Max(old(observedDepth), DeepestOf(depth, [link] + rest))
      decreases world.limits.maximumDepth + 1 - depth, 0
    {
      hide CanFetchAll, RecordedAll, Follow, ChainRefs, ChainEdges, ChainObjects, DeepestOf, SumSizes;
      rest := [];
      DeepestUnfold(depth, link, rest);
      if link.manifest.subject.None? {
        NothingToFetch(world, repository, payloadRecords);
        NothingAdded(objects, edges, depth);
        assert [link] + [] == [link] && edges + [] == edges;
        return true, rest;
      }
      var subject := link.manifest.subject.value;
      if subject.mediaType != MANIFEST_TYPE {
        return false, rest;
      }
      edges := edges + [Edge(link.descriptor.digest, "subject", 0, subject.digest, "same-repository-subject")];
      ok, rest := VisitManifest(repository, subject, depth + 1, None, None);
      DeepestUnfold(depth, link, rest);
      assert ([link] + rest)[1..] == rest;
    }

    method CheckRootMetadata(root: RootDescriptor, document: Manifest) returns (ok: bool)
      ensures ok <==> RootMetadataOk(world, root, document)
    {
      var subject := if document.subject.None? then None else Some(document.subject.value.digest);
      var annotations :=
        if document.annotations.None? then None else Some(world.annotationsDigest(document.annotations.value));
      return root.subjectDigest == subject && root.annotationsDigest == annotations;
    }

    /** `verify`, with fresh working state. */
    method Verify(root: RootDescriptor, expectedRepository: string, expectedArtifactType: string)
      returns (r: Result<Report, GraphError>, ghost chain: seq<Link>)
      modifies this
      ensures r.Ok? <==> Accepted(world, root, expectedRepository, expectedArtifactType)
      ensures r.Ok? ==> Some(chain) == RootChain(world, root)
      ensures r.Ok? ==> payloadRecords == RecordedAll(map[], ChainRefs(chain)) && objects == ChainObjects(chain)
      ensures r.Ok? ==> edges == ChainEdges(chain)
      ensures r.Ok? ==> chain != []
      ensures r.Ok? ==>
        root.subjectDigest
        == if chain[0].manifest.subject.None? then None else Some(chain[0].manifest.subject.value.digest)
      ensures r.Ok? ==>
        root.annotationsDigest
        == if chain[0].manifest.annotations.None? then None
           else Some(world.annotationsDigest(chain[0].manifest.annotations.value))
      ensures r.Ok? ==> r.value == Report(chain[0].manifest, |payloadRecords|, SumSizes(payloadRecords), |chain| - 1)
    {
      hide CanFetchAll, RecordedAll, Follow, ChainRefs, RootMetadataOk, DeepestOf, ManifestOk, Stored;
      objects, payloadRecords, edges, visiting, totalBytes, observedDepth := map[], map[], [], {}, 0, 0;
      chain := [];
      if root.repository != expectedRepository {
        return Err(RootMismatch), chain;
      }
      if root.mediaType != MANIFEST_TYPE || root.artifactType != expectedArtifactType {
        return Err(RootMismatch), chain;
      }
      assert objects.Keys == {};
      FollowNonempty(
        world, root.repository, Descriptor(root.mediaType, root.digest, root.size), 0, {}, Some(root.artifactType));
      var ok;
      ok, chain := VisitManifest(
        expectedRepository, Descriptor(root.mediaType, root.digest, root.size), 0, Some(expectedArtifactType),
        Some(root));
      if !ok {
        return Err(BadManifest), chain;
      }
      DeepestIsLast(
        world, root.repository, Descriptor(root.mediaType, root.digest, root.size), 0, {}, Some(root.artifactType));
      RootIsFirst(
        world, root.repository, Descriptor(root.mediaType, root.digest, root.size), 0, {}, Some(root.artifactType));
      MetadataStated(world, root, chain[0].manifest);
      return Ok(Report(objects[root.digest], |payloadRecords|, totalBytes, observedDepth)), chain;
    }
  }

  lemma MetadataStated(w: World, root: RootDescriptor, m: Manifest)
    requires RootMetadataOk(w, root, m)
    ensures root.subjectDigest == if m.subject.None? then None else Some(m.subject.value.digest)
    ensures root.annotationsDigest
      == if m.annotations.None? then None else Some(w.annotationsDigest(m.annotations.value))
  {
  }

  lemma DistinctPositions(a: string, b: string)
    requires a in ROLE_ORDER && b in ROLE_ORDER && a != b
    ensures Position(a) != Position(b)
  {
  }

  lemma NothingFetched(
    w: World, repository: string, records: map<nat, Record>, refs: seq<Ref>, roles: seq<string>, digests: seq<nat>)
    ensures CanFetchAll(w, repository, records, refs[..0]) && RecordedAll(records, refs[..0]) == records
    ensures NoRepeats(roles[..0]) && Gathers({}, roles[..0]) && NoRepeats(digests[..0]) && Gathers({}, digests[..0])
  {
  }

  lemma FetchOneMore(w: World, repository: string, records: map<nat, Record>, refs: seq<Ref>, n: nat)
    requires n < |refs|
    ensures RecordedAll(records, refs[..n + 1]) == Recorded(RecordedAll(records, refs[..n]), refs[n])
    ensures CanFetchAll(w, repository, records, refs[..n + 1]) <==>
      CanFetchAll(w, repository, records, refs[..n])
        && CanFetch(w, repository, RecordedAll(records, refs[..n]), refs[n])
    ensures CanFetchAll(w, repository, records, refs) ==> CanFetchAll(w, repository, records, refs[..n + 1])
  {
    var last := [refs[n]];
    assert refs[..n + 1] == refs[..n] + last;
    FetchConcat(w, repository, records, refs[..n], last);
    assert last[1..] == [];
    assert refs == refs[..n + 1] + refs[n + 1..];
    FetchConcat(w, repository, records, refs[..n + 1], refs[n + 1..]);
  }
}
