/** `build_oci_manifest` of scripts/contracts/oci_graph.py, and exactly when the verifier accepts its output. */
module OciBuilder {
  import opened Foundation
  import opened OciGraph
  import opened OciGraphLaws

  datatype LayerInput = LayerInput(role: string, payload: Bytes)

  /** The arguments of the builder. */
  datatype Request = Request(
    repository: string, artifactType: string, inputs: seq<LayerInput>, subject: Option<Descriptor>,
    annotations: Option<map<string, string>>)

  type Blobs = map<(string, nat), Bytes>

  datatype Built = Built(root: RootDescriptor, manifestBytes: Bytes, blobs: Blobs)

  datatype BuildError = UnregisteredType | NoLayers

  // ---------- specification ----------

  function LayerOf(input: LayerInput, hash: Bytes -> nat): Layer {
    Layer(Descriptor(LAYER_TYPE, hash(input.payload), |input.payload|), input.role)
  }

  function LayersOf(inputs: seq<LayerInput>, hash: Bytes -> nat): (layers: seq<Layer>)
    ensures |layers| == |inputs| && forall i :: 0 <= i < |inputs| ==> layers[i] == LayerOf(inputs[i], hash)
  {
    seq(|inputs|, i requires 0 <= i < |inputs| => LayerOf(inputs[i], hash))
  }

  function LayerBlobs(repository: string, inputs: seq<LayerInput>, hash: Bytes -> nat): Blobs {
    if inputs == [] then map[(repository, hash(EMPTY_CONFIG)) := EMPTY_CONFIG]
    else
      var last := inputs[|inputs| - 1];
      LayerBlobs(repository, inputs[..|inputs| - 1], hash)[(repository, hash(last.payload)) := last.payload]
  }

  function ManifestOf(w: World, q: Request): Manifest {
    Manifest(
      2, MANIFEST_TYPE, q.artifactType, Descriptor(CONFIG_TYPE, w.hash(EMPTY_CONFIG), 2), LayersOf(q.inputs, w.hash),
      q.subject, q.annotations)
  }

  function RootOf(w: World, q: Request, bytes: Bytes): RootDescriptor {
    RootDescriptor(
      q.repository, w.hash(bytes), MANIFEST_TYPE, q.artifactType, |bytes|,
      if q.subject.None? then None else Some(q.subject.value.digest),
      if q.annotations.None? then None else Some(w.annotationsDigest(q.annotations.value)))
  }

  function BuiltFrom(w: World, serialize: Manifest -> Bytes, q: Request): Built {
    var bytes := serialize(ManifestOf(w, q));
    Built(
      RootOf(w, q, bytes), bytes, LayerBlobs(q.repository, q.inputs, w.hash)[(q.repository, w.hash(bytes)) := bytes])
  }

  /** `build_oci_manifest`; `serialize` is the canonical serializer. */
  method BuildOciManifest(w: World, serialize: Manifest -> Bytes, q: Request) returns (r: Result<Built, BuildError>)
    ensures r.Ok? <==> q.artifactType in w.types && q.inputs != []
    ensures r.Ok? ==> r.value == BuiltFrom(w, serialize, q)
  {
    if q.artifactType !in w.types {
      return Err(UnregisteredType);
    }
    if q.inputs == [] {
      return Err(NoLayers);
    }
    var descriptors: seq<Layer> := [];
    var blobs: Blobs := map[(q.repository, w.hash(EMPTY_CONFIG)) := EMPTY_CONFIG];
    var n := 0;
    while n < |q.inputs|
      invariant 0 <= n <= |q.inputs|
      invariant descriptors == LayersOf(q.inputs[..n], w.hash)
      invariant blobs == LayerBlobs(q.repository, q.inputs[..n], w.hash)
    {
      assert q.inputs[..n + 1][..n] == q.inputs[..n];
      descriptors := descriptors + [LayerOf(q.inputs[n], w.hash)];
      blobs := blobs[(q.repository, w.hash(q.inputs[n].payload)) := q.inputs[n].payload];
      n := n + 1;
    }
    assert q.inputs[..n] == q.inputs;
    var manifest := Manifest(
      2, MANIFEST_TYPE, q.artifactType, Descriptor(CONFIG_TYPE, w.hash(EMPTY_CONFIG), 2), descriptors, q.subject,
      q.annotations);
    var manifestBytes := serialize(manifest);
    var root := RootDescriptor(
      q.repository, w.hash(manifestBytes), MANIFEST_TYPE, q.artifactType, |manifestBytes|,
      if q.subject.None? then None else Some(q.subject.value.digest),
      if q.annotations.None? then None else Some(w.annotationsDigest(q.annotations.value)));
    return Ok(Built(root, manifestBytes, blobs[(q.repository, root.digest) := manifestBytes]));
  }

  // ---------- verifying what was built ----------

  /** The same surroundings with the built blobs put into the store. */
  function Serving(w: World, blobs: Blobs): World {
    w.(fetch := (repository: string, digest: nat) =>
      if (repository, digest) in blobs then Some(blobs[(repository, digest)]) else w.fetch(repository, digest))
  }

  /** The last layer stored under a digest is the one the store keeps. */
  ghost predicate LastWith(inputs: seq<LayerInput>, hash: Bytes -> nat, digest: nat, i: nat)
    requires i < |inputs|
  {
    hash(inputs[i].payload) == digest && forall j :: i < j < |inputs| ==> hash(inputs[j].payload) != digest
  }

  lemma {:induction false} LayerBlobsAt(repository: string, inputs: seq<LayerInput>, hash: Bytes -> nat, digest: nat)
    ensures forall i :: 0 <= i < |inputs| && LastWith(inputs, hash, digest, i) ==>
      (repository, digest) in LayerBlobs(repository, inputs, hash)
      && LayerBlobs(repository, inputs, hash)[(repository, digest)] == inputs[i].payload
    ensures digest == hash(EMPTY_CONFIG) && (forall j :: 0 <= j < |inputs| ==> hash(inputs[j].payload) != digest) ==>
      (repository, digest) in LayerBlobs(repository, inputs, hash)
      && LayerBlobs(repository, inputs, hash)[(repository, digest)] == EMPTY_CONFIG
    decreases |inputs|
  {
    if inputs != [] {
      var front := inputs[..|inputs| - 1];
      LayerBlobsAt(repository, front, hash, digest);
      forall i | 0 <= i < |inputs| && LastWith(inputs, hash, digest, i)
        ensures i < |front| ==> hash(inputs[|front|].payload) != digest && LastWith(front, hash, digest, i)
      {
      }
    }
  }

  /** Distinct ordered roles from the register are at most the seven registered ones. */
  lemma {:induction false} RolesAreFew(layers: seq<Layer>, i: nat)
    requires i < |layers| && NoRepeats(Roles(layers)) && InRoleOrder(layers)
    requires forall k :: 0 <= k < |layers| ==> layers[k].role in ROLE_ORDER
    ensures Position(layers[i].role) >= i
    decreases i
  {
    if i > 0 {
      RolesAreFew(layers, i - 1);
      assert Roles(layers)[i - 1] != Roles(layers)[i];
      DistinctPositions(layers[i - 1].role, layers[i].role);
    }
  }

  lemma {:induction false} RecordsAreBounded(records: map<nat, Record>, refs: seq<Ref>)
    requires forall i :: 0 <= i < |refs| ==> 0 <= refs[i].descriptor.size <= 67_108_864
    ensures |RecordedAll(records, refs)| <= |records| + |refs|
    ensures SumSizes(RecordedAll(records, refs)) <= SumSizes(records) + |refs| * 67_108_864
    decreases |refs|
  {
    if refs != [] {
      var d := refs[0].descriptor.digest;
      if d !in records {
        SumSizesInsert(records, d, RecordOf(refs[0]));
      }
      RecordsAreBounded(Recorded(records, refs[0]), refs[1..]);
    }
  }

  /** One manifest without subject can exhaust neither the object limit nor the total byte limit. */
  lemma SingleManifestFitsTotals(w: World, repository: string, link: Link)
    requires w.limits == Limits(32, 10_000, 4_194_304, 67_108_864, 1_073_741_824) && LayersOk(w, link.manifest)
    requires forall i :: 0 <= i < |LinkRefs(link)| ==> Exact(w, repository, LinkRefs(link)[i])
    ensures |RecordedAll(map[], LinkRefs(link))| <= 10_000
    ensures SumSizes(RecordedAll(map[], LinkRefs(link))) <= 1_073_741_824
  {
    var layers := link.manifest.layers;
    forall k | 0 <= k < |layers|
      ensures layers[k].role in ROLE_ORDER
    {
      assert LayerOk(w, link.manifest, k);
    }
    RolesAreFew(layers, |layers| - 1);
    assert |LinkRefs(link)| <= 9;
    forall i | 0 <= i < |LinkRefs(link)|
      ensures 0 <= LinkRefs(link)[i].descriptor.size <= 67_108_864
    {
      assert Exact(w, repository, LinkRefs(link)[i]);
    }
    RecordsAreBounded(map[], LinkRefs(link));
  }

  /** What a caller can check before building. */
  ghost predicate Buildable(w: World, manifestBytes: Bytes, artifactType: string, inputs: seq<LayerInput>) {
    && artifactType in w.types && artifactType in w.layerRoles && inputs != []
    && (forall i :: 0 <= i < |inputs| ==>
          inputs[i].role in w.layerRoles[artifactType] && inputs[i].role in ROLE_ORDER)
    && (forall i, j :: 0 <= i < j < |inputs| ==>
          && Position(inputs[i].role) < Position(inputs[j].role)
          && w.hash(inputs[i].payload) != w.hash(inputs[j].payload))
    && (forall i :: 0 <= i < |inputs| ==>
          && |inputs[i].payload| <= w.limits.maximumBlobBytes
          && w.hash(inputs[i].payload) != w.hash(EMPTY_CONFIG) && w.hash(inputs[i].payload) != w.hash(manifestBytes))
    && |manifestBytes| <= w.limits.maximumManifestBytes && |EMPTY_CONFIG| <= w.limits.maximumBlobBytes
    && w.hash(manifestBytes) != w.hash(EMPTY_CONFIG)
  }

  lemma BuildableLayersOk(w: World, served: World, artifactType: string, inputs: seq<LayerInput>, m: Manifest)
    requires artifactType in w.layerRoles && served.layerRoles == w.layerRoles && m.artifactType == artifactType
    requires m.layers == LayersOf(inputs, w.hash)
    ensures LayersOk(served, m) <==>
      && inputs != []
      && (forall i :: 0 <= i < |inputs| ==>
            inputs[i].role in w.layerRoles[artifactType] && inputs[i].role in ROLE_ORDER)
      && (forall i, j :: 0 <= i < j < |inputs| ==>
            && Position(inputs[i].role) < Position(inputs[j].role)
            && w.hash(inputs[i].payload) != w.hash(inputs[j].payload))
  {
    hide Position;
    var roles, digests := Roles(m.layers), Digests(m.layers);
    if LayersOk(served, m) {
      forall i | 0 <= i < |inputs|
        ensures inputs[i].role in w.layerRoles[artifactType] && inputs[i].role in ROLE_ORDER
      {
        assert LayerOk(served, m, i);
      }
      forall i, j | 0 <= i < j < |inputs|
        ensures Position(inputs[i].role) < Position(inputs[j].role)
        ensures w.hash(inputs[i].payload) != w.hash(inputs[j].payload)
      {
        assert roles[i] != roles[j] && digests[i] != digests[j];
        DistinctPositions(inputs[i].role, inputs[j].role);
        assert Position(m.layers[i].role) <= Position(m.layers[j].role);
      }
    }
  }

  /** The store answers the three kinds of fetches with what was built. */
  lemma ServedBlobs(w: World, repository: string, inputs: seq<LayerInput>, bytes: Bytes, served: World)
    requires served == Serving(w, LayerBlobs(repository, inputs, w.hash)[(repository, w.hash(bytes)) := bytes])
    ensures served.fetch(repository, w.hash(bytes)) == Some(bytes)
    ensures (w.hash(EMPTY_CONFIG) != w.hash(bytes)
             && forall j :: 0 <= j < |inputs| ==> w.hash(inputs[j].payload) != w.hash(EMPTY_CONFIG)) ==>
      served.fetch(repository, w.hash(EMPTY_CONFIG)) == Some(EMPTY_CONFIG)
    ensures (forall i, j :: 0 <= i < j < |inputs| ==> w.hash(inputs[i].payload) != w.hash(inputs[j].payload)) ==>
      forall i :: 0 <= i < |inputs| && w.hash(inputs[i].payload) != w.hash(bytes) ==>
        served.fetch(repository, w.hash(inputs[i].payload)) == Some(inputs[i].payload)
  {
    LayerBlobsAt(repository, inputs, w.hash, w.hash(EMPTY_CONFIG));
    forall i | 0 <= i < |inputs| && w.hash(inputs[i].payload) != w.hash(bytes)
        && forall i, j :: 0 <= i < j < |inputs| ==> w.hash(inputs[i].payload) != w.hash(inputs[j].payload)
      ensures served.fetch(repository, w.hash(inputs[i].payload)) == Some(inputs[i].payload)
    {
      LayerBlobsAt(repository, inputs, w.hash, w.hash(inputs[i].payload));
      assert LastWith(inputs, w.hash, w.hash(inputs[i].payload), i);
    }
  }

  /** The payload the reference at position `i` of a built manifest stands for. */
  function PayloadAt(bytes: Bytes, inputs: seq<LayerInput>, i: nat): Bytes
    requires i < |inputs| + 2
  {
    if i == 0 then bytes else if i == 1 then EMPTY_CONFIG else inputs[i - 2].payload
  }

  /** The built manifest as the first link of a chain. */
  function RootLink(w: World, q: Request, bytes: Bytes): Link {
    Link(Descriptor(MANIFEST_TYPE, w.hash(bytes), |bytes|), ManifestOf(w, q))
  }

  /** The media type of the reference at position `i` of a built manifest. */
  function KindAt(i: nat): string {
    if i == 0 then MANIFEST_TYPE else if i == 1 then CONFIG_TYPE else LAYER_TYPE
  }

  lemma BuiltRefAt(w: World, q: Request, bytes: Bytes, i: nat)
    requires i < |q.inputs| + 2
    ensures var refs := LinkRefs(RootLink(w, q, bytes));
      && |refs| == |q.inputs| + 2
      && refs[i].manifest == (i == 0) && refs[i].descriptor.mediaType == KindAt(i)
      && refs[i].descriptor.digest == w.hash(PayloadAt(bytes, q.inputs, i))
      && refs[i].descriptor.size == |PayloadAt(bytes, q.inputs, i)|
  {
    var link := RootLink(w, q, bytes);
    var refs := LinkRefs(link);
    assert refs[0] == Ref(link.descriptor, true);
    assert refs[1] == Ref(link.manifest.config, false);
    assert i >= 2 ==> refs[i] == Ref(link.manifest.layers[i - 2].blob, false);
  }

  lemma PayloadServed(w: World, q: Request, bytes: Bytes, i: nat)
    requires i < |q.inputs| + 2 && Buildable(w, bytes, q.artifactType, q.inputs)
    ensures var served := Serving(
        w, LayerBlobs(q.repository, q.inputs, w.hash)[(q.repository, w.hash(bytes)) := bytes]);
      served.fetch(q.repository, w.hash(PayloadAt(bytes, q.inputs, i))) == Some(PayloadAt(bytes, q.inputs, i))
    ensures forall j :: i < j < |q.inputs| + 2 ==>
      w.hash(PayloadAt(bytes, q.inputs, i)) != w.hash(PayloadAt(bytes, q.inputs, j))
  {
    var served := Serving(w, LayerBlobs(q.repository, q.inputs, w.hash)[(q.repository, w.hash(bytes)) := bytes]);
    ServedBlobs(w, q.repository, q.inputs, bytes, served);
    hide LayerBlobs, Position, Serving;
    assert i >= 2 ==> PayloadAt(bytes, q.inputs, i) == q.inputs[i - 2].payload;
  }

  /** The references of a built manifest, with what the store answers for each. */
  lemma BuiltRefs(w: World, serialize: Manifest -> Bytes, q: Request)
    requires Buildable(w, serialize(ManifestOf(w, q)), q.artifactType, q.inputs)
    ensures var built := BuiltFrom(w, serialize, q);
      var refs := LinkRefs(RootLink(w, q, built.manifestBytes));
      && (forall i :: 0 <= i < |refs| ==> Exact(Serving(w, built.blobs), q.repository, refs[i]))
      && (forall i, j :: 0 <= i < j < |refs| ==> refs[i].descriptor.digest != refs[j].descriptor.digest)
  {
    var built := BuiltFrom(w, serialize, q);
    var bytes := built.manifestBytes;
    var served := Serving(w, built.blobs);
    var refs := LinkRefs(RootLink(w, q, bytes));
    assert served.limits == w.limits && served.hash == w.hash;
    hide LayerBlobs, Position, LinkRefs, RootLink, ManifestOf, RootOf, Serving;
    BuiltRefAt(w, q, bytes, 0);
    forall i | 0 <= i < |refs|
      ensures Exact(served, q.repository, refs[i])
      ensures refs[i].descriptor.digest == w.hash(PayloadAt(bytes, q.inputs, i))
    {
      BuiltRefAt(w, q, bytes, i);
      PayloadServed(w, q, bytes, i);
      assert i >= 2 ==> |q.inputs[i - 2].payload| <= w.limits.maximumBlobBytes;
    }
    forall i, j | 0 <= i < j < |refs|
      ensures refs[i].descriptor.digest != refs[j].descriptor.digest
    {
      PayloadServed(w, q, bytes, i);
    }
  }

  lemma BuiltManifestOk(w: World, served: World, q: Request, manifestBytes: Bytes)
    requires Buildable(w, manifestBytes, q.artifactType, q.inputs)
    requires served == w.(fetch := served.fetch)
    requires served.fetch(q.repository, w.hash(EMPTY_CONFIG)) == Some(EMPTY_CONFIG)
    ensures ManifestOk(served, q.repository, ManifestOf(w, q), Some(q.artifactType))
      && LayersOk(served, ManifestOf(w, q))
  {
    BuildableLayersOk(w, served, q.artifactType, q.inputs, ManifestOf(w, q));
    hide LayersOk;
  }

  // ---------- a manifest on top of its subject chain ----------

  /**
   What a manifest needs from the store besides its own objects: the chain of its subject, none when it has
   no subject, consistent with the manifest's objects and together with them within the totals.
   */
  ghost predicate SubjectServed(w: World, repository: string, link: Link, rest: seq<Link>) {
    var records := RecordedAll(map[], LinkRefs(link) + ChainRefs(rest));
    && (match link.manifest.subject
        case None => rest == []
        case Some(subject) =>
          && subject.mediaType == MANIFEST_TYPE
          && IsChain(w, repository, subject, 1, {link.descriptor.digest}, None, rest))
    && Consistent(w, repository, records, ChainRefs(rest))
    && |records| <= w.limits.maximumObjects && SumSizes(records) <= w.limits.maximumTotalBytes
  }

  lemma RefsOfChain(link: Link, rest: seq<Link>)
    ensures ChainRefs([link] + rest) == LinkRefs(link) + ChainRefs(rest)
  {
    assert ([link] + rest)[1..] == rest;
  }

  lemma ConsistentConcat(w: World, repository: string, records: map<nat, Record>, a: seq<Ref>, b: seq<Ref>)
    ensures Consistent(w, repository, records, a + b) <==>
      Consistent(w, repository, records, a) && Consistent(w, repository, records, b)
  {
    hide Exact, RecordOf;
    if Consistent(w, repository, records, a + b) {
      assert forall i :: 0 <= i < |a| ==> a[i] == (a + b)[i];
      assert forall i :: 0 <= i < |b| ==> b[i] == (a + b)[|a| + i];
    }
  }

  /** A manifest whose own objects are stored exactly makes, with its subject chain, a good graph. */
  lemma GoodFromParts(w: World, root: RootDescriptor, link: Link, rest: seq<Link>)
    requires link.descriptor == Descriptor(root.mediaType, root.digest, root.size)
    requires Stored(w, root.repository, link.descriptor) == Some(link.manifest)
    requires ManifestOk(w, root.repository, link.manifest, Some(root.artifactType))
    requires RootMetadataOk(w, root, link.manifest)
    requires forall i :: 0 <= i < |LinkRefs(link)| ==> Exact(w, root.repository, LinkRefs(link)[i])
    requires forall i, j :: 0 <= i < j < |LinkRefs(link)| ==>
      LinkRefs(link)[i].descriptor.digest != LinkRefs(link)[j].descriptor.digest
    requires SubjectServed(w, root.repository, link, rest)
    ensures GoodGraph(w, root, [link] + rest)
  {
    hide ManifestOk, LinkRefs, Exact, RecordOf, Stored, RootMetadataOk;
    RefsOfChain(link, rest);
    SubjectMakesChain(w, root.repository, Some(root.artifactType), link, rest);
    var refs := LinkRefs(link);
    var records := RecordedAll(map[], refs + ChainRefs(rest));
    AllRecorded(refs, map[]);
    FetchConcat(w, root.repository, map[], refs, ChainRefs(rest));
    RecordsKept(RecordedAll(map[], refs), ChainRefs(rest));
    assert Consistent(w, root.repository, records, refs);
    ConsistentConcat(w, root.repository, records, refs, ChainRefs(rest));
    hide IsChain, RecordedAll, ChainRefs, Consistent;
    assert ([link] + rest)[0] == link;
  }

  lemma SubjectMakesChain(w: World, repository: string, expectedType: Option<string>, link: Link, rest: seq<Link>)
    requires Stored(w, repository, link.descriptor) == Some(link.manifest)
    requires ManifestOk(w, repository, link.manifest, expectedType)
    requires match link.manifest.subject
      case None => rest == []
      case Some(subject) =>
        && subject.mediaType == MANIFEST_TYPE
        && IsChain(w, repository, subject, 1, {link.descriptor.digest}, None, rest)
    ensures IsChain(w, repository, link.descriptor, 0, {}, expectedType, [link] + rest)
  {
    hide ManifestOk, Stored, IsChain, LinkOk;
    if link.manifest.subject.None? {
      ChainOfOne(w, repository, 0, {}, expectedType, link);
      assert [link] + rest == [link];
    } else {
      ChainStart(w, repository, link.manifest.subject.value, 1, {link.descriptor.digest}, None, rest);
      assert {} + {link.descriptor.digest} == {link.descriptor.digest};
      ChainCons(w, repository, 0, {}, expectedType, link, rest);
    }
  }

  /** Conversely, behind the first manifest of a good graph stands its subject chain. */
  lemma PartsOfGood(w: World, root: RootDescriptor, chain: seq<Link>)
    requires GoodGraph(w, root, chain)
    ensures chain != [] && SubjectServed(w, root.repository, chain[0], chain[1..])
  {
    hide ManifestOk, Stored, Exact, RecordOf, RootMetadataOk;
    ChainStart(
      w, root.repository, Descriptor(root.mediaType, root.digest, root.size), 0, {}, Some(root.artifactType), chain);
    var link, rest := chain[0], chain[1..];
    assert chain == [link] + rest;
    RefsOfChain(link, rest);
    ConsistentConcat(w, root.repository, RecordedAll(map[], ChainRefs(chain)), LinkRefs(link), ChainRefs(rest));
    if rest != [] {
      ChainTail(w, root.repository, 0, {}, Some(root.artifactType), link, rest);
      assert {} + {link.descriptor.digest} == {link.descriptor.digest};
    }
    hide IsChain, Consistent, RecordedAll, ChainRefs, LinkRefs;
  }

  /** References with pairwise distinct digests are all on record as they are. */
  lemma {:induction false} AllRecorded(refs: seq<Ref>, records: map<nat, Record>)
    requires forall i, j :: 0 <= i < j < |refs| ==> refs[i].descriptor.digest != refs[j].descriptor.digest
    requires forall i :: 0 <= i < |refs| ==> refs[i].descriptor.digest !in records
    ensures forall i :: 0 <= i < |refs| ==>
      refs[i].descriptor.digest in RecordedAll(records, refs)
      && RecordedAll(records, refs)[refs[i].descriptor.digest] == RecordOf(refs[i])
    decreases |refs|
  {
    if refs != [] {
      AllRecorded(refs[1..], Recorded(records, refs[0]));
      RecordsKept(Recorded(records, refs[0]), refs[1..]);
    }
  }

  // ---------- accepting what was built ----------

  lemma BuiltIsGood(w: World, serialize: Manifest -> Bytes, q: Request, rest: seq<Link>)
    requires w.parse(serialize(ManifestOf(w, q))) == Some(ManifestOf(w, q))
    requires Buildable(w, serialize(ManifestOf(w, q)), q.artifactType, q.inputs)
    requires var built := BuiltFrom(w, serialize, q);
      SubjectServed(Serving(w, built.blobs), q.repository, RootLink(w, q, built.manifestBytes), rest)
    ensures var built := BuiltFrom(w, serialize, q);
      GoodGraph(Serving(w, built.blobs), built.root, [RootLink(w, q, built.manifestBytes)] + rest)
  {
    var built := BuiltFrom(w, serialize, q);
    var served := Serving(w, built.blobs);
    hide Buildable, LayerBlobs, LayersOk, Position, ManifestOk, LinkRefs, Exact, GoodGraph, SubjectServed;
    PayloadServed(w, q, built.manifestBytes, 0);
    PayloadServed(w, q, built.manifestBytes, 1);
    BuiltManifestOk(w, served, q, built.manifestBytes);
    BuiltRefs(w, serialize, q);
    GoodFromParts(served, built.root, RootLink(w, q, built.manifestBytes), rest);
  }

  lemma KindsDiffer(i: nat, j: nat)
    requires i < 2 && i < j
    ensures KindAt(i) != KindAt(j)
  {
    assert |MANIFEST_TYPE| != |CONFIG_TYPE| && |MANIFEST_TYPE| != |LAYER_TYPE| && |CONFIG_TYPE| != |LAYER_TYPE|;
  }

  /** The object at position `i` is within its limit, and its digest is not that of an object of another kind. */
  lemma GoodRef(w: World, served: World, q: Request, bytes: Bytes, records: map<nat, Record>, i: nat)
    requires i < |q.inputs| + 2 && served == w.(fetch := served.fetch)
    requires Consistent(served, q.repository, records, LinkRefs(RootLink(w, q, bytes)))
    ensures |PayloadAt(bytes, q.inputs, i)|
      <= (if i == 0 then w.limits.maximumManifestBytes else w.limits.maximumBlobBytes)
    ensures forall k :: 0 <= k < i && k < 2 ==>
      w.hash(PayloadAt(bytes, q.inputs, k)) != w.hash(PayloadAt(bytes, q.inputs, i))
  {
    hide RootLink, LinkRefs, PayloadAt, KindAt;
    BuiltRefAt(w, q, bytes, i);
    forall k | 0 <= k < i && k < 2
      ensures w.hash(PayloadAt(bytes, q.inputs, k)) != w.hash(PayloadAt(bytes, q.inputs, i))
    {
      BuiltRefAt(w, q, bytes, k);
      KindsDiffer(k, i);
    }
  }

  lemma FirstLinkConsistent(w: World, root: RootDescriptor, chain: seq<Link>)
    requires GoodGraph(w, root, chain)
    ensures chain != [] && chain[0].descriptor == Descriptor(root.mediaType, root.digest, root.size)
    ensures Stored(w, root.repository, chain[0].descriptor) == Some(chain[0].manifest)
    ensures ManifestOk(w, root.repository, chain[0].manifest, Some(root.artifactType))
    ensures Consistent(w, root.repository, RecordedAll(map[], ChainRefs(chain)), LinkRefs(chain[0]))
  {
    hide ManifestOk, Stored, Exact;
    ChainStart(
      w, root.repository, Descriptor(root.mediaType, root.digest, root.size), 0, {}, Some(root.artifactType), chain);
    ConsistentConcat(
      w, root.repository, RecordedAll(map[], ChainRefs(chain)), LinkRefs(chain[0]), ChainRefs(chain[1..]));
  }

  lemma GoodIsBuildable(w: World, serialize: Manifest -> Bytes, q: Request, chain: seq<Link>)
    requires w.parse(serialize(ManifestOf(w, q))) == Some(ManifestOf(w, q))
    requires var built := BuiltFrom(w, serialize, q); GoodGraph(Serving(w, built.blobs), built.root, chain)
    ensures Buildable(w, serialize(ManifestOf(w, q)), q.artifactType, q.inputs)
    ensures chain != [] && chain[0] == RootLink(w, q, serialize(ManifestOf(w, q)))
  {
    var built := BuiltFrom(w, serialize, q);
    var served, bytes := Serving(w, built.blobs), built.manifestBytes;
    hide LayerBlobs, Position;
    ServedBlobs(w, q.repository, q.inputs, bytes, served);
    FirstLinkConsistent(served, built.root, chain);
    assert chain[0] == RootLink(w, q, bytes);
    BuildableLayersOk(w, served, q.artifactType, q.inputs, ManifestOf(w, q));
    hide GoodGraph, Exact, LinkRefs;
    forall i | 0 <= i < |q.inputs| + 2
      ensures |PayloadAt(bytes, q.inputs, i)|
        <= (if i == 0 then w.limits.maximumManifestBytes else w.limits.maximumBlobBytes)
      ensures forall k :: 0 <= k < i && k < 2 ==>
        w.hash(PayloadAt(bytes, q.inputs, k)) != w.hash(PayloadAt(bytes, q.inputs, i))
    {
      GoodRef(w, served, q, bytes, RecordedAll(map[], ChainRefs(chain)), i);
    }
    hide ManifestOk, RecordedAll, ChainRefs, LayersOk;
    assert PayloadAt(bytes, q.inputs, 0) == bytes && PayloadAt(bytes, q.inputs, 1) == EMPTY_CONFIG;
    assert forall i :: 0 <= i < |q.inputs| ==> PayloadAt(bytes, q.inputs, i + 2) == q.inputs[i].payload;
  }

  /**
   Whether what was built verifies, with or without a subject: its own part is decided by the arguments and the
   manifest bytes, and the rest is that the store holds the subject's chain within the totals.
   */
  lemma BuiltIsAcceptedExactly(w: World, serialize: Manifest -> Bytes, q: Request)
    requires w.parse(serialize(ManifestOf(w, q))) == Some(ManifestOf(w, q))
    ensures var built := BuiltFrom(w, serialize, q);
      var served := Serving(w, built.blobs);
      Accepted(served, built.root, q.repository, q.artifactType) <==>
        && Buildable(w, built.manifestBytes, q.artifactType, q.inputs)
        && exists rest :: SubjectServed(served, q.repository, RootLink(w, q, built.manifestBytes), rest)
  {
    hide Buildable, SubjectServed, GoodGraph, Accepted, LayerBlobs, LayersOf;
    var built := BuiltFrom(w, serialize, q);
    var served := Serving(w, built.blobs);
    AcceptedExact(served, built.root, q.repository, q.artifactType);
    if Buildable(w, built.manifestBytes, q.artifactType, q.inputs) {
      if rest :| SubjectServed(served, q.repository, RootLink(w, q, built.manifestBytes), rest) {
        BuiltIsGood(w, serialize, q, rest);
      }
    }
    if chain :| GoodGraph(served, built.root, chain) {
      GoodIsBuildable(w, serialize, q, chain);
      PartsOfGood(served, built.root, chain);
    }
  }

  lemma NoSubjectIsServed(w: World, repository: string, link: Link)
    requires link.manifest.subject.None?
    requires |RecordedAll(map[], LinkRefs(link))| <= w.limits.maximumObjects
    requires SumSizes(RecordedAll(map[], LinkRefs(link))) <= w.limits.maximumTotalBytes
    ensures SubjectServed(w, repository, link, [])
  {
    hide RecordedAll, LinkRefs, SumSizes;
    assert LinkRefs(link) + ChainRefs([]) == LinkRefs(link);
  }

  /** Without a subject the default total limits can never be the cause of rejection. */
  lemma WithoutSubjectTotalsNeverMatter(w: World, serialize: Manifest -> Bytes, q: Request)
    requires w.limits == Limits(32, 10_000, 4_194_304, 67_108_864, 1_073_741_824) && q.subject.None?
    requires w.parse(serialize(ManifestOf(w, q))) == Some(ManifestOf(w, q))
    ensures var built := BuiltFrom(w, serialize, q);
      Accepted(Serving(w, built.blobs), built.root, q.repository, q.artifactType) <==>
        Buildable(w, built.manifestBytes, q.artifactType, q.inputs)
  {
    var built := BuiltFrom(w, serialize, q);
    var served, link := Serving(w, built.blobs), RootLink(w, q, built.manifestBytes);
    BuiltIsAcceptedExactly(w, serialize, q);
    assert link.manifest.subject.None?;
    hide Accepted, Buildable, LayerBlobs, ManifestOk, LayersOk, LinkRefs, Exact, ManifestOf, SubjectServed;
    if Buildable(w, built.manifestBytes, q.artifactType, q.inputs) {
      PayloadServed(w, q, built.manifestBytes, 1);
      BuiltManifestOk(w, served, q, built.manifestBytes);
      BuiltRefs(w, serialize, q);
      SingleManifestFitsTotals(served, q.repository, link);
      NoSubjectIsServed(served, q.repository, link);
    }
  }

  /** The verified chain is the built manifest on its subject's chain, so the report returns the layers in order. */
  lemma BuiltIsReported(w: World, serialize: Manifest -> Bytes, q: Request, rest: seq<Link>)
    requires w.parse(serialize(ManifestOf(w, q))) == Some(ManifestOf(w, q))
    requires Buildable(w, serialize(ManifestOf(w, q)), q.artifactType, q.inputs)
    requires var built := BuiltFrom(w, serialize, q);
      SubjectServed(Serving(w, built.blobs), q.repository, RootLink(w, q, built.manifestBytes), rest)
    ensures var built := BuiltFrom(w, serialize, q);
      var chain := RootChain(Serving(w, built.blobs), built.root);
      && chain == Some([RootLink(w, q, built.manifestBytes)] + rest)
      && chain.value[0].manifest.layers == LayersOf(q.inputs, w.hash)
  {
    var built := BuiltFrom(w, serialize, q);
    var served := Serving(w, built.blobs);
    var chain := [RootLink(w, q, built.manifestBytes)] + rest;
    BuiltIsGood(w, serialize, q, rest);
    GoodIsFollowed(served, built.root, chain);
    hide Buildable, LayerBlobs, Follow, SubjectServed, GoodGraph;
    assert chain[0] == RootLink(w, q, built.manifestBytes);
  }

  lemma GoodIsFollowed(w: World, root: RootDescriptor, chain: seq<Link>)
    requires GoodGraph(w, root, chain)
    ensures RootChain(w, root) == Some(chain)
  {
    FirstRef(chain);
    assert |RecordedAll(map[], ChainRefs(chain))| > 0;
    hide IsChain, Follow;
    ChainIsFollowed(
      w, root.repository, Descriptor(root.mediaType, root.digest, root.size), 0, {}, Some(root.artifactType), chain);
  }
}
