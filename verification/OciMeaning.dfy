/** What the OCI verifier accepts and what the builder returns, said member by member. */
module OciMeaning {
  import opened Foundation
  import opened OciGraph
  import opened OciGraphLaws
  import opened OciBuilder

  // ---------- one manifest ----------

  const ROLES: seq<string> := [
    "portable-definition", "public-skills", "public-render", "private-customization", "approved-private-skills",
    "effective-private-render", "evidence"]

  /** Layers of registered roles, at rising places of the fixed list, no digest twice. */
  ghost predicate LayersStand(w: World, m: Manifest) {
    && m.layers != [] && m.artifactType in w.layerRoles
    && (forall i :: 0 <= i < |m.layers| ==>
          && m.layers[i].blob.mediaType == "application/vnd.oci.image.layer.v1.tar+gzip"
          && m.layers[i].role in w.layerRoles[m.artifactType])
    && (exists places :: RisesAt(ROLES, Roles(m.layers), places))
    && forall i, j :: 0 <= i < j < |m.layers| ==> m.layers[i].blob.digest != m.layers[j].blob.digest
  }

  /** The two bytes "{}" are the only config. */
  ghost predicate ConfigStands(w: World, repository: string, m: Manifest) {
    && m.config.mediaType == "application/vnd.oci.empty.v1+json" && m.config.digest == w.hash([0x7B, 0x7D])
    && m.config.size == 2 && w.fetch(repository, m.config.digest) == Some([0x7B, 0x7D])
  }

  ghost predicate ManifestStands(w: World, repository: string, m: Manifest) {
    && m.schemaVersion == 2 && m.mediaType == "application/vnd.oci.image.manifest.v1+json" && m.artifactType in w.types
    && ConfigStands(w, repository, m) && LayersStand(w, m)
  }

  lemma RolePlaces(role: string)
    ensures role in ROLES <==> role in ROLE_ORDER
    ensures forall k: nat :: k < |ROLES| ==> (ROLES[k] == role <==> role in ROLES && Position(role) == k)
  {
    assert |"portable-definition"| == 19 && |"public-skills"| == 13 && |"public-render"| == 13;
    assert |"private-customization"| == 21 && |"approved-private-skills"| == 23;
    assert |"effective-private-render"| == 24 && |"evidence"| == 8;
    assert "public-skills"[7] != "public-render"[7];
  }

  function Positions(layers: seq<Layer>): (places: seq<nat>)
    ensures |places| == |layers| && forall i :: 0 <= i < |layers| ==> places[i] == Position(layers[i].role)
  {
    seq(|layers|, i requires 0 <= i < |layers| => Position(layers[i].role))
  }

  /** The verifier's three conditions on the roles of a manifest. */
  ghost predicate Ranked(layers: seq<Layer>) {
    && (forall i :: 0 <= i < |layers| ==> layers[i].role in ROLE_ORDER)
    && NoRepeats(Roles(layers)) && InRoleOrder(layers)
  }

  /** Distinct roles in the verifier's order are roles at rising places. */
  lemma RolesRise(layers: seq<Layer>)
    ensures Ranked(layers) <==> exists places :: RisesAt(ROLES, Roles(layers), places)
  {
    hide Position;
    forall i | 0 <= i < |layers|
      ensures layers[i].role in ROLES <==> layers[i].role in ROLE_ORDER
      ensures forall k: nat :: k < |ROLES| ==>
        (ROLES[k] == layers[i].role <==> layers[i].role in ROLES && Position(layers[i].role) == k)
    {
      RolePlaces(layers[i].role);
    }
    if Ranked(layers) {
      var places := Positions(layers);
      forall i, j | 0 <= i < j < |layers|
        ensures places[i] < places[j]
      {
        assert Roles(layers)[i] != Roles(layers)[j];
        var k :| 0 <= k < |ROLES| && ROLES[k] == layers[i].role;
      }
      assert RisesAt(ROLES, Roles(layers), places);
    }
    if places :| RisesAt(ROLES, Roles(layers), places) {
      forall i | 0 <= i < |layers|
        ensures layers[i].role in ROLES && Position(layers[i].role) == places[i]
      {
        assert ROLES[places[i]] == Roles(layers)[i];
      }
      forall i, j | 0 <= i < j < |layers|
        ensures Roles(layers)[i] != Roles(layers)[j] && Position(layers[i].role) <= Position(layers[j].role)
      {
        assert places[i] < places[j];
      }
    }
  }

  lemma LayersMean(w: World, m: Manifest)
    ensures LayersOk(w, m) <==> LayersStand(w, m)
  {
    hide RisesAt, InRoleOrder, NoRepeats;
    RolesRise(m.layers);
    DigestsDiffer(m.layers);
    if LayersOk(w, m) {
      forall i | 0 <= i < |m.layers|
        ensures m.layers[i].blob.mediaType == "application/vnd.oci.image.layer.v1.tar+gzip"
        ensures m.layers[i].role in w.layerRoles[m.artifactType] && m.layers[i].role in ROLE_ORDER
      {
        assert LayerOk(w, m, i);
      }
      assert Ranked(m.layers);
    }
    if LayersStand(w, m) {
      assert Ranked(m.layers);
      forall i | 0 <= i < |m.layers|
        ensures LayerOk(w, m, i)
      {
      }
    }
  }

  lemma DigestsDiffer(layers: seq<Layer>)
    ensures NoRepeats(Digests(layers)) <==>
      forall i, j :: 0 <= i < j < |layers| ==> layers[i].blob.digest != layers[j].blob.digest
  {
    forall i, j | 0 <= i < j < |layers|
      ensures Digests(layers)[i] != Digests(layers)[j] <==> layers[i].blob.digest != layers[j].blob.digest
    {
    }
  }

  lemma ManifestMeans(w: World, repository: string, m: Manifest, expectedType: Option<string>)
    ensures ManifestOk(w, repository, m, expectedType) <==>
      ManifestStands(w, repository, m) && (expectedType.Some? ==> m.artifactType == expectedType.value)
  {
    LayersMean(w, m);
    hide LayersOk, LayersStand;
  }

  // ---------- the whole graph ----------

  /** The stored bytes of an object are the ones its descriptor names, within the limit of its use. */
  ghost predicate Held(w: World, repository: string, d: Descriptor, limit: nat) {
    var payload := w.fetch(repository, d.digest);
    payload.Some? && w.hash(payload.value) == d.digest && |payload.value| == d.size && |payload.value| <= limit
  }

  ghost predicate ObjectsHeld(w: World, repository: string, link: Link) {
    && Held(w, repository, link.descriptor, w.limits.maximumManifestBytes)
    && Held(w, repository, link.manifest.config, w.limits.maximumBlobBytes)
    && forall i :: 0 <= i < |link.manifest.layers| ==>
         Held(w, repository, link.manifest.layers[i].blob, w.limits.maximumBlobBytes)
  }

  /** The descriptors of one manifest: its own, its config's and its layers'. */
  ghost predicate Mentions(link: Link, d: Descriptor) {
    d == link.descriptor || d == link.manifest.config
    || exists i :: 0 <= i < |link.manifest.layers| && d == link.manifest.layers[i].blob
  }

  /** One media type and size for every digest that is mentioned, and no others. */
  ghost predicate Records(chain: seq<Link>, records: map<nat, Record>) {
    && (forall k, d :: 0 <= k < |chain| && Mentions(chain[k], d) ==>
          d.digest in records && records[d.digest] == Record(d.mediaType, d.size))
    && forall digest :: digest in records ==>
         exists k, d :: 0 <= k < |chain| && Mentions(chain[k], d) && d.digest == digest
  }

  /** Each manifest is stored, well formed, and names the next one as its subject; the last names none. */
  ghost predicate LinkStands(w: World, repository: string, chain: seq<Link>, k: nat)
    requires k < |chain|
  {
    var m := chain[k].manifest;
    && w.fetch(repository, chain[k].descriptor.digest).Some?
    && w.parse(w.fetch(repository, chain[k].descriptor.digest).value) == Some(m)
    && ManifestStands(w, repository, m) && ObjectsHeld(w, repository, chain[k])
    && (k == |chain| - 1 ==> m.subject.None?)
    && (k < |chain| - 1 ==>
          && m.subject == Some(chain[k + 1].descriptor)
          && chain[k + 1].descriptor.mediaType == "application/vnd.oci.image.manifest.v1+json")
  }

  /** The root descriptor states the subject and the annotations of the root manifest. */
  ghost predicate RootStands(w: World, root: RootDescriptor, first: Link) {
    && first.descriptor == Descriptor(root.mediaType, root.digest, root.size)
    && first.manifest.artifactType == root.artifactType
    && (root.subjectDigest.None? <==> first.manifest.subject.None?)
    && (root.subjectDigest.Some? ==> root.subjectDigest.value == first.manifest.subject.value.digest)
    && (root.annotationsDigest.None? <==> first.manifest.annotations.None?)
    && (root.annotationsDigest.Some? ==>
          root.annotationsDigest.value == w.annotationsDigest(first.manifest.annotations.value))
  }

  ghost predicate GraphStands(w: World, root: RootDescriptor, chain: seq<Link>) {
    && chain != [] && |chain| <= w.limits.maximumDepth + 1 && RootStands(w, root, chain[0])
    && (forall k :: 0 <= k < |chain| ==> LinkStands(w, root.repository, chain, k))
    && (forall k, l :: 0 <= k < l < |chain| ==> chain[k].descriptor.digest != chain[l].descriptor.digest)
    && exists records ::
         Records(chain, records) && |records| <= w.limits.maximumObjects
         && SumSizes(records) <= w.limits.maximumTotalBytes
  }

  /** The references of one link are its mentions, each with the limit of its use. */
  lemma LinkRefsMean(w: World, repository: string, link: Link)
    ensures (forall ref :: ref in LinkRefs(link) ==> Exact(w, repository, ref)) <==> ObjectsHeld(w, repository, link)
    ensures forall ref :: ref in LinkRefs(link) ==> Mentions(link, ref.descriptor)
  {
    var refs := LinkRefs(link);
    assert Ref(link.descriptor, true) == refs[0] && Ref(link.manifest.config, false) == refs[1];
    forall i | 0 <= i < |link.manifest.layers|
      ensures Ref(link.manifest.layers[i].blob, false) in refs
    {
      assert refs[i + 2] == Ref(link.manifest.layers[i].blob, false);
    }
    forall ref | ref in refs
      ensures ref == Ref(link.descriptor, true) || ref == Ref(link.manifest.config, false)
        || exists i :: 0 <= i < |link.manifest.layers| && ref == Ref(link.manifest.layers[i].blob, false)
    {
      var k :| 0 <= k < |refs| && refs[k] == ref;
      assert k >= 2 ==> ref == Ref(link.manifest.layers[k - 2].blob, false);
    }
    hide LinkRefs;
    HeldIsExact(w, repository, link.descriptor, true);
    HeldIsExact(w, repository, link.manifest.config, false);
    forall i | 0 <= i < |link.manifest.layers|
      ensures Exact(w, repository, Ref(link.manifest.layers[i].blob, false)) <==>
        Held(w, repository, link.manifest.layers[i].blob, w.limits.maximumBlobBytes)
    {
      HeldIsExact(w, repository, link.manifest.layers[i].blob, false);
    }
  }

  lemma HeldIsExact(w: World, repository: string, d: Descriptor, manifest: bool)
    ensures Exact(w, repository, Ref(d, manifest)) <==>
      Held(w, repository, d, if manifest then w.limits.maximumManifestBytes else w.limits.maximumBlobBytes)
  {
  }

  lemma MentionIsRef(link: Link, d: Descriptor) returns (ref: Ref)
    requires Mentions(link, d)
    ensures ref in LinkRefs(link) && ref.descriptor == d
  {
    var refs := LinkRefs(link);
    if d == link.descriptor {
      ref := refs[0];
    } else if d == link.manifest.config {
      ref := refs[1];
    } else {
      var i :| 0 <= i < |link.manifest.layers| && d == link.manifest.layers[i].blob;
      ref := refs[i + 2];
    }
  }

  lemma {:induction false} ChainRefsMean(chain: seq<Link>, ref: Ref)
    ensures ref in ChainRefs(chain) <==> exists k :: 0 <= k < |chain| && ref in LinkRefs(chain[k])
    decreases |chain|
  {
    if chain != [] {
      hide LinkRefs;
      ChainRefsMean(chain[1..], ref);
      assert chain == [chain[0]] + chain[1..];
      assert forall k :: 1 <= k < |chain| ==> chain[k] == chain[1..][k - 1];
    }
  }

  /** What is on record was on record before or is one of the references. */
  lemma {:induction false} RecordedFrom(records: map<nat, Record>, refs: seq<Ref>, digest: nat)
    requires digest in RecordedAll(records, refs)
    ensures (digest in records && RecordedAll(records, refs)[digest] == records[digest])
      || exists ref ::
           ref in refs && ref.descriptor.digest == digest && RecordedAll(records, refs)[digest] == RecordOf(ref)
    decreases |refs|
  {
    if refs != [] {
      RecordedFrom(Recorded(records, refs[0]), refs[1..], digest);
      assert refs == [refs[0]] + refs[1..];
    }
  }

  /** All objects of the chain are held and one record fits every mention. */
  ghost predicate Agreeing(w: World, repository: string, chain: seq<Link>, records: map<nat, Record>) {
    (forall k :: 0 <= k < |chain| ==> ObjectsHeld(w, repository, chain[k])) && Records(chain, records)
  }

  lemma ConsistentMeans(w: World, repository: string, chain: seq<Link>)
    ensures var records := RecordedAll(map[], ChainRefs(chain));
      && (Consistent(w, repository, records, ChainRefs(chain)) ==> Agreeing(w, repository, chain, records))
      && forall other :: Agreeing(w, repository, chain, other) ==>
           other == records && Consistent(w, repository, records, ChainRefs(chain))
  {
    var refs := ChainRefs(chain);
    var records := RecordedAll(map[], refs);
    if Consistent(w, repository, records, refs) {
      ConsistentAgrees(w, repository, chain);
    }
    forall other | Agreeing(w, repository, chain, other)
      ensures other == records && Consistent(w, repository, records, refs)
    {
      AgreeingIsRecorded(w, repository, chain, other);
    }
  }

  lemma ConsistentAgrees(w: World, repository: string, chain: seq<Link>)
    requires Consistent(w, repository, RecordedAll(map[], ChainRefs(chain)), ChainRefs(chain))
    ensures Agreeing(w, repository, chain, RecordedAll(map[], ChainRefs(chain)))
  {
    hide LinkRefs, ChainRefs, RecordedAll, Mentions, Exact, ObjectsHeld;
    var refs := ChainRefs(chain);
    var records := RecordedAll(map[], refs);
    forall k | 0 <= k < |chain|
      ensures ObjectsHeld(w, repository, chain[k])
    {
      forall ref | ref in LinkRefs(chain[k])
        ensures Exact(w, repository, ref)
      {
        ChainRefsMean(chain, ref);
      }
      LinkRefsMean(w, repository, chain[k]);
    }
    forall k, d | 0 <= k < |chain| && Mentions(chain[k], d)
      ensures d.digest in records && records[d.digest] == Record(d.mediaType, d.size)
    {
      var ref := MentionIsRef(chain[k], d);
      ChainRefsMean(chain, ref);
      var i :| 0 <= i < |refs| && refs[i] == ref;
    }
    forall digest | digest in records
      ensures exists k, d :: 0 <= k < |chain| && Mentions(chain[k], d) && d.digest == digest
    {
      RecordedFrom(map[], refs, digest);
      var ref :| ref in refs && ref.descriptor.digest == digest;
      RefIsMention(w, repository, chain, ref);
    }
  }

  lemma RefIsMention(w: World, repository: string, chain: seq<Link>, ref: Ref)
    requires ref in ChainRefs(chain)
    ensures exists k :: 0 <= k < |chain| && Mentions(chain[k], ref.descriptor)
  {
    ChainRefsMean(chain, ref);
    var k :| 0 <= k < |chain| && ref in LinkRefs(chain[k]);
    LinkRefsMean(w, repository, chain[k]);
  }

  lemma AgreeingIsRecorded(w: World, repository: string, chain: seq<Link>, other: map<nat, Record>)
    requires Agreeing(w, repository, chain, other)
    ensures other == RecordedAll(map[], ChainRefs(chain))
    ensures Consistent(w, repository, other, ChainRefs(chain))
  {
    hide LinkRefs, ChainRefs, RecordedAll, Mentions, Exact, ObjectsHeld;
    var refs := ChainRefs(chain);
    var records := RecordedAll(map[], refs);
    forall ref | ref in refs
      ensures Exact(w, repository, ref)
      ensures ref.descriptor.digest in other && other[ref.descriptor.digest] == RecordOf(ref)
    {
      ChainRefsMean(chain, ref);
      var k :| 0 <= k < |chain| && ref in LinkRefs(chain[k]);
      LinkRefsMean(w, repository, chain[k]);
    }
    RecordsKept(map[], refs);
    forall digest | digest in records
      ensures digest in other && records[digest] == other[digest]
    {
      RecordedFrom(map[], refs, digest);
    }
    forall digest | digest in other
      ensures digest in records
    {
      var k, d :| 0 <= k < |chain| && Mentions(chain[k], d) && d.digest == digest;
      var ref := MentionIsRef(chain[k], d);
      ChainRefsMean(chain, ref);
      var i :| 0 <= i < |refs| && refs[i] == ref;
      assert refs[i].descriptor.digest in Named(refs);
    }
  }

  lemma RootMeans(w: World, root: RootDescriptor, first: Link)
    ensures RootStands(w, root, first) <==>
      && first.descriptor == Descriptor(root.mediaType, root.digest, root.size)
      && first.manifest.artifactType == root.artifactType && RootMetadataOk(w, root, first.manifest)
  {
  }

  lemma LinksMean(w: World, root: RootDescriptor, chain: seq<Link>, k: nat)
    requires k < |chain| && chain[0].manifest.artifactType == root.artifactType
    ensures
      LinkOk(w, root.repository, {}, Some(root.artifactType), chain, k) && ObjectsHeld(w, root.repository, chain[k])
      <==> LinkStands(w, root.repository, chain, k)
  {
    ManifestMeans(
      w, root.repository, chain[k].manifest, if k == 0 then Some(root.artifactType) else None);
    hide ManifestOk, ManifestStands, ObjectsHeld;
  }

  lemma ChainMeans(w: World, root: RootDescriptor, chain: seq<Link>)
    requires chain != [] && chain[0].manifest.artifactType == root.artifactType
    requires forall k :: 0 <= k < |chain| ==> ObjectsHeld(w, root.repository, chain[k])
    ensures
      IsChain(
        w, root.repository, Descriptor(root.mediaType, root.digest, root.size), 0, {}, Some(root.artifactType), chain)
      <==>
      && |chain| <= w.limits.maximumDepth + 1
      && chain[0].descriptor == Descriptor(root.mediaType, root.digest, root.size)
      && (forall k :: 0 <= k < |chain| ==> LinkStands(w, root.repository, chain, k))
      && (forall k, l :: 0 <= k < l < |chain| ==> chain[k].descriptor.digest != chain[l].descriptor.digest)
  {
    forall k | 0 <= k < |chain|
      ensures LinkOk(w, root.repository, {}, Some(root.artifactType), chain, k) <==>
        LinkStands(w, root.repository, chain, k)
    {
      LinksMean(w, root, chain, k);
    }
    hide LinkOk, LinkStands, ObjectsHeld;
  }

  lemma GraphMeans(w: World, root: RootDescriptor, chain: seq<Link>)
    ensures GoodGraph(w, root, chain) <==> GraphStands(w, root, chain)
  {
    hide ManifestStands, ObjectsHeld, RecordedAll, ChainRefs, Records, Consistent, RootMetadataOk;
    ConsistentMeans(w, root.repository, chain);
    if chain != [] {
      RootMeans(w, root, chain[0]);
      hide RootStands;
    }
    if GoodGraph(w, root, chain) {
      assert Agreeing(w, root.repository, chain, RecordedAll(map[], ChainRefs(chain)));
      FirstTyped(w, root, chain);
      ChainMeans(w, root, chain);
    }
    if GraphStands(w, root, chain) {
      var records :| Records(chain, records) && |records| <= w.limits.maximumObjects
        && SumSizes(records) <= w.limits.maximumTotalBytes;
      forall k | 0 <= k < |chain|
        ensures ObjectsHeld(w, root.repository, chain[k])
      {
        assert LinkStands(w, root.repository, chain, k);
      }
      assert Agreeing(w, root.repository, chain, records);
      ChainMeans(w, root, chain);
    }
  }

  lemma FirstTyped(w: World, root: RootDescriptor, chain: seq<Link>)
    requires GoodGraph(w, root, chain)
    ensures chain != [] && chain[0].manifest.artifactType == root.artifactType
  {
    assert LinkOk(w, root.repository, {}, Some(root.artifactType), chain, 0);
  }

  /** `verify` accepts exactly the graphs that stand, described without any of its own functions. */
  lemma AcceptedMeans(w: World, root: RootDescriptor, repository: string, artifactType: string)
    ensures Accepted(w, root, repository, artifactType) <==>
      && root.repository == repository && root.artifactType == artifactType
      && root.mediaType == "application/vnd.oci.image.manifest.v1+json"
      && exists chain :: GraphStands(w, root, chain)
  {
    hide GoodGraph, GraphStands;
    AcceptedExact(w, root, repository, artifactType);
    forall chain
      ensures GoodGraph(w, root, chain) <==> GraphStands(w, root, chain)
    {
      GraphMeans(w, root, chain);
    }
  }

  /** An edge leads from a manifest to its config, to one of its layers or to its subject. */
  ghost predicate Leads(link: Link, e: Edge) {
    && e.from == link.descriptor.digest
    && (|| (e.kind == "config" && e.index == 0 && e.to == link.manifest.config.digest && e.role == "empty-config")
        || (e.kind == "layer" && e.index < |link.manifest.layers|
            && e.to == link.manifest.layers[e.index].blob.digest && e.role == link.manifest.layers[e.index].role)
        || (e.kind == "subject" && e.index == 0 && link.manifest.subject.Some?
            && e.to == link.manifest.subject.value.digest && e.role == "same-repository-subject"))
  }

  lemma LinkEdgesMean(link: Link, e: Edge)
    ensures e in LinkEdges(link) <==> Leads(link, e)
  {
    var layers := LayerEdges(link);
    assert e in LinkEdges(link) <==> e == ObjectEdges(link)[0] || e in layers || e in SubjectEdges(link);
    if Leads(link, e) && e.kind == "layer" {
      assert layers[e.index] == e;
    }
    if Leads(link, e) && e.kind == "subject" {
      assert SubjectEdges(link)[0] == e;
    }
  }

  /** The reported edges are those of the visited manifests. */
  lemma {:induction false} EdgesMean(chain: seq<Link>, e: Edge)
    ensures e in ChainEdges(chain) <==> exists k :: 0 <= k < |chain| && Leads(chain[k], e)
    decreases |chain|
  {
    hide LinkEdges, Leads;
    if chain != [] {
      EdgesMean(chain[1..], e);
      LinkEdgesMean(chain[0], e);
      assert forall k :: 1 <= k < |chain| ==> chain[k] == chain[1..][k - 1];
    }
  }

  /** The reported manifests are those of the chain, each under the digest it was fetched by. */
  lemma {:induction false} ObjectsMean(chain: seq<Link>)
    requires forall k, l :: 0 <= k < l < |chain| ==> chain[k].descriptor.digest != chain[l].descriptor.digest
    ensures forall digest ::
      digest in ChainObjects(chain) <==> exists k :: 0 <= k < |chain| && chain[k].descriptor.digest == digest
    ensures forall k :: 0 <= k < |chain| ==> ChainObjects(chain)[chain[k].descriptor.digest] == chain[k].manifest
    decreases |chain|
  {
    if chain != [] {
      ObjectsMean(chain[1..]);
      assert forall k :: 1 <= k < |chain| ==> chain[k] == chain[1..][k - 1];
    }
  }

  /** What is reported of an accepted root: the manifests and edges of its standing chain, nothing else. */
  lemma ReportMeans(w: World, root: RootDescriptor, repository: string, artifactType: string)
    requires Accepted(w, root, repository, artifactType)
    ensures var chain := RootChain(w, root).value;
      && GraphStands(w, root, chain) && Records(chain, RecordedAll(map[], ChainRefs(chain)))
      && (forall digest ::
            digest in ChainObjects(chain) <==> exists k :: 0 <= k < |chain| && chain[k].descriptor.digest == digest)
      && (forall k :: 0 <= k < |chain| ==> ChainObjects(chain)[chain[k].descriptor.digest] == chain[k].manifest)
      && forall e :: e in ChainEdges(chain) <==> exists k :: 0 <= k < |chain| && Leads(chain[k], e)
  {
    hide ManifestStands, ObjectsHeld, RecordedAll, ChainRefs, Records, Consistent, RootMetadataOk, RootStands,
      LinkStands, ChainEdges, ChainObjects, Leads, RootChain, IsChain;
    RootChainIsGood(w, root, repository, artifactType);
    var chain := RootChain(w, root).value;
    GraphMeans(w, root, chain);
    ConsistentMeans(w, root.repository, chain);
    ObjectsMean(chain);
    forall e
      ensures e in ChainEdges(chain) <==> exists k :: 0 <= k < |chain| && Leads(chain[k], e)
    {
      EdgesMean(chain, e);
    }
  }

  // ---------- what is built ----------

  /** Every layer in its place: the gzip tar type, the hash and length of its payload, its role. */
  ghost predicate LayersDescribe(w: World, q: Request, m: Manifest) {
    && |m.layers| == |q.inputs|
    && forall i :: 0 <= i < |q.inputs| ==>
         && m.layers[i].role == q.inputs[i].role
         && m.layers[i].blob.mediaType == "application/vnd.oci.image.layer.v1.tar+gzip"
         && m.layers[i].blob.digest == w.hash(q.inputs[i].payload)
         && m.layers[i].blob.size == |q.inputs[i].payload|
  }

  ghost predicate ManifestDescribes(w: World, q: Request, m: Manifest) {
    && m.schemaVersion == 2 && m.mediaType == "application/vnd.oci.image.manifest.v1+json"
    && m.artifactType == q.artifactType && m.subject == q.subject && m.annotations == q.annotations
    && m.config == Descriptor("application/vnd.oci.empty.v1+json", w.hash([0x7B, 0x7D]), 2) && LayersDescribe(w, q, m)
  }

  ghost predicate RootDescribes(w: World, q: Request, built: Built) {
    && built.root.repository == q.repository && built.root.artifactType == q.artifactType
    && built.root.mediaType == "application/vnd.oci.image.manifest.v1+json"
    && built.root.digest == w.hash(built.manifestBytes) && built.root.size == |built.manifestBytes|
    && (q.subject.None? <==> built.root.subjectDigest.None?)
    && (q.subject.Some? ==> built.root.subjectDigest == Some(q.subject.value.digest))
    && (q.annotations.None? <==> built.root.annotationsDigest.None?)
    && (q.annotations.Some? ==> built.root.annotationsDigest == Some(w.annotationsDigest(q.annotations.value)))
  }

  /** The payloads of a build: the config, the layers, the manifest. */
  ghost predicate IsPayload(q: Request, manifestBytes: Bytes, payload: Bytes) {
    || payload == [0x7B, 0x7D] || payload == manifestBytes
    || exists i :: 0 <= i < |q.inputs| && payload == q.inputs[i].payload
  }

  /** The blobs are those payloads, each under the repository and its hash. */
  ghost predicate BlobsHold(w: World, q: Request, built: Built) {
    && (forall key :: key in built.blobs ==>
          && key == (q.repository, w.hash(built.blobs[key])) && IsPayload(q, built.manifestBytes, built.blobs[key]))
    && forall payload :: IsPayload(q, built.manifestBytes, payload) ==> (q.repository, w.hash(payload)) in built.blobs
  }

  lemma {:induction false} LayerBlobsHold(repository: string, inputs: seq<LayerInput>, hash: Bytes -> nat)
    ensures var blobs := LayerBlobs(repository, inputs, hash);
      && (forall key :: key in blobs ==>
            && key == (repository, hash(blobs[key]))
            && (blobs[key] == EMPTY_CONFIG || exists i :: 0 <= i < |inputs| && blobs[key] == inputs[i].payload))
      && (repository, hash(EMPTY_CONFIG)) in blobs
      && forall i :: 0 <= i < |inputs| ==> (repository, hash(inputs[i].payload)) in blobs
    decreases |inputs|
  {
    if inputs != [] {
      var front := inputs[..|inputs| - 1];
      LayerBlobsHold(repository, front, hash);
      assert forall i :: 0 <= i < |front| ==> front[i] == inputs[i];
    }
  }

  /** What the builder returns, member by member. */
  lemma BuiltMeans(w: World, serialize: Manifest -> Bytes, q: Request)
    ensures var built := BuiltFrom(w, serialize, q);
      && (exists m :: ManifestDescribes(w, q, m) && built.manifestBytes == serialize(m))
      && RootDescribes(w, q, built) && BlobsHold(w, q, built)
  {
    var built := BuiltFrom(w, serialize, q);
    LayerBlobsHold(q.repository, q.inputs, w.hash);
    hide LayerBlobs;
    assert ManifestDescribes(w, q, ManifestOf(w, q));
  }
}
