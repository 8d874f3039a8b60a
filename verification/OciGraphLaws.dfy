/** What acceptance by the graph verifier means, and which built manifests it accepts. */
module OciGraphLaws {
  import opened Foundation
  import opened OciGraph

  // ---------- all fetches together ----------

  /** The digests a list of references names. */
  function Named(refs: seq<Ref>): set<nat> {
    set i | 0 <= i < |refs| :: refs[i].descriptor.digest
  }

  lemma {:induction false} RecordsKept(records: map<nat, Record>, refs: seq<Ref>)
    ensures records.Keys <= RecordedAll(records, refs).Keys
    ensures forall d :: d in records ==> RecordedAll(records, refs)[d] == records[d]
    ensures RecordedAll(records, refs).Keys == records.Keys + Named(refs)
    decreases |refs|
  {
    if refs != [] {
      RecordsKept(Recorded(records, refs[0]), refs[1..]);
      assert refs == [refs[0]] + refs[1..];
      NamedConcat(refs[0], refs[1..]);
    } else {
      assert Named(refs) == {};
    }
  }

  lemma NamedConcat(first: Ref, rest: seq<Ref>)
    ensures Named([first] + rest) == {first.descriptor.digest} + Named(rest)
  {
    var all := [first] + rest;
    forall d | d in Named(rest)
      ensures d in Named(all)
    {
      var i :| 0 <= i < |rest| && rest[i].descriptor.digest == d;
      assert all[i + 1].descriptor.digest == d;
    }
    assert all[0].descriptor.digest in Named(all);
  }

  ghost predicate NonNegative(records: map<nat, Record>) {
    forall d :: d in records ==> records[d].size >= 0
  }

  lemma {:induction false} RecordingGrows(w: World, repository: string, records: map<nat, Record>, refs: seq<Ref>)
    requires NonNegative(records) && forall i :: 0 <= i < |refs| ==> Exact(w, repository, refs[i])
    ensures SumSizes(RecordedAll(records, refs)) >= SumSizes(records)
    ensures |RecordedAll(records, refs)| >= |records|
    decreases |refs|
  {
    if refs != [] {
      if refs[0].descriptor.digest !in records {
        SumSizesInsert(records, refs[0].descriptor.digest, RecordOf(refs[0]));
      }
      assert Exact(w, repository, refs[0]);
      RecordingGrows(w, repository, Recorded(records, refs[0]), refs[1..]);
    }
  }

  /** Every reference is stored exactly and agrees with what is on record for its digest. */
  ghost predicate Consistent(w: World, repository: string, final: map<nat, Record>, refs: seq<Ref>) {
    forall i :: 0 <= i < |refs| ==>
      && Exact(w, repository, refs[i])
      && refs[i].descriptor.digest in final && final[refs[i].descriptor.digest] == RecordOf(refs[i])
  }

  /** The one-at-a-time fetches succeed exactly when the final records are consistent and within the limits. */
  lemma {:induction false} FetchAllExact(w: World, repository: string, records: map<nat, Record>, refs: seq<Ref>)
    requires NonNegative(records) && |records| <= w.limits.maximumObjects
      && SumSizes(records) <= w.limits.maximumTotalBytes
    ensures var final := RecordedAll(records, refs);
      CanFetchAll(w, repository, records, refs) <==>
        && Consistent(w, repository, final, refs)
        && |final| <= w.limits.maximumObjects && SumSizes(final) <= w.limits.maximumTotalBytes
    decreases |refs|
  {
    if refs != [] {
      hide Exact, RecordOf;
      var next := Recorded(records, refs[0]);
      var final := RecordedAll(records, refs);
      assert final == RecordedAll(next, refs[1..]);
      RecordsKept(next, refs[1..]);
      ConsistentCons(w, repository, final, refs);
      NextRecord(w, repository, records, refs[0]);
      if Exact(w, repository, refs[0]) && Consistent(w, repository, final, refs[1..]) {
        RecordingGrows(w, repository, next, refs[1..]);
      }
      if CanFetch(w, repository, records, refs[0]) {
        FetchAllExact(w, repository, next, refs[1..]);
      }
    }
  }

  /** What recording one object does to the number and the total size. */
  lemma NextRecord(w: World, repository: string, records: map<nat, Record>, ref: Ref)
    requires NonNegative(records)
    ensures var next := Recorded(records, ref);
      && ref.descriptor.digest in next
      && (Exact(w, repository, ref) ==> NonNegative(next))
      && (ref.descriptor.digest !in records ==>
            |next| == |records| + 1 && SumSizes(next) == SumSizes(records) + ref.descriptor.size
            && next[ref.descriptor.digest] == RecordOf(ref))
  {
    if ref.descriptor.digest !in records {
      SumSizesInsert(records, ref.descriptor.digest, RecordOf(ref));
    }
  }

  lemma ConsistentCons(w: World, repository: string, final: map<nat, Record>, refs: seq<Ref>)
    requires refs != []
    ensures Consistent(w, repository, final, refs) <==>
      && Exact(w, repository, refs[0])
      && refs[0].descriptor.digest in final && final[refs[0].descriptor.digest] == RecordOf(refs[0])
      && Consistent(w, repository, final, refs[1..])
  {
    if Consistent(w, repository, final, refs[1..]) {
      forall i | 0 < i < |refs|
        ensures Exact(w, repository, refs[i])
        ensures refs[i].descriptor.digest in final && final[refs[i].descriptor.digest] == RecordOf(refs[i])
      {
        assert refs[1..][i - 1] == refs[i];
      }
    }
    if Consistent(w, repository, final, refs) {
      forall i | 0 <= i < |refs[1..]|
        ensures Exact(w, repository, refs[1..][i])
        ensures refs[1..][i].descriptor.digest in final
          && final[refs[1..][i].descriptor.digest] == RecordOf(refs[1..][i])
      {
        assert refs[1..][i] == refs[i + 1];
      }
    }
  }

  // ---------- the chain ----------

  /** Link `i` is stored, well formed and not in progress, and its subject is the next link or absent at the end. */
  ghost predicate LinkOk(
    w: World, repository: string, visiting: set<nat>, expectedType: Option<string>, chain: seq<Link>, i: nat)
    requires i < |chain|
  {
    && Stored(w, repository, chain[i].descriptor) == Some(chain[i].manifest)
    && ManifestOk(w, repository, chain[i].manifest, if i == 0 then expectedType else None)
    && chain[i].descriptor.digest !in visiting
    && if i + 1 < |chain| then
         chain[i].manifest.subject == Some(chain[i + 1].descriptor)
           && chain[i + 1].descriptor.mediaType == MANIFEST_TYPE
       else chain[i].manifest.subject.None?
  }

  /** A finite subject chain without repetition, ending at a manifest with no subject. */
  ghost predicate IsChain(
    w: World, repository: string, descriptor: Descriptor, depth: nat, visiting: set<nat>, expectedType: Option<string>,
    chain: seq<Link>)
  {
    && chain != [] && depth + |chain| <= w.limits.maximumDepth + 1 && chain[0].descriptor == descriptor
    && (forall i :: 0 <= i < |chain| ==> LinkOk(w, repository, visiting, expectedType, chain, i))
    && (forall i, j :: 0 <= i < j < |chain| ==> chain[i].descriptor.digest != chain[j].descriptor.digest)
  }

  /** A link of the rest of a chain, seen from the whole chain. */
  lemma LinkShift(
    w: World, repository: string, visiting: set<nat>, expectedType: Option<string>, link: Link, rest: seq<Link>, i: nat)
    requires i < |rest|
    ensures LinkOk(w, repository, visiting + {link.descriptor.digest}, None, rest, i) <==>
      && LinkOk(w, repository, visiting, expectedType, [link] + rest, i + 1)
      && rest[i].descriptor.digest != link.descriptor.digest
  {
    hide ManifestOk, Stored;
    assert ([link] + rest)[i + 1] == rest[i];
    assert i + 1 < |rest| ==> ([link] + rest)[i + 2] == rest[i + 1];
  }

  /** The first link is well formed by itself. */
  ghost predicate HeadOk(
    w: World, repository: string, visiting: set<nat>, expectedType: Option<string>, link: Link, rest: seq<Link>)
  {
    && Stored(w, repository, link.descriptor) == Some(link.manifest)
    && ManifestOk(w, repository, link.manifest, expectedType) && link.descriptor.digest !in visiting
    && rest != [] && link.manifest.subject == Some(rest[0].descriptor) && rest[0].descriptor.mediaType == MANIFEST_TYPE
  }

  lemma HeadIsLink(
    w: World, repository: string, visiting: set<nat>, expectedType: Option<string>, link: Link, rest: seq<Link>)
    requires rest != []
    ensures LinkOk(w, repository, visiting, expectedType, [link] + rest, 0) <==>
      HeadOk(w, repository, visiting, expectedType, link, rest)
  {
    hide ManifestOk, Stored;
    assert ([link] + rest)[1] == rest[0];
  }

  lemma ChainTail(
    w: World, repository: string, depth: nat, visiting: set<nat>, expectedType: Option<string>, link: Link,
    rest: seq<Link>)
    requires rest != [] && IsChain(w, repository, link.descriptor, depth, visiting, expectedType, [link] + rest)
    ensures HeadOk(w, repository, visiting, expectedType, link, rest)
    ensures IsChain(w, repository, rest[0].descriptor, depth + 1, visiting + {link.descriptor.digest}, None, rest)
  {
    hide LinkOk, HeadOk;
    var all := [link] + rest;
    assert LinkOk(w, repository, visiting, expectedType, all, 0);
    HeadIsLink(w, repository, visiting, expectedType, link, rest);
    forall i | 0 <= i < |rest|
      ensures LinkOk(w, repository, visiting + {link.descriptor.digest}, None, rest, i)
    {
      LinkShift(w, repository, visiting, expectedType, link, rest, i);
      assert all[0].descriptor.digest != all[i + 1].descriptor.digest;
    }
    forall i, j | 0 <= i < j < |rest|
      ensures rest[i].descriptor.digest != rest[j].descriptor.digest
    {
      assert all[i + 1].descriptor.digest != all[j + 1].descriptor.digest;
    }
  }

  lemma ChainCons(
    w: World, repository: string, depth: nat, visiting: set<nat>, expectedType: Option<string>, link: Link,
    rest: seq<Link>)
    requires HeadOk(w, repository, visiting, expectedType, link, rest)
    requires IsChain(w, repository, rest[0].descriptor, depth + 1, visiting + {link.descriptor.digest}, None, rest)
    ensures IsChain(w, repository, link.descriptor, depth, visiting, expectedType, [link] + rest)
  {
    hide LinkOk, HeadOk;
    var all := [link] + rest;
    HeadIsLink(w, repository, visiting, expectedType, link, rest);
    forall k | 1 <= k < |all|
      ensures LinkOk(w, repository, visiting, expectedType, all, k)
        && all[k].descriptor.digest != link.descriptor.digest
    {
      LinkShift(w, repository, visiting, expectedType, link, rest, k - 1);
      assert LinkOk(w, repository, visiting + {link.descriptor.digest}, None, rest, k - 1);
    }
    forall i, j | 0 <= i < j < |all|
      ensures all[i].descriptor.digest != all[j].descriptor.digest
    {
      assert all[j] == rest[j - 1];
      assert i > 0 ==> all[i] == rest[i - 1];
    }
  }

  lemma ChainOfOne(
    w: World, repository: string, depth: nat, visiting: set<nat>, expectedType: Option<string>, link: Link)
    ensures IsChain(w, repository, link.descriptor, depth, visiting, expectedType, [link]) <==>
      && depth <= w.limits.maximumDepth && Stored(w, repository, link.descriptor) == Some(link.manifest)
      && ManifestOk(w, repository, link.manifest, expectedType) && link.descriptor.digest !in visiting
      && link.manifest.subject.None?
  {
    assert [link][0] == link;
    assert LinkOk(w, repository, visiting, expectedType, [link], 0) <==>
      && Stored(w, repository, link.descriptor) == Some(link.manifest)
      && ManifestOk(w, repository, link.manifest, expectedType) && link.descriptor.digest !in visiting
      && link.manifest.subject.None?;
  }

  lemma {:induction false} FollowIsChain(
    w: World, repository: string, descriptor: Descriptor, depth: nat, visiting: set<nat>, expectedType: Option<string>)
    requires Follow(w, repository, descriptor, depth, visiting, {}, expectedType).Some?
    ensures var chain := Follow(w, repository, descriptor, depth, visiting, {}, expectedType).value;
      IsChain(w, repository, descriptor, depth, visiting, expectedType, chain)
    decreases w.limits.maximumDepth + 1 - depth
  {
    hide ManifestOk, IsChain, Stored;
    var chain := Follow(w, repository, descriptor, depth, visiting, {}, expectedType).value;
    FollowUnfold(w, repository, descriptor, depth, visiting, {}, expectedType);
    var link := chain[0];
    if link.manifest.subject.Some? {
      var subject := link.manifest.subject.value;
      var inner := visiting + {descriptor.digest};
      var rest := Follow(w, repository, subject, depth + 1, inner, {}, None).value;
      FollowIsChain(w, repository, subject, depth + 1, inner, None);
      ChainStart(w, repository, subject, depth + 1, inner, None, rest);
      ChainCons(w, repository, depth, visiting, expectedType, link, rest);
      assert chain == [link] + rest;
    } else {
      ChainOfOne(w, repository, depth, visiting, expectedType, link);
    }
  }

  lemma ChainStart(
    w: World, repository: string, descriptor: Descriptor, depth: nat, visiting: set<nat>, expectedType: Option<string>,
    chain: seq<Link>)
    requires IsChain(w, repository, descriptor, depth, visiting, expectedType, chain)
    ensures chain != [] && chain[0].descriptor == descriptor && depth <= w.limits.maximumDepth
    ensures LinkOk(w, repository, visiting, expectedType, chain, 0)
  {
  }

  lemma {:induction false} ChainIsFollowed(
    w: World, repository: string, descriptor: Descriptor, depth: nat, visiting: set<nat>, expectedType: Option<string>,
    chain: seq<Link>)
    requires IsChain(w, repository, descriptor, depth, visiting, expectedType, chain) && w.limits.maximumObjects > 0
    ensures Follow(w, repository, descriptor, depth, visiting, {}, expectedType) == Some(chain)
    decreases |chain|
  {
    hide ManifestOk, IsChain, Stored, Follow;
    ChainStart(w, repository, descriptor, depth, visiting, expectedType, chain);
    FollowUnfold(w, repository, descriptor, depth, visiting, {}, expectedType);
    if |chain| > 1 {
      var rest := chain[1..];
      assert [chain[0]] + rest == chain;
      ChainTail(w, repository, depth, visiting, expectedType, chain[0], rest);
      ChainIsFollowed(w, repository, rest[0].descriptor, depth + 1, visiting + {descriptor.digest}, None, rest);
    } else {
      assert chain == [chain[0]];
    }
  }

  // ---------- acceptance ----------

  /** A graph the verifier must accept, described without running it. */
  ghost predicate GoodGraph(w: World, root: RootDescriptor, chain: seq<Link>) {
    && IsChain(
         w, root.repository, Descriptor(root.mediaType, root.digest, root.size), 0, {}, Some(root.artifactType), chain)
    && RootMetadataOk(w, root, chain[0].manifest)
    && var records := RecordedAll(map[], ChainRefs(chain));
       && Consistent(w, root.repository, records, ChainRefs(chain))
       && |records| <= w.limits.maximumObjects && SumSizes(records) <= w.limits.maximumTotalBytes
  }

  /** The chain that is visited is a good graph of an accepted root. */
  lemma RootChainIsGood(w: World, root: RootDescriptor, repository: string, artifactType: string)
    requires Accepted(w, root, repository, artifactType)
    ensures GoodGraph(w, root, RootChain(w, root).value)
  {
    var start := Descriptor(root.mediaType, root.digest, root.size);
    FollowIsChain(w, root.repository, start, 0, {}, Some(root.artifactType));
    FetchAllExact(w, repository, map[], ChainRefs(RootChain(w, root).value));
  }

  /**
   `verify` accepts exactly the good graphs: a repeat-free subject chain of bounded depth, every object
   stored under its digest with its stated size, one media type and size per digest, and the number
   and total size of the distinct objects within the limits.
   */
  lemma AcceptedExact(w: World, root: RootDescriptor, repository: string, artifactType: string)
    ensures Accepted(w, root, repository, artifactType) <==>
      && root.repository == repository && root.mediaType == MANIFEST_TYPE && root.artifactType == artifactType
      && exists chain :: GoodGraph(w, root, chain)
  {
    var start := Descriptor(root.mediaType, root.digest, root.size);
    if Accepted(w, root, repository, artifactType) {
      RootChainIsGood(w, root, repository, artifactType);
    }
    if chain :| GoodGraph(w, root, chain) {
      RecordsKept(map[], ChainRefs(chain));
      FirstRef(chain);
      assert |RecordedAll(map[], ChainRefs(chain))| > 0;
      ChainIsFollowed(w, root.repository, start, 0, {}, Some(root.artifactType), chain);
      FetchAllExact(w, root.repository, map[], ChainRefs(chain));
    }
  }

  lemma FirstRef(chain: seq<Link>)
    requires chain != []
    ensures ChainRefs(chain) != [] && ChainRefs(chain)[0].descriptor == chain[0].descriptor
    ensures chain[0].descriptor.digest in RecordedAll(map[], ChainRefs(chain))
  {
    assert ChainRefs(chain)[0].descriptor.digest in Named(ChainRefs(chain));
    RecordsKept(map[], ChainRefs(chain));
  }

  /** What the report of an accepted graph counts: each distinct digest once, however often it is shared. */
  lemma ReportCountsDistinctObjects(w: World, root: RootDescriptor, repository: string, artifactType: string)
    requires Accepted(w, root, repository, artifactType)
    ensures var refs := ChainRefs(RootChain(w, root).value);
      var records := RecordedAll(map[], refs);
      && records.Keys == Named(refs) && |RootChain(w, root).value| <= w.limits.maximumDepth + 1
      && forall d :: d in records ==>
           && w.fetch(repository, d).Some? && w.hash(w.fetch(repository, d).value) == d
           && |w.fetch(repository, d).value| == records[d].size
  {
    var refs := ChainRefs(RootChain(w, root).value);
    var records := RecordedAll(map[], refs);
    RecordsKept(map[], refs);
    FetchAllExact(w, repository, map[], refs);
    FollowIsChain(
      w, root.repository, Descriptor(root.mediaType, root.digest, root.size), 0, {}, Some(root.artifactType));
    forall d | d in records
      ensures w.fetch(repository, d).Some? && w.hash(w.fetch(repository, d).value) == d
      ensures |w.fetch(repository, d).value| == records[d].size
    {
      var i :| 0 <= i < |refs| && refs[i].descriptor.digest == d;
      assert Exact(w, repository, refs[i]);
    }
  }
}
