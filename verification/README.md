# Agent Delivery: verified core models

A Dafny model of the algorithmic core of a supply-chain control plane, with proofs. Each module models one
source file or one part of it; code that updates state in place is a class or a method with loops, proved
against functions whose properties are then proved as lemmas over all inputs, runs or orders.

- **Strict JSON admission** (`JsonText`, `JsonReading`, `JsonMeaning`, `JsonAdmission`): a lexical scanner that counts
  nodes and levels without parsing, the explicit-stack walk of the decoded value, the proof that the grammar of
  RFC 8259 is unambiguous, what a decoded document has to say of itself, and the proof that scanner and walk agree on
  every payload that decodes.
- **Functional deltas** (`JsonPointer`, `JsonPatch`, `JsonTree`, `Rebase`, `FileOperations`, `FileDeltaAlgebra`,
  `SkillOperations`, `Customization`): pointers, the strict patch dialect on values and in place, the three-way rebase,
  file and skill deltas with their algebra, and secret scanning.
- **OCI wire and graph** (`WireBytes`, `BlobStream`, `OciGraph`, `OciGraphLaws`, `OciBuilder`, `OciMeaning`):
  canonical base64url, chunked streams, the publication preimage, the bounded recursive verifier and the manifest
  builder.
- **USTAR** (`Ustar`): the archive printer, undone by an independent reader of the POSIX format.
- **Graphs and state machines** (`Lifecycle`, `PlanGraph`, `JsonSchema`, `ProblemSchema`, `ProblemMeaning`).
- **Concurrent state** (`StrongETag`, `DesiredState`, `SwitchJournal`): calls serialized by a mutex, so a concurrent
  execution is a sequence of calls and the theorems quantify over all sequences.
- **Canary promotion** (`Canary`, `CanaryMeaning`): the promotion gate over three evidence documents.

`Foundation`, `Decimals`, `Splitting` and `Ordering` hold what the modules share. Run `dafny verify dfyconfig.toml`.

## What does not hold

- A name with a NUL, and a negative mode, pass the USTAR printer, but a standard reader then recovers another name or
  nothing; `Ustar.BuildThenRead` gives the exact condition.
- The package comment of the switch journal says that a failed release is never reactivated. The code fences only the
  latest failure, and only until recovery; `SwitchJournal.ReactivationExact` gives the exact calls that bring one back.
- After 2^63 writes a desired-state revision wraps to a negative number, no precondition can match it any more, and the
  ETag that is served for it does not parse; `DesiredState.RevisionCountsWrites` and `DesiredState.TagDetectsWrites`
  say so for every run, and `DesiredState.ExhaustionIsReached` gives a run that gets there.
- Two orders of one set of file operations need not both succeed: `FileDeltaAlgebra.ReorderExact` says which
  do, and `FileDeltaAlgebra.OrdersCanDiffer` gives a set and an order that does not.
- Rebasing can be refused for the size of an intermediate proposed document although both sources and the patch are
  fine; `Rebase.RebaseDiamond` carries that condition, and `Rebase.IntermediateCanBeRefused` gives such a rebase.

## Model

| member | source | states |
|---|---|---|
| `JsonText.DecodeKeepsAccounting` | scripts/contracts/contractlib.py:31-61 | whatever the strict decoder returns for a text has exactly as many nodes, and is exactly as deep, as the text is written |
| `JsonText.ParseIntegerExact` | scripts/contracts/contractlib.py:44-51 | the sixteen-digit shortcut decides nothing: an integer literal is accepted exactly when its value is within the safe range, and then decodes to that value |
| `JsonMeaning.DecodesExactly` | scripts/contracts/contractlib.py:31-61 | the strict decoder accepts exactly the texts in which, at every depth, no object repeats a key, every integer literal is within the safe range and every other number is finite; keys are compared as the UTF-16 units they spell |
| `JsonMeaning.DecodeReadsUnits` | scripts/contracts/contractlib.py:196-208 | a decoded string is what UTF-16 makes of the units its characters and escapes name, so a pair of \u escapes is one character |
| `JsonMeaning.HexUnitIsSpelled` | scripts/contracts/contractlib.py:196-208 | a \u escape names the unit its four hexadecimal digits of either case spell |
| `JsonMeaning.DecodedValue` | scripts/contracts/contractlib.py:196-208 | every decoded value is what is written: literals, numbers, text, and the parts of lists and objects in their order |
| `JsonMeaning.NodesCounted` | scripts/contracts/contractlib.py:63-69 | the node count of a text is the number of its values and object keys |
| `JsonMeaning.DepthReached` | scripts/contracts/contractlib.py:71-147 | the depth of a text is the greatest number of values that enclose or are one of its values |
| `JsonAdmission.StringEnd` | scripts/contracts/contractlib.py:100-110 | the string loop stops one past the closing quote, every backslash taking the next byte along, on arbitrary bytes |
| `JsonAdmission.Preflight` | scripts/contracts/contractlib.py:71-147 | on arbitrary bytes the scanner terminates and succeeds exactly when size, nodes and levels are within limits; each refusal names a limit that the limitless scan really exceeds |
| `JsonAdmission.RunOverString` | scripts/contracts/contractlib.py:100-120 | a string token counts one node, and a level only when no colon follows, wherever it stands and however it is escaped |
| `JsonAdmission.RunOverValue` | scripts/contracts/contractlib.py:82-147 | scanning any value inside any text advances past exactly that value and adds exactly its nodes and levels |
| `JsonAdmission.ScannerCountsTheText` | scripts/contracts/contractlib.py:71-147 | for every RFC 8259 text, whatever its white space, escapes and nesting, the lexical counts equal the recursive counts of its syntax tree |
| `JsonAdmission.PushMembers` | scripts/contracts/contractlib.py:183-191 | the object branch counts and checks every key and pushes every child, or refuses for too many nodes or a surrogate key |
| `JsonAdmission.ValidateModel` | scripts/contracts/contractlib.py:154-193 | the explicit-stack walk computes exactly the recursive node and depth counts and succeeds exactly within the limits on sound scalars |
| `JsonAdmission.StrictJsonBytes` | scripts/contracts/contractlib.py:196-214 | on arbitrary bytes and any decoder outcome, acceptance means that size, scan, walk and scalar checks all passed and both accountings agree |
| `JsonReading.TreeIsUnique` | scripts/contracts/contractlib.py:196-214 | no two JSON values are written alike, whatever follows them: white space, numbers, strings and nesting can be read in one way only |
| `JsonReading.DocumentIsUnique` | scripts/contracts/contractlib.py:196-214 | the grammar is unambiguous: a text is written by exactly one document, so its decoded value and its counts are functions of the bytes |
| `JsonReading.DecodePayloadReads` | scripts/contracts/contractlib.py:196-208 | the decoder of a payload returns the value of the one document the payload is the text of |
| `JsonAdmission.AdmissibleDecodes` | scripts/contracts/contractlib.py:150-193 | the checks on the decoded value amount to conditions on the text: counts of values, keys and levels, and for every string and key no surrogate without its partner |
| `JsonAdmission.AdmitPayload` | scripts/contracts/contractlib.py:196-214 | for every payload, JSON text or not, the accounting comparison never fires, and admission is exactly: the text of some document of at most 4 MiB, 100000 values and keys and 64 levels, in which no object repeats a key, integers are safe, other numbers finite and surrogates paired |
| `JsonAdmission.AdmitDocument` | scripts/contracts/contractlib.py:196-214 | the same for a text given by its tree, and the admitted value is the one the text decodes to |
| `JsonPointer.DecodeToken` | internal/operations/operations.go:161-180 | the escape loop over one raw token decodes ~0 and ~1 and rejects every other tilde |
| `JsonPointer.ParsePointer` | internal/operations/operations.go:147-186 | the parser loop computes the pointer grammar that the next lemma inverts |
| `JsonPointer.ParseInvertsPrint` | internal/operations/operations.go:147-186 | parsing yields a token list exactly for the printed spelling of that non-empty list of valid tokens, within the length limit |
| `JsonPointer.PrintPointerInjective` | internal/operations/operations.go:147-186 | distinct token lists have distinct pointer spellings |
| `JsonPointer.UnescapeReplaces` | internal/operations/operations.go:161-180 | a token is read as section 4 of RFC 6901 says, replacing ~1 by / and then ~0 by ~, and can be read when every ~ is followed by 0 or 1 |
| `JsonPointer.ArrayIndex` | internal/operations/operations.go:267-295 | the digit loop and range checks compute the index that the next lemma characterises |
| `JsonPointer.IndexOfExact` | internal/operations/operations.go:267-295 | a token names index i exactly when it is the decimal numeral of i without leading zeros and i is in range |
| `JsonPatch.ParentExists` | internal/operations/operations.go:188-265 | an accepted operation edits an existing container, at the parent of its pointer |
| `JsonPatch.AppliesExactly` | internal/operations/operations.go:188-265 | an operation applies exactly when its parent is a container and, in an object, add finds no member and replace and remove find one, or, in an array, add names - and the others an existing slot: add never overwrites |
| `JsonPatch.PatchApplies` | internal/operations/operations.go:109-145 | a patch succeeds with a result exactly when profile, target, count and document are in order and its operations pass from document to document: known kind, its operand, a pointer, an applicable target, a result within limits |
| `JsonPatch.ReadBack` | internal/operations/operations.go:224-265 | reading the target of an accepted add or replace yields the operand; an append lands at the old length |
| `JsonPatch.RemoveEffect` | internal/operations/operations.go:224-265 | an accepted remove takes away exactly the named key, or the named slot with later items moved down by one |
| `JsonPatch.AppendFrame` | internal/operations/operations.go:224-265 | an append leaves every earlier item of the array, and everything below it, as it was |
| `JsonPatch.RemoveFrame` | internal/operations/operations.go:224-265 | after a remove from an array, slots before the removed one read as before and slot j reads what slot j + 1 read |
| `JsonPatch.Frame` | internal/operations/operations.go:188-265 | for every path that leaves the pointer: off the edited array it reads as before; an append only adds the slot behind the last one; a remove only takes its slot out and moves later ones down |
| `JsonPatch.RootLocality` | internal/operations/source_resolution.go:278-293 | whether an operation applies, and what it does, depends only on the root member its first token names |
| `JsonTree.ApplyLeafInPlace` | internal/operations/operations.go:224-265 | the in-place leaf edit of maps and slices does what the value function says and leaves a tree whose containers are pairwise disjoint |
| `JsonTree.ApplyInPlace` | internal/operations/operations.go:188-222 | the recursive in-place edit has the effect of the value function on the whole tree, or reports its error |
| `JsonTree.Clone` | internal/operations/operations.go:629-642 | the copy has the same model, shares no container with the original, and is refused exactly outside the limits |
| `JsonTree.ApplyJsonPatch` | internal/operations/operations.go:109-145 | the patch loop on a private copy returns the result, or the first error, of applying the operations in order; the caller's document is not modified |
| `JsonTree.RebaseJsonPatch` | internal/operations/source_resolution.go:208-276 | the loop over two private working trees that never share a container computes the stepwise rebase, or its first error |
| `JsonTree.StableRebasePath` | internal/operations/source_resolution.go:278-293 | the deep comparison decides whether both trees agree on the member a pointer starts at |
| `Rebase.RebaseAllExact` | internal/operations/source_resolution.go:208-276 | checking agreement step by step is the same as checking every mentioned member once upfront, and the result is the patch applied to the proposal |
| `Rebase.MergedMembers` | internal/operations/source_resolution.go:208-276 | the merged document takes mentioned members from the patched previous source and all others from the proposal |
| `Rebase.AppliesToProposal` | internal/operations/source_resolution.go:208-276 | without limits, applying to the proposal follows from applying to the previous source and agreeing on what is touched |
| `Rebase.ApplyAllLimits` | internal/operations/operations.go:109-145 | resource limits only ever refuse: a limited run succeeds exactly when the unlimited one does and all intermediate documents fit, with the same result |
| `Rebase.IntermediateCanBeRefused` | internal/operations/source_resolution.go:208-276 | concrete documents, limits and patch for which everything else about a rebase is fine and only an intermediate proposed document is too large, so that the rebase is refused |
| `Rebase.RebaseDiamond` | internal/operations/source_resolution.go:208-293 | the rebase succeeds exactly when both sources are admissible objects, the patch applies to the previous one, both agree on every mentioned member, and intermediate proposals fit; it then equals patching the proposal |
| `FileOperations.FileTreeConflict` | internal/operations/operations.go:522-532 | the scan of the index finds a conflict exactly when some other folded path is an ancestor or descendant |
| `FileOperations.NestedIsPrefix` | internal/operations/operations.go:522-532 | the prefix test with a slash holds exactly when the names of one path are the first, but not all, of the other's |
| `FileOperations.FilePathIndex` | internal/operations/operations.go:496-520 | an index is returned exactly for valid states (sound entries, unique folds, no nesting) and maps folds to paths one to one |
| `FileOperations.CheckTarget` | internal/operations/operations.go:322-370 | with a correct index the checks of one iteration refuse exactly the operations that the state itself does not admit |
| `FileOperations.Commit` | internal/operations/operations.go:344-367 | the assignments of one iteration keep the incremental index equal to the index of the new map |
| `FileOperations.ApplyFileOperations` | internal/operations/operations.go:300-373 | the delta succeeds exactly when targets are distinct when folded and every operation is admitted in turn; the result is again a valid state |
| `FileDeltaAlgebra.EffectAt` | internal/operations/operations.go:300-373 | a path no operation names keeps its record; a named one holds what its one operation says |
| `FileDeltaAlgebra.AcceptanceExact` | internal/operations/operations.go:300-373 | sequential acceptance is decided on the initial map alone: preconditions there, and an add only after the removes that make room for it |
| `FileDeltaAlgebra.DeltaSucceedsExactly` | internal/operations/operations.go:300-373 | a file delta succeeds exactly when the initial map may stand and every operation does, said member by member: preconditions, digests, modes, folded paths and their names |
| `FileDeltaAlgebra.ReorderExact` | internal/operations/operations.go:300-373 | given one order that succeeds, the others that succeed are exactly those in which such removes still come first, and all give the same map |
| `FileDeltaAlgebra.OrdersCanDiffer` | internal/operations/operations.go:322-370 | a concrete file map and two operations of which one order is accepted and the other refused |
| `FileDeltaAlgebra.InverseRestores` | internal/operations/operations.go:300-373 | the inverse of an accepted delta (reversed, add and remove swapped, replace back) is accepted on the result and restores the initial map |
| `SkillOperations.ApplySkillOperations` | internal/operations/operations.go:377-430 | the skill delta succeeds exactly when packages are distinct and every operation is admitted in turn; the result is again valid |
| `SkillOperations.ValidateSkillState` | internal/operations/operations.go:432-442 | a package map is accepted exactly when every identifier and descriptor is valid |
| `SkillOperations.AcceptanceExact` | internal/operations/operations.go:377-430 | every operation of a delta is in effect decided against the initial packages |
| `SkillOperations.DeltaSucceedsExactly` | internal/operations/operations.go:377-442 | a skill delta succeeds exactly when packages are valid and distinct and every operation meets its contract on the initial packages, said member by member |
| `SkillOperations.OrderIrrelevant` | internal/operations/operations.go:377-430 | acceptance and result are the same for every order of the operations |
| `SkillOperations.InverseRestores` | internal/operations/operations.go:377-430 | every accepted skill delta has an accepted inverse that restores the initial packages |
| `Customization.ScanFindsEverySecret` | internal/privatecompile/secretscan.go:65-83 | the recursive scan reports a value exactly when some walk from its root ends in a secret-shaped string |
| `Customization.ScanIsExact` | internal/privatecompile/secretscan.go:46-63 | a patch is let through exactly when no walk into any of its operands ends in a secret-shaped string |
| `Customization.EditAddsNothing` | internal/operations/operations.go:188-265 | an edit brings in no secret string that was neither in the document nor in the operand |
| `Customization.ScannedPatchIsClean` | internal/privatecompile/secretscan.go:46-63 | after a clean scan, every secret string in the patched document was already in the base, string by string |
| `Customization.ApplyCustomization` | internal/privatecompile/compile.go:47-68 | scan, patch, files and skills: success exactly when all four succeed, with their results; a clean base and a clean scan give a document without secrets |
| `WireBytes.DecodeExact` | scripts/contracts/oci_graph.py:151-181 | decoding yields p exactly on the encoding of p within the bound, although the library decoder underneath is lenient |
| `WireBytes.EncodingIsBijective` | scripts/contracts/oci_graph.py:151-181 | no two accepted texts mean the same bytes and no two byte strings share a text |
| `WireBytes.EncodingSpellsTheBits` | scripts/contracts/oci_graph.py:151-155 | every letter of the text, as its place in the base64url table of section 5 of RFC 4648, spells six bits, and together they are the payload bits from left to right filled with zero bits (sections 4 and 3.5) |
| `BlobStream.BuildBlobStream` | scripts/contracts/oci_graph.py:184-218 | a stream is built exactly for 1 to 64 MiB of payload; it has one chunk for every 4 MiB begun, and each says its index, offset, size and digest and carries the text of exactly that slice of the payload |
| `BlobStream.DecodeBlobStream` | scripts/contracts/oci_graph.py:221-267 | decoding succeeds exactly on streams that carry some cut of a payload contiguously with matching digests, and returns that payload |
| `BlobStream.CarriesOnePayload` | scripts/contracts/oci_graph.py:221-267 | a stream transports one payload, cut in one way |
| `BlobStream.TransportMeans` | scripts/contracts/oci_graph.py:221-267 | a stream transports a payload exactly when its chunks are consecutive slices of it, each naming its index, offset, size and digest, under the size, count and digest of the whole |
| `BlobStream.BuildThenDecode` | scripts/contracts/oci_graph.py:184-267 | decoding a built stream returns the payload, for every payload that can be built |
| `BlobStream.PublicationPreimage` | scripts/contracts/oci_graph.py:270-324 | the preimage exists exactly for a matching root, decodable blobs and distinct digests, and lists exactly the described blobs in strict digest order |
| `BlobStream.PreimageIgnoresTransport` | scripts/contracts/oci_graph.py:270-324 | re-chunking and reordering never reach the preimage: equal typed payloads give the same blob list |
| `BlobStream.PreimageFixesPayloads` | scripts/contracts/oci_graph.py:270-324 | without hash collisions, equal blob lists come from equal typed payloads |
| `OciGraph.OciGraphVerifier.FetchExact` | scripts/contracts/oci_graph.py:475-527 | one fetch succeeds exactly when the object is stored under its digest with its size and type and the limits allow it; totals count a digest once |
| `OciGraph.OciGraphVerifier.VisitLayers` | scripts/contracts/oci_graph.py:588-621 | the layer loop accepts exactly registered, role-ordered layers with distinct roles and digests, and fetches them in order |
| `OciGraph.OciGraphVerifier.VisitManifest` | scripts/contracts/oci_graph.py:529-669 | the recursive visit follows the subject chain and succeeds exactly when the declarative chain exists and all its objects can be fetched |
| `OciGraph.OciGraphVerifier.Verify` | scripts/contracts/oci_graph.py:436-704 | verification accepts exactly accepted graphs and reports the root manifest, the number and total size of the distinct objects, and the depth of the last manifest |
| `OciGraphLaws.FetchAllExact` | scripts/contracts/oci_graph.py:475-527 | fetching one at a time succeeds exactly when the final records are consistent and within the object and byte limits, whatever is shared |
| `OciGraphLaws.FollowIsChain` | scripts/contracts/oci_graph.py:529-636 | what the recursion follows is a repeat-free subject chain of bounded depth ending at a manifest without subject |
| `OciGraphLaws.ChainIsFollowed` | scripts/contracts/oci_graph.py:529-636 | conversely every such chain is followed to its end |
| `OciGraphLaws.AcceptedExact` | scripts/contracts/oci_graph.py:436-704 | verify accepts exactly the good graphs, described without running it |
| `OciMeaning.AcceptedMeans` | scripts/contracts/oci_graph.py:436-704 | verify accepts exactly the graphs that stand, member by member: media types, config bytes, layer roles rising in the fixed list, subject links, hashes, sizes, limits, and a root that states subject and annotations |
| `OciMeaning.ReportMeans` | scripts/contracts/oci_graph.py:529-704 | what is reported of an accepted root belongs to a standing chain: each manifest under its digest, exactly the config, layer and subject edges of those manifests with index and role, and one record per digest mentioned |
| `OciGraphLaws.ReportCountsDistinctObjects` | scripts/contracts/oci_graph.py:671-704 | in an accepted graph every record hashes to its digest and has its stated size, and the records are exactly the distinct digests referred to |
| `OciBuilder.BuildOciManifest` | scripts/contracts/oci_graph.py:364-417 | the builder succeeds exactly for a registered type and at least one layer, and returns descriptors in input order with one blob per digest |
| `OciMeaning.BuiltMeans` | scripts/contracts/oci_graph.py:364-417 | what is built, member by member: manifest, layers in order with the hash and length of their payloads, root descriptor, and blobs that are exactly the payloads under their hashes |
| `OciBuilder.SingleManifestFitsTotals` | scripts/contracts/oci_graph.py:475-527 | one well-formed manifest without subject can exhaust neither the object limit nor the total byte limit |
| `OciBuilder.BuiltIsAcceptedExactly` | scripts/contracts/oci_graph.py:364-704 | a built manifest, with or without subject, under any limits, is accepted exactly when the arguments and manifest bytes meet the conditions on roles, sizes and digests and the store holds the chain of its subject within the totals |
| `OciBuilder.WithoutSubjectTotalsNeverMatter` | scripts/contracts/oci_graph.py:364-704 | without a subject and with the default limits the total limits never enter: acceptance is decided by the arguments and the manifest bytes alone |
| `OciBuilder.BuiltIsReported` | scripts/contracts/oci_graph.py:692-704 | the verified chain of a build is the built manifest followed by its subject's chain, with the layers in the order they were given |
| `Ustar.FieldAccepts` | scripts/contracts/generate_protocol_fixtures.py:135-138 | an octal field accepts exactly the values that fit, negative ones with one digit less, and fills its width |
| `Ustar.ChecksumFits` | scripts/contracts/generate_protocol_fixtures.py:155-156 | the checksum always fits six octal digits, so every header is 512 bytes |
| `Ustar.ChecksumIsBlankedSum` | scripts/contracts/generate_protocol_fixtures.py:151-156 | the stored checksum reads back as the byte sum of the header with its checksum field blanked |
| `Ustar.UstarHeader` | scripts/contracts/generate_protocol_fixtures.py:141-157 | the in-place slice writes build exactly the field layout, or refuse an unsafe name or an overflowing field |
| `Ustar.HeaderMeans` | scripts/contracts/generate_protocol_fixtures.py:141-157 | every field of a header stands at its offset: name, mode, zero owner and group, size, zero time, checksum of the blanked header, type, magic, version and zeros elsewhere |
| `Ustar.EntryMeans` | scripts/contracts/generate_protocol_fixtures.py:160-167 | an entry is its header, its payload and zeros to the next whole block |
| `Ustar.MembersAreSorted` | scripts/contracts/generate_protocol_fixtures.py:162 | members come out in order of name, equal names in the order given, none lost |
| `Ordering.LexMeans` | scripts/contracts/generate_protocol_fixtures.py:162 | the order of names is lexicographic: a shorter beginning first, otherwise the first difference decides |
| `Ustar.BuildTar` | scripts/contracts/generate_protocol_fixtures.py:160-167 | the archive loop succeeds exactly when every member is printable, and yields the entries in order of name and the trailer |
| `Ustar.BuildThenRead` | scripts/contracts/generate_protocol_fixtures.py:160-167 | a reader of the POSIX ustar format recovers the sorted members exactly when no name has a NUL and no mode is negative; the length is always whole blocks |
| `Ustar.NameIsCut` | scripts/contracts/generate_protocol_fixtures.py:141-145 | any accepted name comes back cut at its first NUL |
| `Ustar.NulNameIsCut` | scripts/contracts/generate_protocol_fixtures.py:141-145 | a concrete member whose name is accepted and comes back shortened |
| `Ustar.NegativeModeIsUnreadable` | scripts/contracts/generate_protocol_fixtures.py:135-146 | a concrete member whose negative mode is accepted and makes the archive unreadable |
| `Lifecycle.CheckTransitions` | internal/lifecycle/model.go:203-257 | the transition scan accepts exactly sound transitions with distinct names and fills adjacency and out-degree tables exactly |
| `Lifecycle.Search` | internal/lifecycle/model.go:265-275 | the breadth-first search terminates and marks exactly the states that runs from the initial states reach |
| `Lifecycle.Validate` | internal/lifecycle/model.go:161-282 | validation accepts exactly the declaratively valid models, reachability included |
| `Lifecycle.Resolve` | internal/lifecycle/model.go:286-301 | resolution returns the one declared transition of the complete tuple, exactly when the model is valid and declares it |
| `Lifecycle.HasDeclaredPair` | internal/lifecycle/model.go:303-315 | the nested scan decides whether some transition leads from one state to another |
| `Lifecycle.PairsAreResolvable` | internal/lifecycle/model.go:286-315 | a pair is declared exactly when some actor and transition name resolve it |
| `Lifecycle.RunsStayDeclared` | internal/lifecycle/model.go:161-301 | every state a run of a valid model passes is declared, and only its last can be terminal |
| `Lifecycle.StuckIsTerminal` | internal/lifecycle/model.go:225-263 | a declared state of a valid model has no way on exactly when it is terminal |
| `Lifecycle.StatesAreRunEnds` | internal/lifecycle/model.go:265-281 | the declared states of a valid model are exactly the states runs end in |
| `PlanGraph.Traversal.Visit` | scripts/verify_repository.py:339-349 | the recursive visit terminates, keeps the in-progress nodes one path, and fails only on a real cycle |
| `PlanGraph.BuildEdges` | scripts/verify_repository.py:318-334 | edge lists are built exactly when every track and dependency is known |
| `PlanGraph.CheckAcyclic` | scripts/verify_repository.py:336-352 | visiting every node, in whatever order, succeeds exactly on acyclic graphs, and nodes finish in topological order |
| `PlanGraph.OrderedIsAcyclic` | scripts/verify_repository.py:339-352 | a graph whose nodes are all in a topological order has no cycle |
| `PlanGraph.SoundMeans` | scripts/verify_repository.py:308-353 | the checks on the dictionaries and the edge lists are exactly conditions on the items of the plan |
| `PlanGraph.VerifyPlan` | scripts/verify_repository.py:308-353 | the plan is accepted exactly with 3 tracks, 18 tasks, 7 milestones, known tracks, every named dependency a node and no chain of dependencies that returns; the order then has each node once, after every task and milestone its item names |
| `StrongETag.ParseIsSpelling` | internal/api/etag.go:9-31 | the ETag parser accepts exactly what the regular expression spells, when the number fits 64 bits |
| `StrongETag.PrintThenParse` | internal/api/etag.go:14-31 | print then parse is the identity exactly for positive revisions with well-formed digests |
| `StrongETag.PrintSpells` | internal/api/etag.go:12-14 | a tag is the signed revision without leading zeros, a dash and the digest, in double quotes |
| `StrongETag.ParseThenPrint` | internal/api/etag.go:14-31 | every accepted header value is the printed form of what it parses to |
| `StrongETag.NegativeTagIsUnusable` | internal/api/etag.go:14-31 | the ETag of a revision that has turned negative does not parse |
| `DesiredState.Store.CompareAndSwap` | internal/desiredstate/store.go:92-134 | a write commits exactly when the precondition is well formed and names the record as it is; revision, digest of the canonical form and payload are then stored, otherwise nothing changes |
| `DesiredState.RecordsNamePayloads` | internal/desiredstate/store.go:92-134 | in every run a stored digest, read as hexadecimal text, is the hash of the canonical form of the payload stored with it |
| `DesiredState.CanonicalFormDecides` | internal/desiredstate/store.go:92-134 | payloads with one canonical form get one digest and one ETag, and with a collision-free hash only those do |
| `DesiredState.RevisionCountsWrites` | internal/desiredstate/store.go:117-133 | over any interleaving a revision is the number of writes to its key; after 2^63 writes it turns negative and the key is never written again |
| `DesiredState.ExhaustionIsReached` | internal/desiredstate/store.go:117-133 | on every platform that canonicalizes some payload a run of calls brings a key to a negative revision, whose ETag does not parse and which no precondition matches |
| `DesiredState.RevisionsAreConsecutive` | internal/desiredstate/store.go:117-133 | the next write to a key produces the next revision |
| `DesiredState.OthersKeepRecord` | internal/desiredstate/store.go:105-115 | calls that do not commit, and calls on other keys, leave a record as it was |
| `DesiredState.NoAba` | internal/desiredstate/store.go:92-134 | no precondition commits twice on one key, even when an old payload returns in between |
| `DesiredState.DesiredStateHandler.Get` | internal/api/desiredstate.go:166-176 | a read returns the record with its ETag, or 404 |
| `DesiredState.DesiredStateHandler.Put` | internal/api/desiredstate.go:187-224 | a write answers 200 exactly when it commits, and otherwise 400, 412 with expected and current values, or 503, without side effect |
| `DesiredState.ParsedIsWellFormed` | internal/api/desiredstate.go:247-262 | every precondition the headers yield passes the store's own validation |
| `DesiredState.HeadersMean` | internal/api/desiredstate.go:247-262 | the headers yield an absent precondition for * alone, a match for exactly the record a strong ETag spells, and nothing else |
| `DesiredState.TagDetectsWrites` | internal/api/desiredstate.go:166-262 | a write under the ETag of an earlier read commits exactly when nobody wrote the key in between; the ETag is usable exactly until the revisions are exhausted |
| `SwitchJournal.Journal.ActivateTarget` | internal/hostreconciler/journal.go:99-114 | activation is refused exactly in recovery, otherwise it enters the identity as active, and replaying the active identity changes nothing and says so |
| `SwitchJournal.Journal.MarkFailure` | internal/hostreconciler/journal.go:120-133 | a failure is recorded exactly for the identity that is active now |
| `SwitchJournal.Journal.Recover` | internal/hostreconciler/journal.go:141-156 | recovery is possible exactly from recovery and to another release |
| `SwitchJournal.RunsStayConsistent` | internal/hostreconciler/journal.go:99-156 | in every run a recovery entry remembers exactly the identity that was active, and an active entry remembers none |
| `SwitchJournal.TargetsAreIndependent` | internal/hostreconciler/journal.go:99-156 | an entry is what the calls on its own target alone make it |
| `SwitchJournal.RecoveryEndsElsewhere` | internal/hostreconciler/journal.go:120-156 | recovery ends only by RecoverTo with a release other than the failed one |
| `SwitchJournal.PeriodsDiffer` | internal/hostreconciler/journal.go:99-156 | two active periods with only a recovery between them run different releases |
| `SwitchJournal.ReactivationExact` | internal/hostreconciler/journal.go:99-156 | exactly which calls bring back a release that failed before: only the latest failure is fenced, and only during recovery |
| `SwitchJournal.FailedReleaseReturns` | internal/hostreconciler/journal.go:1-5 | the package promise that a failed release is never reactivated does not hold: a run of four calls brings one back |
| `JsonSchema.OneOfExclusive` | scripts/contracts/generate_downstream_port_types.py:831-833 | where variants exclude each other, oneOf accepts as soon as one variant does |
| `JsonSchema.OneOfCounts` | scripts/contracts/generate_downstream_port_types.py:831-833 | oneOf accepts exactly when the number of variants that accept is one |
| `JsonSchema.PinsMean` | scripts/contracts/generate_downstream_port_types.py:704-716 | members named in both properties and required are exactly present and constrained |
| `ProblemSchema.ProblemVariantMeans` | scripts/contracts/generate_downstream_port_types.py:704-718 | a problem variant accepts exactly the documents of its catalog row |
| `ProblemSchema.OperationVariantMeans` | scripts/contracts/generate_downstream_port_types.py:723-746 | an operation variant accepts exactly the documents of its operation that report one of its registered pairs |
| `ProblemSchema.OperationsMean` | scripts/contracts/generate_downstream_port_types.py:719-746 | distinct operation keys make the operation variants exclusive, so their oneOf is their union, sorted or not |
| `ProblemSchema.CompiledMeansTables` | scripts/contracts/generate_downstream_port_types.py:704-833 | the compiled oneOf tree accepts exactly what the checked tables accept |
| `ProblemSchema.RegisteredIsReportable` | scripts/contracts/generate_downstream_port_types.py:647-746 | every registered pair of every operation has an accepted document |
| `ProblemSchema.PermittedIsReportable` | scripts/contracts/generate_downstream_port_types.py:670-680 | every state a catalog row permits is reported by some accepted document |
| `ProblemSchema.BuildCatalog` | scripts/contracts/generate_downstream_port_types.py:564-609 | the catalog loop accepts exactly sound, distinct, sorted rows and indexes them by code |
| `ProblemSchema.RowMeans` | scripts/contracts/generate_downstream_port_types.py:575-605 | a catalog row is sound exactly when its type spells its code with hyphens, its states rise in the fixed order, and code, status and exit class are in range |
| `ProblemSchema.FlattenMeans` | scripts/contracts/generate_downstream_port_types.py:611-668 | the registered operations are exactly those of the ports, each with its port and errors |
| `ProblemSchema.BuildRegistry` | scripts/contracts/generate_downstream_port_types.py:611-668 | the registry loops accept exactly sound registries and collect all operations and referenced states |
| `ProblemMeaning.CatalogMeans` | scripts/contracts/generate_downstream_port_types.py:564-609 | a catalog is sound exactly when every row stands by itself and the codes rise in the order of Python strings |
| `ProblemMeaning.RegistryMeans` | scripts/contracts/generate_downstream_port_types.py:611-668 | a registry is sound exactly when ports differ, the operations of each port differ and match the identifier pattern, and each reports distinct catalogued codes in permitted states |
| `ProblemMeaning.TablesMean` | scripts/contracts/generate_downstream_port_types.py:564-682 | the generator accepts exactly tables whose rows, order and registry stand and whose permitted states are the ones operations report, said without its own functions |
| `ProblemMeaning.CompiledRises` | scripts/contracts/generate_downstream_port_types.py:720-746 | the operation variants of the schema are those of the registered entries, rising by port and then operation |
| `ProblemMeaning.ErrorVariantsRise` | scripts/contracts/generate_downstream_port_types.py:728-737 | the error variants of one operation are those of its errors, rising by code |
| `ProblemSchema.BuildProblemSchema` | scripts/contracts/generate_downstream_port_types.py:564-746 | the compiler succeeds exactly on consistent tables, its schema is the compiled one and means those tables on every document |
| `Canary.VerifyDecision` | internal/canary/verifier.go:716-769 | a decision is accepted exactly when its proof is bound, authenticated, matching and fresh at this time |
| `Canary.VerifyPromotion` | internal/canary/verifier.go:449-544 | promotion is accepted exactly when everything is bound and every window is active, and then the three roles are filled |
| `CanaryMeaning.PromotionMeans` | internal/canary/verifier.go:449-793 | promotion is accepted exactly when plan, inputs and one document of each kind stand, check by check: named host checks, proofs with their ten bindings, signers, records and windows |
| `Canary.OneEvidencePerRole` | internal/canary/verifier.go:479-542 | each role is filled by exactly one document |
| `Canary.OrderIrrelevant` | internal/canary/verifier.go:479-542 | the order of the evidence documents never matters |
| `Canary.AcceptancePersists` | internal/canary/verifier.go:618-631 | with only the clock changed an acceptance persists for exactly the times before the earliest expiry, always within thirty minutes of the plan's issue |
| `Canary.DocumentInside` | internal/canary/verifier.go:499-501 | every window a document contributes lies inside the plan window |

## Left out

- Unicode: NFC validity of pointer tokens, case folding of paths and the portable-path rules are parameters of the models (`validToken`, `fold`); their tables are not modelled.
- Cryptography and canonicalization: SHA-256 is an arbitrary function, injective only where a lemma says so, and RFC 8785 canonicalization is a parameter; digests in the OCI models are numbers whose order is the order of their lower-case hexadecimal texts.
- The OCI graph digest and the recorded object metadata beyond media type and size (semantic roles, repository, artifact type): they are outputs that no check reads again.
- JsonAdmission.AdmitPayload: the library decoder is taken to accept exactly the texts of RFC 8259 in UTF-8 and to build the value of their one document; its own code is not modelled. Whether a decimal literal converts to a finite float is a parameter.
- JsonTree.ApplyLeafInPlace: a Go array is a slice header over shared storage, and `append` makes a new header that the parent stores back. Here an array is one container that grows where it stands, so a store-back is a no-op and two headers over one storage cannot be expressed. Object members, container identity and disjointness are modelled.
- JsonTree.Clone: the reflective data-model check on arbitrary Go values before marshalling is not modelled; documents are already decoded JSON.
- Customization.ScannedPatchIsClean: the scanner decodes an operand with the plain library decoder and the patcher with the limited canonical one; an operand that only the plain decoder accepts is scanned in the model as in the source but never reaches a document. The raw-secret patterns are one predicate on strings.
- Error messages: methods return error kinds, and contracts fix when they fail and that failures change nothing; where several checks fail at once the reported kind is pinned only where a row says so.
- Ustar.BuildTar: names are given as their UTF-8 bytes, whose order is Python's order of strings; names that cannot be encoded are not modelled, nor is the gzip layer.
- Lifecycle.Validate: the two name patterns are parameters; decoding of the JSON document and the nil model are not modelled.
- PlanGraph.VerifyPlan: nodes are visited in arbitrary rather than sorted order, which the result does not depend on; missing JSON members are not modelled.
- ProblemSchema.BuildProblemSchema: the table envelopes (schema, profile, version), the JSON shape checks of the tables and the rest of the root schema (formats, lengths, the retryAfter rule) are not part of this model; only the discriminating members are.
- The worklist `source_closure` and the rest of the port-type generator: constant data and an easy worklist.
- StrongETag.Print: quoting is modelled for printable ASCII, which is all a digest and a revision contain.
- DesiredState.DesiredStateHandler.Put: the re-read after a failed swap is modelled in the same state; in a concurrent run it may report later values. Routing, paths, titles, documentation links and correlation identifiers are not modelled.
- SwitchJournal.RunsStayConsistent: entries live for the process only, as in the source; persistence is not modelled.
- Canary.VerifyPromotion: canonicalization, schema validation, typed decoding and RFC 3339 parsing are parameters; mistyped result members, which the schema excludes, are not modelled.
- File, process, registry and network I/O, command lines, renderers, bundles and documentation checks: effects or templates without an internal theorem.
