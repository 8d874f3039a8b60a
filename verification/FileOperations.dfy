/**
 File deltas of internal/operations/operations.go: an operation list applied to a map of regular
 files under an incrementally kept case-folded path index. Unicode folding and descriptor syntax are
 parameters.
 */
module FileOperations {
  import opened Foundation
  import opened Splitting

  datatype Descriptor = Descriptor(
    repository: string, digest: string, mediaType: string, size: int,
    trustPolicyId: string, trustPolicyDigest: string)

  datatype FileRecord = FileRecord(content: Descriptor, mode: string)

  datatype Precondition = Precondition(kind: string, digest: string)

  datatype FileOperation = FileOperation(
    op: string, path: string, precondition: Precondition, content: Option<Descriptor>, mode: string)

  type FileState = map<string, FileRecord>

  /** `validatePortablePath` (None when refused) and `validateDescriptor`. */
  datatype FileRules = FileRules(fold: string -> Option<string>, validDescriptor: Descriptor -> bool)

  datatype DeltaError =
    | UnsupportedContract | TooManyOperations | BadExistingState | BadPath | BadIdentifier | DuplicateTarget
    | Collision | AncestorConflict | BadPrecondition | BadContent | BadMode | UnsupportedOperation

  const CONTRACT := "bytedesk.file-operations/1"
  const MAX_OPERATIONS: nat := 10_000
  const ABSENT := Precondition("absent", "")

  function Match(digest: string): Precondition {
    Precondition("match", digest)
  }

  predicate ValidMode(mode: string) {
    mode in ["0444", "0555", "0644", "0755"]
  }

  /** The names a path is made of. */
  function Segments(path: string): seq<string> {
    Split(path, '/')
  }

  /** One folded path is an ancestor directory of the other: its segments are the first of the other's, not all. */
  predicate Nested(a: string, b: string) {
    Segments(a) < Segments(b) || Segments(b) < Segments(a)
  }

  /** What the scan tests. */
  lemma NestedIsPrefix(a: string, b: string)
    ensures Nested(a, b) <==> b + "/" <= a || a + "/" <= b
  {
    ProperPrefix(a, b, '/');
    ProperPrefix(b, a, '/');
  }

  // ---------- states and their index ----------

  predicate SoundEntry(path: string, record: FileRecord, rules: FileRules) {
    rules.fold(path).Some? && ValidMode(record.mode) && rules.validDescriptor(record.content)
  }

  predicate SameFold(a: string, b: string, rules: FileRules) {
    rules.fold(a).Some? && rules.fold(a) == rules.fold(b)
  }

  predicate Conflict(a: string, b: string, rules: FileRules) {
    rules.fold(a).Some? && rules.fold(b).Some? && Nested(rules.fold(a).value, rules.fold(b).value)
  }

  /** What every accepted file map satisfies: sound entries, no two equal when folded, none inside another. */
  ghost predicate ValidState(state: FileState, rules: FileRules) {
    && (forall p :: p in state ==> SoundEntry(p, state[p], rules))
    && (forall p, q :: p in state && q in state && p != q ==> !SameFold(p, q, rules))
    && (forall p, q :: p in state && q in state && p != q ==> !Conflict(p, q, rules))
  }

  /** The folded index of a state: one entry per path. */
  ghost predicate IsIndex(index: map<string, string>, state: FileState, rules: FileRules) {
    && (forall p :: p in state ==>
          rules.fold(p).Some? && rules.fold(p).value in index && index[rules.fold(p).value] == p)
    && (forall f :: f in index ==> index[f] in state && rules.fold(index[f]) == Some(f))
  }

  /** `fileTreeConflict`: a scan of the index in any order. */
  method FileTreeConflict(index: map<string, string>, folded: string, self: Option<string>) returns (conflict: bool)
    ensures conflict <==>
      exists f :: f in index && Some(index[f]) != self && f != folded && Nested(folded, f)
  {
    var remaining := index.Keys;
    while remaining != {}
      invariant remaining <= index.Keys
      invariant forall f :: f in index.Keys - remaining ==>
        !(Some(index[f]) != self && f != folded && Nested(folded, f))
      decreases remaining
    {
      var existing :| existing in remaining;
      NestedIsPrefix(folded, existing);
      if Some(index[existing]) != self && existing != folded {
        if existing + "/" <= folded || folded + "/" <= existing {
          return true;
        }
      }
      remaining := remaining - {existing};
    }
    return false;
  }

  /** `filePathIndex`. */
  method FilePathIndex(state: FileState, rules: FileRules) returns (r: Result<map<string, string>, DeltaError>)
    ensures r.Ok? <==> ValidState(state, rules)
    ensures r.Ok? ==> IsIndex(r.value, state, rules)
  {
    var index: map<string, string> := map[];
    var remaining := state.Keys;
    while remaining != {}
      invariant remaining <= state.Keys
      invariant forall p :: p in state.Keys - remaining ==>
        SoundEntry(p, state[p], rules) && rules.fold(p).value in index && index[rules.fold(p).value] == p
      invariant forall f :: f in index ==> index[f] in state.Keys - remaining && rules.fold(index[f]) == Some(f)
      decreases remaining
    {
      var path :| path in remaining;
      var folded := rules.fold(path);
      if folded.None? {
        return Err(BadPath);
      }
      if folded.value in index {
        assert SameFold(path, index[folded.value], rules);
        return Err(Collision);
      }
      if !ValidMode(state[path].mode) {
        return Err(BadMode);
      }
      if !rules.validDescriptor(state[path].content) {
        return Err(BadContent);
      }
      index := index[folded.value := path];
      remaining := remaining - {path};
    }
    var folds := index.Keys;
    while folds != {}
      invariant folds <= index.Keys
      invariant forall f, g :: f in index.Keys - folds && g in index && f != g ==> !Nested(f, g)
      decreases folds
    {
      var folded :| folded in folds;
      var conflict := FileTreeConflict(index, folded, Some(index[folded]));
      if conflict {
        var f :| f in index && index[f] != index[folded] && Nested(folded, f);
        assert Conflict(index[folded], index[f], rules);
        return Err(AncestorConflict);
      }
      forall g | g in index && folded != g
        ensures !Nested(folded, g)
      {
        assert index[g] != index[folded];
      }
      folds := folds - {folded};
    }
    return Ok(index);
  }

  // ---------- one operation ----------

  /** The conditions that do not look at other files. */
  predicate WellFormedOperation(operation: FileOperation, rules: FileRules) {
    && rules.fold(operation.path).Some?
    && match operation.op
       case "add" =>
         && operation.precondition == ABSENT
         && operation.content.Some? && rules.validDescriptor(operation.content.value) && ValidMode(operation.mode)
       case "replace" =>
         && operation.precondition.kind == "match"
         && operation.content.Some? && rules.validDescriptor(operation.content.value) && ValidMode(operation.mode)
       case "remove" =>
         && operation.precondition.kind == "match" && operation.content.None? && operation.mode == ""
       case _ => false
  }

  /** The precondition against a state: the target is new, or present with the named digest. */
  ghost predicate PreconditionHolds(state: FileState, operation: FileOperation, rules: FileRules) {
    && (forall p :: p in state && SameFold(p, operation.path, rules) ==> p == operation.path)
    && (operation.op == "add" ==> operation.path !in state)
    && (operation.op != "add" ==>
          operation.path in state && operation.precondition.digest == state[operation.path].content.digest)
  }

  /** An added path must not lie inside, or contain, any file of the state. */
  ghost predicate Unobstructed(state: FileState, operation: FileOperation, rules: FileRules) {
    operation.op == "add" ==> forall p :: p in state ==> !Conflict(operation.path, p, rules)
  }

  ghost predicate Accepts(state: FileState, operation: FileOperation, rules: FileRules) {
    WellFormedOperation(operation, rules) && PreconditionHolds(state, operation, rules)
      && Unobstructed(state, operation, rules)
  }

  function Update(state: FileState, operation: FileOperation): FileState {
    if operation.op != "remove" && operation.content.Some? then
      state[operation.path := FileRecord(operation.content.value, operation.mode)]
    else state - {operation.path}
  }

  // ---------- operation lists ----------

  ghost predicate DistinctTargets(operations: seq<FileOperation>, rules: FileRules) {
    forall i, j :: 0 <= i < j < |operations| ==> !SameFold(operations[i].path, operations[j].path, rules)
  }

  function UpdateAll(state: FileState, operations: seq<FileOperation>): FileState {
    if operations == [] then state
    else Update(UpdateAll(state, operations[..|operations| - 1]), operations[|operations| - 1])
  }

  ghost predicate AcceptsAll(state: FileState, operations: seq<FileOperation>, rules: FileRules) {
    operations == [] ||
    var front := operations[..|operations| - 1];
    AcceptsAll(state, front, rules) && Accepts(UpdateAll(state, front), operations[|operations| - 1], rules)
  }

  /** When `ApplyFileOperations` succeeds. */
  ghost predicate Applicable(initial: FileState, contract: string, operations: seq<FileOperation>, rules: FileRules) {
    && contract == CONTRACT && |operations| <= MAX_OPERATIONS
    && ValidState(initial, rules) && DistinctTargets(operations, rules) && AcceptsAll(initial, operations, rules)
  }

  /** The checks of one loop iteration that need the index. */
  method CheckTarget(
    working: FileState, index: map<string, string>, operation: FileOperation, folded: string, rules: FileRules)
    returns (refusal: Option<DeltaError>)
    requires IsIndex(index, working, rules) && rules.fold(operation.path) == Some(folded)
    ensures refusal.None? <==> Accepts(working, operation, rules)
  {
    var collision := folded in index;
    var present := operation.path in working;
    if collision && index[folded] != operation.path {
      assert SameFold(index[folded], operation.path, rules);
      return Some(Collision);
    }
    assert forall p :: p in working && SameFold(p, operation.path, rules) ==> p == operation.path;
    if operation.op == "add" {
      if operation.precondition.kind != "absent" || operation.precondition.digest != "" {
        return Some(BadPrecondition);
      }
      if present || collision {
        return Some(BadPrecondition);
      }
      if operation.content.None? || !rules.validDescriptor(operation.content.value) {
        return Some(BadContent);
      }
      if !ValidMode(operation.mode) {
        return Some(BadMode);
      }
      var conflict := FileTreeConflict(index, folded, None);
      if conflict {
        var f :| f in index && f != folded && Nested(folded, f);
        assert Conflict(operation.path, index[f], rules);
        return Some(AncestorConflict);
      }
      forall p | p in working
        ensures !Conflict(operation.path, p, rules)
      {
      }
      return None;
    } else if operation.op == "replace" {
      if !present || operation.precondition.kind != "match" ||
         operation.precondition.digest != working[operation.path].content.digest {
        return Some(BadPrecondition);
      }
      if operation.content.None? || !rules.validDescriptor(operation.content.value) {
        return Some(BadContent);
      }
      if !ValidMode(operation.mode) {
        return Some(BadMode);
      }
      return None;
    } else if operation.op == "remove" {
      if operation.content.Some? || operation.mode != "" {
        return Some(BadContent);
      }
      if !present || operation.precondition.kind != "match" ||
         operation.precondition.digest != working[operation.path].content.digest {
        return Some(BadPrecondition);
      }
      return None;
    }
    return Some(UnsupportedOperation);
  }

  // ---------- what every operation keeps ----------

  lemma UpdateKeepsValid(state: FileState, operation: FileOperation, rules: FileRules)
    requires ValidState(state, rules) && Accepts(state, operation, rules)
    ensures ValidState(Update(state, operation), rules)
  {
    var next := Update(state, operation);
    forall p, q | p in next && q in next && p != q
      ensures !SameFold(p, q, rules) && !Conflict(p, q, rules)
    {
    }
  }

  lemma {:induction false} AcceptsPrefix(state: FileState, operations: seq<FileOperation>, n: nat, rules: FileRules)
    requires n < |operations| && AcceptsAll(state, operations, rules)
    ensures AcceptsAll(state, operations[..n], rules)
    ensures Accepts(UpdateAll(state, operations[..n]), operations[n], rules)
    decreases |operations|
  {
    var front := operations[..|operations| - 1];
    if n < |front| {
      AcceptsPrefix(state, front, n, rules);
      assert front[..n] == operations[..n];
    } else {
      assert operations[..n] == front;
    }
  }

  lemma {:induction false} AcceptsByPrefixes(state: FileState, operations: seq<FileOperation>, rules: FileRules)
    requires forall n :: 0 <= n < |operations| ==> Accepts(UpdateAll(state, operations[..n]), operations[n], rules)
    ensures AcceptsAll(state, operations, rules)
    decreases |operations|
  {
    if operations != [] {
      hide Accepts, UpdateAll;
      var front := operations[..|operations| - 1];
      forall n | 0 <= n < |front|
        ensures Accepts(UpdateAll(state, front[..n]), front[n], rules)
      {
        assert front[..n] == operations[..n];
      }
      AcceptsByPrefixes(state, front, rules);
    }
  }

  lemma AcceptsOneMore(state: FileState, operations: seq<FileOperation>, n: nat, rules: FileRules)
    requires n < |operations| && AcceptsAll(state, operations[..n], rules)
    ensures UpdateAll(state, operations[..n + 1]) == Update(UpdateAll(state, operations[..n]), operations[n])
    ensures AcceptsAll(state, operations[..n + 1], rules) <==>
      Accepts(UpdateAll(state, operations[..n]), operations[n], rules)
    ensures AcceptsAll(state, operations, rules) ==> Accepts(UpdateAll(state, operations[..n]), operations[n], rules)
  {
    assert operations[..n + 1][..n] == operations[..n];
    if AcceptsAll(state, operations, rules) {
      AcceptsPrefix(state, operations, n, rules);
    }
  }

  /** The assignments of one accepted iteration. */
  method Commit(
    working: FileState, index: map<string, string>, operation: FileOperation, folded: string, rules: FileRules)
    returns (newWorking: FileState, newIndex: map<string, string>)
    requires IsIndex(index, working, rules) && Accepts(working, operation, rules)
    requires rules.fold(operation.path) == Some(folded)
    ensures newWorking == Update(working, operation) && IsIndex(newIndex, newWorking, rules)
  {
    newWorking, newIndex := working, index;
    if operation.op == "add" {
      newWorking := newWorking[operation.path := FileRecord(operation.content.value, operation.mode)];
      newIndex := newIndex[folded := operation.path];
    } else if operation.op == "replace" {
      newWorking := newWorking[operation.path := FileRecord(operation.content.value, operation.mode)];
    } else {
      newWorking := newWorking - {operation.path};
      newIndex := newIndex - {folded};
    }
  }

  /** `ApplyFileOperations`. */
  method ApplyFileOperations(initial: FileState, contract: string, operations: seq<FileOperation>, rules: FileRules)
    returns (r: Result<FileState, DeltaError>)
    ensures r.Ok? <==> Applicable(initial, contract, operations, rules)
    ensures r.Ok? ==> r.value == UpdateAll(initial, operations) && ValidState(r.value, rules)
  {
    if contract != CONTRACT {
      return Err(UnsupportedContract);
    }
    if |operations| > MAX_OPERATIONS {
      return Err(TooManyOperations);
    }
    hide AcceptsAll, UpdateAll, DistinctTargets, ValidState, IsIndex;
    var indexed := FilePathIndex(initial, rules);
    if indexed.Err? {
      return Err(indexed.error);
    }
    r := ApplyIndexed(initial, indexed.value, operations, rules);
  }

  /** The loop of `ApplyFileOperations`. */
  method ApplyIndexed(
    initial: FileState, initialIndex: map<string, string>, operations: seq<FileOperation>, rules: FileRules)
    returns (r: Result<FileState, DeltaError>)
    requires ValidState(initial, rules) && IsIndex(initialIndex, initial, rules)
    ensures r.Ok? <==> DistinctTargets(operations, rules) && AcceptsAll(initial, operations, rules)
    ensures r.Ok? ==> r.value == UpdateAll(initial, operations) && ValidState(r.value, rules)
  {
    var working, index := initial, initialIndex;
    var seenTargets: set<string> := {};
    var n := 0;
    StartsAccepted(initial, operations, rules);
    hide Underway, Accepts, AcceptsAll, UpdateAll, DistinctTargets, ValidState, IsIndex, Update;
    while n < |operations|
      invariant 0 <= n <= |operations|
      invariant Underway(initial, operations[..n], working, seenTargets, rules)
      invariant IsIndex(index, working, rules)
    {
      var operation := operations[n];
      var folded := rules.fold(operation.path);
      NextIteration(initial, operations, n, working, seenTargets, rules);
      if folded.None? {
        return Err(BadPath);
      }
      if folded.value in seenTargets {
        return Err(DuplicateTarget);
      }
      seenTargets := seenTargets + {folded.value};
      var refusal := CheckTarget(working, index, operation, folded.value, rules);
      if refusal.Some? {
        return Err(refusal.value);
      }
      working, index := Commit(working, index, operation, folded.value, rules);
      n := n + 1;
    }
    assert operations[..n] == operations;
    return Ok(working);
  }

  /** What the loop of `ApplyFileOperations` has established after the given operations. */
  ghost predicate Underway(
    initial: FileState, done: seq<FileOperation>, working: FileState, seen: set<string>, rules: FileRules)
  {
    && working == UpdateAll(initial, done) && ValidState(working, rules)
    && AcceptsAll(initial, done, rules) && DistinctTargets(done, rules) && SeenExactly(seen, done, rules)
  }

  lemma NextIteration(
    initial: FileState, operations: seq<FileOperation>, n: nat, working: FileState, seen: set<string>, rules: FileRules)
    requires n < |operations| && Underway(initial, operations[..n], working, seen, rules)
    ensures var folded := rules.fold(operations[n].path);
      && (folded.None? || !Accepts(working, operations[n], rules) ==> !AcceptsAll(initial, operations, rules))
      && (folded.Some? && folded.value in seen ==> !DistinctTargets(operations, rules))
      && (folded.Some? && folded.value !in seen && Accepts(working, operations[n], rules) ==>
            Underway(initial, operations[..n + 1], Update(working, operations[n]), seen + {folded.value}, rules))
  {
    hide AcceptsAll, UpdateAll, ValidState, DistinctTargets, SeenExactly;
    AcceptsOneMore(initial, operations, n, rules);
    hide Accepts, Update;
    if rules.fold(operations[n].path).Some? {
      SeenOneMore(seen, operations, n, rules);
      DistinctOneMore(seen, operations, n, rules);
      if Accepts(working, operations[n], rules) {
        UpdateKeepsValid(working, operations[n], rules);
      }
    }
  }

  /** The folded targets of a list of operations. */
  ghost predicate SeenExactly(seen: set<string>, operations: seq<FileOperation>, rules: FileRules) {
    && (forall i :: 0 <= i < |operations| ==>
          rules.fold(operations[i].path).Some? && rules.fold(operations[i].path).value in seen)
    && (forall f :: f in seen ==> exists i :: 0 <= i < |operations| && rules.fold(operations[i].path) == Some(f))
  }

  lemma SeenOneMore(seen: set<string>, operations: seq<FileOperation>, n: nat, rules: FileRules)
    requires n < |operations| && rules.fold(operations[n].path).Some?
    requires SeenExactly(seen, operations[..n], rules)
    ensures SeenExactly(seen + {rules.fold(operations[n].path).value}, operations[..n + 1], rules)
  {
    var front, all := operations[..n], operations[..n + 1];
    forall f | f in seen + {rules.fold(operations[n].path).value}
      ensures exists i :: 0 <= i < |all| && rules.fold(all[i].path) == Some(f)
    {
      if f in seen {
        var i :| 0 <= i < |front| && rules.fold(front[i].path) == Some(f);
        assert all[i] == front[i];
      } else {
        assert all[n] == operations[n];
      }
    }
  }

  lemma DistinctOneMore(seen: set<string>, operations: seq<FileOperation>, n: nat, rules: FileRules)
    requires n < |operations| && rules.fold(operations[n].path).Some?
    requires SeenExactly(seen, operations[..n], rules) && DistinctTargets(operations[..n], rules)
    ensures rules.fold(operations[n].path).value in seen ==> !DistinctTargets(operations, rules)
    ensures rules.fold(operations[n].path).value !in seen ==> DistinctTargets(operations[..n + 1], rules)
  {
    var folded := rules.fold(operations[n].path).value;
    var front, all := operations[..n], operations[..n + 1];
    if folded in seen {
      var i :| 0 <= i < |front| && rules.fold(front[i].path) == Some(folded);
      assert SameFold(operations[i].path, operations[n].path, rules);
    } else {
      forall i, j | 0 <= i < j < |all|
        ensures !SameFold(all[i].path, all[j].path, rules)
      {
        assert front[i] == all[i];
        if j < n {
          assert front[j] == all[j];
        }
      }
    }
  }

  lemma StartsAccepted(initial: FileState, operations: seq<FileOperation>, rules: FileRules)
    requires ValidState(initial, rules)
    ensures Underway(initial, operations[..0], initial, {}, rules)
  {
  }
}
