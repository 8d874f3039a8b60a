/** Whole-delta laws of file operations: declarative effect, exact acceptance, reordering and inverses. */
module FileDeltaAlgebra {
  import opened Foundation
  import opened FileOperations

  /** What one operation leaves at its own path. */
  function Effect(operation: FileOperation): Option<FileRecord> {
    if operation.op != "remove" && operation.content.Some? then
      Some(FileRecord(operation.content.value, operation.mode))
    else None
  }

  ghost predicate DistinctPaths(operations: seq<FileOperation>) {
    forall i, j :: 0 <= i < j < |operations| ==> operations[i].path != operations[j].path
  }

  // ---------- the declarative effect ----------

  /** Paths no operation names keep their record; a named path holds what its one operation says. */
  lemma {:induction false} EffectAt(initial: FileState, operations: seq<FileOperation>, path: string)
    requires DistinctPaths(operations)
    ensures (forall i :: 0 <= i < |operations| ==> operations[i].path != path) ==>
      ValueAt(UpdateAll(initial, operations), path) == ValueAt(initial, path)
    ensures forall i :: 0 <= i < |operations| && operations[i].path == path ==>
      ValueAt(UpdateAll(initial, operations), path) == Effect(operations[i])
    decreases |operations|
  {
    if operations != [] {
      var last := |operations| - 1;
      EffectAt(initial, operations[..last], path);
    }
  }

  lemma AcceptedPathsDistinct(operations: seq<FileOperation>, rules: FileRules)
    requires DistinctTargets(operations, rules)
    requires forall i :: 0 <= i < |operations| ==> WellFormedOperation(operations[i], rules)
    ensures DistinctPaths(operations)
  {
    forall i, j | 0 <= i < j < |operations|
      ensures operations[i].path != operations[j].path
    {
      assert !SameFold(operations[i].path, operations[j].path, rules);
    }
  }

  // ---------- exact acceptance ----------

  /** An add is cleared when what it would collide with was removed before, and no earlier add collides. */
  ghost predicate Cleared(initial: FileState, operations: seq<FileOperation>, n: nat, rules: FileRules)
    requires n < |operations|
  {
    operations[n].op == "add" ==>
      && (forall p :: p in initial && Conflict(operations[n].path, p, rules) ==>
            exists j :: 0 <= j < n && operations[j].op == "remove" && operations[j].path == p)
      && (forall j :: 0 <= j < n && operations[j].op == "add" ==>
            !Conflict(operations[n].path, operations[j].path, rules))
  }

  /** Everything about operation `n` that has to hold, stated on the initial files and the list only. */
  ghost predicate Settled(initial: FileState, operations: seq<FileOperation>, n: nat, rules: FileRules)
    requires n < |operations|
  {
    && WellFormedOperation(operations[n], rules)
    && PreconditionHolds(initial, operations[n], rules)
    && Cleared(initial, operations, n, rules)
  }

  /** The files present when operation `n` runs. */
  lemma PresentBefore(initial: FileState, operations: seq<FileOperation>, n: nat, p: string)
    requires n < |operations| && DistinctPaths(operations)
    requires forall j :: 0 <= j < n ==> operations[j].op == "remove" || operations[j].content.Some?
    ensures p in UpdateAll(initial, operations[..n]) <==>
      || (exists j :: 0 <= j < n && operations[j].path == p && operations[j].op != "remove")
      || (p in initial && forall j :: 0 <= j < n ==> operations[j].path != p)
    ensures (forall j :: 0 <= j < n ==> operations[j].path != p) ==>
      ValueAt(UpdateAll(initial, operations[..n]), p) == ValueAt(initial, p)
  {
    var front := operations[..n];
    EffectAt(initial, front, p);
    if j :| 0 <= j < n && operations[j].path == p {
      assert front[j].path == p;
      assert ValueAt(UpdateAll(initial, front), p) == Effect(front[j]);
    }
  }

  lemma PreconditionIsInitial(initial: FileState, operations: seq<FileOperation>, n: nat, rules: FileRules)
    requires n < |operations| && DistinctTargets(operations, rules)
    requires forall j :: 0 <= j <= n ==> WellFormedOperation(operations[j], rules)
    requires DistinctPaths(operations)
    ensures PreconditionHolds(UpdateAll(initial, operations[..n]), operations[n], rules) <==>
      PreconditionHolds(initial, operations[n], rules)
  {
    var before := UpdateAll(initial, operations[..n]);
    var target := operations[n].path;
    forall p | SameFold(p, target, rules)
      ensures ValueAt(before, p) == ValueAt(initial, p)
    {
      forall j | 0 <= j < n
        ensures operations[j].path != p
      {
        assert !SameFold(operations[j].path, target, rules);
      }
      PresentBefore(initial, operations, n, p);
    }
    assert ValueAt(before, target) == ValueAt(initial, target);
    assert forall p :: SameFold(p, target, rules) ==> (p in before <==> p in initial) by {
      forall p | SameFold(p, target, rules)
        ensures p in before <==> p in initial
      {
        assert ValueAt(before, p) == ValueAt(initial, p);
      }
    }
  }

  lemma ClearedIsUnobstructed(initial: FileState, operations: seq<FileOperation>, n: nat, rules: FileRules)
    requires n < |operations| && DistinctPaths(operations)
    requires forall j :: 0 <= j < n ==> Settled(initial, operations, j, rules)
    ensures Unobstructed(UpdateAll(initial, operations[..n]), operations[n], rules) <==>
      Cleared(initial, operations, n, rules)
  {
    hide UpdateAll, PreconditionHolds, Conflict, Cleared, Unobstructed;
    forall j | 0 <= j < n
      ensures operations[j].op == "remove" || operations[j].content.Some?
      ensures operations[j].op in ["add", "replace", "remove"]
      ensures operations[j].op == "replace" ==> operations[j].path in initial
    {
      assert Settled(initial, operations, j, rules);
      ReplacesInitial(initial, operations[j], rules);
    }
    hide Settled, WellFormedOperation;
    if Unobstructed(UpdateAll(initial, operations[..n]), operations[n], rules) {
      UnobstructedIsCleared(initial, operations, n, rules);
    }
    if Cleared(initial, operations, n, rules) {
      ClearedLeavesRoom(initial, operations, n, rules);
    }
  }

  lemma ReplacesInitial(initial: FileState, operation: FileOperation, rules: FileRules)
    requires PreconditionHolds(initial, operation, rules)
    ensures operation.op == "replace" ==> operation.path in initial
  {
  }

  lemma UnobstructedIsCleared(initial: FileState, operations: seq<FileOperation>, n: nat, rules: FileRules)
    requires n < |operations| && DistinctPaths(operations)
    requires forall j :: 0 <= j < n ==> operations[j].op == "remove" || operations[j].content.Some?
    requires Unobstructed(UpdateAll(initial, operations[..n]), operations[n], rules)
    ensures Cleared(initial, operations, n, rules)
  {
    hide UpdateAll, Conflict;
    var target := operations[n].path;
    if operations[n].op == "add" {
      forall p | p in initial && Conflict(target, p, rules)
        ensures exists j :: 0 <= j < n && operations[j].op == "remove" && operations[j].path == p
      {
        PresentBefore(initial, operations, n, p);
      }
      forall j | 0 <= j < n && operations[j].op == "add"
        ensures !Conflict(target, operations[j].path, rules)
      {
        PresentBefore(initial, operations, n, operations[j].path);
      }
    }
  }

  lemma ClearedLeavesRoom(initial: FileState, operations: seq<FileOperation>, n: nat, rules: FileRules)
    requires n < |operations| && DistinctPaths(operations)
    requires forall j :: 0 <= j < n ==> operations[j].op == "remove" || operations[j].content.Some?
    requires forall j :: 0 <= j < n ==> operations[j].op in ["add", "replace", "remove"]
    requires forall j :: 0 <= j < n ==> operations[j].op == "replace" ==> operations[j].path in initial
    requires Cleared(initial, operations, n, rules)
    ensures Unobstructed(UpdateAll(initial, operations[..n]), operations[n], rules)
  {
    hide UpdateAll, Conflict;
    if operations[n].op == "add" {
      forall p | p in UpdateAll(initial, operations[..n])
        ensures !Conflict(operations[n].path, p, rules)
      {
        PresentBefore(initial, operations, n, p);
      }
    }
  }

  /** With the operations before it settled, an operation is accepted exactly when it is settled. */
  lemma AcceptedIsSettled(initial: FileState, operations: seq<FileOperation>, n: nat, rules: FileRules)
    requires n < |operations| && DistinctTargets(operations, rules)
    requires forall j :: 0 <= j < |operations| ==> WellFormedOperation(operations[j], rules)
    requires forall j :: 0 <= j < n ==> Settled(initial, operations, j, rules)
    ensures Accepts(UpdateAll(initial, operations[..n]), operations[n], rules) <==>
      Settled(initial, operations, n, rules)
  {
    hide UpdateAll, PreconditionHolds, Unobstructed, Cleared, DistinctTargets;
    AcceptedPathsDistinct(operations, rules);
    PreconditionIsInitial(initial, operations, n, rules);
    ClearedIsUnobstructed(initial, operations, n, rules);
    hide WellFormedOperation;
  }

  lemma {:induction false} SettledUpTo(initial: FileState, operations: seq<FileOperation>, n: nat, rules: FileRules)
    requires n <= |operations| && DistinctTargets(operations, rules)
    requires forall j :: 0 <= j < |operations| ==> WellFormedOperation(operations[j], rules)
    ensures (forall j :: 0 <= j < n ==> Accepts(UpdateAll(initial, operations[..j]), operations[j], rules)) <==>
      (forall j :: 0 <= j < n ==> Settled(initial, operations, j, rules))
    decreases n
  {
    hide UpdateAll, Accepts, Settled, WellFormedOperation, DistinctTargets;
    if n > 0 {
      SettledUpTo(initial, operations, n - 1, rules);
      if forall j :: 0 <= j < n - 1 ==> Settled(initial, operations, j, rules) {
        AcceptedIsSettled(initial, operations, n - 1, rules);
      }
    }
  }

  /** Sequential acceptance, decided without running anything: every operation is settled on the initial files. */
  lemma AcceptanceExact(initial: FileState, operations: seq<FileOperation>, rules: FileRules)
    requires DistinctTargets(operations, rules)
    ensures AcceptsAll(initial, operations, rules) <==>
      forall n :: 0 <= n < |operations| ==> Settled(initial, operations, n, rules)
  {
    if AcceptsAll(initial, operations, rules) {
      forall n | 0 <= n < |operations|
        ensures Accepts(UpdateAll(initial, operations[..n]), operations[n], rules)
          && WellFormedOperation(operations[n], rules)
      {
        AcceptsPrefix(initial, operations, n, rules);
      }
      SettledUpTo(initial, operations, |operations|, rules);
    }
    if forall n :: 0 <= n < |operations| ==> Settled(initial, operations, n, rules) {
      forall n | 0 <= n < |operations|
        ensures WellFormedOperation(operations[n], rules)
      {
        assert Settled(initial, operations, n, rules);
      }
      SettledUpTo(initial, operations, |operations|, rules);
      AcceptsByPrefixes(initial, operations, rules);
    }
  }

  // ---------- a delta judged in the words of its contract ----------

  /** The folded names of one path are the first, but not all, of the other's. */
  ghost predicate Crosses(a: string, b: string, rules: FileRules) {
    && rules.fold(a).Some? && rules.fold(b).Some?
    && var x, y := Segments(rules.fold(a).value), Segments(rules.fold(b).value);
       x < y || y < x
  }

  ghost predicate SoundRecord(content: Descriptor, mode: string, rules: FileRules) {
    rules.validDescriptor(content) && mode in ["0444", "0555", "0644", "0755"]
  }

  /** A file map that may stand: sound records, folded paths pairwise different and none above another. */
  ghost predicate Stands(state: FileState, rules: FileRules) {
    && (forall p :: p in state ==> rules.fold(p).Some? && SoundRecord(state[p].content, state[p].mode, rules))
    && (forall p, q :: p in state && q in state && p != q ==> rules.fold(p) != rules.fold(q) && !Crosses(p, q, rules))
  }

  /** The new file takes no path in use, and what crosses it in the initial files is removed before it. */
  ghost predicate AddStands(initial: FileState, operations: seq<FileOperation>, n: nat, rules: FileRules)
    requires n < |operations|
  {
    var o := operations[n];
    && o.precondition.kind == "absent" && o.precondition.digest == ""
    && o.content.Some? && SoundRecord(o.content.value, o.mode, rules)
    && (forall p :: p in initial ==> rules.fold(p) != rules.fold(o.path))
    && (forall p :: p in initial && Crosses(o.path, p, rules) ==>
          exists j :: 0 <= j < n && operations[j].op == "remove" && operations[j].path == p)
    && (forall j :: 0 <= j < n && operations[j].op == "add" ==> !Crosses(o.path, operations[j].path, rules))
  }

  /** The file is there and is the one the caller saw. */
  predicate SeenFile(initial: FileState, o: FileOperation) {
    && o.precondition.kind == "match" && o.path in initial
    && o.precondition.digest == initial[o.path].content.digest
  }

  ghost predicate OperationStands(initial: FileState, operations: seq<FileOperation>, n: nat, rules: FileRules)
    requires n < |operations|
  {
    var o := operations[n];
    && rules.fold(o.path).Some?
    && match o.op
       case "add" => AddStands(initial, operations, n, rules)
       case "replace" => SeenFile(initial, o) && o.content.Some? && SoundRecord(o.content.value, o.mode, rules)
       case "remove" => SeenFile(initial, o) && o.content.None? && o.mode == ""
       case _ => false
  }

  lemma CrossesIsConflict(a: string, b: string, rules: FileRules)
    ensures Crosses(a, b, rules) <==> Conflict(a, b, rules)
  {
  }

  lemma StandsIsValid(state: FileState, rules: FileRules)
    ensures Stands(state, rules) <==> ValidState(state, rules)
  {
    forall p, q | p in state && q in state && p != q
      ensures Crosses(p, q, rules) <==> Conflict(p, q, rules)
    {
      CrossesIsConflict(p, q, rules);
    }
    hide Crosses, Conflict;
  }

  lemma SettledIsStanding(initial: FileState, operations: seq<FileOperation>, n: nat, rules: FileRules)
    requires n < |operations| && ValidState(initial, rules)
    ensures Settled(initial, operations, n, rules) <==> OperationStands(initial, operations, n, rules)
  {
    var o := operations[n];
    forall p
      ensures Crosses(o.path, p, rules) <==> Conflict(o.path, p, rules)
    {
      CrossesIsConflict(o.path, p, rules);
    }
    hide Crosses, Conflict;
  }

  /** When a file delta succeeds, said of its initial files and its operations alone. */
  lemma DeltaSucceedsExactly(initial: FileState, contract: string, operations: seq<FileOperation>, rules: FileRules)
    ensures Applicable(initial, contract, operations, rules) <==>
      && contract == "bytedesk.file-operations/1" && |operations| <= 10_000 && Stands(initial, rules)
      && (forall n :: 0 <= n < |operations| ==> OperationStands(initial, operations, n, rules))
      && (forall i, j :: 0 <= i < j < |operations| ==> rules.fold(operations[i].path) != rules.fold(operations[j].path))
  {
    hide ValidState, Stands, Settled, OperationStands, AcceptsAll;
    StandsIsValid(initial, rules);
    if ValidState(initial, rules) {
      forall n | 0 <= n < |operations|
        ensures Settled(initial, operations, n, rules) <==> OperationStands(initial, operations, n, rules)
        ensures OperationStands(initial, operations, n, rules) ==> rules.fold(operations[n].path).Some?
      {
        SettledIsStanding(initial, operations, n, rules);
        StandingFolds(initial, operations, n, rules);
      }
      if DistinctTargets(operations, rules) {
        AcceptanceExact(initial, operations, rules);
      }
    }
  }

  lemma StandingFolds(initial: FileState, operations: seq<FileOperation>, n: nat, rules: FileRules)
    requires n < |operations|
    ensures OperationStands(initial, operations, n, rules) ==> rules.fold(operations[n].path).Some?
  {
  }

  // ---------- reordering ----------

  /** Every remove that frees the way for an add stands before it. */
  ghost predicate RemovesFirst(operations: seq<FileOperation>, rules: FileRules) {
    forall i, j :: 0 <= i < |operations| && 0 <= j < |operations| ==>
      operations[i].op == "add" && operations[j].op == "remove" ==>
      Conflict(operations[i].path, operations[j].path, rules) ==> j < i
  }

  lemma ReorderingKeepsDistinctness(operations: seq<FileOperation>, reordered: seq<FileOperation>, rules: FileRules)
    requires DistinctTargets(operations, rules) && multiset(operations) == multiset(reordered)
    requires forall i :: 0 <= i < |operations| ==> WellFormedOperation(operations[i], rules)
    ensures DistinctTargets(reordered, rules)
    ensures forall i :: 0 <= i < |reordered| ==> reordered[i] in operations
    ensures forall i :: 0 <= i < |operations| ==> operations[i] in reordered
  {
    AcceptedPathsDistinct(operations, rules);
    PermutationOfDistinct(operations, reordered);
    forall i, j | 0 <= i < j < |reordered|
      ensures !SameFold(reordered[i].path, reordered[j].path, rules)
    {
      assert reordered[i] in operations && reordered[j] in operations;
      var a :| 0 <= a < |operations| && operations[a] == reordered[i];
      var b :| 0 <= b < |operations| && operations[b] == reordered[j];
      assert !SameFold(operations[if a < b then a else b].path, operations[if a < b then b else a].path, rules);
    }
  }

  /**
   The orders of one operation set that succeed, given that one does: exactly those in which removes
   precede the adds they make room for. All of them give the same files.
   */
  lemma ReorderExact(
    initial: FileState, operations: seq<FileOperation>, reordered: seq<FileOperation>, rules: FileRules)
    requires DistinctTargets(operations, rules) && AcceptsAll(initial, operations, rules)
    requires multiset(operations) == multiset(reordered)
    ensures DistinctTargets(reordered, rules)
    ensures AcceptsAll(initial, reordered, rules) <==> RemovesFirst(reordered, rules)
    ensures UpdateAll(initial, reordered) == UpdateAll(initial, operations)
  {
    AcceptanceExact(initial, operations, rules);
    AllWellFormed(initial, operations, rules);
    ReorderingKeepsDistinctness(operations, reordered, rules);
    AcceptanceExact(initial, reordered, rules);
    if RemovesFirst(reordered, rules) {
      forall n | 0 <= n < |reordered|
        ensures Settled(initial, reordered, n, rules)
      {
        ReorderedIsSettled(initial, operations, reordered, n, rules);
      }
    }
    if AcceptsAll(initial, reordered, rules) {
      SettledRemovesFirst(initial, reordered, rules);
    }
    SameEffect(initial, operations, reordered, rules);
  }

  lemma AllWellFormed(initial: FileState, operations: seq<FileOperation>, rules: FileRules)
    requires forall n :: 0 <= n < |operations| ==> Settled(initial, operations, n, rules)
    ensures forall n :: 0 <= n < |operations| ==> WellFormedOperation(operations[n], rules)
  {
    forall n | 0 <= n < |operations|
      ensures WellFormedOperation(operations[n], rules)
    {
      assert Settled(initial, operations, n, rules);
    }
  }

  lemma SettledRemovesFirst(initial: FileState, operations: seq<FileOperation>, rules: FileRules)
    requires DistinctTargets(operations, rules)
    requires forall n :: 0 <= n < |operations| ==> Settled(initial, operations, n, rules)
    ensures RemovesFirst(operations, rules)
  {
    AllWellFormed(initial, operations, rules);
    AcceptedPathsDistinct(operations, rules);
    forall i, j | 0 <= i < |operations| && 0 <= j < |operations|
      && operations[i].op == "add" && operations[j].op == "remove"
      && Conflict(operations[i].path, operations[j].path, rules)
      ensures j < i
    {
      assert Settled(initial, operations, i, rules) && Settled(initial, operations, j, rules);
      var k :| 0 <= k < i && operations[k].op == "remove" && operations[k].path == operations[j].path;
      assert k == j;
    }
  }

  lemma ReorderedIsSettled(
    initial: FileState, operations: seq<FileOperation>, reordered: seq<FileOperation>, n: nat, rules: FileRules)
    requires n < |reordered| && RemovesFirst(reordered, rules)
    requires forall i :: 0 <= i < |operations| ==> Settled(initial, operations, i, rules)
    requires DistinctTargets(reordered, rules)
    requires forall i :: 0 <= i < |reordered| ==> reordered[i] in operations
    requires forall i :: 0 <= i < |operations| ==> operations[i] in reordered
    ensures Settled(initial, reordered, n, rules)
  {
    assert reordered[n] in operations;
    var m :| 0 <= m < |operations| && operations[m] == reordered[n];
    assert Settled(initial, operations, m, rules);
    if reordered[n].op == "add" {
      forall p | p in initial && Conflict(reordered[n].path, p, rules)
        ensures exists j :: 0 <= j < n && reordered[j].op == "remove" && reordered[j].path == p
      {
        var k :| 0 <= k < m && operations[k].op == "remove" && operations[k].path == p;
        var j :| 0 <= j < |reordered| && reordered[j] == operations[k];
        assert j < n;
      }
      forall j | 0 <= j < n && reordered[j].op == "add"
        ensures !Conflict(reordered[n].path, reordered[j].path, rules)
      {
        var k :| 0 <= k < |operations| && operations[k] == reordered[j];
        assert Settled(initial, operations, k, rules);
        assert k != m by {
          assert !SameFold(reordered[j].path, reordered[n].path, rules);
        }
      }
    }
  }

  lemma SameEffect(initial: FileState, operations: seq<FileOperation>, reordered: seq<FileOperation>, rules: FileRules)
    requires DistinctTargets(operations, rules) && DistinctTargets(reordered, rules)
    requires forall i :: 0 <= i < |operations| ==> WellFormedOperation(operations[i], rules)
    requires forall i :: 0 <= i < |reordered| ==> reordered[i] in operations
    requires forall i :: 0 <= i < |operations| ==> operations[i] in reordered
    ensures UpdateAll(initial, reordered) == UpdateAll(initial, operations)
  {
    AcceptedPathsDistinct(operations, rules);
    AcceptedPathsDistinct(reordered, rules);
    var a, b := UpdateAll(initial, operations), UpdateAll(initial, reordered);
    forall p
      ensures ValueAt(a, p) == ValueAt(b, p)
    {
      EffectAt(initial, operations, p);
      EffectAt(initial, reordered, p);
      if i :| 0 <= i < |operations| && operations[i].path == p {
        var j :| 0 <= j < |reordered| && reordered[j] == operations[i];
      } else if j :| 0 <= j < |reordered| && reordered[j].path == p {
        assert reordered[j] in operations;
      }
    }
    SameMaps(a, b);
  }

  // ---------- inverses ----------

  /** The operation that takes one accepted operation back, given the files before it. */
  function InverseOperation(initial: FileState, operation: FileOperation): FileOperation {
    if operation.op == "add" && operation.content.Some? then
      FileOperation("remove", operation.path, Match(operation.content.value.digest), None, "")
    else if operation.path in initial then
      var prior := initial[operation.path];
      if operation.op == "remove" then FileOperation("add", operation.path, ABSENT, Some(prior.content), prior.mode)
      else if operation.content.Some? then
        FileOperation("replace", operation.path, Match(operation.content.value.digest), Some(prior.content), prior.mode)
      else operation
    else operation
  }

  /** Last operation first. */
  function InverseAll(initial: FileState, operations: seq<FileOperation>): (inverse: seq<FileOperation>)
    ensures |inverse| == |operations|
  {
    if operations == [] then []
    else
      var last := |operations| - 1;
      [InverseOperation(initial, operations[last])] + InverseAll(initial, operations[..last])
  }

  lemma {:induction false} InversePaths(initial: FileState, operations: seq<FileOperation>, k: nat)
    requires k < |operations|
    ensures InverseAll(initial, operations)[k].path == operations[|operations| - 1 - k].path
    decreases |operations|
  {
    if k > 0 {
      InversePaths(initial, operations[..|operations| - 1], k - 1);
    }
  }

  lemma {:induction false} AcceptsCons(
    state: FileState, first: FileOperation, rest: seq<FileOperation>, rules: FileRules)
    requires Accepts(state, first, rules) && AcceptsAll(Update(state, first), rest, rules)
    ensures AcceptsAll(state, [first] + rest, rules)
    ensures UpdateAll(state, [first] + rest) == UpdateAll(Update(state, first), rest)
    decreases |rest|
  {
    var all := [first] + rest;
    if rest == [] {
      assert all[..0] == [] && all[0] == first;
      assert UpdateAll(state, all[..0]) == state;
    } else {
      var last := |rest| - 1;
      assert all[..|all| - 1] == [first] + rest[..last];
      AcceptsCons(state, first, rest[..last], rules);
    }
  }

  /** Undoing the last operation of a run whose earlier operations did not touch its path. */
  lemma UndoOne(initial: FileState, before: FileState, operation: FileOperation, rules: FileRules)
    requires ValidState(before, rules) && Accepts(before, operation, rules)
    requires ValueAt(before, operation.path) == ValueAt(initial, operation.path)
    ensures Accepts(Update(before, operation), InverseOperation(initial, operation), rules)
    ensures Update(Update(before, operation), InverseOperation(initial, operation)) == before
  {
    var after := Update(before, operation);
    var inverse := InverseOperation(initial, operation);
    if operation.op == "remove" {
      forall p | p in after
        ensures !Conflict(operation.path, p, rules) && !SameFold(p, operation.path, rules)
      {
      }
      assert SoundEntry(operation.path, before[operation.path], rules);
    } else if operation.op == "replace" {
      assert SoundEntry(operation.path, before[operation.path], rules);
    }
  }

  lemma {:induction false} RunKeepsValid(initial: FileState, operations: seq<FileOperation>, rules: FileRules)
    requires ValidState(initial, rules) && AcceptsAll(initial, operations, rules)
    ensures ValidState(UpdateAll(initial, operations), rules)
    ensures forall i :: 0 <= i < |operations| ==> WellFormedOperation(operations[i], rules)
    decreases |operations|
  {
    if operations != [] {
      var front := operations[..|operations| - 1];
      RunKeepsValid(initial, front, rules);
      UpdateKeepsValid(UpdateAll(initial, front), operations[|operations| - 1], rules);
      forall i | 0 <= i < |operations|
        ensures WellFormedOperation(operations[i], rules)
      {
        assert i < |front| ==> front[i] == operations[i];
      }
    }
  }

  /** Before its last operation a run has left that operation's path alone. */
  lemma LastUntouched(initial: FileState, operations: seq<FileOperation>, rules: FileRules)
    requires operations != [] && ValidState(initial, rules)
    requires DistinctTargets(operations, rules) && AcceptsAll(initial, operations, rules)
    ensures var front, last := operations[..|operations| - 1], operations[|operations| - 1];
      && DistinctTargets(front, rules) && ValidState(UpdateAll(initial, front), rules)
      && ValueAt(UpdateAll(initial, front), last.path) == ValueAt(initial, last.path)
  {
    hide ValidState, UpdateAll, Accepts;
    var front, last := operations[..|operations| - 1], operations[|operations| - 1];
    RunKeepsValid(initial, front, rules);
    RunKeepsValid(initial, operations, rules);
    AcceptedPathsDistinct(operations, rules);
    EffectAt(initial, front, last.path);
  }

  lemma {:induction false} UndoAll(initial: FileState, operations: seq<FileOperation>, rules: FileRules)
    requires ValidState(initial, rules) && DistinctTargets(operations, rules) && AcceptsAll(initial, operations, rules)
    ensures AcceptsAll(UpdateAll(initial, operations), InverseAll(initial, operations), rules)
    ensures UpdateAll(UpdateAll(initial, operations), InverseAll(initial, operations)) == initial
    decreases |operations|
  {
    hide ValidState, DistinctTargets, Accepts, InverseOperation, Update;
    if operations != [] {
      var front, last := operations[..|operations| - 1], operations[|operations| - 1];
      var before := UpdateAll(initial, front);
      LastUntouched(initial, operations, rules);
      UndoOne(initial, before, last, rules);
      UndoAll(initial, front, rules);
      AcceptsCons(Update(before, last), InverseOperation(initial, last), InverseAll(initial, front), rules);
    }
  }

  /** Every accepted delta has an inverse that is accepted on its result and restores the initial files. */
  lemma InverseRestores(initial: FileState, contract: string, operations: seq<FileOperation>, rules: FileRules)
    requires Applicable(initial, contract, operations, rules)
    ensures Applicable(UpdateAll(initial, operations), contract, InverseAll(initial, operations), rules)
    ensures UpdateAll(UpdateAll(initial, operations), InverseAll(initial, operations)) == initial
  {
    UndoAll(initial, operations, rules);
    RunKeepsValid(initial, operations, rules);
    var inverse := InverseAll(initial, operations);
    forall i, j | 0 <= i < j < |inverse|
      ensures !SameFold(inverse[i].path, inverse[j].path, rules)
    {
      InversePaths(initial, operations, i);
      InversePaths(initial, operations, j);
      assert !SameFold(operations[|operations| - 1 - j].path, operations[|operations| - 1 - i].path, rules);
    }
  }

  // ---------- orders that differ ----------

  /** Rules under which every path folds to itself and every descriptor is valid. */
  function PlainRules(): FileRules {
    FileRules((path: string) => Some(path), (descriptor: Descriptor) => true)
  }

  function RemoveFile(content: Descriptor): FileOperation {
    FileOperation("remove", "a", Match(content.digest), None, "")
  }

  function AddBelow(content: Descriptor): FileOperation {
    FileOperation("add", "a/b", ABSENT, Some(content), "0644")
  }

  /** Of two orders of one operation set only one succeeds: a file makes room for a directory of its name. */
  lemma OrdersCanDiffer(content: Descriptor)
    ensures var initial: FileState := map["a" := FileRecord(content, "0644")];
      var remove, add := RemoveFile(content), AddBelow(content);
      && Applicable(initial, CONTRACT, [remove, add], PlainRules())
      && multiset([remove, add]) == multiset([add, remove])
      && !Applicable(initial, CONTRACT, [add, remove], PlainRules())
  {
    var initial: FileState := map["a" := FileRecord(content, "0644")];
    var remove, add := RemoveFile(content), AddBelow(content);
    var rules := PlainRules();
    assert |"a"| != |"a/b"| && "a" + "/" <= "a/b";
    assert Conflict("a/b", "a", rules);
    assert Accepts(initial, remove, rules);
    assert Update(initial, remove) == map[];
    assert Accepts(map[], add, rules);
    assert !Accepts(initial, add, rules);
    assert DistinctTargets([remove, add], rules);
    hide Accepts, Update, Conflict;
    assert [remove, add][..1] == [remove] && [remove][..0] == [] && [add, remove][..1] == [add] && [add][..0] == [];
    assert UpdateAll(initial, []) == initial;
    assert UpdateAll(initial, [remove]) == map[];
    assert AcceptsAll(initial, [remove], rules) && !AcceptsAll(initial, [add], rules);
  }
}
