/** Skill deltas of internal/operations/operations.go: an operation list applied to a map of packages. */
module SkillOperations {
  import opened Foundation
  import opened FileOperations

  datatype SkillOperation = SkillOperation(
    op: string, packageId: string, precondition: Precondition, descriptor: Option<Descriptor>)

  type SkillState = map<string, Descriptor>

  /** The identifier pattern and `validateDescriptor`. */
  datatype SkillRules = SkillRules(validIdentifier: string -> bool, validDescriptor: Descriptor -> bool)

  const SKILL_CONTRACT := "bytedesk.skill-operations/1"

  ghost predicate ValidSkills(state: SkillState, rules: SkillRules) {
    forall id :: id in state ==> rules.validIdentifier(id) && rules.validDescriptor(state[id])
  }

  predicate WellFormed(operation: SkillOperation, rules: SkillRules) {
    && rules.validIdentifier(operation.packageId)
    && match operation.op
       case "add" =>
         operation.precondition == ABSENT && operation.descriptor.Some?
           && rules.validDescriptor(operation.descriptor.value)
       case "replace" =>
         && operation.precondition.kind == "match"
         && operation.descriptor.Some? && rules.validDescriptor(operation.descriptor.value)
       case "remove" => operation.precondition.kind == "match" && operation.descriptor.None?
       case _ => false
  }

  predicate Holds(state: SkillState, operation: SkillOperation) {
    if operation.op == "add" then operation.packageId !in state
    else operation.packageId in state && operation.precondition.digest == state[operation.packageId].digest
  }

  predicate Accepts(state: SkillState, operation: SkillOperation, rules: SkillRules) {
    WellFormed(operation, rules) && Holds(state, operation)
  }

  function Update(state: SkillState, operation: SkillOperation): SkillState {
    if operation.op != "remove" && operation.descriptor.Some? then
      state[operation.packageId := operation.descriptor.value]
    else state - {operation.packageId}
  }

  function UpdateAll(state: SkillState, operations: seq<SkillOperation>): SkillState {
    if operations == [] then state
    else Update(UpdateAll(state, operations[..|operations| - 1]), operations[|operations| - 1])
  }

  predicate AcceptsAll(state: SkillState, operations: seq<SkillOperation>, rules: SkillRules) {
    operations == [] ||
    var front := operations[..|operations| - 1];
    AcceptsAll(state, front, rules) && Accepts(UpdateAll(state, front), operations[|operations| - 1], rules)
  }

  /** The packages a list of operations names. */
  function Packages(operations: seq<SkillOperation>): (packages: seq<string>)
    ensures |packages| == |operations| && forall i :: 0 <= i < |operations| ==> packages[i] == operations[i].packageId
  {
    seq(|operations|, i requires 0 <= i < |operations| => operations[i].packageId)
  }

  ghost predicate DistinctPackages(operations: seq<SkillOperation>) {
    forall i, j :: 0 <= i < j < |operations| ==> operations[i].packageId != operations[j].packageId
  }

  /** When `ApplySkillOperations` succeeds. */
  ghost predicate Applicable(
    initial: SkillState, contract: string, operations: seq<SkillOperation>, rules: SkillRules)
  {
    && contract == SKILL_CONTRACT && |operations| <= MAX_OPERATIONS
    && ValidSkills(initial, rules) && DistinctPackages(operations) && AcceptsAll(initial, operations, rules)
  }

  /** `validateSkillState`, in any iteration order. */
  method ValidateSkillState(state: SkillState, rules: SkillRules) returns (ok: bool)
    ensures ok <==> ValidSkills(state, rules)
  {
    var remaining := state.Keys;
    while remaining != {}
      invariant remaining <= state.Keys
      invariant forall id :: id in state.Keys - remaining ==>
        rules.validIdentifier(id) && rules.validDescriptor(state[id])
      decreases remaining
    {
      var id :| id in remaining;
      if !rules.validIdentifier(id) || !rules.validDescriptor(state[id]) {
        return false;
      }
      remaining := remaining - {id};
    }
    return true;
  }

  /** The precondition and operand checks of one iteration. */
  method CheckSkill(working: SkillState, operation: SkillOperation, rules: SkillRules)
    returns (refusal: Option<DeltaError>)
    requires rules.validIdentifier(operation.packageId)
    ensures refusal.None? <==> Accepts(working, operation, rules)
  {
    var present := operation.packageId in working;
    if operation.op == "add" {
      if operation.precondition.kind != "absent" || operation.precondition.digest != "" || present {
        return Some(BadPrecondition);
      }
      if operation.descriptor.None? || !rules.validDescriptor(operation.descriptor.value) {
        return Some(BadContent);
      }
      return None;
    }
    if operation.op != "replace" && operation.op != "remove" {
      return Some(UnsupportedOperation);
    }
    if operation.op == "remove" && operation.descriptor.Some? {
      return Some(BadContent);
    }
    if !present || operation.precondition.kind != "match" ||
       operation.precondition.digest != working[operation.packageId].digest {
      return Some(BadPrecondition);
    }
    if operation.op == "replace" && (operation.descriptor.None? || !rules.validDescriptor(operation.descriptor.value)) {
      return Some(BadContent);
    }
    return None;
  }

  /** `ApplySkillOperations`. */
  method ApplySkillOperations(initial: SkillState, contract: string, operations: seq<SkillOperation>, rules: SkillRules)
    returns (r: Result<SkillState, DeltaError>)
    ensures r.Ok? <==> Applicable(initial, contract, operations, rules)
    ensures r.Ok? ==> r.value == UpdateAll(initial, operations) && ValidSkills(r.value, rules)
  {
    if contract != SKILL_CONTRACT {
      return Err(UnsupportedContract);
    }
    if |operations| > MAX_OPERATIONS {
      return Err(TooManyOperations);
    }
    var sound := ValidateSkillState(initial, rules);
    if !sound {
      return Err(BadExistingState);
    }
    hide AcceptsAll, UpdateAll, ValidSkills, DistinctPackages;
    r := ApplySound(initial, operations, rules);
  }

  /** The loop of `ApplySkillOperations`. */
  method ApplySound(initial: SkillState, operations: seq<SkillOperation>, rules: SkillRules)
    returns (r: Result<SkillState, DeltaError>)
    requires ValidSkills(initial, rules)
    ensures r.Ok? <==> DistinctPackages(operations) && AcceptsAll(initial, operations, rules)
    ensures r.Ok? ==> r.value == UpdateAll(initial, operations) && ValidSkills(r.value, rules)
  {
    hide AcceptsAll, UpdateAll, Accepts, ValidSkills, DistinctPackages, Gathers, Packages;
    var working := initial;
    var seen: set<string> := {};
    var n := 0;
    StartsAccepted(initial, operations, rules);
    while n < |operations|
      invariant 0 <= n <= |operations|
      invariant working == UpdateAll(initial, operations[..n]) && ValidSkills(working, rules)
      invariant AcceptsAll(initial, operations[..n], rules) && DistinctPackages(operations[..n])
      invariant Gathers(seen, Packages(operations[..n]))
    {
      var operation := operations[n];
      AcceptsOneMore(initial, operations, n, rules);
      UpdateKeepsValid(working, operation, rules);
      if !rules.validIdentifier(operation.packageId) {
        return Err(BadIdentifier);
      }
      SeenOneMore(seen, operations, n);
      if operation.packageId in seen {
        return Err(DuplicateTarget);
      }
      seen := seen + {operation.packageId};
      var refusal := CheckSkill(working, operation, rules);
      if refusal.Some? {
        return Err(refusal.value);
      }
      if operation.op == "remove" {
        working := working - {operation.packageId};
      } else {
        working := working[operation.packageId := operation.descriptor.value];
      }
      n := n + 1;
    }
    assert operations[..n] == operations;
    return Ok(working);
  }

  lemma StartsAccepted(state: SkillState, operations: seq<SkillOperation>, rules: SkillRules)
    ensures UpdateAll(state, operations[..0]) == state && AcceptsAll(state, operations[..0], rules)
    ensures DistinctPackages(operations[..0]) && Gathers({}, Packages(operations[..0]))
  {
  }

  lemma SeenOneMore(seen: set<string>, operations: seq<SkillOperation>, n: nat)
    requires n < |operations| && Gathers(seen, Packages(operations[..n])) && DistinctPackages(operations[..n])
    ensures Gathers(seen + {operations[n].packageId}, Packages(operations[..n + 1]))
    ensures operations[n].packageId in seen ==> !DistinctPackages(operations)
    ensures operations[n].packageId !in seen ==> DistinctPackages(operations[..n + 1])
  {
    var packages := Packages(operations);
    assert packages[..n] == Packages(operations[..n]) && packages[..n + 1] == Packages(operations[..n + 1]);
    ScanOneMore(seen, packages, n);
  }

  lemma UpdateKeepsValid(state: SkillState, operation: SkillOperation, rules: SkillRules)
    ensures Accepts(state, operation, rules) ==> rules.validIdentifier(operation.packageId)
    ensures ValidSkills(state, rules) && Accepts(state, operation, rules) ==>
      ValidSkills(Update(state, operation), rules)
    ensures Accepts(state, operation, rules) ==> operation.op == "remove" || operation.descriptor.Some?
  {
  }

  lemma {:induction false} AcceptsPrefix(state: SkillState, operations: seq<SkillOperation>, n: nat, rules: SkillRules)
    requires n < |operations| && AcceptsAll(state, operations, rules)
    ensures AcceptsAll(state, operations[..n], rules)
    ensures Accepts(UpdateAll(state, operations[..n]), operations[n], rules)
    decreases |operations|
  {
    var front := operations[..|operations| - 1];
    if n < |front| {
      AcceptsPrefix(state, front, n, rules);
      assert front[..n] == operations[..n];
    } else {
      assert operations[..n] == front;
    }
  }

  lemma AcceptsOneMore(state: SkillState, operations: seq<SkillOperation>, n: nat, rules: SkillRules)
    requires n < |operations| && AcceptsAll(state, operations[..n], rules)
    ensures UpdateAll(state, operations[..n + 1]) == Update(UpdateAll(state, operations[..n]), operations[n])
    ensures AcceptsAll(state, operations[..n + 1], rules) <==>
      Accepts(UpdateAll(state, operations[..n]), operations[n], rules)
    ensures AcceptsAll(state, operations, rules) ==> Accepts(UpdateAll(state, operations[..n]), operations[n], rules)
  {
    assert operations[..n + 1][..n] == operations[..n];
    if AcceptsAll(state, operations, rules) {
      AcceptsPrefix(state, operations, n, rules);
    }
  }

  // ---------- order does not matter ----------

  lemma {:induction false} EffectAt(initial: SkillState, operations: seq<SkillOperation>, id: string)
    requires DistinctPackages(operations)
    ensures (forall i :: 0 <= i < |operations| ==> operations[i].packageId != id) ==>
      ValueAt(UpdateAll(initial, operations), id) == ValueAt(initial, id)
    ensures forall i :: 0 <= i < |operations| && operations[i].packageId == id ==>
      ValueAt(UpdateAll(initial, operations), id)
      == if operations[i].op != "remove" && operations[i].descriptor.Some? then operations[i].descriptor else None
    decreases |operations|
  {
    if operations != [] {
      EffectAt(initial, operations[..|operations| - 1], id);
    }
  }

  /** Every operation of a delta is decided against the initial packages. */
  lemma {:induction false} AcceptanceExact(initial: SkillState, operations: seq<SkillOperation>, rules: SkillRules)
    requires DistinctPackages(operations)
    ensures AcceptsAll(initial, operations, rules) <==>
      forall i :: 0 <= i < |operations| ==> Accepts(initial, operations[i], rules)
    decreases |operations|
  {
    if operations != [] {
      var last := |operations| - 1;
      var front := operations[..last];
      AcceptanceExact(initial, front, rules);
      EffectAt(initial, front, operations[last].packageId);
      assert ValueAt(UpdateAll(initial, front), operations[last].packageId)
        == ValueAt(initial, operations[last].packageId);
      assert forall i :: 0 <= i < |front| ==> front[i] == operations[i];
    }
  }

  /** One operation in the words of its contract, judged on the initial packages. */
  predicate OperationStands(initial: SkillState, o: SkillOperation, rules: SkillRules) {
    && rules.validIdentifier(o.packageId)
    && match o.op
       case "add" =>
         && o.precondition.kind == "absent" && o.precondition.digest == "" && o.packageId !in initial
         && o.descriptor.Some? && rules.validDescriptor(o.descriptor.value)
       case "replace" =>
         && o.precondition.kind == "match" && o.packageId in initial
         && o.precondition.digest == initial[o.packageId].digest
         && o.descriptor.Some? && rules.validDescriptor(o.descriptor.value)
       case "remove" =>
         && o.precondition.kind == "match" && o.packageId in initial
         && o.precondition.digest == initial[o.packageId].digest && o.descriptor.None?
       case _ => false
  }

  /** When a skill delta succeeds, said of its initial packages and its operations alone. */
  lemma DeltaSucceedsExactly(
    initial: SkillState, contract: string, operations: seq<SkillOperation>, rules: SkillRules)
    ensures Applicable(initial, contract, operations, rules) <==>
      && contract == "bytedesk.skill-operations/1" && |operations| <= 10_000
      && (forall id :: id in initial ==> rules.validIdentifier(id) && rules.validDescriptor(initial[id]))
      && (forall i :: 0 <= i < |operations| ==> OperationStands(initial, operations[i], rules))
      && (forall i, j :: 0 <= i < j < |operations| ==> operations[i].packageId != operations[j].packageId)
  {
    forall i | 0 <= i < |operations|
      ensures Accepts(initial, operations[i], rules) <==> OperationStands(initial, operations[i], rules)
    {
    }
    hide Accepts, OperationStands, AcceptsAll;
    if DistinctPackages(operations) {
      AcceptanceExact(initial, operations, rules);
    }
  }

  /** Acceptance and result are the same for every order of the operations. */
  lemma OrderIrrelevant(
    initial: SkillState, contract: string, operations: seq<SkillOperation>, reordered: seq<SkillOperation>,
    rules: SkillRules)
    requires multiset(operations) == multiset(reordered)
    requires Applicable(initial, contract, operations, rules)
    ensures Applicable(initial, contract, reordered, rules)
    ensures UpdateAll(initial, reordered) == UpdateAll(initial, operations)
  {
    PermutationOfDistinct(operations, reordered);
    forall i, j | 0 <= i < j < |reordered|
      ensures reordered[i].packageId != reordered[j].packageId
    {
      assert reordered[i] in operations && reordered[j] in operations;
    }
    AcceptanceExact(initial, operations, rules);
    AcceptanceExact(initial, reordered, rules);
    forall i | 0 <= i < |reordered|
      ensures Accepts(initial, reordered[i], rules)
    {
      assert reordered[i] in operations;
    }
    SameEffect(initial, operations, reordered);
  }

  lemma SameEffect(initial: SkillState, operations: seq<SkillOperation>, reordered: seq<SkillOperation>)
    requires DistinctPackages(operations) && DistinctPackages(reordered)
    requires forall i :: 0 <= i < |reordered| ==> reordered[i] in operations
    requires forall i :: 0 <= i < |operations| ==> operations[i] in reordered
    ensures UpdateAll(initial, reordered) == UpdateAll(initial, operations)
  {
    hide UpdateAll;
    var a, b := UpdateAll(initial, operations), UpdateAll(initial, reordered);
    forall id
      ensures ValueAt(a, id) == ValueAt(b, id)
    {
      EffectAt(initial, operations, id);
      EffectAt(initial, reordered, id);
      if i :| 0 <= i < |operations| && operations[i].packageId == id {
        assert operations[i] in reordered;
      } else if j :| 0 <= j < |reordered| && reordered[j].packageId == id {
        assert reordered[j] in operations;
      }
    }
    SameMaps(a, b);
  }

  // ---------- inverses ----------

  function InverseOperation(initial: SkillState, operation: SkillOperation): SkillOperation {
    if operation.op == "add" && operation.descriptor.Some? then
      SkillOperation("remove", operation.packageId, Match(operation.descriptor.value.digest), None)
    else if operation.packageId !in initial then operation
    else if operation.op == "remove" then
      SkillOperation("add", operation.packageId, ABSENT, Some(initial[operation.packageId]))
    else if operation.descriptor.Some? then
      SkillOperation(
        "replace", operation.packageId, Match(operation.descriptor.value.digest), Some(initial[operation.packageId]))
    else operation
  }

  /** The inverse delta in the same order: order does not matter for packages. */
  function InverseAll(initial: SkillState, operations: seq<SkillOperation>): (inverse: seq<SkillOperation>)
    ensures |inverse| == |operations|
    ensures forall i :: 0 <= i < |operations| ==> inverse[i] == InverseOperation(initial, operations[i])
  {
    seq(|operations|, i requires 0 <= i < |operations| => InverseOperation(initial, operations[i]))
  }

  lemma {:induction false} RunKeepsValid(initial: SkillState, operations: seq<SkillOperation>, rules: SkillRules)
    requires ValidSkills(initial, rules) && AcceptsAll(initial, operations, rules)
    ensures ValidSkills(UpdateAll(initial, operations), rules)
    decreases |operations|
  {
    if operations != [] {
      var front := operations[..|operations| - 1];
      RunKeepsValid(initial, front, rules);
      UpdateKeepsValid(UpdateAll(initial, front), operations[|operations| - 1], rules);
    }
  }

  /** One operation of the delta, taken back on the result of the whole delta. */
  lemma UndoOne(initial: SkillState, operations: seq<SkillOperation>, i: nat, rules: SkillRules)
    requires i < |operations| && DistinctPackages(operations) && ValidSkills(initial, rules)
    requires Accepts(initial, operations[i], rules)
    ensures var inverse := InverseOperation(initial, operations[i]);
      && inverse.packageId == operations[i].packageId
      && Accepts(UpdateAll(initial, operations), inverse, rules)
      && (if inverse.op != "remove" && inverse.descriptor.Some? then inverse.descriptor else None)
         == ValueAt(initial, operations[i].packageId)
  {
    hide UpdateAll;
    EffectAt(initial, operations, operations[i].packageId);
  }

  /** Every accepted skill delta has an accepted inverse that restores the initial packages. */
  lemma InverseRestores(initial: SkillState, contract: string, operations: seq<SkillOperation>, rules: SkillRules)
    requires Applicable(initial, contract, operations, rules)
    ensures Applicable(UpdateAll(initial, operations), contract, InverseAll(initial, operations), rules)
    ensures UpdateAll(UpdateAll(initial, operations), InverseAll(initial, operations)) == initial
  {
    AcceptanceExact(initial, operations, rules);
    RunKeepsValid(initial, operations, rules);
    hide UpdateAll, AcceptsAll, Accepts, InverseOperation, ValidSkills;
    var after, inverse := UpdateAll(initial, operations), InverseAll(initial, operations);
    forall i | 0 <= i < |inverse|
      ensures inverse[i].packageId == operations[i].packageId && Accepts(after, inverse[i], rules)
    {
      UndoOne(initial, operations, i, rules);
    }
    AcceptanceExact(after, inverse, rules);
    forall id
      ensures ValueAt(UpdateAll(after, inverse), id) == ValueAt(initial, id)
    {
      EffectAt(initial, operations, id);
      EffectAt(after, inverse, id);
      if i :| 0 <= i < |operations| && operations[i].packageId == id {
        UndoOne(initial, operations, i, rules);
        assert inverse[i].packageId == id;
      }
    }
    SameMaps(UpdateAll(after, inverse), initial);
  }
}
