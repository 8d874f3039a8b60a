/**
 Private customization of internal/privatecompile: a scan of patch operands for raw secrets, then the
 patch, the file delta and the skill delta, all or nothing. The secret patterns are one predicate on
 strings.
 */
module Customization {
  import opened Foundation
  import opened JsonPointer
  import opened JsonPatch
  import JsonTree
  import FileOperations
  import SkillOperations

  // ---------- scanning a value ----------

  /** `scanDecodedValue`: some string value, at any depth, looks like a secret. Member names are not scanned. */
  predicate HasSecret(value: Json, secret: Bytes -> bool)
    decreases value
  {
    match value
    case String(text) => secret(text)
    case Array(items) => exists i :: 0 <= i < |items| && HasSecret(items[i], secret)
    case Object(fields) => exists k :: k in fields && HasSecret(fields[k], secret)
    case _ => false
  }

  datatype Step = Member(key: Token) | Element(index: nat)

  /** The value found by walking down from the root. */
  function Descend(value: Json, steps: seq<Step>): Option<Json>
    decreases |steps|
  {
    if steps == [] then Some(value)
    else match (value, steps[0])
      case (Object(fields), Member(key)) => if key in fields then Descend(fields[key], steps[1..]) else None
      case (Array(items), Element(i)) => if i < |items| then Descend(items[i], steps[1..]) else None
      case _ => None
  }

  ghost predicate SecretAt(value: Json, steps: seq<Step>, secret: Bytes -> bool) {
    var found := Descend(value, steps);
    found.Some? && found.value.String? && secret(found.value.text)
  }

  /** The scan reports a value exactly when some walk from the root ends in a secret-shaped string. */
  lemma ScanFindsEverySecret(value: Json, secret: Bytes -> bool)
    ensures HasSecret(value, secret) <==> exists steps :: SecretAt(value, steps, secret)
  {
    if HasSecret(value, secret) {
      var steps := SecretPath(value, secret);
    }
    if steps :| SecretAt(value, steps, secret) {
      SecretOnPath(value, steps, secret);
    }
  }

  lemma {:induction false} SecretPath(value: Json, secret: Bytes -> bool) returns (steps: seq<Step>)
    requires HasSecret(value, secret)
    ensures SecretAt(value, steps, secret)
    decreases value
  {
    match value
    case String(_) => steps := [];
    case Array(items) =>
      var i :| 0 <= i < |items| && HasSecret(items[i], secret);
      var rest := SecretPath(items[i], secret);
      steps := [Element(i)] + rest;
      assert steps[1..] == rest;
    case Object(fields) =>
      var k :| k in fields && HasSecret(fields[k], secret);
      var rest := SecretPath(fields[k], secret);
      steps := [Member(k)] + rest;
      assert steps[1..] == rest;
  }

  lemma {:induction false} SecretOnPath(value: Json, steps: seq<Step>, secret: Bytes -> bool)
    requires SecretAt(value, steps, secret)
    ensures HasSecret(value, secret)
    decreases |steps|
  {
    if steps != [] {
      match (value, steps[0])
      case (Object(fields), Member(key)) => SecretOnPath(fields[key], steps[1..], secret);
      case (Array(items), Element(i)) => SecretOnPath(items[i], steps[1..], secret);
    }
  }

  // ---------- scanning a patch ----------

  predicate OperandHasSecret(operation: PatchOperation, secret: Bytes -> bool) {
    operation.value.Encoded? && HasSecret(operation.value.json, secret)
  }

  /** `ScanPatchForRawSecrets` refuses; operands that do not decode are left to the patch itself. */
  predicate PatchHasSecret(patch: Patch, secret: Bytes -> bool) {
    exists i :: 0 <= i < |patch.operations| && OperandHasSecret(patch.operations[i], secret)
  }

  /** No walk into any operand of the patch ends in a secret-shaped string. */
  ghost predicate OperandsClean(patch: Patch, secret: Bytes -> bool) {
    forall i, steps :: 0 <= i < |patch.operations| && patch.operations[i].value.Encoded? ==>
      !SecretAt(patch.operations[i].value.json, steps, secret)
  }

  /** The scan lets a patch through exactly when its operands are clean. */
  lemma ScanIsExact(patch: Patch, secret: Bytes -> bool)
    ensures PatchHasSecret(patch, secret) <==> !OperandsClean(patch, secret)
  {
    hide HasSecret, SecretAt;
    forall i | 0 <= i < |patch.operations| && patch.operations[i].value.Encoded?
      ensures OperandHasSecret(patch.operations[i], secret) <==>
        exists steps :: SecretAt(patch.operations[i].value.json, steps, secret)
    {
      ScanFindsEverySecret(patch.operations[i].value.json, secret);
    }
  }

  // ---------- a patch introduces no secret of its own ----------

  /** An edit brings in no string that was neither in the document nor in the operand. */
  lemma {:induction false} EditAddsNothing(
    node: Json, tokens: seq<Token>, op: string, value: Json, secret: Bytes -> bool)
    requires ApplyAt(node, tokens, op, value).Ok?
    requires HasSecret(ApplyAt(node, tokens, op, value).value, secret)
    ensures HasSecret(node, secret) || HasSecret(value, secret)
    decreases |tokens|
  {
    if |tokens| > 1 {
      match node
      case Object(fields) =>
        if HasSecret(ApplyAt(fields[tokens[0]], tokens[1..], op, value).value, secret) {
          EditAddsNothing(fields[tokens[0]], tokens[1..], op, value, secret);
        }
      case Array(items) =>
        var i := IndexOf(tokens[0], |items|, false).value;
        if HasSecret(ApplyAt(items[i], tokens[1..], op, value).value, secret) {
          EditAddsNothing(items[i], tokens[1..], op, value, secret);
        }
    } else {
      LeafAddsNothing(node, tokens[0], op, value, secret);
    }
  }

  lemma LeafAddsNothing(node: Json, token: Token, op: string, value: Json, secret: Bytes -> bool)
    requires ApplyLeaf(node, token, op, value).Ok?
    requires HasSecret(ApplyLeaf(node, token, op, value).value, secret)
    ensures HasSecret(node, secret) || HasSecret(value, secret)
  {
    match node
    case Object(fields) =>
    case Array(items) =>
      var result := ApplyLeaf(node, token, op, value).value.items;
      var i :| 0 <= i < |result| && HasSecret(result[i], secret);
      if op != "add" && op != "replace" {
        assert result[i] == items[if i < IndexOf(token, |items|, false).value then i else i + 1];
      }
  }

  lemma {:induction false} PatchAddsNothing(
    document: Json, operations: seq<PatchOperation>, rules: Rules, secret: Bytes -> bool)
    requires ApplyAll(document, operations, rules).Ok?
    requires HasSecret(ApplyAll(document, operations, rules).value, secret)
    ensures HasSecret(document, secret) ||
      exists i :: 0 <= i < |operations| && OperandHasSecret(operations[i], secret)
    decreases |operations|
  {
    if operations != [] {
      var step := ApplyStep(document, operations[0], rules).value;
      PatchAddsNothing(step, operations[1..], rules, secret);
      if HasSecret(step, secret) {
        var tokens := Parse(operations[0].path, rules.validToken).value;
        EditAddsNothing(document, tokens, operations[0].op, OperationValue(operations[0], rules).value, secret);
      } else {
        var i :| 0 <= i < |operations[1..]| && OperandHasSecret(operations[1..][i], secret);
        assert operations[i + 1] == operations[1..][i];
      }
    }
  }

  /**
   Whatever a scanned patch produces, a secret string in it was already in the base document: this
   holds for each secret string separately, so nothing is smuggled in beside an existing one.
   */
  lemma ScannedPatchIsClean(base: Json, patch: Patch, target: string, rules: Rules, secret: Bytes -> bool, text: Bytes)
    requires ApplyPatch(base, patch, target, rules).Ok? && !PatchHasSecret(patch, secret) && secret(text)
    ensures HasSecret(ApplyPatch(base, patch, target, rules).value, t => t == text) ==> HasSecret(base, t => t == text)
    ensures HasSecret(ApplyPatch(base, patch, target, rules).value, secret) ==> HasSecret(base, secret)
  {
    var exactly := (t: Bytes) => t == text;
    if HasSecret(ApplyPatch(base, patch, target, rules).value, exactly) && !HasSecret(base, exactly) {
      PatchAddsNothing(base, patch.operations, rules, exactly);
      var i :| 0 <= i < |patch.operations| && OperandHasSecret(patch.operations[i], exactly);
      NarrowSecret(patch.operations[i].value.json, secret, text);
      assert false;
    }
    if HasSecret(ApplyPatch(base, patch, target, rules).value, secret) && !HasSecret(base, secret) {
      PatchAddsNothing(base, patch.operations, rules, secret);
      assert false;
    }
  }

  lemma {:induction false} NarrowSecret(value: Json, secret: Bytes -> bool, text: Bytes)
    requires secret(text) && HasSecret(value, t => t == text)
    ensures HasSecret(value, secret)
    decreases value
  {
    match value
    case String(_) =>
    case Array(items) =>
      var i :| 0 <= i < |items| && HasSecret(items[i], t => t == text);
      NarrowSecret(items[i], secret, text);
    case Object(fields) =>
      var k :| k in fields && HasSecret(fields[k], t => t == text);
      NarrowSecret(fields[k], secret, text);
  }

  // ---------- the whole request ----------

  datatype Request = Request(
    base: JsonTree.Node, patch: Patch,
    files: FileOperations.FileState, fileContract: string, fileOperations: seq<FileOperations.FileOperation>,
    skills: SkillOperations.SkillState, skillContract: string, skillOperations: seq<SkillOperations.SkillOperation>)

  datatype Outcome = Outcome(
    effective: JsonTree.Node, files: FileOperations.FileState, skills: SkillOperations.SkillState)

  datatype Refusal =
    | RawSecretDetected
    | PatchRefused(patch: PatchError)
    | FilesRefused(files: FileOperations.DeltaError)
    | SkillsRefused(skills: FileOperations.DeltaError)

  /** `ApplyCustomization`. */
  method ApplyCustomization(
    request: Request, rules: Rules, fileRules: FileOperations.FileRules, skillRules: SkillOperations.SkillRules,
    secret: Bytes -> bool)
    returns (r: Result<Outcome, Refusal>)
    requires JsonTree.ValidNode(request.base)
    ensures r.Ok? <==>
      && OperandsClean(request.patch, secret)
      && ApplyPatch(JsonTree.ModelOf(request.base), request.patch, "agent-spec", rules).Ok?
      && FileOperations.Applicable(request.files, request.fileContract, request.fileOperations, fileRules)
      && SkillOperations.Applicable(request.skills, request.skillContract, request.skillOperations, skillRules)
    ensures r.Ok? ==>
      && JsonTree.ValidNode(r.value.effective)
      && Ok(JsonTree.ModelOf(r.value.effective))
        == ApplyPatch(JsonTree.ModelOf(request.base), request.patch, "agent-spec", rules)
      && r.value.files == FileOperations.UpdateAll(request.files, request.fileOperations)
      && r.value.skills == SkillOperations.UpdateAll(request.skills, request.skillOperations)
    ensures r.Ok? && (forall steps :: !SecretAt(JsonTree.ModelOf(request.base), steps, secret)) ==>
      forall steps :: !SecretAt(JsonTree.ModelOf(r.value.effective), steps, secret)
  {
    ScanIsExact(request.patch, secret);
    if PatchHasSecret(request.patch, secret) {
      return Err(RawSecretDetected);
    }
    var effective := JsonTree.ApplyJsonPatch(request.base, request.patch, "agent-spec", rules);
    if effective.Err? {
      return Err(PatchRefused(effective.error));
    }
    var files := FileOperations.ApplyFileOperations(
      request.files, request.fileContract, request.fileOperations, fileRules);
    if files.Err? {
      return Err(FilesRefused(files.error));
    }
    var skills := SkillOperations.ApplySkillOperations(
      request.skills, request.skillContract, request.skillOperations, skillRules);
    if skills.Err? {
      return Err(SkillsRefused(skills.error));
    }
    ScanFindsEverySecret(JsonTree.ModelOf(request.base), secret);
    ScanFindsEverySecret(JsonTree.ModelOf(effective.value), secret);
    if HasSecret(JsonTree.ModelOf(effective.value), secret) {
      PatchAddsNothing(JsonTree.ModelOf(request.base), request.patch.operations, rules, secret);
    }
    return Ok(Outcome(effective.value, files.value, skills.value));
  }
}
