/**
 The strict JSON Patch dialect of internal/operations/operations.go on JSON values: `add` never
 overwrites, arrays grow only at "-", the root is never a target. JsonTree.dfy holds the in-place
 implementation that is proved against these functions.
 */
module JsonPatch {
  import opened Foundation
  import opened Decimals
  import opened JsonPointer

  /** A decoded JSON value with canonical scalars. */
  datatype Json =
    | Null
    | Bool(truth: bool)
    | Number(lexeme: Bytes)
    | String(text: Bytes)
    | Array(items: seq<Json>)
    | Object(fields: map<Token, Json>)

  /** The raw `value` member: missing, JSON text that decodes, or text that does not. */
  datatype RawValue = Absent | Encoded(json: Json) | Malformed

  datatype PatchOperation = PatchOperation(op: string, path: Bytes, value: RawValue)

  datatype Patch = Patch(profile: string, operations: seq<PatchOperation>)

  const PROFILE := "bytedesk.json-patch/1"
  const TARGETS := ["agent-spec", "renderer-functional-config"]
  const MAX_OPERATIONS: nat := 10_000

  /**
   Unicode validity of tokens and the canonical resource limits, on operands and on whole documents.
   The source uses one limit profile for both; they are apart so that one can be lifted alone.
   */
  datatype Rules = Rules(validToken: Token -> bool, fitsOperand: Json -> bool, fits: Json -> bool)

  datatype PatchError =
    | UnsupportedProfile | UnsupportedTarget | TooManyOperations | RootNotObject
    | BadPointer(pointer: PointerError) | BadIndex(index: IndexError)
    | ValueRequired | ValueForbidden | BadValue | UnsupportedOperation
    | MissingParent | NotAContainer | TargetExists | TargetMissing | AppendOnly
    | ResourceLimit | RebaseConflict

  // ---------- one operation ----------

  /** `applyJSONLeaf`. */
  function ApplyLeaf(node: Json, token: Token, op: string, value: Json): Result<Json, PatchError> {
    match node
    case Object(fields) =>
      if op == "add" then
        if token in fields then Err(TargetExists) else Ok(Object(fields[token := value]))
      else if op == "replace" then
        if token !in fields then Err(TargetMissing) else Ok(Object(fields[token := value]))
      else if op == "remove" then
        if token !in fields then Err(TargetMissing) else Ok(Object(fields - {token}))
      else Ok(node)
    case Array(items) =>
      if op == "add" then
        if token == [DASH] then Ok(Array(items + [value])) else Err(AppendOnly)
      else
        var index := IndexOf(token, |items|, false);
        if index.Err? then Err(BadIndex(index.error))
        else if op == "replace" then Ok(Array(items[index.value := value]))
        else Ok(Array(items[..index.value] + items[index.value + 1..]))
    case _ => Err(NotAContainer)
  }

  /** `applyJSONOperation`. */
  function ApplyAt(node: Json, tokens: seq<Token>, op: string, value: Json): Result<Json, PatchError>
    decreases |tokens|
  {
    if tokens == [] then Err(BadPointer(EmptyPointer))
    else if |tokens| == 1 then ApplyLeaf(node, tokens[0], op, value)
    else match node
      case Object(fields) =>
        if tokens[0] !in fields then Err(MissingParent)
        else
          var updated := ApplyAt(fields[tokens[0]], tokens[1..], op, value);
          if updated.Err? then updated else Ok(Object(fields[tokens[0] := updated.value]))
      case Array(items) =>
        var index := IndexOf(tokens[0], |items|, false);
        if index.Err? then Err(BadIndex(index.error))
        else
          var updated := ApplyAt(items[index.value], tokens[1..], op, value);
          if updated.Err? then updated else Ok(Array(items[index.value := updated.value]))
      case _ => Err(NotAContainer)
  }

  /** `patchOperationValue`: the decoder enforces the resource limits on the operand itself. */
  function OperationValue(operation: PatchOperation, rules: Rules): Result<Json, PatchError> {
    if operation.op == "add" || operation.op == "replace" then
      match operation.value
      case Absent => Err(ValueRequired)
      case Malformed => Err(BadValue)
      case Encoded(json) => if rules.fitsOperand(json) then Ok(json) else Err(BadValue)
    else if operation.op == "remove" then
      if operation.value.Absent? then Ok(Null) else Err(ValueForbidden)
    else Err(UnsupportedOperation)
  }

  // ---------- whole patches ----------

  function ApplyStep(document: Json, operation: PatchOperation, rules: Rules): Result<Json, PatchError> {
    var tokens := Parse(operation.path, rules.validToken);
    if tokens.Err? then Err(BadPointer(tokens.error))
    else
      var value := OperationValue(operation, rules);
      if value.Err? then Err(value.error)
      else
        var updated := ApplyAt(document, tokens.value, operation.op, value.value);
        if updated.Err? then updated
        else if !rules.fits(updated.value) then Err(ResourceLimit)
        else updated
  }

  function ApplyAll(document: Json, operations: seq<PatchOperation>, rules: Rules): Result<Json, PatchError>
    decreases |operations|
  {
    if operations == [] then Ok(document)
    else
      var updated := ApplyStep(document, operations[0], rules);
      if updated.Err? then updated else ApplyAll(updated.value, operations[1..], rules)
  }

  function CheckEnvelope(patch: Patch, target: string): Option<PatchError> {
    if patch.profile != PROFILE then Some(UnsupportedProfile)
    else if target !in TARGETS then Some(UnsupportedTarget)
    else if |patch.operations| > MAX_OPERATIONS then Some(TooManyOperations)
    else None
  }

  /** `ApplyJSONPatch`. */
  function ApplyPatch(document: Json, patch: Patch, target: string, rules: Rules): Result<Json, PatchError> {
    var refusal := CheckEnvelope(patch, target);
    if refusal.Some? then Err(refusal.value)
    else if !rules.fits(document) then Err(ResourceLimit)
    else if !document.Object? then Err(RootNotObject)
    else ApplyAll(document, patch.operations, rules)
  }

  // ---------- locality at the document root ----------

  ghost predicate SameAt(a: map<Token, Json>, b: map<Token, Json>, key: Token) {
    (key in a <==> key in b) && (key in a ==> a[key] == b[key])
  }

  lemma LeafLocality(a: Json, b: Json, token: Token, op: string, value: Json)
    requires a.Object? && b.Object? && SameAt(a.fields, b.fields, token)
    ensures ApplyLeaf(a, token, op, value).Ok? <==> ApplyLeaf(b, token, op, value).Ok?
    ensures ApplyLeaf(a, token, op, value).Ok? ==>
      var (x, y) := (ApplyLeaf(a, token, op, value).value, ApplyLeaf(b, token, op, value).value);
      && x.Object? && y.Object? && SameAt(x.fields, y.fields, token)
      && (forall key :: key != token ==> SameAt(x.fields, a.fields, key) && SameAt(y.fields, b.fields, key))
  {
  }

  /** Whether an operation applies, and what it does, depends only on the member its first token names. */
  lemma RootLocality(a: Json, b: Json, tokens: seq<Token>, op: string, value: Json)
    requires a.Object? && b.Object? && tokens != []
    requires SameAt(a.fields, b.fields, tokens[0])
    ensures ApplyAt(a, tokens, op, value).Ok? <==> ApplyAt(b, tokens, op, value).Ok?
    ensures ApplyAt(a, tokens, op, value).Ok? ==>
      var (x, y) := (ApplyAt(a, tokens, op, value).value, ApplyAt(b, tokens, op, value).value);
      && x.Object? && y.Object? && SameAt(x.fields, y.fields, tokens[0])
      && (forall key :: key != tokens[0] ==> SameAt(x.fields, a.fields, key))
      && (forall key :: key != tokens[0] ==> SameAt(y.fields, b.fields, key))
  {
    LeafLocality(a, b, tokens[0], op, value);
    hide ApplyLeaf, IndexOf;
  }

  // ---------- reading values back ----------

  /** The value a token path names, with array positions spelled canonically. */
  function Lookup(node: Json, path: seq<Token>): Option<Json>
    decreases |path|
  {
    if path == [] then Some(node)
    else match node
      case Object(fields) => if path[0] in fields then Lookup(fields[path[0]], path[1..]) else None
      case Array(items) =>
        var index := IndexOf(path[0], |items|, false);
        if index.Ok? then Lookup(items[index.value], path[1..]) else None
      case _ => None
  }

  /** The container an operation edits. */
  function Parent(tokens: seq<Token>): seq<Token>
    requires tokens != []
  {
    tokens[..|tokens| - 1]
  }

  function LastToken(tokens: seq<Token>): Token
    requires tokens != []
  {
    tokens[|tokens| - 1]
  }

  /** An accepted operation edits an existing container. */
  lemma {:induction false} ParentExists(node: Json, tokens: seq<Token>, op: string, value: Json)
    requires ApplyAt(node, tokens, op, value).Ok?
    ensures tokens != []
    ensures var parent := Lookup(node, Parent(tokens));
      && parent.Some? && (parent.value.Object? || parent.value.Array?)
      && ApplyLeaf(parent.value, LastToken(tokens), op, value).Ok?
      && Lookup(ApplyAt(node, tokens, op, value).value, Parent(tokens))
         == Some(ApplyLeaf(parent.value, LastToken(tokens), op, value).value)
    decreases |tokens|
  {
    if |tokens| > 1 {
      var rest := tokens[1..];
      assert Parent(tokens)[1..] == Parent(rest) && LastToken(tokens) == LastToken(rest);
      match node
      case Object(fields) => ParentExists(fields[tokens[0]], rest, op, value);
      case Array(items) => ParentExists(items[IndexOf(tokens[0], |items|, false).value], rest, op, value);
    }
  }

  lemma {:induction false} LookupConcat(node: Json, front: seq<Token>, back: seq<Token>)
    ensures Lookup(node, front + back) ==
      if Lookup(node, front).None? then None else Lookup(Lookup(node, front).value, back)
    decreases |front|
  {
    if front == [] {
      assert front + back == back;
    } else {
      assert (front + back)[1..] == front[1..] + back;
      match node
      case Object(fields) =>
        if front[0] in fields {
          LookupConcat(fields[front[0]], front[1..], back);
        }
      case Array(items) =>
        if IndexOf(front[0], |items|, false).Ok? {
          LookupConcat(items[IndexOf(front[0], |items|, false).value], front[1..], back);
        }
      case _ =>
    }
  }

  // ---------- when an operation applies ----------

  /** The token is the decimal numeral of a slot of an array of this length. */
  ghost predicate NamesSlot(token: Token, length: nat) {
    exists i: nat :: i < length && i <= MAX_INT && token == Decimal(i)
  }

  /**
   The dialect's conditions on the document, read through paths: the parent is a container; in an object `add` wants
   no member there and the others want one; an array takes `add` at "-" alone and the others at an existing slot.
   */
  ghost predicate Applies(node: Json, tokens: seq<Token>, op: string) {
    tokens != [] &&
    var parent := Lookup(node, Parent(tokens));
    parent.Some? &&
    match parent.value
    case Object(_) => Lookup(node, tokens).Some? <==> op != "add"
    case Array(items) =>
      if op == "add" then LastToken(tokens) == [DASH]
      else NamesSlot(LastToken(tokens), |items|)
    case _ => false
  }

  /** The path of tokens exists and its container takes the edit. */
  lemma {:induction false} AppliesAtParent(node: Json, tokens: seq<Token>, op: string, value: Json)
    requires tokens != []
    ensures var parent := Lookup(node, Parent(tokens));
      ApplyAt(node, tokens, op, value).Ok? <==>
        parent.Some? && ApplyLeaf(parent.value, LastToken(tokens), op, value).Ok?
    decreases |tokens|
  {
    if |tokens| > 1 {
      hide ApplyLeaf, IndexOf;
      var rest := tokens[1..];
      assert Parent(tokens)[1..] == Parent(rest) && LastToken(tokens) == LastToken(rest);
      assert Parent(tokens)[0] == tokens[0];
      match node
      case Object(fields) =>
        if tokens[0] in fields {
          AppliesAtParent(fields[tokens[0]], rest, op, value);
        }
      case Array(items) =>
        if IndexOf(tokens[0], |items|, false).Ok? {
          AppliesAtParent(items[IndexOf(tokens[0], |items|, false).value], rest, op, value);
        }
      case _ =>
    }
  }

  /** A token names a slot exactly when it is the numeral of one. */
  lemma SlotNamed(token: Token, length: nat)
    ensures IndexOf(token, length, false).Ok? <==> NamesSlot(token, length)
  {
    IndexIsDecimal(token, length);
    if i: nat :| i < length && i <= MAX_INT && token == Decimal(i) {
      DecimalIsCanonical(i);
    }
  }

  lemma LeafApplies(parent: Json, token: Token, op: string, value: Json)
    requires op in ["add", "replace", "remove"]
    ensures ApplyLeaf(parent, token, op, value).Ok? <==>
      match parent
      case Object(fields) => token in fields <==> op != "add"
      case Array(items) =>
        if op == "add" then token == [DASH]
        else NamesSlot(token, |items|)
      case _ => false
  {
    hide IndexOf;
    if parent.Array? {
      SlotNamed(token, |parent.items|);
    }
  }

  lemma MemberReads(fields: map<Token, Json>, token: Token)
    ensures Lookup(Object(fields), [token]).Some? <==> token in fields
  {
    var single: seq<Token> := [token];
    assert single[1..] == [];
  }

  /** An operation is accepted exactly when the dialect's conditions hold: `add` never overwrites. */
  lemma AppliesExactly(node: Json, tokens: seq<Token>, op: string, value: Json)
    requires op in ["add", "replace", "remove"]
    ensures ApplyAt(node, tokens, op, value).Ok? <==> Applies(node, tokens, op)
  {
    if tokens != [] {
      hide ApplyLeaf, Lookup;
      var token, parent := LastToken(tokens), Lookup(node, Parent(tokens));
      AppliesAtParent(node, tokens, op, value);
      assert tokens == Parent(tokens) + [token];
      LookupConcat(node, Parent(tokens), [token]);
      if parent.Some? {
        LeafApplies(parent.value, token, op, value);
        if parent.value.Object? {
          MemberReads(parent.value.fields, token);
        }
      }
    }
  }

  /** The operand an operation must carry. */
  predicate CarriesOperand(operation: PatchOperation, rules: Rules) {
    if operation.op == "remove" then operation.value.Absent?
    else operation.value.Encoded? && rules.fitsOperand(operation.value.json)
  }

  function OperandOf(operation: PatchOperation): Json {
    if operation.value.Encoded? then operation.value.json else Null
  }

  /** The pointer spells these tokens. */
  ghost predicate Points(path: Bytes, tokens: seq<Token>, rules: Rules) {
    path == PrintPointer(tokens) && |path| <= MAX_POINTER_BYTES && AllValid(tokens, rules.validToken)
  }

  /** One operation in order: a known kind, its operand, a pointer the dialect admits, a result that fits. */
  ghost predicate Takes(document: Json, operation: PatchOperation, rules: Rules, next: Json) {
    && operation.op in ["add", "replace", "remove"] && CarriesOperand(operation, rules) && rules.fits(next)
    && exists tokens ::
         && Points(operation.path, tokens, rules) && Applies(document, tokens, operation.op)
         && ApplyAt(document, tokens, operation.op, OperandOf(operation)) == Ok(next)
  }

  lemma AppliesNonempty(node: Json, tokens: seq<Token>, op: string)
    ensures Applies(node, tokens, op) ==> tokens != []
  {
  }

  lemma StepTakes(document: Json, operation: PatchOperation, rules: Rules, next: Json)
    ensures ApplyStep(document, operation, rules) == Ok(next) <==> Takes(document, operation, rules, next)
  {
    hide Parse, PrintPointer, Applies, ApplyAt, AllValid;
    var parsed := Parse(operation.path, rules.validToken);
    forall tokens
      ensures parsed == Ok(tokens) <==> tokens != [] && Points(operation.path, tokens, rules)
    {
      ParseInvertsPrint(operation.path, tokens, rules.validToken);
    }
    forall tokens | operation.op in ["add", "replace", "remove"]
      ensures ApplyAt(document, tokens, operation.op, OperandOf(operation)).Ok? <==>
        Applies(document, tokens, operation.op)
      ensures Applies(document, tokens, operation.op) ==> tokens != []
    {
      AppliesExactly(document, tokens, operation.op, OperandOf(operation));
      AppliesNonempty(document, tokens, operation.op);
    }
    if parsed.Ok? {
      assert Points(operation.path, parsed.value, rules);
    }
  }

  /** The documents between the operations of a patch. */
  ghost predicate Passes(documents: seq<Json>, operations: seq<PatchOperation>, rules: Rules) {
    && |documents| == |operations| + 1
    && forall k :: 0 <= k < |operations| ==> Takes(documents[k], operations[k], rules, documents[k + 1])
  }

  lemma {:induction false} RunPasses(document: Json, operations: seq<PatchOperation>, rules: Rules)
    returns (documents: seq<Json>)
    requires ApplyAll(document, operations, rules).Ok?
    ensures Passes(documents, operations, rules)
    ensures documents[0] == document && Ok(documents[|operations|]) == ApplyAll(document, operations, rules)
    decreases |operations|
  {
    hide Takes, ApplyStep;
    if operations == [] {
      documents := [document];
    } else {
      var next := ApplyStep(document, operations[0], rules).value;
      StepTakes(document, operations[0], rules, next);
      var rest := RunPasses(next, operations[1..], rules);
      documents := [document] + rest;
      forall k | 0 <= k < |operations|
        ensures Takes(documents[k], operations[k], rules, documents[k + 1])
      {
        assert k > 0 ==> operations[k] == operations[1..][k - 1] && documents[k + 1] == rest[k];
      }
    }
  }

  lemma {:induction false} PassesRun(documents: seq<Json>, operations: seq<PatchOperation>, rules: Rules)
    requires Passes(documents, operations, rules)
    ensures ApplyAll(documents[0], operations, rules) == Ok(documents[|operations|])
    decreases |operations|
  {
    hide Takes, ApplyStep;
    if operations != [] {
      StepTakes(documents[0], operations[0], rules, documents[1]);
      assert Takes(documents[0], operations[0], rules, documents[1]);
      forall k | 0 <= k < |operations[1..]|
        ensures Takes(documents[1..][k], operations[1..][k], rules, documents[1..][k + 1])
      {
        assert Takes(documents[k + 1], operations[k + 1], rules, documents[k + 2]);
      }
      PassesRun(documents[1..], operations[1..], rules);
    }
  }

  /** A patch is accepted exactly when its envelope is in order and its operations pass from document to document. */
  lemma PatchApplies(document: Json, patch: Patch, target: string, rules: Rules, result: Json)
    ensures ApplyPatch(document, patch, target, rules) == Ok(result) <==>
      && patch.profile == "bytedesk.json-patch/1" && target in ["agent-spec", "renderer-functional-config"]
      && |patch.operations| <= 10_000 && document.Object? && rules.fits(document)
      && exists documents ::
           && Passes(documents, patch.operations, rules)
           && documents[0] == document && documents[|patch.operations|] == result
  {
    hide Takes, ApplyAll;
    if ApplyAll(document, patch.operations, rules).Ok? {
      var documents := RunPasses(document, patch.operations, rules);
    }
    forall documents | Passes(documents, patch.operations, rules)
      ensures |documents| == |patch.operations| + 1
      ensures ApplyAll(documents[0], patch.operations, rules) == Ok(documents[|patch.operations|])
    {
      PassesRun(documents, patch.operations, rules);
    }
  }

  /** Reading the target of an accepted `add` or `replace` yields the operand; an append lands at the old length. */
  lemma ReadBack(node: Json, tokens: seq<Token>, op: string, value: Json)
    requires ApplyAt(node, tokens, op, value).Ok? && op in ["add", "replace"]
    ensures Lookup(node, Parent(tokens)).Some?
    ensures var parent := Lookup(node, Parent(tokens)).value;
      var landed := if op == "add" && parent.Array? then Decimal(|parent.items|) else LastToken(tokens);
      (parent.Array? ==> |parent.items| < MAX_INT) ==>
      Lookup(ApplyAt(node, tokens, op, value).value, Parent(tokens) + [landed]) == Some(value)
  {
    ParentExists(node, tokens, op, value);
    var parent := Lookup(node, Parent(tokens)).value;
    var landed := if op == "add" && parent.Array? then Decimal(|parent.items|) else LastToken(tokens);
    if parent.Array? ==> |parent.items| < MAX_INT {
      var result := ApplyAt(node, tokens, op, value).value;
      LookupConcat(result, Parent(tokens), [landed]);
      if op == "add" && parent.Array? {
        DecimalIsCanonical(|parent.items|);
      }
    }
  }

  /** An accepted `remove` takes one member away: the object key, or the array slot with later ones moved down. */
  lemma RemoveEffect(node: Json, tokens: seq<Token>, value: Json)
    requires ApplyAt(node, tokens, "remove", value).Ok?
    ensures Lookup(node, Parent(tokens)).Some?
    ensures Lookup(ApplyAt(node, tokens, "remove", value).value, Parent(tokens)).Some?
    ensures var before := Lookup(node, Parent(tokens)).value;
      var after := Lookup(ApplyAt(node, tokens, "remove", value).value, Parent(tokens)).value;
      match before
      case Object(fields) =>
        LastToken(tokens) in fields
          && after == Object(map key | key in fields && key != LastToken(tokens) :: fields[key])
      case Array(items) =>
        exists i: nat :: i < |items| && LastToken(tokens) == Decimal(i)
          && after.Array? && |after.items| == |items| - 1
          && forall j :: 0 <= j < |items| - 1 ==> after.items[j] == items[if j < i then j else j + 1]
      case _ => false
  {
    ParentExists(node, tokens, "remove", value);
    var before := Lookup(node, Parent(tokens)).value;
    if before.Array? {
      IndexIsDecimal(LastToken(tokens), |before.items|);
    }
  }

  lemma IndexIsDecimal(token: Token, length: nat)
    ensures IndexOf(token, length, false).Ok? ==>
      var i := IndexOf(token, length, false).value; i < length && token == Decimal(i)
  {
    if IsCanonical(token) {
      CanonicalIsDecimal(token);
    }
  }

  /** The edited container is an object. */
  predicate EditsObject(node: Json, tokens: seq<Token>)
    requires tokens != []
  {
    var parent := Lookup(node, Parent(tokens));
    parent.Some? && parent.value.Object?
  }

  /** Leaving the pointer at its first token: the sibling is not touched. */
  lemma FrameHere(node: Json, tokens: seq<Token>, op: string, value: Json, path: seq<Token>)
    requires ApplyAt(node, tokens, op, value).Ok?
    requires path != [] && path[0] != tokens[0]
    requires |tokens| == 1 ==> op == "replace" || node.Object?
    ensures Lookup(ApplyAt(node, tokens, op, value).value, path) == Lookup(node, path)
  {
    if node.Array? {
      IndexIsDecimal(tokens[0], |node.items|);
      IndexIsDecimal(path[0], |node.items|);
    }
  }

  /** Leaving the pointer at some token, inside a container that neither grew nor shrank. */
  lemma {:induction false} FrameAside(
    node: Json, tokens: seq<Token>, op: string, value: Json, path: seq<Token>, at: nat)
    requires ApplyAt(node, tokens, op, value).Ok?
    requires at < |tokens| && at < |path| && path[..at] == tokens[..at] && path[at] != tokens[at]
    requires at == |tokens| - 1 ==> op == "replace" || EditsObject(node, tokens)
    ensures Lookup(ApplyAt(node, tokens, op, value).value, path) == Lookup(node, path)
    decreases |tokens|
  {
    if at == 0 {
      FrameHere(node, tokens, op, value, path);
    } else {
      assert path[0] == path[..at][0] == tokens[0];
      assert path[1..][..at - 1] == path[..at][1..] == tokens[1..][..at - 1];
      assert Parent(tokens)[1..] == Parent(tokens[1..]);
      match node
      case Object(fields) => FrameAside(fields[tokens[0]], tokens[1..], op, value, path[1..], at - 1);
      case Array(items) =>
        IndexIsDecimal(tokens[0], |items|);
        FrameAside(items[IndexOf(tokens[0], |items|, false).value], tokens[1..], op, value, path[1..], at - 1);
    }
  }

  /** A path through the edited container reads what its rest reads in the edited container. */
  lemma ThroughParent(node: Json, tokens: seq<Token>, op: string, value: Json, path: seq<Token>)
    requires ApplyAt(node, tokens, op, value).Ok?
    requires tokens != [] && |path| >= |tokens| && path[..|tokens| - 1] == Parent(tokens)
    ensures Lookup(node, Parent(tokens)).Some?
    ensures var parent := Lookup(node, Parent(tokens)).value;
      && ApplyLeaf(parent, LastToken(tokens), op, value).Ok?
      && Lookup(node, path) == Lookup(parent, path[|tokens| - 1..])
      && Lookup(ApplyAt(node, tokens, op, value).value, path)
         == Lookup(ApplyLeaf(parent, LastToken(tokens), op, value).value, path[|tokens| - 1..])
  {
    ParentExists(node, tokens, op, value);
    var rest := path[|tokens| - 1..];
    assert path == Parent(tokens) + rest;
    LookupConcat(node, Parent(tokens), rest);
    LookupConcat(ApplyAt(node, tokens, op, value).value, Parent(tokens), rest);
  }

  /** An append leaves every earlier item, and everything below it, as it was. */
  lemma AppendFrame(node: Json, tokens: seq<Token>, value: Json, path: seq<Token>)
    requires ApplyAt(node, tokens, "add", value).Ok? && Lookup(node, Parent(tokens)).Some?
    requires Lookup(node, Parent(tokens)).value.Array?
    requires |path| >= |tokens| && path[..|tokens| - 1] == Parent(tokens)
    requires path[|tokens| - 1] != Decimal(|Lookup(node, Parent(tokens)).value.items|)
    ensures Lookup(ApplyAt(node, tokens, "add", value).value, path) == Lookup(node, path)
  {
    ThroughParent(node, tokens, "add", value, path);
    var items, token := Lookup(node, Parent(tokens)).value.items, path[|tokens| - 1];
    IndexIsDecimal(token, |items|);
    IndexIsDecimal(token, |items| + 1);
    hide ApplyAt;
  }

  /** The slot of the old array that slot `j` of the array after removing slot `i` holds. */
  function SlotBefore(i: nat, j: nat): nat {
    if j < i then j else j + 1
  }

  /** What a path into an array reads once the slot `removed` is gone. */
  function AfterRemoval(items: seq<Json>, removed: nat, path: seq<Token>): Option<Json>
    requires removed < |items| && path != []
  {
    var slot := IndexOf(path[0], |items| - 1, false);
    if slot.Err? then None else Lookup(items[SlotBefore(removed, slot.value)], path[1..])
  }

  /** After a remove from an array, slots before the removed one read as before and later ones as their successors. */
  lemma RemoveFrame(node: Json, tokens: seq<Token>, value: Json, path: seq<Token>)
    requires ApplyAt(node, tokens, "remove", value).Ok? && Lookup(node, Parent(tokens)).Some?
    requires Lookup(node, Parent(tokens)).value.Array?
    requires |path| >= |tokens| && path[..|tokens| - 1] == Parent(tokens)
    ensures var items, at := Lookup(node, Parent(tokens)).value.items, |tokens| - 1;
      exists i: nat :: i < |items| && LastToken(tokens) == Decimal(i)
        && Lookup(ApplyAt(node, tokens, "remove", value).value, path) == AfterRemoval(items, i, path[at..])
        && forall j: nat :: j < |items| - 1 <= MAX_INT && path[at] == Decimal(j) ==>
             Lookup(ApplyAt(node, tokens, "remove", value).value, path)
               == Lookup(node, path[at := Decimal(SlotBefore(i, j))])
  {
    hide ApplyLeaf, IndexOf, Lookup, AfterRemoval, SlotBefore;
    ThroughParent(node, tokens, "remove", value, path);
    var items, at := Lookup(node, Parent(tokens)).value.items, |tokens| - 1;
    var i := RemovalReads(items, LastToken(tokens), value, path[at..]);
    var now := Lookup(ApplyAt(node, tokens, "remove", value).value, path);
    forall j: nat | j < |items| - 1 <= MAX_INT && path[at] == Decimal(j)
      ensures now == Lookup(node, path[at := Decimal(SlotBefore(i, j))])
    {
      SlotReads(node, Parent(tokens), items, i, j, path);
    }
  }

  /** The slot a remove takes, and what the array reads without it. */
  lemma RemovalReads(items: seq<Json>, token: Token, value: Json, path: seq<Token>) returns (i: nat)
    requires ApplyLeaf(Array(items), token, "remove", value).Ok? && path != []
    ensures i < |items| && token == Decimal(i)
    ensures Lookup(ApplyLeaf(Array(items), token, "remove", value).value, path) == AfterRemoval(items, i, path)
  {
    IndexIsDecimal(token, |items|);
    i := IndexOf(token, |items|, false).value;
  }

  /** Slot `j` after the removal of slot `i` is, on paths, slot `j` or `j + 1` before it. */
  lemma SlotReads(node: Json, parent: seq<Token>, items: seq<Json>, i: nat, j: nat, path: seq<Token>)
    requires Lookup(node, parent) == Some(Array(items)) && i < |items| && j < |items| - 1 <= MAX_INT
    requires |path| > |parent| && path[..|parent|] == parent && path[|parent|] == Decimal(j)
    ensures AfterRemoval(items, i, path[|parent|..]) == Lookup(node, path[|parent| := Decimal(SlotBefore(i, j))])
  {
    var at, source := |parent|, SlotBefore(i, j);
    var moved := path[at := Decimal(source)];
    DecimalIsCanonical(j);
    DecimalIsCanonical(source);
    LookupConcat(node, parent, moved[at..]);
    assert moved == parent + moved[at..] && moved[at..][1..] == path[at + 1..] == path[at..][1..];
  }

  /**
   Frame, for every path that leaves the pointer: outside an array that grew or shrank it reads as before; an
   append only adds the slot behind the last one; a remove only takes its slot out, later slots moving down by one.
   */
  lemma Frame(node: Json, tokens: seq<Token>, op: string, value: Json, path: seq<Token>, at: nat)
    requires ApplyAt(node, tokens, op, value).Ok? && op in ["add", "replace", "remove"]
    requires at < |tokens| && at < |path| && path[..at] == tokens[..at]
    ensures Lookup(node, Parent(tokens)).Some?
    ensures at < |tokens| - 1 || op == "replace" || EditsObject(node, tokens) ==>
      path[at] != tokens[at] ==> Lookup(ApplyAt(node, tokens, op, value).value, path) == Lookup(node, path)
    ensures at == |tokens| - 1 && op == "add" && !EditsObject(node, tokens) ==>
      var parent := Lookup(node, Parent(tokens)).value;
      && parent.Array?
      && (path[at] != Decimal(|parent.items|) ==>
            Lookup(ApplyAt(node, tokens, op, value).value, path) == Lookup(node, path))
    ensures at == |tokens| - 1 && op == "remove" && !EditsObject(node, tokens) ==>
      var parent, result := Lookup(node, Parent(tokens)).value, ApplyAt(node, tokens, op, value).value;
      && parent.Array?
      && exists i: nat :: i < |parent.items| && tokens[at] == Decimal(i)
           && Lookup(result, path) == AfterRemoval(parent.items, i, path[at..])
           && forall j: nat :: j < |parent.items| - 1 <= MAX_INT && path[at] == Decimal(j) ==>
                Lookup(result, path) == Lookup(node, path[at := Decimal(SlotBefore(i, j))])
  {
    ParentExists(node, tokens, op, value);
    hide ApplyAt, ApplyLeaf, IndexOf, Lookup, AfterRemoval, SlotBefore;
    if at < |tokens| - 1 || op == "replace" || EditsObject(node, tokens) {
      if path[at] != tokens[at] {
        FrameAside(node, tokens, op, value, path, at);
      }
    } else if op == "add" {
      if path[at] != Decimal(|Lookup(node, Parent(tokens)).value.items|) {
        AppendFrame(node, tokens, value, path);
      }
    } else {
      RemoveFrame(node, tokens, value, path);
    }
  }
}
