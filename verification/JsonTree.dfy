/**
 The in-place implementation of internal/operations: JSON containers are heap objects that one
 operation edits where they stand, and private copies keep the caller's documents, the two rebase
 trees and the operands apart. Every method is proved against the functions of JsonPatch and Rebase.
 */
module JsonTree {
  import opened Foundation
  import opened JsonPointer
  import opened JsonPatch
  import opened Rebase

  /** A decoded value as the program holds it: scalars are values, containers are references. */
  datatype Node = Scalar(value: Json) | Ref(container: Container)

  predicate IsScalar(json: Json) {
    !json.Array? && !json.Object?
  }

  class Container {
    var isObject: bool
    var fields: map<Token, Node>
    var items: seq<Node>
    ghost var Model: Json
    ghost var Repr: set<Container>

    /** The containers below form a tree owned by this one, and `Model` is the JSON value they spell. */
    ghost predicate Valid()
      reads this, Repr
      ensures Valid() ==> this in Repr
      decreases Repr
    {
      && this in Repr
      && (isObject ==>
            && Model.Object? && Model.fields.Keys == fields.Keys
            && (forall k :: k in fields ==>
                  && (fields[k].Scalar? ==> fields[k].value == Model.fields[k] && IsScalar(Model.fields[k]))
                  && (fields[k].Ref? ==>
                        && fields[k].container in Repr && fields[k].container.Repr <= Repr
                        && this !in fields[k].container.Repr && fields[k].container.Valid()
                        && fields[k].container.Model == Model.fields[k]))
            && (forall j, k :: j in fields && k in fields && j != k && fields[j].Ref? && fields[k].Ref? ==>
                  fields[j].container in Repr && fields[k].container in Repr &&
                  fields[j].container.Repr !! fields[k].container.Repr))
      && (!isObject ==>
            && Model.Array? && |Model.items| == |items|
            && (forall i :: 0 <= i < |items| ==>
                  && (items[i].Scalar? ==> items[i].value == Model.items[i] && IsScalar(Model.items[i]))
                  && (items[i].Ref? ==>
                        && items[i].container in Repr && items[i].container.Repr <= Repr
                        && this !in items[i].container.Repr && items[i].container.Valid()
                        && items[i].container.Model == Model.items[i]))
            && (forall i, j :: 0 <= i < j < |items| && items[i].Ref? && items[j].Ref? ==>
                  items[i].container in Repr && items[j].container in Repr &&
                  items[i].container.Repr !! items[j].container.Repr))
    }

    /** An object whose member `hole`, if present, is about to be assigned. */
    ghost predicate ValidFieldsBut(hole: Token)
      reads this, Repr
    {
      && this in Repr && isObject
      && Model.Object? && Model.fields.Keys == fields.Keys
      && (forall k :: k in fields && k != hole ==>
            && (fields[k].Scalar? ==> fields[k].value == Model.fields[k] && IsScalar(Model.fields[k]))
            && (fields[k].Ref? ==>
                  && fields[k].container in Repr && fields[k].container.Repr <= Repr
                  && this !in fields[k].container.Repr && fields[k].container.Valid()
                  && fields[k].container.Model == Model.fields[k]))
      && (forall j, k ::
            j in fields && k in fields && j != k && j != hole && k != hole && fields[j].Ref? && fields[k].Ref? ==>
            fields[j].container in Repr && fields[k].container in Repr &&
            fields[j].container.Repr !! fields[k].container.Repr)
    }

    /** An array whose slot `hole` is about to be assigned. */
    ghost predicate ValidItemsBut(hole: nat)
      reads this, Repr
    {
      && this in Repr && !isObject
      && Model.Array? && |Model.items| == |items|
      && (forall i :: 0 <= i < |items| && i != hole ==>
            && (items[i].Scalar? ==> items[i].value == Model.items[i] && IsScalar(Model.items[i]))
            && (items[i].Ref? ==>
                  && items[i].container in Repr && items[i].container.Repr <= Repr
                  && this !in items[i].container.Repr && items[i].container.Valid()
                  && items[i].container.Model == Model.items[i]))
      && (forall i, j :: 0 <= i < j < |items| && i != hole && j != hole && items[i].Ref? && items[j].Ref? ==>
            items[i].container in Repr && items[j].container in Repr &&
            items[i].container.Repr !! items[j].container.Repr)
    }

    constructor (
      isObject: bool, fields: map<Token, Node>, items: seq<Node>, ghost model: Json, ghost below: set<Container>)
      ensures this.isObject == isObject && this.fields == fields && this.items == items
      ensures Model == model && Repr == {this} + below
    {
      this.isObject, this.fields, this.items := isObject, fields, items;
      this.Model, this.Repr := model, {this} + below;
    }
  }

  ghost function Footprint(node: Node): set<Container>
    reads if node.Ref? then {node.container} else {}
  {
    if node.Ref? then node.container.Repr else {}
  }

  ghost predicate ValidNode(node: Node)
    reads if node.Ref? then {node.container} + node.container.Repr else {}
  {
    match node
    case Scalar(value) => IsScalar(value)
    case Ref(container) => container.Valid()
  }

  ghost function ModelOf(node: Node): Json
    reads if node.Ref? then {node.container} else {}
  {
    match node
    case Scalar(value) => value
    case Ref(container) => container.Model
  }

  // ---------- one operation in place ----------

  /** An object is valid again once the assigned member is. */
  lemma FieldFilled(typed: Container, token: Token)
    requires typed.ValidFieldsBut(token) && token in typed.fields && ValidNode(typed.fields[token])
    requires ModelOf(typed.fields[token]) == typed.Model.fields[token]
    requires Footprint(typed.fields[token]) <= typed.Repr - {typed}
    requires forall k :: k in typed.fields && k != token ==>
      Footprint(typed.fields[k]) !! Footprint(typed.fields[token])
    ensures typed.Valid()
  {
  }

  /** Assignment of one object member. */
  method PutField(typed: Container, token: Token, value: Node)
    requires typed.ValidFieldsBut(token) && ValidNode(value)
    requires forall k :: k in typed.fields && k != token ==> Footprint(typed.fields[k]) !! Footprint(value)
    requires typed !in Footprint(value)
    modifies typed
    ensures typed.Valid() && typed.isObject
      && typed.Model == Json.Object(old(typed.Model.fields)[token := ModelOf(value)])
    ensures typed.Repr == old(typed.Repr) + Footprint(value)
  {
    hide Container.Valid;
    typed.fields := typed.fields[token := value];
    typed.Model := Json.Object(typed.Model.fields[token := ModelOf(value)]);
    typed.Repr := typed.Repr + Footprint(value);
    FieldFilled(typed, token);
  }

  /** Assignment of one array slot. */
  method PutItem(typed: Container, i: nat, value: Node)
    requires typed.ValidItemsBut(i) && ValidNode(value) && i < |typed.items|
    requires forall k :: 0 <= k < |typed.items| && k != i ==> Footprint(typed.items[k]) !! Footprint(value)
    requires typed !in Footprint(value)
    modifies typed
    ensures typed.Valid() && !typed.isObject && typed.Model == Json.Array(old(typed.Model.items)[i := ModelOf(value)])
    ensures typed.Repr == old(typed.Repr) + Footprint(value)
  {
    typed.items := typed.items[i := value];
    typed.Model := Json.Array(typed.Model.items[i := ModelOf(value)]);
    typed.Repr := typed.Repr + Footprint(value);
  }

  /** Deletion of one object member. */
  method DropField(typed: Container, token: Token)
    requires typed.Valid() && typed.isObject && token in typed.fields
    modifies typed
    ensures typed.Valid() && typed.isObject && typed.Model == Json.Object(old(typed.Model.fields) - {token})
    ensures typed.Repr == old(typed.Repr)
  {
    typed.fields := typed.fields - {token};
    typed.Model := Json.Object(typed.Model.fields - {token});
  }

  method AppendItem(typed: Container, value: Node)
    requires typed.Valid() && !typed.isObject && ValidNode(value) && typed.Repr !! Footprint(value)
    modifies typed
    ensures typed.Valid() && !typed.isObject && typed.Model == Json.Array(old(typed.Model.items) + [ModelOf(value)])
    ensures typed.Repr == old(typed.Repr) + Footprint(value)
  {
    typed.items := typed.items + [value];
    typed.Model := Json.Array(typed.Model.items + [ModelOf(value)]);
    typed.Repr := typed.Repr + Footprint(value);
  }

  /** Removal of one array slot; the later ones move down. */
  method DropItem(typed: Container, i: nat)
    requires typed.Valid() && !typed.isObject && i < |typed.items|
    modifies typed
    ensures typed.Valid() && !typed.isObject
    ensures typed.Model == Json.Array(old(typed.Model.items)[..i] + old(typed.Model.items)[i + 1..])
    ensures typed.Repr == old(typed.Repr)
  {
    typed.items := typed.items[..i] + typed.items[i + 1..];
    typed.Model := Json.Array(typed.Model.items[..i] + typed.Model.items[i + 1..]);
  }

  /** `applyJSONLeaf`: edits the container it is given and hands it back. */
  method ApplyLeafInPlace(node: Node, token: Token, op: string, value: Node) returns (r: Result<Node, PatchError>)
    requires ValidNode(node) && ValidNode(value) && Footprint(node) !! Footprint(value)
    modifies Footprint(node)
    ensures r.Ok? <==> ApplyLeaf(old(ModelOf(node)), token, op, old(ModelOf(value))).Ok?
    ensures r.Err? ==> r.error == ApplyLeaf(old(ModelOf(node)), token, op, old(ModelOf(value))).error
    ensures r.Err? ==> unchanged(old(Footprint(node)))
    ensures r.Ok? ==> r.value == node && ValidNode(node)
    ensures r.Ok? ==> ModelOf(node) == ApplyLeaf(old(ModelOf(node)), token, op, old(ModelOf(value))).value
    ensures r.Ok? ==> Footprint(node) <= old(Footprint(node)) + old(Footprint(value))
  {
    if node.Scalar? {
      return Err(NotAContainer);
    }
    var typed := node.container;
    if typed.isObject {
      if op == "add" {
        if token in typed.fields {
          return Err(TargetExists);
        }
        PutField(typed, token, value);
      } else if op == "replace" {
        if token !in typed.fields {
          return Err(TargetMissing);
        }
        PutField(typed, token, value);
      } else if op == "remove" {
        if token !in typed.fields {
          return Err(TargetMissing);
        }
        DropField(typed, token);
      }
      return Ok(node);
    }
    if op == "add" {
      if token == [DASH] {
        AppendItem(typed, value);
        return Ok(node);
      }
      return Err(AppendOnly);
    }
    var index := IndexOf(token, |typed.items|, false);
    if index.Err? {
      return Err(BadIndex(index.error));
    }
    if op == "replace" {
      PutItem(typed, index.value, value);
      return Ok(node);
    }
    DropItem(typed, index.value);
    return Ok(node);
  }

  /** `applyJSONOperation`: descends to the parent of the target and edits it where it stands. */
  method ApplyInPlace(node: Node, tokens: seq<Token>, op: string, value: Node) returns (r: Result<Node, PatchError>)
    requires ValidNode(node) && ValidNode(value) && Footprint(node) !! Footprint(value)
    modifies Footprint(node)
    ensures r.Ok? <==> ApplyAt(old(ModelOf(node)), tokens, op, old(ModelOf(value))).Ok?
    ensures r.Err? ==> r.error == ApplyAt(old(ModelOf(node)), tokens, op, old(ModelOf(value))).error
    ensures r.Err? ==> unchanged(old(Footprint(node)))
    ensures r.Ok? ==> r.value == node && ValidNode(node)
    ensures r.Ok? ==> ModelOf(node) == ApplyAt(old(ModelOf(node)), tokens, op, old(ModelOf(value))).value
    ensures r.Ok? ==> Footprint(node) <= old(Footprint(node)) + old(Footprint(value))
    decreases |tokens|, 1
  {
    if tokens == [] {
      return Err(BadPointer(EmptyPointer));
    }
    if |tokens| == 1 {
      r := ApplyLeafInPlace(node, tokens[0], op, value);
      return;
    }
    if node.Scalar? {
      return Err(NotAContainer);
    }
    if node.container.isObject {
      r := DescendField(node, tokens, op, value);
    } else {
      r := DescendItem(node, tokens, op, value);
    }
  }

  lemma ApplyAtField(node: Json, tokens: seq<Token>, op: string, value: Json)
    requires |tokens| > 1 && node.Object?
    ensures ApplyAt(node, tokens, op, value) ==
      if tokens[0] !in node.fields then Err(MissingParent)
      else
        var updated := ApplyAt(node.fields[tokens[0]], tokens[1..], op, value);
        if updated.Err? then updated else Ok(Json.Object(node.fields[tokens[0] := updated.value]))
  {
  }

  lemma ApplyAtItem(node: Json, tokens: seq<Token>, op: string, value: Json)
    requires |tokens| > 1 && node.Array?
    ensures ApplyAt(node, tokens, op, value) ==
      var index := IndexOf(tokens[0], |node.items|, false);
      if index.Err? then Err(BadIndex(index.error))
      else
        var updated := ApplyAt(node.items[index.value], tokens[1..], op, value);
        if updated.Err? then updated else Ok(Json.Array(node.items[index.value := updated.value]))
  {
  }

  /** The object branch of the descent. */
  method DescendField(node: Node, tokens: seq<Token>, op: string, value: Node) returns (r: Result<Node, PatchError>)
    requires |tokens| > 1 && node.Ref? && node.container.isObject
    requires ValidNode(node) && ValidNode(value) && Footprint(node) !! Footprint(value)
    modifies Footprint(node)
    ensures r.Ok? <==> ApplyAt(old(ModelOf(node)), tokens, op, old(ModelOf(value))).Ok?
    ensures r.Err? ==> r.error == ApplyAt(old(ModelOf(node)), tokens, op, old(ModelOf(value))).error
    ensures r.Err? ==> unchanged(old(Footprint(node)))
    ensures r.Ok? ==> r.value == node && ValidNode(node)
    ensures r.Ok? ==> ModelOf(node) == ApplyAt(old(ModelOf(node)), tokens, op, old(ModelOf(value))).value
    ensures r.Ok? ==> Footprint(node) <= old(Footprint(node)) + old(Footprint(value))
    decreases |tokens|, 0
  {
    hide ApplyAt;
    var typed := node.container;
    ApplyAtField(typed.Model, tokens, op, ModelOf(value));
    if tokens[0] !in typed.fields {
      return Err(MissingParent);
    }
    var child := typed.fields[tokens[0]];
    var updated := ApplyInPlace(child, tokens[1..], op, value);
    if updated.Err? {
      return updated;
    }
    PutField(typed, tokens[0], updated.value);
    return Ok(node);
  }

  /** The array branch of the descent. */
  method DescendItem(node: Node, tokens: seq<Token>, op: string, value: Node) returns (r: Result<Node, PatchError>)
    requires |tokens| > 1 && node.Ref? && !node.container.isObject
    requires ValidNode(node) && ValidNode(value) && Footprint(node) !! Footprint(value)
    modifies Footprint(node)
    ensures r.Ok? <==> ApplyAt(old(ModelOf(node)), tokens, op, old(ModelOf(value))).Ok?
    ensures r.Err? ==> r.error == ApplyAt(old(ModelOf(node)), tokens, op, old(ModelOf(value))).error
    ensures r.Err? ==> unchanged(old(Footprint(node)))
    ensures r.Ok? ==> r.value == node && ValidNode(node)
    ensures r.Ok? ==> ModelOf(node) == ApplyAt(old(ModelOf(node)), tokens, op, old(ModelOf(value))).value
    ensures r.Ok? ==> Footprint(node) <= old(Footprint(node)) + old(Footprint(value))
    decreases |tokens|, 0
  {
    hide ApplyAt;
    var typed := node.container;
    ApplyAtItem(typed.Model, tokens, op, ModelOf(value));
    var index := IndexOf(tokens[0], |typed.items|, false);
    if index.Err? {
      return Err(BadIndex(index.error));
    }
    var child := typed.items[index.value];
    var updated := ApplyInPlace(child, tokens[1..], op, value);
    if updated.Err? {
      return updated;
    }
    PutItem(typed, index.value, updated.value);
    return Ok(node);
  }

  // ---------- private copies ----------

  /** Serialization of a tree. */
  method Marshal(node: Node) returns (json: Json)
    requires ValidNode(node)
    ensures json == ModelOf(node)
    decreases Footprint(node)
  {
    if node.Scalar? {
      return node.value;
    }
    var typed := node.container;
    if typed.isObject {
      var fields: map<Token, Json> := map[];
      var remaining := typed.fields.Keys;
      while remaining != {}
        invariant remaining <= typed.fields.Keys && fields.Keys == typed.fields.Keys - remaining
        invariant forall k :: k in fields ==> fields[k] == typed.Model.fields[k]
        decreases remaining
      {
        var key :| key in remaining;
        var child := Marshal(typed.fields[key]);
        fields := fields[key := child];
        remaining := remaining - {key};
      }
      return Json.Object(fields);
    }
    var items: seq<Json> := [];
    while |items| < |typed.items|
      invariant |items| <= |typed.items| && items == typed.Model.items[..|items|]
    {
      var child := Marshal(typed.items[|items|]);
      items := items + [child];
    }
    return Json.Array(items);
  }

  /** Deserialization into containers nobody else holds. */
  method Unmarshal(json: Json) returns (node: Node)
    ensures ValidNode(node) && ModelOf(node) == json && fresh(Footprint(node))
    decreases json, 1
  {
    match json {
      case Object(_) =>
        node := UnmarshalObject(json);
      case Array(_) =>
        node := UnmarshalArray(json);
      case _ =>
        return Scalar(json);
    }
  }

  method UnmarshalObject(json: Json) returns (node: Node)
    requires json.Object?
    ensures ValidNode(node) && ModelOf(node) == json && fresh(Footprint(node))
    decreases json, 0
  {
    var fields: map<Token, Node> := map[];
    ghost var used: set<Container> := {};
    var remaining := json.fields.Keys;
    while remaining != {}
      invariant remaining <= json.fields.Keys && fields.Keys == json.fields.Keys - remaining
      invariant fresh(used)
      invariant forall k :: k in fields ==>
        ValidNode(fields[k]) && ModelOf(fields[k]) == json.fields[k] && Footprint(fields[k]) <= used
      invariant forall j, k :: j in fields && k in fields && j != k ==> Footprint(fields[j]) !! Footprint(fields[k])
      decreases remaining
    {
      var key :| key in remaining;
      var child := Unmarshal(json.fields[key]);
      fields := fields[key := child];
      used := used + Footprint(child);
      remaining := remaining - {key};
    }
    var container := new Container(true, fields, [], json, used);
    return Ref(container);
  }

  method UnmarshalArray(json: Json) returns (node: Node)
    requires json.Array?
    ensures ValidNode(node) && ModelOf(node) == json && fresh(Footprint(node))
    decreases json, 0
  {
    var items: seq<Node> := [];
    ghost var used: set<Container> := {};
    while |items| < |json.items|
      invariant |items| <= |json.items| && fresh(used)
      invariant forall i :: 0 <= i < |items| ==>
        ValidNode(items[i]) && ModelOf(items[i]) == json.items[i] && Footprint(items[i]) <= used
      invariant forall i, j :: 0 <= i < j < |items| ==> Footprint(items[i]) !! Footprint(items[j])
    {
      var child := Unmarshal(json.items[|items|]);
      items := items + [child];
      used := used + Footprint(child);
    }
    var container := new Container(false, map[], items, json, used);
    return Ref(container);
  }

  /** `cloneJSON`: a private copy, refused beyond the resource limits. */
  method Clone(node: Node, fits: Json -> bool) returns (r: Result<Node, PatchError>)
    requires ValidNode(node)
    ensures r.Ok? <==> fits(ModelOf(node))
    ensures r.Err? ==> r.error == ResourceLimit
    ensures r.Ok? ==> ValidNode(r.value) && ModelOf(r.value) == ModelOf(node) && fresh(Footprint(r.value))
  {
    var json := Marshal(node);
    if !fits(json) {
      return Err(ResourceLimit);
    }
    var copy := Unmarshal(json);
    return Ok(copy);
  }

  /** `patchOperationValue`. */
  method DecodeOperand(operation: PatchOperation, rules: Rules) returns (r: Result<Node, PatchError>)
    ensures r.Ok? <==> OperationValue(operation, rules).Ok?
    ensures r.Err? ==> r.error == OperationValue(operation, rules).error
    ensures r.Ok? ==>
      ValidNode(r.value) && ModelOf(r.value) == OperationValue(operation, rules).value && fresh(Footprint(r.value))
  {
    var decoded := OperationValue(operation, rules);
    if decoded.Err? {
      return Err(decoded.error);
    }
    var value := Unmarshal(decoded.value);
    return Ok(value);
  }

  // ---------- whole patches ----------

  method IsObject(node: Node) returns (isObject: bool)
    requires ValidNode(node)
    ensures isObject == ModelOf(node).Object?
  {
    return node.Ref? && node.container.isObject;
  }

  /** The operation in place, then the checked copy of the result that replaces the working tree. */
  method ApplyAndCopy(working: Node, tokens: seq<Token>, op: string, value: Node, rules: Rules)
    returns (r: Result<Node, PatchError>)
    requires ValidNode(working) && ValidNode(value) && Footprint(working) !! Footprint(value)
    modifies Footprint(working)
    ensures r == Err(ResourceLimit)
      || (r.Err? <==> ApplyAt(old(ModelOf(working)), tokens, op, old(ModelOf(value))).Err?)
    ensures ApplyAt(old(ModelOf(working)), tokens, op, old(ModelOf(value))).Err? ==>
      r == Err(ApplyAt(old(ModelOf(working)), tokens, op, old(ModelOf(value))).error)
    ensures ApplyAt(old(ModelOf(working)), tokens, op, old(ModelOf(value))).Ok? ==>
      (r.Ok? <==> rules.fits(ApplyAt(old(ModelOf(working)), tokens, op, old(ModelOf(value))).value))
    ensures r.Ok? ==> ValidNode(r.value) && fresh(Footprint(r.value))
    ensures r.Ok? ==> ModelOf(r.value) == ApplyAt(old(ModelOf(working)), tokens, op, old(ModelOf(value))).value
  {
    hide ApplyAt;
    var updated := ApplyInPlace(working, tokens, op, value);
    if updated.Err? {
      return updated;
    }
    r := Clone(updated.value, rules.fits);
  }

  /** One iteration of the patch loop: the operation in place, then a checked copy of the result. */
  method ApplyRound(working: Node, operation: PatchOperation, rules: Rules) returns (r: Result<Node, PatchError>)
    requires ValidNode(working)
    modifies Footprint(working)
    ensures r.Ok? <==> ApplyStep(old(ModelOf(working)), operation, rules).Ok?
    ensures r.Err? ==> r.error == ApplyStep(old(ModelOf(working)), operation, rules).error
    ensures r.Ok? ==> ValidNode(r.value) && fresh(Footprint(r.value))
    ensures r.Ok? ==> ModelOf(r.value) == ApplyStep(old(ModelOf(working)), operation, rules).value
  {
    hide Parse, OperationValue, ApplyAt, Container.Valid;
    var tokens := ParsePointer(operation.path, rules.validToken);
    if tokens.Err? {
      return Err(BadPointer(tokens.error));
    }
    var value := DecodeOperand(operation, rules);
    if value.Err? {
      return value;
    }
    r := ApplyAndCopy(working, tokens.value, operation.op, value.value, rules);
  }

  /** The loop of `ApplyJSONPatch`. */
  method ApplyOperations(document: Node, operations: seq<PatchOperation>, rules: Rules)
    returns (r: Result<Node, PatchError>)
    requires ValidNode(document)
    modifies Footprint(document)
    ensures r.Ok? <==> ApplyAll(old(ModelOf(document)), operations, rules).Ok?
    ensures r.Err? ==> r.error == ApplyAll(old(ModelOf(document)), operations, rules).error
    ensures r.Ok? ==> ValidNode(r.value) && fresh(Footprint(r.value) - old(Footprint(document)))
    ensures r.Ok? ==> ModelOf(r.value) == ApplyAll(old(ModelOf(document)), operations, rules).value
  {
    hide ApplyStep, Container.Valid, ModelOf, Footprint, ValidNode;
    var working := document;
    ghost var expected := ApplyAll(ModelOf(working), operations, rules);
    var i := 0;
    assert operations[0..] == operations;
    while i < |operations|
      invariant 0 <= i <= |operations|
      invariant ValidNode(working) && fresh(Footprint(working) - old(Footprint(document)))
      invariant ApplyAll(ModelOf(working), operations[i..], rules) == expected
    {
      assert operations[i..][1..] == operations[i + 1..];
      var next := ApplyRound(working, operations[i], rules);
      if next.Err? {
        return next;
      }
      working := next.value;
      i := i + 1;
    }
    return Ok(working);
  }

  /** `ApplyJSONPatch`: the caller's document is only read. */
  method ApplyJsonPatch(document: Node, patch: Patch, target: string, rules: Rules)
    returns (r: Result<Node, PatchError>)
    requires ValidNode(document)
    ensures r.Ok? <==> ApplyPatch(ModelOf(document), patch, target, rules).Ok?
    ensures r.Err? ==> r.error == ApplyPatch(ModelOf(document), patch, target, rules).error
    ensures r.Ok? ==> ValidNode(r.value) && fresh(Footprint(r.value))
    ensures r.Ok? ==> ModelOf(r.value) == ApplyPatch(ModelOf(document), patch, target, rules).value
  {
    hide ApplyAll, Container.Valid;
    if patch.profile != PROFILE {
      return Err(UnsupportedProfile);
    }
    if target !in TARGETS {
      return Err(UnsupportedTarget);
    }
    if |patch.operations| > MAX_OPERATIONS {
      return Err(TooManyOperations);
    }
    var cloned := Clone(document, rules.fits);
    if cloned.Err? {
      return cloned;
    }
    var working := cloned.value;
    var isObject := IsObject(working);
    if !isObject {
      return Err(RootNotObject);
    }
    r := ApplyOperations(working, patch.operations, rules);
  }

  /** The operand is copied once for each of the two trees, so that they never share a container. */
  method ApplyToBoth(previous: Node, proposed: Node, tokens: seq<Token>, op: string, value: Node, rules: Rules)
    returns (r: Result<(Node, Node), PatchError>)
    requires ValidNode(previous) && ValidNode(proposed) && ValidNode(value)
    requires Footprint(previous) !! Footprint(proposed)
    modifies Footprint(previous), Footprint(proposed)
    ensures r.Ok? <==>
      ApplyBoth(old(ModelOf(previous)), old(ModelOf(proposed)), tokens, op, old(ModelOf(value)), rules).Ok?
    ensures r.Err? ==>
      r.error == ApplyBoth(old(ModelOf(previous)), old(ModelOf(proposed)), tokens, op, old(ModelOf(value)), rules).error
    ensures r.Ok? ==> ValidNode(r.value.0) && ValidNode(r.value.1)
    ensures r.Ok? ==> fresh(Footprint(r.value.0)) && fresh(Footprint(r.value.1))
    ensures r.Ok? ==> Footprint(r.value.0) !! Footprint(r.value.1)
    ensures r.Ok? ==>
      ApplyBoth(old(ModelOf(previous)), old(ModelOf(proposed)), tokens, op, old(ModelOf(value)), rules)
      == Ok((ModelOf(r.value.0), ModelOf(r.value.1)))
  {
    hide ApplyAt, Container.Valid;
    var unlimited := (json: Json) => true;
    var previousValue := Clone(value, unlimited);
    var proposedValue := Clone(value, unlimited);
    var first := ApplyAndCopy(previous, tokens, op, previousValue.value, rules);
    if first.Err? {
      return Err(first.error);
    }
    var second := ApplyAndCopy(proposed, tokens, op, proposedValue.value, rules);
    if second.Err? {
      return Err(second.error);
    }
    return Ok((first.value, second.value));
  }

  /** One iteration of the rebase loop. */
  method RebaseRound(previous: Node, proposed: Node, operation: PatchOperation, rules: Rules)
    returns (r: Result<(Node, Node), PatchError>)
    requires ValidNode(previous) && ValidNode(proposed) && Footprint(previous) !! Footprint(proposed)
    modifies Footprint(previous), Footprint(proposed)
    ensures r.Ok? <==> RebaseStep(old(ModelOf(previous)), old(ModelOf(proposed)), operation, rules).Ok?
    ensures r.Err? ==> r.error == RebaseStep(old(ModelOf(previous)), old(ModelOf(proposed)), operation, rules).error
    ensures r.Ok? ==> ValidNode(r.value.0) && ValidNode(r.value.1)
    ensures r.Ok? ==> fresh(Footprint(r.value.0)) && fresh(Footprint(r.value.1))
    ensures r.Ok? ==> Footprint(r.value.0) !! Footprint(r.value.1)
    ensures r.Ok? ==>
      RebaseStep(old(ModelOf(previous)), old(ModelOf(proposed)), operation, rules)
      == Ok((ModelOf(r.value.0), ModelOf(r.value.1)))
  {
    hide Parse, OperationValue, ApplyBoth, Stable, Container.Valid;
    var tokens := ParsePointer(operation.path, rules.validToken);
    if tokens.Err? {
      return Err(BadPointer(tokens.error));
    }
    var stable := StableRebasePath(previous, proposed, tokens.value);
    if !stable {
      return Err(RebaseConflict);
    }
    var value := DecodeOperand(operation, rules);
    if value.Err? {
      return Err(value.error);
    }
    r := ApplyToBoth(previous, proposed, tokens.value, operation.op, value.value, rules);
  }

  /** The loop of `RebaseJSONPatch`. */
  method RebaseOperations(previous: Node, proposed: Node, operations: seq<PatchOperation>, rules: Rules)
    returns (r: Result<Node, PatchError>)
    requires ValidNode(previous) && ValidNode(proposed) && Footprint(previous) !! Footprint(proposed)
    modifies Footprint(previous), Footprint(proposed)
    ensures r.Ok? <==> RebaseAll(old(ModelOf(previous)), old(ModelOf(proposed)), operations, rules).Ok?
    ensures r.Err? ==> r.error == RebaseAll(old(ModelOf(previous)), old(ModelOf(proposed)), operations, rules).error
    ensures r.Ok? ==> ValidNode(r.value) && fresh(Footprint(r.value) - old(Footprint(proposed)))
    ensures r.Ok? ==>
      ModelOf(r.value) == RebaseAll(old(ModelOf(previous)), old(ModelOf(proposed)), operations, rules).value
  {
    hide RebaseStep, Container.Valid, ModelOf, Footprint, ValidNode;
    var previousWorking, proposedWorking := previous, proposed;
    ghost var expected := RebaseAll(ModelOf(previousWorking), ModelOf(proposedWorking), operations, rules);
    var i := 0;
    assert operations[0..] == operations;
    while i < |operations|
      invariant 0 <= i <= |operations|
      invariant ValidNode(previousWorking) && ValidNode(proposedWorking)
      invariant fresh(Footprint(previousWorking) - old(Footprint(previous)))
      invariant fresh(Footprint(proposedWorking) - old(Footprint(proposed)))
      invariant Footprint(previousWorking) !! Footprint(proposedWorking)
      invariant RebaseAll(ModelOf(previousWorking), ModelOf(proposedWorking), operations[i..], rules) == expected
    {
      assert operations[i..][1..] == operations[i + 1..];
      var next := RebaseRound(previousWorking, proposedWorking, operations[i], rules);
      if next.Err? {
        return Err(next.error);
      }
      previousWorking, proposedWorking := next.value.0, next.value.1;
      i := i + 1;
    }
    return Ok(proposedWorking);
  }

  /** `RebaseJSONPatch`: both sources are only read, and the two working trees never share a container. */
  method RebaseJsonPatch(previous: Node, proposed: Node, patch: Patch, target: string, rules: Rules)
    returns (r: Result<Node, PatchError>)
    requires ValidNode(previous) && ValidNode(proposed)
    ensures r.Ok? <==> RebasePatch(ModelOf(previous), ModelOf(proposed), patch, target, rules).Ok?
    ensures r.Err? ==> r.error == RebasePatch(ModelOf(previous), ModelOf(proposed), patch, target, rules).error
    ensures r.Ok? ==> ValidNode(r.value) && fresh(Footprint(r.value))
    ensures r.Ok? ==> ModelOf(r.value) == RebasePatch(ModelOf(previous), ModelOf(proposed), patch, target, rules).value
  {
    hide RebaseAll, Container.Valid;
    if patch.profile != PROFILE {
      return Err(UnsupportedProfile);
    }
    if target !in TARGETS {
      return Err(UnsupportedTarget);
    }
    if |patch.operations| > MAX_OPERATIONS {
      return Err(TooManyOperations);
    }
    var firstCopy := Clone(previous, rules.fits);
    if firstCopy.Err? {
      return firstCopy;
    }
    var secondCopy := Clone(proposed, rules.fits);
    if secondCopy.Err? {
      return secondCopy;
    }
    var previousWorking, proposedWorking := firstCopy.value, secondCopy.value;
    var previousIsObject := IsObject(previousWorking);
    var proposedIsObject := IsObject(proposedWorking);
    if !previousIsObject || !proposedIsObject {
      return Err(RootNotObject);
    }
    r := RebaseOperations(previousWorking, proposedWorking, patch.operations, rules);
  }

  /** `stableRebasePath`, comparing the two subtrees deeply. */
  method StableRebasePath(previous: Node, proposed: Node, tokens: seq<Token>) returns (stable: bool)
    requires ValidNode(previous) && ValidNode(proposed)
    ensures stable == Stable(ModelOf(previous), ModelOf(proposed), tokens)
  {
    if tokens == [] || previous.Scalar? || proposed.Scalar? {
      return false;
    }
    if !previous.container.isObject || !proposed.container.isObject {
      return false;
    }
    var inPrevious := tokens[0] in previous.container.fields;
    var inProposed := tokens[0] in proposed.container.fields;
    if inPrevious != inProposed {
      return false;
    }
    if inPrevious {
      var a := Marshal(previous.container.fields[tokens[0]]);
      var b := Marshal(proposed.container.fields[tokens[0]]);
      return a == b;
    }
    return true;
  }
}
