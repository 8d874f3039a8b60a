/** The JSON Schema keywords (Draft 2020-12 Core and Validation) that the problem-details compiler emits. */
module JsonSchema {
  import opened Foundation

  /** JSON values; `Other` stands for arrays, null and non-integer numbers, which no compiled keyword inspects. */
  datatype Value =
    | Text(text: string)
    | Integer(number: int)
    | Flag(truth: bool)
    | Record(fields: map<string, Value>)
    | Other(form: nat)

  /** A schema object is the conjunction of its keywords. */
  datatype Schema =
    | TypeObject
    | MaxProperties(limit: nat)
    | Properties(properties: map<string, Schema>)
    | Required(names: seq<string>)
    | Const(value: Value)
    | Enum(values: seq<Value>)
    | AllOf(parts: seq<Schema>)
    | OneOf(variants: seq<Schema>)

  ghost predicate Accepts(schema: Schema, v: Value)
    decreases schema
  {
    match schema
    case TypeObject => v.Record?
    case MaxProperties(limit) => v.Record? ==> |v.fields| <= limit
    case Properties(properties) =>
      v.Record? ==> forall name :: name in properties && name in v.fields ==> Accepts(properties[name], v.fields[name])
    case Required(names) => v.Record? ==> forall i :: 0 <= i < |names| ==> names[i] in v.fields
    case Const(value) => v == value
    case Enum(values) => v in values
    case AllOf(parts) => forall i :: 0 <= i < |parts| ==> Accepts(parts[i], v)
    case OneOf(variants) =>
      exists i :: 0 <= i < |variants| && Accepts(variants[i], v)
        && forall j :: 0 <= j < |variants| && j != i ==> !Accepts(variants[j], v)
  }

  /** How many of the variants accept the value. */
  ghost function Matching(variants: seq<Schema>, v: Value): nat {
    if variants == [] then 0 else Matching(variants[1..], v) + if Accepts(variants[0], v) then 1 else 0
  }

  lemma {:induction false} NoneMatching(variants: seq<Schema>, v: Value)
    ensures Matching(variants, v) == 0 <==> forall i :: 0 <= i < |variants| ==> !Accepts(variants[i], v)
    decreases |variants|
  {
    hide Accepts;
    if variants != [] {
      NoneMatching(variants[1..], v);
      assert forall i :: 1 <= i < |variants| ==> variants[i] == variants[1..][i - 1];
    }
  }

  /** Exactly one variant accepts, at this place. */
  ghost predicate OnlyMatch(variants: seq<Schema>, v: Value, i: nat) {
    && i < |variants| && Accepts(variants[i], v)
    && forall j :: 0 <= j < |variants| && j != i ==> !Accepts(variants[j], v)
  }

  lemma {:induction false} OneMatching(variants: seq<Schema>, v: Value)
    ensures Matching(variants, v) == 1 <==> exists i: nat :: OnlyMatch(variants, v, i)
    decreases |variants|
  {
    hide Accepts;
    if variants != [] {
      var rest := variants[1..];
      OneMatching(rest, v);
      NoneMatching(rest, v);
      assert forall i :: 1 <= i < |variants| ==> variants[i] == rest[i - 1];
      if i: nat :| OnlyMatch(variants, v, i) {
        assert i > 0 ==> OnlyMatch(rest, v, i - 1);
      }
      if i: nat :| OnlyMatch(rest, v, i) {
        assert !Accepts(variants[0], v) ==> OnlyMatch(variants, v, i + 1);
      }
      if Matching(rest, v) == 0 && Accepts(variants[0], v) {
        assert OnlyMatch(variants, v, 0);
      }
    }
  }

  lemma MatchOf(variants: seq<Schema>, v: Value) returns (i: nat)
    requires Accepts(OneOf(variants), v)
    ensures OnlyMatch(variants, v, i)
  {
    i :| 0 <= i < |variants| && Accepts(variants[i], v)
      && forall j :: 0 <= j < |variants| && j != i ==> !Accepts(variants[j], v);
  }

  lemma MatchTaken(variants: seq<Schema>, v: Value, i: nat)
    requires OnlyMatch(variants, v, i)
    ensures Accepts(OneOf(variants), v)
  {
    assert Accepts(variants[i], v);
  }

  /** `oneOf` accepts when the number of variants that accept is one. */
  lemma OneOfCounts(variants: seq<Schema>, v: Value)
    ensures Accepts(OneOf(variants), v) <==> Matching(variants, v) == 1
  {
    hide Accepts, OnlyMatch;
    OneMatching(variants, v);
    if Accepts(OneOf(variants), v) {
      var i := MatchOf(variants, v);
    }
    forall i: nat | OnlyMatch(variants, v, i)
      ensures Accepts(OneOf(variants), v)
    {
      MatchTaken(variants, v, i);
    }
  }

  /** Where variants exclude each other, exactly one matches as soon as any does. */
  lemma OneOfExclusive(variants: seq<Schema>, v: Value)
    requires forall i, j :: 0 <= i < j < |variants| ==> !(Accepts(variants[i], v) && Accepts(variants[j], v))
    ensures Accepts(OneOf(variants), v) <==> exists i :: 0 <= i < |variants| && Accepts(variants[i], v)
  {
    if i :| 0 <= i < |variants| && Accepts(variants[i], v) {
      assert forall j :: 0 <= j < |variants| && j != i ==> !Accepts(variants[j], v);
    }
  }

  /** One more entry of `properties` constrains one more member. */
  lemma PropertiesInsert(properties: map<string, Schema>, name: string, schema: Schema, v: Value)
    requires name !in properties
    ensures Accepts(Properties(properties[name := schema]), v) <==>
      Accepts(Properties(properties), v) && (v.Record? && name in v.fields ==> Accepts(schema, v.fields[name]))
  {
    var more := properties[name := schema];
    if Accepts(Properties(more), v) && v.Record? {
      forall other | other in properties && other in v.fields
        ensures Accepts(properties[other], v.fields[other])
      {
        assert other in more && more[other] == properties[other];
      }
      if name in v.fields {
        assert name in more && more[name] == schema;
      }
    }
    if Accepts(Properties(properties), v) && (v.Record? && name in v.fields ==> Accepts(schema, v.fields[name]))
      && v.Record? {
      forall other | other in more && other in v.fields
        ensures Accepts(more[other], v.fields[other])
      {
        if other != name {
          assert more[other] == properties[other];
        }
      }
    }
  }

  lemma RequiredInsert(names: seq<string>, name: string, v: Value)
    ensures Accepts(Required(names + [name]), v) <==> Accepts(Required(names), v) && (v.Record? ==> name in v.fields)
  {
    if Accepts(Required(names + [name]), v) && v.Record? {
      assert (names + [name])[|names|] in v.fields;
      forall i | 0 <= i < |names|
        ensures names[i] in v.fields
      {
        assert (names + [name])[i] in v.fields;
      }
    }
  }

  /** Naming a member in both keywords makes it present and constrained. */
  lemma PinsMember(properties: map<string, Schema>, names: seq<string>, name: string, schema: Schema, v: Value)
    requires v.Record? && name !in properties
    ensures Accepts(Properties(properties[name := schema]), v) && Accepts(Required(names + [name]), v) <==>
      && Accepts(Properties(properties), v) && Accepts(Required(names), v)
      && name in v.fields && Accepts(schema, v.fields[name])
  {
    PropertiesInsert(properties, name, schema, v);
    RequiredInsert(names, name, v);
    hide Accepts;
  }

  // ---------- members that are both required and constrained ----------

  datatype Pin = Pin(name: string, schema: Schema)

  function PropertiesOf(pins: seq<Pin>): map<string, Schema> {
    if pins == [] then map[] else PropertiesOf(pins[..|pins| - 1])[pins[|pins| - 1].name := pins[|pins| - 1].schema]
  }

  function NamesOf(pins: seq<Pin>): (names: seq<string>)
    ensures |names| == |pins| && forall i :: 0 <= i < |pins| ==> names[i] == pins[i].name
  {
    seq(|pins|, i requires 0 <= i < |pins| => pins[i].name)
  }

  ghost predicate Pinned(v: Value, pin: Pin) {
    v.Record? && pin.name in v.fields && Accepts(pin.schema, v.fields[pin.name])
  }

  lemma {:induction false} PropertyNames(pins: seq<Pin>, name: string)
    ensures name in PropertiesOf(pins) <==> name in NamesOf(pins)
    decreases |pins|
  {
    if pins != [] {
      PropertyNames(pins[..|pins| - 1], name);
      assert NamesOf(pins) == NamesOf(pins[..|pins| - 1]) + [pins[|pins| - 1].name];
    }
  }

  lemma {:induction false} PinsMean(pins: seq<Pin>, v: Value)
    requires v.Record? && NoRepeats(NamesOf(pins))
    ensures Accepts(Properties(PropertiesOf(pins)), v) && Accepts(Required(NamesOf(pins)), v) <==>
      forall i :: 0 <= i < |pins| ==> Pinned(v, pins[i])
    decreases |pins|
  {
    if pins != [] {
      var n := |pins| - 1;
      var front, last := pins[..n], pins[n];
      assert NamesOf(pins) == NamesOf(front) + [last.name];
      assert forall i :: 0 <= i < n ==> NamesOf(front)[i] == NamesOf(pins)[i];
      PinsMean(front, v);
      PropertyNames(front, last.name);
      assert last.name !in NamesOf(front);
      PinsMember(PropertiesOf(front), NamesOf(front), last.name, last.schema, v);
      hide Accepts, NamesOf;
      assert forall i :: 0 <= i < n ==> front[i] == pins[i];
    }
  }

  lemma AllOfTwo(a: Schema, b: Schema, v: Value)
    ensures Accepts(AllOf([a, b]), v) <==> Accepts(a, v) && Accepts(b, v)
  {
    assert [a, b][0] == a && [a, b][1] == b;
  }

  lemma AllOfFour(a: Schema, b: Schema, c: Schema, d: Schema, v: Value)
    ensures Accepts(AllOf([a, b, c, d]), v) <==> Accepts(a, v) && Accepts(b, v) && Accepts(c, v) && Accepts(d, v)
  {
    var parts := [a, b, c, d];
    assert parts[0] == a && parts[1] == b && parts[2] == c && parts[3] == d;
  }
}
