/**
 The problem-details compiler of scripts/contracts/generate_downstream_port_types.py: the problem
 catalog and the port registry are checked against each other and compiled into `oneOf` variants.
 */
module ProblemSchema {
  import opened Foundation
  import opened Ordering
  import opened JsonSchema

  datatype ProblemRow = ProblemRow(
    code: string, problemType: string, status: int, retryable: bool, states: seq<string>, cliExit: int)

  datatype RegisteredError = RegisteredError(code: string, state: string)

  datatype Operation = Operation(operationId: string, errors: seq<RegisteredError>)

  datatype Port = Port(portId: string, operations: seq<Operation>)

  /** One registered operation with the port it belongs to. */
  datatype Entry = Entry(port: string, operation: string, errors: seq<RegisteredError>)

  datatype TableError =
    | BadRow | DuplicateCode | UnsortedCatalog | EmptyRegistry | BadPort | BadOperation | DuplicateOperation
    | BadError | CoverageDrift

  const STATE_ORDER := ["none", "not-committed", "committed-unchanged", "commit-unknown"]
  const TYPE_PREFIX := "https://problems.bytedesk.ai/agent-delivery/"
  const MAXIMUM_PROPERTIES: nat := 19

  // ---------- the catalog ----------

  predicate IsLower(c: char) {
    'a' <= c <= 'z'
  }

  predicate IsCode(code: string) {
    && code != "" && IsLower(code[0])
    && forall i :: 0 <= i < |code| ==> IsLower(code[i]) || '0' <= code[i] <= '9' || code[i] == '_'
  }

  predicate IsOperationId(id: string) {
    id != "" && IsLower(id[0]) && forall i :: 0 <= i < |id| ==> IsLower(id[i]) || '0' <= id[i] <= '9' || id[i] == '-'
  }

  /** Python's `code.replace("_", "-")`. */
  function Hyphenated(code: string): string {
    seq(|code|, i requires 0 <= i < |code| => if code[i] == '_' then '-' else code[i])
  }

  /** The elements of `order` that occur in `states`. */
  function Canonical(order: seq<string>, states: seq<string>): seq<string> {
    if order == [] then []
    else (if order[0] in states then [order[0]] else []) + Canonical(order[1..], states)
  }

  predicate RowOk(row: ProblemRow) {
    && IsCode(row.code) && row.problemType == TYPE_PREFIX + Hyphenated(row.code)
    && 400 <= row.status <= 599 && 2 <= row.cliExit <= 13
    && row.states != [] && (forall i, j :: 0 <= i < j < |row.states| ==> row.states[i] != row.states[j])
    && row.states == Canonical(STATE_ORDER, row.states)
  }

  function Shifted(places: seq<nat>): (shifted: seq<nat>)
    ensures |shifted| == |places| && forall i :: 0 <= i < |places| ==> shifted[i] == places[i] + 1
  {
    seq(|places|, i requires 0 <= i < |places| => places[i] + 1)
  }

  function Lowered(places: seq<nat>): (lowered: seq<nat>)
    requires forall i :: 0 <= i < |places| ==> places[i] > 0
    ensures |lowered| == |places| && forall i :: 0 <= i < |places| ==> lowered[i] == places[i] - 1
  {
    seq(|places|, i requires 0 <= i < |places| => places[i] - 1)
  }

  lemma {:induction false} CanonicalRises(order: seq<string>, states: seq<string>) returns (places: seq<nat>)
    ensures RisesAt(order, Canonical(order, states), places)
    decreases |order|
  {
    hide RisesAt;
    places := [];
    if order == [] {
      NothingRises();
    } else {
      var rest := CanonicalRises(order[1..], states);
      var canonical, shifted := Canonical(order[1..], states), Shifted(rest);
      RisesLater(order, canonical, rest);
      if order[0] in states {
        places := [0] + shifted;
        RisesBelow(order, canonical, shifted);
      } else {
        places := shifted;
        assert [] + canonical == canonical;
      }
    }
  }

  lemma NothingRises()
    ensures RisesAt<string>([], [], [])
  {
  }

  lemma RisesLater(order: seq<string>, states: seq<string>, places: seq<nat>)
    requires order != [] && RisesAt(order[1..], states, places)
    ensures RisesAt(order, states, Shifted(places))
  {
  }

  lemma RisesBelow(order: seq<string>, states: seq<string>, places: seq<nat>)
    requires order != [] && RisesAt(order, states, places)
    requires forall i :: 0 <= i < |places| ==> places[i] > 0
    ensures RisesAt(order, [order[0]] + states, [0] + places)
  {
  }

  lemma {:induction false} CanonicalOf(order: seq<string>, states: seq<string>, more: seq<string>)
    requires forall x :: x in order ==> (x in states <==> x in more)
    ensures Canonical(order, states) == Canonical(order, more)
    decreases |order|
  {
    if order != [] {
      assert order[0] in order;
      forall x | x in order[1..]
        ensures x in states <==> x in more
      {
        assert x in order;
      }
      CanonicalOf(order[1..], states, more);
    }
  }

  lemma {:induction false} RisingIsCanonical(order: seq<string>, states: seq<string>, places: seq<nat>)
    requires NoRepeats(order) && RisesAt(order, states, places)
    ensures Canonical(order, states) == states
    decreases |order|
  {
    if order != [] {
      var rest := order[1..];
      if states != [] && places[0] == 0 {
        var below := Lowered(places[1..]);
        RisingIsCanonical(rest, states[1..], below);
        forall x | x in rest
          ensures x in states <==> x in states[1..]
        {
          assert x != order[0];
        }
        CanonicalOf(rest, states, states[1..]);
        assert states == [states[0]] + states[1..];
      } else {
        forall i | 0 <= i < |states|
          ensures places[i] > 0 && states[i] != order[0]
        {
          assert i > 0 ==> places[0] < places[i];
        }
        var below := Lowered(places);
        RisingIsCanonical(rest, states, below);
      }
    }
  }

  /** A lower-case letter, then such letters, digits and underscores. */
  ghost predicate CodeStands(code: string) {
    && code != "" && 'a' <= code[0] <= 'z'
    && forall k :: 0 <= k < |code| ==> 'a' <= code[k] <= 'z' || '0' <= code[k] <= '9' || code[k] == '_'
  }

  /** The type is the prefix and the code with a hyphen for every underscore. */
  ghost predicate TypeStands(row: ProblemRow) {
    exists suffix ::
      && row.problemType == "https://problems.bytedesk.ai/agent-delivery/" + suffix && |suffix| == |row.code|
      && forall k :: 0 <= k < |suffix| ==> suffix[k] == if row.code[k] == '_' then '-' else row.code[k]
  }

  /** The states stand at rising places of the fixed list. */
  ghost predicate StatesStand(states: seq<string>) {
    && states != []
    && exists places :: RisesAt(["none", "not-committed", "committed-unchanged", "commit-unknown"], states, places)
  }

  /** What a catalog row owes, said of its members one by one. */
  ghost predicate RowStands(row: ProblemRow) {
    && CodeStands(row.code) && 400 <= row.status <= 599 && 2 <= row.cliExit <= 13 && TypeStands(row)
    && StatesStand(row.states)
  }

  lemma CodeMeans(code: string)
    ensures IsCode(code) <==> CodeStands(code)
  {
  }

  lemma SuffixSpelled(row: ProblemRow)
    ensures row.problemType == TYPE_PREFIX + Hyphenated(row.code) <==> TypeStands(row)
  {
    forall suffix: string | |suffix| == |row.code|
      ensures suffix == Hyphenated(row.code) <==>
        forall k :: 0 <= k < |suffix| ==> suffix[k] == if row.code[k] == '_' then '-' else row.code[k]
    {
    }
  }

  lemma StatesRise(states: seq<string>)
    ensures states != [] && NoRepeats(states) && states == Canonical(STATE_ORDER, states) <==> StatesStand(states)
  {
    assert NoRepeats(STATE_ORDER) by {
      assert |"none"| == 4 && |"not-committed"| == 13 && |"committed-unchanged"| == 19 && |"commit-unknown"| == 14;
    }
    hide Canonical;
    var canonical := CanonicalRises(STATE_ORDER, states);
    if places :| RisesAt(STATE_ORDER, states, places) {
      RisingIsCanonical(STATE_ORDER, states, places);
      forall i, j | 0 <= i < j < |states|
        ensures states[i] != states[j]
      {
        assert places[i] < places[j];
      }
    }
  }

  /** The checks of one row are these: the type spells the code with hyphens, the states rise in their fixed order. */
  lemma RowMeans(row: ProblemRow)
    ensures RowOk(row) <==> RowStands(row)
  {
    hide IsCode, CodeStands, Canonical, Hyphenated, TypeStands, StatesStand;
    CodeMeans(row.code);
    SuffixSpelled(row);
    StatesRise(row.states);
  }

  function Codes(rows: seq<ProblemRow>): (codes: seq<string>)
    ensures |codes| == |rows| && forall i :: 0 <= i < |rows| ==> codes[i] == rows[i].code
  {
    seq(|rows|, i requires 0 <= i < |rows| => rows[i].code)
  }

  predicate TextBefore(a: string, b: string) {
    LexBefore(CharBefore, a, b)
  }

  ghost predicate CatalogOk(rows: seq<ProblemRow>) {
    && (forall i :: 0 <= i < |rows| ==> RowOk(rows[i]))
    && NoRepeats(Codes(rows)) && Codes(rows) == SortBy(TextBefore, Codes(rows))
  }

  // ---------- the registry ----------

  function EntriesOf(port: string, operations: seq<Operation>): (entries: seq<Entry>)
    ensures |entries| == |operations|
    ensures forall i :: 0 <= i < |operations| ==>
      entries[i] == Entry(port, operations[i].operationId, operations[i].errors)
  {
    seq(|operations|, i requires 0 <= i < |operations| => Entry(port, operations[i].operationId, operations[i].errors))
  }

  /** The registered operations of all ports. */
  function Flatten(ports: seq<Port>): seq<Entry> {
    if ports == [] then []
    else Flatten(ports[..|ports| - 1]) + EntriesOf(ports[|ports| - 1].portId, ports[|ports| - 1].operations)
  }

  /** The registered operations are those of the ports, each with its port's identifier. */
  lemma {:induction false} FlattenMeans(ports: seq<Port>, entry: Entry)
    ensures entry in Flatten(ports) <==>
      exists port, operation ::
        && port in ports && operation in port.operations && entry.port == port.portId
        && entry.operation == operation.operationId && entry.errors == operation.errors
    decreases |ports|
  {
    if ports != [] {
      var front, last := ports[..|ports| - 1], ports[|ports| - 1];
      FlattenMeans(front, entry);
      assert ports == front + [last];
      var own := EntriesOf(last.portId, last.operations);
      if entry in own {
        var i :| 0 <= i < |own| && own[i] == entry;
        assert last.operations[i] in last.operations;
      }
      if operation :|
        operation in last.operations && entry == Entry(last.portId, operation.operationId, operation.errors)
      {
        var i :| 0 <= i < |last.operations| && last.operations[i] == operation;
        assert own[i] == entry;
      }
    }
  }

  function Keys(entries: seq<Entry>): (keys: seq<(string, string)>)
    ensures |keys| == |entries| && forall i :: 0 <= i < |entries| ==> keys[i] == (entries[i].port, entries[i].operation)
  {
    seq(|entries|, i requires 0 <= i < |entries| => (entries[i].port, entries[i].operation))
  }

  function ErrorCodes(errors: seq<RegisteredError>): (codes: seq<string>)
    ensures |codes| == |errors| && forall i :: 0 <= i < |errors| ==> codes[i] == errors[i].code
  {
    seq(|errors|, i requires 0 <= i < |errors| => errors[i].code)
  }

  function PortIds(ports: seq<Port>): (ids: seq<string>)
    ensures |ids| == |ports| && forall i :: 0 <= i < |ports| ==> ids[i] == ports[i].portId
  {
    seq(|ports|, i requires 0 <= i < |ports| => ports[i].portId)
  }

  /** The catalog permits this state for this code. */
  ghost predicate Permitted(rows: seq<ProblemRow>, error: RegisteredError) {
    exists i :: 0 <= i < |rows| && rows[i].code == error.code && error.state in rows[i].states
  }

  ghost predicate ErrorsOk(errors: seq<RegisteredError>, rows: seq<ProblemRow>) {
    && errors != [] && NoRepeats(ErrorCodes(errors))
    && forall k :: 0 <= k < |errors| ==> errors[k].state in STATE_ORDER && Permitted(rows, errors[k])
  }

  ghost predicate EntryOk(entry: Entry, rows: seq<ProblemRow>) {
    IsOperationId(entry.operation) && ErrorsOk(entry.errors, rows)
  }

  ghost predicate Sound(entries: seq<Entry>, rows: seq<ProblemRow>) {
    NoRepeats(Keys(entries)) && forall i :: 0 <= i < |entries| ==> EntryOk(entries[i], rows)
  }

  ghost predicate PortsOk(ports: seq<Port>, rows: seq<ProblemRow>) {
    && ports != [] && NoRepeats(PortIds(ports))
    && (forall i :: 0 <= i < |ports| ==> ports[i].portId != "" && ports[i].operations != [])
    && Sound(Flatten(ports), rows)
  }

  /** Some registered operation reports this pair. */
  ghost predicate Referenced(entries: seq<Entry>, error: RegisteredError) {
    exists i :: 0 <= i < |entries| && error in entries[i].errors
  }

  /** The catalog permits exactly the pairs that operations report. */
  ghost predicate Covered(rows: seq<ProblemRow>, entries: seq<Entry>) {
    forall i, state :: 0 <= i < |rows| ==>
      (state in rows[i].states <==> Referenced(entries, RegisteredError(rows[i].code, state)))
  }

  ghost predicate TablesOk(rows: seq<ProblemRow>, ports: seq<Port>) {
    CatalogOk(rows) && PortsOk(ports, rows) && Covered(rows, Flatten(ports))
  }

  // ---------- the compiled schema ----------

  function TextValues(texts: seq<string>): (values: seq<Value>)
    ensures |values| == |texts| && forall i :: 0 <= i < |texts| ==> values[i] == Text(texts[i])
  {
    seq(|texts|, i requires 0 <= i < |texts| => Text(texts[i]))
  }

  /** An object that has all pinned members; every variant also carries the property bound. */
  function ObjectWith(pins: seq<Pin>): Schema {
    AllOf([TypeObject, MaxProperties(MAXIMUM_PROPERTIES), Properties(PropertiesOf(pins)), Required(NamesOf(pins))])
  }

  function ProblemPins(row: ProblemRow): seq<Pin> {
    [
      Pin("code", Const(Text(row.code))),
      Pin("type", Const(Text(row.problemType))),
      Pin("status", Const(Integer(row.status))),
      Pin("retryable", Const(Flag(row.retryable))),
      Pin("sideEffectState", Enum(TextValues(row.states)))]
  }

  function ProblemVariant(row: ProblemRow): Schema {
    ObjectWith(ProblemPins(row))
  }

  function ErrorPins(error: RegisteredError): seq<Pin> {
    [Pin("code", Const(Text(error.code))), Pin("sideEffectState", Const(Text(error.state)))]
  }

  function ErrorVariant(error: RegisteredError): Schema {
    ObjectWith(ErrorPins(error))
  }

  predicate ErrorBefore(a: RegisteredError, b: RegisteredError) {
    TextBefore(a.code, b.code)
  }

  /** Tuples of strings compare component by component. */
  predicate EntryBefore(a: Entry, b: Entry) {
    TextBefore(a.port, b.port) || (a.port == b.port && TextBefore(a.operation, b.operation))
  }

  function ErrorVariants(errors: seq<RegisteredError>): (variants: seq<Schema>)
    ensures |variants| == |errors| && forall i :: 0 <= i < |errors| ==> variants[i] == ErrorVariant(errors[i])
  {
    seq(|errors|, i requires 0 <= i < |errors| => ErrorVariant(errors[i]))
  }

  function KeyPins(entry: Entry): seq<Pin> {
    [Pin("portId", Const(Text(entry.port))), Pin("operationId", Const(Text(entry.operation)))]
  }

  function OperationVariant(entry: Entry): Schema {
    AllOf([ObjectWith(KeyPins(entry)), AllOf([OneOf(ErrorVariants(SortBy(ErrorBefore, entry.errors)))])])
  }

  function ProblemVariants(rows: seq<ProblemRow>): (variants: seq<Schema>)
    ensures |variants| == |rows| && forall i :: 0 <= i < |rows| ==> variants[i] == ProblemVariant(rows[i])
  {
    seq(|rows|, i requires 0 <= i < |rows| => ProblemVariant(rows[i]))
  }

  function OperationVariants(entries: seq<Entry>): (variants: seq<Schema>)
    ensures |variants| == |entries| && forall i :: 0 <= i < |entries| ==> variants[i] == OperationVariant(entries[i])
  {
    seq(|entries|, i requires 0 <= i < |entries| => OperationVariant(entries[i]))
  }

  /** The discriminating part of the schema. */
  function Compiled(rows: seq<ProblemRow>, entries: seq<Entry>): Schema {
    AllOf([OneOf(ProblemVariants(rows)), OneOf(OperationVariants(SortBy(EntryBefore, entries)))])
  }

  // ---------- what single variants mean ----------

  predicate Has(document: Value, name: string, value: Value) {
    document.Record? && name in document.fields && document.fields[name] == value
  }

  ghost predicate MatchesRow(document: Value, row: ProblemRow) {
    && Has(document, "code", Text(row.code)) && Has(document, "type", Text(row.problemType))
    && Has(document, "status", Integer(row.status)) && Has(document, "retryable", Flag(row.retryable))
    && exists k :: 0 <= k < |row.states| && Has(document, "sideEffectState", Text(row.states[k]))
  }

  ghost predicate Small(document: Value) {
    document.Record? && |document.fields| <= 19
  }

  predicate MatchesError(document: Value, error: RegisteredError) {
    Has(document, "code", Text(error.code)) && Has(document, "sideEffectState", Text(error.state))
  }

  predicate MatchesKey(document: Value, entry: Entry) {
    Has(document, "portId", Text(entry.port)) && Has(document, "operationId", Text(entry.operation))
  }

  lemma PinNames(row: ProblemRow, error: RegisteredError, entry: Entry)
    ensures NoRepeats(NamesOf(ProblemPins(row))) && NoRepeats(NamesOf(ErrorPins(error)))
      && NoRepeats(NamesOf(KeyPins(entry)))
  {
    assert "code"[0] != "type"[0];
    assert |"code"| == 4 && |"type"| == 4 && |"status"| == 6 && |"retryable"| == 9 && |"sideEffectState"| == 15;
    assert |"portId"| == 6 && |"operationId"| == 11;
  }

  lemma ObjectWithMeans(pins: seq<Pin>, document: Value)
    requires NoRepeats(NamesOf(pins))
    ensures Accepts(ObjectWith(pins), document) <==>
      Small(document) && forall i :: 0 <= i < |pins| ==> Pinned(document, pins[i])
  {
    AllOfFour(
      TypeObject, MaxProperties(MAXIMUM_PROPERTIES), Properties(PropertiesOf(pins)), Required(NamesOf(pins)), document);
    if document.Record? {
      PinsMean(pins, document);
    }
    assert Accepts(TypeObject, document) <==> document.Record?;
    assert document.Record? ==> (Accepts(MaxProperties(MAXIMUM_PROPERTIES), document) <==> Small(document));
    hide Accepts, Pinned;
  }

  lemma ProblemVariantMeans(row: ProblemRow, document: Value)
    ensures Accepts(ProblemVariant(row), document) <==> Small(document) && MatchesRow(document, row)
  {
    PinNames(row, RegisteredError("", ""), Entry("", "", []));
    ObjectWithMeans(ProblemPins(row), document);
    hide Accepts, Pinned, Has, ObjectWith, Small;
    var pins := ProblemPins(row);
    assert pins[0] == Pin("code", Const(Text(row.code))) && pins[1] == Pin("type", Const(Text(row.problemType)));
    assert pins[2] == Pin("status", Const(Integer(row.status)))
      && pins[3] == Pin("retryable", Const(Flag(row.retryable)));
    assert pins[4] == Pin("sideEffectState", Enum(TextValues(row.states)));
  }

  lemma ErrorVariantMeans(error: RegisteredError, document: Value)
    ensures Accepts(ErrorVariant(error), document) <==> Small(document) && MatchesError(document, error)
  {
    PinNames(ProblemRow("", "", 0, false, [], 0), error, Entry("", "", []));
    ObjectWithMeans(ErrorPins(error), document);
    hide Accepts, Pinned, Has, ObjectWith, Small;
    var pins := ErrorPins(error);
    assert pins[0] == Pin("code", Const(Text(error.code)))
      && pins[1] == Pin("sideEffectState", Const(Text(error.state)));
  }

  lemma KeyMeans(entry: Entry, document: Value)
    ensures Accepts(ObjectWith(KeyPins(entry)), document) <==> Small(document) && MatchesKey(document, entry)
  {
    PinNames(ProblemRow("", "", 0, false, [], 0), RegisteredError("", ""), entry);
    ObjectWithMeans(KeyPins(entry), document);
    hide Accepts, Pinned, Has, ObjectWith, Small;
    var pins := KeyPins(entry);
    assert pins[0] == Pin("portId", Const(Text(entry.port)))
      && pins[1] == Pin("operationId", Const(Text(entry.operation)));
  }

  // ---------- what the lists of variants mean ----------

  /** Equal lists but for the order. */
  lemma SortedIsSame<T(!new)>(before: (T, T) -> bool, s: seq<T>)
    requires NoRepeats(s)
    ensures var t := SortBy(before, s);
      |t| == |s| && NoRepeats(t) && forall x :: x in s <==> x in t
  {
    SortedElements(before, s);
    PermutationOfDistinct(s, SortBy(before, s));
  }

  /** Registered codes of one operation are distinct, so at most one error variant matches. */
  lemma ErrorsMean(errors: seq<RegisteredError>, document: Value)
    requires NoRepeats(ErrorCodes(errors))
    ensures Accepts(OneOf(ErrorVariants(SortBy(ErrorBefore, errors))), document) <==>
      Small(document) && exists error :: error in errors && MatchesError(document, error)
  {
    assert NoRepeats(errors) by {
      assert forall i, j :: 0 <= i < j < |errors| ==> ErrorCodes(errors)[i] != ErrorCodes(errors)[j];
    }
    SortedIsSame(ErrorBefore, errors);
    var sorted := SortBy(ErrorBefore, errors);
    forall i, j | 0 <= i < j < |sorted|
      ensures sorted[i].code != sorted[j].code
    {
      assert sorted[i] in errors && sorted[j] in errors;
      var k :| 0 <= k < |errors| && errors[k] == sorted[i];
      var l :| 0 <= l < |errors| && errors[l] == sorted[j];
      assert ErrorCodes(errors)[k] == sorted[i].code && ErrorCodes(errors)[l] == sorted[j].code;
    }
    forall i | 0 <= i < |sorted|
      ensures Accepts(ErrorVariants(sorted)[i], document) <==> Small(document) && MatchesError(document, sorted[i])
    {
      ErrorVariantMeans(sorted[i], document);
    }
    hide Accepts, Small, SortBy;
    OneOfExclusive(ErrorVariants(sorted), document);
    assert forall error :: error in errors <==> error in sorted;
  }

  ghost predicate ErrorCodesDistinct(entries: seq<Entry>) {
    forall i :: 0 <= i < |entries| ==> NoRepeats(ErrorCodes(entries[i].errors))
  }

  ghost predicate MatchesEntry(document: Value, entry: Entry) {
    MatchesKey(document, entry) && exists error :: error in entry.errors && MatchesError(document, error)
  }

  lemma OperationVariantMeans(entry: Entry, document: Value)
    requires NoRepeats(ErrorCodes(entry.errors))
    ensures Accepts(OperationVariant(entry), document) <==> Small(document) && MatchesEntry(document, entry)
  {
    KeyMeans(entry, document);
    ErrorsMean(entry.errors, document);
    var errors := OneOf(ErrorVariants(SortBy(ErrorBefore, entry.errors)));
    assert Accepts(AllOf([errors]), document) <==> Accepts(errors, document) by {
      assert [errors][0] == errors;
    }
    AllOfTwo(ObjectWith(KeyPins(entry)), AllOf([errors]), document);
    hide Accepts, Small, MatchesKey, MatchesError;
  }

  /** Operation keys are distinct, so at most one operation variant matches. */
  lemma OperationsMean(entries: seq<Entry>, document: Value)
    requires NoRepeats(Keys(entries)) && ErrorCodesDistinct(entries)
    ensures Accepts(OneOf(OperationVariants(SortBy(EntryBefore, entries))), document) <==>
      Small(document) && exists entry :: entry in entries && MatchesEntry(document, entry)
  {
    assert NoRepeats(entries) by {
      assert forall i, j :: 0 <= i < j < |entries| ==> Keys(entries)[i] != Keys(entries)[j];
    }
    SortedIsSame(EntryBefore, entries);
    var sorted := SortBy(EntryBefore, entries);
    hide Accepts, Small, SortBy, MatchesError;
    forall i, j | 0 <= i < j < |sorted|
      ensures (sorted[i].port, sorted[i].operation) != (sorted[j].port, sorted[j].operation)
    {
      assert sorted[i] in entries && sorted[j] in entries;
      var k :| 0 <= k < |entries| && entries[k] == sorted[i];
      var l :| 0 <= l < |entries| && entries[l] == sorted[j];
      assert Keys(entries)[k] == (sorted[i].port, sorted[i].operation)
        && Keys(entries)[l] == (sorted[j].port, sorted[j].operation);
    }
    forall i | 0 <= i < |sorted|
      ensures Accepts(OperationVariants(sorted)[i], document) <==> Small(document) && MatchesEntry(document, sorted[i])
    {
      assert sorted[i] in entries;
      OperationVariantMeans(sorted[i], document);
    }
    OneOfExclusive(OperationVariants(sorted), document);
    assert forall entry :: entry in entries <==> entry in sorted;
  }

  /** Codes are distinct, so at most one problem variant matches. */
  lemma ProblemsMean(rows: seq<ProblemRow>, document: Value)
    requires NoRepeats(Codes(rows))
    ensures Accepts(OneOf(ProblemVariants(rows)), document) <==>
      Small(document) && exists row :: row in rows && MatchesRow(document, row)
  {
    hide Accepts, Small;
    forall i | 0 <= i < |rows|
      ensures Accepts(ProblemVariants(rows)[i], document) <==> Small(document) && MatchesRow(document, rows[i])
    {
      ProblemVariantMeans(rows[i], document);
    }
    forall i, j | 0 <= i < j < |rows|
      ensures !(MatchesRow(document, rows[i]) && MatchesRow(document, rows[j]))
    {
      assert Codes(rows)[i] != Codes(rows)[j];
    }
    OneOfExclusive(ProblemVariants(rows), document);
  }

  /** What the tables say about a document: its row and its registered operation report the same pair. */
  ghost predicate TablesAccept(rows: seq<ProblemRow>, entries: seq<Entry>, document: Value) {
    && Small(document)
    && (exists row :: row in rows && MatchesRow(document, row))
    && (exists entry :: entry in entries && MatchesEntry(document, entry))
  }

  /** The compiled schema accepts exactly what the checked tables accept. */
  lemma CompiledMeansTables(rows: seq<ProblemRow>, ports: seq<Port>, document: Value)
    requires TablesOk(rows, ports)
    ensures Accepts(Compiled(rows, Flatten(ports)), document) <==> TablesAccept(rows, Flatten(ports), document)
  {
    hide Accepts, Small, MatchesRow, MatchesEntry, Flatten, Covered;
    var entries := Flatten(ports);
    assert ErrorCodesDistinct(entries) by {
      assert forall i :: 0 <= i < |entries| ==> EntryOk(entries[i], rows);
    }
    ProblemsMean(rows, document);
    OperationsMean(entries, document);
    AllOfTwo(OneOf(ProblemVariants(rows)), OneOf(OperationVariants(SortBy(EntryBefore, entries))), document);
  }

  /** The document that reports one registered error. */
  function Report(row: ProblemRow, entry: Entry, error: RegisteredError): Value {
    Record(map[
      "code" := Text(row.code), "type" := Text(row.problemType), "status" := Integer(row.status),
      "retryable" := Flag(row.retryable), "sideEffectState" := Text(error.state), "portId" := Text(entry.port),
      "operationId" := Text(entry.operation)])
  }

  lemma ReportMembers(row: ProblemRow, entry: Entry, error: RegisteredError)
    ensures var d := Report(row, entry, error);
      && Small(d) && Has(d, "code", Text(row.code)) && Has(d, "type", Text(row.problemType))
      && Has(d, "status", Integer(row.status)) && Has(d, "retryable", Flag(row.retryable))
      && Has(d, "sideEffectState", Text(error.state)) && MatchesKey(d, entry)
  {
    assert "code"[0] != "type"[0] && "status"[0] != "portId"[0];
    assert |"code"| == 4 && |"type"| == 4 && |"status"| == 6 && |"retryable"| == 9 && |"sideEffectState"| == 15;
    assert |"portId"| == 6 && |"operationId"| == 11;
  }

  lemma ReportMatches(row: ProblemRow, entry: Entry, error: RegisteredError)
    requires row.code == error.code && error.state in row.states && error in entry.errors
    ensures Small(Report(row, entry, error))
    ensures MatchesRow(Report(row, entry, error), row) && MatchesEntry(Report(row, entry, error), entry)
  {
    hide Small, Has;
    ReportMembers(row, entry, error);
    hide Report;
    var s :| 0 <= s < |row.states| && row.states[s] == error.state;
    assert MatchesError(Report(row, entry, error), error);
  }

  lemma RegisteredIsPermitted(rows: seq<ProblemRow>, ports: seq<Port>, entry: Entry, error: RegisteredError)
    requires PortsOk(ports, rows) && entry in Flatten(ports) && error in entry.errors
    ensures Permitted(rows, error)
  {
    hide Flatten, IsOperationId, Permitted;
    var e :| 0 <= e < |Flatten(ports)| && Flatten(ports)[e] == entry;
    assert EntryOk(Flatten(ports)[e], rows);
    var k :| 0 <= k < |entry.errors| && entry.errors[k] == error;
    assert Permitted(rows, entry.errors[k]);
  }

  lemma PermittingRow(rows: seq<ProblemRow>, ports: seq<Port>, entry: Entry, error: RegisteredError)
    requires TablesOk(rows, ports) && entry in Flatten(ports) && error in entry.errors
    ensures exists row :: row in rows && row.code == error.code && error.state in row.states
  {
    hide CatalogOk, PortsOk, Covered, Flatten;
    RegisteredIsPermitted(rows, ports, entry, error);
    var i :| 0 <= i < |rows| && rows[i].code == error.code && error.state in rows[i].states;
    assert rows[i] in rows;
  }

  ghost predicate Reportable(rows: seq<ProblemRow>, entries: seq<Entry>, entry: Entry, error: RegisteredError) {
    exists row :: (row in rows && row.code == error.code && Accepts(Compiled(rows, entries), Report(row, entry, error)))
  }

  /** Every registered pair of every operation has a document that the compiled schema accepts. */
  lemma RegisteredIsReportable(rows: seq<ProblemRow>, ports: seq<Port>, entry: Entry, error: RegisteredError)
    requires TablesOk(rows, ports) && entry in Flatten(ports) && error in entry.errors
    ensures Reportable(rows, Flatten(ports), entry, error)
  {
    hide Accepts, Small, Flatten, TablesOk, Has, MatchesRow, MatchesEntry, Report, Compiled;
    PermittingRow(rows, ports, entry, error);
    var row :| row in rows && row.code == error.code && error.state in row.states;
    ReportMatches(row, entry, error);
    CompiledMeansTables(rows, ports, Report(row, entry, error));
  }

  /** Every state a catalog row permits is reported by some accepted document: no row is dead. */
  lemma PermittedIsReportable(rows: seq<ProblemRow>, ports: seq<Port>, i: nat, state: string)
    requires TablesOk(rows, ports) && i < |rows| && state in rows[i].states
    ensures exists entry ::
      entry in Flatten(ports) && Reportable(rows, Flatten(ports), entry, RegisteredError(rows[i].code, state))
  {
    hide Accepts, Flatten, CatalogOk, PortsOk;
    var error := RegisteredError(rows[i].code, state);
    assert Referenced(Flatten(ports), error);
    var e :| 0 <= e < |Flatten(ports)| && error in Flatten(ports)[e].errors;
    RegisteredIsReportable(rows, ports, Flatten(ports)[e], error);
  }

  // ---------- building ----------

  /** The catalog loop. */
  method BuildCatalog(rows: seq<ProblemRow>) returns (r: Result<map<string, ProblemRow>, TableError>)
    ensures r.Ok? <==> CatalogOk(rows)
    ensures r.Ok? ==> Indexes(r.value, rows)
  {
    hide RowOk, SortBy;
    var problems: map<string, ProblemRow> := map[];
    var codes: seq<string> := [];
    var n := 0;
    while n < |rows|
      invariant 0 <= n <= |rows|
      invariant forall i :: 0 <= i < n ==> RowOk(rows[i])
      invariant codes == Codes(rows[..n]) && NoRepeats(codes) && Indexes(problems, rows[..n])
    {
      if !RowOk(rows[n]) {
        return Err(BadRow);
      }
      if rows[n].code in problems {
        return Err(DuplicateCode);
      }
      problems := problems[rows[n].code := rows[n]];
      codes := codes + [rows[n].code];
      n := n + 1;
    }
    assert rows[..n] == rows;
    if codes != SortBy(TextBefore, codes) {
      return Err(UnsortedCatalog);
    }
    return Ok(problems);
  }

  ghost predicate Indexes(problems: map<string, ProblemRow>, rows: seq<ProblemRow>) {
    && (forall i :: 0 <= i < |rows| ==> rows[i].code in problems && problems[rows[i].code] == rows[i])
    && (forall code :: code in problems ==> problems[code] in rows && problems[code].code == code)
  }

  function StatesOf(referenced: map<string, set<string>>, code: string): set<string> {
    if code in referenced then referenced[code] else {}
  }

  /** The table of referenced states holds exactly the pairs of the given entries. */
  ghost predicate Registers(referenced: map<string, set<string>>, entries: seq<Entry>) {
    forall error: RegisteredError :: error.state in StatesOf(referenced, error.code) <==> Referenced(entries, error)
  }

  /** A table of states with one operation's errors entered. */
  ghost predicate Adds(
    referenced: map<string, set<string>>, before: map<string, set<string>>, errors: seq<RegisteredError>)
  {
    forall error: RegisteredError ::
      error.state in StatesOf(referenced, error.code) <==>
        error.state in StatesOf(before, error.code) || error in errors
  }

  /** The errors of one operation. */
  method CheckErrors(
    errors: seq<RegisteredError>, problems: map<string, ProblemRow>, referenced0: map<string, set<string>>,
    ghost rows: seq<ProblemRow>)
    returns (r: Result<map<string, set<string>>, TableError>)
    requires Indexes(problems, rows)
    ensures r.Ok? <==> ErrorsOk(errors, rows)
    ensures r.Ok? ==> Adds(r.value, referenced0, errors)
  {
    if errors == [] {
      return Err(BadError);
    }
    hide Indexes, Permitted;
    var referenced := referenced0;
    var operationCodes: set<string> := {};
    var k := 0;
    assert ErrorCodes(errors)[..0] == [];
    while k < |errors|
      invariant 0 <= k <= |errors|
      invariant Gathers(operationCodes, ErrorCodes(errors)[..k]) && NoRepeats(ErrorCodes(errors)[..k])
      invariant forall i :: 0 <= i < k ==> errors[i].state in STATE_ORDER && Permitted(rows, errors[i])
      invariant Adds(referenced, referenced0, errors[..k])
    {
      var error := errors[k];
      ScanOneMore(operationCodes, ErrorCodes(errors), k);
      if error.code !in problems {
        return Err(BadError);
      }
      if error.code in operationCodes {
        return Err(BadError);
      }
      if error.state !in STATE_ORDER {
        return Err(BadError);
      }
      if error.state !in problems[error.code].states {
        return Err(BadError);
      }
      operationCodes := operationCodes + {error.code};
      referenced := referenced[error.code := StatesOf(referenced, error.code) + {error.state}];
      assert errors[..k + 1] == errors[..k] + [error];
      k := k + 1;
    }
    assert errors[..k] == errors && ErrorCodes(errors)[..k] == ErrorCodes(errors);
    return Ok(referenced);
  }

  datatype Registry = Registry(
    entries: seq<Entry>, keys: set<(string, string)>, referenced: map<string, set<string>>)

  ghost predicate Consistent(registry: Registry, rows: seq<ProblemRow>) {
    && Sound(registry.entries, rows) && Gathers(registry.keys, Keys(registry.entries))
    && Registers(registry.referenced, registry.entries)
  }

  lemma SoundPrefix(part: seq<Entry>, whole: seq<Entry>, rows: seq<ProblemRow>)
    requires part <= whole && Sound(whole, rows)
    ensures Sound(part, rows)
  {
    hide EntryOk;
    assert forall i :: 0 <= i < |part| ==> Keys(part)[i] == Keys(whole)[i] && part[i] == whole[i];
  }

  /** Entering one more operation into a consistent registry. */
  lemma EntryOneMore(registry: Registry, rows: seq<ProblemRow>, entry: Entry, referenced: map<string, set<string>>)
    requires Consistent(registry, rows)
    ensures (entry.port, entry.operation) in registry.keys || !EntryOk(entry, rows) ==>
      !Sound(registry.entries + [entry], rows)
    ensures (entry.port, entry.operation) !in registry.keys && EntryOk(entry, rows) ==>
      Adds(referenced, registry.referenced, entry.errors) ==>
      Consistent(Registry(registry.entries + [entry], registry.keys + {(entry.port, entry.operation)}, referenced),
        rows)
  {
    hide EntryOk, StatesOf;
    var all := registry.entries + [entry];
    var n := |registry.entries|;
    assert Keys(all) == Keys(registry.entries) + [(entry.port, entry.operation)];
    assert all[n] == entry;
    ScanOneMore(registry.keys, Keys(all), n);
    forall error
      ensures Referenced(all, error) <==> Referenced(registry.entries, error) || error in entry.errors
    {
      if i :| 0 <= i < n && error in registry.entries[i].errors {
        assert error in all[i].errors;
      }
      if i :| 0 <= i < |all| && error in all[i].errors && i != n {
        assert error in registry.entries[i].errors;
      }
    }
    hide Referenced;
  }

  /** The operations of one port. */
  method CheckOperations(
    port: Port, problems: map<string, ProblemRow>, registry0: Registry, ghost rows: seq<ProblemRow>)
    returns (r: Result<Registry, TableError>)
    requires Indexes(problems, rows) && Consistent(registry0, rows)
    ensures r.Ok? <==> Sound(registry0.entries + EntriesOf(port.portId, port.operations), rows)
    ensures r.Ok? ==>
      Consistent(r.value, rows) && r.value.entries == registry0.entries + EntriesOf(port.portId, port.operations)
  {
    hide Indexes, Consistent, Sound, ErrorsOk, IsOperationId;
    ghost var all := registry0.entries + EntriesOf(port.portId, port.operations);
    var registry := registry0;
    var k := 0;
    while k < |port.operations|
      invariant 0 <= k <= |port.operations|
      invariant Consistent(registry, rows) && registry.entries == all[..|registry0.entries| + k]
    {
      var operation := port.operations[k];
      var entry := Entry(port.portId, operation.operationId, operation.errors);
      assert registry.entries + [entry] == all[..|registry0.entries| + k + 1];
      if Sound(all, rows) {
        SoundPrefix(registry.entries + [entry], all, rows);
      }
      if !IsOperationId(operation.operationId) || (port.portId, operation.operationId) in registry.keys {
        EntryOneMore(registry, rows, entry, map[]);
        return Err(BadOperation);
      }
      var referenced := CheckErrors(operation.errors, problems, registry.referenced, rows);
      if referenced.Err? {
        EntryOneMore(registry, rows, entry, map[]);
        return Err(referenced.error);
      }
      EntryOneMore(registry, rows, entry, referenced.value);
      registry := Registry(
        registry.entries + [entry], registry.keys + {(port.portId, operation.operationId)}, referenced.value);
      k := k + 1;
    }
    assert all[..|registry0.entries| + k] == all;
    ConsistentIsSound(registry, rows);
    return Ok(registry);
  }

  lemma ConsistentIsSound(registry: Registry, rows: seq<ProblemRow>)
    requires Consistent(registry, rows)
    ensures Sound(registry.entries, rows)
  {
  }

  lemma {:induction false} FlattenPrefix(ports: seq<Port>, n: nat)
    requires n <= |ports|
    ensures Flatten(ports[..n]) <= Flatten(ports)
    decreases |ports|
  {
    if n < |ports| {
      var front := ports[..|ports| - 1];
      FlattenPrefix(front, n);
      assert front[..n] == ports[..n];
    } else {
      assert ports[..n] == ports;
    }
  }

  lemma NothingRegistered(rows: seq<ProblemRow>)
    ensures Consistent(Registry([], {}, map[]), rows)
  {
  }

  /** The registry loop. */
  method BuildRegistry(ports: seq<Port>, problems: map<string, ProblemRow>, ghost rows: seq<ProblemRow>)
    returns (r: Result<Registry, TableError>)
    requires Indexes(problems, rows)
    ensures r.Ok? <==> PortsOk(ports, rows)
    ensures r.Ok? ==> Consistent(r.value, rows) && r.value.entries == Flatten(ports)
  {
    hide Indexes, Consistent, Sound;
    if ports == [] {
      return Err(EmptyRegistry);
    }
    var registry := Registry([], {}, map[]);
    NothingRegistered(rows);
    var portIds: set<string> := {};
    var n := 0;
    assert PortIds(ports)[..0] == [] && ports[..0] == [];
    while n < |ports|
      invariant 0 <= n <= |ports|
      invariant Gathers(portIds, PortIds(ports)[..n]) && NoRepeats(PortIds(ports)[..n])
      invariant forall i :: 0 <= i < n ==> ports[i].portId != "" && ports[i].operations != []
      invariant Consistent(registry, rows) && registry.entries == Flatten(ports[..n])
    {
      var port := ports[n];
      ScanOneMore(portIds, PortIds(ports), n);
      if port.portId == "" || port.portId in portIds || port.operations == [] {
        return Err(BadPort);
      }
      portIds := portIds + {port.portId};
      assert ports[..n + 1][..n] == ports[..n];
      assert Flatten(ports[..n + 1]) == Flatten(ports[..n]) + EntriesOf(port.portId, port.operations);
      if Sound(Flatten(ports), rows) {
        FlattenPrefix(ports, n + 1);
        SoundPrefix(Flatten(ports[..n + 1]), Flatten(ports), rows);
      }
      var next := CheckOperations(port, problems, registry, rows);
      if next.Err? {
        return next;
      }
      registry := next.value;
      n := n + 1;
    }
    assert ports[..n] == ports && PortIds(ports)[..n] == PortIds(ports);
    ConsistentIsSound(registry, rows);
    return Ok(registry);
  }

  /** The comparison of the catalog with the states that operations reference. */
  method CheckCoverage(rows: seq<ProblemRow>, registry: Registry) returns (ok: bool)
    requires Registers(registry.referenced, registry.entries)
    ensures ok <==> Covered(rows, registry.entries)
  {
    hide Referenced;
    var n := 0;
    while n < |rows|
      invariant 0 <= n <= |rows|
      invariant forall i, state :: 0 <= i < n ==>
        (state in rows[i].states <==> Referenced(registry.entries, RegisteredError(rows[i].code, state)))
    {
      var states := set state | state in rows[n].states;
      var found := StatesOf(registry.referenced, rows[n].code);
      forall state
        ensures state in found <==> Referenced(registry.entries, RegisteredError(rows[n].code, state))
      {
        var error := RegisteredError(rows[n].code, state);
        assert error.state in StatesOf(registry.referenced, error.code) <==> Referenced(registry.entries, error);
      }
      if states != found {
        var state :| state in states - found || state in found - states;
        assert state in rows[n].states <==> state in states;
        return false;
      }
      assert forall state :: state in rows[n].states <==> state in states;
      n := n + 1;
    }
    return true;
  }

  /** `build_problem_details_schema`, as far as it decides codes, operations and states. */
  method BuildProblemSchema(rows: seq<ProblemRow>, ports: seq<Port>) returns (r: Result<Schema, TableError>)
    ensures r.Ok? <==> TablesOk(rows, ports)
    ensures r.Ok? ==> forall document :: Accepts(r.value, document) <==> TablesAccept(rows, Flatten(ports), document)
    ensures r.Ok? ==> r.value == Compiled(rows, Flatten(ports))
  {
    hide Accepts, TablesAccept, Flatten, CatalogOk, PortsOk, Indexes, Covered, Sound, Registers;
    var problems := BuildCatalog(rows);
    if problems.Err? {
      return Err(problems.error);
    }
    var registry := BuildRegistry(ports, problems.value, rows);
    if registry.Err? {
      return Err(registry.error);
    }
    var covered := CheckCoverage(rows, registry.value);
    if !covered {
      return Err(CoverageDrift);
    }
    forall document
      ensures Accepts(Compiled(rows, Flatten(ports)), document) <==> TablesAccept(rows, Flatten(ports), document)
    {
      CompiledMeansTables(rows, ports, document);
    }
    return Ok(Compiled(rows, registry.value.entries));
  }
}
