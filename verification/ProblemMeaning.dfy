/** The problem catalog and the operation registry, said member by member. */
module ProblemMeaning {
  import opened Foundation
  import opened JsonSchema
  import opened Ordering
  import opened ProblemSchema

  /** Python's order of strings: a shorter beginning, or a smaller code point at the first difference. */
  ghost predicate Rises(a: string, b: string) {
    a < b || exists i: nat :: i < |a| && i < |b| && a[..i] == b[..i] && a[i] < b[i]
  }

  lemma TextMeans(a: string, b: string)
    ensures TextBefore(a, b) <==> Rises(a, b)
  {
    LexMeans(CharBefore, a, b);
    hide LexBefore;
    forall i: nat
      ensures DiffersAt(CharBefore, a, b, i) <==> i < |a| && i < |b| && a[..i] == b[..i] && a[i] < b[i]
    {
    }
  }

  lemma TextOrder()
    ensures IsOrder(TextBefore) && forall a, b :: a != b ==> TextBefore(a, b) || TextBefore(b, a)
  {
    hide LexBefore;
    forall a, b, c
      ensures !TextBefore(a, b) && !TextBefore(b, c) ==> !TextBefore(a, c)
      ensures TextBefore(a, b) ==> !TextBefore(b, a)
      ensures !TextBefore(a, b) && !TextBefore(b, a) ==> a == b
    {
      LexIsTotal(CharBefore, a, b, c);
    }
  }

  // ---------- the catalog ----------

  /** The catalog is accepted exactly when every row stands and the codes rise. */
  lemma CatalogMeans(rows: seq<ProblemRow>)
    ensures CatalogOk(rows) <==>
      && (forall i :: 0 <= i < |rows| ==> RowStands(rows[i]))
      && forall i, j :: 0 <= i < j < |rows| ==> Rises(rows[i].code, rows[j].code)
  {
    hide RowOk, RowStands, SortBy, TextBefore, IsOrder, Rises;
    TextOrder();
    var codes := Codes(rows);
    forall i | 0 <= i < |rows|
      ensures RowOk(rows[i]) <==> RowStands(rows[i])
    {
      RowMeans(rows[i]);
    }
    forall i, j | 0 <= i < j < |rows|
      ensures TextBefore(codes[i], codes[j]) <==> Rises(rows[i].code, rows[j].code)
    {
      TextMeans(codes[i], codes[j]);
    }
    if CatalogOk(rows) {
      SortRises(TextBefore, codes);
    }
    if forall i, j :: 0 <= i < j < |rows| ==> Rises(rows[i].code, rows[j].code) {
      RisingIsSorted(TextBefore, codes);
    }
  }

  // ---------- the registry ----------

  /** A catalogued code in a state its row permits. */
  ghost predicate ErrorStands(error: RegisteredError, rows: seq<ProblemRow>) {
    && error.state in ["none", "not-committed", "committed-unchanged", "commit-unknown"]
    && exists i :: 0 <= i < |rows| && rows[i].code == error.code && error.state in rows[i].states
  }

  ghost predicate ErrorsStand(errors: seq<RegisteredError>, rows: seq<ProblemRow>) {
    && errors != []
    && (forall i, j :: 0 <= i < j < |errors| ==> errors[i].code != errors[j].code)
    && forall k :: 0 <= k < |errors| ==> ErrorStands(errors[k], rows)
  }

  ghost predicate IdsDiffer(port: Port) {
    forall i, j :: 0 <= i < j < |port.operations| ==> port.operations[i].operationId != port.operations[j].operationId
  }

  ghost predicate OperationStands(operation: Operation, rows: seq<ProblemRow>) {
    && operation.operationId != "" && 'a' <= operation.operationId[0] <= 'z'
    && (forall k :: 0 <= k < |operation.operationId| ==>
          || 'a' <= operation.operationId[k] <= 'z' || '0' <= operation.operationId[k] <= '9'
          || operation.operationId[k] == '-')
    && ErrorsStand(operation.errors, rows)
  }

  ghost predicate RegistryStands(ports: seq<Port>, rows: seq<ProblemRow>) {
    && ports != []
    && (forall i, j :: 0 <= i < j < |ports| ==> ports[i].portId != ports[j].portId)
    && forall port :: port in ports ==>
         && port.portId != "" && port.operations != [] && IdsDiffer(port)
         && forall operation :: operation in port.operations ==> OperationStands(operation, rows)
  }

  lemma ErrorsMean(errors: seq<RegisteredError>, rows: seq<ProblemRow>)
    ensures ErrorsOk(errors, rows) <==> ErrorsStand(errors, rows)
  {
    CodesDiffer(errors);
    hide NoRepeats, Permitted;
    if ErrorsOk(errors, rows) {
      forall k | 0 <= k < |errors|
        ensures ErrorStands(errors[k], rows)
      {
        PermittedMeans(errors[k], rows);
      }
    }
    if ErrorsStand(errors, rows) {
      forall k | 0 <= k < |errors|
        ensures errors[k].state in STATE_ORDER && Permitted(rows, errors[k])
      {
        PermittedMeans(errors[k], rows);
      }
    }
  }

  lemma CodesDiffer(errors: seq<RegisteredError>)
    ensures NoRepeats(ErrorCodes(errors)) <==>
      forall i, j :: 0 <= i < j < |errors| ==> errors[i].code != errors[j].code
  {
    forall i, j | 0 <= i < j < |errors|
      ensures ErrorCodes(errors)[i] != ErrorCodes(errors)[j] <==> errors[i].code != errors[j].code
    {
    }
  }

  lemma PermittedMeans(error: RegisteredError, rows: seq<ProblemRow>)
    ensures error.state in STATE_ORDER && Permitted(rows, error) <==> ErrorStands(error, rows)
  {
  }

  /** With distinct ports the keys are distinct exactly when the operations of each port are. */
  lemma {:induction false} KeysDiffer(ports: seq<Port>)
    requires NoRepeats(PortIds(ports))
    ensures NoRepeats(Keys(Flatten(ports))) <==> forall port :: port in ports ==> IdsDiffer(port)
    decreases |ports|
  {
    if ports != [] {
      var front, last := ports[..|ports| - 1], ports[|ports| - 1];
      assert ports == front + [last];
      assert forall i :: 0 <= i < |front| ==> PortIds(front)[i] == PortIds(ports)[i];
      KeysDiffer(front);
      var before, own := Flatten(front), EntriesOf(last.portId, last.operations);
      forall i | 0 <= i < |before|
        ensures before[i].port != last.portId
      {
        OtherPort(ports, before[i]);
      }
      hide Flatten;
      KeysJoin(before, own);
      assert NoRepeats(Keys(own)) <==> IdsDiffer(last);
    }
  }

  /** An entry of the earlier ports is none of the last one. */
  lemma OtherPort(ports: seq<Port>, entry: Entry)
    requires ports != [] && NoRepeats(PortIds(ports)) && entry in Flatten(ports[..|ports| - 1])
    ensures entry.port != ports[|ports| - 1].portId
  {
    var front := ports[..|ports| - 1];
    FlattenMeans(front, entry);
    var port, operation :| port in front && operation in port.operations
      && entry == Entry(port.portId, operation.operationId, operation.errors);
    var i :| 0 <= i < |front| && front[i] == port;
    assert PortIds(ports)[i] != PortIds(ports)[|ports| - 1];
  }

  lemma KeysJoin(before: seq<Entry>, own: seq<Entry>)
    requires forall i, j :: 0 <= i < |before| && 0 <= j < |own| ==> before[i].port != own[j].port
    ensures NoRepeats(Keys(before + own)) <==> NoRepeats(Keys(before)) && NoRepeats(Keys(own))
  {
    var keys := Keys(before + own);
    assert forall i :: 0 <= i < |before| ==> keys[i] == Keys(before)[i];
    assert forall j :: 0 <= j < |own| ==> keys[|before| + j] == Keys(own)[j];
    if NoRepeats(Keys(before)) && NoRepeats(Keys(own)) {
      forall i, j | 0 <= i < j < |keys|
        ensures keys[i] != keys[j]
      {
        if i >= |before| {
          assert Keys(own)[i - |before|] != Keys(own)[j - |before|];
        }
      }
    }
    if NoRepeats(keys) {
      forall i, j | 0 <= i < j < |own|
        ensures Keys(own)[i] != Keys(own)[j]
      {
        assert keys[|before| + i] != keys[|before| + j];
      }
    }
  }

  /** The registry is accepted exactly when each port, operation and error stands. */
  lemma RegistryMeans(ports: seq<Port>, rows: seq<ProblemRow>)
    ensures PortsOk(ports, rows) <==> RegistryStands(ports, rows)
  {
    hide Flatten, ErrorsOk, ErrorsStand, IdsDiffer;
    var ids := PortIds(ports);
    assert NoRepeats(ids) <==> forall i, j :: 0 <= i < j < |ports| ==> ports[i].portId != ports[j].portId;
    if NoRepeats(ids) {
      KeysDiffer(ports);
    }
    hide NoRepeats;
    if PortsOk(ports, rows) {
      forall port, operation | port in ports && operation in port.operations
        ensures OperationStands(operation, rows)
      {
        var entry := Entry(port.portId, operation.operationId, operation.errors);
        FlattenMeans(ports, entry);
        var i :| 0 <= i < |Flatten(ports)| && Flatten(ports)[i] == entry;
        ErrorsMean(operation.errors, rows);
      }
    }
    if RegistryStands(ports, rows) {
      forall i | 0 <= i < |Flatten(ports)|
        ensures EntryOk(Flatten(ports)[i], rows)
      {
        var entry := Flatten(ports)[i];
        FlattenMeans(ports, entry);
        var port, operation :| port in ports && operation in port.operations
          && entry == Entry(port.portId, operation.operationId, operation.errors);
        ErrorsMean(operation.errors, rows);
      }
    }
  }

  /** Some operation of some port reports this pair. */
  ghost predicate Reports(ports: seq<Port>, error: RegisteredError) {
    exists port, operation :: port in ports && operation in port.operations && error in operation.errors
  }

  lemma ReferencedMeans(ports: seq<Port>, error: RegisteredError)
    ensures Referenced(Flatten(ports), error) <==> Reports(ports, error)
  {
    hide Flatten;
    var entries := Flatten(ports);
    if Referenced(entries, error) {
      var i :| 0 <= i < |entries| && error in entries[i].errors;
      FlattenMeans(ports, entries[i]);
    }
    if port, operation :| port in ports && operation in port.operations && error in operation.errors {
      var entry := Entry(port.portId, operation.operationId, operation.errors);
      FlattenMeans(ports, entry);
      var i :| 0 <= i < |entries| && entries[i] == entry;
    }
  }

  /** The generator accepts exactly these tables. */
  lemma TablesMean(rows: seq<ProblemRow>, ports: seq<Port>)
    ensures TablesOk(rows, ports) <==>
      && (forall i :: 0 <= i < |rows| ==> RowStands(rows[i]))
      && (forall i, j :: 0 <= i < j < |rows| ==> Rises(rows[i].code, rows[j].code))
      && RegistryStands(ports, rows)
      && forall i, state :: 0 <= i < |rows| ==>
           (state in rows[i].states <==> Reports(ports, RegisteredError(rows[i].code, state)))
  {
    hide CatalogOk, RowStands, Rises, PortsOk, RegistryStands, Referenced, Reports, Flatten;
    CatalogMeans(rows);
    RegistryMeans(ports, rows);
    forall i, state | 0 <= i < |rows|
      ensures Referenced(Flatten(ports), RegisteredError(rows[i].code, state)) <==>
        Reports(ports, RegisteredError(rows[i].code, state))
    {
      ReferencedMeans(ports, RegisteredError(rows[i].code, state));
    }
  }

  // ---------- the order of the variants ----------

  /** Operation variants come by port, then by operation. */
  ghost predicate KeyRises(a: Entry, b: Entry) {
    Rises(a.port, b.port) || (a.port == b.port && Rises(a.operation, b.operation))
  }

  ghost predicate SameElements<T>(a: seq<T>, b: seq<T>) {
    multiset(a) == multiset(b)
  }

  /** The schema lists a variant for each row and one for each entry, whatever the order of the registry. */
  ghost predicate VariantsRise(rows: seq<ProblemRow>, entries: seq<Entry>, sorted: seq<Entry>) {
    && Compiled(rows, entries) == AllOf([OneOf(ProblemVariants(rows)), OneOf(OperationVariants(sorted))])
    && SameElements(sorted, entries)
    && forall i, j :: 0 <= i < j < |sorted| ==> KeyRises(sorted[i], sorted[j])
  }

  ghost predicate ErrorsRise(entry: Entry, sorted: seq<RegisteredError>) {
    && OperationVariant(entry) == AllOf([ObjectWith(KeyPins(entry)), AllOf([OneOf(ErrorVariants(sorted))])])
    && SameElements(sorted, entry.errors)
    && forall i, j :: 0 <= i < j < |sorted| ==> Rises(sorted[i].code, sorted[j].code)
  }

  lemma EntryOrder()
    ensures IsOrder(EntryBefore) && IsOrder(ErrorBefore)
  {
    hide TextBefore;
    TextOrder();
  }

  lemma CompiledRises(rows: seq<ProblemRow>, entries: seq<Entry>)
    requires NoRepeats(Keys(entries))
    ensures exists sorted :: VariantsRise(rows, entries, sorted)
  {
    hide TextBefore, IsOrder, Rises, SortBy;
    TextOrder();
    EntryOrder();
    forall i, j | 0 <= i < j < |entries|
      ensures entries[i].port != entries[j].port || entries[i].operation != entries[j].operation
    {
      assert Keys(entries)[i] != Keys(entries)[j];
    }
    SortRises(EntryBefore, entries);
    var sorted := SortBy(EntryBefore, entries);
    forall i, j | 0 <= i < j < |sorted|
      ensures KeyRises(sorted[i], sorted[j])
    {
      TextMeans(sorted[i].port, sorted[j].port);
      TextMeans(sorted[i].operation, sorted[j].operation);
    }
    assert VariantsRise(rows, entries, sorted);
  }

  lemma ErrorVariantsRise(entry: Entry)
    requires NoRepeats(ErrorCodes(entry.errors))
    ensures exists sorted :: ErrorsRise(entry, sorted)
  {
    hide TextBefore, IsOrder, Rises, SortBy;
    TextOrder();
    EntryOrder();
    forall i, j | 0 <= i < j < |entry.errors|
      ensures entry.errors[i].code != entry.errors[j].code
    {
      assert ErrorCodes(entry.errors)[i] != ErrorCodes(entry.errors)[j];
    }
    SortRises(ErrorBefore, entry.errors);
    var sorted := SortBy(ErrorBefore, entry.errors);
    forall i, j | 0 <= i < j < |sorted|
      ensures Rises(sorted[i].code, sorted[j].code)
    {
      TextMeans(sorted[i].code, sorted[j].code);
    }
    assert ErrorsRise(entry, sorted);
  }
}
