/**
 The lifecycle contract checker of internal/lifecycle/model.go: closure checks over maps built while
 scanning, breadth-first reachability, and resolution of a requested transition. The two regular
 expressions for names are parameters.
 */
module Lifecycle {
  import opened Foundation

  /** A required boolean is None when the document omits it. */
  datatype State = State(name: string, terminal: Option<bool>)

  datatype Transition = Transition(
    name: string, from: seq<string>, to: string, actor: string, guard: string, cas: string,
    effects: seq<string>, event: string, retryable: Option<bool>)

  datatype Model = Model(
    schema: string, profile: string, version: int, initialStates: seq<string>, states: seq<State>,
    transitions: seq<Transition>)

  datatype Patterns = Patterns(contractName: string -> bool, identifier: string -> bool)

  datatype ModelError =
    | BadEnvelope | EmptySection | BadState | DuplicateState | BadInitial | BadTransition | DuplicateTransition
    | UnknownTarget | BadSource | BadEffect | DeadEnd | Unreachable

  const SCHEMA := "https://schemas.bytedesk.ai/agent-delivery/v1/transition-model/1.0.0"

  // ---------- what an accepted model satisfies ----------

  function Names(states: seq<State>): (names: seq<string>)
    ensures |names| == |states| && forall i :: 0 <= i < |states| ==> names[i] == states[i].name
  {
    seq(|states|, i requires 0 <= i < |states| => states[i].name)
  }

  function TransitionNames(transitions: seq<Transition>): (names: seq<string>)
    ensures |names| == |transitions| && forall i :: 0 <= i < |transitions| ==> names[i] == transitions[i].name
  {
    seq(|transitions|, i requires 0 <= i < |transitions| => transitions[i].name)
  }

  ghost predicate IsState(states: seq<State>, name: string) {
    exists i :: 0 <= i < |states| && states[i].name == name
  }

  ghost predicate IsTerminal(states: seq<State>, name: string) {
    exists i :: 0 <= i < |states| && states[i].name == name && states[i].terminal == Some(true)
  }

  predicate EnvelopeOk(m: Model, p: Patterns) {
    && m.schema == "https://schemas.bytedesk.ai/agent-delivery/v1/transition-model/1.0.0"
    && |m.profile| <= 128 && p.contractName(m.profile) && m.version == 1
    && m.initialStates != [] && m.states != [] && m.transitions != []
  }

  ghost predicate StatesOk(states: seq<State>, p: Patterns) {
    && NoRepeats(Names(states))
    && forall i :: 0 <= i < |states| ==> states[i].terminal.Some? && p.identifier(states[i].name)
  }

  ghost predicate InitialOk(initial: seq<string>, states: seq<State>) {
    NoRepeats(initial) && forall i :: 0 <= i < |initial| ==> IsState(states, initial[i])
  }

  predicate FieldsOk(t: Transition, p: Patterns) {
    && t.retryable.Some? && p.identifier(t.name) && p.identifier(t.to) && p.identifier(t.actor) && p.identifier(t.cas)
    && 0 < |t.guard| <= 1024 && 0 < |t.event| <= 256
  }

  ghost predicate SourcesOk(from: seq<string>, states: seq<State>, p: Patterns) {
    && NoRepeats(from)
    && forall i :: 0 <= i < |from| ==>
         p.identifier(from[i]) && IsState(states, from[i]) && !IsTerminal(states, from[i])
  }

  ghost predicate EffectsOk(effects: seq<string>) {
    NoRepeats(effects) && forall i :: 0 <= i < |effects| ==> 0 < |effects[i]| <= 512
  }

  ghost predicate TransitionOk(t: Transition, states: seq<State>, p: Patterns) {
    && FieldsOk(t, p) && IsState(states, t.to) && t.from != [] && t.effects != []
    && SourcesOk(t.from, states, p) && EffectsOk(t.effects)
  }

  ghost predicate TransitionsOk(transitions: seq<Transition>, states: seq<State>, p: Patterns) {
    && NoRepeats(TransitionNames(transitions))
    && forall i :: 0 <= i < |transitions| ==> TransitionOk(transitions[i], states, p)
  }

  /** Some declared transition leads from `a` to `b`. */
  ghost predicate Edge(transitions: seq<Transition>, a: string, b: string) {
    exists i :: 0 <= i < |transitions| && a in transitions[i].from && transitions[i].to == b
  }

  ghost predicate HasExit(transitions: seq<Transition>, a: string) {
    exists i :: 0 <= i < |transitions| && a in transitions[i].from
  }

  /** A run: it starts in an initial state and takes declared transitions. */
  ghost predicate Run(m: Model, path: seq<string>) {
    && path != [] && path[0] in m.initialStates
    && forall k :: 0 < k < |path| ==> Edge(m.transitions, path[k - 1], path[k])
  }

  ghost predicate Reachable(m: Model, name: string) {
    exists path :: Run(m, path) && path[|path| - 1] == name
  }

  ghost predicate Closed(m: Model, p: Patterns) {
    && EnvelopeOk(m, p) && StatesOk(m.states, p) && InitialOk(m.initialStates, m.states)
    && TransitionsOk(m.transitions, m.states, p)
    && forall i :: 0 <= i < |m.states| && m.states[i].terminal != Some(true) ==>
      HasExit(m.transitions, m.states[i].name)
  }

  /** What `Validate` accepts. */
  ghost predicate Valid(m: Model, p: Patterns) {
    Closed(m, p) && forall i :: 0 <= i < |m.states| ==> Reachable(m, m.states[i].name)
  }

  // ---------- the tables the scan fills ----------

  /** The targets reached from a state, in the order the transitions are declared. */
  function Successors(transitions: seq<Transition>, a: string): seq<string> {
    if transitions == [] then []
    else
      var last := transitions[|transitions| - 1];
      Successors(transitions[..|transitions| - 1], a) + if a in last.from then [last.to] else []
  }

  lemma {:induction false} SuccessorsAreEdges(transitions: seq<Transition>, a: string, b: string)
    ensures b in Successors(transitions, a) <==> Edge(transitions, a, b)
    ensures Successors(transitions, a) != [] <==> HasExit(transitions, a)
    decreases |transitions|
  {
    if transitions != [] {
      var n := |transitions| - 1;
      var front := transitions[..n];
      SuccessorsAreEdges(front, a, b);
      assert transitions == front + [transitions[n]];
      if i :| 0 <= i < |front| && a in front[i].from && front[i].to == b {
        assert a in transitions[i].from && transitions[i].to == b;
      }
      if i :| 0 <= i < n && a in transitions[i].from && transitions[i].to == b {
        assert a in front[i].from;
      }
      if i :| 0 <= i < n && a in transitions[i].from {
        assert a in front[i].from;
      }
      if i :| 0 <= i < |front| && a in front[i].from {
        assert a in transitions[i].from;
      }
    }
  }

  function TargetsOf(adjacency: map<string, seq<string>>, a: string): seq<string> {
    if a in adjacency then adjacency[a] else []
  }

  function CountOf(outgoing: map<string, nat>, a: string): nat {
    if a in outgoing then outgoing[a] else 0
  }

  ghost predicate Tabulates(
    adjacency: map<string, seq<string>>, outgoing: map<string, nat>, transitions: seq<Transition>)
  {
    forall a :: TargetsOf(adjacency, a) == Successors(transitions, a)
      && CountOf(outgoing, a) == |TargetsOf(adjacency, a)|
  }

  /** A map from the names of the states to the states. */
  ghost predicate Indexes(table: map<string, State>, states: seq<State>) {
    && (forall i :: 0 <= i < |states| ==> states[i].name in table && table[states[i].name] == states[i])
    && (forall name :: name in table ==> IsState(states, name))
  }

  // ---------- the checks ----------

  method CheckStates(states: seq<State>, p: Patterns) returns (r: Result<map<string, State>, ModelError>)
    ensures r.Ok? <==> StatesOk(states, p)
    ensures r.Ok? ==> Indexes(r.value, states)
  {
    var table: map<string, State> := map[];
    var n := 0;
    while n < |states|
      invariant 0 <= n <= |states|
      invariant StatesOk(states[..n], p) && Indexes(table, states[..n])
    {
      var state := states[n];
      if state.terminal.None? {
        return Err(BadState);
      }
      if !p.identifier(state.name) {
        return Err(BadState);
      }
      if state.name in table {
        return Err(DuplicateState);
      }
      assert states[..n + 1] == states[..n] + [state];
      table := table[state.name := state];
      n := n + 1;
    }
    assert states[..n] == states;
    return Ok(table);
  }

  method CheckInitial(initial: seq<string>, table: map<string, State>, states: seq<State>)
    returns (refusal: Option<ModelError>)
    requires Indexes(table, states)
    ensures refusal.None? <==> InitialOk(initial, states)
  {
    var seen: set<string> := {};
    var n := 0;
    while n < |initial|
      invariant 0 <= n <= |initial|
      invariant InitialOk(initial[..n], states) && Gathers(seen, initial[..n])
    {
      if initial[n] !in table {
        return Some(BadInitial);
      }
      ScanOneMore(seen, initial, n);
      if initial[n] in seen {
        return Some(BadInitial);
      }
      assert initial[..n + 1] == initial[..n] + [initial[n]];
      seen := seen + {initial[n]};
      n := n + 1;
    }
    assert initial[..n] == initial;
    return None;
  }

  /** The tables after the first `k` sources of the transition behind `done`. */
  ghost predicate TabulatesSome(
    adjacency: map<string, seq<string>>, outgoing: map<string, nat>, done: seq<Transition>, from: seq<string>,
    to: string)
  {
    forall a ::
      && TargetsOf(adjacency, a) == Successors(done, a) + (if a in from then [to] else [])
      && CountOf(outgoing, a) == |TargetsOf(adjacency, a)|
  }

  lemma TabulatesOneMore(
    adjacency: map<string, seq<string>>, outgoing: map<string, nat>, done: seq<Transition>, from: seq<string>,
    to: string, source: string)
    requires TabulatesSome(adjacency, outgoing, done, from, to) && source !in from
    ensures TabulatesSome(
      adjacency[source := TargetsOf(adjacency, source) + [to]], outgoing[source := CountOf(outgoing, source) + 1], done,
      from + [source], to)
  {
    hide Successors;
    forall a
      ensures a in from + [source] <==> a in from || a == source
    {
    }
  }

  lemma TabulatesAll(
    adjacency: map<string, seq<string>>, outgoing: map<string, nat>, done: seq<Transition>, t: Transition)
    requires TabulatesSome(adjacency, outgoing, done, t.from, t.to)
    ensures Tabulates(adjacency, outgoing, done + [t])
  {
    assert (done + [t])[..|done|] == done;
  }

  lemma SourceOneMore(seen: set<string>, from: seq<string>, k: nat, states: seq<State>, p: Patterns)
    requires k < |from| && SourcesOk(from[..k], states, p) && Gathers(seen, from[..k])
    ensures from[..k + 1] == from[..k] + [from[k]]
    ensures from[k] in seen <==> from[k] in from[..k]
    ensures var sound := p.identifier(from[k]) && IsState(states, from[k]) && !IsTerminal(states, from[k]);
      && (!sound || from[k] in seen ==> !SourcesOk(from, states, p))
      && (sound && from[k] !in seen ==> SourcesOk(from[..k + 1], states, p) && Gathers(seen + {from[k]}, from[..k + 1]))
  {
    hide IsState, IsTerminal;
    ScanOneMore(seen, from, k);
    assert from[..k + 1] == from[..k] + [from[k]];
  }

  lemma NoSourcesYet(
    adjacency: map<string, seq<string>>, outgoing: map<string, nat>, done: seq<Transition>, t: Transition,
    states: seq<State>, p: Patterns)
    requires Tabulates(adjacency, outgoing, done)
    ensures SourcesOk(t.from[..0], states, p) && Gathers({}, t.from[..0])
    ensures TabulatesSome(adjacency, outgoing, done, t.from[..0], t.to)
  {
  }

  /** What the index of the states says about one name. */
  lemma IndexTells(table: map<string, State>, states: seq<State>, name: string)
    requires Indexes(table, states)
    ensures name in table <==> IsState(states, name)
    ensures name in table ==> (table[name].terminal == Some(true) <==> IsTerminal(states, name))
  {
  }

  /** The sources of one transition, entered into both tables. */
  method CheckSources(
    t: Transition, table: map<string, State>, adjacency0: map<string, seq<string>>, outgoing0: map<string, nat>,
    p: Patterns, ghost states: seq<State>, ghost done: seq<Transition>)
    returns (r: Result<(map<string, seq<string>>, map<string, nat>), ModelError>)
    requires Indexes(table, states) && Tabulates(adjacency0, outgoing0, done)
    ensures r.Ok? <==> SourcesOk(t.from, states, p)
    ensures r.Ok? ==> Tabulates(r.value.0, r.value.1, done + [t])
  {
    hide Successors, TabulatesSome, Tabulates, Indexes, IsState, IsTerminal, SourcesOk, Gathers;
    var adjacency: map<string, seq<string>>, outgoing: map<string, nat> := adjacency0, outgoing0;
    var seenFrom: set<string> := {};
    var k := 0;
    NoSourcesYet(adjacency, outgoing, done, t, states, p);
    while k < |t.from|
      invariant 0 <= k <= |t.from|
      invariant SourcesOk(t.from[..k], states, p) && Gathers(seenFrom, t.from[..k])
      invariant TabulatesSome(adjacency, outgoing, done, t.from[..k], t.to)
    {
      var from := t.from[k];
      SourceOneMore(seenFrom, t.from, k, states, p);
      IndexTells(table, states, from);
      if !p.identifier(from) {
        return Err(BadSource);
      }
      if from !in table {
        return Err(BadSource);
      }
      if table[from].terminal == Some(true) {
        return Err(BadSource);
      }
      if from in seenFrom {
        return Err(BadSource);
      }
      TabulatesOneMore(adjacency, outgoing, done, t.from[..k], t.to, from);
      seenFrom := seenFrom + {from};
      outgoing := outgoing[from := CountOf(outgoing, from) + 1];
      adjacency := adjacency[from := TargetsOf(adjacency, from) + [t.to]];
      k := k + 1;
    }
    assert t.from[..k] == t.from;
    TabulatesAll(adjacency, outgoing, done, t);
    return Ok((adjacency, outgoing));
  }

  method CheckEffects(effects: seq<string>) returns (ok: bool)
    ensures ok <==> EffectsOk(effects)
  {
    var seen: set<string> := {};
    var n := 0;
    while n < |effects|
      invariant 0 <= n <= |effects|
      invariant EffectsOk(effects[..n]) && Gathers(seen, effects[..n])
    {
      if effects[n] == "" || |effects[n]| > 512 {
        return false;
      }
      ScanOneMore(seen, effects, n);
      if effects[n] in seen {
        return false;
      }
      assert effects[..n + 1] == effects[..n] + [effects[n]];
      seen := seen + {effects[n]};
      n := n + 1;
    }
    assert effects[..n] == effects;
    return true;
  }

  method CheckTransitions(
    transitions: seq<Transition>, table: map<string, State>, p: Patterns, ghost states: seq<State>)
    returns (r: Result<(map<string, seq<string>>, map<string, nat>), ModelError>)
    requires Indexes(table, states)
    ensures r.Ok? <==> TransitionsOk(transitions, states, p)
    ensures r.Ok? ==> Tabulates(r.value.0, r.value.1, transitions)
  {
    var seen: set<string> := {};
    var adjacency: map<string, seq<string>>, outgoing: map<string, nat> := map[], map[];
    var n := 0;
    while n < |transitions|
      invariant 0 <= n <= |transitions|
      invariant TransitionsOk(transitions[..n], states, p) && Gathers(seen, TransitionNames(transitions[..n]))
      invariant Tabulates(adjacency, outgoing, transitions[..n])
    {
      hide Tabulates, SourcesOk, EffectsOk, Indexes, Gathers, Successors;
      var t := transitions[n];
      if t.retryable.None? || !p.identifier(t.name) || !p.identifier(t.to) || !p.identifier(t.actor)
        || !p.identifier(t.cas) || t.guard == "" || |t.guard| > 1024 || t.event == "" || |t.event| > 256
      {
        return Err(BadTransition);
      }
      if t.name in seen {
        return Err(DuplicateTransition);
      }
      if t.to !in table {
        return Err(UnknownTarget);
      }
      if t.from == [] || t.effects == [] {
        return Err(BadTransition);
      }
      var tables := CheckSources(t, table, adjacency, outgoing, p, states, transitions[..n]);
      if tables.Err? {
        return tables;
      }
      var effectsOk := CheckEffects(t.effects);
      if !effectsOk {
        return Err(BadEffect);
      }
      assert transitions[..n + 1] == transitions[..n] + [t];
      seen := seen + {t.name};
      adjacency, outgoing := tables.value.0, tables.value.1;
      n := n + 1;
    }
    assert transitions[..n] == transitions;
    return Ok((adjacency, outgoing));
  }

  // ---------- breadth-first search ----------

  /** What the search has established: everything marked or queued is reachable, and nothing is skipped. */
  ghost predicate Searching(m: Model, reachable: set<string>, queue: seq<string>) {
    && (forall a :: a in reachable || a in queue ==> IsState(m.states, a) && Reachable(m, a))
    && (forall a :: a in m.initialStates ==> a in reachable || a in queue)
    && (forall a, b :: a in reachable && Edge(m.transitions, a, b) ==> b in reachable || b in queue)
  }

  ghost function StateSet(states: seq<State>): set<string> {
    set i | 0 <= i < |states| :: states[i].name
  }

  lemma RunExtends(m: Model, a: string, b: string)
    requires Reachable(m, a) && Edge(m.transitions, a, b)
    ensures Reachable(m, b)
  {
    var path :| Run(m, path) && path[|path| - 1] == a;
    var longer := path + [b];
    assert Run(m, longer) && longer[|longer| - 1] == b;
  }

  lemma SearchStep(m: Model, p: Patterns, reachable: set<string>, queue: seq<string>)
    requires queue != [] && Searching(m, reachable, queue) && TransitionsOk(m.transitions, m.states, p)
    ensures queue[0] in reachable ==> Searching(m, reachable, queue[1..])
    ensures Searching(m, reachable + {queue[0]}, queue[1..] + Successors(m.transitions, queue[0]))
  {
    hide Run, Reachable, TransitionOk, Successors, IsState;
    var state, next := queue[0], Successors(m.transitions, queue[0]);
    assert forall a :: a in queue <==> a == state || a in queue[1..];
    forall b
      ensures b in next <==> Edge(m.transitions, state, b)
      ensures b in next ==> IsState(m.states, b) && Reachable(m, b)
    {
      SuccessorsAreEdges(m.transitions, state, b);
      if Edge(m.transitions, state, b) {
        RunExtends(m, state, b);
        EdgeTargetDeclared(m.transitions, m.states, p, state, b);
      }
    }
  }

  lemma EdgeTargetDeclared(transitions: seq<Transition>, states: seq<State>, p: Patterns, a: string, b: string)
    requires TransitionsOk(transitions, states, p) && Edge(transitions, a, b)
    ensures IsState(states, a) && IsState(states, b) && !IsTerminal(states, a)
  {
    var i :| 0 <= i < |transitions| && a in transitions[i].from && transitions[i].to == b;
    assert TransitionOk(transitions[i], states, p);
    var k :| 0 <= k < |transitions[i].from| && transitions[i].from[k] == a;
  }

  lemma {:induction false} RunStaysMarked(m: Model, reachable: set<string>, path: seq<string>)
    requires Searching(m, reachable, []) && Run(m, path)
    ensures path[|path| - 1] in reachable
    decreases |path|
  {
    if |path| > 1 {
      var front := path[..|path| - 1];
      assert Run(m, front);
      RunStaysMarked(m, reachable, front);
      assert Edge(m.transitions, path[|path| - 2], path[|path| - 1]);
    }
  }

  /** The breadth-first search of `Validate`: it marks exactly the reachable states. */
  method Search(m: Model, adjacency: map<string, seq<string>>, ghost outgoing: map<string, nat>, ghost p: Patterns)
    returns (reachable: set<string>)
    requires InitialOk(m.initialStates, m.states) && TransitionsOk(m.transitions, m.states, p)
    requires Tabulates(adjacency, outgoing, m.transitions)
    ensures forall a :: a in reachable <==> Reachable(m, a)
  {
    hide Searching, Successors, InitialOk, TransitionsOk, Reachable, IsState;
    reachable := {};
    var queue := m.initialStates;
    SearchStarts(m);
    while queue != []
      invariant Searching(m, reachable, queue)
      decreases |StateSet(m.states) - reachable|, |queue|
    {
      var state := queue[0];
      SearchStep(m, p, reachable, queue);
      QueuedIsState(m, reachable, queue);
      hide StateSet;
      queue := queue[1..];
      if state in reachable {
        continue;
      }
      assert StateSet(m.states) - (reachable + {state}) == StateSet(m.states) - reachable - {state};
      reachable := reachable + {state};
      queue := queue + TargetsOf(adjacency, state);
    }
    SearchEnds(m, reachable);
  }

  lemma SearchEnds(m: Model, reachable: set<string>)
    requires Searching(m, reachable, [])
    ensures forall a :: a in reachable <==> Reachable(m, a)
  {
    forall a
      ensures a in reachable <==> Reachable(m, a)
    {
      if Reachable(m, a) {
        var path :| Run(m, path) && path[|path| - 1] == a;
        RunStaysMarked(m, reachable, path);
      }
    }
  }

  lemma QueuedIsState(m: Model, reachable: set<string>, queue: seq<string>)
    requires queue != [] && Searching(m, reachable, queue)
    ensures queue[0] in StateSet(m.states)
  {
    assert IsState(m.states, queue[0]);
  }

  lemma SearchStarts(m: Model)
    requires InitialOk(m.initialStates, m.states)
    ensures Searching(m, {}, m.initialStates)
  {
    forall a | a in m.initialStates
      ensures Reachable(m, a)
    {
      assert Run(m, [a]);
      assert [a][|[a]| - 1] == a;
    }
  }

  // ---------- the whole check ----------

  method CheckExits(states: seq<State>, outgoing: map<string, nat>) returns (ok: bool)
    ensures ok <==>
      forall i :: 0 <= i < |states| && states[i].terminal != Some(true) ==> CountOf(outgoing, states[i].name) > 0
  {
    var n := 0;
    while n < |states|
      invariant 0 <= n <= |states|
      invariant forall i :: 0 <= i < n && states[i].terminal != Some(true) ==> CountOf(outgoing, states[i].name) > 0
    {
      if states[n].terminal != Some(true) && CountOf(outgoing, states[n].name) == 0 {
        return false;
      }
      n := n + 1;
    }
    return true;
  }

  /** `Model.Validate`. */
  method Validate(m: Model, p: Patterns) returns (refusal: Option<ModelError>)
    ensures refusal.None? <==> Valid(m, p)
  {
    hide StatesOk, InitialOk, TransitionsOk, Indexes, Run, Successors;
    if m.schema != SCHEMA || |m.profile| > 128 || !p.contractName(m.profile) || m.version != 1 {
      return Some(BadEnvelope);
    }
    if m.initialStates == [] || m.states == [] || m.transitions == [] {
      return Some(EmptySection);
    }
    refusal := ValidateGraph(m, p);
  }

  /** Everything in `Validate` behind the envelope. */
  method ValidateGraph(m: Model, p: Patterns) returns (refusal: Option<ModelError>)
    requires EnvelopeOk(m, p)
    ensures refusal.None? <==> Valid(m, p)
  {
    hide StatesOk, InitialOk, TransitionsOk, Indexes, Reachable, EnvelopeOk;
    var table := CheckStates(m.states, p);
    if table.Err? {
      return Some(table.error);
    }
    var initialRefusal := CheckInitial(m.initialStates, table.value, m.states);
    if initialRefusal.Some? {
      return initialRefusal;
    }
    var tables := CheckTransitions(m.transitions, table.value, p, m.states);
    if tables.Err? {
      return Some(tables.error);
    }
    forall a
      ensures CountOf(tables.value.1, a) > 0 <==> HasExit(m.transitions, a)
    {
      SuccessorsAreEdges(m.transitions, a, a);
    }
    var exits := CheckExits(m.states, tables.value.1);
    if !exits {
      return Some(DeadEnd);
    }
    var reachable := Search(m, tables.value.0, tables.value.1, p);
    var n := 0;
    while n < |m.states|
      invariant 0 <= n <= |m.states|
      invariant forall i :: 0 <= i < n ==> Reachable(m, m.states[i].name)
    {
      if m.states[n].name !in reachable {
        return Some(Unreachable);
      }
      n := n + 1;
    }
    return None;
  }

  // ---------- resolving transitions ----------

  /** The declared transition of the complete tuple exists. */
  ghost predicate Resolves(m: Model, from: string, to: string, actor: string, name: string) {
    exists t :: t in m.transitions && t.name == name && t.to == to && t.actor == actor && from in t.from
  }

  /** `Model.Resolve`. */
  method Resolve(m: Model, from: string, to: string, actor: string, name: string, p: Patterns)
    returns (r: Option<Transition>)
    ensures r.Some? <==> Valid(m, p) && Resolves(m, from, to, actor, name)
    ensures r.Some? ==> r.value in m.transitions && r.value.name == name && r.value.actor == actor
    ensures r.Some? ==> from in r.value.from && r.value.to == to
    ensures r.Some? ==> forall t :: t in m.transitions && t.name == name ==> t == r.value
  {
    hide Valid;
    var refusal := Validate(m, p);
    if refusal.Some? {
      return None;
    }
    var n := 0;
    while n < |m.transitions|
      invariant 0 <= n <= |m.transitions|
      invariant forall i :: 0 <= i < n ==>
        var t := m.transitions[i]; !(t.name == name && t.to == to && t.actor == actor && from in t.from)
    {
      var t := m.transitions[n];
      if t.name == name && t.to == to && t.actor == actor {
        var k := 0;
        while k < |t.from|
          invariant 0 <= k <= |t.from|
          invariant from !in t.from[..k]
        {
          if t.from[k] == from {
            NamesIdentify(m, p, n);
            return Some(t);
          }
          assert t.from[..k + 1] == t.from[..k] + [t.from[k]];
          k := k + 1;
        }
        assert t.from[..k] == t.from;
      }
      n := n + 1;
    }
    return None;
  }

  lemma NamesIdentify(m: Model, p: Patterns, n: nat)
    requires Valid(m, p) && n < |m.transitions|
    ensures forall t :: t in m.transitions && t.name == m.transitions[n].name ==> t == m.transitions[n]
  {
    forall i | 0 <= i < |m.transitions| && m.transitions[i].name == m.transitions[n].name
      ensures i == n
    {
      assert TransitionNames(m.transitions)[i] == TransitionNames(m.transitions)[n];
    }
  }

  /** `hasDeclaredPair`. */
  method HasDeclaredPair(m: Model, from: string, to: string) returns (declared: bool)
    ensures declared <==> Edge(m.transitions, from, to)
  {
    var n := 0;
    while n < |m.transitions|
      invariant 0 <= n <= |m.transitions|
      invariant forall i :: 0 <= i < n ==> !(from in m.transitions[i].from && m.transitions[i].to == to)
    {
      var t := m.transitions[n];
      if t.to == to {
        var k := 0;
        while k < |t.from|
          invariant 0 <= k <= |t.from|
          invariant from !in t.from[..k]
        {
          if t.from[k] == from {
            return true;
          }
          assert t.from[..k + 1] == t.from[..k] + [t.from[k]];
          k := k + 1;
        }
        assert t.from[..k] == t.from;
      }
      n := n + 1;
    }
    return false;
  }

  // ---------- runs of an accepted model ----------

  /** A pair is declared exactly when some actor and transition name resolve it. */
  lemma PairsAreResolvable(m: Model, from: string, to: string)
    ensures Edge(m.transitions, from, to) <==> exists actor, name :: Resolves(m, from, to, actor, name)
  {
    if i :| 0 <= i < |m.transitions| && from in m.transitions[i].from && m.transitions[i].to == to {
      assert m.transitions[i] in m.transitions;
      assert Resolves(m, from, to, m.transitions[i].actor, m.transitions[i].name);
    }
    if actor, name :| Resolves(m, from, to, actor, name) {
      var t :| t in m.transitions && t.name == name && t.to == to && t.actor == actor && from in t.from;
      var i :| 0 <= i < |m.transitions| && m.transitions[i] == t;
    }
  }

  /** Every state a run passes is declared, and only its last state can be terminal. */
  lemma {:induction false} RunsStayDeclared(m: Model, p: Patterns, path: seq<string>)
    requires InitialOk(m.initialStates, m.states) && TransitionsOk(m.transitions, m.states, p) && Run(m, path)
    ensures forall k :: 0 <= k < |path| ==> IsState(m.states, path[k])
    ensures forall k :: 0 <= k < |path| - 1 ==> !IsTerminal(m.states, path[k])
    decreases |path|
  {
    if |path| == 1 {
      var i :| 0 <= i < |m.initialStates| && m.initialStates[i] == path[0];
    } else {
      hide InitialOk, TransitionsOk, IsState, IsTerminal;
      var n := |path| - 1;
      var front := path[..n];
      assert Run(m, front);
      RunsStayDeclared(m, p, front);
      assert Edge(m.transitions, path[n - 1], path[n]);
      EdgeTargetDeclared(m.transitions, m.states, p, path[n - 1], path[n]);
      assert forall k :: 0 <= k < n ==> front[k] == path[k];
    }
  }

  /** A declared state has no way on exactly when it is terminal. */
  lemma StuckIsTerminal(m: Model, p: Patterns, name: string)
    requires Valid(m, p) && IsState(m.states, name)
    ensures (forall to, actor, named :: !Resolves(m, name, to, actor, named)) <==> IsTerminal(m.states, name)
  {
    hide Run, Reachable;
    if IsTerminal(m.states, name) {
      forall to, actor, named
        ensures !Resolves(m, name, to, actor, named)
      {
        if Resolves(m, name, to, actor, named) {
          PairsAreResolvable(m, name, to);
          EdgeTargetDeclared(m.transitions, m.states, p, name, to);
        }
      }
    } else {
      var i :| 0 <= i < |m.states| && m.states[i].name == name;
      assert m.states[i].terminal != Some(true);
      var k :| 0 <= k < |m.transitions| && name in m.transitions[k].from;
      assert m.transitions[k] in m.transitions;
      assert Resolves(m, name, m.transitions[k].to, m.transitions[k].actor, m.transitions[k].name);
    }
  }

  /** In an accepted model the declared states are exactly the states runs end in. */
  lemma StatesAreRunEnds(m: Model, p: Patterns, name: string)
    requires Valid(m, p)
    ensures IsState(m.states, name) <==> exists path :: Run(m, path) && path[|path| - 1] == name
  {
    if IsState(m.states, name) {
      var i :| 0 <= i < |m.states| && m.states[i].name == name;
      assert Reachable(m, m.states[i].name);
    }
    if path :| Run(m, path) && path[|path| - 1] == name {
      RunsStayDeclared(m, p, path);
    }
  }
}
