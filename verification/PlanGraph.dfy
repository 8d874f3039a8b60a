/**
 The dependency check of scripts/verify_repository.py on the development plan: tasks and milestones
 form one graph, which a depth-first traversal with an in-progress set must find free of cycles.
 */
module PlanGraph {
  import opened Foundation

  /** Python's "task:" and "milestone:" node names. */
  datatype Node = Task(id: string) | Milestone(id: string)

  datatype Item = Item(id: string, track: string, dependsOnTasks: seq<string>, dependsOnMilestones: seq<string>)

  datatype Plan = Plan(tracks: seq<string>, tasks: seq<Item>, milestones: seq<Item>)

  datatype PlanError = CardinalityDrift | UnknownTrack | UnknownDependency | DependencyCycle

  type Edges = map<Node, seq<Node>>

  // ---------- graphs ----------

  ghost predicate ClosedGraph(edges: Edges) {
    forall a, b :: a in edges && b in edges[a] ==> b in edges
  }

  ghost predicate IsPath(edges: Edges, path: seq<Node>) {
    && path != [] && (forall i :: 0 <= i < |path| ==> path[i] in edges)
    && forall i :: 0 < i < |path| ==> path[i] in edges[path[i - 1]]
  }

  ghost predicate Cyclic(edges: Edges) {
    exists path :: IsPath(edges, path) && |path| > 1 && path[0] == path[|path| - 1]
  }

  /** Every node that finished did so after everything it depends on, and only once. */
  ghost predicate Topological(edges: Edges, order: seq<Node>) {
    && NoRepeats(order)
    && forall i :: 0 <= i < |order| ==>
         order[i] in edges && forall b :: b in edges[order[i]] ==> b in order[..i]
  }

  /** Along a path positions in a topological order fall. */
  lemma {:induction false} PathsDescend(edges: Edges, order: seq<Node>, path: seq<Node>, start: nat)
    requires Topological(edges, order) && IsPath(edges, path) && start < |order| && order[start] == path[0]
    ensures |path| > 1 ==> path[|path| - 1] in order[..start]
    decreases |path|
  {
    if |path| > 1 {
      var n := |path| - 1;
      var front := path[..n];
      assert IsPath(edges, front);
      PathsDescend(edges, order, front, start);
      var k := start;
      if n > 1 {
        k :| 0 <= k < start && order[k] == path[n - 1];
      }
      assert path[n] in edges[order[k]];
      var j :| 0 <= j < k && order[j] == path[n];
      assert order[..start][j] == path[n];
    }
  }

  /** A graph all of whose nodes are in a topological order has no cycle. */
  lemma OrderedIsAcyclic(edges: Edges, order: seq<Node>)
    requires Topological(edges, order) && forall a :: a in edges ==> a in order
    ensures !Cyclic(edges)
  {
    if path :| IsPath(edges, path) && |path| > 1 && path[0] == path[|path| - 1] {
      var start :| 0 <= start < |order| && order[start] == path[0];
      PathsDescend(edges, order, path, start);
      assert false;
    }
  }

  lemma StackTopIsCycle(edges: Edges, stack: seq<Node>, node: Node)
    requires IsPath(edges, stack) && node in edges && node in edges[stack[|stack| - 1]] && node in stack
    ensures Cyclic(edges)
  {
    var i :| 0 <= i < |stack| && stack[i] == node;
    var path := stack[i..] + [node];
    forall k | 0 < k < |path|
      ensures path[k] in edges[path[k - 1]]
    {
      assert path[k - 1] == stack[i + (k - 1)];
      if k < |stack| - i {
        assert path[k] == stack[i + k];
      }
    }
    assert IsPath(edges, path);
    assert path[0] == path[|path| - 1];
  }

  lemma OrderOneMore(edges: Edges, visited: set<Node>, order: seq<Node>, node: Node)
    requires Topological(edges, order) && Gathers(visited, order) && node in edges && node !in visited
    requires forall b :: b in edges[node] ==> b in visited
    ensures Topological(edges, order + [node]) && Gathers(visited + {node}, order + [node])
  {
    var next := order + [node];
    forall i | 0 <= i < |next|
      ensures next[i] in edges && forall b :: b in edges[next[i]] ==> b in next[..i]
    {
      assert next[..i] == order[..i];
      assert order[..|order|] == order;
    }
  }

  // ---------- the traversal ----------

  class Traversal {
    const edges: Edges
    var visiting: set<Node>
    var visited: set<Node>
    ghost var stack: seq<Node>
    ghost var order: seq<Node>

    constructor (edges0: Edges)
      requires ClosedGraph(edges0)
      ensures Valid() && edges == edges0 && visiting == {} && visited == {} && stack == [] && order == []
    {
      edges, visiting, visited, stack, order := edges0, {}, {}, [], [];
    }

    /** The nodes in progress are one path of the graph; the finished ones are in topological order. */
    ghost predicate Valid()
      reads this
    {
      && ClosedGraph(edges)
      && NoRepeats(stack) && Gathers(visiting, stack) && (stack == [] || IsPath(edges, stack))
      && Gathers(visited, order) && Topological(edges, order)
      && visiting !! visited
    }

    /** The next node is a root, or a dependency of the node on top of the stack. */
    ghost predicate Next(node: Node)
      reads this
    {
      node in edges && (stack != [] && stack[|stack| - 1] in edges ==> node in edges[stack[|stack| - 1]])
    }

    /** The inner `visit`. */
    method Visit(node: Node) returns (ok: bool)
      requires Valid() && Next(node)
      modifies this
      ensures ok ==> Valid() && stack == old(stack) && visiting == old(visiting)
      ensures ok ==> node in visited && old(visited) <= visited && old(order) <= order
      ensures !ok ==> Cyclic(edges)
      decreases edges.Keys - visiting - visited
    {
      if node in visiting {
        StackTopIsCycle(edges, stack, node);
        return false;
      }
      if node in visited {
        return true;
      }
      Enter(node);
      var k := 0;
      while k < |edges[node]|
        invariant 0 <= k <= |edges[node]|
        invariant Valid() && stack == old(stack) + [node] && visiting == old(visiting) + {node}
        invariant old(order) <= order && old(visited) <= visited
        invariant forall i :: 0 <= i < k ==> edges[node][i] in visited
      {
        assert node in edges.Keys - old(visiting) - old(visited) && node !in edges.Keys - visiting - visited;
        assert edges.Keys - visiting - visited <= edges.Keys - old(visiting) - old(visited);
        var done := Visit(edges[node][k]);
        if !done {
          return false;
        }
        k := k + 1;
      }
      Leave(node);
      assert stack == old(stack);
      return true;
    }

    method Enter(node: Node)
      requires Valid() && Next(node) && node !in visiting && node !in visited
      modifies this`visiting, this`stack
      ensures Valid() && stack == old(stack) + [node] && visiting == old(visiting) + {node}
    {
      visiting := visiting + {node};
      stack := stack + [node];
    }

    method Leave(node: Node)
      requires Valid() && stack != [] && stack[|stack| - 1] == node
      requires node !in visited && forall i :: 0 <= i < |edges[node]| ==> edges[node][i] in visited
      modifies this
      ensures Valid() && stack == old(stack)[..|old(stack)| - 1] && visiting == old(visiting) - {node}
      ensures visited == old(visited) + {node} && order == old(order) + [node]
    {
      OrderOneMore(edges, visited, order, node);
      visiting := visiting - {node};
      visited := visited + {node};
      stack := stack[..|stack| - 1];
      order := order + [node];
    }
  }

  // ---------- the plan ----------

  /** Python's dictionary by identifier: a later item replaces an earlier one of the same identifier. */
  function Keyed(items: seq<Item>): map<string, Item> {
    if items == [] then map[]
    else Keyed(items[..|items| - 1])[items[|items| - 1].id := items[|items| - 1]]
  }

  function DependenciesOf(item: Item): (nodes: seq<Node>)
    ensures |nodes| == |item.dependsOnTasks| + |item.dependsOnMilestones|
  {
    seq(|item.dependsOnTasks|, i requires 0 <= i < |item.dependsOnTasks| => Task(item.dependsOnTasks[i]))
    + seq(
        |item.dependsOnMilestones|,
        i requires 0 <= i < |item.dependsOnMilestones| => Milestone(item.dependsOnMilestones[i]))
  }

  function NodesOf(tasks: map<string, Item>, milestones: map<string, Item>): set<Node> {
    (set id | id in tasks :: Task(id)) + (set id | id in milestones :: Milestone(id))
  }

  function ItemOf(tasks: map<string, Item>, milestones: map<string, Item>, node: Node): Item
    requires node in NodesOf(tasks, milestones)
  {
    match node
    case Task(id) => tasks[id]
    case Milestone(id) => milestones[id]
  }

  /** The dependency graph of a plan. */
  function GraphOf(tasks: map<string, Item>, milestones: map<string, Item>): Edges {
    map node | node in NodesOf(tasks, milestones) :: DependenciesOf(ItemOf(tasks, milestones, node))
  }

  // ---------- what the plan itself says ----------

  /** No later item has the identifier of this one. */
  ghost predicate InForce(items: seq<Item>, item: Item) {
    exists i :: 0 <= i < |items| && items[i] == item && forall j :: i < j < |items| ==> items[j].id != item.id
  }

  ghost predicate IsNode(plan: Plan, node: Node) {
    exists item :: item in (if node.Task? then plan.tasks else plan.milestones) && item.id == node.id
  }

  predicate NamesNode(item: Item, node: Node) {
    node.id in if node.Task? then item.dependsOnTasks else item.dependsOnMilestones
  }

  /** The task or milestone `a` lists `b` among the tasks, or milestones, it depends on. */
  ghost predicate DependsOn(plan: Plan, a: Node, b: Node) {
    exists item ::
      InForce(if a.Task? then plan.tasks else plan.milestones, item) && item.id == a.id && NamesNode(item, b)
  }

  ghost predicate DependencyLoop(plan: Plan, path: seq<Node>) {
    && |path| > 1 && path[0] == path[|path| - 1]
    && forall i :: 0 < i < |path| ==> DependsOn(plan, path[i - 1], path[i])
  }

  ghost predicate PlanSound(plan: Plan) {
    && |set t | t in plan.tracks| == 3
    && |set item | item in plan.tasks :: item.id| == 18 && |set item | item in plan.milestones :: item.id| == 7
    && (forall item :: InForce(plan.tasks, item) || InForce(plan.milestones, item) ==> item.track in plan.tracks)
    && (forall a, b :: DependsOn(plan, a, b) ==> IsNode(plan, b))
    && forall path :: !DependencyLoop(plan, path)
  }

  /** Every node once, each after all the nodes it depends on. */
  ghost predicate Ordered(plan: Plan, order: seq<Node>) {
    && NoRepeats(order) && (forall node :: node in order <==> IsNode(plan, node))
    && forall i, b :: 0 <= i < |order| && DependsOn(plan, order[i], b) ==> b in order[..i]
  }

  // ---------- the dictionaries and the graph say the same ----------

  lemma {:induction false} KeyedMeans(items: seq<Item>, id: string)
    ensures id in Keyed(items) <==> exists item :: item in items && item.id == id
    ensures id in Keyed(items) ==> InForce(items, Keyed(items)[id]) && Keyed(items)[id].id == id
    ensures forall item :: InForce(items, item) && item.id == id ==> id in Keyed(items) && Keyed(items)[id] == item
    decreases |items|
  {
    if items != [] {
      var front, last := items[..|items| - 1], items[|items| - 1];
      assert items == front + [last];
      KeyedMeans(front, id);
      if last.id == id {
        assert items[|items| - 1] == last;
      } else {
        forall item: Item | item.id == id
          ensures InForce(items, item) <==> InForce(front, item)
        {
          InForceFront(front, last, item);
        }
      }
    }
  }

  lemma InForceFront(front: seq<Item>, last: Item, item: Item)
    requires last.id != item.id
    ensures InForce(front + [last], item) <==> InForce(front, item)
  {
    var items := front + [last];
    if i :| 0 <= i < |front| && front[i] == item && forall j :: i < j < |front| ==> front[j].id != item.id {
      assert items[i] == item;
    }
    if i :| 0 <= i < |items| && items[i] == item && forall j :: i < j < |items| ==> items[j].id != item.id {
      assert front[i] == item;
      assert forall j :: i < j < |front| ==> front[j] == items[j];
    }
  }

  lemma NamedDependencies(item: Item, b: Node)
    ensures b in DependenciesOf(item) <==> NamesNode(item, b)
  {
    var nodes, tasks := DependenciesOf(item), |item.dependsOnTasks|;
    if b in nodes {
      var i :| 0 <= i < |nodes| && nodes[i] == b;
      assert i < tasks ==> b == Task(item.dependsOnTasks[i]);
      assert i >= tasks ==> b == Milestone(item.dependsOnMilestones[i - tasks]);
    }
    if b.Task? && b.id in item.dependsOnTasks {
      var i :| 0 <= i < tasks && item.dependsOnTasks[i] == b.id;
      assert nodes[i] == b;
    }
    if b.Milestone? && b.id in item.dependsOnMilestones {
      var i :| 0 <= i < |item.dependsOnMilestones| && item.dependsOnMilestones[i] == b.id;
      assert nodes[tasks + i] == b;
    }
  }

  /** The dependency graph of the dictionaries has the nodes and edges that the plan declares. */
  lemma GraphMeans(plan: Plan, a: Node, b: Node)
    ensures var graph := GraphOf(Keyed(plan.tasks), Keyed(plan.milestones));
      && (a in graph <==> IsNode(plan, a))
      && (a in graph && b in graph[a] <==> DependsOn(plan, a, b))
  {
    KeyedMeans(if a.Task? then plan.tasks else plan.milestones, a.id);
    var keyed := if a.Task? then Keyed(plan.tasks) else Keyed(plan.milestones);
    hide Keyed, InForce;
    if a.id in keyed {
      NamedDependencies(keyed[a.id], b);
    }
    hide DependenciesOf, NamesNode;
  }

  ghost predicate TracksKnown(plan: Plan) {
    && (forall id :: id in Keyed(plan.tasks) ==> Keyed(plan.tasks)[id].track in plan.tracks)
    && (forall id :: id in Keyed(plan.milestones) ==> Keyed(plan.milestones)[id].track in plan.tracks)
  }

  ghost predicate GraphSound(plan: Plan) {
    var tasks, milestones := Keyed(plan.tasks), Keyed(plan.milestones);
    && |(set t | t in plan.tracks)| == 3 && |tasks| == 18 && |milestones| == 7
    && TracksKnown(plan) && ClosedGraph(GraphOf(tasks, milestones)) && !Cyclic(GraphOf(tasks, milestones))
  }

  lemma TracksMean(plan: Plan)
    ensures TracksKnown(plan) <==>
      forall item :: InForce(plan.tasks, item) || InForce(plan.milestones, item) ==> item.track in plan.tracks
  {
    hide Keyed, InForce;
    forall id
      ensures id in Keyed(plan.tasks) ==> InForce(plan.tasks, Keyed(plan.tasks)[id])
      ensures id in Keyed(plan.milestones) ==> InForce(plan.milestones, Keyed(plan.milestones)[id])
    {
      KeyedMeans(plan.tasks, id);
      KeyedMeans(plan.milestones, id);
    }
    forall item: Item
      ensures InForce(plan.tasks, item) ==> item.id in Keyed(plan.tasks) && Keyed(plan.tasks)[item.id] == item
      ensures InForce(plan.milestones, item) ==>
        item.id in Keyed(plan.milestones) && Keyed(plan.milestones)[item.id] == item
    {
      KeyedMeans(plan.tasks, item.id);
      KeyedMeans(plan.milestones, item.id);
    }
  }

  lemma KeysMean(items: seq<Item>)
    ensures Keyed(items).Keys == set item | item in items :: item.id
  {
    hide Keyed;
    forall id
      ensures id in Keyed(items) <==> exists item :: item in items && item.id == id
    {
      KeyedMeans(items, id);
    }
  }

  /** The graph has the nodes and edges that the plan declares. */
  ghost predicate Draws(graph: Edges, plan: Plan) {
    && (forall a :: a in graph <==> IsNode(plan, a))
    && (forall a, b :: a in graph && b in graph[a] <==> DependsOn(plan, a, b))
  }

  lemma GraphDraws(plan: Plan)
    ensures Draws(GraphOf(Keyed(plan.tasks), Keyed(plan.milestones)), plan)
  {
    hide Keyed, GraphOf, IsNode, DependsOn;
    var graph := GraphOf(Keyed(plan.tasks), Keyed(plan.milestones));
    forall a
      ensures a in graph <==> IsNode(plan, a)
    {
      GraphMeans(plan, a, a);
    }
    forall a, b
      ensures a in graph && b in graph[a] <==> DependsOn(plan, a, b)
    {
      GraphMeans(plan, a, b);
    }
  }

  lemma ClosedMeans(plan: Plan, graph: Edges)
    requires Draws(graph, plan)
    ensures ClosedGraph(graph) <==> forall a, b :: DependsOn(plan, a, b) ==> IsNode(plan, b)
  {
    hide DependsOn, IsNode;
    if ClosedGraph(graph) {
      forall a, b | DependsOn(plan, a, b)
        ensures IsNode(plan, b)
      {
        assert a in graph && b in graph[a];
      }
    }
    if forall a, b :: DependsOn(plan, a, b) ==> IsNode(plan, b) {
      forall a, b | a in graph && b in graph[a]
        ensures b in graph
      {
        assert DependsOn(plan, a, b);
      }
    }
  }

  lemma LoopIsPath(plan: Plan, graph: Edges, path: seq<Node>)
    requires Draws(graph, plan) && ClosedGraph(graph)
    ensures IsPath(graph, path) && |path| > 1 && path[0] == path[|path| - 1] <==> DependencyLoop(plan, path)
  {
    hide DependsOn, IsNode;
    if DependencyLoop(plan, path) {
      forall i | 0 <= i < |path|
        ensures path[i] in graph
      {
        var k := if i == 0 then 1 else i;
        assert DependsOn(plan, path[k - 1], path[k]);
      }
      forall i | 0 < i < |path|
        ensures path[i] in graph[path[i - 1]]
      {
        assert DependsOn(plan, path[i - 1], path[i]);
      }
    }
    if IsPath(graph, path) && |path| > 1 && path[0] == path[|path| - 1] {
      forall i | 0 < i < |path|
        ensures DependsOn(plan, path[i - 1], path[i])
      {
        assert path[i - 1] in graph && path[i] in graph[path[i - 1]];
      }
    }
  }

  lemma CyclicMeans(plan: Plan, graph: Edges)
    requires Draws(graph, plan) && ClosedGraph(graph)
    ensures Cyclic(graph) <==> exists path :: DependencyLoop(plan, path)
  {
    hide Draws, ClosedGraph, IsPath, DependencyLoop;
    forall path
      ensures IsPath(graph, path) && |path| > 1 && path[0] == path[|path| - 1] <==> DependencyLoop(plan, path)
    {
      LoopIsPath(plan, graph, path);
    }
  }

  /** The checks on the graph are exactly the conditions on the plan. */
  lemma SoundMeans(plan: Plan)
    ensures GraphSound(plan) <==> PlanSound(plan)
  {
    hide Keyed, GraphOf, IsNode, DependsOn, InForce, ClosedGraph, Cyclic, TracksKnown, DependencyLoop, Draws;
    var graph := GraphOf(Keyed(plan.tasks), Keyed(plan.milestones));
    TracksMean(plan);
    KeysMean(plan.tasks);
    KeysMean(plan.milestones);
    GraphDraws(plan);
    ClosedMeans(plan, graph);
    if ClosedGraph(graph) {
      CyclicMeans(plan, graph);
    }
  }

  lemma OrderMeans(plan: Plan, order: seq<Node>)
    requires var graph := GraphOf(Keyed(plan.tasks), Keyed(plan.milestones));
      Topological(graph, order) && forall a :: a in graph <==> a in order
    ensures Ordered(plan, order)
  {
    hide Keyed, GraphOf, IsNode, DependsOn;
    var graph := GraphOf(Keyed(plan.tasks), Keyed(plan.milestones));
    GraphDraws(plan);
    forall i, b | 0 <= i < |order| && DependsOn(plan, order[i], b)
      ensures b in order[..i]
    {
      assert order[i] in graph && b in graph[order[i]];
    }
  }

  method TakeKeyed(items: seq<Item>) returns (keyed: map<string, Item>)
    ensures keyed == Keyed(items)
  {
    keyed := map[];
    var n := 0;
    while n < |items|
      invariant 0 <= n <= |items|
      invariant keyed == Keyed(items[..n])
    {
      assert items[..n + 1][..n] == items[..n];
      keyed := keyed[items[n].id := items[n]];
      n := n + 1;
    }
    assert items[..n] == items;
  }

  /** The dependencies of one node, each checked against the nodes. */
  method CheckDependencies(item: Item, nodes: set<Node>) returns (r: Result<seq<Node>, PlanError>)
    ensures r.Ok? <==> forall b :: b in DependenciesOf(item) ==> b in nodes
    ensures r.Ok? ==> r.value == DependenciesOf(item)
  {
    var targets: seq<Node> := [];
    var all := DependenciesOf(item);
    var k := 0;
    while k < |all|
      invariant 0 <= k <= |all|
      invariant targets == all[..k] && forall b :: b in targets ==> b in nodes
    {
      if all[k] !in nodes {
        return Err(UnknownDependency);
      }
      assert all[..k + 1] == all[..k] + [all[k]];
      targets := targets + [all[k]];
      k := k + 1;
    }
    assert all[..k] == all;
    return Ok(targets);
  }

  /** The edge lists of all nodes, in whatever order the nodes are taken. */
  method BuildEdges(tracks: set<string>, tasks: map<string, Item>, milestones: map<string, Item>)
    returns (r: Result<Edges, PlanError>)
    ensures r.Ok? <==>
      && (forall node :: node in NodesOf(tasks, milestones) ==> ItemOf(tasks, milestones, node).track in tracks)
      && ClosedGraph(GraphOf(tasks, milestones))
    ensures r.Ok? ==> r.value == GraphOf(tasks, milestones)
  {
    var nodes := NodesOf(tasks, milestones);
    ghost var graph := GraphOf(tasks, milestones);
    assert forall node :: node in graph <==> node in nodes;
    var edges: Edges := map[];
    var remaining := nodes;
    while remaining != {}
      invariant remaining <= nodes && edges.Keys == nodes - remaining
      invariant forall node :: node in edges ==>
        && edges[node] == DependenciesOf(ItemOf(tasks, milestones, node))
        && ItemOf(tasks, milestones, node).track in tracks && forall b :: b in edges[node] ==> b in nodes
      decreases remaining
    {
      var node :| node in remaining;
      var item := ItemOf(tasks, milestones, node);
      if item.track !in tracks {
        return Err(UnknownTrack);
      }
      var targets := CheckDependencies(item, nodes);
      if targets.Err? {
        assert graph[node] == DependenciesOf(item);
        return Err(UnknownDependency);
      }
      edges := edges[node := targets.value];
      remaining := remaining - {node};
    }
    assert edges == graph;
    return Ok(edges);
  }

  /** Visiting every node, in whatever order. */
  method CheckAcyclic(edges: Edges) returns (ok: bool, ghost order: seq<Node>)
    requires ClosedGraph(edges)
    ensures ok <==> !Cyclic(edges)
    ensures ok ==> Topological(edges, order) && forall a :: a in edges <==> a in order
  {
    var traversal := new Traversal(edges);
    order := [];
    var remaining := edges.Keys;
    while remaining != {}
      invariant remaining <= edges.Keys && traversal.edges == edges
      invariant fresh(traversal) && traversal.Valid() && traversal.stack == []
      invariant edges.Keys - remaining <= traversal.visited
      decreases remaining
    {
      var node :| node in remaining;
      ok := traversal.Visit(node);
      if !ok {
        return;
      }
      remaining := remaining - {node};
    }
    ok, order := true, traversal.order;
    AllFinished(edges, traversal.visited, order);
  }

  lemma AllFinished(edges: Edges, visited: set<Node>, order: seq<Node>)
    requires Gathers(visited, order) && Topological(edges, order) && edges.Keys <= visited
    ensures forall a :: a in edges <==> a in order
    ensures !Cyclic(edges)
  {
    assert forall a :: a in edges ==> a in visited;
    OrderedIsAcyclic(edges, order);
  }

  /** `verify_plan`: it also yields an order in which every item follows everything it depends on. */
  method VerifyPlan(plan: Plan) returns (r: Result<(nat, nat, nat), PlanError>, ghost order: seq<Node>)
    ensures r.Ok? <==> PlanSound(plan)
    ensures r.Ok? ==> r.value == (3, 18, 7) && Ordered(plan, order)
  {
    hide PlanSound, Ordered, Keyed, GraphOf, Cyclic, Topological;
    SoundMeans(plan);
    order := [];
    var tracks := set t | t in plan.tracks;
    var tasks := TakeKeyed(plan.tasks);
    var milestones := TakeKeyed(plan.milestones);
    if |tracks| != 3 || |tasks| != 18 || |milestones| != 7 {
      return Err(CardinalityDrift), order;
    }
    NodesHaveTracks(plan, tasks, milestones, tracks);
    var edges := BuildEdges(tracks, tasks, milestones);
    if edges.Err? {
      return Err(edges.error), order;
    }
    var acyclic;
    acyclic, order := CheckAcyclic(edges.value);
    if !acyclic {
      return Err(DependencyCycle), order;
    }
    OrderMeans(plan, order);
    return Ok((|tracks|, |tasks|, |milestones|)), order;
  }

  lemma NodesHaveTracks(plan: Plan, tasks: map<string, Item>, milestones: map<string, Item>, tracks: set<string>)
    requires tasks == Keyed(plan.tasks) && milestones == Keyed(plan.milestones)
    requires tracks == set t | t in plan.tracks
    ensures TracksKnown(plan) <==>
      forall node :: node in NodesOf(tasks, milestones) ==> ItemOf(tasks, milestones, node).track in tracks
  {
    if forall node :: node in NodesOf(tasks, milestones) ==> ItemOf(tasks, milestones, node).track in tracks {
      forall id | id in tasks
        ensures tasks[id].track in plan.tracks
      {
        assert Task(id) in NodesOf(tasks, milestones);
        assert ItemOf(tasks, milestones, Task(id)) == tasks[id];
      }
      forall id | id in milestones
        ensures milestones[id].track in plan.tracks
      {
        assert Milestone(id) in NodesOf(tasks, milestones);
        assert ItemOf(tasks, milestones, Milestone(id)) == milestones[id];
      }
    }
  }
}
