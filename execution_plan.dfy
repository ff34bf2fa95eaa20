/**
 * The execution plan of a task graph: a depth-first topological order that
 * rejects cycles, one step per node in that order, the level of each node
 * (its longest distance from a start node) and the groups of nodes that share
 * a level and so may run in parallel.
 */
module ExecutionPlan {
  import opened Wrappers
  import opened Sequences
  import opened TaskPlanning

  const CYCLE_MESSAGE := "任务图中存在循环依赖: "
  const GROUP_PREFIX := "parallel_group_"
  const PROCESS_DURATION := 1000

  datatype Step = Step(nodeId: string, name: string, estimatedDuration: int)

  datatype ParallelGroup = ParallelGroup(groupId: string, nodeIds: seq<string>)

  /** The plan; `parallelGroups` is absent when no level has two or more nodes. */
  datatype Plan = Plan(steps: seq<Step>, parallelGroups: Option<seq<ParallelGroup>>)

  // ---------------------------------------------------------------------------
  // Lookups on the graph

  function NodeIds(nodes: seq<TaskNode>): set<string> {
    set i | 0 <= i < |nodes| :: nodes[i].id
  }

  function Endpoints(edges: seq<Edge>): set<string> {
    (set e | e in edges :: e.from) + (set e | e in edges :: e.to)
  }

  /** Every edge starts and ends at a declared node. */
  predicate EndpointsExist(graph: TaskGraph) {
    forall e :: e in graph.edges ==> e.from in NodeIds(graph.nodes) && e.to in NodeIds(graph.nodes)
  }

  /** The first node with the given id. */
  function FindNode(nodes: seq<TaskNode>, id: string): (r: Option<TaskNode>)
    ensures r.None? <==> id !in NodeIds(nodes)
    ensures r.Some? ==> r.value.id == id
    ensures r.Some? ==> exists i :: 0 <= i < |nodes| && nodes[i] == r.value && (forall j :: 0 <= j < i ==> nodes[j].id != id)
  {
    if nodes == [] then None
    else if nodes[0].id == id then Some(nodes[0])
    else
      var r := FindNode(nodes[1..], id);
      assert NodeIds(nodes) == {nodes[0].id} + NodeIds(nodes[1..]) by {
        forall x | x in NodeIds(nodes) ensures x in {nodes[0].id} + NodeIds(nodes[1..]) {
          var i :| 0 <= i < |nodes| && nodes[i].id == x;
          if i > 0 { assert nodes[1..][i - 1] == nodes[i]; }
        }
        forall x | x in NodeIds(nodes[1..]) ensures x in NodeIds(nodes) {
          var i :| 0 <= i < |nodes[1..]| && nodes[1..][i].id == x;
          assert nodes[i + 1] == nodes[1..][i];
        }
      }
      if r.Some? then
        var i :| 0 <= i < |nodes[1..]| && nodes[1..][i] == r.value && forall j :: 0 <= j < i ==> nodes[1..][j].id != id;
        assert nodes[i + 1] == r.value;
        assert forall j :: 0 <= j < i + 1 ==> nodes[j].id != id by {
          forall j | 0 <= j < i + 1 ensures nodes[j].id != id {
            if j > 0 { assert nodes[j] == nodes[1..][j - 1]; }
          }
        }
        r
      else r
  }

  /** The edges leaving a node, in edge order. */
  function Outgoing(edges: seq<Edge>, id: string): (r: seq<Edge>)
    ensures forall e :: e in r <==> e in edges && e.from == id
  {
    if edges == [] then []
    else
      var rest := Outgoing(edges[1..], id);
      assert forall e :: e in edges <==> e == edges[0] || e in edges[1..];
      if edges[0].from == id then [edges[0]] + rest else rest
  }

  // ---------------------------------------------------------------------------
  // Orders and cycles

  /** The position of the first occurrence of `x` in `s`. */
  function IndexOf(s: seq<string>, x: string): (i: nat)
    requires x in s
    ensures i < |s| && s[i] == x
    ensures forall j :: 0 <= j < i ==> s[j] != x
  {
    if s[0] == x then 0 else 1 + IndexOf(s[1..], x)
  }

  /** `u` comes before `v` in `order`. */
  predicate Precedes(order: seq<string>, u: string, v: string) {
    u in order && v in order && IndexOf(order, u) < IndexOf(order, v)
  }

  /** Every edge goes forward in `order`. */
  predicate EdgesForward(order: seq<string>, edges: seq<Edge>) {
    forall e :: e in edges ==> Precedes(order, e.from, e.to)
  }

  /** Putting a new first element keeps every earlier precedence and puts
      the new element before everything else. */
  lemma PrependPrecedes(order: seq<string>, x: string)
    requires x !in order
    ensures forall u, v :: Precedes(order, u, v) ==> Precedes([x] + order, u, v)
    ensures forall v :: v in order ==> Precedes([x] + order, x, v)
  {
    var s := [x] + order;
    assert s[1..] == order;
    forall v | v in order ensures IndexOf(s, v) == 1 + IndexOf(order, v) {
    }
  }

  /** A cycle: a non-empty path of edges that ends where it starts. */
  ghost predicate IsCycle(edges: seq<Edge>, path: seq<Edge>) {
    && |path| > 0
    && (forall i :: 0 <= i < |path| ==> path[i] in edges)
    && (forall i :: 0 <= i < |path| - 1 ==> path[i].to == path[i + 1].from)
    && path[|path| - 1].to == path[0].from
  }

  /** Some cycle of the graph starts and ends at `x`. */
  ghost predicate CycleThrough(edges: seq<Edge>, x: string) {
    exists path: seq<Edge> :: IsCycle(edges, path) && path[0].from == x
  }

  /** A chain of edges from `stack[k] == x` to the top of `stack`, followed
      by an edge from the top back to `x`, is a cycle through `x`. */
  lemma StackCycle(edges: seq<Edge>, stack: seq<string>, k: nat, x: string)
    requires k < |stack| && stack[k] == x
    requires forall j :: 0 <= j < |stack| - 1 ==> Edge(stack[j], stack[j + 1]) in edges
    requires Edge(stack[|stack| - 1], x) in edges
    ensures CycleThrough(edges, x)
  {
    var n := |stack| - 1 - k;
    var chain := seq(n, j requires 0 <= j < n => Edge(stack[k + j], stack[k + j + 1]));
    var path := chain + [Edge(stack[|stack| - 1], x)];
    assert forall j :: 0 <= j < n ==> path[j] == Edge(stack[k + j], stack[k + j + 1]);
    assert path[n] == Edge(stack[|stack| - 1], x);
    assert IsCycle(edges, path);
  }

  /** A graph whose edges all go forward in some order has no cycle. */
  lemma ForwardEdgesNoCycle(order: seq<string>, edges: seq<Edge>, path: seq<Edge>)
    requires EdgesForward(order, edges)
    ensures !IsCycle(edges, path)
  {
    if IsCycle(edges, path) {
      var start := path[0].from;
      assert Precedes(order, start, path[0].to);
      var i := 0;
      while i < |path| - 1
        invariant 0 <= i < |path|
        invariant path[i].to in order && IndexOf(order, path[i].to) > IndexOf(order, start)
      {
        assert path[i + 1] in edges;
        i := i + 1;
      }
    }
  }

  // ---------------------------------------------------------------------------
  // Depth-first topological order

  /** The state of the depth-first search: the nodes on the current path
      (`temp`), the finished ones (`visited`) and the finished ones in
      reverse finishing order (`order`). A missing node entered by an edge is
      put on the path and never taken off it. The ghost `stack` lists the
      declared nodes of the path in the order they were entered; each has an
      edge to the next. */
  class TopologicalSorter {
    const graph: TaskGraph
    ghost const ids: set<string>
    ghost const universe: set<string>
    var temp: set<string>
    var visited: set<string>
    var order: seq<string>
    ghost var stack: seq<string>

    ghost predicate Valid()
      reads this
    {
      && ids == NodeIds(graph.nodes)
      && universe == ids + Endpoints(graph.edges)
      && (forall x :: x in temp ==> x !in visited)
      && temp + visited <= universe
      && visited <= ids
      && Distinct(order)
      && (forall x :: x in order <==> x in visited)
      && (forall e :: e in graph.edges && e.from in visited ==> e.to in visited || e.to !in ids)
      && (forall e :: e in graph.edges && e.from in visited && e.to in visited ==> Precedes(order, e.from, e.to))
      && Distinct(stack)
      && temp * ids == (set x | x in stack)
      && (forall k :: 0 <= k < |stack| - 1 ==> Edge(stack[k], stack[k + 1]) in graph.edges)
    }

    /** `nodeId` is entered from the top of the stack, or from outside. */
    ghost predicate EnteredFromTop(nodeId: string)
      reads this
    {
      stack == [] || Edge(stack[|stack| - 1], nodeId) in graph.edges
    }

    /** `nodeId` is the node on top of the stack. */
    ghost predicate OnTop(nodeId: string)
      reads this
    {
      stack != [] && stack[|stack| - 1] == nodeId
    }

    constructor (graph: TaskGraph)
      ensures Valid() && this.graph == graph
      ensures temp == {} && visited == {} && order == [] && stack == []
    {
      this.graph := graph;
      ids := NodeIds(graph.nodes);
      universe := NodeIds(graph.nodes) + Endpoints(graph.edges);
      temp, visited, order := {}, {}, [];
      stack := [];
    }

    /** Visits `nodeId`: a node on the current path is a cycle; a finished
        node is skipped; otherwise the node's successors are visited and the
        node is finished and put first in the order. */
    method Visit(nodeId: string) returns (error: Option<string>)
      requires Valid() && nodeId in universe && EnteredFromTop(nodeId)
      modifies this
      decreases |universe - (temp + visited)|, 1
      ensures Valid()
      ensures old(visited) <= visited && old(temp + visited) <= temp + visited
      ensures nodeId in old(temp) ==>
        error == Some(CYCLE_MESSAGE + nodeId) && temp == old(temp) && visited == old(visited) && order == old(order)
      ensures nodeId in old(visited) ==>
        error == None && temp == old(temp) && visited == old(visited) && order == old(order)
      ensures error.None? ==> old(temp) <= temp && temp - old(temp) <= universe - ids
      ensures error.None? ==> nodeId in visited || (nodeId !in ids && nodeId in temp)
      ensures error.None? ==> stack == old(stack)
      ensures error.Some? ==> CycleReported(error.value)
    {
      if nodeId in temp {
        PathCycle(nodeId);
        return Some(CYCLE_MESSAGE + nodeId);
      }
      if nodeId in visited {
        return None;
      }
      error := Explore(nodeId);
    }

    /** Visits a node seen for the first time: it is put on the path, its
        successors are visited and, if it is declared, it is finished. */
    method Explore(nodeId: string) returns (error: Option<string>)
      requires Valid() && nodeId in universe && EnteredFromTop(nodeId) && nodeId !in temp && nodeId !in visited
      modifies this
      decreases |universe - (temp + visited)|, 0
      ensures Valid() && Extends(old(temp), old(visited))
      ensures error.None? ==> PathKept(old(temp)) && stack == old(stack)
      ensures error.None? ==> nodeId in visited || (nodeId !in ids && nodeId in temp)
      ensures error.Some? ==> CycleReported(error.value)
    {
      ghost var before := temp + visited;
      var found := Enter(nodeId);
      if !found {
        return None;
      }
      DifferenceShrinks(universe, before, temp + visited, nodeId);
      error := Descend(nodeId);
    }

    /** Visits the successors of the declared node on top of the stack and
        then finishes it. */
    method Descend(nodeId: string) returns (error: Option<string>)
      requires Valid() && nodeId in temp && nodeId in ids && nodeId !in visited && OnTop(nodeId)
      modifies this
      decreases |universe - (temp + visited)|, 4
      ensures Valid() && Extends(old(temp), old(visited))
      ensures error.None? ==> nodeId in visited && PathKept(old(temp) - {nodeId}) && stack == old(stack)[..|old(stack)| - 1]
      ensures error.Some? ==> CycleReported(error.value)
    {
      error := VisitSuccessors(nodeId, Outgoing(graph.edges, nodeId));
      if error.Some? {
        return;
      }
      Finish(nodeId);
    }

    /** Re-entering a node on the path closes a cycle through it, when the
        node is declared. */
    lemma PathCycle(nodeId: string)
      requires Valid() && nodeId in temp && EnteredFromTop(nodeId)
      ensures CycleReported(CYCLE_MESSAGE + nodeId)
    {
      if nodeId in ids {
        assert nodeId in temp * ids;
        var k :| 0 <= k < |stack| && stack[k] == nodeId;
        StackCycle(graph.edges, stack, k, nodeId);
      }
    }

    /** Puts a node on the path; a declared node also goes on the stack. */
    method Enter(nodeId: string) returns (found: bool)
      requires Valid() && nodeId in universe && nodeId !in temp && nodeId !in visited && EnteredFromTop(nodeId)
      modifies this
      ensures Valid() && found == (nodeId in ids)
      ensures temp == old(temp) + {nodeId} && visited == old(visited) && order == old(order)
      ensures stack == if found then old(stack) + [nodeId] else old(stack)
    {
      temp := temp + {nodeId};
      var node := FindNode(graph.nodes, nodeId);
      found := node.Some?;
      if found {
        assert nodeId !in stack by {
          assert nodeId !in old(temp) * ids;
        }
        stack := stack + [nodeId];
        assert temp * ids == old(temp) * ids + {nodeId};
      } else {
        assert temp * ids == old(temp) * ids;
      }
    }

    /** Nothing finished or entered is forgotten. */
    ghost predicate Extends(temp0: set<string>, visited0: set<string>)
      reads this
    {
      visited0 <= visited && temp0 + visited0 <= temp + visited
    }

    /** The path is as it was, save for missing nodes entered since. */
    ghost predicate PathKept(temp0: set<string>)
      reads this
    {
      temp0 <= temp && temp - temp0 <= universe - ids
    }

    /** The message reports a node of the graph that lies on a cycle, or
        else names no declared node: a missing node is left on the path, so a
        second edge into it is reported as a cycle too. */
    ghost predicate CycleReported(message: string)
      reads this
    {
      exists x :: x in universe && message == CYCLE_MESSAGE + x && (x in ids ==> CycleThrough(graph.edges, x))
    }

    /** Visits the targets of the given edges of a node on the path, in order,
        stopping at the first cycle. */
    method VisitSuccessors(nodeId: string, outgoing: seq<Edge>) returns (error: Option<string>)
      requires Valid() && nodeId in temp && nodeId in ids && nodeId !in visited && OnTop(nodeId)
      requires forall e :: e in outgoing ==> e in graph.edges && e.from == nodeId
      modifies this
      decreases |universe - (temp + visited)|, 3, |outgoing|
      ensures Valid() && Extends(old(temp), old(visited))
      ensures error.None? ==> nodeId in temp && nodeId !in visited && PathKept(old(temp))
      ensures error.None? ==> forall e :: e in outgoing ==> e.to in visited || e.to !in ids
      ensures error.None? ==> stack == old(stack)
      ensures error.Some? ==> CycleReported(error.value)
    {
      if outgoing == [] {
        return None;
      }
      ghost var temp0, visited0 := temp, visited;
      error := VisitEdge(nodeId, outgoing[0]);
      if error.Some? {
        return;
      }
      DifferenceNotLarger(universe, temp0 + visited0, temp + visited);
      ghost var temp1, visited1 := temp, visited;
      error := VisitSuccessors(nodeId, outgoing[1..]);
      if error.None? {
        assert outgoing[0].to in visited1 || outgoing[0].to !in ids;
        assert forall e :: e in outgoing ==> e == outgoing[0] || e in outgoing[1..];
      }
    }

    /** Visits the target of one edge of a node on the path. */
    method VisitEdge(nodeId: string, e: Edge) returns (error: Option<string>)
      requires Valid() && nodeId in temp && nodeId !in visited && e in graph.edges && e.from == nodeId && OnTop(nodeId)
      modifies this
      decreases |universe - (temp + visited)|, 2
      ensures Valid() && Extends(old(temp), old(visited))
      ensures error.None? ==> nodeId in temp && nodeId !in visited && PathKept(old(temp))
      ensures error.None? ==> e.to in visited || e.to !in ids
      ensures error.None? ==> stack == old(stack)
      ensures error.Some? ==> CycleReported(error.value)
    {
      error := Visit(e.to);
    }

    /** Finishes a node whose successors are all finished (or missing): it
        leaves the path and is put first in the order. */
    method Finish(nodeId: string)
      requires Valid() && nodeId in temp && nodeId in ids && nodeId !in visited && OnTop(nodeId)
      requires forall e :: e in graph.edges && e.from == nodeId ==> e.to in visited || e.to !in ids
      modifies this
      ensures Valid()
      ensures temp == old(temp) - {nodeId} && visited == old(visited) + {nodeId} && order == [nodeId] + old(order)
      ensures stack == old(stack)[..|old(stack)| - 1]
    {
      PrependPrecedes(order, nodeId);
      temp := temp - {nodeId};
      visited := visited + {nodeId};
      order := [nodeId] + order;
      ghost var top := stack;
      stack := stack[..|stack| - 1];
      assert top == stack + [nodeId];
      assert nodeId !in stack;
      assert temp * ids == old(temp) * ids - {nodeId};
    }
  }

  /** Removing more of a set from `u` leaves no more of it. */
  lemma DifferenceNotLarger(u: set<string>, a: set<string>, b: set<string>)
    requires a <= b
    ensures |u - b| <= |u - a|
  {
    SubsetCardinality(u - b, u - a);
  }

  /** Removing more of a set from `u` leaves less of it. */
  lemma DifferenceShrinks(u: set<string>, a: set<string>, b: set<string>, x: string)
    requires a + {x} <= b && x in u && x !in a
    ensures |u - b| < |u - a|
  {
    assert u - b <= (u - a) - {x};
    SubsetCardinality(u - b, (u - a) - {x});
  }

  lemma {:induction false} SubsetCardinality(a: set<string>, b: set<string>)
    requires a <= b
    ensures |a| <= |b|
    decreases |b|
  {
    if a != {} {
      var x :| x in a;
      SubsetCardinality(a - {x}, b - {x});
    }
  }

  /** The depth-first order of a graph: visits each declared node in turn and
      reports the first cycle it runs into. On success every declared node
      appears exactly once, nothing else appears, and every edge between
      declared nodes goes forward. */
  method TopologicalOrder(graph: TaskGraph) returns (r: Result<seq<string>, string>)
    ensures r.Ok? ==> Distinct(r.value) && (forall x :: x in r.value <==> x in NodeIds(graph.nodes))
    ensures r.Ok? ==> forall e :: e in graph.edges && e.from in NodeIds(graph.nodes) && e.to in NodeIds(graph.nodes) ==>
      Precedes(r.value, e.from, e.to)
    ensures r.Err? ==> exists x ::
      && x in NodeIds(graph.nodes) + Endpoints(graph.edges)
      && r.error == CYCLE_MESSAGE + x
      && (x in NodeIds(graph.nodes) ==> CycleThrough(graph.edges, x))
  {
    var sorter := new TopologicalSorter(graph);
    var i := 0;
    while i < |graph.nodes|
      invariant 0 <= i <= |graph.nodes|
      invariant sorter.Valid() && sorter.graph == graph && fresh(sorter) && sorter.stack == []
      invariant forall m :: 0 <= m < i ==> graph.nodes[m].id in sorter.visited
    {
      var id := graph.nodes[i].id;
      if id !in sorter.visited {
        var error := sorter.Visit(id);
        if error.Some? {
          return Err(error.value);
        }
      }
      i := i + 1;
    }
    assert sorter.visited == NodeIds(graph.nodes);
    return Ok(sorter.order);
  }

  // ---------------------------------------------------------------------------
  // Steps

  function Duration(kind: NodeType): int {
    if kind == Process then PROCESS_DURATION else 0
  }

  /** One step per id of `order` that names a node, for the first such node. */
  function StepsOf(order: seq<string>, nodes: seq<TaskNode>): seq<Step> {
    if order == [] then []
    else
      var rest := StepsOf(order[..|order| - 1], nodes);
      match FindNode(nodes, order[|order| - 1])
      case None => rest
      case Some(n) => rest + [Step(n.id, n.name, Duration(n.kind))]
  }

  /** Builds the steps in the order given, skipping ids of no node. */
  method BuildSteps(order: seq<string>, nodes: seq<TaskNode>) returns (steps: seq<Step>)
    ensures steps == StepsOf(order, nodes)
  {
    steps := [];
    var i := 0;
    while i < |order|
      invariant 0 <= i <= |order|
      invariant steps == StepsOf(order[..i], nodes)
    {
      assert order[..i + 1][..i] == order[..i];
      var node := FindNode(nodes, order[i]);
      if node.Some? {
        steps := steps + [Step(node.value.id, node.value.name, Duration(node.value.kind))];
      }
      i := i + 1;
    }
    assert order[..i] == order;
  }

  function StepIds(steps: seq<Step>): (r: seq<string>)
    ensures |r| == |steps| && forall i :: 0 <= i < |steps| ==> r[i] == steps[i].nodeId
  {
    seq(|steps|, i requires 0 <= i < |steps| => steps[i].nodeId)
  }

  /** When every id names a node, there is exactly one step per id, in order,
      carrying the name of the first node with that id and a duration of 1000
      for a processing node and 0 for any other. */
  lemma StepsOfFound(order: seq<string>, nodes: seq<TaskNode>)
    requires forall x :: x in order ==> x in NodeIds(nodes)
    ensures StepIds(StepsOf(order, nodes)) == order
    ensures forall i :: 0 <= i < |order| ==>
      var n := FindNode(nodes, order[i]).value;
      StepsOf(order, nodes)[i] == Step(order[i], n.name, Duration(n.kind))
  {
    StepsOfFoundIds(order, nodes);
    StepsOfFoundEntries(order, nodes);
  }

  /** The last id of the order gives the last step. */
  lemma StepsOfLast(order: seq<string>, nodes: seq<TaskNode>)
    requires order != [] && order[|order| - 1] in NodeIds(nodes)
    ensures var n := FindNode(nodes, order[|order| - 1]).value;
      StepsOf(order, nodes) == StepsOf(order[..|order| - 1], nodes) + [Step(order[|order| - 1], n.name, Duration(n.kind))]
  {
  }

  lemma {:induction false} StepsOfFoundIds(order: seq<string>, nodes: seq<TaskNode>)
    requires forall x :: x in order ==> x in NodeIds(nodes)
    ensures StepIds(StepsOf(order, nodes)) == order
  {
    if order != [] {
      var front, last := order[..|order| - 1], order[|order| - 1];
      assert forall x :: x in front ==> x in order;
      StepsOfFoundIds(front, nodes);
      StepsOfLast(order, nodes);
      var rest := StepsOf(front, nodes);
      var n := FindNode(nodes, last).value;
      assert StepIds(rest + [Step(last, n.name, Duration(n.kind))]) == StepIds(rest) + [last];
      assert front + [last] == order;
    }
  }

  lemma {:induction false} StepsOfFoundEntries(order: seq<string>, nodes: seq<TaskNode>)
    requires forall x :: x in order ==> x in NodeIds(nodes)
    ensures |StepsOf(order, nodes)| == |order|
    ensures forall i :: 0 <= i < |order| ==>
      var n := FindNode(nodes, order[i]).value;
      StepsOf(order, nodes)[i] == Step(order[i], n.name, Duration(n.kind))
  {
    if order != [] {
      var front, last := order[..|order| - 1], order[|order| - 1];
      assert forall x :: x in front ==> x in order;
      StepsOfFoundEntries(front, nodes);
      StepsOfLast(order, nodes);
      var rest := StepsOf(front, nodes);
      var steps := StepsOf(order, nodes);
      forall i | 0 <= i < |order|
        ensures steps[i] == Step(order[i], FindNode(nodes, order[i]).value.name, Duration(FindNode(nodes, order[i]).value.kind))
      {
        if i < |front| {
          assert steps[i] == rest[i] && order[i] == front[i];
        }
      }
    }
  }

  // ---------------------------------------------------------------------------
  // Levels

  /** Some node with this id is a start node. */
  ghost predicate HasStart(nodes: seq<TaskNode>, id: string) {
    exists i :: 0 <= i < |nodes| && nodes[i].id == id && nodes[i].kind == Start
  }

  lemma NodeIdsSnoc(nodes: seq<TaskNode>, n: TaskNode)
    ensures NodeIds(nodes + [n]) == NodeIds(nodes) + {n.id}
  {
    var all := nodes + [n];
    forall x | x in NodeIds(all) ensures x in NodeIds(nodes) + {n.id} {
      var i :| 0 <= i < |all| && all[i].id == x;
      if i < |nodes| { assert all[i] == nodes[i]; }
    }
    forall x | x in NodeIds(nodes) ensures x in NodeIds(all) {
      var i :| 0 <= i < |nodes| && nodes[i].id == x;
      assert all[i] == nodes[i];
    }
    assert all[|nodes|] == n;
  }

  /** The ids of the nodes, each once, in order of first appearance: the
      order in which the level table first receives its keys. */
  function DistinctIds(nodes: seq<TaskNode>): (r: seq<string>)
    ensures Distinct(r) && forall x :: x in r <==> x in NodeIds(nodes)
  {
    if nodes == [] then []
    else
      var front := nodes[..|nodes| - 1];
      var last := nodes[|nodes| - 1];
      var r := DistinctIds(front);
      assert front + [last] == nodes;
      NodeIdsSnoc(front, last);
      if last.id in r then r else r + [last.id]
  }

  /** Builds the level table as the source does: every node at -1 (keys in
      order of first appearance), then every start node at 0. */
  method InitLevels(nodes: seq<TaskNode>) returns (levels: map<string, int>, keys: seq<string>)
    ensures keys == DistinctIds(nodes) && levels.Keys == NodeIds(nodes)
    ensures forall id :: id in levels ==> levels[id] == if HasStart(nodes, id) then 0 else -1
  {
    levels, keys := UnlevelledTable(nodes);
    levels := LevelStartNodes(nodes, levels);
  }

  /** Puts every node's id at -1, adding each key the first time it is set. */
  method UnlevelledTable(nodes: seq<TaskNode>) returns (levels: map<string, int>, keys: seq<string>)
    ensures keys == DistinctIds(nodes) && levels.Keys == NodeIds(nodes)
    ensures forall id :: id in levels ==> levels[id] == -1
  {
    levels, keys := map[], [];
    var i := 0;
    while i < |nodes|
      invariant 0 <= i <= |nodes|
      invariant keys == DistinctIds(nodes[..i]) && levels.Keys == NodeIds(nodes[..i])
      invariant forall id :: id in levels ==> levels[id] == -1
    {
      var id := nodes[i].id;
      DistinctIdsPrefix(nodes, i);
      if id !in levels {
        keys := keys + [id];
      }
      levels := levels[id := -1];
      i := i + 1;
    }
    assert nodes[..i] == nodes;
  }

  /** Extending the prefix by one node adds its id to the keys and to the
      id set unless it is already there. */
  lemma DistinctIdsPrefix(nodes: seq<TaskNode>, i: nat)
    requires i < |nodes|
    ensures NodeIds(nodes[..i + 1]) == NodeIds(nodes[..i]) + {nodes[i].id}
    ensures DistinctIds(nodes[..i + 1]) ==
      var r := DistinctIds(nodes[..i]);
      if nodes[i].id in r then r else r + [nodes[i].id]
  {
    var all := nodes[..i + 1];
    assert all == nodes[..i] + [nodes[i]];
    assert all[..|all| - 1] == nodes[..i];
    NodeIdsSnoc(nodes[..i], nodes[i]);
  }

  lemma HasStartSnoc(nodes: seq<TaskNode>, j: nat)
    requires j < |nodes|
    ensures forall id :: HasStart(nodes[..j + 1], id) <==> HasStart(nodes[..j], id) || (nodes[j].id == id && nodes[j].kind == Start)
  {
    forall id ensures HasStart(nodes[..j + 1], id) <==> HasStart(nodes[..j], id) || (nodes[j].id == id && nodes[j].kind == Start) {
      if HasStart(nodes[..j + 1], id) {
        var m :| 0 <= m < j + 1 && nodes[..j + 1][m].id == id && nodes[..j + 1][m].kind == Start;
        if m < j { assert nodes[..j][m] == nodes[..j + 1][m]; }
      }
      if HasStart(nodes[..j], id) {
        var m :| 0 <= m < j && nodes[..j][m].id == id && nodes[..j][m].kind == Start;
        assert nodes[..j + 1][m] == nodes[..j][m];
      }
      if nodes[j].id == id && nodes[j].kind == Start {
        assert nodes[..j + 1][j] == nodes[j];
      }
    }
  }

  /** Puts every start node's id at 0. */
  method LevelStartNodes(nodes: seq<TaskNode>, table: map<string, int>) returns (levels: map<string, int>)
    requires table.Keys == NodeIds(nodes) && forall id :: id in table ==> table[id] == -1
    ensures levels.Keys == NodeIds(nodes)
    ensures forall id :: id in levels ==> levels[id] == if HasStart(nodes, id) then 0 else -1
  {
    levels := table;
    var j := 0;
    while j < |nodes|
      invariant 0 <= j <= |nodes|
      invariant levels.Keys == NodeIds(nodes)
      invariant forall id :: id in levels ==> levels[id] == if HasStart(nodes[..j], id) then 0 else -1
    {
      HasStartSnoc(nodes, j);
      if nodes[j].kind == Start {
        assert nodes[j].id in NodeIds(nodes);
        levels := levels[nodes[j].id := 0];
      }
      j := j + 1;
    }
    assert nodes[..j] == nodes;
  }

  /** The relaxation rule holds for an edge: a levelled source puts the target
      at least one level further. */
  predicate Relaxed(levels: map<string, int>, e: Edge) {
    e.from in levels && levels[e.from] != -1 ==> e.to in levels && levels[e.to] >= levels[e.from] + 1
  }

  ghost predicate Fixpoint(levels: map<string, int>, graph: TaskGraph) {
    forall e :: e in graph.edges ==> Relaxed(levels, e)
  }

  /** Every level is accounted for: level 0 belongs to a start node, and a
      higher level is at most one more than some predecessor's. */
  ghost predicate Supported(levels: map<string, int>, graph: TaskGraph) {
    forall id :: id in levels ==>
      && (levels[id] == 0 ==> HasStart(graph.nodes, id))
      && (levels[id] >= 1 ==> exists e :: e in graph.edges && e.to == id && e.from in levels && levels[e.from] >= levels[id] - 1)
  }

  /** The finished level table: one entry per node, -1 for unlevelled nodes,
      start nodes levelled, every edge relaxed, every level accounted for. */
  ghost predicate Leveled(levels: map<string, int>, graph: TaskGraph) {
    && levels.Keys == NodeIds(graph.nodes)
    && (forall id :: id in levels ==> levels[id] >= -1)
    && (forall id :: id in levels && HasStart(graph.nodes, id) ==> levels[id] >= 0)
    && Fixpoint(levels, graph)
    && Supported(levels, graph)
  }

  /** `topo` lists every node once and every edge goes forward in it. */
  ghost predicate TopologicalOrderOf(topo: seq<string>, graph: TaskGraph) {
    Distinct(topo) && (forall x :: x in topo <==> x in NodeIds(graph.nodes)) && EdgesForward(topo, graph.edges)
  }

  /** What the relaxation keeps: no level exceeds its node's position in a
      topological order, which bounds how often a level can rise. */
  ghost predicate Relaxing(levels: map<string, int>, graph: TaskGraph, topo: seq<string>) {
    && levels.Keys == NodeIds(graph.nodes)
    && (forall id :: id in levels ==> -1 <= levels[id] && (id in topo ==> levels[id] <= IndexOf(topo, id)))
    && (forall id :: id in levels && HasStart(graph.nodes, id) ==> levels[id] >= 0)
    && Supported(levels, graph)
  }

  /** How far the levels may still rise in total. */
  ghost function Potential(levels: map<string, int>, keys: seq<string>, topo: seq<string>): int {
    if keys == [] then 0
    else
      var k := keys[0];
      (if k in levels && k in topo then IndexOf(topo, k) - levels[k] else 0) + Potential(levels, keys[1..], topo)
  }

  lemma {:induction false} PotentialNonnegative(levels: map<string, int>, keys: seq<string>, topo: seq<string>)
    requires forall k :: k in keys ==> k in levels && k in topo && levels[k] <= IndexOf(topo, k)
    ensures Potential(levels, keys, topo) >= 0
  {
    if keys != [] {
      assert forall k :: k in keys[1..] ==> k in keys;
      PotentialNonnegative(levels, keys[1..], topo);
    }
  }

  lemma {:induction false} PotentialUnaffected(levels: map<string, int>, keys: seq<string>, topo: seq<string>, x: string, v: int)
    requires forall k :: k in keys ==> k in levels && k in topo
    requires x !in keys && x in levels
    ensures Potential(levels[x := v], keys, topo) == Potential(levels, keys, topo)
  {
    if keys != [] {
      assert forall k :: k in keys[1..] ==> k in keys;
      PotentialUnaffected(levels, keys[1..], topo, x, v);
    }
  }

  /** Raising one level lowers the potential by as much. */
  lemma {:induction false} PotentialRaise(levels: map<string, int>, keys: seq<string>, topo: seq<string>, x: string, v: int)
    requires forall k :: k in keys ==> k in levels && k in topo
    requires Distinct(keys) && x in keys
    ensures Potential(levels[x := v], keys, topo) == Potential(levels, keys, topo) - (v - levels[x])
  {
    assert forall k :: k in keys[1..] ==> k in keys;
    if keys[0] == x {
      assert x !in keys[1..] by {
        forall i | 0 <= i < |keys[1..]| ensures keys[1..][i] != x {
          assert keys[1..][i] == keys[i + 1];
        }
      }
      PotentialUnaffected(levels, keys[1..], topo, x, v);
    } else {
      assert x in keys[1..];
      assert Distinct(keys[1..]) by {
        forall i, j | 0 <= i < j < |keys[1..]| ensures keys[1..][i] != keys[1..][j] {
          assert keys[1..][i] == keys[i + 1] && keys[1..][j] == keys[j + 1];
        }
      }
      PotentialRaise(levels, keys[1..], topo, x, v);
    }
  }

  /** Raising the target of an edge whose rule fails to one past its source
      keeps the relaxation's invariant. */
  lemma RaiseKeepsRelaxing(graph: TaskGraph, levels: map<string, int>, e: Edge, topo: seq<string>)
    requires EndpointsExist(graph) && TopologicalOrderOf(topo, graph) && e in graph.edges
    requires Relaxing(levels, graph, topo)
    requires e.from in levels && e.to in levels && levels[e.from] != -1 && levels[e.to] < levels[e.from] + 1
    ensures Relaxing(levels[e.to := levels[e.from] + 1], graph, topo)
  {
    var next := levels[e.to := levels[e.from] + 1];
    assert next.Keys == levels.Keys;
    assert Precedes(topo, e.from, e.to);
    forall id | id in next
      ensures -1 <= next[id] && (id in topo ==> next[id] <= IndexOf(topo, id))
      ensures HasStart(graph.nodes, id) ==> next[id] >= 0
    {
      if id != e.to {
        assert next[id] == levels[id];
      }
    }
    RaiseKeepsSupported(graph, levels, e);
  }

  lemma RaiseKeepsSupported(graph: TaskGraph, levels: map<string, int>, e: Edge)
    requires e in graph.edges && Supported(levels, graph)
    requires e.from in levels && e.to in levels && levels[e.from] != -1 && levels[e.to] < levels[e.from] + 1
    ensures Supported(levels[e.to := levels[e.from] + 1], graph)
  {
    var next := levels[e.to := levels[e.from] + 1];
    forall id | id in next
      ensures next[id] == 0 ==> HasStart(graph.nodes, id)
      ensures next[id] >= 1 ==> exists f :: f in graph.edges && f.to == id && f.from in next && next[f.from] >= next[id] - 1
    {
      if id == e.to {
        assert e.from in next && next[e.from] >= levels[e.from];
      } else if next[id] >= 1 {
        assert next[id] == levels[id];
        var f :| f in graph.edges && f.to == id && f.from in levels && levels[f.from] >= levels[id] - 1;
        assert f.from in next && next[f.from] >= levels[f.from];
      }
    }
  }

  /** Applies the relaxation rule to one edge. */
  method RelaxEdge(graph: TaskGraph, levels: map<string, int>, e: Edge, ghost topo: seq<string>, ghost keys: seq<string>)
    returns (next: map<string, int>, updated: bool)
    requires EndpointsExist(graph) && TopologicalOrderOf(topo, graph) && e in graph.edges
    requires keys == DistinctIds(graph.nodes) && Relaxing(levels, graph, topo)
    ensures Relaxing(next, graph, topo)
    ensures updated ==> Potential(next, keys, topo) < Potential(levels, keys, topo)
    ensures !updated ==> next == levels && Relaxed(levels, e)
  {
    var fromLevel := if e.from in levels then levels[e.from] else -1;
    var toLevel := if e.to in levels then levels[e.to] else -1;
    if fromLevel != -1 && (toLevel == -1 || toLevel < fromLevel + 1) {
      next := levels[e.to := levels[e.from] + 1];
      RaiseKeepsRelaxing(graph, levels, e, topo);
      PotentialRaise(levels, keys, topo, e.to, levels[e.from] + 1);
      updated := true;
      return;
    }
    return levels, false;
  }

  /** What a pass has established after the edges `done`: either some level
      rose, lowering the potential, or nothing changed and every edge in
      `done` is relaxed. */
  ghost predicate PassSoFar(levels: map<string, int>, next: map<string, int>, changed: bool, edges: seq<Edge>, j: int, keys: seq<string>, topo: seq<string>) {
    && (changed ==> Potential(next, keys, topo) < Potential(levels, keys, topo))
    && (!changed ==> next == levels && forall m :: 0 <= m < j && m < |edges| ==> Relaxed(levels, edges[m]))
  }

  lemma PassStep(levels: map<string, int>, previous: map<string, int>, next: map<string, int>, changed: bool, updated: bool,
                 edges: seq<Edge>, j: nat, keys: seq<string>, topo: seq<string>)
    requires j < |edges| && PassSoFar(levels, previous, changed, edges, j, keys, topo)
    requires updated ==> Potential(next, keys, topo) < Potential(previous, keys, topo)
    requires !updated ==> next == previous && Relaxed(previous, edges[j])
    ensures PassSoFar(levels, next, changed || updated, edges, j + 1, keys, topo)
  {
  }

  /** One pass of the relaxation over every edge in order; reports whether
      any level rose. */
  method RelaxPass(graph: TaskGraph, levels: map<string, int>, ghost topo: seq<string>, ghost keys: seq<string>)
    returns (next: map<string, int>, changed: bool)
    requires EndpointsExist(graph) && TopologicalOrderOf(topo, graph)
    requires keys == DistinctIds(graph.nodes) && Relaxing(levels, graph, topo)
    ensures Relaxing(next, graph, topo)
    ensures changed ==> Potential(next, keys, topo) < Potential(levels, keys, topo)
    ensures !changed ==> next == levels && Fixpoint(levels, graph)
  {
    next, changed := levels, false;
    var j := 0;
    while j < |graph.edges|
      invariant 0 <= j <= |graph.edges|
      invariant Relaxing(next, graph, topo)
      invariant PassSoFar(levels, next, changed, graph.edges, j, keys, topo)
    {
      ghost var previous := next;
      var updated;
      next, updated := RelaxEdge(graph, next, graph.edges[j], topo, keys);
      PassStep(levels, previous, next, changed, updated, graph.edges, j, keys, topo);
      changed := changed || updated;
      j := j + 1;
    }
  }

  /** Computes every node's level: start nodes from 0, each edge pushing its
      target one level past its source, repeated until nothing changes. The
      repetition ends because the graph has a topological order `topo` and no
      level can pass its node's position in it. */
  method CalculateLevels(graph: TaskGraph, ghost topo: seq<string>) returns (levels: map<string, int>, keys: seq<string>)
    requires EndpointsExist(graph) && TopologicalOrderOf(topo, graph)
    ensures keys == DistinctIds(graph.nodes)
    ensures Leveled(levels, graph)
  {
    levels, keys := InitLevels(graph.nodes);
    var changed := true;
    while changed
      invariant Relaxing(levels, graph, topo)
      invariant !changed ==> Fixpoint(levels, graph)
      decreases Potential(levels, keys, topo) + (if changed then 1 else 0)
    {
      PotentialNonnegative(levels, keys, topo);
      levels, changed := RelaxPass(graph, levels, topo, keys);
      PotentialNonnegative(levels, keys, topo);
    }
  }

  /** A level is exactly one more than some predecessor's: the levels are
      tight, so with `Fixpoint` a level is the largest predecessor level plus
      one. */
  lemma LevelIsTight(levels: map<string, int>, graph: TaskGraph, id: string)
    requires Leveled(levels, graph) && id in levels && levels[id] >= 1
    ensures exists e :: e in graph.edges && e.to == id && e.from in levels && levels[e.from] == levels[id] - 1
  {
    var e :| e in graph.edges && e.to == id && e.from in levels && levels[e.from] >= levels[id] - 1;
    assert Relaxed(levels, e);
  }

  /** A path of node ids along edges of the graph. */
  ghost predicate IsPath(graph: TaskGraph, path: seq<string>) {
    forall i :: 0 <= i < |path| - 1 ==> Edge(path[i], path[i + 1]) in graph.edges
  }

  /** Along a path out of a levelled node the level rises by at least one
      per edge. */
  lemma {:induction false} PathRaisesLevel(levels: map<string, int>, graph: TaskGraph, path: seq<string>)
    requires Leveled(levels, graph) && |path| > 0 && IsPath(graph, path) && EndpointsExist(graph)
    requires path[0] in levels && levels[path[0]] >= 0
    ensures path[|path| - 1] in levels && levels[path[|path| - 1]] >= levels[path[0]] + |path| - 1
  {
    if |path| > 1 {
      var front := path[..|path| - 1];
      assert IsPath(graph, front) by {
        forall i | 0 <= i < |front| - 1 ensures Edge(front[i], front[i + 1]) in graph.edges {
          assert front[i] == path[i] && front[i + 1] == path[i + 1];
        }
      }
      PathRaisesLevel(levels, graph, front);
      var e := Edge(path[|path| - 2], path[|path| - 1]);
      assert e in graph.edges;
      assert Relaxed(levels, e);
    }
  }

  /** Every node at the end of a path from a start node is levelled, at least
      as high as the path is long. */
  lemma PathBoundsLevel(levels: map<string, int>, graph: TaskGraph, path: seq<string>)
    requires Leveled(levels, graph) && |path| > 0 && IsPath(graph, path)
    requires HasStart(graph.nodes, path[0]) && EndpointsExist(graph)
    ensures path[|path| - 1] in levels && levels[path[|path| - 1]] >= |path| - 1
  {
    var i :| 0 <= i < |graph.nodes| && graph.nodes[i].id == path[0] && graph.nodes[i].kind == Start;
    assert path[0] in NodeIds(graph.nodes);
    PathRaisesLevel(levels, graph, path);
  }

  /** Two levelled nodes at the same level are never joined by a path, so
      neither depends on the other, directly or through other nodes. */
  lemma SameLevelIndependent(levels: map<string, int>, graph: TaskGraph, path: seq<string>)
    requires Leveled(levels, graph) && EndpointsExist(graph)
    requires |path| > 1 && IsPath(graph, path) && path[0] in levels && levels[path[0]] >= 0
    ensures path[|path| - 1] in levels && levels[path[|path| - 1]] != levels[path[0]]
  {
    PathRaisesLevel(levels, graph, path);
  }

  /** A set of nodes with no start node that every edge into it comes from
      inside it is never reached: its nodes stay at level -1. */
  lemma UnreachableUnleveled(levels: map<string, int>, graph: TaskGraph, s: set<string>, x: string)
    requires Leveled(levels, graph) && x in s && x in levels
    requires forall y :: y in s ==> !HasStart(graph.nodes, y)
    requires forall e :: e in graph.edges && e.to in s ==> e.from in s
    ensures levels[x] == -1
    decreases if x in levels then levels[x] else 0
  {
    if levels[x] >= 1 {
      LevelIsTight(levels, graph, x);
      var e :| e in graph.edges && e.to == x && e.from in levels && levels[e.from] == levels[x] - 1;
      UnreachableUnleveled(levels, graph, s, e.from);
    }
  }

  // ---------------------------------------------------------------------------
  // Parallel groups

  function Digit(d: nat): (c: char)
    requires d < 10
    ensures '0' <= c <= '9' && c as int - '0' as int == d
  {
    (d + '0' as int) as char
  }

  /** The decimal digits of `n`, without leading zeros. */
  function NatToString(n: nat): (r: string)
    ensures |r| >= 1 && (forall i :: 0 <= i < |r| ==> '0' <= r[i] <= '9')
    ensures |r| > 1 ==> r[0] != '0'
  {
    if n < 10 then [Digit(n)] else NatToString(n / 10) + [Digit(n % 10)]
  }

  /** Reads a string of decimal digits. */
  function ParseNat(s: string): nat
    requires forall i :: 0 <= i < |s| ==> '0' <= s[i] <= '9'
  {
    if s == [] then 0 else 10 * ParseNat(s[..|s| - 1]) + (s[|s| - 1] as int - '0' as int)
  }

  /** Reading the digits back gives the number. */
  lemma {:induction false} ParseNatToString(n: nat)
    ensures ParseNat(NatToString(n)) == n
  {
    var r := NatToString(n);
    if n >= 10 {
      ParseNatToString(n / 10);
      assert r[..|r| - 1] == NatToString(n / 10);
    } else {
      assert r[..|r| - 1] == [];
    }
  }

  function GroupId(level: nat): string {
    GROUP_PREFIX + NatToString(level)
  }

  /** Different levels name different groups. */
  lemma GroupIdInjective(l: nat, m: nat)
    requires GroupId(l) == GroupId(m)
    ensures l == m
  {
    var p := |GROUP_PREFIX|;
    assert NatToString(l) == GroupId(l)[p..];
    assert NatToString(m) == GroupId(m)[p..];
    ParseNatToString(l);
    ParseNatToString(m);
  }

  /** The positive levels of the keys, each once, in order of first
      appearance: the order in which the grouping table receives its keys. */
  function LevelOrder(keys: seq<string>, levels: map<string, int>): (r: seq<int>)
    requires forall k :: k in keys ==> k in levels
    ensures forall i, j :: 0 <= i < j < |r| ==> r[i] != r[j]
    ensures forall l :: l in r ==> l > 0
    ensures forall k :: k in keys && levels[k] > 0 ==> levels[k] in r
  {
    if keys == [] then []
    else
      var front := keys[..|keys| - 1];
      var k := keys[|keys| - 1];
      assert forall x :: x in front ==> x in keys;
      var r := LevelOrder(front, levels);
      assert forall x :: x in keys ==> x in front || x == k;
      if levels[k] <= 0 || levels[k] in r then r else r + [levels[k]]
  }

  /** Every listed level is the level of some key. */
  lemma {:induction false} LevelOrderSound(keys: seq<string>, levels: map<string, int>, l: int)
    requires forall k :: k in keys ==> k in levels
    requires l in LevelOrder(keys, levels)
    ensures exists k :: k in keys && levels[k] == l
  {
    var front := keys[..|keys| - 1];
    var k := keys[|keys| - 1];
    assert forall x :: x in front ==> x in keys;
    if l in LevelOrder(front, levels) {
      LevelOrderSound(front, levels, l);
      var x :| x in front && levels[x] == l;
      assert x in keys;
    } else {
      assert levels[k] == l;
    }
  }

  /** The keys at level `l`, in order. */
  function Members(keys: seq<string>, levels: map<string, int>, l: int): (r: seq<string>)
    requires forall k :: k in keys ==> k in levels
    ensures forall x :: x in r <==> x in keys && levels[x] == l
    ensures Distinct(keys) ==> Distinct(r)
  {
    if keys == [] then []
    else
      var front := keys[..|keys| - 1];
      var k := keys[|keys| - 1];
      assert forall x :: x in front ==> x in keys;
      assert forall x :: x in keys ==> x in front || x == k;
      var r := Members(front, levels, l);
      if levels[k] == l then
        assert Distinct(keys) ==> k !in front && Distinct(front) by {
          if Distinct(keys) {
            assert forall i :: 0 <= i < |front| ==> front[i] == keys[i];
          }
        }
        r + [k]
      else r
  }

  /** One group per listed level that holds two or more keys. */
  function GroupsFor(ls: seq<int>, keys: seq<string>, levels: map<string, int>): seq<ParallelGroup>
    requires forall k :: k in keys ==> k in levels
    requires forall l :: l in ls ==> l > 0
  {
    if ls == [] then []
    else
      var front := ls[..|ls| - 1];
      var l := ls[|ls| - 1];
      assert forall x :: x in front ==> x in ls;
      assert l in ls;
      var members := Members(keys, levels, l);
      var rest := GroupsFor(front, keys, levels);
      if |members| > 1 then rest + [ParallelGroup(GroupId(l), members)] else rest
  }

  /** Each group is named after a listed level and holds exactly the keys at
      that level, which are two or more. */
  lemma {:induction false} GroupsForShape(ls: seq<int>, keys: seq<string>, levels: map<string, int>, g: ParallelGroup)
    requires forall k :: k in keys ==> k in levels
    requires forall l :: l in ls ==> l > 0
    requires g in GroupsFor(ls, keys, levels)
    ensures exists l: nat :: l in ls && g == ParallelGroup(GroupId(l), Members(keys, levels, l)) && |g.nodeIds| > 1
  {
    var front := ls[..|ls| - 1];
    var l := ls[|ls| - 1];
    assert forall x :: x in front ==> x in ls;
    if g in GroupsFor(front, keys, levels) {
      GroupsForShape(front, keys, levels, g);
    } else {
      assert g == ParallelGroup(GroupId(l), Members(keys, levels, l));
    }
  }

  /** Every listed level with two or more keys has its group. */
  lemma {:induction false} GroupsForComplete(ls: seq<int>, keys: seq<string>, levels: map<string, int>, l: int)
    requires forall k :: k in keys ==> k in levels
    requires forall m :: m in ls ==> m > 0
    requires l in ls && |Members(keys, levels, l)| > 1
    ensures ParallelGroup(GroupId(l), Members(keys, levels, l)) in GroupsFor(ls, keys, levels)
  {
    var front := ls[..|ls| - 1];
    assert forall x :: x in front ==> x in ls;
    if ls[|ls| - 1] != l {
      assert l in front;
      GroupsForComplete(front, keys, levels, l);
    }
  }

  /** A key is in some group exactly when it has a positive level shared by
      at least one other key; the keys of a group share one level. */
  lemma GroupMembership(keys: seq<string>, levels: map<string, int>, x: string)
    requires forall k :: k in keys ==> k in levels
    ensures (exists g :: g in GroupsFor(LevelOrder(keys, levels), keys, levels) && x in g.nodeIds) <==>
      (x in keys && levels[x] > 0 && |Members(keys, levels, levels[x])| > 1)
  {
    var ls := LevelOrder(keys, levels);
    var gs := GroupsFor(ls, keys, levels);
    if g :| g in gs && x in g.nodeIds {
      GroupsForShape(ls, keys, levels, g);
    }
    if x in keys && levels[x] > 0 && |Members(keys, levels, levels[x])| > 1 {
      GroupsForComplete(ls, keys, levels, levels[x]);
    }
  }

  /** Two groups with the same name are the same group. */
  lemma GroupIdsDistinct(keys: seq<string>, levels: map<string, int>, g: ParallelGroup, h: ParallelGroup)
    requires forall k :: k in keys ==> k in levels
    requires g in GroupsFor(LevelOrder(keys, levels), keys, levels)
    requires h in GroupsFor(LevelOrder(keys, levels), keys, levels)
    requires g.groupId == h.groupId
    ensures g == h
  {
    var ls := LevelOrder(keys, levels);
    GroupsForShape(ls, keys, levels, g);
    GroupsForShape(ls, keys, levels, h);
    var l: nat :| l in ls && g == ParallelGroup(GroupId(l), Members(keys, levels, l));
    var m: nat :| m in ls && h == ParallelGroup(GroupId(m), Members(keys, levels, m));
    GroupIdInjective(l, m);
  }

  /** The grouping table after the keys seen so far: one entry per listed
      level, holding that level's keys in order. */
  ghost predicate TableOf(byLevel: map<int, seq<string>>, levelOrder: seq<int>, keys: seq<string>, levels: map<string, int>)
    requires forall k :: k in keys ==> k in levels
  {
    && levelOrder == LevelOrder(keys, levels)
    && (forall l :: l in byLevel <==> l in levelOrder)
    && (forall l :: l in byLevel ==> byLevel[l] == Members(keys, levels, l))
  }

  lemma LevelOrderSnoc(keys: seq<string>, levels: map<string, int>, k: string)
    requires forall x :: x in keys ==> x in levels
    requires k in levels
    ensures forall x :: x in keys + [k] ==> x in levels
    ensures LevelOrder(keys + [k], levels) ==
      var r := LevelOrder(keys, levels);
      if levels[k] <= 0 || levels[k] in r then r else r + [levels[k]]
  {
    var all := keys + [k];
    assert all[..|all| - 1] == keys;
  }

  lemma MembersSnoc(keys: seq<string>, levels: map<string, int>, k: string, l: int)
    requires forall x :: x in keys ==> x in levels
    requires k in levels
    ensures forall x :: x in keys + [k] ==> x in levels
    ensures Members(keys + [k], levels, l) ==
      if levels[k] == l then Members(keys, levels, l) + [k] else Members(keys, levels, l)
  {
    var all := keys + [k];
    assert all[..|all| - 1] == keys;
  }

  lemma {:induction false} MembersNone(keys: seq<string>, levels: map<string, int>, l: int)
    requires forall x :: x in keys ==> x in levels && levels[x] != l
    ensures Members(keys, levels, l) == []
  {
    if keys != [] {
      var front := keys[..|keys| - 1];
      assert forall x :: x in front ==> x in keys;
      MembersNone(front, levels, l);
    }
  }

  /** Files one more key under its level, opening the level's entry when the
      key is the first one there; keys at level 0 or -1 are skipped. */
  method FileKey(byLevel: map<int, seq<string>>, levelOrder: seq<int>, keys: seq<string>, levels: map<string, int>, k: string)
    returns (byLevel': map<int, seq<string>>, levelOrder': seq<int>)
    requires forall x :: x in keys ==> x in levels
    requires k in levels && TableOf(byLevel, levelOrder, keys, levels)
    ensures forall x :: x in keys + [k] ==> x in levels
    ensures TableOf(byLevel', levelOrder', keys + [k], levels)
  {
    LevelOrderSnoc(keys, levels, k);
    var level := levels[k];
    byLevel', levelOrder' := byLevel, levelOrder;
    if level > 0 {
      if level !in byLevel' {
        byLevel' := byLevel'[level := []];
        levelOrder' := levelOrder' + [level];
      }
      byLevel' := byLevel'[level := byLevel'[level] + [k]];
    }
    forall l | l in byLevel' ensures byLevel'[l] == Members(keys + [k], levels, l) {
      MembersSnoc(keys, levels, k, l);
      if l !in byLevel {
        MembersNone(keys, levels, l);
      }
    }
  }

  /** Groups the keys by positive level and makes a group of every level with
      two or more keys, in order of the levels' first appearance. */
  method GroupByLevel(keys: seq<string>, levels: map<string, int>) returns (groups: seq<ParallelGroup>)
    requires forall k :: k in keys ==> k in levels
    ensures groups == GroupsFor(LevelOrder(keys, levels), keys, levels)
  {
    var byLevel, levelOrder := FileKeys(keys, levels);
    groups := GroupsOfTable(byLevel, levelOrder, keys, levels);
  }

  /** The grouping table of all the keys, filed one by one. */
  method FileKeys(keys: seq<string>, levels: map<string, int>) returns (byLevel: map<int, seq<string>>, levelOrder: seq<int>)
    requires forall k :: k in keys ==> k in levels
    ensures TableOf(byLevel, levelOrder, keys, levels)
  {
    byLevel, levelOrder := map[], [];
    var i := 0;
    while i < |keys|
      invariant 0 <= i <= |keys|
      invariant forall k :: k in keys[..i] ==> k in levels
      invariant TableOf(byLevel, levelOrder, keys[..i], levels)
    {
      assert keys[..i + 1] == keys[..i] + [keys[i]];
      byLevel, levelOrder := FileKey(byLevel, levelOrder, keys[..i], levels, keys[i]);
      i := i + 1;
    }
    assert keys[..i] == keys;
  }

  /** One group for every listed level that holds two or more keys. */
  method GroupsOfTable(byLevel: map<int, seq<string>>, levelOrder: seq<int>, keys: seq<string>, levels: map<string, int>)
    returns (groups: seq<ParallelGroup>)
    requires forall k :: k in keys ==> k in levels
    requires TableOf(byLevel, levelOrder, keys, levels)
    ensures groups == GroupsFor(levelOrder, keys, levels)
  {
    groups := [];
    var j := 0;
    while j < |levelOrder|
      invariant 0 <= j <= |levelOrder|
      invariant forall l :: l in levelOrder[..j] ==> l in levelOrder
      invariant groups == GroupsFor(levelOrder[..j], keys, levels)
    {
      assert levelOrder[..j + 1][..j] == levelOrder[..j];
      var level := levelOrder[j];
      var members := byLevel[level];
      if |members| > 1 {
        groups := groups + [ParallelGroup(GroupId(level), members)];
      }
      j := j + 1;
    }
    assert levelOrder[..j] == levelOrder;
  }

  // ---------------------------------------------------------------------------
  // The plan

  /** The steps of a plan are a topological order of the graph: each node
      once, every edge forward, each step named after its node and lasting
      1000 for a processing node and 0 otherwise. */
  ghost predicate StepsInOrder(steps: seq<Step>, graph: TaskGraph) {
    var ids := StepIds(steps);
    && Distinct(ids)
    && (forall x :: x in ids <==> x in NodeIds(graph.nodes))
    && EdgesForward(ids, graph.edges)
    && forall i :: 0 <= i < |steps| ==>
      var n := FindNode(graph.nodes, steps[i].nodeId);
      n.Some? && steps[i].name == n.value.name && steps[i].estimatedDuration == Duration(n.value.kind)
  }

  /** The groups a level table yields, absent when there are none. */
  function GroupsOf(graph: TaskGraph, levels: map<string, int>): Option<seq<ParallelGroup>>
    requires forall k :: k in NodeIds(graph.nodes) ==> k in levels
  {
    var keys := DistinctIds(graph.nodes);
    var gs := GroupsFor(LevelOrder(keys, levels), keys, levels);
    if gs == [] then None else Some(gs)
  }

  /** The nodes of one parallel group are independent: no path of the graph
      leads from one member to another, so the group may run in any order. */
  lemma GroupMembersIndependent(graph: TaskGraph, levels: map<string, int>, g: ParallelGroup, path: seq<string>)
    requires Leveled(levels, graph) && EndpointsExist(graph)
    requires GroupsOf(graph, levels).Some? && g in GroupsOf(graph, levels).value
    requires |path| > 1 && IsPath(graph, path) && path[0] in g.nodeIds
    ensures path[|path| - 1] !in g.nodeIds
  {
    var keys := DistinctIds(graph.nodes);
    var ls := LevelOrder(keys, levels);
    GroupsForShape(ls, keys, levels, g);
    var l: nat :| l in ls && g == ParallelGroup(GroupId(l), Members(keys, levels, l)) && |g.nodeIds| > 1;
    assert l > 0;
    SameLevelIndependent(levels, graph, path);
  }

  /** The execution plan of a graph whose edges join declared nodes: a cycle
      is reported with the node where it was found; otherwise the steps
      follow a topological order, the graph has no cycle, and the parallel
      groups are those of the graph's levels. */
  method GenerateExecutionPlan(graph: TaskGraph) returns (r: Result<Plan, string>, ghost levels: map<string, int>)
    requires EndpointsExist(graph)
    ensures r.Err? ==> exists x :: x in NodeIds(graph.nodes) && r.error == CYCLE_MESSAGE + x && CycleThrough(graph.edges, x)
    ensures r.Ok? ==> forall path :: !IsCycle(graph.edges, path)
    ensures r.Ok? ==> StepsInOrder(r.value.steps, graph)
    ensures r.Ok? ==> Leveled(levels, graph) && r.value.parallelGroups == GroupsOf(graph, levels)
    ensures r.Ok? && r.value.parallelGroups.Some? ==>
      forall g, path :: g in r.value.parallelGroups.value && |path| > 1 && IsPath(graph, path) && path[0] in g.nodeIds ==>
        path[|path| - 1] !in g.nodeIds
  {
    levels := map[];
    var order := TopologicalOrder(graph);
    if order.Err? {
      return Err(order.error), levels;
    }
    var topo := order.value;
    assert EdgesForward(topo, graph.edges);
    forall path ensures !IsCycle(graph.edges, path) {
      ForwardEdgesNoCycle(topo, graph.edges, path);
    }
    var steps := BuildSteps(topo, graph.nodes);
    StepsOfFound(topo, graph.nodes);
    var table, keys := CalculateLevels(graph, topo);
    levels := table;
    var groups := GroupByLevel(keys, table);
    r := Ok(Plan(steps, if groups == [] then None else Some(groups)));
    forall g, path | g in groups && |path| > 1 && IsPath(graph, path) && path[0] in g.nodeIds
      ensures path[|path| - 1] !in g.nodeIds
    {
      GroupMembersIndependent(graph, table, g, path);
    }
  }
}
