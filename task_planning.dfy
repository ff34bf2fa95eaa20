/**
 * The orchestration server's task planner: a brief is planned into a fixed
 * chain of step nodes, the nodes' declared dependencies become the edges of a
 * task graph, and the graph can be written out as a Mermaid flowchart.
 */
module TaskPlanning {
  import opened Wrappers

  datatype NodeType = Start | End | Process | Decision | Parallel

  /** A step of a plan. An absent dependency list is the empty one: every
      reader of the list treats the two alike. */
  datatype TaskNode = TaskNode(
    id: string,
    kind: NodeType,
    name: string,
    description: Option<string>,
    dependencies: seq<string>)

  datatype Edge = Edge(from: string, to: string)

  datatype TaskGraph = TaskGraph(nodes: seq<TaskNode>, edges: seq<Edge>)

  const START_NODE := TaskNode("start", Start, "开始任务", None, [])

  function EndNode(dependency: string): TaskNode {
    TaskNode("end", End, "结束任务", None, [dependency])
  }

  function ProcessNode(id: string, name: string, dependency: string, description: string): TaskNode {
    TaskNode(id, Process, name, Some(description), [dependency])
  }

  /** Plans a brief by its task type: a six-step chain for logos and for code,
      a three-step chain for anything else, including a missing type. */
  function PlanTask(taskType: Option<string>): (r: seq<TaskNode>)
    ensures |r| == (if taskType == Some("logo") || taskType == Some("code") then 6 else 3)
    ensures r[0] == START_NODE
    ensures r[|r| - 1].id == "end" && r[|r| - 1].kind == End
    ensures forall i :: 0 < i < |r| - 1 ==> r[i].kind == Process
    ensures forall i :: 0 < i < |r| ==> r[i].dependencies == [r[i - 1].id]
    ensures forall i, j :: 0 <= i < j < |r| ==> r[i].id != r[j].id
  {
    match taskType
    case Some("logo") =>
      [START_NODE,
       ProcessNode("analyze_brief", "分析需求", "start", "分析Logo设计需求"),
       ProcessNode("generate_concepts", "生成概念", "analyze_brief", "生成Logo概念设计"),
       ProcessNode("create_logo", "创建Logo", "generate_concepts", "基于概念创建Logo"),
       ProcessNode("generate_colors", "生成配色", "create_logo", "为Logo生成配色方案"),
       EndNode("generate_colors")]
    case Some("code") =>
      [START_NODE,
       ProcessNode("analyze_requirements", "分析需求", "start", "分析代码生成需求"),
       ProcessNode("design_architecture", "设计架构", "analyze_requirements", "设计代码架构"),
       ProcessNode("generate_code", "生成代码", "design_architecture", "生成代码实现"),
       ProcessNode("test_code", "测试代码", "generate_code", "测试生成的代码"),
       EndNode("test_code")]
    case _ =>
      [START_NODE,
       ProcessNode("process", "处理任务", "start", "处理用户请求"),
       EndNode("process")]
  }

  // ---------------------------------------------------------------------------
  // Task graph

  /** The edges one node contributes: one from each dependency, in order. */
  function DependencyEdges(node: TaskNode): (r: seq<Edge>)
    ensures |r| == |node.dependencies|
    ensures forall j :: 0 <= j < |r| ==> r[j] == Edge(node.dependencies[j], node.id)
  {
    seq(|node.dependencies|, j requires 0 <= j < |node.dependencies| => Edge(node.dependencies[j], node.id))
  }

  /** The edges of a node list: node by node, each node's in dependency order. */
  function EdgesOf(nodes: seq<TaskNode>): seq<Edge> {
    if nodes == [] then [] else EdgesOf(nodes[..|nodes| - 1]) + DependencyEdges(nodes[|nodes| - 1])
  }

  /** Derives the graph of a node list: the nodes as they are and one edge per
      declared dependency. */
  method GenerateTaskGraph(nodes: seq<TaskNode>) returns (graph: TaskGraph)
    ensures graph.nodes == nodes
    ensures graph.edges == EdgesOf(nodes)
  {
    var edges: seq<Edge> := [];
    var i := 0;
    while i < |nodes|
      invariant 0 <= i <= |nodes|
      invariant edges == EdgesOf(nodes[..i])
    {
      var node := nodes[i];
      var j := 0;
      while j < |node.dependencies|
        invariant 0 <= j <= |node.dependencies|
        invariant edges == EdgesOf(nodes[..i]) + DependencyEdges(node)[..j]
      {
        edges := edges + [Edge(node.dependencies[j], node.id)];
        j := j + 1;
      }
      assert nodes[..i + 1][..i] == nodes[..i];
      i := i + 1;
    }
    assert nodes[..i] == nodes;
    graph := TaskGraph(nodes, edges);
  }

  /** An edge is derived exactly when some node declares its source as a
      dependency and its target is that node. */
  lemma {:induction false} EdgesOfMembership(nodes: seq<TaskNode>, e: Edge)
    ensures e in EdgesOf(nodes) <==>
      exists i :: 0 <= i < |nodes| && nodes[i].id == e.to && e.from in nodes[i].dependencies
  {
    if nodes != [] {
      var n := |nodes| - 1;
      EdgesOfMembership(nodes[..n], e);
      if e in EdgesOf(nodes[..n]) {
        var i :| 0 <= i < n && nodes[..n][i].id == e.to && e.from in nodes[..n][i].dependencies;
        assert nodes[i] == nodes[..n][i];
      }
      if e in DependencyEdges(nodes[n]) {
        var j :| 0 <= j < |nodes[n].dependencies| && DependencyEdges(nodes[n])[j] == e;
        assert nodes[n].dependencies[j] == e.from;
      }
      if exists i :: 0 <= i < |nodes| && nodes[i].id == e.to && e.from in nodes[i].dependencies {
        var i :| 0 <= i < |nodes| && nodes[i].id == e.to && e.from in nodes[i].dependencies;
        if i < n {
          assert nodes[..n][i] == nodes[i];
        } else {
          var j :| 0 <= j < |nodes[n].dependencies| && nodes[n].dependencies[j] == e.from;
          assert DependencyEdges(nodes[n])[j] == e;
        }
      }
    }
  }

  /** Deriving edges distributes over concatenation of node lists. */
  lemma {:induction false} EdgesOfAppend(a: seq<TaskNode>, b: seq<TaskNode>)
    ensures EdgesOf(a + b) == EdgesOf(a) + EdgesOf(b)
    decreases |b|
  {
    if b == [] {
      assert a + b == a;
    } else {
      var n := |b| - 1;
      var ab := a + b;
      assert ab[..|ab| - 1] == a + b[..n];
      assert ab[|ab| - 1] == b[n];
      assert EdgesOf(ab) == EdgesOf(a + b[..n]) + DependencyEdges(b[n]);
      EdgesOfAppend(a, b[..n]);
      assert EdgesOf(b) == EdgesOf(b[..n]) + DependencyEdges(b[n]);
    }
  }

  /** There are as many edges as declared dependencies. */
  function DependencyCount(nodes: seq<TaskNode>): nat {
    if nodes == [] then 0 else DependencyCount(nodes[..|nodes| - 1]) + |nodes[|nodes| - 1].dependencies|
  }

  lemma {:induction false} EdgesOfCount(nodes: seq<TaskNode>)
    ensures |EdgesOf(nodes)| == DependencyCount(nodes)
  {
    if nodes != [] {
      EdgesOfCount(nodes[..|nodes| - 1]);
    }
  }

  /** A node list in which the first node has no dependency and every later
      node depends on exactly its predecessor. */
  predicate IsChain(nodes: seq<TaskNode>) {
    && (nodes != [] ==> nodes[0].dependencies == [])
    && forall i :: 0 < i < |nodes| ==> nodes[i].dependencies == [nodes[i - 1].id]
  }

  /** The graph of a chain links each node to the next and has no other edge. */
  lemma {:induction false} ChainEdges(nodes: seq<TaskNode>)
    requires IsChain(nodes)
    ensures |EdgesOf(nodes)| == if nodes == [] then 0 else |nodes| - 1
    ensures forall i :: 0 <= i < |EdgesOf(nodes)| ==> EdgesOf(nodes)[i] == Edge(nodes[i].id, nodes[i + 1].id)
  {
    if |nodes| > 1 {
      var n := |nodes| - 1;
      var front := nodes[..n];
      assert IsChain(front) by {
        forall i | 0 < i < |front| ensures front[i].dependencies == [front[i - 1].id] {
          assert front[i] == nodes[i] && front[i - 1] == nodes[i - 1];
        }
      }
      ChainEdges(front);
      assert DependencyEdges(nodes[n]) == [Edge(nodes[n - 1].id, nodes[n].id)];
    } else if |nodes| == 1 {
      assert nodes[..0] == [];
    }
  }

  /** The graph of a plan is the plan's chain. */
  lemma PlannedGraphIsChain(taskType: Option<string>)
    ensures var plan := PlanTask(taskType);
      var edges := EdgesOf(plan);
      && |edges| == |plan| - 1
      && forall i :: 0 <= i < |edges| ==> edges[i] == Edge(plan[i].id, plan[i + 1].id)
  {
    ChainEdges(PlanTask(taskType));
  }

  // ---------------------------------------------------------------------------
  // Mermaid output

  const MERMAID_HEADER := "graph TD;\n"

  /** The node shape written after a node's id, by node type. */
  function Shape(kind: NodeType): string {
    match kind
    case Start => "(([开始]))"
    case End => "(([结束]))"
    case Process => "[处理]"
    case Decision => "{决策}"
    case Parallel => "{{并行}}"
  }

  function NodeLine(node: TaskNode): string {
    "  " + node.id + Shape(node.kind) + "[\"" + node.name + "\"];\n"
  }

  function EdgeLine(edge: Edge): string {
    "  " + edge.from + " --> " + edge.to + ";\n"
  }

  /** The text of a list of items, one piece per item in order. */
  function Lines<T>(items: seq<T>, line: T -> string): string {
    if items == [] then "" else Lines(items[..|items| - 1], line) + line(items[|items| - 1])
  }

  /** The flowchart of a graph: the header, a line per node, a line per edge. */
  function Mermaid(graph: TaskGraph): string {
    MERMAID_HEADER + Lines(graph.nodes, NodeLine) + Lines(graph.edges, EdgeLine)
  }

  /** Writes the flowchart of a graph: the header, then the nodes' lines, then
      the edges' lines. */
  method GenerateTaskGraphVisualization(graph: TaskGraph) returns (code: string)
    ensures code == Mermaid(graph)
  {
    code := MERMAID_HEADER;
    code := AppendLines(code, graph.nodes, NodeLine);
    code := AppendLines(code, graph.edges, EdgeLine);
  }

  /** Appends the line of each item in turn. */
  method AppendLines<T>(text: string, items: seq<T>, line: T -> string) returns (r: string)
    ensures r == text + Lines(items, line)
  {
    r := text;
    var i := 0;
    while i < |items|
      invariant 0 <= i <= |items|
      invariant r == text + Lines(items[..i], line)
    {
      r := r + line(items[i]);
      assert items[..i + 1][..i] == items[..i];
      i := i + 1;
    }
    assert items[..i] == items;
  }

  /** The text of a list is the text of its parts, in order: one piece per
      item and nothing else. */
  lemma {:induction false} LinesAppend<T>(a: seq<T>, b: seq<T>, line: T -> string)
    ensures Lines(a + b, line) == Lines(a, line) + Lines(b, line)
    decreases |b|
  {
    if b == [] {
      assert a + b == a;
    } else {
      var n := |b| - 1;
      var ab := a + b;
      assert ab[..|ab| - 1] == a + b[..n];
      assert ab[|ab| - 1] == b[n];
      LinesAppend(a, b[..n], line);
    }
  }

  /** The flowchart opens with the header and then the first node's line. */
  lemma MermaidStartsWithHeader(graph: TaskGraph)
    requires graph.nodes != []
    ensures Mermaid(graph) ==
      MERMAID_HEADER + NodeLine(graph.nodes[0]) + Lines(graph.nodes[1..], NodeLine) + Lines(graph.edges, EdgeLine)
  {
    var first := [graph.nodes[0]];
    LinesAppend(first, graph.nodes[1..], NodeLine);
    assert first + graph.nodes[1..] == graph.nodes;
    assert first[..0] == [];
    assert Lines(first, NodeLine) == NodeLine(graph.nodes[0]);
  }
}
