/**
 * Flattening of a design file's node tree into the list of visual components
 * the code generator consumes. Document and canvas levels are structural and
 * never become components; a canvas's children are lifted into the list that
 * holds the canvas.
 */
module FigmaService {
  import opened Wrappers

  const DOCUMENT := "DOCUMENT"
  const CANVAS := "CANVAS"

  /** A node of the design file. `visible` is absent when the file omits it;
      an absent child list is the empty one (both the test for a non-empty
      list and the canvas walk treat them alike). `style` is the value the
      style extraction computes for this node, taken here as given. */
  datatype FigmaNode = FigmaNode(
    id: string, name: string, kind: string, visible: Option<bool>,
    style: map<string, string>, children: seq<FigmaNode>)

  /** An emitted component; `children` is present exactly when the node had a
      non-empty child list. */
  datatype Component = Component(
    id: string, name: string, kind: string,
    style: map<string, string>, children: ChildList)

  /** A component's child array, which may be absent. */
  datatype ChildList = NoChildren | Children(items: seq<Component>)

  /** Only visual nodes become components: not hidden, and neither the document
      nor a canvas. */
  predicate Emits(node: FigmaNode) {
    node.visible != Some(false) && node.kind != DOCUMENT && node.kind != CANVAS
  }

  /** Parses `node` into `result`: an emitted node appends one component to
      `result`, once its children have been parsed into the component's own
      list, and a canvas's children are parsed into `result` itself. */
  function Parse(node: FigmaNode, result: seq<Component>): seq<Component>
    decreases node, 1
  {
    var withNode :=
      if Emits(node) then
        result + [Component(node.id, node.name, node.kind, node.style,
                            if |node.children| > 0 then Children(ParseAll(node.children, [])) else NoChildren)]
      else result;
    if node.kind == CANVAS then ParseAll(node.children, withNode) else withNode
  }

  /** Parses each node in turn into the same list. */
  function ParseAll(nodes: seq<FigmaNode>, result: seq<Component>): seq<Component>
    decreases nodes, 0
  {
    if nodes == [] then result else ParseAll(nodes[1..], Parse(nodes[0], result))
  }

  /** The entry point: a missing node leaves the list as it was. */
  function ParseComponentTree(node: Option<FigmaNode>, result: seq<Component>): (r: seq<Component>)
    ensures node.None? ==> r == result
    ensures |result| <= |r| && r[..|result|] == result
  {
    match node
    case None => result
    case Some(n) => ParseAppends(n, result); Parse(n, result)
  }

  /** The components parsed from a whole design file. */
  function Components(document: Option<FigmaNode>): seq<Component> {
    ParseComponentTree(document, [])
  }

  // ---------------------------------------------------------------------------
  // Append-only

  /** Parsing never disturbs what the list already holds: it appends exactly
      what parsing into an empty list yields. */
  lemma {:induction false} ParseAppends(node: FigmaNode, result: seq<Component>)
    decreases node, 1
    ensures Parse(node, result) == result + Parse(node, [])
  {
    var c := Component(node.id, node.name, node.kind, node.style,
                       if |node.children| > 0 then Children(ParseAll(node.children, [])) else NoChildren);
    var withNode := if Emits(node) then result + [c] else result;
    var added := if Emits(node) then [c] else [];
    assert withNode == result + added;
    if node.kind == CANVAS {
      ParseAllAppends(node.children, withNode);
      ParseAllAppends(node.children, added);
      assert Parse(node, result) == withNode + ParseAll(node.children, []);
      assert Parse(node, []) == added + ParseAll(node.children, []);
    }
  }

  lemma {:induction false} ParseAllAppends(nodes: seq<FigmaNode>, result: seq<Component>)
    decreases nodes, 0
    ensures ParseAll(nodes, result) == result + ParseAll(nodes, [])
  {
    if nodes != [] {
      var once := Parse(nodes[0], []);
      ParseAppends(nodes[0], result);
      ParseAllAppends(nodes[1..], result + once);
      ParseAllAppends(nodes[1..], once);
      assert ParseAll(nodes, result) == result + once + ParseAll(nodes[1..], []);
      assert ParseAll(nodes, []) == once + ParseAll(nodes[1..], []);
    }
  }

  /** Parsing a concatenation parses the first part and then the second. */
  lemma {:induction false} ParseAllConcat(a: seq<FigmaNode>, b: seq<FigmaNode>, result: seq<Component>)
    ensures ParseAll(a + b, result) == ParseAll(b, ParseAll(a, result))
  {
    if a == [] {
      assert a + b == b;
    } else {
      assert (a + b)[1..] == a[1..] + b;
      ParseAllConcat(a[1..], b, Parse(a[0], result));
    }
  }

  // ---------------------------------------------------------------------------
  // What a single node contributes

  /** A hidden node that is not a canvas, and any document node, contributes
      nothing: its children are never visited. In particular a whole design
      file, whose root is the document, yields no components. */
  lemma SkippedNodeContributesNothing(node: FigmaNode, result: seq<Component>)
    requires node.kind == DOCUMENT || (node.visible == Some(false) && node.kind != CANVAS)
    ensures Parse(node, result) == result
  {
  }

  lemma DocumentRootYieldsNothing(document: FigmaNode)
    requires document.kind == DOCUMENT
    ensures Components(Some(document)) == []
  {
    SkippedNodeContributesNothing(document, []);
  }

  /** A canvas, visible or not, contributes exactly its children, each parsed
      into the same list in order. */
  lemma CanvasIsFlattened(node: FigmaNode, result: seq<Component>)
    requires node.kind == CANVAS
    ensures Parse(node, result) == ParseAll(node.children, result)
    ensures Parse(node, result) == result + ParseAll(node.children, [])
  {
    ParseAllAppends(node.children, result);
  }

  /** An emitted node appends exactly one component to `result`. The
      component copies the node's id, name, type and style, and has a child
      list exactly when the node has children, holding their in-order
      parse. */
  lemma EmittedNode(node: FigmaNode, result: seq<Component>)
    requires Emits(node)
    ensures Parse(node, result) == result + [Parse(node, [])[0]]
    ensures var c := Parse(node, [])[0];
      && c.id == node.id && c.name == node.name && c.kind == node.kind && c.style == node.style
      && (c.children.Children? <==> |node.children| > 0)
      && (c.children.Children? ==> c.children.items == ParseAll(node.children, []))
  {
  }

  // ---------------------------------------------------------------------------
  // Shape of the output

  /** A component tree of the output: never a document or a canvas, and a
      present child list is made of such components too. (A component keeps
      no visibility flag, so hidden nodes are excluded by `Emits` alone.) */
  ghost predicate WellFormed(c: Component)
    decreases c
  {
    && c.kind != DOCUMENT && c.kind != CANVAS
    && (c.children.Children? ==> forall k :: 0 <= k < |c.children.items| ==> WellFormed(c.children.items[k]))
  }

  ghost predicate AllWellFormed(cs: seq<Component>) {
    forall k :: 0 <= k < |cs| ==> WellFormed(cs[k])
  }

  /** No document or canvas ever appears as a component, at any depth. */
  lemma {:induction false} ParseWellFormed(node: FigmaNode, result: seq<Component>)
    decreases node, 1
    requires AllWellFormed(result)
    ensures AllWellFormed(Parse(node, result))
  {
    var withNode :=
      if Emits(node) then
        result + [Component(node.id, node.name, node.kind, node.style,
                            if |node.children| > 0 then Children(ParseAll(node.children, [])) else NoChildren)]
      else result;
    if Emits(node) && |node.children| > 0 {
      ParseAllWellFormed(node.children, []);
    }
    assert AllWellFormed(withNode);
    if node.kind == CANVAS {
      ParseAllWellFormed(node.children, withNode);
    }
  }

  lemma {:induction false} ParseAllWellFormed(nodes: seq<FigmaNode>, result: seq<Component>)
    decreases nodes, 0
    requires AllWellFormed(result)
    ensures AllWellFormed(ParseAll(nodes, result))
  {
    if nodes != [] {
      ParseWellFormed(nodes[0], result);
      ParseAllWellFormed(nodes[1..], Parse(nodes[0], result));
    }
  }

  /** The components of any design file are well formed at every depth. */
  lemma ComponentsWellFormed(document: Option<FigmaNode>)
    ensures AllWellFormed(Components(document))
  {
    if document.Some? {
      ParseWellFormed(document.value, []);
    }
  }
}
