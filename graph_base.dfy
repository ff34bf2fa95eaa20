/**
 * A graph kept as adjacency lists: a table from each vertex to the list of
 * its neighbour entries, in the order the vertices were added. A directed
 * graph stores each edge once, under its source; an undirected graph stores
 * it under both ends. Kahn's algorithm orders the vertices of a graph
 * topologically, or returns nothing when the graph has a cycle.
 */
module GraphBase {
  import opened Wrappers
  import opened Sequences

  /** One entry of an adjacency list; the weight is carried, never used. */
  datatype Neighbor<T> = Neighbor(vertex: T, weight: Option<real>)

  // ---------------------------------------------------------------------------
  // Adjacency lists

  /** How many entries of `s` point at `w`. */
  function Count<T(==,!new)>(s: seq<Neighbor<T>>, w: T): nat {
    if s == [] then 0 else (if s[0].vertex == w then 1 else 0) + Count(s[1..], w)
  }

  lemma {:induction false} CountAppend<T(!new)>(a: seq<Neighbor<T>>, b: seq<Neighbor<T>>, w: T)
    ensures Count(a + b, w) == Count(a, w) + Count(b, w)
  {
    if a != [] {
      assert (a + b)[1..] == a[1..] + b;
      assert (a + b)[0] == a[0];
      CountAppend(a[1..], b, w);
    } else {
      assert a + b == b;
    }
  }

  lemma CountSnoc<T(!new)>(s: seq<Neighbor<T>>, n: Neighbor<T>, w: T)
    ensures Count(s + [n], w) == Count(s, w) + (if n.vertex == w then 1 else 0)
  {
    CountAppend(s, [n], w);
    assert [n][1..] == [];
  }

  /** An entry points at `w` exactly when the count is positive. */
  lemma {:induction false} CountPositive<T(!new)>(s: seq<Neighbor<T>>, w: T)
    ensures Count(s, w) > 0 <==> exists n :: n in s && n.vertex == w
  {
    if s != [] {
      CountPositive(s[1..], w);
      assert forall n :: n in s[1..] ==> n in s;
      assert forall n :: n in s ==> n == s[0] || n in s[1..];
    }
  }

  /** The entries of `s` that do not point at `v`, in their order. */
  function Drop<T(==,!new)>(s: seq<Neighbor<T>>, v: T): (r: seq<Neighbor<T>>)
    ensures |r| == |s| - Count(s, v)
    ensures forall n :: n in r <==> n in s && n.vertex != v
    ensures forall w :: Count(r, w) == if w == v then 0 else Count(s, w)
  {
    if s == [] then []
    else
      var rest := Drop(s[1..], v);
      assert forall n :: n in s <==> n == s[0] || n in s[1..];
      if s[0].vertex == v then rest
      else
        assert ([s[0]] + rest)[1..] == rest;
        [s[0]] + rest
  }

  lemma {:induction false} DropNone<T(!new)>(s: seq<Neighbor<T>>, v: T)
    requires forall n :: n in s ==> n.vertex != v
    ensures Drop(s, v) == s
  {
    if s != [] {
      assert s[0] in s;
      assert forall n :: n in s[1..] ==> n in s;
      DropNone(s[1..], v);
      assert [s[0]] + s[1..] == s;
    }
  }

  /** Dropping works entry by entry, so the kept entries keep their order. */
  lemma {:induction false} DropAppend<T(!new)>(a: seq<Neighbor<T>>, b: seq<Neighbor<T>>, v: T)
    ensures Drop(a + b, v) == Drop(a, v) + Drop(b, v)
  {
    if a != [] {
      assert (a + b)[1..] == a[1..] + b;
      assert (a + b)[0] == a[0];
      DropAppend(a[1..], b, v);
      if a[0].vertex != v {
        assert Drop(a, v) == [a[0]] + Drop(a[1..], v);
        assert Drop(a + b, v) == [a[0]] + Drop(a[1..] + b, v);
      }
    } else {
      assert a + b == b;
    }
  }

  /** Removing the first of distinct vertices leaves the others. */
  lemma WithoutFirst<T(!new)>(order: seq<T>)
    requires Distinct(order) && order != []
    ensures Without(order, order[0]) == order[1..]
  {
    assert order[0] !in order[1..];
    WithoutAbsent(order[1..], order[0]);
  }

  lemma {:induction false} WithoutAbsent<T(!new)>(order: seq<T>, v: T)
    requires v !in order
    ensures Without(order, v) == order
  {
    if order != [] {
      assert order[1..] + [] == order[1..];
      WithoutAbsent(order[1..], v);
      assert [order[0]] + order[1..] == order;
    }
  }

  /** In an undirected graph every edge between two vertices appears in both
      lists, as often in each, and a loop appears twice in its vertex's list. */
  ghost predicate Symmetric<T(!new)>(lists: map<T, seq<Neighbor<T>>>) {
    && (forall u, w :: u in lists && w in lists && u != w ==> Count(lists[u], w) == Count(lists[w], u))
    && (forall u :: u in lists ==> Count(lists[u], u) % 2 == 0)
  }

  /** The sum of the lengths of the lists of `us`. */
  function Total<T(==,!new)>(lists: map<T, seq<Neighbor<T>>>, us: seq<T>): nat
    requires forall u :: u in us ==> u in lists
  {
    if us == [] then 0 else |lists[us[0]]| + Total(lists, us[1..])
  }

  /** The graph as a value: whether it is directed, the table of lists, and
      the vertices in the order they were added. */
  datatype Adjacency<T(==,!new)> = Adjacency(isDirected: bool, lists: map<T, seq<Neighbor<T>>>, order: seq<T>)
  {
    /** The order lists each vertex once, every entry points at a vertex, and
        an undirected graph is symmetric. */
    ghost predicate Inv() {
      && Distinct(order)
      && (forall u :: u in lists <==> u in order)
      && (forall u, n :: u in lists && n in lists[u] ==> n.vertex in lists)
      && (!isDirected ==> Symmetric(lists))
    }

    /** Adds `v` with an empty list unless it is already a vertex. */
    function AddVertex(v: T): (r: Adjacency<T>)
      requires Inv()
      ensures r.Inv() && r.isDirected == isDirected && v in r.lists
      ensures v in lists ==> r == this
      ensures v !in lists ==> r.lists == lists[v := []] && r.order == order + [v]
    {
      if v in lists then this
      else
        var r := Adjacency(isDirected, lists[v := []], order + [v]);
        AddVertexKeepsInv(this, v, r);
        r
    }

    /** Adds both ends as vertices, then an entry for `destination` at the
        end of the source's list and, when undirected, an entry for `source`
        at the end of the destination's list. */
    function AddEdge(source: T, destination: T, weight: Option<real>): (r: Adjacency<T>)
      requires Inv()
      ensures r.Inv() && r.isDirected == isDirected
      ensures r.order == AddVertex(source).AddVertex(destination).order
    {
      var g := AddVertex(source).AddVertex(destination);
      AddEdgeKeepsInv(g, source, destination, weight);
      Adjacency(isDirected, Linked(g.lists, source, destination, weight, isDirected), g.order)
    }

    /** Removes `v`, if it is a vertex, and every entry pointing at it. */
    function RemoveVertex(v: T): (r: Adjacency<T>)
      requires Inv()
      ensures r.Inv() && r.isDirected == isDirected
      ensures v !in r.lists && r.order == Without(order, v)
      ensures forall u :: u in r.lists <==> u in lists && u != v
      ensures forall u :: u in r.lists ==> r.lists[u] == Drop(lists[u], v)
      ensures forall u, n :: u in r.lists && n in r.lists[u] ==> n.vertex != v
      ensures v !in lists ==> r == this
    {
      if v !in lists then
        WithoutAbsent(order, v);
        assert forall u :: u in lists ==> Drop(lists[u], v) == lists[u] by {
          forall u | u in lists ensures Drop(lists[u], v) == lists[u] {
            assert forall n :: n in lists[u] ==> n.vertex in lists;
            DropNone(lists[u], v);
          }
        }
        this
      else
        RemoveVertexKeepsInv(this, v);
        var r := Adjacency(isDirected, Removed(lists, v), Without(order, v));
        assert forall u, n :: u in r.lists && n in r.lists[u] ==> n.vertex != v;
        r
    }

    /** The list of `v`, and no entries for an unknown vertex. */
    function Neighbors(v: T): (r: seq<Neighbor<T>>)
      ensures v in lists ==> r == lists[v]
      ensures v !in lists ==> r == []
    {
      if v in lists then lists[v] else []
    }

    /** The number of edges: every entry once in a directed graph, every
        pair of entries once in an undirected one. */
    function EdgeCount(): nat
      requires Inv()
    {
      var total := Total(lists, order);
      if isDirected then total else total / 2
    }
  }

  /** The empty graph. */
  function Empty<T(==,!new)>(isDirected: bool): (r: Adjacency<T>)
    ensures r.Inv() && r.lists == map[] && r.order == []
  {
    Adjacency(isDirected, map[], [])
  }

  lemma AddVertexKeepsInv<T(!new)>(g: Adjacency<T>, v: T, r: Adjacency<T>)
    requires g.Inv() && v !in g.lists
    requires r == Adjacency(g.isDirected, g.lists[v := []], g.order + [v])
    ensures r.Inv()
  {
    assert Distinct(r.order) by {
      assert forall i :: 0 <= i < |g.order| ==> r.order[i] == g.order[i];
    }
    forall u | u in r.lists ensures u in r.order {
      if u != v { assert u in g.order; }
    }
    if !g.isDirected {
      assert Count<T>([], v) == 0;
      forall u, w | u in r.lists && w in r.lists && u != w ensures Count(r.lists[u], w) == Count(r.lists[w], u) {
        if u != v && w != v {
          assert r.lists[u] == g.lists[u] && r.lists[w] == g.lists[w];
        } else if u == v {
          assert Count(g.lists[w], v) == 0 by { CountPositive(g.lists[w], v); }
        } else {
          assert Count(g.lists[u], v) == 0 by { CountPositive(g.lists[u], v); }
        }
      }
    }
  }

  /** The lists of every vertex but `v`, without the entries pointing at `v`. */
  function Removed<T(==,!new)>(lists: map<T, seq<Neighbor<T>>>, v: T): (r: map<T, seq<Neighbor<T>>>)
    ensures forall u :: u in r <==> u in lists && u != v
    ensures forall u :: u in r ==> r[u] == Drop(lists[u], v)
  {
    map u | u in lists && u != v :: Drop(lists[u], v)
  }

  lemma RemoveVertexKeepsInv<T(!new)>(g: Adjacency<T>, v: T)
    requires g.Inv() && v in g.lists
    ensures Adjacency(g.isDirected, Removed(g.lists, v), Without(g.order, v)).Inv()
    ensures var lists := Removed(g.lists, v); forall u, n :: u in lists && n in lists[u] ==> n.vertex != v
  {
    var r := Adjacency(g.isDirected, Removed(g.lists, v), Without(g.order, v));
    forall u, n | u in r.lists && n in r.lists[u] ensures n.vertex in r.lists {
      assert n in g.lists[u] && n.vertex != v;
    }
  }

  /** The lists after adding an edge between two vertices. */
  function Linked<T(==,!new)>(lists: map<T, seq<Neighbor<T>>>, source: T, destination: T, weight: Option<real>, isDirected: bool)
    : (r: map<T, seq<Neighbor<T>>>)
    requires source in lists && destination in lists
    ensures r.Keys == lists.Keys
  {
    var once := lists[source := lists[source] + [Neighbor(destination, weight)]];
    if isDirected then once else once[destination := once[destination] + [Neighbor(source, weight)]]
  }

  /** Adding an edge adds one pointer from the source to the destination
      and, when undirected, one back; nothing else changes. */
  lemma LinkedCounts<T(!new)>(lists: map<T, seq<Neighbor<T>>>, source: T, destination: T, weight: Option<real>, isDirected: bool, x: T, w: T)
    requires source in lists && destination in lists && x in lists
    ensures Count(Linked(lists, source, destination, weight, isDirected)[x], w) == Count(lists[x], w)
      + (if x == source && w == destination then 1 else 0)
      + (if !isDirected && x == destination && w == source then 1 else 0)
  {
    var once := lists[source := lists[source] + [Neighbor(destination, weight)]];
    if x == source {
      CountSnoc(lists[source], Neighbor(destination, weight), w);
    }
    if !isDirected && x == destination {
      CountSnoc(once[destination], Neighbor(source, weight), w);
    }
  }

  /** Adding an edge between two vertices of the graph points only at
      vertices of the graph. */
  lemma LinkedClosed<T(!new)>(lists: map<T, seq<Neighbor<T>>>, source: T, destination: T, weight: Option<real>, isDirected: bool)
    requires source in lists && destination in lists
    requires forall u, n :: u in lists && n in lists[u] ==> n.vertex in lists
    ensures var r := Linked(lists, source, destination, weight, isDirected);
      forall u, n :: u in r && n in r[u] ==> n.vertex in r
  {
    var r := Linked(lists, source, destination, weight, isDirected);
    forall u, n: Neighbor<T> | u in r && n in r[u] ensures n.vertex in r {
      if u == source || u == destination {
        assert n in lists[u] || n == Neighbor(destination, weight) || n == Neighbor(source, weight);
      }
    }
  }

  /** Adding an undirected edge keeps the lists symmetric. */
  lemma LinkedSymmetric<T(!new)>(lists: map<T, seq<Neighbor<T>>>, source: T, destination: T, weight: Option<real>)
    requires source in lists && destination in lists && Symmetric(lists)
    ensures Symmetric(Linked(lists, source, destination, weight, false))
  {
    var r := Linked(lists, source, destination, weight, false);
    forall u, w | u in r && w in r && u != w ensures Count(r[u], w) == Count(r[w], u) {
      LinkedCounts(lists, source, destination, weight, false, u, w);
      LinkedCounts(lists, source, destination, weight, false, w, u);
    }
    forall u | u in r ensures Count(r[u], u) % 2 == 0 {
      LinkedCounts(lists, source, destination, weight, false, u, u);
    }
  }

  lemma AddEdgeKeepsInv<T(!new)>(g: Adjacency<T>, source: T, destination: T, weight: Option<real>)
    requires g.Inv() && source in g.lists && destination in g.lists
    ensures Adjacency(g.isDirected, Linked(g.lists, source, destination, weight, g.isDirected), g.order).Inv()
  {
    LinkedClosed(g.lists, source, destination, weight, g.isDirected);
    if !g.isDirected {
      LinkedSymmetric(g.lists, source, destination, weight);
    }
  }

  // ---------------------------------------------------------------------------
  // The sum of the list lengths of an undirected graph is even

  /** How many entries of the lists of `us` point at `v`. */
  function SumInto<T(==,!new)>(lists: map<T, seq<Neighbor<T>>>, us: seq<T>, v: T): nat
    requires forall u :: u in us ==> u in lists
  {
    if us == [] then 0 else Count(lists[us[0]], v) + SumInto(lists, us[1..], v)
  }

  /** How many entries of `s` point at the members of `us`. */
  function SumFrom<T(==,!new)>(s: seq<Neighbor<T>>, us: seq<T>): nat {
    if us == [] then 0 else Count(s, us[0]) + SumFrom(s, us[1..])
  }

  /** How often `x` occurs in `us`. */
  function Occurrences<T(==,!new)>(us: seq<T>, x: T): nat {
    if us == [] then 0 else (if us[0] == x then 1 else 0) + Occurrences(us[1..], x)
  }

  lemma {:induction false} OccurrencesDistinct<T(!new)>(us: seq<T>, x: T)
    requires Distinct(us)
    ensures Occurrences(us, x) == if x in us then 1 else 0
  {
    if us != [] {
      assert forall y :: y in us <==> y == us[0] || y in us[1..];
      assert us[0] !in us[1..];
      OccurrencesDistinct(us[1..], x);
    }
  }

  lemma {:induction false} SumFromCons<T(!new)>(s: seq<Neighbor<T>>, us: seq<T>)
    requires s != []
    ensures SumFrom(s, us) == SumFrom(s[1..], us) + Occurrences(us, s[0].vertex)
  {
    if us != [] {
      SumFromCons(s, us[1..]);
    }
  }

  lemma {:induction false} SumFromEmpty<T(!new)>(s: seq<Neighbor<T>>, us: seq<T>)
    requires s == []
    ensures SumFrom(s, us) == 0
  {
    if us != [] {
      SumFromEmpty(s, us[1..]);
    }
  }

  /** A list whose entries all point into `us` has one entry per pointer. */
  lemma {:induction false} LengthByTargets<T(!new)>(s: seq<Neighbor<T>>, us: seq<T>)
    requires Distinct(us) && forall n :: n in s ==> n.vertex in us
    ensures |s| == SumFrom(s, us)
  {
    if s == [] {
      SumFromEmpty(s, us);
    } else {
      assert forall n :: n in s[1..] ==> n in s;
      LengthByTargets(s[1..], us);
      SumFromCons(s, us);
      assert s[0] in s;
      OccurrencesDistinct(us, s[0].vertex);
    }
  }

  lemma {:induction false} TotalDrop<T(!new)>(lists: map<T, seq<Neighbor<T>>>, dropped: map<T, seq<Neighbor<T>>>, us: seq<T>, v: T)
    requires forall u :: u in us ==> u in lists && u in dropped && dropped[u] == Drop(lists[u], v)
    ensures Total(dropped, us) + SumInto(lists, us, v) == Total(lists, us)
  {
    if us != [] {
      TotalDrop(lists, dropped, us[1..], v);
    }
  }

  lemma {:induction false} SumSym<T(!new)>(lists: map<T, seq<Neighbor<T>>>, us: seq<T>, v: T)
    requires Symmetric(lists) && v in lists && v !in us
    requires forall u :: u in us ==> u in lists
    ensures SumInto(lists, us, v) == SumFrom(lists[v], us)
  {
    if us != [] {
      SumSym(lists, us[1..], v);
    }
  }

  /** An undirected graph holds an even number of entries: removing any
      vertex removes its loops twice and every other edge at it twice. */
  lemma {:induction false} TotalEven<T(!new)>(g: Adjacency<T>)
    requires g.Inv() && !g.isDirected
    ensures Total(g.lists, g.order) % 2 == 0
    decreases |g.order|
  {
    if g.order != [] {
      var v := g.order[0];
      var rest := g.order[1..];
      var smaller := g.RemoveVertex(v);
      WithoutFirst(g.order);
      TotalEven(smaller);
      RemovalKeepsEven(g, smaller);
    }
  }

  /** An undirected graph holds an even number of entries when it does
      after its first vertex is removed. */
  lemma RemovalKeepsEven<T(!new)>(g: Adjacency<T>, smaller: Adjacency<T>)
    requires g.Inv() && !g.isDirected && g.order != []
    requires smaller.order == g.order[1..] && smaller.lists == Removed(g.lists, g.order[0])
    requires Total(smaller.lists, smaller.order) % 2 == 0
    ensures Total(g.lists, g.order) % 2 == 0
  {
    var v := g.order[0];
    assert v in g.lists;
    RemovalCount(g, smaller);
    var loops := Count(g.lists[v], v);
    assert loops % 2 == 0 by { assert Symmetric(g.lists); }
    EvenSum(Total(g.lists, g.order), loops, SumFrom(g.lists[v], g.order[1..]), Total(smaller.lists, g.order[1..]));
  }

  /** Removing the first vertex of an undirected graph removes its list and,
      from the other lists, one entry for each of its non-loop entries. */
  lemma RemovalCount<T(!new)>(g: Adjacency<T>, smaller: Adjacency<T>)
    requires g.Inv() && !g.isDirected && g.order != []
    requires smaller.order == g.order[1..] && smaller.lists == Removed(g.lists, g.order[0])
    ensures Total(g.lists, g.order) ==
      Count(g.lists[g.order[0]], g.order[0]) + 2 * SumFrom(g.lists[g.order[0]], g.order[1..]) + Total(smaller.lists, g.order[1..])
  {
    var v := g.order[0];
    var rest := g.order[1..];
    TotalDrop(g.lists, smaller.lists, rest, v);
    LengthByTargets(g.lists[v], g.order);
    SumSym(g.lists, rest, v);
  }

  lemma EvenSum(t: int, a: int, b: int, c: int)
    requires t == a + 2 * b + c && a % 2 == 0 && c % 2 == 0
    ensures t % 2 == 0
  {
  }

  /** The edge count is exact: every entry of a directed graph, and half the
      entries of an undirected one, with nothing lost to the halving. */
  lemma EdgeCountExact<T(!new)>(g: Adjacency<T>)
    requires g.Inv()
    ensures g.isDirected ==> g.EdgeCount() == Total(g.lists, g.order)
    ensures !g.isDirected ==> 2 * g.EdgeCount() == Total(g.lists, g.order)
  {
    if !g.isDirected {
      TotalEven(g);
    }
  }

  // ---------------------------------------------------------------------------
  // What the operations do to the neighbours and the edge count

  /** Adding an edge adds exactly one pointer from the source to the
      destination and, in an undirected graph, one from the destination back
      to the source; no other pointer appears or disappears. */
  lemma AddEdgeCounts<T(!new)>(g: Adjacency<T>, source: T, destination: T, weight: Option<real>, x: T, y: T)
    requires g.Inv()
    ensures Count(g.AddEdge(source, destination, weight).Neighbors(x), y) == Count(g.Neighbors(x), y)
      + (if x == source && y == destination then 1 else 0)
      + (if !g.isDirected && x == destination && y == source then 1 else 0)
  {
    var h := g.AddVertex(source).AddVertex(destination);
    if x in h.lists {
      LinkedCounts(h.lists, source, destination, weight, g.isDirected, x, y);
      if x !in g.lists {
        assert h.lists[x] == [];
      }
    }
  }

  lemma {:induction false} TotalAppend<T(!new)>(lists: map<T, seq<Neighbor<T>>>, a: seq<T>, b: seq<T>)
    requires forall u :: u in a + b ==> u in lists
    ensures Total(lists, a + b) == Total(lists, a) + Total(lists, b)
  {
    if a == [] {
      assert a + b == b;
    } else {
      assert (a + b)[1..] == a[1..] + b;
      TotalAppend(lists, a[1..], b);
    }
  }

  /** Changing the list of a vertex listed once changes the sum by the
      difference in length. */
  lemma {:induction false} TotalUpdate<T(!new)>(lists: map<T, seq<Neighbor<T>>>, us: seq<T>, x: T, l: seq<Neighbor<T>>)
    requires Distinct(us) && forall u :: u in us ==> u in lists
    ensures Total(lists[x := l], us) == Total(lists, us) + (if x in us then |l| - |lists[x]| else 0)
  {
    if us != [] {
      assert forall u :: u in us <==> u == us[0] || u in us[1..];
      assert us[0] !in us[1..];
      TotalUpdate(lists, us[1..], x, l);
    }
  }

  /** Adding a vertex adds no edge. */
  lemma AddVertexCount<T(!new)>(g: Adjacency<T>, v: T)
    requires g.Inv()
    ensures g.AddVertex(v).EdgeCount() == g.EdgeCount()
  {
    if v !in g.lists {
      TotalAppend(g.lists[v := []], g.order, [v]);
      TotalUpdate(g.lists, g.order, v, []);
      assert [v][1..] == [];
    }
  }

  /** Adding an edge adds one to the edge count, directed or not. */
  lemma AddEdgeCount<T(!new)>(g: Adjacency<T>, source: T, destination: T, weight: Option<real>)
    requires g.Inv()
    ensures g.AddEdge(source, destination, weight).EdgeCount() == g.EdgeCount() + 1
  {
    var h := g.AddVertex(source).AddVertex(destination);
    AddVertexCount(g, source);
    AddVertexCount(g.AddVertex(source), destination);
    var once := h.lists[source := h.lists[source] + [Neighbor(destination, weight)]];
    TotalUpdate(h.lists, h.order, source, h.lists[source] + [Neighbor(destination, weight)]);
    if !g.isDirected {
      TotalUpdate(once, h.order, destination, once[destination] + [Neighbor(source, weight)]);
      EdgeCountExact(h);
      EdgeCountExact(g.AddEdge(source, destination, weight));
    }
  }

  // ---------------------------------------------------------------------------
  // Rendering

  /** One line per vertex: the vertex, an arrow, and its neighbours separated
      by commas; weights are not shown. */
  function VertexLine<T(==,!new)>(g: Adjacency<T>, u: T, show: T -> string): string
    requires u in g.lists
  {
    var names := seq(|g.lists[u]|, i requires 0 <= i < |g.lists[u]| => show(g.lists[u][i].vertex));
    show(u) + " -> " + Join(names, ", ")
  }

  /** The text of a graph: its vertex lines, in the order the vertices were
      added, separated by newlines. */
  function Render<T(==,!new)>(g: Adjacency<T>, show: T -> string): string
    requires g.Inv()
  {
    Join(seq(|g.order|, i requires 0 <= i < |g.order| => VertexLine(g, g.order[i], show)), "\n")
  }

  /** When no vertex is shown with a newline, the text splits back into one
      line per vertex, in order. */
  lemma RenderLines<T(!new)>(g: Adjacency<T>, show: T -> string)
    requires g.Inv() && g.order != [] && forall u :: '\n' !in show(u)
    ensures
      var lines := Split(Render(g, show), '\n');
      |lines| == |g.order| && forall i :: 0 <= i < |g.order| ==> lines[i] == VertexLine(g, g.order[i], show)
  {
    var lines := seq(|g.order|, i requires 0 <= i < |g.order| => VertexLine(g, g.order[i], show));
    forall i | 0 <= i < |lines| ensures '\n' !in lines[i] {
      NoNewlineLine(g, g.order[i], show);
    }
    SplitJoin(lines, '\n');
  }

  lemma NoNewlineLine<T(!new)>(g: Adjacency<T>, u: T, show: T -> string)
    requires g.Inv() && u in g.lists && forall x :: '\n' !in show(x)
    ensures '\n' !in VertexLine(g, u, show)
  {
    var names := seq(|g.lists[u]|, i requires 0 <= i < |g.lists[u]| => show(g.lists[u][i].vertex));
    NotInJoin(names, ", ", '\n');
  }

  lemma AddEdgeUnfold<T(!new)>(g: Adjacency<T>, source: T, destination: T, weight: Option<real>)
    requires g.Inv()
    ensures var h := g.AddVertex(source).AddVertex(destination);
      g.AddEdge(source, destination, weight) == Adjacency(g.isDirected, Linked(h.lists, source, destination, weight, g.isDirected), h.order)
  {
  }

  lemma RemoveVertexUnfold<T(!new)>(g: Adjacency<T>, v: T)
    requires g.Inv() && v in g.lists
    ensures g.RemoveVertex(v) == Adjacency(g.isDirected, Removed(g.lists, v), Without(g.order, v))
  {
  }

  /** The first `i` vertices of `order` have lost their entries for `v`; the
      others are as they were. */
  ghost predicate DroppedUpTo<T(!new)>(lists: map<T, seq<Neighbor<T>>>, before: map<T, seq<Neighbor<T>>>, order: seq<T>, i: int, v: T) {
    && lists.Keys == before.Keys && 0 <= i <= |order|
    && (forall k :: 0 <= k < i ==> order[k] in before && lists[order[k]] == Drop(before[order[k]], v))
    && (forall k :: i <= k < |order| ==> order[k] in before && lists[order[k]] == before[order[k]])
  }

  lemma DropStep<T(!new)>(lists: map<T, seq<Neighbor<T>>>, before: map<T, seq<Neighbor<T>>>, order: seq<T>, i: int, v: T)
    requires Distinct(order) && DroppedUpTo(lists, before, order, i, v) && i < |order|
    ensures DroppedUpTo(lists[order[i] := Drop(lists[order[i]], v)], before, order, i + 1, v)
  {
  }

  lemma DroppedAll<T(!new)>(lists: map<T, seq<Neighbor<T>>>, before: map<T, seq<Neighbor<T>>>, order: seq<T>, v: T)
    requires DroppedUpTo(lists, before, order, |order|, v) && forall u :: u in before <==> u in order
    ensures lists - {v} == Removed(before, v)
  {
    forall u | u in lists - {v} ensures (lists - {v})[u] == Removed(before, v)[u] {
      var k :| 0 <= k < |order| && order[k] == u;
    }
  }

  // ---------------------------------------------------------------------------
  // The graph object

  /** The graph as the object the application holds: the table of lists is
      changed in place by the add and remove operations. */
  class Graph<T(==,!new)> {
    const isDirected: bool
    var lists: map<T, seq<Neighbor<T>>>
    var order: seq<T>

    function Model(): Adjacency<T>
      reads this
    {
      Adjacency(isDirected, lists, order)
    }

    ghost predicate Valid()
      reads this
    {
      Model().Inv()
    }

    /** A graph is undirected unless asked otherwise. */
    constructor (isDirected: bool := false)
      ensures Valid() && Model() == Empty(isDirected)
    {
      this.isDirected := isDirected;
      lists, order := map[], [];
    }

    method AddVertex(vertex: T)
      requires Valid()
      modifies this
      ensures Valid() && Model() == old(Model()).AddVertex(vertex)
    {
      ghost var g := Model();
      if vertex !in lists {
        lists := lists[vertex := []];
        order := order + [vertex];
        assert Model() == Adjacency(g.isDirected, g.lists[vertex := []], g.order + [vertex]);
      }
      assert Model() == g.AddVertex(vertex);
    }

    method AddEdge(source: T, destination: T, weight: Option<real>)
      requires Valid()
      modifies this
      ensures Valid() && Model() == old(Model()).AddEdge(source, destination, weight)
    {
      ghost var g := Model();
      AddVertex(source);
      AddVertex(destination);
      ghost var h := Model();
      assert h == g.AddVertex(source).AddVertex(destination);
      lists := lists[source := lists[source] + [Neighbor(destination, weight)]];
      if !isDirected {
        lists := lists[destination := lists[destination] + [Neighbor(source, weight)]];
      }
      assert lists == Linked(h.lists, source, destination, weight, isDirected);
      assert Model() == Adjacency(g.isDirected, Linked(h.lists, source, destination, weight, g.isDirected), h.order);
      AddEdgeUnfold(g, source, destination, weight);
    }

    method RemoveVertex(vertex: T)
      requires Valid()
      modifies this
      ensures Valid() && Model() == old(Model()).RemoveVertex(vertex)
    {
      ghost var g := Model();
      if vertex !in lists {
        return;
      }
      ghost var before := lists;
      var i := 0;
      while i < |order|
        invariant order == g.order && 0 <= i <= |order|
        invariant DroppedUpTo(lists, before, order, i, vertex)
      {
        DropStep(lists, before, order, i, vertex);
        var u := order[i];
        lists := lists[u := Drop(lists[u], vertex)];
        i := i + 1;
      }
      DroppedAll(lists, before, order, vertex);
      lists := lists - {vertex};
      order := Without(order, vertex);
      RemoveVertexUnfold(g, vertex);
    }

    method GetNeighbors(vertex: T) returns (r: seq<Neighbor<T>>)
      ensures r == Model().Neighbors(vertex)
    {
      r := if vertex in lists then lists[vertex] else [];
    }

    method GetVertices() returns (r: seq<T>)
      requires Valid()
      ensures Distinct(r) && forall u :: u in r <==> u in lists
      ensures r == order
    {
      r := order;
    }

    method GetEdgeCount() returns (count: nat)
      requires Valid()
      ensures count == Model().EdgeCount()
      ensures isDirected ==> count == Total(lists, order)
      ensures !isDirected ==> 2 * count == Total(lists, order)
    {
      var total := 0;
      var i := 0;
      while i < |order|
        invariant 0 <= i <= |order|
        invariant total == Total(lists, order[..i])
      {
        TotalAppend(lists, order[..i], [order[i]]);
        assert order[..i + 1] == order[..i] + [order[i]];
        assert [order[i]][1..] == [];
        total := total + |lists[order[i]]|;
        i := i + 1;
      }
      assert order[..i] == order;
      EdgeCountExact(Model());
      count := if isDirected then total else total / 2;
    }

    method ToString(show: T -> string) returns (r: string)
      requires Valid()
      ensures r == Render(Model(), show)
    {
      var g := Model();
      var lines: seq<string> := [];
      var i := 0;
      while i < |g.order|
        invariant 0 <= i <= |g.order|
        invariant |lines| == i && forall k :: 0 <= k < i ==> lines[k] == VertexLine(g, g.order[k], show)
      {
        lines := lines + [VertexLine(g, g.order[i], show)];
        i := i + 1;
      }
      r := Join(lines, "\n");
      assert lines == seq(|g.order|, k requires 0 <= k < |g.order| => VertexLine(g, g.order[k], show));
    }
  }
}
