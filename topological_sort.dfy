/**
 * Kahn's algorithm over an adjacency-list graph: count how many entries point
 * at each vertex, queue the vertices nobody points at, and repeatedly emit
 * the head of the queue, releasing the entries of its list. When fewer
 * vertices are emitted than the graph has, the graph has a cycle and the
 * result is empty.
 */
module GraphSort {
  import opened Sequences
  import opened GraphBase

  // ---------------------------------------------------------------------------
  // What the result means

  /** Every edge into a vertex of `r` comes from a vertex emitted before it. */
  ghost predicate Forward<T(!new)>(lists: map<T, seq<Neighbor<T>>>, r: seq<T>) {
    forall i, u :: 0 <= i < |r| && u in lists && Count(lists[u], r[i]) > 0 ==> u in r[..i]
  }

  /** Every edge between two vertices of `r` goes from an earlier position to a
      later one. */
  ghost predicate EdgesForward<T(!new)>(lists: map<T, seq<Neighbor<T>>>, r: seq<T>) {
    forall i, j :: 0 <= i < |r| && 0 <= j < |r| && r[i] in lists && Count(lists[r[i]], r[j]) > 0 ==> i < j
  }

  /** A nonempty set of vertices each of which has an edge into it from the
      set: what Kahn's algorithm can never start on. */
  ghost predicate Stuck<T(!new)>(lists: map<T, seq<Neighbor<T>>>, s: set<T>) {
    && s != {}
    && (forall x :: x in s ==> x in lists)
    && Closed(lists, s)
  }

  /** Every vertex of `s` has an edge into it from `s`. */
  ghost predicate Closed<T(!new)>(lists: map<T, seq<Neighbor<T>>>, s: set<T>) {
    forall x {:trigger FedFrom(lists, s, x)} :: x in s ==> FedFrom(lists, s, x)
  }

  /** Some vertex of `s` has an edge into `x`. */
  ghost predicate FedFrom<T(!new)>(lists: map<T, seq<Neighbor<T>>>, s: set<T>, x: T) {
    exists u :: u in s && u in lists && Count(lists[u], x) > 0
  }

  ghost predicate Acyclic<T(!new)>(lists: map<T, seq<Neighbor<T>>>) {
    forall s: set<T> :: !Stuck(lists, s)
  }

  /** A closed walk: each vertex of `p` has an edge to the next one, and the
      last has an edge back to the first. */
  ghost predicate IsCycle<T(!new)>(lists: map<T, seq<Neighbor<T>>>, p: seq<T>) {
    && p != []
    && (forall k :: 0 <= k < |p| ==> p[k] in lists)
    && (forall k :: 0 <= k < |p| - 1 ==> Count(lists[p[k]], p[k + 1]) > 0)
    && Count(lists[p[|p| - 1]], p[0]) > 0
  }

  /** The vertices of a cycle form a stuck set, so a graph with a cycle is not
      acyclic. */
  lemma CycleNotAcyclic<T(!new)>(lists: map<T, seq<Neighbor<T>>>, p: seq<T>)
    requires IsCycle(lists, p)
    ensures !Acyclic(lists)
  {
    var s := set x | x in p;
    assert p[0] in s;
    forall x | x in s ensures FedFrom(lists, s, x) {
      var k :| 0 <= k < |p| && p[k] == x;
      var u := if k == 0 then p[|p| - 1] else p[k - 1];
      assert u in s && u in lists && Count(lists[u], x) > 0;
    }
    assert Stuck(lists, s);
  }

  /** An order in which every edge runs forward and which holds every vertex
      leaves no stuck set. */
  lemma ForwardAcyclic<T(!new)>(lists: map<T, seq<Neighbor<T>>>, r: seq<T>)
    requires Forward(lists, r) && forall u :: u in lists ==> u in r
    ensures Acyclic(lists)
  {
    forall s: set<T> | Closed(lists, s) && forall x :: x in s ==> x in lists ensures s == {} {
      OutsideStuck(lists, r, s, |r|);
      forall x | x in lists ensures x !in s {
        var k :| 0 <= k < |r| && r[k] == x;
      }
    }
  }

  lemma {:induction false} OutsideStuck<T(!new)>(lists: map<T, seq<Neighbor<T>>>, r: seq<T>, s: set<T>, i: nat)
    requires Forward(lists, r) && Closed(lists, s) && i <= |r|
    ensures forall k :: 0 <= k < i ==> r[k] !in s
  {
    if i > 0 {
      OutsideStuck(lists, r, s, i - 1);
      forall u | u in lists && Count(lists[u], r[i - 1]) > 0 ensures u !in s {
        assert u in r[..i - 1];
        var k :| 0 <= k < i - 1 && r[..i - 1][k] == u;
        assert r[k] == u;
      }
      assert !FedFrom(lists, s, r[i - 1]);
    }
  }

  lemma ForwardDistinct<T(!new)>(lists: map<T, seq<Neighbor<T>>>, r: seq<T>)
    requires Forward(lists, r) && Distinct(r)
    ensures EdgesForward(lists, r)
  {
    forall i, j | 0 <= i < |r| && 0 <= j < |r| && r[i] in lists && Count(lists[r[i]], r[j]) > 0 ensures i < j {
      assert r[i] in r[..j];
      var k :| 0 <= k < j && r[..j][k] == r[i];
    }
  }

  lemma ForwardSnoc<T(!new)>(lists: map<T, seq<Neighbor<T>>>, r: seq<T>, c: T)
    requires Forward(lists, r)
    requires forall u :: u in lists && Count(lists[u], c) > 0 ==> u in r
    ensures Forward(lists, r + [c])
  {
    var r' := r + [c];
    forall i, u | 0 <= i < |r'| && u in lists && Count(lists[u], r'[i]) > 0 ensures u in r'[..i] {
      if i < |r| {
        assert r'[..i] == r[..i] && r'[i] == r[i];
      } else {
        assert r'[..i] == r;
      }
    }
  }

  // ---------------------------------------------------------------------------
  // In-degrees

  /** How many entries of the lists of the vertices of `us` that are not in
      `done` point at `w`: the in-degree of `w` once `done` is emitted. */
  function Pending<T(==,!new)>(lists: map<T, seq<Neighbor<T>>>, us: seq<T>, done: set<T>, w: T): nat {
    if us == [] then 0
    else
      var u := us[|us| - 1];
      Pending(lists, us[..|us| - 1], done, w) + (if u in done || u !in lists then 0 else Count(lists[u], w))
  }

  lemma PendingSnoc<T(!new)>(lists: map<T, seq<Neighbor<T>>>, us: seq<T>, done: set<T>, u: T, w: T)
    ensures Pending(lists, us + [u], done, w) == Pending(lists, us, done, w) + (if u in done || u !in lists then 0 else Count(lists[u], w))
  {
    assert (us + [u])[..|us|] == us;
  }

  lemma PendingPrefix<T(!new)>(lists: map<T, seq<Neighbor<T>>>, vs: seq<T>, i: int, w: T)
    requires 0 <= i < |vs| && vs[i] in lists
    ensures Pending(lists, vs[..i + 1], {}, w) == Pending(lists, vs[..i], {}, w) + Count(lists[vs[i]], w)
  {
    assert vs[..i + 1] == vs[..i] + [vs[i]];
    PendingSnoc(lists, vs[..i], {}, vs[i], w);
  }

  /** The pending in-degree is positive exactly when a vertex not yet emitted
      has an edge into `w`. */
  lemma {:induction false} PendingPositive<T(!new)>(lists: map<T, seq<Neighbor<T>>>, us: seq<T>, done: set<T>, w: T)
    ensures Pending(lists, us, done, w) > 0 <==> exists u :: u in us && u !in done && u in lists && Count(lists[u], w) > 0
  {
    if us != [] {
      var front := us[..|us| - 1];
      PendingPositive(lists, front, done, w);
      assert forall u :: u in us <==> u in front || u == us[|us| - 1];
    }
  }

  lemma {:induction false} PendingIgnores<T(!new)>(lists: map<T, seq<Neighbor<T>>>, us: seq<T>, done: set<T>, c: T, w: T)
    requires c !in us
    ensures Pending(lists, us, done + {c}, w) == Pending(lists, us, done, w)
  {
    if us != [] {
      assert us[|us| - 1] in us;
      assert forall u :: u in us[..|us| - 1] ==> u in us;
      PendingIgnores(lists, us[..|us| - 1], done, c, w);
    }
  }

  /** Emitting `c` takes the entries of its list off the pending in-degrees. */
  lemma {:induction false} PendingRelease<T(!new)>(lists: map<T, seq<Neighbor<T>>>, us: seq<T>, done: set<T>, c: T, w: T)
    requires Distinct(us) && c in us && c !in done && c in lists
    ensures Pending(lists, us, done, w) >= Count(lists[c], w)
    ensures Pending(lists, us, done + {c}, w) == Pending(lists, us, done, w) - Count(lists[c], w)
  {
    var front := us[..|us| - 1];
    assert Distinct(front);
    if us[|us| - 1] == c {
      assert c !in front;
      PendingIgnores(lists, front, done, c, w);
    } else {
      assert c in front;
      PendingRelease(lists, front, done, c, w);
    }
  }

  // ---------------------------------------------------------------------------
  // The algorithm

  /** Step 1: every vertex starts at in-degree 0. */
  method InitDegrees<T(==,!new)>(vertices: seq<T>) returns (inDegree: map<T, int>)
    ensures forall u :: u in inDegree <==> u in vertices
    ensures forall u :: u in inDegree ==> inDegree[u] == 0
  {
    inDegree := map[];
    var i := 0;
    while i < |vertices|
      invariant 0 <= i <= |vertices|
      invariant forall u :: u in inDegree <==> u in vertices[..i]
      invariant forall u :: u in inDegree ==> inDegree[u] == 0
    {
      assert vertices[..i + 1] == vertices[..i] + [vertices[i]];
      inDegree := inDegree[vertices[i] := 0];
      i := i + 1;
    }
    assert vertices[..i] == vertices;
  }

  /** Step 2, for one list: each entry adds one to the in-degree of the vertex
      it points at (a vertex missing from the table counts from 0). */
  method AddCounts<T(==,!new)>(inDegree: map<T, int>, ns: seq<Neighbor<T>>) returns (r: map<T, int>)
    requires forall n :: n in ns ==> n.vertex in inDegree
    ensures r.Keys == inDegree.Keys
    ensures forall w :: w in r ==> r[w] == inDegree[w] + Count(ns, w)
  {
    r := inDegree;
    var j := 0;
    while j < |ns|
      invariant 0 <= j <= |ns| && r.Keys == inDegree.Keys
      invariant forall w :: w in r ==> r[w] == inDegree[w] + Count(ns[..j], w)
    {
      var w := ns[j].vertex;
      assert ns[j] in ns;
      assert ns[..j + 1] == ns[..j] + [ns[j]];
      forall x ensures Count(ns[..j + 1], x) == Count(ns[..j], x) + (if ns[j].vertex == x then 1 else 0) {
        CountSnoc(ns[..j], ns[j], x);
      }
      var d := if w in r then r[w] else 0;
      r := r[w := d + 1];
      j := j + 1;
    }
    assert ns[..j] == ns;
  }

  /** Step 2: count, for every vertex, the entries pointing at it. */
  method CountDegrees<T(==,!new)>(graph: Graph<T>, vertices: seq<T>, zero: map<T, int>) returns (inDegree: map<T, int>)
    requires graph.Valid() && vertices == graph.order
    requires forall u :: u in zero <==> u in vertices
    requires forall u :: u in zero ==> zero[u] == 0
    ensures forall u :: u in inDegree <==> u in vertices
    ensures forall w :: w in inDegree ==> inDegree[w] == Pending(graph.lists, vertices, {}, w)
  {
    ghost var lists := graph.lists;
    inDegree := zero;
    var i := 0;
    assert vertices[..0] == [];
    while i < |vertices|
      invariant 0 <= i <= |vertices|
      invariant forall u :: u in inDegree <==> u in vertices
      invariant forall w :: w in inDegree ==> inDegree[w] == Pending(lists, vertices[..i], {}, w)
    {
      var v := vertices[i];
      var ns := graph.GetNeighbors(v);
      assert v in lists && ns == lists[v];
      assert forall n :: n in ns ==> n.vertex in inDegree;
      var next := AddCounts(inDegree, ns);
      forall w | w in next ensures next[w] == Pending(lists, vertices[..i + 1], {}, w) {
        PendingPrefix(lists, vertices, i, w);
      }
      inDegree := next;
      i := i + 1;
    }
    assert vertices[..i] == vertices;
  }

  /** Step 3: queue the vertices of in-degree 0, in vertex order. */
  method ZeroQueue<T(==,!new)>(vertices: seq<T>, inDegree: map<T, int>) returns (queue: seq<T>)
    requires Distinct(vertices) && forall u :: u in vertices ==> u in inDegree
    ensures Distinct(queue)
    ensures forall x :: x in queue <==> x in vertices && inDegree[x] == 0
  {
    queue := [];
    var i := 0;
    while i < |vertices|
      invariant 0 <= i <= |vertices| && Distinct(queue)
      invariant forall x :: x in queue <==> x in vertices[..i] && inDegree[x] == 0
    {
      var v := vertices[i];
      assert vertices[..i + 1] == vertices[..i] + [v];
      assert v !in vertices[..i];
      if inDegree[v] == 0 {
        queue := queue + [v];
      }
      i := i + 1;
    }
    assert vertices[..i] == vertices;
  }

  /** Step 4, for one emitted vertex: each entry of its list takes one off the
      in-degree of the vertex it points at, and a vertex whose in-degree drops
      to 0 joins the queue. */
  method Release<T(==,!new)>(inDegree: map<T, int>, queue: seq<T>, ns: seq<Neighbor<T>>)
    returns (degrees: map<T, int>, queued: seq<T>, ghost freed: seq<T>)
    requires forall n :: n in ns ==> n.vertex in inDegree
    requires forall w :: w in inDegree ==> inDegree[w] >= Count(ns, w)
    ensures degrees.Keys == inDegree.Keys
    ensures forall w :: w in degrees ==> degrees[w] == inDegree[w] - Count(ns, w)
    ensures queued == queue + freed && Distinct(freed)
    ensures forall x :: x in freed <==> x in inDegree && 0 < Count(ns, x) == inDegree[x]
  {
    degrees, queued, freed := inDegree, queue, [];
    var j := 0;
    while j < |ns|
      invariant 0 <= j <= |ns| && degrees.Keys == inDegree.Keys
      invariant forall w :: w in degrees ==> degrees[w] == inDegree[w] - Count(ns[..j], w)
      invariant queued == queue + freed && Distinct(freed)
      invariant forall x :: x in freed <==> x in inDegree && 0 < Count(ns[..j], x) && degrees[x] == 0
    {
      var w := ns[j].vertex;
      assert ns[j] in ns;
      assert ns[..j + 1] == ns[..j] + [ns[j]];
      forall x ensures Count(ns[..j + 1], x) == Count(ns[..j], x) + (if ns[j].vertex == x then 1 else 0) {
        CountSnoc(ns[..j], ns[j], x);
      }
      assert ns == ns[..j + 1] + ns[j + 1..];
      CountAppend(ns[..j + 1], ns[j + 1..], w);
      var d := degrees[w] - 1;
      degrees := degrees[w := d];
      if d == 0 {
        queued := queued + [w];
        freed := freed + [w];
      }
      j := j + 1;
    }
    assert ns[..j] == ns;
    forall x | x in inDegree && 0 < Count(ns, x) == inDegree[x] ensures x in freed {
    }
  }

  /** The state of the main loop: the in-degree of every vertex is the number
      of entries pointing at it from vertices not yet emitted, the emitted
      vertices and the queue are disjoint and repeat nothing, exactly the
      vertices of in-degree 0 are emitted or queued, and every emitted vertex
      came after all its sources. */
  ghost predicate Kahn<T(!new)>(lists: map<T, seq<Neighbor<T>>>, vertices: seq<T>, inDegree: map<T, int>, queue: seq<T>, result: seq<T>, done: set<T>) {
    && (forall w :: w in inDegree <==> w in vertices)
    && (forall w :: w in vertices ==> inDegree[w] == Pending(lists, vertices, done, w))
    && Distinct(result) && Distinct(queue)
    && (forall x :: x in result ==> x !in queue)
    && (forall x :: x in result || x in queue ==> x in vertices)
    && (forall x :: x in vertices ==> (x in result || x in queue <==> inDegree[x] == 0))
    && (forall x :: x in done <==> x in result)
    && Forward(lists, result)
  }

  /** One turn of the main loop keeps the state. */
  lemma KahnStep<T(!new)>(g: Adjacency<T>, inDegree: map<T, int>, queue: seq<T>, result: seq<T>, done: set<T>,
                           degrees: map<T, int>, freed: seq<T>)
    requires g.Inv() && queue != []
    requires Kahn(g.lists, g.order, inDegree, queue, result, done)
    requires degrees.Keys == inDegree.Keys
    requires forall w :: w in degrees ==> degrees[w] == inDegree[w] - Count(g.lists[queue[0]], w)
    requires Distinct(freed)
    requires forall x :: x in freed <==> x in inDegree && 0 < Count(g.lists[queue[0]], x) == inDegree[x]
    ensures Kahn(g.lists, g.order, degrees, queue[1..] + freed, result + [queue[0]], done + {queue[0]})
  {
    var c := queue[0];
    var lists, vertices := g.lists, g.order;
    assert c in vertices && c !in done;
    forall w | w in inDegree ensures inDegree[w] >= Count(lists[c], w) {
      PendingRelease(lists, vertices, done, c, w);
    }
    KahnDegrees(lists, vertices, inDegree, done, c, degrees);
    forall u | u in lists && Count(lists[u], c) > 0 ensures u in result {
      PendingPositive(lists, vertices, done, c);
    }
    ForwardSnoc(lists, result, c);
    KahnQueue(vertices, inDegree, queue, result, degrees, freed, lists[c]);
  }

  lemma KahnDegrees<T(!new)>(lists: map<T, seq<Neighbor<T>>>, vertices: seq<T>, inDegree: map<T, int>, done: set<T>, c: T,
                              degrees: map<T, int>)
    requires Distinct(vertices) && c in vertices && c !in done && c in lists
    requires forall w :: w in inDegree <==> w in vertices
    requires forall w :: w in vertices ==> inDegree[w] == Pending(lists, vertices, done, w)
    requires degrees.Keys == inDegree.Keys
    requires forall w :: w in degrees ==> degrees[w] == inDegree[w] - Count(lists[c], w)
    ensures forall w :: w in vertices ==> degrees[w] == Pending(lists, vertices, done + {c}, w)
  {
    forall w | w in vertices ensures degrees[w] == Pending(lists, vertices, done + {c}, w) {
      PendingRelease(lists, vertices, done, c, w);
    }
  }

  /** Moving the head of the queue to the result and queueing the freed
      vertices keeps both free of repeats and apart, and keeps the emitted
      and queued vertices exactly those of in-degree 0. */
  lemma KahnQueue<T(!new)>(vertices: seq<T>, inDegree: map<T, int>, queue: seq<T>, result: seq<T>,
                            degrees: map<T, int>, freed: seq<T>, ns: seq<Neighbor<T>>)
    requires queue != [] && Distinct(result) && Distinct(queue) && Distinct(freed)
    requires forall x :: x in result ==> x !in queue
    requires forall x :: x in result || x in queue ==> x in vertices
    requires forall w :: w in inDegree <==> w in vertices
    requires forall x :: x in vertices ==> (x in result || x in queue <==> inDegree[x] == 0)
    requires forall w :: w in inDegree ==> inDegree[w] >= Count(ns, w)
    requires degrees.Keys == inDegree.Keys
    requires forall w :: w in degrees ==> degrees[w] == inDegree[w] - Count(ns, w)
    requires forall x :: x in freed <==> x in inDegree && 0 < Count(ns, x) == inDegree[x]
    ensures Distinct(queue[1..] + freed) && Distinct(result + [queue[0]])
    ensures forall x :: x in result + [queue[0]] ==> x !in queue[1..] + freed
    ensures forall x :: x in result + [queue[0]] || x in queue[1..] + freed ==> x in vertices
    ensures forall x :: x in vertices ==> (x in result + [queue[0]] || x in queue[1..] + freed <==> degrees[x] == 0)
  {
    var c := queue[0];
    assert forall x :: x in queue <==> x == c || x in queue[1..];
    assert Distinct(queue[1..]);
    assert forall x :: x in freed ==> x !in queue && x !in result;
    DistinctConcat(queue[1..], freed);
    DistinctConcat(result, [c]);
  }

  lemma DistinctConcat<T(!new)>(a: seq<T>, b: seq<T>)
    requires Distinct(a) && Distinct(b) && forall x :: x in a ==> x !in b
    ensures Distinct(a + b)
  {
    forall i, j | 0 <= i < j < |a + b| ensures (a + b)[i] != (a + b)[j] {
      if j < |a| {
        assert (a + b)[i] == a[i] && (a + b)[j] == a[j];
      } else if i < |a| {
        assert (a + b)[i] == a[i] && (a + b)[j] == b[j - |a|];
        assert a[i] in a && b[j - |a|] in b;
      } else {
        assert (a + b)[i] == b[i - |a|] && (a + b)[j] == b[j - |a|];
      }
    }
  }

  /**
   * Kahn's algorithm. The result is empty exactly when the graph has no
   * vertex or some set of vertices all have edges into them from the set;
   * otherwise it lists every vertex once, and every edge runs forward in it.
   */
  method TopologicalSort<T(==,!new)>(graph: Graph<T>) returns (r: seq<T>)
    requires graph.Valid()
    ensures r != [] ==> Distinct(r) && |r| == |graph.order| && (forall u :: u in r <==> u in graph.lists)
    ensures r != [] ==> EdgesForward(graph.lists, r)
    ensures r == [] <==> graph.order == [] || !Acyclic(graph.lists)
  {
    ghost var g := graph.Model();
    var vertices, inDegree, queue := Prepare(graph);
    var result: seq<T> := [];
    ghost var done: set<T> := {};
    while queue != []
      invariant Kahn(g.lists, g.order, inDegree, queue, result, done)
      decreases (set x | x in vertices) - done
    {
      ghost var current := queue[0];
      assert current in vertices && current !in done;
      inDegree, queue, result := Emit(graph, inDegree, queue, result, done);
      done := done + {current};
    }
    r := if |result| == |vertices| then result else [];
    KahnDone(g, inDegree, result, done, r);
  }

  /** Steps 1 to 3: the in-degrees and the first queue. */
  method Prepare<T(==,!new)>(graph: Graph<T>) returns (vertices: seq<T>, inDegree: map<T, int>, queue: seq<T>)
    requires graph.Valid()
    ensures vertices == graph.order
    ensures Kahn(graph.lists, graph.order, inDegree, queue, [], {})
  {
    vertices := graph.GetVertices();
    inDegree := InitDegrees(vertices);
    inDegree := CountDegrees(graph, vertices, inDegree);
    queue := ZeroQueue(vertices, inDegree);
    assert forall w :: w in vertices ==> inDegree[w] == Pending(graph.lists, vertices, {}, w);
  }

  /** Step 4, one turn: emit the head of the queue and release its list. */
  method Emit<T(==,!new)>(graph: Graph<T>, inDegree: map<T, int>, queue: seq<T>, result: seq<T>, ghost done: set<T>)
    returns (inDegree': map<T, int>, queue': seq<T>, result': seq<T>)
    requires graph.Valid() && queue != []
    requires Kahn(graph.lists, graph.order, inDegree, queue, result, done)
    ensures result' == result + [queue[0]]
    ensures Kahn(graph.lists, graph.order, inDegree', queue', result', done + {queue[0]})
  {
    ghost var g := graph.Model();
    var current := queue[0];
    var rest := queue[1..];
    result' := result + [current];
    var ns := graph.GetNeighbors(current);
    assert ns == g.lists[current];
    forall w | w in inDegree ensures inDegree[w] >= Count(ns, w) {
      PendingRelease(g.lists, g.order, done, current, w);
    }
    ghost var freed;
    inDegree', queue', freed := Release(inDegree, rest, ns);
    KahnStep(g, inDegree, queue, result, done, inDegree', freed);
  }

  /** When the queue runs dry, the emitted vertices are either all of them,
      in an order every edge runs forward in, or the rest form a stuck set. */
  lemma KahnDone<T(!new)>(g: Adjacency<T>, inDegree: map<T, int>, result: seq<T>, done: set<T>, r: seq<T>)
    requires g.Inv() && Kahn(g.lists, g.order, inDegree, [], result, done)
    requires r == if |result| == |g.order| then result else []
    ensures r != [] ==> Distinct(r) && |r| == |g.order| && (forall u :: u in r <==> u in g.lists)
    ensures r != [] ==> EdgesForward(g.lists, r)
    ensures r == [] <==> g.order == [] || !Acyclic(g.lists)
  {
    var vertices := g.order;
    Counted(result, vertices);
    if |result| == |vertices| {
      if r != [] {
        ForwardDistinct(g.lists, r);
        ForwardAcyclic(g.lists, r);
      }
    } else {
      var s := set x | x in vertices && x !in result;
      var x :| x in vertices && x !in result;
      assert x in s;
      forall x | x in s ensures FedFrom(g.lists, s, x) {
        PendingPositive(g.lists, vertices, done, x);
      }
      assert Stuck(g.lists, s);
    }
  }

  // ---------------------------------------------------------------------------
  // Counting distinct elements

  lemma {:induction false} DistinctCard<T(!new)>(s: seq<T>)
    requires Distinct(s)
    ensures |set x | x in s| == |s|
  {
    if s != [] {
      DistinctCard(s[1..]);
      assert s[0] !in s[1..];
      assert (set x | x in s) == {s[0]} + set x | x in s[1..];
    }
  }

  /** Distinct elements drawn from a distinct sequence are no more than it
      has, and as many exactly when they are all of them. */
  lemma Counted<T(!new)>(a: seq<T>, b: seq<T>)
    requires Distinct(a) && Distinct(b) && forall x :: x in a ==> x in b
    ensures |a| <= |b|
    ensures |a| == |b| <==> forall x :: x in b ==> x in a
  {
    DistinctCard(a);
    DistinctCard(b);
    var sa, sb := set x | x in a, set x | x in b;
    assert sb == sa + (sb - sa);
    assert |sb| == |sa| + |sb - sa|;
    if exists x :: x in b && x !in a {
      var x :| x in b && x !in a;
      assert x in sb - sa;
    } else {
      assert sb - sa == {};
    }
  }
}
