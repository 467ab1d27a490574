/** The depth-first topological sort the resolver orders states with. */
module Topology {
  import opened Slices
  import opened Schemas

  /** Adjacency lists; only nodes with an outgoing edge are keys. */
  type Graph = map<Name, seq<Name>>

  function Succ(g: Graph, n: Name): seq<Name> {
    if n in g then g[n] else []
  }

  ghost function Nodes(g: Graph): set<Name> {
    g.Keys + (set n, m | n in g && m in g[n] :: m)
  }

  ghost predicate Path(g: Graph, p: seq<Name>) {
    forall i :: 0 <= i < |p| - 1 ==> p[i + 1] in Succ(g, p[i])
  }

  ghost predicate Cycle(g: Graph, p: seq<Name>) {
    |p| >= 2 && Path(g, p) && p[0] == p[|p| - 1]
  }

  ghost predicate HasCycle(g: Graph) {
    exists p :: Cycle(g, p)
  }

  /** Every listed node comes after all its successors. */
  ghost predicate Settled(g: Graph, s: seq<Name>) {
    forall k, m :: 0 <= k < |s| && m in Succ(g, s[k]) ==> m in s[..k]
  }

  ghost predicate IsTopological(g: Graph, s: seq<Name>) {
    NoDup(s) && Elems(s) == Nodes(g) && Settled(g, s)
  }

  /** In a settled list every edge points strictly backwards. */
  lemma EdgeGoesBack(g: Graph, s: seq<Name>, n: Name, m: Name)
    requires Settled(g, s) && n in s && m in Succ(g, n)
    ensures 0 <= IndexOf(s, m) < IndexOf(s, n)
  {
    var k := IndexOf(s, n);
    assert s[k] == n;
    assert m in s[..k];
    var j :| 0 <= j < k && s[..k][j] == m;
    assert s[j] == m;
  }

  lemma {:induction false} PathGoesBack(g: Graph, s: seq<Name>, p: seq<Name>)
    requires Settled(g, s) && |p| >= 2 && Path(g, p) && p[0] in s
    ensures 0 <= IndexOf(s, p[|p| - 1]) < IndexOf(s, p[0])
  {
    assert p[1] in Succ(g, p[0]);
    EdgeGoesBack(g, s, p[0], p[1]);
    if |p| > 2 {
      PathGoesBack(g, s, p[1..]);
    }
  }

  lemma TopologicalMeansAcyclic(g: Graph, s: seq<Name>)
    requires IsTopological(g, s)
    ensures !HasCycle(g)
  {
    if HasCycle(g) {
      var p :| Cycle(g, p);
      assert p[1] in Succ(g, p[0]);
      assert p[0] in Elems(s);
      PathGoesBack(g, s, p);
      assert false;
    }
  }

  class Sorter {
    const g: Graph
    ghost const all: set<Name>
    var visited: set<Name>
    var tempMarked: set<Name>
    var stack: seq<Name>

    ghost predicate Valid()
      reads this
    {
      && (forall n, m :: n in all && m in Succ(g, n) ==> m in all)
      && visited == Elems(stack) <= all
      && tempMarked <= all - visited
      && NoDup(stack)
      && Settled(g, stack)
    }

    constructor (g: Graph)
      ensures this.g == g && all == Nodes(g)
      ensures Valid() && stack == [] && tempMarked == {}
    {
      this.g, all := g, Nodes(g);
      visited, tempMarked, stack := {}, {}, [];
    }

    /** `trail` is the chain of nodes whose visits are still open. */
    method Visit(node: Name, ghost trail: seq<Name>) returns (ok: bool)
      requires Valid() && node in all
      requires tempMarked == Elems(trail) && Path(g, trail + [node])
      modifies this`visited, this`tempMarked, this`stack
      ensures ok ==> Valid() && tempMarked == old(tempMarked)
      ensures ok ==> node in visited && old(visited) <= visited
      ensures !ok ==> HasCycle(g)
      decreases |all - tempMarked|, 1
    {
      if node in tempMarked {
        CloseCycle(g, trail, node);
        return false;
      }
      if node !in visited {
        Smaller(all - tempMarked - {node}, all - tempMarked);
        assert all - (tempMarked + {node}) == all - tempMarked - {node};
        tempMarked := tempMarked + {node};
        var fine := VisitNeighbors(node, trail + [node]);
        if !fine {
          return false;
        }
        tempMarked := tempMarked - {node};
        Push(g, stack, node);
        visited, stack := visited + {node}, stack + [node];
      }
      return true;
    }

    method VisitNeighbors(node: Name, ghost open: seq<Name>) returns (ok: bool)
      requires Valid() && node in all
      requires open != [] && open[|open| - 1] == node
      requires tempMarked == Elems(open) && Path(g, open)
      modifies this`visited, this`tempMarked, this`stack
      ensures ok ==> Valid() && tempMarked == old(tempMarked)
      ensures ok ==> old(visited) <= visited && forall m :: m in Succ(g, node) ==> m in visited
      ensures !ok ==> HasCycle(g)
      decreases |all - tempMarked|, 2
    {
      var next := Succ(g, node);
      for i := 0 to |next|
        invariant Valid() && tempMarked == old(tempMarked)
        invariant old(visited) <= visited
        invariant forall k :: 0 <= k < i ==> next[k] in visited
      {
        ExtendPath(g, open, next[i]);
        var fine := Visit(next[i], open);
        if !fine {
          return false;
        }
      }
      return true;
    }
  }

  lemma Push(g: Graph, s: seq<Name>, n: Name)
    requires NoDup(s) && Settled(g, s) && n !in s
    requires forall m :: m in Succ(g, n) ==> m in s
    ensures NoDup(s + [n]) && Settled(g, s + [n]) && Elems(s + [n]) == Elems(s) + {n}
  {
    var t := s + [n];
    forall k, m | 0 <= k < |t| && m in Succ(g, t[k]) ensures m in t[..k] {
      assert t[..k] == s[..k];
    }
  }

  lemma Smaller(a: set<Name>, b: set<Name>)
    requires a < b
    ensures |a| < |b|
  {
    assert |b| == |a| + |b - a| by {
      assert b == a + (b - a);
    }
    var x :| x in b - a;
  }

  lemma ExtendPath(g: Graph, p: seq<Name>, m: Name)
    requires p != [] && Path(g, p) && m in Succ(g, p[|p| - 1])
    ensures Path(g, p + [m])
  {
  }

  lemma CloseCycle(g: Graph, trail: seq<Name>, node: Name)
    requires node in trail && Path(g, trail + [node])
    ensures HasCycle(g)
  {
    var k :| 0 <= k < |trail| && trail[k] == node;
    var p := (trail + [node])[k..];
    assert forall i :: 0 <= i < |p| ==> p[i] == (trail + [node])[k + i];
    assert Cycle(g, p);
  }

  /** Roots are tried in an unspecified order, as a map iteration does.
      The sort fails exactly on a cyclic graph; otherwise it lists every node
      once, after everything it points to. */
  method TopologicalSort(g: Graph) returns (ok: bool, sorted: seq<Name>)
    ensures ok <==> !HasCycle(g)
    ensures ok ==> IsTopological(g, sorted)
    ensures !ok ==> sorted == []
  {
    var sorter := new Sorter(g);
    var todo := g.Keys;
    while todo != {}
      invariant sorter.g == g && sorter.Valid() && sorter.tempMarked == {}
      invariant todo <= g.Keys && g.Keys - todo <= sorter.visited
    {
      var node :| node in todo;
      todo := todo - {node};
      if node !in sorter.visited {
        var fine := sorter.Visit(node, []);
        if !fine {
          return false, [];
        }
      }
    }
    sorted := sorter.stack;
    forall n, m | n in g && m in g[n] ensures m in sorter.visited {
      assert n in sorter.visited;
      EdgeGoesBack(g, sorted, n, m);
    }
    assert Elems(sorted) == Nodes(g);
    TopologicalMeansAcyclic(g, sorted);
    ok := true;
  }

  // ----- the Require graph of a schema

  /** One vertex per state with requirements. */
  ghost function RequireGraph(schema: Schema): Graph {
    map n | n in schema && schema[n].require != [] :: schema[n].require
  }

  ghost predicate Acyclic(schema: Schema) {
    !HasCycle(RequireGraph(schema))
  }

  /** What the resolver knows of the order: a topological order, or nothing. */
  ghost predicate TopologyOf(schema: Schema, topology: seq<Name>) {
    if Acyclic(schema) then IsTopological(RequireGraph(schema), topology) else topology == []
  }

  /** Adds one edge at a time, creating the vertex with the first one. */
  method AddEdges(g: Graph, src: Name, dests: seq<Name>) returns (r: Graph)
    requires src !in g
    ensures Succ(r, src) == dests
    ensures r.Keys == g.Keys + (if dests == [] then {} else {src})
    ensures forall n :: n in g ==> r[n] == g[n]
  {
    r := g;
    for k := 0 to |dests|
      invariant Succ(r, src) == dests[..k]
      invariant r.Keys == g.Keys + (if k == 0 then {} else {src})
      invariant forall n :: n in g ==> r[n] == g[n]
    {
      r := r[src := Succ(r, src) + [dests[k]]];
    }
  }

  lemma RequireGraphBuilt(schema: Schema, index: seq<Name>, g: Graph)
    requires Elems(index) == schema.Keys && g.Keys <= Elems(index)
    requires forall k :: 0 <= k < |index| ==> Succ(g, index[k]) == Def(schema, index[k]).require
    requires forall n :: n in g ==> g[n] != []
    ensures g == RequireGraph(schema)
  {
    forall n | n in schema ensures Succ(g, n) == schema[n].require {
      assert n in Elems(index);
      var k :| 0 <= k < |index| && index[k] == n;
    }
  }

  /** Builds the Require graph state by state and sorts it. */
  method NewSchema(schema: Schema, index: seq<Name>) returns (topology: seq<Name>)
    requires Elems(index) == schema.Keys && NoDup(index)
    ensures TopologyOf(schema, topology)
  {
    var g: Graph := map[];
    for i := 0 to |index|
      invariant g.Keys <= Elems(index[..i])
      invariant forall k :: 0 <= k < i ==> Succ(g, index[k]) == Def(schema, index[k]).require
      invariant forall n :: n in g ==> g[n] != []
    {
      assert index[i] !in index[..i];
      g := AddEdges(g, index[i], Def(schema, index[i]).require);
    }
    assert index[..|index|] == index;
    RequireGraphBuilt(schema, index, g);
    var ok, sorted := TopologicalSort(g);
    topology := sorted;
  }

  /** With acyclic Require, requirements come strictly earlier in the order. */
  lemma RequiredComesFirst(schema: Schema, topology: seq<Name>, n: Name, r: Name)
    requires Acyclic(schema) && TopologyOf(schema, topology)
    requires r in Def(schema, n).require
    ensures 0 <= IndexOf(topology, r) < IndexOf(topology, n)
  {
    var g := RequireGraph(schema);
    assert n in Nodes(g);
    assert n in Elems(topology);
    EdgeGoesBack(g, topology, n, r);
  }
}
