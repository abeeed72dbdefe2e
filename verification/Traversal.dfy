/** The depth-first visit that dependency resolution, install ordering and removal ordering share:
    a name is marked when first met, its successors are visited, then it is listed. */
module Traversal {
  import opened Domain

  /** Each name's successors, in the order they are visited. A name outside the map is unknown. */
  type Graph = map<Name, seq<Name>>

  ghost predicate Edge(g: Graph, a: Name, b: Name) {
    a in g && b in g[a]
  }

  ghost predicate IsPath(g: Graph, p: seq<Name>) {
    forall k :: 0 <= k < |p| - 1 ==> Edge(g, p[k], p[k + 1])
  }

  ghost predicate Acyclic(g: Graph) {
    forall p :: |p| >= 2 && IsPath(g, p) ==> p[0] != p[|p| - 1]
  }

  /** Fewer edges cannot create a cycle. */
  lemma {:induction false} SubgraphAcyclic(g: Graph, h: Graph)
    requires Acyclic(g)
    requires forall a, b :: Edge(h, a, b) ==> Edge(g, a, b)
    ensures Acyclic(h)
  {
    forall p | |p| >= 2 && IsPath(h, p)
      ensures p[0] != p[|p| - 1]
    {
      assert IsPath(g, p);
    }
  }

  ghost predicate Distinct(s: seq<Name>) {
    forall i, j :: 0 <= i < j < |s| ==> s[i] != s[j]
  }

  /** Every known successor is listed before the name itself. */
  ghost predicate Topological(g: Graph, order: seq<Name>) {
    forall i, d :: 0 <= i < |order| && Edge(g, order[i], d) && d in g ==> d in order[..i]
  }

  /** All successors of listed names were met. */
  ghost predicate ClosedUnder(g: Graph, order: seq<Name>, seen: set<Name>) {
    forall n, d :: n in order && Edge(g, n, d) ==> d in seen
  }

  ghost predicate EdgeClosed(g: Graph, s: set<Name>) {
    forall a, b :: a in s && Edge(g, a, b) ==> b in s
  }

  ghost function NamesIn(g: Graph): set<Name> {
    set n, d | n in g && d in g[n] :: d
  }

  lemma {:induction false} CycleThroughStack(g: Graph, stack: seq<Name>, d: Name)
    requires IsPath(g, stack) && stack != [] && d in stack && Edge(g, stack[|stack| - 1], d)
    ensures !Acyclic(g)
  {
    var k :| 0 <= k < |stack| && stack[k] == d;
    var p := stack[k..] + [d];
    forall i | 0 <= i < |p| - 1
      ensures Edge(g, p[i], p[i + 1])
    {
      if i < |p| - 2 {
        assert Edge(g, stack[k + i], stack[k + i + 1]);
      }
    }
    assert IsPath(g, p) && p[0] == p[|p| - 1];
  }

  /** The marks and lists of a visit in progress; `stack` holds the names whose visit has begun
      and not ended. */
  ghost predicate Coherent(g: Graph, seen: set<Name>, order: seq<Name>, missing: seq<Name>, stack: seq<Name>) {
    && IsPath(g, stack)
    && Distinct(order)
    && (forall n :: n in seen <==> n in order || n in stack || n in missing)
    && (forall n :: n in order || n in stack ==> n in g)
    && (forall n :: n in missing ==> n !in g)
    && (forall n :: n in order ==> n !in stack)
    && Distinct(stack)
    && ClosedUnder(g, order, seen)
    && (Acyclic(g) ==> Topological(g, order))
  }

  lemma {:induction false} EnterKnown(
      g: Graph, seen: set<Name>, order: seq<Name>, missing: seq<Name>, stack: seq<Name>, n: Name)
    requires Coherent(g, seen, order, missing, stack) && n !in seen && n in g
    requires stack != [] ==> Edge(g, stack[|stack| - 1], n)
    ensures Coherent(g, seen + {n}, order, missing, stack + [n])
  {
    hide Acyclic, Topological;
  }

  lemma {:induction false} EnterUnknown(
      g: Graph, seen: set<Name>, order: seq<Name>, missing: seq<Name>, stack: seq<Name>, n: Name)
    requires Coherent(g, seen, order, missing, stack) && n !in seen && n !in g
    ensures Coherent(g, seen + {n}, order, missing + [n], stack)
  {
    hide Acyclic, Topological;
  }

  lemma {:induction false} Leave(
      g: Graph, seen: set<Name>, order: seq<Name>, missing: seq<Name>, stack: seq<Name>, n: Name)
    requires Coherent(g, seen, order, missing, stack + [n])
    requires forall d :: d in g[n] ==> d in seen
    ensures Coherent(g, seen, order + [n], missing, stack)
  {
    hide Acyclic, Topological;
    LeaveInOrder(g, seen, order, missing, stack, n);
    assert n in stack + [n];
    assert forall m :: m in stack ==> m in stack + [n];
    forall k | 0 <= k < |stack| - 1
      ensures Edge(g, stack[k], stack[k + 1])
    {
      assert Edge(g, (stack + [n])[k], (stack + [n])[k + 1]);
    }
    forall k | 0 <= k < |stack|
      ensures stack[k] != n
    {
      assert (stack + [n])[k] != (stack + [n])[|stack|];
    }
    assert Distinct(stack) by {
      assert forall k :: 0 <= k < |stack| ==> stack[k] == (stack + [n])[k];
    }
    assert ClosedUnder(g, order + [n], seen);
  }

  lemma {:induction false} LeaveInOrder(
      g: Graph, seen: set<Name>, order: seq<Name>, missing: seq<Name>, stack: seq<Name>, n: Name)
    requires Coherent(g, seen, order, missing, stack + [n]) && n in g
    requires forall d :: d in g[n] ==> d in seen
    ensures Acyclic(g) ==> Topological(g, order + [n])
  {
    if Acyclic(g) {
      forall i, d | 0 <= i < |order + [n]| && Edge(g, (order + [n])[i], d) && d in g
        ensures d in (order + [n])[..i]
      {
        if i == |order| {
          assert (order + [n])[..i] == order;
          if d in stack + [n] {
            CycleThroughStack(g, stack + [n], d);
          }
        } else {
          assert (order + [n])[..i] == order[..i];
        }
      }
    }
  }

  class Visitor {
    const graph: Graph
    var seen: set<Name>
    var order: seq<Name>
    var missing: seq<Name>
    /** Everything that can be met. */
    ghost const universe: set<Name>

    constructor (graph: Graph, ghost roots: set<Name>)
      ensures Valid([]) && order == [] && missing == [] && seen == {}
      ensures this.graph == graph && universe == NamesIn(graph) + roots
    {
      this.graph := graph;
      seen, order, missing := {}, [], [];
      universe := NamesIn(graph) + roots;
    }

    ghost predicate Valid(stack: seq<Name>)
      reads this
    {
      NamesIn(graph) <= universe && seen <= universe && Coherent(graph, seen, order, missing, stack)
    }

    method Visit(n: Name, ghost stack: seq<Name>)
      requires Valid(stack) && n in universe
      requires stack != [] ==> Edge(graph, stack[|stack| - 1], n)
      modifies this
      ensures Valid(stack)
      ensures n in seen && old(seen) <= seen
      ensures old(order) <= order && old(missing) <= missing
      ensures forall s :: EdgeClosed(graph, s) && old(seen) <= s && n in s ==> seen <= s
      decreases universe - seen
    {
      hide Coherent;
      if n in seen {
        return;
      }
      if n !in graph {
        EnterUnknown(graph, seen, order, missing, stack, n);
        seen, missing := seen + {n}, missing + [n];
        return;
      }
      EnterKnown(graph, seen, order, missing, stack, n);
      seen := seen + {n};
      var succ := graph[n];
      for i := 0 to |succ|
        invariant Valid(stack + [n])
        invariant old(seen) + {n} <= seen
        invariant old(order) <= order && old(missing) <= missing
        invariant forall s :: EdgeClosed(graph, s) && old(seen) <= s && n in s ==> seen <= s
        invariant forall k :: 0 <= k < i ==> succ[k] in seen
      {
        assert Edge(graph, n, succ[i]);
        assert succ[i] in NamesIn(graph);
        Visit(succ[i], stack + [n]);
      }
      Leave(graph, seen, order, missing, stack, n);
      order := order + [n];
    }

    method VisitAll(names: seq<Name>)
      requires Valid([]) && forall n :: n in names ==> n in universe
      modifies this
      ensures Valid([])
      ensures forall n :: n in names ==> n in seen
      ensures old(seen) <= seen && old(order) <= order
      ensures forall s :: EdgeClosed(graph, s) && old(seen) <= s && (forall n :: n in names ==> n in s) ==> seen <= s
    {
      for i := 0 to |names|
        invariant Valid([])
        invariant forall k :: 0 <= k < i ==> names[k] in seen
        invariant old(seen) <= seen && old(order) <= order
        invariant forall s :: EdgeClosed(graph, s) && old(seen) <= s && (forall n :: n in names ==> n in s) ==>
            seen <= s
      {
        Visit(names[i], []);
      }
    }
  }
}
