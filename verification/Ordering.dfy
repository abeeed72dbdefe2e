/** `order_by_deps`: a depth-first walk over the items themselves. A name is marked when first met;
    a dependency is looked up in a map that the last item of a name wins. */
module Ordering {
  import opened Domain
  import opened Repo
  import opened Traversal
  import opened Planner

  /** The item of each name that a dependency leads to. */
  function ByName(items: seq<RepoEntry>): (m: map<Name, RepoEntry>)
    ensures m.Keys == EntryNames(items)
    ensures forall n :: n in m ==> m[n] in items && m[n].name == n
  {
    if items == [] then map[]
    else
      var front, last := items[..|items| - 1], items[|items| - 1];
      assert items == front + [last];
      ByName(front)[last.name := last]
  }

  /** Some item of name `n` depends on the name `d`, which is among the items. */
  ghost predicate Needs(items: seq<RepoEntry>, n: Name, d: Name) {
    d in EntryNames(items) && exists e :: e in items && e.name == n && d in e.deps
  }

  /** The dependencies of all items named `n`. */
  function DepsOf(items: seq<RepoEntry>, n: Name): (ds: seq<Name>)
    ensures forall d :: d in ds <==> exists e :: e in items && e.name == n && d in e.deps
  {
    if items == [] then []
    else
      var front, last := items[..|items| - 1], items[|items| - 1];
      assert items == front + [last];
      DepsOf(front, n) + if last.name == n then last.deps else []
  }

  function Among(ds: seq<Name>, s: set<Name>): (r: seq<Name>)
    ensures forall d :: d in r <==> d in ds && d in s
  {
    if ds == [] then [] else (if ds[0] in s then [ds[0]] else []) + Among(ds[1..], s)
  }

  /** The dependencies between the items, by name. */
  function ItemGraph(items: seq<RepoEntry>): Graph {
    map n | n in EntryNames(items) :: Among(DepsOf(items, n), EntryNames(items))
  }

  lemma {:induction false} ItemEdge(items: seq<RepoEntry>, n: Name, d: Name)
    ensures Edge(ItemGraph(items), n, d) <==> Needs(items, n, d)
  {
    hide DepsOf, Among;
    if Needs(items, n, d) {
      var e :| e in items && e.name == n && d in e.deps;
      assert n in EntryNames(items);
    }
  }

  /** The same items in another order have the same cycles. */
  lemma {:induction false} SameItemsSameCycles(a: seq<RepoEntry>, b: seq<RepoEntry>)
    requires forall e :: e in a <==> e in b
    ensures Acyclic(ItemGraph(a)) <==> Acyclic(ItemGraph(b))
  {
    hide ItemGraph, Acyclic;
    assert EntryNames(a) == EntryNames(b);
    forall n, d
      ensures Edge(ItemGraph(a), n, d) <==> Edge(ItemGraph(b), n, d)
    {
      ItemEdge(a, n, d);
      ItemEdge(b, n, d);
    }
    if Acyclic(ItemGraph(a)) {
      SubgraphAcyclic(ItemGraph(a), ItemGraph(b));
    }
    if Acyclic(ItemGraph(b)) {
      SubgraphAcyclic(ItemGraph(b), ItemGraph(a));
    }
  }

  // ----- the walk -----

  ghost function NamesOf(es: seq<RepoEntry>): seq<Name> {
    seq(|es|, i requires 0 <= i < |es| => es[i].name)
  }

  /** Every dependency among `names` is listed before its dependents. */
  ghost predicate DepsBefore(names: set<Name>, out: seq<RepoEntry>) {
    forall i, d :: 0 <= i < |out| && d in out[i].deps && d in names ==> d in EntryNames(out[..i])
  }

  ghost predicate DepsMet(names: set<Name>, out: seq<RepoEntry>, done: set<Name>) {
    forall e, d :: e in out && d in e.deps && d in names ==> d in done
  }

  /** A walk in progress; `stack` holds the items whose visit has begun and not ended. */
  ghost predicate Placed(items: seq<RepoEntry>, done: set<Name>, out: seq<RepoEntry>, stack: seq<RepoEntry>) {
    && (forall e :: e in out || e in stack ==> e in items)
    && done == EntryNames(out) + EntryNames(stack)
    && EntryNames(out) !! EntryNames(stack)
    && DistinctNames(out)
    && IsPath(ItemGraph(items), NamesOf(stack))
    && DepsMet(EntryNames(items), out, done)
    && (Acyclic(ItemGraph(items)) ==> DepsBefore(EntryNames(items), out))
  }

  lemma {:induction false} NamesSnoc(es: seq<RepoEntry>, e: RepoEntry)
    ensures EntryNames(es + [e]) == EntryNames(es) + {e.name} && NamesOf(es + [e]) == NamesOf(es) + [e.name]
  {
  }

  lemma {:induction false} EnterItem(
      items: seq<RepoEntry>, done: set<Name>, out: seq<RepoEntry>, stack: seq<RepoEntry>, e: RepoEntry)
    requires Placed(items, done, out, stack) && e in items && e.name !in done
    requires stack != [] ==> e.name in stack[|stack| - 1].deps
    ensures Placed(items, done + {e.name}, out, stack + [e])
  {
    hide ItemGraph, Acyclic, DepsBefore;
    NamesSnoc(stack, e);
    var g, p := ItemGraph(items), NamesOf(stack + [e]);
    forall k | 0 <= k < |p| - 1
      ensures Edge(g, p[k], p[k + 1])
    {
      if k < |stack| - 1 {
        assert Edge(g, NamesOf(stack)[k], NamesOf(stack)[k + 1]);
      } else {
        assert stack[k] in stack && Needs(items, p[k], e.name);
        ItemEdge(items, p[k], e.name);
      }
    }
  }

  lemma {:induction false} LeaveItem(
      items: seq<RepoEntry>, done: set<Name>, out: seq<RepoEntry>, stack: seq<RepoEntry>, e: RepoEntry)
    requires Placed(items, done, out, stack + [e]) && e.name !in EntryNames(stack)
    requires forall d :: d in e.deps && d in EntryNames(items) ==> d in done
    ensures Placed(items, done, out + [e], stack)
  {
    hide ItemGraph, Acyclic, DepsBefore;
    NamesSnoc(stack, e);
    NamesSnoc(out, e);
    assert forall x :: x in stack ==> x in stack + [e];
    assert e in stack + [e];
    var g := ItemGraph(items);
    forall k | 0 <= k < |stack| - 1
      ensures Edge(g, NamesOf(stack)[k], NamesOf(stack)[k + 1])
    {
      assert Edge(g, NamesOf(stack + [e])[k], NamesOf(stack + [e])[k + 1]);
    }
    LeaveBefore(items, done, out, stack, e);
  }

  lemma {:induction false} LeaveBefore(
      items: seq<RepoEntry>, done: set<Name>, out: seq<RepoEntry>, stack: seq<RepoEntry>, e: RepoEntry)
    requires Placed(items, done, out, stack + [e])
    requires forall d :: d in e.deps && d in EntryNames(items) ==> d in done
    ensures Acyclic(ItemGraph(items)) ==> DepsBefore(EntryNames(items), out + [e])
  {
    hide ItemGraph, Acyclic;
    if Acyclic(ItemGraph(items)) {
      var out' := out + [e];
      forall i, d | 0 <= i < |out'| && d in out'[i].deps && d in EntryNames(items)
        ensures d in EntryNames(out'[..i])
      {
        if i < |out| {
          assert out'[..i] == out[..i];
        } else {
          assert out'[..i] == out;
          DependencyIsListed(items, done, out, stack, e, d);
        }
      }
    }
  }

  /** On an acyclic graph a dependency of the item being left cannot be in progress. */
  lemma {:induction false} DependencyIsListed(
      items: seq<RepoEntry>, done: set<Name>, out: seq<RepoEntry>, stack: seq<RepoEntry>, e: RepoEntry, d: Name)
    requires Placed(items, done, out, stack + [e]) && Acyclic(ItemGraph(items))
    requires d in e.deps && d in EntryNames(items) && d in done
    ensures d in EntryNames(out)
  {
    hide ItemGraph, Acyclic, DepsBefore;
    if d !in EntryNames(out) {
      NamesSnoc(stack, e);
      var p := NamesOf(stack + [e]);
      var x :| x in stack + [e] && x.name == d;
      var k :| 0 <= k <= |stack| && (stack + [e])[k] == x;
      assert p[k] == d && d in p;
      assert e in stack + [e] && Needs(items, e.name, d);
      ItemEdge(items, e.name, d);
      CycleThroughStack(ItemGraph(items), p, d);
    }
  }

  class ItemVisitor {
    const items: seq<RepoEntry>
    const byName: map<Name, RepoEntry>
    var done: set<Name>
    var out: seq<RepoEntry>

    constructor (items: seq<RepoEntry>)
      ensures this.items == items && Valid([]) && out == [] && done == {}
    {
      this.items, byName, done, out := items, ByName(items), {}, [];
    }

    ghost predicate Valid(stack: seq<RepoEntry>)
      reads this
    {
      byName == ByName(items) && Placed(items, done, out, stack)
    }

    method Visit(e: RepoEntry, ghost stack: seq<RepoEntry>)
      requires Valid(stack) && e in items
      requires stack != [] ==> e.name in stack[|stack| - 1].deps
      modifies this
      ensures Valid(stack) && e.name in done && old(done) <= done
      decreases EntryNames(items) - done
    {
      hide Placed, ByName;
      if e.name in done {
        return;
      }
      EnterItem(items, done, out, stack, e);
      Fresh(items, done, out, stack, e);
      done := done + {e.name};
      for i := 0 to |e.deps|
        invariant Valid(stack + [e]) && old(done) + {e.name} <= done
        invariant forall k :: 0 <= k < i && e.deps[k] in EntryNames(items) ==> e.deps[k] in done
      {
        if e.deps[i] in byName {
          Visit(byName[e.deps[i]], stack + [e]);
        }
      }
      LeaveItem(items, done, out, stack, e);
      out := out + [e];
    }
  }

  lemma {:induction false} Fresh(
      items: seq<RepoEntry>, done: set<Name>, out: seq<RepoEntry>, stack: seq<RepoEntry>, e: RepoEntry)
    requires Placed(items, done, out, stack) && e in items && e.name !in done
    ensures e.name !in EntryNames(stack) && e.name in EntryNames(items) && done <= EntryNames(items)
  {
    hide ItemGraph, Acyclic, DepsBefore;
  }

  lemma {:induction false} DistinctMultiset(a: seq<RepoEntry>, x: RepoEntry)
    requires DistinctNames(a)
    ensures multiset(a)[x] == if x in a then 1 else 0
  {
    if a != [] {
      var front, last := a[..|a| - 1], a[|a| - 1];
      assert a == front + [last];
      DistinctMultiset(front, x);
    }
  }

  /** For any list: every name of the list once, each with one of its items, dependencies first
      unless there is a cycle. Uniquely named items are permuted. */
  method OrderByDeps(items: seq<RepoEntry>) returns (out: seq<RepoEntry>)
    ensures DistinctNames(out) && EntryNames(out) == EntryNames(items)
    ensures forall e :: e in out ==> e in items
    ensures DistinctNames(items) ==> multiset(out) == multiset(items)
    ensures Acyclic(ItemGraph(items)) ==> DepsFirst(out)
  {
    hide Placed, ByName, Acyclic, ItemGraph, DepsFirst;
    var v := new ItemVisitor(items);
    for i := 0 to |items|
      invariant v.Valid([]) && v.items == items && forall k :: 0 <= k < i ==> items[k].name in v.done
    {
      v.Visit(items[i], []);
    }
    out := v.out;
    Finished(items, v.done, out);
  }

  lemma {:induction false} Finished(items: seq<RepoEntry>, done: set<Name>, out: seq<RepoEntry>)
    requires Placed(items, done, out, []) && forall k :: 0 <= k < |items| ==> items[k].name in done
    ensures DistinctNames(out) && EntryNames(out) == EntryNames(items)
    ensures forall e :: e in out ==> e in items
    ensures DistinctNames(items) ==> multiset(out) == multiset(items)
    ensures Acyclic(ItemGraph(items)) ==> DepsFirst(out)
  {
    hide ItemGraph, Acyclic;
    assert EntryNames([]) == {};
    if DistinctNames(items) {
      forall x
        ensures multiset(out)[x] == multiset(items)[x]
      {
        SameItems(items, out, x);
        DistinctMultiset(out, x);
        DistinctMultiset(items, x);
      }
    }
  }

  lemma {:induction false} SameItems(items: seq<RepoEntry>, out: seq<RepoEntry>, x: RepoEntry)
    requires DistinctNames(items) && EntryNames(out) == EntryNames(items) && forall e :: e in out ==> e in items
    ensures x in out <==> x in items
  {
    if x in items {
      assert x.name in EntryNames(out);
      var e :| e in out && e.name == x.name;
      assert e in items;
    }
  }
}
