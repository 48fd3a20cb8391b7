/**
 The import graph of module instances, as guarded by the guest-execution lock
 (internal/wasm/execution.go): which modules import which, which are closed and
 which have already released their memory.

 This module holds the graph as a value, what "transitively imports" means, and
 the specification of the retirement worklist. The worklist itself is in
 RetireWorklist.dfy.
 */
module ImportGraph {

  type Id(==, !new)

  type Edges = map<Id, seq<Id>>

  /** `closed` is memoryClosed, `released` is memoryReleased, `imports` is
      importedModules and `importers` the reverse edges with their multiplicity. */
  datatype Graph = Graph(
    closed: set<Id>,
    released: set<Id>,
    imports: Edges,
    importers: map<Id, map<Id, nat>>)

  const EmptyGraph := Graph({}, {}, map[], map[])

  function ImportsOf(edges: Edges, a: Id): seq<Id> {
    if a in edges then edges[a] else []
  }

  function ImportersOf(importers: map<Id, map<Id, nat>>, b: Id): map<Id, nat> {
    if b in importers then importers[b] else map[]
  }

  predicate Edge(edges: Edges, a: Id, b: Id) {
    b in ImportsOf(edges, a)
  }

  // Reachability

  ghost predicate IsPath(edges: Edges, p: seq<Id>, a: Id, b: Id) {
    && p != [] && p[0] == a && p[|p| - 1] == b
    && forall i :: 0 <= i < |p| - 1 ==> Edge(edges, p[i], p[i + 1])
  }

  /** `a` is `b`, or imports it directly or through other modules. */
  ghost predicate Reaches(edges: Edges, a: Id, b: Id) {
    exists p :: IsPath(edges, p, a, b)
  }

  lemma ReachesSelf(edges: Edges, a: Id)
    ensures Reaches(edges, a, a)
  {
    assert IsPath(edges, [a], a, a);
  }

  lemma ReachesThrough(edges: Edges, a: Id, b: Id, c: Id)
    requires Reaches(edges, a, b) && Reaches(edges, b, c)
    ensures Reaches(edges, a, c)
  {
    var p :| IsPath(edges, p, a, b);
    var q :| IsPath(edges, q, b, c);
    assert IsPath(edges, p + q[1..], a, c);
  }

  lemma ReachesEdge(edges: Edges, a: Id, b: Id)
    requires Edge(edges, a, b)
    ensures Reaches(edges, a, b)
  {
    assert IsPath(edges, [a, b], a, b);
  }

  /** Whatever reaches into a set closed under "is imported by" is in the set. */
  lemma AncestorsStay(edges: Edges, s: set<Id>, a: Id, b: Id)
    requires forall x, y :: Edge(edges, x, y) && y in s ==> x in s
    requires b in s && Reaches(edges, a, b)
    ensures a in s
  {
    var p :| IsPath(edges, p, a, b);
    AncestorsStayOnPath(edges, s, p, a, b);
  }

  lemma {:induction false} AncestorsStayOnPath(edges: Edges, s: set<Id>, p: seq<Id>, a: Id, b: Id)
    requires forall x, y :: Edge(edges, x, y) && y in s ==> x in s
    requires b in s && IsPath(edges, p, a, b)
    ensures a in s
    decreases |p|
  {
    if |p| > 1 {
      assert IsPath(edges, p[1..], p[1], b);
      AncestorsStayOnPath(edges, s, p[1..], p[1], b);
      assert Edge(edges, p[0], p[1]);
    }
  }

  /** Removing edges removes reachability. */
  lemma ReachesFewer(edges: Edges, edges': Edges, a: Id, b: Id)
    requires forall x, y :: Edge(edges', x, y) ==> Edge(edges, x, y)
    requires Reaches(edges', a, b)
    ensures Reaches(edges, a, b)
  {
    var p :| IsPath(edges', p, a, b);
    assert IsPath(edges, p, a, b);
  }

  /** `edges'` is `edges` with every import of the modules in `s` dropped. */
  ghost predicate DropsImportsOf(edges: Edges, edges': Edges, s: set<Id>) {
    forall x :: ImportsOf(edges', x) == if x in s then [] else ImportsOf(edges, x)
  }

  /** A path into a module outside `s` either avoids `s`, and so survives dropping the
      imports of `s`, or leaves `s` by an edge to some `z` from where it survives. */
  lemma {:induction false} LeavesOnce(edges: Edges, edges': Edges, s: set<Id>, p: seq<Id>, a: Id, b: Id)
    requires forall x, y :: Edge(edges, x, y) && y in s ==> x in s
    requires DropsImportsOf(edges, edges', s)
    requires b !in s && IsPath(edges, p, a, b)
    ensures a !in s ==> Reaches(edges', a, b)
    ensures a in s ==> exists x, z :: x in s && z !in s && Edge(edges, x, z) && Reaches(edges', z, b)
    decreases |p|
  {
    if |p| == 1 {
      ReachesSelf(edges', a);
    } else {
      assert Edge(edges, p[0], p[1]);
      assert IsPath(edges, p[1..], p[1], b);
      LeavesOnce(edges, edges', s, p[1..], p[1], b);
      if a !in s {
        assert Edge(edges', a, p[1]);
        ReachesEdge(edges', a, p[1]);
        ReachesThrough(edges', a, p[1], b);
      }
    }
  }

  // Retention

  /** Some module that is not closed still depends on `n`. */
  ghost predicate Retained(closed: set<Id>, edges: Edges, n: Id) {
    exists a :: a !in closed && Reaches(edges, a, n)
  }

  /** Forward and reverse edges agree: an importer's count is the multiplicity of the import. */
  ghost predicate Counted(edges: Edges, importers: map<Id, map<Id, nat>>) {
    forall a, b :: CountedAt(edges, importers, a, b)
  }

  ghost predicate CountedAt(edges: Edges, importers: map<Id, map<Id, nat>>, a: Id, b: Id) {
    && (a in ImportersOf(importers, b) <==> Edge(edges, a, b))
    && (a in ImportersOf(importers, b) ==> ImportersOf(importers, b)[a] == multiset(ImportsOf(edges, a))[b])
  }

  ghost predicate WellFormed(g: Graph) {
    && g.released <= g.closed
    && Counted(g.imports, g.importers)
    && forall x :: x in g.released ==> ImportsOf(g.imports, x) == []
  }

  /** Graph exactness: a module has released its memory exactly when it is closed and no
      module that is not closed transitively imports it. */
  ghost predicate Exact(g: Graph) {
    forall n :: n in g.released <==> n in g.closed && !Retained(g.closed, g.imports, n)
  }

  ghost predicate Inv(g: Graph) {
    WellFormed(g) && Exact(g)
  }

  /** The graph after `m` imports `n` once more (retainImport). */
  function WithImport(g: Graph, m: Id, n: Id): Graph {
    var counts := ImportersOf(g.importers, n);
    var count := if m in counts then counts[m] else 0;
    g.(imports := g.imports[m := ImportsOf(g.imports, m) + [n]],
       importers := g.importers[n := counts[m := count + 1]])
  }

  ghost predicate NoDuplicates(ns: seq<Id>) {
    forall i, j :: 0 <= i < j < |ns| ==> ns[i] != ns[j]
  }

  /** What closing `m` must do to the graph, and which allocations it retires, each once. */
  ghost predicate Retires(g: Graph, m: Id, owners: set<Id>, g': Graph, retired: seq<Id>) {
    && m !in g.closed
    && g'.closed == g.closed + {m}
    && WellFormed(g')
    && (forall n :: n in g'.released <==> n in g'.closed && !Retained(g'.closed, g.imports, n))
    && DropsImportsOf(g.imports, g'.imports, g'.released)
    && NoDuplicates(retired)
    && (forall n :: n in retired <==> n in g'.released && n !in g.released && n in owners)
  }
}
