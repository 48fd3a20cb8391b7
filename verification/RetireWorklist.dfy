/**
 The critical sections of retainImport and retireMemory (internal/wasm/execution.go)
 over the import graph: the breadth-first search for a live importer and the
 worklist that releases closed modules, including import cycles.
 */
module RetireWorklist {
  import opened ImportGraph

  // Linking keeps the graph well formed and exact, whatever the cycles it creates.

  lemma WithImportCounted(g: Graph, m: Id, n: Id)
    requires Counted(g.imports, g.importers)
    ensures var g' := WithImport(g, m, n); Counted(g'.imports, g'.importers)
  {
    var g' := WithImport(g, m, n);
    forall a, b
      ensures CountedAt(g'.imports, g'.importers, a, b)
    {
      assert CountedAt(g.imports, g.importers, a, b);
    }
  }

  /** A new path through the added edge splits into an old path to `m` and one from `n`. */
  lemma {:induction false} ReachesAfterImport(g: Graph, m: Id, n: Id, p: seq<Id>, a: Id, b: Id)
    requires IsPath(WithImport(g, m, n).imports, p, a, b)
    ensures Reaches(g.imports, a, b) || (Reaches(g.imports, a, m) && Reaches(g.imports, n, b))
    decreases |p|
  {
    var g' := WithImport(g, m, n);
    if |p| == 1 {
      ReachesSelf(g.imports, a);
    } else {
      var c := p[1];
      assert Edge(g'.imports, p[0], p[1]);
      assert IsPath(g'.imports, p[1..], c, b);
      ReachesAfterImport(g, m, n, p[1..], c, b);
      if Edge(g.imports, a, c) {
        ReachesEdge(g.imports, a, c);
        if Reaches(g.imports, c, b) {
          ReachesThrough(g.imports, a, c, b);
        } else {
          ReachesThrough(g.imports, a, c, m);
        }
      } else {
        assert a == m && c == n;
        ReachesSelf(g.imports, m);
      }
    }
  }

  lemma WithImportKeepsInv(g: Graph, m: Id, n: Id)
    requires Inv(g) && m !in g.released && n !in g.closed
    ensures Inv(WithImport(g, m, n))
  {
    var g' := WithImport(g, m, n);
    WithImportCounted(g, m, n);
    forall x
      ensures x in g'.released <==> x in g'.closed && !Retained(g'.closed, g'.imports, x)
    {
      if Retained(g.closed, g.imports, x) {
        var a :| a !in g.closed && Reaches(g.imports, a, x);
        ReachesFewer(g'.imports, g.imports, a, x);
      } else if Retained(g'.closed, g'.imports, x) {
        var a :| a !in g'.closed && Reaches(g'.imports, a, x);
        var p :| IsPath(g'.imports, p, a, x);
        ReachesAfterImport(g, m, n, p, a, x);
      }
    }
  }

  class Modules {
    var closed: set<Id>
    var released: set<Id>
    var imports: Edges
    var importers: map<Id, map<Id, nat>>

    ghost function G(): Graph
      reads this
    {
      Graph(closed, released, imports, importers)
    }

    constructor ()
      ensures G() == EmptyGraph
    {
      closed, released, imports, importers := {}, {}, map[], map[];
    }

    /** retainImport: `isClosed` is the atomic Closed flag of the imported module. */
    method RetainImport(m: Id, imported: Id, isClosed: bool) returns (ok: bool)
      requires Inv(G()) && m !in released
      modifies this
      ensures Inv(G())
      ensures ok == !(isClosed || imported in closed)
      ensures G() == if ok then WithImport(old(G()), m, imported) else old(G())
    {
      if isClosed || imported in closed {
        return false;
      }
      ghost var g := G();
      WithImportKeepsInv(g, m, imported);
      if imported !in importers {
        importers := importers[imported := map[]];
      }
      var counts: map<Id, nat> := importers[imported];
      counts := counts[m := (if m in counts then counts[m] else 0) + 1];
      importers := importers[imported := counts];
      imports := imports[m := ImportsOf(imports, m) + [imported]];
      assert importers == WithImport(g, m, imported).importers;
      return true;
    }

    /** One round of the breadth-first search: queues the importers of `x` not yet seen, or
        finds one that is not closed. */
    method Visit(x: Id, m: Id, seen: set<Id>, modules: seq<Id>)
      returns (live: bool, seen': set<Id>, modules': seq<Id>)
      requires Counted(imports, importers)
      requires Searching(closed, imports, m, seen, modules) && x in seen
      ensures live ==> Retained(closed, imports, m)
      ensures !live ==> Searching(closed, imports, m, seen', modules')
      ensures !live ==> modules <= modules' && seen <= seen' && forall a :: Edge(imports, a, x) ==> a in seen'
    {
      seen', modules' := seen, modules;
      var todo := ImportersOf(importers, x).Keys;
      forall a
        ensures Edge(imports, a, x) <==> a in todo
      {
        assert CountedAt(imports, importers, a, x);
      }
      while todo != {}
        invariant forall a :: a in todo ==> Edge(imports, a, x)
        invariant Searching(closed, imports, m, seen', modules') && seen <= seen' && modules <= modules'
        invariant forall a :: Edge(imports, a, x) ==> a in todo || a in seen'
        decreases todo
      {
        var importer :| importer in todo;
        todo := todo - {importer};
        ReachesEdge(imports, importer, x);
        ReachesThrough(imports, importer, x, m);
        if importer !in closed {
          return true, seen', modules';
        }
        if importer !in seen' {
          seen' := seen' + {importer};
          modules' := modules' + [importer];
        }
      }
      live := false;
    }

    /** unreferencedClosedModules: empty when some importer of `m`, however indirect, is not
        closed, and otherwise `m` and all its transitive importers, each once. */
    method UnreferencedClosed(m: Id) returns (modules: seq<Id>)
      requires Counted(imports, importers) && m in closed
      ensures modules == [] <==> Retained(closed, imports, m)
      ensures modules != [] ==> forall a :: a in modules <==> Reaches(imports, a, m)
      ensures NoDuplicates(modules)
      ensures forall a :: a in modules ==> a in closed
    {
      ReachesSelf(imports, m);
      if |ImportersOf(importers, m)| == 0 {
        NoImportersOnlySelf(imports, importers, m);
        return [m];
      }
      var seen := {m};
      modules := [m];
      var i := 0;
      ghost var universe := imports.Keys + {m};
      while i < |modules|
        invariant 0 <= i <= |modules|
        invariant Searching(closed, imports, m, seen, modules)
        invariant forall a, k :: 0 <= k < i && Edge(imports, a, modules[k]) ==> a in seen
        decreases |universe| - i
      {
        SearchFits(closed, imports, m, seen, modules);
        ghost var before := modules;
        var live;
        live, seen, modules := Visit(modules[i], m, seen, modules);
        if live {
          return [];
        }
        i := i + 1;
      }
      forall a | Reaches(imports, a, m)
        ensures a in seen
      {
        AncestorsStay(imports, seen, a, m);
      }
    }

    /** Drops the import references of a released module: every reverse count goes down by
        the number of times the import occurs, and never below zero. */
    method DropImports(c: Id) returns (dropped: seq<Id>)
      requires Counted(imports, importers)
      modifies this`imports, this`importers
      ensures Counted(imports, importers)
      ensures DropsImportsOf(old(imports), imports, {c})
      ensures dropped == ImportsOf(old(imports), c)
    {
      ghost var edges := imports;
      dropped := ImportsOf(imports, c);
      assert dropped[0..] == dropped;
      forall b
        ensures RemainingAt(importers, c, dropped, b)
      {
        assert CountedAt(imports, importers, c, b);
      }
      for i := 0 to |dropped|
        invariant imports == edges
        invariant forall a, b :: a != c ==> CountedAt(edges, importers, a, b)
        invariant Remaining(importers, c, dropped[i..])
      {
        var imported := dropped[i];
        ghost var rest := dropped[i + 1..];
        assert dropped[i..] == [imported] + rest;
        assert RemainingAt(importers, c, dropped[i..], imported);
        var counts: map<Id, nat> := importers[imported];
        ghost var before := importers;
        if counts[c] - 1 == 0 {
          importers := importers[imported := counts - {c}];
        } else {
          importers := importers[imported := counts[c := counts[c] - 1]];
        }
        forall b
          ensures RemainingAt(importers, c, rest, b)
        {
          assert RemainingAt(before, c, dropped[i..], b);
        }
        forall a, b | a != c
          ensures CountedAt(edges, importers, a, b)
        {
          assert CountedAt(edges, before, a, b);
        }
      }
      imports := imports[c := []];
      forall a, b
        ensures CountedAt(imports, importers, a, b)
      {
        if a == c {
          assert RemainingAt(importers, c, dropped[|dropped|..], b);
        } else {
          assert CountedAt(edges, importers, a, b);
        }
      }
    }

    /** The worklist of retireMemory: releases every closed module that no live module
        depends on once `m` is closed, together with its cycle, and collects the allocations
        they own. */
    method ReleaseUnreferenced(m: Id, owners: set<Id>) returns (retired: seq<Id>)
      requires Inv(G()) && m !in closed
      modifies this
      ensures Retires(old(G()), m, owners, G(), retired)
      ensures Inv(G())
    {
      ghost var g := G();
      StartsWorking(g, m);
      closed := closed + {m};
      var ready := [m];
      retired := [];
      while ready != []
        invariant closed == g.closed + {m} && g.released <= released
        invariant Working(g.imports, G(), ready)
        invariant Collected(g.released, released, owners, retired)
        decreases closed - released, |ready|
      {
        var module' := ready[|ready| - 1];
        assert ready == ready[..|ready| - 1] + [module'];
        ready := ready[..|ready| - 1];
        if module' !in closed || module' in released {
          PopsRetained(g.imports, G(), ready, module');
          continue;
        }
        var modules := UnreferencedClosed(module');
        if modules == [] {
          PopsRetained(g.imports, G(), ready, module');
          continue;
        }
        ready, retired := Release(g, module', modules, owners, ready, retired);
      }
    }

    /** Releases one group of modules: flags first, then import references and allocations. */
    method Release(ghost g: Graph, x: Id, modules: seq<Id>, owners: set<Id>, ready: seq<Id>, retired: seq<Id>)
      returns (ready': seq<Id>, retired': seq<Id>)
      requires g.released <= released
      requires Working(g.imports, G(), ready + [x])
      requires Collected(g.released, released, owners, retired)
      requires NoDuplicates(modules) && x in closed && x !in released
      requires forall a :: a in modules <==> Reaches(imports, a, x)
      requires forall a :: a in modules ==> a in closed
      modifies this
      ensures closed == old(closed)
      ensures released == old(released) + set a | a in modules
      ensures x in released
      ensures Working(g.imports, G(), ready')
      ensures Collected(g.released, released, owners, retired')
    {
      ghost var before := G();
      ghost var s := set a | a in modules;
      ReachesSelf(imports, x);
      NotYetReleased(before, x, s);
      released := released + set a | a in modules;
      ready', retired' := DropAll(g.released, before.released, modules, owners, ready, retired);
      ReleasesTogether(g.imports, before, ready, x, s, G(), ready');
    }

    method DropAll(ghost base: set<Id>, ghost was: set<Id>, modules: seq<Id>, owners: set<Id>, ready: seq<Id>,
                   retired: seq<Id>)
      returns (ready': seq<Id>, retired': seq<Id>)
      requires Counted(imports, importers)
      requires base <= was && Collected(base, was, owners, retired)
      requires NoDuplicates(modules) && forall a :: a in modules ==> a !in was
      modifies this`imports, this`importers
      ensures Counted(imports, importers)
      ensures DropsImportsOf(old(imports), imports, (set a | a in modules))
      ensures QueuesImportsOf(old(imports), (set a | a in modules), ready, ready')
      ensures Collected(base, was + (set a | a in modules), owners, retired')
    {
      ready', retired' := ready, retired;
      ghost var done: set<Id>, now := {}, was;
      for i := 0 to |modules|
        invariant done == set a | a in modules[..i]
        invariant now == was + done
        invariant Counted(imports, importers)
        invariant DropsImportsOf(old(imports), imports, done)
        invariant QueuesImportsOf(old(imports), done, ready, ready')
        invariant Collected(base, now, owners, retired')
      {
        var c := modules[i];
        assert c !in done;
        assert modules[..i + 1] == modules[..i] + [c];
        ghost var edges := imports;
        var dropped := DropImports(c);
        DropsOneMore(old(imports), edges, imports, done, c);
        QueuesOneMore(old(imports), done, ready, ready', c);
        CollectsOneMore(base, now, owners, retired', c);
        ready' := ready' + dropped;
        if c in owners {
          retired' := retired' + [c];
        }
        done, now := done + {c}, now + {c};
      }
      assert modules[..|modules|] == modules;
    }
  }

  /** `retired` lists, once each, the owned allocations of the modules released since. */
  ghost predicate Collected(before: set<Id>, released: set<Id>, owners: set<Id>, retired: seq<Id>) {
    && NoDuplicates(retired)
    && forall n :: n in retired <==> n in released && n !in before && n in owners
  }

  ghost predicate QueuesImportsOf(edges: Edges, done: set<Id>, ready: seq<Id>, ready': seq<Id>) {
    && (forall y :: y in ready ==> y in ready')
    && (forall a, z :: a in done && Edge(edges, a, z) ==> z in ready')
  }

  lemma QueuesOneMore(edges: Edges, done: set<Id>, ready: seq<Id>, ready': seq<Id>, c: Id)
    requires QueuesImportsOf(edges, done, ready, ready')
    ensures QueuesImportsOf(edges, done + {c}, ready, ready' + ImportsOf(edges, c))
  {
  }

  lemma DropsOneMore(edges: Edges, edges': Edges, edges'': Edges, done: set<Id>, c: Id)
    requires DropsImportsOf(edges, edges', done) && DropsImportsOf(edges', edges'', {c})
    ensures DropsImportsOf(edges, edges'', done + {c})
  {
  }

  lemma CollectsOneMore(before: set<Id>, released: set<Id>, owners: set<Id>, retired: seq<Id>, c: Id)
    requires Collected(before, released, owners, retired) && c !in released && c !in before
    ensures Collected(before, released + {c}, owners, if c in owners then retired + [c] else retired)
  {
  }

  lemma NoImportsReachesSelf(edges: Edges, a: Id, b: Id)
    requires ImportsOf(edges, a) == [] && Reaches(edges, a, b)
    ensures a == b
  {
    var p :| IsPath(edges, p, a, b);
    assert |p| > 1 ==> Edge(edges, p[0], p[1]);
  }

  /** The transitive importers of an unreleased module are unreleased: a released one has no imports. */
  lemma NotYetReleased(g: Graph, x: Id, s: set<Id>)
    requires WellFormed(g) && x !in g.released
    requires forall a :: a in s <==> Reaches(g.imports, a, x)
    ensures s !! g.released
  {
    forall a | a in s
      ensures a !in g.released
    {
      if a in g.released {
        NoImportsReachesSelf(g.imports, a, x);
      }
    }
  }

  /** The loop invariant of the worklist over the graph it started from: what is released is
      not retained, retention has not changed, and every closed module that is no longer
      retained is still to be released or reached from a module waiting in `ready`. */
  ghost predicate Working(edges: Edges, g: Graph, ready: seq<Id>) {
    && WellFormed(g)
    && DropsImportsOf(edges, g.imports, g.released)
    && (forall n :: n in g.released ==> !Retained(g.closed, g.imports, n))
    && (forall n :: Retained(g.closed, g.imports, n) <==> Retained(g.closed, edges, n))
    && (forall n :: n in g.closed && n !in g.released && !Retained(g.closed, g.imports, n) ==> Waiting(g, ready, n))
  }

  ghost predicate Waiting(g: Graph, ready: seq<Id>, n: Id) {
    exists x :: x in ready && x in g.closed && x !in g.released && Reaches(g.imports, x, n)
  }

  /** Closing `m` can only lose retention through `m`. */
  lemma StartsWorking(g: Graph, m: Id)
    requires Inv(g) && m !in g.closed
    ensures Working(g.imports, g.(closed := g.closed + {m}), [m])
  {
    var g' := g.(closed := g.closed + {m});
    forall n
      ensures Retained(g'.closed, g.imports, n) ==> Retained(g.closed, g.imports, n)
    {
    }
    forall n | n in g'.closed && n !in g.released && !Retained(g'.closed, g.imports, n)
      ensures Waiting(g', [m], n)
    {
      ReachesSelf(g.imports, n);
      if n != m {
        var a :| a !in g.closed && Reaches(g.imports, a, n);
        assert a == m;
      }
    }
  }

  /** Popping a module that is live, released or retained loses nothing. */
  lemma PopsRetained(edges: Edges, g: Graph, ready: seq<Id>, x: Id)
    requires Working(edges, g, ready + [x])
    requires x !in g.closed || x in g.released || Retained(g.closed, g.imports, x)
    ensures Working(edges, g, ready)
  {
    forall n | n in g.closed && n !in g.released && !Retained(g.closed, g.imports, n)
      ensures Waiting(g, ready, n)
    {
      var y :| y in ready + [x] && y in g.closed && y !in g.released && Reaches(g.imports, y, n);
      if y == x {
        var a :| a !in g.closed && Reaches(g.imports, a, x);
        ReachesThrough(g.imports, a, x, n);
      }
    }
  }

  /** Releasing `x` with all its transitive importers `s`, which are all closed, changes
      neither retention nor what is left to do. */
  lemma ReleasesTogether(edges: Edges, g: Graph, ready: seq<Id>, x: Id, s: set<Id>, g': Graph, ready': seq<Id>)
    requires Working(edges, g, ready + [x])
    requires s <= g.closed && forall a :: a in s <==> Reaches(g.imports, a, x)
    requires g'.closed == g.closed && g'.released == g.released + s
    requires DropsImportsOf(g.imports, g'.imports, s) && Counted(g'.imports, g'.importers)
    requires forall y :: y in ready ==> y in ready'
    requires forall a, z :: a in s && Edge(g.imports, a, z) ==> z in ready'
    ensures Working(edges, g', ready')
  {
    AncestorsClosed(g.imports, x, s);
    ReachesSelf(g.imports, x);
    forall n
      ensures Retained(g.closed, g.imports, n) <==> Retained(g.closed, g'.imports, n)
    {
      SameRetention(g.closed, g.imports, g'.imports, s, n);
    }
    forall n | n in s
      ensures !Retained(g.closed, g.imports, n)
    {
      if a :| a !in g.closed && Reaches(g.imports, a, n) {
        AncestorsStay(g.imports, s, a, n);
      }
    }
    forall n | n in g.closed && n !in g'.released && !Retained(g.closed, g'.imports, n)
      ensures Waiting(g', ready', n)
    {
      var y :| y in ready + [x] && y in g.closed && y !in g.released && Reaches(g.imports, y, n);
      StillWaiting(g, s, g', ready', y, n);
    }
  }

  lemma AncestorsClosed(edges: Edges, x: Id, s: set<Id>)
    requires forall a :: a in s <==> Reaches(edges, a, x)
    ensures forall a, b :: Edge(edges, a, b) && b in s ==> a in s
  {
    forall a, b | Edge(edges, a, b) && b in s
      ensures a in s
    {
      ReachesEdge(edges, a, b);
      ReachesThrough(edges, a, b, x);
    }
  }

  lemma SameRetention(closed: set<Id>, edges: Edges, edges': Edges, s: set<Id>, n: Id)
    requires s <= closed && DropsImportsOf(edges, edges', s)
    requires forall a, b :: Edge(edges, a, b) && b in s ==> a in s
    ensures Retained(closed, edges, n) <==> Retained(closed, edges', n)
  {
    if a :| a !in closed && Reaches(edges', a, n) {
      ReachesFewer(edges, edges', a, n);
    }
    if a :| a !in closed && Reaches(edges, a, n) {
      if n in s {
        AncestorsStay(edges, s, a, n);
      } else {
        var p :| IsPath(edges, p, a, n);
        LeavesOnce(edges, edges', s, p, a, n);
      }
    }
  }

  /** Any graph that meets the specification of the worklist is again exact. */
  lemma RetiresKeepsInv(g: Graph, m: Id, owners: set<Id>, g': Graph, retired: seq<Id>)
    requires Retires(g, m, owners, g', retired)
    ensures Inv(g')
  {
    forall a, b | Edge(g.imports, a, b) && b in g'.released
      ensures a in g'.released
    {
      ReachesEdge(g.imports, a, b);
      if c :| c !in g'.closed && Reaches(g.imports, c, a) {
        ReachesThrough(g.imports, c, a, b);
      }
    }
    forall n
      ensures Retained(g'.closed, g.imports, n) <==> Retained(g'.closed, g'.imports, n)
    {
      SameRetention(g'.closed, g.imports, g'.imports, g'.released, n);
    }
  }

  lemma StillWaiting(g: Graph, s: set<Id>, g': Graph, ready': seq<Id>, y: Id, n: Id)
    requires forall a, b :: Edge(g.imports, a, b) && b in s ==> a in s
    requires g'.closed == g.closed && g'.released == g.released + s
    requires DropsImportsOf(g.imports, g'.imports, s)
    requires forall x :: x in g.released ==> ImportsOf(g.imports, x) == []
    requires forall a, z :: a in s && Edge(g.imports, a, z) ==> z in ready'
    requires y in s || y in ready'
    requires y in g.closed && y !in g.released && Reaches(g.imports, y, n)
    requires n !in g'.released && !Retained(g.closed, g'.imports, n)
    ensures Waiting(g', ready', n)
  {
    var p :| IsPath(g.imports, p, y, n);
    LeavesOnce(g.imports, g'.imports, s, p, y, n);
    if y in s {
      var a, z :| a in s && z !in s && Edge(g.imports, a, z) && Reaches(g'.imports, z, n);
      assert z in g.closed;
      if z in g.released {
        NoImportsReachesSelf(g'.imports, z, n);
      }
    }
  }

  /** The reverse counts of importer `c` when only the imports `rest` are left to drop. */
  ghost predicate RemainingAt(importers: map<Id, map<Id, nat>>, c: Id, rest: seq<Id>, b: Id) {
    && (c in ImportersOf(importers, b) <==> b in rest)
    && (c in ImportersOf(importers, b) ==> ImportersOf(importers, b)[c] == multiset(rest)[b])
  }

  /** The search for importers of `m`: everything queued is closed and transitively imports `m`. */
  ghost predicate Searching(closed: set<Id>, edges: Edges, m: Id, seen: set<Id>, modules: seq<Id>) {
    && m in seen && NoDuplicates(modules)
    && (forall a :: a in seen <==> a in modules)
    && (forall a :: a in seen ==> a in closed && Reaches(edges, a, m))
  }

  /** The search queues at most every module that has imports, and its start. */
  lemma SearchFits(closed: set<Id>, edges: Edges, m: Id, seen: set<Id>, modules: seq<Id>)
    requires Searching(closed, edges, m, seen, modules)
    ensures |modules| <= |edges.Keys + {m}|
  {
    forall a | a in modules
      ensures a in edges.Keys + {m}
    {
      var p :| IsPath(edges, p, a, m);
      assert |p| > 1 ==> Edge(edges, p[0], p[1]);
    }
    FitsIn(modules, edges.Keys + {m});
  }

  lemma NoImportersOnlySelf(edges: Edges, importers: map<Id, map<Id, nat>>, m: Id)
    requires Counted(edges, importers) && |ImportersOf(importers, m)| == 0
    ensures forall a :: Reaches(edges, a, m) ==> a == m
  {
    forall a
      ensures !Edge(edges, a, m)
    {
      assert CountedAt(edges, importers, a, m);
    }
    forall a | Reaches(edges, a, m)
      ensures a == m
    {
      AncestorsStay(edges, {m}, a, m);
    }
  }

  lemma {:induction false} FitsIn(s: seq<Id>, u: set<Id>)
    requires NoDuplicates(s) && forall a :: a in s ==> a in u
    ensures |s| <= |u|
  {
    if s != [] {
      FitsIn(s[1..], u - {s[0]});
    }
  }

  ghost predicate Remaining(importers: map<Id, map<Id, nat>>, c: Id, rest: seq<Id>) {
    forall b :: RemainingAt(importers, c, rest, b)
  }
}
