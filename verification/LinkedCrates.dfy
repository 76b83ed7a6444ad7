/** Which crates a module links: the walk over cargo's resolve graph in
    crates/cargo-pwrs/src/notices.rs. */
module LinkedCrates {
  import opened Results
  import opened Ordering

  /** A dependency as the graph lists it; a kind of `None` is a normal one. */
  datatype Dep = Dep(pkg: Option<string>, kinds: Option<seq<Option<string>>>)

  datatype Package = Package(name: Option<string>, version: Option<string>, procMacro: bool)

  datatype Graph = Graph(packages: map<string, Package>, nodes: map<string, seq<Dep>>, root: string)

  datatype Problem =
    | NoNode(id: string)
    | NamesNoPackage(id: string)
    | NotListed(pkg: string)
    | NoKinds(id: string, pkg: string)
    | NoName(id: string)
    | NoVersion(id: string)

  datatype Linked = Linked(id: string, name: string, version: string)

  // ----- what the walk is to find -----

  predicate Readable(g: Graph, dep: Dep) {
    dep.pkg.Some? && dep.pkg.value in g.packages && dep.kinds.Some?
  }

  /** Every dependency of `id` can be read. */
  predicate Sound(g: Graph, id: string) {
    id in g.nodes && forall i | 0 <= i < |g.nodes[id]| :: Readable(g, g.nodes[id][i])
  }

  /** A normal dependency on a package that is not a proc macro. */
  predicate Links(g: Graph, dep: Dep) {
    Readable(g, dep) && None in dep.kinds.value && !g.packages[dep.pkg.value].procMacro
  }

  predicate Edge(g: Graph, from: string, to: string) {
    from in g.nodes && exists i | 0 <= i < |g.nodes[from]| ::
      Links(g, g.nodes[from][i]) && g.nodes[from][i].pkg == Some(to)
  }

  /** A chain of at least one edge from the root to `id`. */
  ghost predicate IsPath(g: Graph, path: seq<string>, id: string) {
    |path| >= 2 && path[0] == g.root && path[|path| - 1] == id
    && forall i | 0 <= i < |path| - 1 :: Edge(g, path[i], path[i + 1])
  }

  ghost predicate Reachable(g: Graph, id: string) {
    exists path :: IsPath(g, path, id)
  }

  ghost predicate Visited(g: Graph, id: string) {
    id == g.root || Reachable(g, id)
  }

  lemma {:induction false} OneFurther(g: Graph, from: string, to: string)
    requires Visited(g, from) && Edge(g, from, to)
    ensures Reachable(g, to)
  {
    var path := [g.root];
    if from != g.root {
      path :| IsPath(g, path, from);
    }
    var longer := path + [to];
    assert forall i | 0 <= i < |path| :: longer[i] == path[i];
    assert longer[|path|] == to;
    assert IsPath(g, longer, to);
  }

  /** A set with the root's edges and its own inside it has all that is reachable. */
  lemma {:induction false} ClosedHasAll(g: Graph, seen: set<string>, path: seq<string>, id: string)
    requires IsPath(g, path, id)
    requires forall a, b :: (a == g.root || a in seen) && Edge(g, a, b) ==> b in seen
    ensures id in seen
    decreases |path|
  {
    assert Edge(g, path[|path| - 2], path[|path| - 2 + 1]);
    if |path| > 2 {
      var shorter := path[..|path| - 1];
      assert forall i | 0 <= i < |shorter| :: shorter[i] == path[i];
      assert IsPath(g, shorter, path[|path| - 2]);
      ClosedHasAll(g, seen, shorter, path[|path| - 2]);
    }
  }

  // ----- the walk -----

  /** Everything `id` links to is in `seen`. */
  ghost predicate Done(g: Graph, id: string, seen: set<string>) {
    Sound(g, id) && forall to :: Edge(g, id, to) ==> to in seen
  }

  ghost predicate WalkInvariant(g: Graph, seen: set<string>, stack: seq<string>) {
    && seen <= g.packages.Keys
    && (forall id :: id in seen ==> Reachable(g, id))
    && (forall i | 0 <= i < |stack| :: stack[i] == g.root || stack[i] in seen)
    && (forall id :: id == g.root || id in seen ==> id in stack || Done(g, id, seen))
  }

  /** What visiting `id`, just taken off `stack`, leaves. */
  ghost predicate Pushed(
      g: Graph, id: string, seen: set<string>, stack: seq<string>, seen': set<string>, stack': seq<string>) {
    && seen <= seen' <= g.packages.Keys
    && Done(g, id, seen')
    && (forall to :: to in seen' && to !in seen ==> Reachable(g, to) && to in stack')
    && |stack| <= |stack'| && stack'[..|stack|] == stack
    && (forall i | |stack| <= i < |stack'| :: stack'[i] in seen')
    && (seen' == seen ==> stack' == stack)
  }

  lemma {:induction false} VisitKeepsInvariant(
      g: Graph, seen: set<string>, stack: seq<string>, seen': set<string>, stack': seq<string>)
    requires WalkInvariant(g, seen, stack) && stack != []
    requires Pushed(g, stack[|stack| - 1], seen, stack[..|stack| - 1], seen', stack')
    ensures WalkInvariant(g, seen', stack')
  {
    var id, rest := stack[|stack| - 1], stack[..|stack| - 1];
    forall i | 0 <= i < |stack'| ensures stack'[i] == g.root || stack'[i] in seen' {
      if i < |rest| {
        assert stack'[i] == stack'[..|rest|][i] == stack[i];
      }
    }
    forall other | other == g.root || other in seen' ensures other in stack' || Done(g, other, seen') {
      if other != id && (other == g.root || other in seen) && !Done(g, other, seen) {
        var i :| 0 <= i < |stack| && stack[i] == other;
        assert stack'[..|rest|][i] == other;
        assert stack'[i] == other;
      }
    }
  }

  lemma {:induction false} NothingLeftToVisit(g: Graph, seen: set<string>)
    requires WalkInvariant(g, seen, [])
    ensures forall id :: id in seen <==> Reachable(g, id)
    ensures forall id :: Visited(g, id) ==> Sound(g, id)
  {
    forall a, b | (a == g.root || a in seen) && Edge(g, a, b) ensures b in seen {
      assert a !in [] && Done(g, a, seen);
    }
    forall id | Reachable(g, id) ensures id in seen {
      var path :| IsPath(g, path, id);
      ClosedHasAll(g, seen, path, id);
    }
    forall id | Visited(g, id) ensures Sound(g, id) {
      assert id !in [] && Done(g, id, seen);
    }
  }

  method Walk(g: Graph) returns (r: Result<set<string>, Problem>)
    ensures r.Ok? ==> forall id :: id in r.value <==> Reachable(g, id)
    ensures r.Ok? ==> r.value <= g.packages.Keys
    ensures r.Ok? <==> forall id :: Visited(g, id) ==> Sound(g, id)
  {
    var seen: set<string> := {};
    var stack := [g.root];
    while stack != []
      invariant WalkInvariant(g, seen, stack)
      decreases |g.packages.Keys - seen|, |stack|
    {
      var id, rest := stack[|stack| - 1], stack[..|stack| - 1];
      assert Visited(g, id);
      var seen', stack' :- Push(g, id, seen, rest);
      VisitKeepsInvariant(g, seen, stack, seen', stack');
      if seen' != seen {
        Fewer(g.packages.Keys, seen, seen');
      }
      seen, stack := seen', stack';
    }
    NothingLeftToVisit(g, seen);
    return Ok(seen);
  }

  lemma {:induction false} Fewer(all: set<string>, small: set<string>, large: set<string>)
    requires small < large <= all
    ensures |all - large| < |all - small|
  {
    var x :| x in large && x !in small;
    assert all - large <= (all - small) - {x};
    Subset(all - large, (all - small) - {x});
  }

  lemma {:induction false} Subset<T>(a: set<T>, b: set<T>)
    requires a <= b
    ensures |a| <= |b|
  {
    if a != {} {
      var x :| x in a;
      Subset(a - {x}, b - {x});
    }
  }

  /** The loop over the dependencies of `id`: what is newly seen is pushed. */
  method Push(g: Graph, id: string, seen: set<string>, stack: seq<string>)
    returns (r: Result<set<string>, Problem>, stack': seq<string>)
    requires Visited(g, id) && seen <= g.packages.Keys
    ensures r.Ok? <==> Sound(g, id)
    ensures r.Ok? ==> Pushed(g, id, seen, stack, r.value, stack')
  {
    stack' := stack;
    if id !in g.nodes {
      return Err(NoNode(id)), stack';
    }
    var deps := g.nodes[id];
    var seen' := seen;
    for i := 0 to |deps|
      invariant seen <= seen' <= g.packages.Keys
      invariant forall k | 0 <= k < i :: Readable(g, deps[k]) && (Links(g, deps[k]) ==> deps[k].pkg.value in seen')
      invariant forall to :: to in seen' && to !in seen ==> Edge(g, id, to) && to in stack'
      invariant |stack| <= |stack'| && stack'[..|stack|] == stack
      invariant forall k | |stack| <= k < |stack'| :: stack'[k] in seen'
      invariant seen' == seen ==> stack' == stack
    {
      var dep := deps[i];
      if dep.pkg.None? {
        return Err(NamesNoPackage(id)), stack';
      }
      var pkg := dep.pkg.value;
      if pkg !in g.packages {
        return Err(NotListed(pkg)), stack';
      }
      if dep.kinds.None? {
        return Err(NoKinds(id, pkg)), stack';
      }
      var normal := None in dep.kinds.value;
      if normal && !g.packages[pkg].procMacro && pkg !in seen' {
        assert Links(g, deps[i]);
        seen' := seen' + {pkg};
        stack' := stack' + [pkg];
      }
    }
    forall to | to in seen' && to !in seen ensures Reachable(g, to) {
      OneFurther(g, id, to);
    }
    return Ok(seen'), stack';
  }

  // ----- the list -----

  /** The order of the list: by name, then by version. */
  predicate InOrder(a: Linked, b: Linked) {
    Before(a.name, b.name) || (a.name == b.name && !Before(b.version, a.version))
  }

  lemma {:induction false} InOrderIsTotal(a: Linked, b: Linked)
    ensures InOrder(a, b) || InOrder(b, a)
  {
    BeforeIsTotal(a.name, b.name);
    if Before(b.version, a.version) && Before(a.version, b.version) {
      BeforeIsTransitive(a.version, b.version, a.version);
      BeforeIsIrreflexive(a.version);
    }
  }

  lemma {:induction false} InOrderIsTransitive(a: Linked, b: Linked, c: Linked)
    requires InOrder(a, b) && InOrder(b, c)
    ensures InOrder(a, c)
  {
    if Before(a.name, b.name) && Before(b.name, c.name) {
      BeforeIsTransitive(a.name, b.name, c.name);
    } else if a.name == b.name == c.name && Before(c.version, a.version) {
      BeforeIsTotal(b.version, a.version);
      if Before(a.version, b.version) {
        BeforeIsTransitive(c.version, a.version, b.version);
      }
    }
  }

  /** `sort_by` puts the crates in order, by name and version. */
  lemma {:induction false} SortBySorts(list: seq<Linked>)
    ensures Sorted(SortBy(list, InOrder), InOrder) && multiset(SortBy(list, InOrder)) == multiset(list)
  {
    forall a: Linked, b: Linked ensures InOrder(a, b) || InOrder(b, a) {
      InOrderIsTotal(a, b);
    }
    forall a: Linked, b: Linked, c: Linked | InOrder(a, b) && InOrder(b, c) ensures InOrder(a, c) {
      InOrderIsTransitive(a, b, c);
    }
    Ordering.SortBySorts(list, InOrder);
  }

  /** The crate `id` can be listed. */
  predicate Listable(g: Graph, id: string) {
    id in g.packages && g.packages[id].name.Some? && g.packages[id].version.Some?
  }

  function LinkedOf(g: Graph, id: string): Linked
    requires Listable(g, id)
  {
    Linked(id, g.packages[id].name.value, g.packages[id].version.value)
  }

  /** The list has each of `ids` once, described as `g` describes it. */
  ghost predicate Lists(g: Graph, list: seq<Linked>, ids: set<string>) {
    && (forall i | 0 <= i < |list| ::
       Listable(g, list[i].id) && list[i] == LinkedOf(g, list[i].id) && list[i].id in ids)
    && (forall id :: id in ids ==> Listable(g, id) && LinkedOf(g, id) in list)
    && (forall i, j | 0 <= i < j < |list| :: list[i].id != list[j].id)
  }

  lemma {:induction false} SameEntriesList(g: Graph, list: seq<Linked>, sorted: seq<Linked>, ids: set<string>)
    requires Lists(g, list, ids) && multiset(list) == multiset(sorted)
    ensures Lists(g, sorted, ids)
  {
    PermutedKeepsDistinct(list, sorted);
    forall i | 0 <= i < |sorted|
      ensures Listable(g, sorted[i].id) && sorted[i] == LinkedOf(g, sorted[i].id) && sorted[i].id in ids {
      assert sorted[i] in list;
    }
    forall i, j | 0 <= i < j < |sorted| ensures sorted[i].id != sorted[j].id {
      assert sorted[i] != sorted[j];
    }
  }

  /** The crates the root links: those it reaches over normal edges through packages
      that are not proc macros, each once, by name and version. It fails exactly
      when a node the walk visits cannot be read or a crate to list has no name or
      no version. */
  method FromMetadata(g: Graph) returns (r: Result<seq<Linked>, Problem>)
    ensures r.Ok? ==> Sorted(r.value, InOrder)
    ensures r.Ok? ==> exists ids :: Lists(g, r.value, ids) && forall id :: id in ids <==> Reachable(g, id)
    ensures r.Ok? <==> (forall id :: Visited(g, id) ==> Sound(g, id)) && forall id :: Reachable(g, id) ==>
        Listable(g, id)
  {
    var seen :- Walk(g);
    var linked: seq<Linked> := [];
    var left := seen;
    while left != {}
      invariant left <= seen
      invariant Lists(g, linked, seen - left)
      decreases left
    {
      var id :| id in left;
      left := left - {id};
      if g.packages[id].name.None? {
        return Err(NoName(id));
      }
      if g.packages[id].version.None? {
        return Err(NoVersion(id));
      }
      linked := linked + [LinkedOf(g, id)];
    }
    SortBySorts(linked);
    SameEntriesList(g, linked, SortBy(linked, InOrder), seen);
    assert seen - left == seen;
    return Ok(SortBy(linked, InOrder));
  }
}
