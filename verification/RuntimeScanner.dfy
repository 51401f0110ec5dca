/**
 The dependency-graph scanner: a depth-first walk over production edges that
 reports every async runtime a root pulls in, sharing one visited set between roots.
 */
module RuntimeScanner {
  import opened Sorting

  datatype ResolvedNode = ResolvedNode(name: string, prodDeps: seq<string>)

  // An offending package and the production path, root first, that pulls it in.
  datatype RuntimeHit = RuntimeHit(package: string, pullPath: seq<string>)

  const ASYNC_RUNTIME_PACKAGES: seq<string> :=
    ["tokio", "async-std", "smol", "async-executor", "monoio", "glommio"]

  type Graph = map<string, ResolvedNode>

  // ----- The graph and its runtime packages -----

  predicate IsRuntime(name: string) { name in ASYNC_RUNTIME_PACKAGES }

  // A name the graph does not know has no dependencies.
  function Deps(g: Graph, name: string): seq<string> {
    if name in g then g[name].prodDeps else []
  }

  ghost predicate Edge(g: Graph, u: string, v: string) { v in Deps(g, u) }

  // A path along production edges.
  ghost predicate EdgePath(g: Graph, p: seq<string>) {
    forall i :: 0 < i < |p| ==> Edge(g, p[i - 1], p[i])
  }

  // A path from a root to `name`.
  ghost predicate RootPath(g: Graph, roots: seq<string>, p: seq<string>, name: string) {
    p != [] && p[0] in roots && p[|p| - 1] == name && EdgePath(g, p)
  }

  ghost predicate Simple(p: seq<string>) {
    forall i, j :: 0 <= i < j < |p| ==> p[i] != p[j]
  }

  // `name` is reachable from a root through non-runtime packages only.
  ghost predicate Exposed(g: Graph, roots: seq<string>, name: string) {
    exists p :: RootPath(g, roots, p, name) && forall i :: 0 <= i < |p| - 1 ==> !IsRuntime(p[i])
  }

  ghost predicate Reachable(g: Graph, roots: seq<string>, name: string) {
    exists p :: RootPath(g, roots, p, name)
  }

  // ----- Order of hits -----

  predicate HitLe(a: RuntimeHit, b: RuntimeHit) {
    if a.package == b.package then PathLe(a.pullPath, b.pullPath) else StrLe(a.package, b.package)
  }

  lemma HitTotalOrder()
    ensures TotalOrder(HitLe)
  {
    StrTotalOrder();
    PathTotalOrder();
  }

  // ----- by_name -----

  // The map of the last node of each name.
  function LastByName(nodes: seq<ResolvedNode>): (g: Graph)
    ensures forall n :: n in g ==> g[n] in nodes && g[n].name == n
    ensures forall x :: x in nodes ==> x.name in g
  {
    if nodes == [] then map[]
    else
      var last := nodes[|nodes| - 1];
      LastByName(nodes[..|nodes| - 1])[last.name := last]
  }

  // The surviving node of a name is the one no later node repeats.
  lemma {:induction false} LastWins(nodes: seq<ResolvedNode>, i: nat)
    requires i < |nodes|
    requires forall j :: i < j < |nodes| ==> nodes[j].name != nodes[i].name
    ensures LastByName(nodes)[nodes[i].name] == nodes[i]
  {
    if i < |nodes| - 1 {
      LastWins(nodes[..|nodes| - 1], i);
    }
  }

  method ByName(nodes: seq<ResolvedNode>) returns (g: Graph)
    ensures g == LastByName(nodes)
  {
    g := map[];
    for k := 0 to |nodes|
      invariant g == LastByName(nodes[..k])
    {
      assert nodes[..k + 1][..k] == nodes[..k];
      g := g[nodes[k].name := nodes[k]];
    }
    assert nodes[..|nodes|] == nodes;
  }

  // ----- The walk -----

  // Every entry of `tree` is the walk's own simple path from a root to that package.
  ghost predicate ValidTree(g: Graph, roots: seq<string>, tree: map<string, seq<string>>) {
    forall u :: u in tree ==>
      && !IsRuntime(u)
      && RootPath(g, roots, tree[u], u)
      && Simple(tree[u])
      && forall x :: x in tree[u] ==> x in tree
  }

  // Where a hit comes from: a root that is itself a runtime, or an edge into one.
  datatype Pull = FromRoot(package: string) | FromEdge(puller: string, package: string)

  ghost predicate IsPull(g: Graph, roots: seq<string>, visited: set<string>, q: Pull) {
    match q
    case FromRoot(r) => r in roots && IsRuntime(r)
    case FromEdge(u, r) => u in visited && Edge(g, u, r) && IsRuntime(r)
  }

  ghost function HitOf(tree: map<string, seq<string>>, q: Pull): RuntimeHit
    requires q.FromEdge? ==> q.puller in tree
  {
    match q
    case FromRoot(r) => RuntimeHit(r, [r])
    case FromEdge(u, r) => RuntimeHit(r, tree[u] + [r])
  }

  // Every recorded hit is the hit of a real pull.
  ghost predicate SoundHits(g: Graph, roots: seq<string>, tree: map<string, seq<string>>, hits: seq<RuntimeHit>) {
    forall h :: h in hits ==> exists q :: IsPull(g, roots, tree.Keys, q) && h == HitOf(tree, q)
  }

  // Dependency `d` of `u` has been dealt with.
  ghost predicate Settled(g: Graph, tree: map<string, seq<string>>, hits: seq<RuntimeHit>, u: string, d: string)
    requires u in tree
  {
    if IsRuntime(d) then RuntimeHit(d, tree[u] + [d]) in hits else d in tree
  }

  // All dependencies of `u` have been dealt with.
  ghost predicate Done(g: Graph, tree: map<string, seq<string>>, hits: seq<RuntimeHit>, u: string)
    requires u in tree
  {
    forall d :: Edge(g, u, d) ==> Settled(g, tree, hits, u, d)
  }

  ghost predicate Grows(t0: map<string, seq<string>>, t1: map<string, seq<string>>) {
    forall u :: u in t0 ==> u in t1 && t1[u] == t0[u]
  }

  // The caller's position: at a root, or standing on the tree node that ends `path`.
  ghost predicate AtNode(g: Graph, roots: seq<string>, tree: map<string, seq<string>>, path: seq<string>, name: string) {
    if path == [] then name in roots
    else
      var u := path[|path| - 1];
      u in tree && tree[u] == path && Edge(g, u, name)
  }

  lemma SoundHitsGrow(g: Graph, roots: seq<string>, t0: map<string, seq<string>>, t1: map<string, seq<string>>, hits: seq<RuntimeHit>)
    requires SoundHits(g, roots, t0, hits) && Grows(t0, t1)
    ensures SoundHits(g, roots, t1, hits)
  {
    forall h | h in hits ensures exists q :: IsPull(g, roots, t1.Keys, q) && h == HitOf(t1, q) {
      var q :| IsPull(g, roots, t0.Keys, q) && h == HitOf(t0, q);
      assert IsPull(g, roots, t1.Keys, q) && h == HitOf(t1, q);
    }
  }

  lemma SoundNewHit(g: Graph, roots: seq<string>, tree: map<string, seq<string>>, path: seq<string>, name: string, hits: seq<RuntimeHit>)
    requires SoundHits(g, roots, tree, hits) && AtNode(g, roots, tree, path, name) && IsRuntime(name)
    ensures SoundHits(g, roots, tree, hits + [RuntimeHit(name, path + [name])])
  {
    var q := if path == [] then FromRoot(name) else FromEdge(path[|path| - 1], name);
    assert IsPull(g, roots, tree.Keys, q);
    assert HitOf(tree, q) == RuntimeHit(name, path + [name]) by {
      assert path == [] ==> path + [name] == [name];
    }
  }

  lemma ExtendTree(g: Graph, roots: seq<string>, tree: map<string, seq<string>>, path: seq<string>, name: string)
    requires ValidTree(g, roots, tree) && AtNode(g, roots, tree, path, name)
    requires !IsRuntime(name) && name !in tree
    ensures ValidTree(g, roots, tree[name := path + [name]])
    ensures Grows(tree, tree[name := path + [name]])
  {
    var p := path + [name];
    assert RootPath(g, roots, p, name);
    assert forall x :: x in p ==> x == name || x in path;
  }

  // What holds of the walk's state at every step.
  ghost predicate WalkState(g: Graph, roots: seq<string>, visited: set<string>, hits: seq<RuntimeHit>,
                            tree: map<string, seq<string>>) {
    ValidTree(g, roots, tree) && tree.Keys == visited && SoundHits(g, roots, tree, hits)
  }

  // The packages visited since `visited0` are completely dealt with.
  ghost predicate Closed(g: Graph, tree: map<string, seq<string>>, hits: seq<RuntimeHit>,
                         visited0: set<string>) {
    forall u :: u in tree && u !in visited0 ==> Done(g, tree, hits, u)
  }

  lemma ClosedGrows(g: Graph, t0: map<string, seq<string>>, h0: seq<RuntimeHit>,
                    t1: map<string, seq<string>>, h1: seq<RuntimeHit>, visited0: set<string>)
    requires Closed(g, t0, h0, visited0) && Grows(t0, t1) && h0 <= h1
    requires Closed(g, t1, h1, t0.Keys)
    ensures Closed(g, t1, h1, visited0)
  {
    forall u | u in t0 && u !in visited0 ensures Done(g, t1, h1, u) {
      forall d | Edge(g, u, d) ensures Settled(g, t1, h1, u, d) {
        assert Settled(g, t0, h0, u, d);
      }
    }
  }

  method Walk(name: string, g: Graph, ghost roots: seq<string>,
              visited0: set<string>, path0: seq<string>, hits0: seq<RuntimeHit>,
              ghost tree0: map<string, seq<string>>)
    returns (visited: set<string>, path: seq<string>, hits: seq<RuntimeHit>,
             ghost tree: map<string, seq<string>>)
    requires WalkState(g, roots, visited0, hits0, tree0)
    requires AtNode(g, roots, tree0, path0, name)
    ensures path == path0
    ensures WalkState(g, roots, visited, hits, tree) && Grows(tree0, tree) && hits0 <= hits
    ensures if IsRuntime(name) then RuntimeHit(name, path0 + [name]) in hits else name in visited
    ensures Closed(g, tree, hits, visited0)
    decreases g.Keys - visited0, 0
  {
    visited, hits, tree := visited0, hits0, tree0;
    path := path0 + [name];
    if IsRuntime(name) {
      SoundNewHit(g, roots, tree, path0, name, hits);
      hits := hits + [RuntimeHit(name, path)];
      path := path[..|path| - 1];
      return;
    }
    if name !in visited {
      ExtendTree(g, roots, tree, path0, name);
      SoundHitsGrow(g, roots, tree, tree[name := path], hits);
      visited, tree := visited + {name}, tree[name := path];
      if name in g {
        assert g.Keys - visited < g.Keys - visited0;
        visited, path, hits, tree := WalkDeps(name, g, roots, visited, path, hits, tree);
      }
      assert Done(g, tree, hits, name);
    }
    path := path[..|path| - 1];
  }

  // The loop of the walk over the dependencies of one package.
  method WalkDeps(name: string, g: Graph, ghost roots: seq<string>,
                  visited0: set<string>, path0: seq<string>, hits0: seq<RuntimeHit>,
                  ghost tree0: map<string, seq<string>>)
    returns (visited: set<string>, path: seq<string>, hits: seq<RuntimeHit>,
             ghost tree: map<string, seq<string>>)
    requires WalkState(g, roots, visited0, hits0, tree0)
    requires name in g && name in tree0 && tree0[name] == path0
    ensures path == path0
    ensures WalkState(g, roots, visited, hits, tree) && Grows(tree0, tree) && hits0 <= hits
    ensures Done(g, tree, hits, name)
    ensures Closed(g, tree, hits, visited0)
    decreases g.Keys - visited0, 1
  {
    visited, path, hits, tree := visited0, path0, hits0, tree0;
    var deps := g[name].prodDeps;
    for k := 0 to |deps|
      invariant path == path0
      invariant WalkState(g, roots, visited, hits, tree) && Grows(tree0, tree) && hits0 <= hits
      invariant forall j :: 0 <= j < k ==> Settled(g, tree, hits, name, deps[j])
      invariant Closed(g, tree, hits, visited0)
    {
      assert Edge(g, name, deps[k]);
      assert path0 != [] && path0[|path0| - 1] == name;
      ghost var before, hitsBefore := tree, hits;
      visited, path, hits, tree := Walk(deps[k], g, roots, visited, path, hits, tree);
      ClosedGrows(g, before, hitsBefore, tree, hits, visited0);
    }
  }

  // ----- The scan -----

  // `Vec::dedup`: drop consecutive repeats.
  function Dedup<T(==)>(s: seq<T>): seq<T> {
    if |s| < 2 then s
    else if s[0] == s[1] then Dedup(s[1..])
    else [s[0]] + Dedup(s[1..])
  }

  lemma {:induction false} DedupSorted<T(!new)>(le: (T, T) -> bool, s: seq<T>)
    requires TotalOrder(le) && Sorted(le, s)
    ensures StrictlySorted(le, Dedup(s))
    ensures forall x :: x in Dedup(s) <==> x in s
    ensures s != [] ==> Dedup(s) != [] && Dedup(s)[0] == s[0]
  {
    if |s| >= 2 {
      DedupSorted(le, s[1..]);
      assert forall x :: x in s <==> x == s[0] || x in s[1..];
      var t := Dedup(s[1..]);
      if s[0] != s[1] {
        forall j | 0 <= j < |t| ensures le(s[0], t[j]) && s[0] != t[j] {
          assert t[j] in t;
          assert le(s[1], t[j]) by { assert s[1] == t[0]; }
        }
      }
    }
  }

  // What the scan promises about the hits it returns: they are exactly the pulls of
  // the exposed packages, each once, along the walk's tree.
  ghost predicate ScanResult(g: Graph, roots: seq<string>, tree: map<string, seq<string>>, hits: seq<RuntimeHit>) {
    && ValidTree(g, roots, tree)
    && (forall u :: u in tree <==> !IsRuntime(u) && Exposed(g, roots, u))
    && StrictlySorted(HitLe, hits)
    && SoundHits(g, roots, tree, hits)
    && (forall q :: IsPull(g, roots, tree.Keys, q) ==> HitOf(tree, q) in hits)
  }

  // A closed tree holding the roots holds everything exposed.
  lemma {:induction false} ClosedHoldsPath(g: Graph, roots: seq<string>, tree: map<string, seq<string>>,
                                           hits: seq<RuntimeHit>, p: seq<string>, name: string)
    requires Closed(g, tree, hits, {})
    requires forall r :: r in roots && !IsRuntime(r) ==> r in tree
    requires RootPath(g, roots, p, name) && forall x :: x in p ==> !IsRuntime(x)
    ensures name in tree
  {
    assert name in p;
    if |p| > 1 {
      var q := p[..|p| - 1];
      var u := q[|q| - 1];
      assert RootPath(g, roots, q, u);
      ClosedHoldsPath(g, roots, tree, hits, q, u);
      assert Edge(g, u, name);
      assert Settled(g, tree, hits, u, name);
    }
  }

  lemma TreeIsExposed(g: Graph, roots: seq<string>, tree: map<string, seq<string>>, hits: seq<RuntimeHit>)
    requires ValidTree(g, roots, tree) && Closed(g, tree, hits, {})
    requires forall r :: r in roots && !IsRuntime(r) ==> r in tree
    ensures forall u :: u in tree <==> !IsRuntime(u) && Exposed(g, roots, u)
  {
    forall u ensures u in tree <==> !IsRuntime(u) && Exposed(g, roots, u) {
      if u in tree {
        var p := tree[u];
        forall i | 0 <= i < |p| - 1 ensures !IsRuntime(p[i]) { assert p[i] in p; }
        assert RootPath(g, roots, p, u);
      }
      if !IsRuntime(u) && Exposed(g, roots, u) {
        var p :| RootPath(g, roots, p, u) && forall i :: 0 <= i < |p| - 1 ==> !IsRuntime(p[i]);
        ClosedHoldsPath(g, roots, tree, hits, p, u);
      }
    }
  }

  lemma ClosedHitsComplete(g: Graph, roots: seq<string>, tree: map<string, seq<string>>, hits: seq<RuntimeHit>)
    requires Closed(g, tree, hits, {})
    requires forall r :: r in roots && IsRuntime(r) ==> RuntimeHit(r, [r]) in hits
    ensures forall q :: IsPull(g, roots, tree.Keys, q) ==> HitOf(tree, q) in hits
  {
    forall q | IsPull(g, roots, tree.Keys, q) ensures HitOf(tree, q) in hits {
      if q.FromEdge? { assert Settled(g, tree, hits, q.puller, q.package); }
    }
  }

  method ScanResolvedGraph(nodes: seq<ResolvedNode>, roots: seq<string>)
    returns (hits: seq<RuntimeHit>, ghost tree: map<string, seq<string>>)
    ensures ScanResult(LastByName(nodes), roots, tree, hits)
    ensures forall r :: (exists h :: h in hits && h.package == r) <==>
                        IsRuntime(r) && Exposed(LastByName(nodes), roots, r)
    ensures hits == [] <==> forall r :: IsRuntime(r) ==> !Reachable(LastByName(nodes), roots, r)
  {
    var g := ByName(nodes);
    var visited: set<string> := {};
    hits, tree := [], map[];
    for k := 0 to |roots|
      invariant WalkState(g, roots, visited, hits, tree)
      invariant Closed(g, tree, hits, {})
      invariant forall j :: 0 <= j < k ==>
                  if IsRuntime(roots[j]) then RuntimeHit(roots[j], [roots[j]]) in hits else roots[j] in tree
    {
      var path: seq<string> := [];
      ghost var before, hitsBefore := tree, hits;
      visited, path, hits, tree := Walk(roots[k], g, roots, visited, path, hits, tree);
      ClosedGrows(g, before, hitsBefore, tree, hits, {});
      assert [] + [roots[k]] == [roots[k]];
    }
    TreeIsExposed(g, roots, tree, hits);
    ClosedHitsComplete(g, roots, tree, hits);
    ghost var found := hits;
    HitTotalOrder();
    SortSorts(HitLe, hits);
    DedupSorted(HitLe, Sort(HitLe, hits));
    hits := Dedup(Sort(HitLe, hits));
    assert forall h :: h in hits <==> h in found;
    ScanExact(g, roots, tree, hits);
    ScanEmpty(g, roots, tree, hits);
  }

  // ----- What a scan result means -----

  // The hit of an edge extends the puller's tree path by the runtime.
  lemma EdgeHitPath(g: Graph, roots: seq<string>, tree: map<string, seq<string>>, u: string, r: string)
    requires ValidTree(g, roots, tree) && u in tree && Edge(g, u, r) && IsRuntime(r)
    ensures RootPath(g, roots, tree[u] + [r], r) && Simple(tree[u] + [r])
    ensures forall i :: 0 <= i < |tree[u]| ==> !IsRuntime(tree[u][i])
  {
    var p := tree[u];
    forall i | 0 <= i < |p| ensures !IsRuntime(p[i]) && p[i] != r { assert p[i] in p; }
  }

  /** Each hit names a runtime and a simple production path from a root to it on
      which no earlier package is a runtime. */
  lemma ScanWitness(g: Graph, roots: seq<string>, tree: map<string, seq<string>>, hits: seq<RuntimeHit>, h: RuntimeHit)
    requires ScanResult(g, roots, tree, hits) && h in hits
    ensures IsRuntime(h.package)
    ensures RootPath(g, roots, h.pullPath, h.package) && Simple(h.pullPath)
    ensures forall i :: 0 <= i < |h.pullPath| - 1 ==> !IsRuntime(h.pullPath[i])
  {
    var q :| IsPull(g, roots, tree.Keys, q) && h == HitOf(tree, q);
    if q.FromEdge? { EdgeHitPath(g, roots, tree, q.puller, q.package); }
  }

  lemma ExposedIsHit(g: Graph, roots: seq<string>, tree: map<string, seq<string>>, hits: seq<RuntimeHit>, r: string)
    requires ScanResult(g, roots, tree, hits) && IsRuntime(r) && Exposed(g, roots, r)
    ensures exists h :: h in hits && h.package == r
  {
    var p :| RootPath(g, roots, p, r) && forall i :: 0 <= i < |p| - 1 ==> !IsRuntime(p[i]);
    var q := FromRoot(r);
    if |p| > 1 {
      LastPuller(g, roots, p, r);
      q := FromEdge(p[|p| - 2], r);
    }
    assert IsPull(g, roots, tree.Keys, q);
    assert HitOf(tree, q) in hits && HitOf(tree, q).package == r;
  }

  // The package before the end of such a path is exposed itself.
  lemma LastPuller(g: Graph, roots: seq<string>, p: seq<string>, r: string)
    requires RootPath(g, roots, p, r) && |p| > 1 && forall i :: 0 <= i < |p| - 1 ==> !IsRuntime(p[i])
    ensures var u := p[|p| - 2]; !IsRuntime(u) && Exposed(g, roots, u) && Edge(g, u, r)
  {
    var front := p[..|p| - 1];
    assert RootPath(g, roots, front, p[|p| - 2]);
    assert Edge(g, p[|p| - 2], p[|p| - 1]);
  }

  /** A runtime is reported iff some root reaches it through non-runtime packages,
      even though the roots share one visited set. */
  lemma ScanExact(g: Graph, roots: seq<string>, tree: map<string, seq<string>>, hits: seq<RuntimeHit>)
    requires ScanResult(g, roots, tree, hits)
    ensures forall r :: (exists h :: h in hits && h.package == r) <==> IsRuntime(r) && Exposed(g, roots, r)
  {
    forall r ensures (exists h :: h in hits && h.package == r) <==> IsRuntime(r) && Exposed(g, roots, r) {
      if h :| h in hits && h.package == r {
        ScanWitness(g, roots, tree, hits, h);
      }
      if IsRuntime(r) && Exposed(g, roots, r) {
        ExposedIsHit(g, roots, tree, hits, r);
      }
    }
  }

  // On any path to a runtime, the first runtime is exposed.
  lemma {:induction false} FirstRuntimeExposed(g: Graph, roots: seq<string>, p: seq<string>, name: string) returns (r: string)
    requires RootPath(g, roots, p, name) && IsRuntime(name)
    ensures IsRuntime(r) && Exposed(g, roots, r)
  {
    if i :| 0 <= i < |p| - 1 && IsRuntime(p[i]) {
      assert RootPath(g, roots, p[..i + 1], p[i]);
      r := FirstRuntimeExposed(g, roots, p[..i + 1], p[i]);
    } else {
      r := name;
    }
  }

  /** The report is empty iff no root reaches any runtime at all. */
  lemma ScanEmpty(g: Graph, roots: seq<string>, tree: map<string, seq<string>>, hits: seq<RuntimeHit>)
    requires ScanResult(g, roots, tree, hits)
    ensures hits == [] <==> forall r :: IsRuntime(r) ==> !Reachable(g, roots, r)
  {
    ScanExact(g, roots, tree, hits);
    if hits != [] {
      var h := hits[0];
      ScanWitness(g, roots, tree, hits, h);
      assert Reachable(g, roots, h.package);
    }
    if r :| IsRuntime(r) && Reachable(g, roots, r) {
      var p :| RootPath(g, roots, p, r);
      var first := FirstRuntimeExposed(g, roots, p, r);
      assert exists h :: h in hits && h.package == first;
    }
  }

  // The runtime roots and the edges from exposed packages into runtimes.
  ghost function Pulls(g: Graph, roots: seq<string>, tree: map<string, seq<string>>): set<Pull> {
    (set r | r in roots && IsRuntime(r) :: FromRoot(r))
    + (set u, r | u in tree && r in Deps(g, u) && IsRuntime(r) :: FromEdge(u, r))
  }

  lemma HitOfInjective(g: Graph, roots: seq<string>, tree: map<string, seq<string>>, a: Pull, b: Pull)
    requires ValidTree(g, roots, tree)
    requires IsPull(g, roots, tree.Keys, a) && IsPull(g, roots, tree.Keys, b) && HitOf(tree, a) == HitOf(tree, b)
    ensures a == b
  {
    if a.FromEdge? && b.FromEdge? {
      assert tree[a.puller] == HitOf(tree, a).pullPath[..|tree[a.puller]|];
      assert tree[b.puller] == HitOf(tree, b).pullPath[..|tree[b.puller]|];
    }
  }

  lemma {:induction false} ImageSize(g: Graph, roots: seq<string>, tree: map<string, seq<string>>, qs: set<Pull>, hits: seq<RuntimeHit>)
    requires ValidTree(g, roots, tree)
    requires forall q :: q in qs ==> IsPull(g, roots, tree.Keys, q)
    requires forall i, j :: 0 <= i < j < |hits| ==> hits[i] != hits[j]
    requires forall h :: h in hits <==> exists q :: q in qs && IsPull(g, roots, tree.Keys, q) && h == HitOf(tree, q)
    ensures |hits| == |qs|
    decreases |hits|
  {
    assert forall q :: q in qs ==> IsPull(g, roots, tree.Keys, q) && HitOf(tree, q) in hits;
    if hits == [] {
      assert qs == {};
    } else {
      var h := hits[0];
      assert h in hits;
      var q :| q in qs && h == HitOf(tree, q);
      forall x ensures x in hits[1..] <==> exists y :: y in qs - {q} && IsPull(g, roots, tree.Keys, y) && x == HitOf(tree, y) {
        assert x in hits <==> x == h || x in hits[1..];
        if x in hits[1..] {
          var y :| y in qs && x == HitOf(tree, y);
          assert y in qs - {q};
        }
        if y :| y in qs - {q} && IsPull(g, roots, tree.Keys, y) && x == HitOf(tree, y) {
          if x == h { HitOfInjective(g, roots, tree, q, y); }
        }
      }
      ImageSize(g, roots, tree, qs - {q}, hits[1..]);
    }
  }

  /** There is exactly one hit per runtime root and per edge from an exposed package
      into a runtime. */
  lemma ScanCount(g: Graph, roots: seq<string>, tree: map<string, seq<string>>, hits: seq<RuntimeHit>)
    requires ScanResult(g, roots, tree, hits)
    ensures |hits| == |Pulls(g, roots, tree)|
  {
    var qs := Pulls(g, roots, tree);
    forall q ensures q in qs <==> IsPull(g, roots, tree.Keys, q) { }
    forall h ensures h in hits <==> exists q :: q in qs && IsPull(g, roots, tree.Keys, q) && h == HitOf(tree, q) {
      if h in hits {
        var q :| IsPull(g, roots, tree.Keys, q) && h == HitOf(tree, q);
        assert q in qs;
      }
    }
    ImageSize(g, roots, tree, qs, hits);
  }

  /** Hits ascend by package and then by path, in dictionary order, without repetition. */
  lemma HitsInOrder(g: Graph, roots: seq<string>, tree: map<string, seq<string>>, hits: seq<RuntimeHit>, i: nat, j: nat)
    requires ScanResult(g, roots, tree, hits) && i < j < |hits|
    ensures var a, b := hits[i], hits[j];
            StrBefore(a.package, b.package) || (a.package == b.package && a.pullPath != b.pullPath && PathLe(a.pullPath, b.pullPath))
  {
  }

  function PackageOf(h: RuntimeHit): string { h.package }

  function HitsOf(package: string, hits: seq<RuntimeHit>): seq<RuntimeHit> {
    Filter((h: RuntimeHit) => PackageOf(h) == package, hits)
  }

  ghost function PullsOf(package: string, g: Graph, roots: seq<string>, tree: map<string, seq<string>>): set<Pull> {
    set q | q in Pulls(g, roots, tree) && q.package == package
  }

  function Itself(h: RuntimeHit): RuntimeHit { h }

  /** And so for each runtime on its own: it is reported once as a root, if it is one, and
      once for every exposed package that depends on it, not only the first time. */
  lemma {:induction false} ScanCountPerRuntime(
    g: Graph, roots: seq<string>, tree: map<string, seq<string>>, hits: seq<RuntimeHit>, package: string)
    requires ScanResult(g, roots, tree, hits)
    ensures |HitsOf(package, hits)| == |PullsOf(package, g, roots, tree)|
  {
    HitsOfMembers(package, hits);
    forall h ensures h in HitsOf(package, hits) <==>
      exists q :: q in PullsOf(package, g, roots, tree) && IsPull(g, roots, tree.Keys, q) && h == HitOf(tree, q)
    {
      OwnHit(g, roots, tree, hits, package, h);
    }
    ImageSize(g, roots, tree, PullsOf(package, g, roots, tree), HitsOf(package, hits));
  }

  lemma HitsOfMembers(package: string, hits: seq<RuntimeHit>)
    requires StrictlySorted(HitLe, hits)
    ensures forall h :: h in HitsOf(package, hits) <==> h in hits && h.package == package
    ensures Distinct(HitsOf(package, hits))
  {
    var p := (h: RuntimeHit) => PackageOf(h) == package;
    FilterMembers(p, hits);
    FilterDistinct(p, Itself, hits);
    var own := HitsOf(package, hits);
    forall i, j | 0 <= i < j < |own| ensures own[i] != own[j] { assert Itself(own[i]) != Itself(own[j]); }
  }

  lemma OwnHit(g: Graph, roots: seq<string>, tree: map<string, seq<string>>, hits: seq<RuntimeHit>, package: string, h: RuntimeHit)
    requires SoundHits(g, roots, tree, hits) && forall q :: IsPull(g, roots, tree.Keys, q) ==> HitOf(tree, q) in hits
    ensures h in hits && h.package == package <==>
            exists q :: q in PullsOf(package, g, roots, tree) && IsPull(g, roots, tree.Keys, q) && h == HitOf(tree, q)
  {
    if h in hits && h.package == package {
      var q :| IsPull(g, roots, tree.Keys, q) && h == HitOf(tree, q);
      assert q in Pulls(g, roots, tree) && q.package == package;
    }
  }

  // Two packages under one root, each pulling in the same runtime.
  const DIAMOND_NODES: seq<ResolvedNode> :=
    [ResolvedNode("root", ["left", "right"]), ResolvedNode("left", ["tokio"]), ResolvedNode("right", ["tokio"])]

  const DIAMOND: Graph := map[
    "root" := ResolvedNode("root", ["left", "right"]),
    "left" := ResolvedNode("left", ["tokio"]),
    "right" := ResolvedNode("right", ["tokio"])]

  lemma {:induction false} DiamondGraph()
    ensures LastByName(DIAMOND_NODES) == DIAMOND
  {
    DiamondNames();
    var nodes := DIAMOND_NODES;
    assert nodes[..2] == nodes[..1] + [nodes[1]] && nodes[..2][..1] == nodes[..1] && nodes[..1][..0] == [];
    assert LastByName(nodes[..1]) == map["root" := nodes[0]];
    assert LastByName(nodes[..2]) == map["root" := nodes[0], "left" := nodes[1]];
  }

  /** Scanning them reports the one runtime twice. */
  lemma TwoHitsForOneRuntime(tree: map<string, seq<string>>, hits: seq<RuntimeHit>)
    requires ScanResult(LastByName(DIAMOND_NODES), ["root"], tree, hits)
    ensures |HitsOf("tokio", hits)| == 2
  {
    DiamondGraph();
    ScanCountPerRuntime(DIAMOND, ["root"], tree, hits, "tokio");
    DiamondExposes("left");
    DiamondExposes("right");
    assert "left" in tree && "right" in tree;
    DiamondPulls(tree);
  }

  lemma DiamondPulls(tree: map<string, seq<string>>)
    requires "left" in tree && "right" in tree
    ensures |PullsOf("tokio", DIAMOND, ["root"], tree)| == 2
  {
    var l, r := FromEdge("left", "tokio"), FromEdge("right", "tokio");
    DiamondNames();
    var qs := PullsOf("tokio", DIAMOND, ["root"], tree);
    forall q ensures q in qs <==> q == l || q == r {
      if q.FromEdge? { DiamondDeps(q.puller); }
    }
    assert qs == {l, r};
  }

  lemma DiamondNames()
    ensures "root" != "left" && "root" != "right" && "left" != "right" && "tokio" != "root" && IsRuntime("tokio")
    ensures "tokio" !in ["left", "right"]
  {
    assert ASYNC_RUNTIME_PACKAGES[0] == "tokio";
    assert "root"[0] != "left"[0] && "left"[0] != "right"[0] && "root"[1] != "right"[1];
    assert "tokio"[0] != "left"[0] && "tokio"[0] != "right"[0] && "tokio"[0] != "root"[0];
  }

  lemma DiamondDeps(u: string)
    ensures "tokio" in Deps(DIAMOND, u) <==> u == "left" || u == "right"
  {
    DiamondNames();
  }

  lemma DiamondExposes(side: string)
    requires side == "left" || side == "right"
    ensures !IsRuntime(side) && Exposed(DIAMOND, ["root"], side)
  {
    var path := ["root", side];
    assert Edge(DIAMOND, path[0], path[1]);
    assert RootPath(DIAMOND, ["root"], path, side);
  }
}
