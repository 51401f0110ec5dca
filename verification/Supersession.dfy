/**
 The supersession audit: dangling pointers, removed rows that still supersede,
 repeated ids, and the edges of the supersedes graph that lie on a cycle.
 */
module Supersession {
  import opened Sorting
  import opened Evidence
  import opened Registry

  type Catalog = seq<(RowId, RowBody)>
  type Rows = map<RowId, RowBody>

  datatype Finding =
    | DanglingSupersedes(from: RowId, target: RowId)
    | RemovedDeclaresSupersedes(from: RowId)
    | DuplicateRowId(rowId: RowId)
    | SupersedesCycle(edgeFrom: RowId, edgeTo: RowId)

  function FindingKey(f: Finding): seq<nat> {
    match f
    case DanglingSupersedes(from, target) => [0, from, target]
    case RemovedDeclaresSupersedes(from) => [1, from]
    case DuplicateRowId(id) => [2, id]
    case SupersedesCycle(from, to) => [3, from, to]
  }

  predicate FindingLe(a: Finding, b: Finding) { BytesLe(FindingKey(a), FindingKey(b)) }

  lemma FindingTotalOrder()
    ensures TotalOrder(FindingLe)
  {
    forall a, b | FindingKey(a) == FindingKey(b) ensures a == b {
      assert FindingKey(a)[0] == FindingKey(b)[0] && FindingKey(a)[1] == FindingKey(b)[1];
      assert |FindingKey(a)| == 3 ==> FindingKey(a)[2] == FindingKey(b)[2];
    }
    KeyedTotalOrder(FindingLe, FindingKey);
  }

  // Dangling pointers, removed rows, repeated ids and cycle edges in that order, each by
  // their ids.
  ghost predicate FindingBefore(a: Finding, b: Finding) {
    match a
    case DanglingSupersedes(from, target) =>
      !b.DanglingSupersedes? || from < b.from || (from == b.from && target <= b.target)
    case RemovedDeclaresSupersedes(from) => !b.DanglingSupersedes? && (!b.RemovedDeclaresSupersedes? || from <= b.from)
    case DuplicateRowId(id) => b.SupersedesCycle? || (b.DuplicateRowId? && id <= b.rowId)
    case SupersedesCycle(from, to) =>
      b.SupersedesCycle? && (from < b.edgeFrom || (from == b.edgeFrom && to <= b.edgeTo))
  }

  ghost predicate InOrder(fs: seq<Finding>) { forall i, j :: 0 <= i < j < |fs| ==> FindingBefore(fs[i], fs[j]) }

  lemma {:induction false} FindingOrder(a: Finding, b: Finding)
    ensures FindingLe(a, b) <==> FindingBefore(a, b)
  {
    var k, l := FindingKey(a), FindingKey(b);
    BytesStep(k, l);
    BytesStep(k[1..], l[1..]);
    BytesStep(k[2..], l[2..]);
    if |k| == 3 && |l| == 3 { BytesStep(k[3..], l[3..]); }
  }

  // The row each id ends up with: the last of a repeated id.
  function LastById(catalog: Catalog): (rows: Rows)
    ensures forall id :: id in rows <==> exists i :: 0 <= i < |catalog| && catalog[i].0 == id
  {
    if catalog == [] then map[]
    else
      var n := |catalog| - 1;
      LastById(catalog[..n])[catalog[n].0 := catalog[n].1]
  }

  // The surviving row of an id is the one no later row repeats.
  lemma {:induction false} LastRowWins(catalog: Catalog, i: nat)
    requires i < |catalog| && forall j :: i < j < |catalog| ==> catalog[j].0 != catalog[i].0
    ensures LastById(catalog)[catalog[i].0] == catalog[i].1
  {
    if i < |catalog| - 1 { LastRowWins(catalog[..|catalog| - 1], i); }
  }

  // ----- The supersedes graph -----

  // The catalogued row that `x` supersedes.
  function Next(rows: Rows, x: RowId): Option<RowId> {
    if x in rows && rows[x].supersedes.Some? && rows[x].supersedes.value in rows
    then rows[x].supersedes else None
  }

  // The row reached from `x` after `n` steps.
  ghost function Follow(rows: Rows, x: RowId, n: nat): Option<RowId> {
    if n == 0 then Some(x)
    else match Follow(rows, x, n - 1)
      case None => None
      case Some(y) => Next(rows, y)
  }

  // The edge lies on a directed cycle: its head leads back to its tail.
  ghost predicate OnCycle(rows: Rows, a: RowId, b: RowId) {
    Next(rows, a) == Some(b) && exists n: nat :: Follow(rows, b, n) == Some(a)
  }

  lemma {:induction false} FollowAdd(rows: Rows, x: RowId, m: nat, n: nat)
    requires Follow(rows, x, m).Some?
    ensures Follow(rows, x, m + n) == Follow(rows, Follow(rows, x, m).value, n)
  {
    if n > 0 {
      FollowAdd(rows, x, m, n - 1);
      assert m + n - 1 == m + (n - 1);
    }
  }

  lemma {:induction false} Laps(rows: Rows, x: RowId, period: nat, k: nat)
    requires Follow(rows, x, period) == Some(x)
    ensures Follow(rows, x, k * period) == Some(x)
  {
    if k > 0 {
      Laps(rows, x, period, k - 1);
      assert k * period == (k - 1) * period + period;
      FollowAdd(rows, x, (k - 1) * period, period);
    }
  }

  // A row has at most one predecessor on its own cycle.
  lemma CyclePredecessorUnique(rows: Rows, a: RowId, a': RowId, b: RowId)
    requires OnCycle(rows, a, b) && OnCycle(rows, a', b)
    ensures a == a'
  {
    var n: nat :| Follow(rows, b, n) == Some(a);
    var m: nat :| Follow(rows, b, m) == Some(a');
    assert Follow(rows, b, n + 1) == Some(b) && Follow(rows, b, m + 1) == Some(b);
    Laps(rows, b, n + 1, m);
    FollowAdd(rows, b, m * (n + 1), n);
    Laps(rows, b, m + 1, n);
    FollowAdd(rows, b, n * (m + 1), m);
    assert m * (n + 1) + n == n * (m + 1) + m;
  }

  // ----- The walk -----

  // `path` follows the graph from its first row, never repeating one, up to `cur`.
  ghost predicate Chain(rows: Rows, path: seq<RowId>, cur: RowId) {
    && (forall i :: 0 <= i < |path| ==> path[i] in rows && Follow(rows, path[0], i) == Some(path[i]))
    && (forall i, j :: 0 <= i < j < |path| ==> path[i] != path[j])
    && cur in rows
    && (path != [] ==> Follow(rows, path[0], |path|) == Some(cur))
  }

  ghost function Start(path: seq<RowId>, cur: RowId): RowId { if path == [] then cur else path[0] }

  lemma {:induction false} DistinctWithin(path: seq<RowId>, s: set<RowId>)
    requires forall i :: 0 <= i < |path| ==> path[i] in s
    requires forall i, j :: 0 <= i < j < |path| ==> path[i] != path[j]
    ensures |path| <= |s|
  {
    if path != [] {
      var n := |path| - 1;
      DistinctWithin(path[..n], s - {path[n]});
    }
  }

  // Where a walk closes, it closes on a cycle.
  lemma ClosingEdgeOnCycle(rows: Rows, path: seq<RowId>, cur: RowId)
    requires Chain(rows, path, cur) && cur in path
    ensures OnCycle(rows, path[|path| - 1], cur)
  {
    var k := |path|;
    var j :| 0 <= j < k && path[j] == cur;
    assert Follow(rows, path[0], k - 1) == Some(path[k - 1]);
    FollowAdd(rows, path[0], j, k - 1 - j);
  }

  // A walk that starts on a cycle closes at its own start.
  lemma {:induction false} ClosesAtStart(rows: Rows, path: seq<RowId>, cur: RowId, period: nat)
    requires Chain(rows, path, cur) && cur in path
    requires 0 < period && Follow(rows, path[0], period) == Some(path[0])
    ensures cur == path[0]
  {
    var x, k := path[0], |path|;
    var j :| 0 <= j < k && path[j] == cur;
    var lap := j * period;
    assert lap >= j by { if j > 0 { assert j * period >= j * 1; } }
    Laps(rows, x, period, j);
    FollowAdd(rows, x, j, lap - j);
    FollowAdd(rows, x, k, lap - j);
    FollowAdd(rows, x, lap, k - j);
    assert lap + (k - j) == k + (lap - j);
    assert Follow(rows, x, k - j) == Some(x);
  }

  // Following a cycle never runs out of edges.
  lemma {:induction false} CycleGoesOn(rows: Rows, x: RowId, period: nat, n: nat)
    requires 0 < period && Follow(rows, x, period) == Some(x)
    ensures Follow(rows, x, n).Some?
    decreases n
  {
    if n < period {
      FollowDefined(rows, x, n, period);
    } else {
      CycleGoesOn(rows, x, period, n - period);
      FollowAdd(rows, x, period, n - period);
    }
  }

  lemma {:induction false} FollowDefined(rows: Rows, x: RowId, n: nat, m: nat)
    requires n <= m && Follow(rows, x, m).Some?
    ensures Follow(rows, x, n).Some?
  {
    if n < m { FollowDefined(rows, x, n, m - 1); }
  }

  ghost predicate Loops(rows: Rows, x: RowId) {
    exists period: nat :: 0 < period && Follow(rows, x, period) == Some(x)
  }

  // `x` is the first row on a cycle that following the graph from `start` comes to.
  ghost predicate EntersAt(rows: Rows, start: RowId, x: RowId) {
    exists n: nat :: Follow(rows, start, n) == Some(x) && Loops(rows, x) && TailBefore(rows, start, n)
  }

  // None of the first `n` rows from `start` is on a cycle.
  ghost predicate TailBefore(rows: Rows, start: RowId, n: nat) {
    forall m: nat :: m < n && Follow(rows, start, m).Some? ==> !Loops(rows, Follow(rows, start, m).value)
  }

  lemma EntersUnique(rows: Rows, start: RowId, x: RowId, y: RowId)
    requires EntersAt(rows, start, x) && EntersAt(rows, start, y)
    ensures x == y
  {
    var n: nat :| Follow(rows, start, n) == Some(x) && Loops(rows, x) && TailBefore(rows, start, n);
    var m: nat :| Follow(rows, start, m) == Some(y) && Loops(rows, y) && TailBefore(rows, start, m);
    assert n <= m && m <= n;
  }

  // Where a walk closes is where it entered the cycle.
  lemma {:induction false} ClosesWhereItEntered(rows: Rows, path: seq<RowId>, cur: RowId)
    requires Chain(rows, path, cur) && cur in path
    ensures EntersAt(rows, path[0], cur)
  {
    var k := |path|;
    var j :| 0 <= j < k && path[j] == cur;
    FollowAdd(rows, path[0], j, k - j);
    assert Follow(rows, cur, k - j) == Some(cur);
    forall m: nat | m < j ensures !Loops(rows, path[m]) {
      SuffixChain(rows, path, cur, m);
      var rest := path[m..];
      assert rest[j - m] == cur && rest[0] != cur;
      forall period: nat ensures !(0 < period && Follow(rows, rest[0], period) == Some(rest[0])) {
        if 0 < period && Follow(rows, rest[0], period) == Some(rest[0]) { ClosesAtStart(rows, rest, cur, period); }
      }
    }
    assert TailBefore(rows, path[0], j);
  }

  lemma {:induction false} SuffixChain(rows: Rows, path: seq<RowId>, cur: RowId, m: nat)
    requires Chain(rows, path, cur) && m < |path|
    ensures Chain(rows, path[m..], cur)
  {
    forall i | 0 <= i <= |path| - m ensures Follow(rows, path[m], i) == Follow(rows, path[0], m + i) {
      FollowAdd(rows, path[0], m, i);
    }
  }

  // A chain that ends never came to a cycle.
  lemma {:induction false} DeadEndEntersNothing(rows: Rows, start: RowId, n: nat, cur: RowId, x: RowId)
    requires Follow(rows, start, n) == Some(cur) && Next(rows, cur).None?
    ensures !EntersAt(rows, start, x)
  {
    forall m: nat ensures !(Follow(rows, start, m) == Some(x) && Loops(rows, x)) {
      if Follow(rows, start, m) == Some(x) {
        if m <= n {
          FollowAdd(rows, start, m, n - m);
          DeadEndDoesNotLoop(rows, x, n - m, cur);
        } else {
          FollowDefined(rows, start, n + 1, m);
        }
      }
    }
  }

  // An edge that enters `x` on its cycle has been recorded.
  ghost predicate EntryFound(rows: Rows, edges: set<(RowId, RowId)>, x: RowId) {
    exists p :: (p, x) in edges && OnCycle(rows, p, x)
  }

  lemma EntryStaysFound(rows: Rows, edges: set<(RowId, RowId)>, more: set<(RowId, RowId)>, x: RowId)
    requires EntryFound(rows, edges, x) && edges <= more
    ensures EntryFound(rows, more, x)
  {
    var p :| (p, x) in edges && OnCycle(rows, p, x);
    assert (p, x) in more;
  }

  lemma {:induction false} DeadEndDoesNotLoop(rows: Rows, x: RowId, n: nat, cur: RowId)
    requires Follow(rows, x, n) == Some(cur) && Next(rows, cur).None?
    ensures !Loops(rows, x)
  {
    if Loops(rows, x) {
      var period: nat :| 0 < period && Follow(rows, x, period) == Some(x);
      CycleGoesOn(rows, x, period, n + 1);
    }
  }

  method WalkForCycles(rows: Rows, cur: RowId, path0: seq<RowId>, edges0: set<(RowId, RowId)>)
    returns (path: seq<RowId>, edges: set<(RowId, RowId)>, ghost steps: nat)
    requires Chain(rows, path0, cur)
    ensures path == path0
    ensures edges0 <= edges
    ensures forall e :: e in edges && e !in edges0 ==> OnCycle(rows, e.0, e.1) && EntersAt(rows, Start(path0, cur), e.1)
    ensures forall x :: EntersAt(rows, Start(path0, cur), x) ==> EntryFound(rows, edges, x)
    ensures |path0| + steps <= |rows| + 1
    decreases |rows| - |path0|
  {
    path, edges, steps := path0, edges0, 1;
    DistinctWithin(path0, rows.Keys);
    if cur in path {
      var prev := path[|path| - 1];
      ClosingEdgeOnCycle(rows, path, cur);
      edges := edges + {(prev, cur)};
      ClosesWhereItEntered(rows, path, cur);
      assert (prev, cur) in edges && EntryFound(rows, edges, cur);
      forall x | EntersAt(rows, Start(path0, cur), x) ensures EntryFound(rows, edges, x) {
        EntersUnique(rows, path[0], x, cur);
      }
      return;
    }
    path := path + [cur];
    DistinctWithin(path, rows.Keys);
    assert Start(path, cur) == Start(path0, cur);
    if cur in rows {
      if rows[cur].supersedes.Some? {
        var next := rows[cur].supersedes.value;
        if next in rows {
          assert Follow(rows, path[0], |path0|) == Some(cur);
          path, edges, steps := WalkForCycles(rows, next, path, edges);
          steps := steps + 1;
        }
      }
    }
    if Next(rows, cur).None? {
      forall x ensures !EntersAt(rows, Start(path0, cur), x) {
        DeadEndEntersNothing(rows, Start(path0, cur), |path0|, cur, x);
      }
    }
    path := path[..|path| - 1];
  }

  // ----- The audit -----

  ghost predicate SortedById(catalog: Catalog) {
    forall i, j :: 0 <= i < j < |catalog| ==> catalog[i].0 <= catalog[j].0
  }

  ghost predicate UniqueIds(catalog: Catalog) {
    forall i, j :: 0 <= i < j < |catalog| ==> catalog[i].0 != catalog[j].0
  }

  // Two neighbouring rows below position `k` have this id.
  ghost predicate RepeatedBelow(catalog: Catalog, k: int, id: RowId) {
    exists i :: 0 < i < k && i < |catalog| && catalog[i - 1].0 == id && catalog[i].0 == id
  }

  // What a finding asserts about the catalogue.
  ghost predicate Holds(catalog: Catalog, f: Finding) {
    var rows := LastById(catalog);
    match f
    case DanglingSupersedes(from, target) =>
      target !in rows && exists i :: 0 <= i < |catalog| && catalog[i].0 == from && catalog[i].1.supersedes == Some(target)
    case RemovedDeclaresSupersedes(from) =>
      exists i :: 0 <= i < |catalog| && catalog[i].0 == from
                  && catalog[i].1.lifecycle == REGISTRY_LIFECYCLE_REMOVED && catalog[i].1.supersedes.Some?
    case DuplicateRowId(id) => RepeatedBelow(catalog, |catalog|, id)
    case SupersedesCycle(a, b) => OnCycle(rows, a, b)
  }

  method DuplicateFindings(catalog: Catalog) returns (out: seq<Finding>)
    ensures forall f :: f in out <==> f.DuplicateRowId? && Holds(catalog, f)
    ensures UniqueIds(catalog) ==> out == []
  {
    out := [];
    var k := 1;
    while k < |catalog|
      invariant UniqueIds(catalog) ==> out == []
      invariant 1 <= k <= |catalog| || k == 1
      invariant forall f :: f in out <==> f.DuplicateRowId? && RepeatedBelow(catalog, k, f.rowId)
    {
      if catalog[k - 1].0 == catalog[k].0 {
        out := out + [DuplicateRowId(catalog[k].0)];
      }
      k := k + 1;
    }
  }

  method PointerFindings(catalog: Catalog, rows: Rows) returns (out: seq<Finding>)
    requires rows == LastById(catalog)
    ensures forall f :: f in out <==>
                          (f.DanglingSupersedes? || f.RemovedDeclaresSupersedes?) && Holds(catalog, f)
    ensures UniqueIds(catalog) ==> Distinct(out)
  {
    out := [];
    for k := 0 to |catalog|
      invariant forall f :: f in out <==> exists i :: 0 <= i < k && RowFinding(rows, catalog[i], f)
      invariant UniqueIds(catalog) ==> Distinct(out)
    {
      var (id, body) := catalog[k];
      ghost var before := out;
      if body.supersedes.Some? && body.supersedes.value !in rows {
        out := out + [DanglingSupersedes(id, body.supersedes.value)];
      }
      if body.lifecycle == REGISTRY_LIFECYCLE_REMOVED && body.supersedes.Some? {
        out := out + [RemovedDeclaresSupersedes(id)];
      }
      assert forall f :: f in out <==> f in before || RowFinding(rows, catalog[k], f);
      assert UniqueIds(catalog) ==> forall f :: f in before ==> f.from != id;
    }
    forall f ensures f in out <==> (f.DanglingSupersedes? || f.RemovedDeclaresSupersedes?) && Holds(catalog, f) {
      if (f.DanglingSupersedes? || f.RemovedDeclaresSupersedes?) && Holds(catalog, f) {
        var i :| 0 <= i < |catalog| && RowFinding(rows, catalog[i], f);
      }
    }
  }

  // A finding a single row gives rise to.
  ghost predicate RowFinding(rows: Rows, row: (RowId, RowBody), f: Finding) {
    || (f.DanglingSupersedes? && f.from == row.0 && row.1.supersedes == Some(f.target) && f.target !in rows)
    || (f.RemovedDeclaresSupersedes? && f.from == row.0 && row.1.supersedes.Some?
        && row.1.lifecycle == REGISTRY_LIFECYCLE_REMOVED)
  }

  // Every walk so far that started on a cycle recorded the edge into its start.
  ghost predicate Covered(rows: Rows, catalog: Catalog, k: nat, edges: set<(RowId, RowId)>)
    requires k <= |catalog|
  {
    forall j :: 0 <= j < k && Loops(rows, catalog[j].0) ==> EntryFound(rows, edges, catalog[j].0)
  }

  ghost predicate AllOnCycles(rows: Rows, edges: set<(RowId, RowId)>) {
    forall e :: e in edges ==> OnCycle(rows, e.0, e.1)
  }

  lemma CoverOneMore(rows: Rows, catalog: Catalog, k: nat, edges: set<(RowId, RowId)>, more: set<(RowId, RowId)>)
    requires k < |catalog| && Covered(rows, catalog, k, edges) && edges <= more
    requires Loops(rows, catalog[k].0) ==> EntryFound(rows, more, catalog[k].0)
    ensures Covered(rows, catalog, k + 1, more)
  {
    forall j | 0 <= j < k && Loops(rows, catalog[j].0) ensures EntryFound(rows, more, catalog[j].0) {
      EntryStaysFound(rows, edges, more, catalog[j].0);
    }
  }

  /** Walking from every row finds every cycle edge and nothing else. */
  method CycleEdges(catalog: Catalog, rows: Rows) returns (edges: set<(RowId, RowId)>)
    requires rows == LastById(catalog)
    ensures forall e :: e in edges <==> OnCycle(rows, e.0, e.1)
  {
    edges := {};
    for k := 0 to |catalog|
      invariant AllOnCycles(rows, edges)
      invariant Covered(rows, catalog, k, edges)
    {
      var path: seq<RowId>, more;
      ghost var steps;
      path, more, steps := WalkForCycles(rows, catalog[k].0, [], edges);
      assert Loops(rows, catalog[k].0) ==> EntersAt(rows, catalog[k].0, catalog[k].0) by {
        assert Follow(rows, catalog[k].0, 0) == Some(catalog[k].0) && TailBefore(rows, catalog[k].0, 0);
      }
      CoverOneMore(rows, catalog, k, edges, more);
      edges := more;
    }
    forall a: RowId, b: RowId | OnCycle(rows, a, b) ensures (a, b) in edges {
      CycleEdgeFound(catalog, rows, edges, a, b);
    }
  }

  // The walk from `b` recorded the edge that enters `b` on its cycle.
  lemma {:induction false} CycleEdgeFound(catalog: Catalog, rows: Rows, edges: set<(RowId, RowId)>, a: RowId, b: RowId)
    requires rows == LastById(catalog) && OnCycle(rows, a, b)
    requires Covered(rows, catalog, |catalog|, edges)
    ensures (a, b) in edges
  {
    var n: nat :| Follow(rows, b, n) == Some(a);
    assert Follow(rows, b, n + 1) == Some(b);
    assert Loops(rows, b);
    var j :| 0 <= j < |catalog| && catalog[j].0 == b;
    var p :| (p, catalog[j].0) in edges && OnCycle(rows, p, catalog[j].0);
    CyclePredecessorUnique(rows, a, p, b);
  }

  method CycleFindings(edges: set<(RowId, RowId)>) returns (cycles: seq<Finding>)
    ensures forall f :: f in cycles <==> f.SupersedesCycle? && (f.edgeFrom, f.edgeTo) in edges
    ensures Distinct(cycles)
  {
    cycles := [];
    var rest := edges;
    while rest != {}
      invariant rest <= edges
      invariant Distinct(cycles)
      invariant forall f :: f in cycles <==> f.SupersedesCycle? && (f.edgeFrom, f.edgeTo) in edges - rest
    {
      var e :| e in rest;
      cycles := cycles + [SupersedesCycle(e.0, e.1)];
      rest := rest - {e};
    }
  }

  /** The audit reports, in sorted order, exactly the findings that hold. In
      particular its cycle findings are exactly the edges on a directed cycle. */
  method SupersessionFindings(catalog: Catalog) returns (out: seq<Finding>)
    ensures InOrder(out)
    ensures forall f :: f in out <==> Holds(catalog, f)
    ensures UniqueIds(catalog) ==> Distinct(out)
  {
    var rows := ById(catalog);
    var dups := DuplicateFindings(catalog);
    var ptrs := PointerFindings(catalog, rows);
    var edges := CycleEdges(catalog, rows);
    var cycles := CycleFindings(edges);
    out := dups + ptrs + cycles;
    PartsHold(catalog, rows, edges, dups, ptrs, cycles);
    if UniqueIds(catalog) {
      assert out == ptrs + cycles;
      DistinctParts(ptrs, cycles);
    }
    SortedReport(out);
    out := Sort(FindingLe, out);
  }

  lemma {:induction false} PartsHold(catalog: Catalog, rows: Rows, edges: set<(RowId, RowId)>,
                  dups: seq<Finding>, ptrs: seq<Finding>, cycles: seq<Finding>)
    requires rows == LastById(catalog) && forall e :: e in edges <==> OnCycle(rows, e.0, e.1)
    requires forall f :: f in dups <==> f.DuplicateRowId? && Holds(catalog, f)
    requires forall f :: f in ptrs <==> (f.DanglingSupersedes? || f.RemovedDeclaresSupersedes?) && Holds(catalog, f)
    requires forall f :: f in cycles <==> f.SupersedesCycle? && (f.edgeFrom, f.edgeTo) in edges
    ensures forall f :: f in dups + ptrs + cycles <==> Holds(catalog, f)
  {
    forall f ensures f in dups + ptrs + cycles <==> Holds(catalog, f) {
      assert f in dups + ptrs + cycles <==> f in dups || f in ptrs || f in cycles;
    }
  }

  lemma {:induction false} SortedReport(all: seq<Finding>)
    ensures InOrder(Sort(FindingLe, all)) && forall f :: f in Sort(FindingLe, all) <==> f in all
    ensures Distinct(all) ==> Distinct(Sort(FindingLe, all))
  {
    FindingTotalOrder();
    SortSorts(FindingLe, all);
    if Distinct(all) { SortDistinct(FindingLe, all); }
    var out := Sort(FindingLe, all);
    forall i, j | 0 <= i < j < |out| ensures FindingBefore(out[i], out[j]) { FindingOrder(out[i], out[j]); }
  }

  // Pointer and cycle findings never coincide.
  lemma DistinctParts(ptrs: seq<Finding>, cycles: seq<Finding>)
    requires Distinct(ptrs) && Distinct(cycles)
    requires forall f :: f in ptrs ==> f.DanglingSupersedes? || f.RemovedDeclaresSupersedes?
    requires forall f :: f in cycles ==> f.SupersedesCycle?
    ensures Distinct(ptrs + cycles)
  {
    var all := ptrs + cycles;
    forall i, j | 0 <= i < j < |all| ensures all[i] != all[j] {
      if i < |ptrs| <= j { assert ptrs[i] in ptrs && cycles[j - |ptrs|] in cycles; }
    }
  }

  method ById(catalog: Catalog) returns (rows: Rows)
    ensures rows == LastById(catalog)
  {
    rows := map[];
    for k := 0 to |catalog|
      invariant rows == LastById(catalog[..k])
    {
      assert catalog[..k + 1][..k] == catalog[..k];
      rows := rows[catalog[k].0 := catalog[k].1];
    }
    assert catalog[..|catalog|] == catalog;
  }

  /** On a catalogue sorted by id, the adjacent-pair check sees every repeated id. */
  lemma DuplicatesAreAdjacent(catalog: Catalog)
    requires SortedById(catalog)
    ensures UniqueIds(catalog) <==> forall id :: !RepeatedBelow(catalog, |catalog|, id)
  {
    if forall id :: !RepeatedBelow(catalog, |catalog|, id) {
      forall i, j | 0 <= i < j < |catalog| ensures catalog[i].0 != catalog[j].0 {
        var last := catalog[j].0;
        assert !RepeatedBelow(catalog, |catalog|, last);
        assert catalog[j - 1].0 != last && catalog[j - 1].0 <= last;
        assert i < j - 1 ==> catalog[i].0 <= catalog[j - 1].0;
      }
    }
    if UniqueIds(catalog) {
      forall id ensures !RepeatedBelow(catalog, |catalog|, id) {}
    }
  }
}
