/**
 The registry drift merge: two cursors over id-sorted `(row id, row hash)` lists,
 against the set difference of the two maps they spell.
 */
module Drift {
  import opened Sorting
  import opened Evidence
  import opened Registry

  type Side = seq<(RowId, Hash)>

  datatype Finding =
    | MissingRow(rowId: RowId)
    | ExtraRow(rowId: RowId)
    | HashMismatch(rowId: RowId, expected: Hash, observed: Hash)

  function FindingKey(f: Finding): seq<nat> {
    match f
    case MissingRow(id) => [0, id]
    case ExtraRow(id) => [1, id]
    case HashMismatch(id, e, o) => [2, id, e, o]
  }

  predicate FindingLe(a: Finding, b: Finding) { BytesLe(FindingKey(a), FindingKey(b)) }

  lemma FindingTotalOrder()
    ensures TotalOrder(FindingLe)
  {
    forall a, b | FindingKey(a) == FindingKey(b) ensures a == b {
      assert FindingKey(a)[0] == FindingKey(b)[0] && FindingKey(a)[1] == FindingKey(b)[1];
      assert |FindingKey(a)| == 4 ==> FindingKey(a)[2] == FindingKey(b)[2] && FindingKey(a)[3] == FindingKey(b)[3];
    }
    KeyedTotalOrder(FindingLe, FindingKey);
  }

  ghost predicate SortedById(s: Side) {
    forall i, j :: 0 <= i < j < |s| ==> s[i].0 < s[j].0
  }

  // The map a side spells.
  ghost function AsMap(s: Side): (m: map<RowId, Hash>) {
    if s == [] then map[] else AsMap(s[..|s| - 1])[s[|s| - 1].0 := s[|s| - 1].1]
  }

  // Missing rows, extra rows and mismatches in that order, each by their ids and hashes.
  ghost predicate FindingBefore(a: Finding, b: Finding) {
    match a
    case MissingRow(id) => !b.MissingRow? || id <= b.rowId
    case ExtraRow(id) => !b.MissingRow? && (!b.ExtraRow? || id <= b.rowId)
    case HashMismatch(id, e, o) =>
      b.HashMismatch? && (id < b.rowId || (id == b.rowId && (e < b.expected || (e == b.expected && o <= b.observed))))
  }

  ghost predicate InOrder(fs: seq<Finding>) { forall i, j :: 0 <= i < j < |fs| ==> FindingBefore(fs[i], fs[j]) }

  lemma {:induction false} FindingOrder(a: Finding, b: Finding)
    ensures FindingLe(a, b) <==> FindingBefore(a, b)
  {
    var k, l := FindingKey(a), FindingKey(b);
    BytesStep(k, l);
    BytesStep(k[1..], l[1..]);
    if |k| == |l| { BytesStep(k[2..], l[2..]); }
    if |k| == 4 && |l| == 4 { BytesStep(k[3..], l[3..]); BytesStep(k[4..], l[4..]); }
  }

  lemma SortedInOrder(fs: seq<Finding>)
    requires StrictlySorted(FindingLe, fs)
    ensures InOrder(fs)
  {
    forall i, j | 0 <= i < j < |fs| ensures FindingBefore(fs[i], fs[j]) { FindingOrder(fs[i], fs[j]); }
  }

  // The set-based difference of the two maps.
  ghost predicate Differs(expected: map<RowId, Hash>, observed: map<RowId, Hash>, f: Finding) {
    match f
    case MissingRow(id) => id in expected && id !in observed
    case ExtraRow(id) => id !in expected && id in observed
    case HashMismatch(id, e, o) => id in expected && id in observed && expected[id] == e && observed[id] == o && e != o
  }

  lemma {:induction false} AsMapMembers(s: Side)
    requires SortedById(s)
    ensures forall i :: 0 <= i < |s| ==> s[i].0 in AsMap(s) && AsMap(s)[s[i].0] == s[i].1
    ensures forall id :: id in AsMap(s) ==> exists i :: 0 <= i < |s| && s[i].0 == id
  {
    if s != [] {
      var n := |s| - 1;
      var front := s[..n];
      AsMapMembers(front);
      AsMapKeys(front, s, n);
      forall i | 0 <= i < n ensures s[i].0 in AsMap(s) && AsMap(s)[s[i].0] == s[i].1 {
        assert front[i] == s[i];
      }
    }
  }

  lemma {:induction false} AsMapKeys(front: Side, s: Side, n: nat)
    requires n == |s| - 1 && front == s[..n]
    requires forall id :: id in AsMap(front) ==> exists i :: 0 <= i < |front| && front[i].0 == id
    ensures forall id :: id in AsMap(s) ==> exists i :: 0 <= i < |s| && s[i].0 == id
  {
    forall id | id in AsMap(s) ensures exists i :: 0 <= i < |s| && s[i].0 == id {
      if id != s[n].0 {
        assert AsMap(s) == AsMap(front)[s[n].0 := s[n].1] && id in AsMap(front);
        var i :| 0 <= i < |front| && front[i].0 == id;
        assert s[i].0 == id;
      }
    }
  }

  // ----- The merge -----

  // What the cursors have reported so far: the differences at ids both have passed.
  ghost predicate Reported(expected: Side, observed: Side, i: nat, j: nat, f: Finding)
    requires i <= |expected| && j <= |observed|
  {
    match f
    case MissingRow(id) =>
      (exists k :: 0 <= k < i && expected[k].0 == id) && forall k :: 0 <= k < |observed| ==> observed[k].0 != id
    case ExtraRow(id) =>
      (exists k :: 0 <= k < j && observed[k].0 == id) && forall k :: 0 <= k < |expected| ==> expected[k].0 != id
    case HashMismatch(id, e, o) =>
      e != o && exists k, l :: 0 <= k < i && 0 <= l < j && expected[k] == (id, e) && observed[l] == (id, o)
  }

  // Everything behind one cursor is below everything ahead of the other.
  ghost predicate Cursors(expected: Side, observed: Side, i: nat, j: nat) {
    && i <= |expected| && j <= |observed|
    && (forall k, l :: 0 <= k < i && j <= l < |observed| ==> expected[k].0 < observed[l].0)
    && (forall k, l :: i <= k < |expected| && 0 <= l < j ==> observed[l].0 < expected[k].0)
  }

  // Moving the expected cursor past an id the observed side lacks reports that id.
  lemma PassMissing(expected: Side, observed: Side, i: nat, j: nat)
    requires SortedById(expected) && SortedById(observed) && Cursors(expected, observed, i, j)
    requires i < |expected| && (j < |observed| ==> expected[i].0 < observed[j].0)
    ensures Cursors(expected, observed, i + 1, j)
    ensures !Reported(expected, observed, i, j, MissingRow(expected[i].0))
    ensures forall f :: Reported(expected, observed, i + 1, j, f) <==>
                        Reported(expected, observed, i, j, f) || f == MissingRow(expected[i].0)
  {
    forall l | 0 <= l < |observed| ensures observed[l].0 != expected[i].0 {
      if j < l { assert observed[j].0 < observed[l].0; }
    }
  }

  lemma PassExtra(expected: Side, observed: Side, i: nat, j: nat)
    requires SortedById(expected) && SortedById(observed) && Cursors(expected, observed, i, j)
    requires j < |observed| && (i < |expected| ==> observed[j].0 < expected[i].0)
    ensures Cursors(expected, observed, i, j + 1)
    ensures !Reported(expected, observed, i, j, ExtraRow(observed[j].0))
    ensures forall f :: Reported(expected, observed, i, j + 1, f) <==>
                        Reported(expected, observed, i, j, f) || f == ExtraRow(observed[j].0)
  {
    forall k | 0 <= k < |expected| ensures expected[k].0 != observed[j].0 {
      if i < k { assert expected[i].0 < expected[k].0; }
    }
  }

  lemma PassBoth(expected: Side, observed: Side, i: nat, j: nat)
    requires SortedById(expected) && SortedById(observed) && Cursors(expected, observed, i, j)
    requires i < |expected| && j < |observed| && expected[i].0 == observed[j].0
    ensures Cursors(expected, observed, i + 1, j + 1)
    ensures !Reported(expected, observed, i, j, HashMismatch(expected[i].0, expected[i].1, observed[j].1))
    ensures forall f :: Reported(expected, observed, i + 1, j + 1, f) <==>
                        || Reported(expected, observed, i, j, f)
                        || (expected[i].1 != observed[j].1 && f == HashMismatch(expected[i].0, expected[i].1, observed[j].1))
  {
    forall f: Finding | f.HashMismatch? && Reported(expected, observed, i + 1, j + 1, f) && !Reported(expected, observed, i, j, f)
      ensures f == HashMismatch(expected[i].0, expected[i].1, observed[j].1)
    {
      var k, l :| 0 <= k < i + 1 && 0 <= l < j + 1 && expected[k] == (f.rowId, f.expected) && observed[l] == (f.rowId, f.observed);
    }
    forall f: Finding | f.HashMismatch? && Reported(expected, observed, i, j, f)
      ensures Reported(expected, observed, i + 1, j + 1, f)
    {
      var k, l :| 0 <= k < i && 0 <= l < j && expected[k] == (f.rowId, f.expected) && observed[l] == (f.rowId, f.observed);
      assert k < i + 1 && l < j + 1;
    }
  }

  // With both cursors at the end, what was reported is the difference of the maps.
  lemma {:induction false} ReportedAll(expected: Side, observed: Side, f: Finding)
    requires SortedById(expected) && SortedById(observed)
    ensures Reported(expected, observed, |expected|, |observed|, f) <==>
            Differs(AsMap(expected), AsMap(observed), f)
  {
    AsMapMembers(expected);
    AsMapMembers(observed);
    if f.HashMismatch? && Differs(AsMap(expected), AsMap(observed), f) {
      var k :| 0 <= k < |expected| && expected[k].0 == f.rowId;
      var l :| 0 <= l < |observed| && observed[l].0 == f.rowId;
      assert expected[k] == (f.rowId, f.expected) && observed[l] == (f.rowId, f.observed);
    }
  }

  ghost predicate MergeState(expected: Side, observed: Side, i: nat, j: nat, out: seq<Finding>) {
    && Cursors(expected, observed, i, j)
    && Distinct(out)
    && forall f :: f in out <==> Reported(expected, observed, i, j, f)
  }

  lemma StepMissing(expected: Side, observed: Side, i: nat, j: nat, out: seq<Finding>)
    requires SortedById(expected) && SortedById(observed) && MergeState(expected, observed, i, j, out)
    requires i < |expected| && (j < |observed| ==> expected[i].0 < observed[j].0)
    ensures MergeState(expected, observed, i + 1, j, out + [MissingRow(expected[i].0)])
  {
    PassMissing(expected, observed, i, j);
  }

  lemma StepExtra(expected: Side, observed: Side, i: nat, j: nat, out: seq<Finding>)
    requires SortedById(expected) && SortedById(observed) && MergeState(expected, observed, i, j, out)
    requires j < |observed| && (i < |expected| ==> observed[j].0 < expected[i].0)
    ensures MergeState(expected, observed, i, j + 1, out + [ExtraRow(observed[j].0)])
  {
    PassExtra(expected, observed, i, j);
  }

  lemma StepBoth(expected: Side, observed: Side, i: nat, j: nat, out: seq<Finding>)
    requires SortedById(expected) && SortedById(observed) && MergeState(expected, observed, i, j, out)
    requires i < |expected| && j < |observed| && expected[i].0 == observed[j].0
    ensures MergeState(expected, observed, i + 1, j + 1,
              if expected[i].1 == observed[j].1 then out
              else out + [HashMismatch(expected[i].0, expected[i].1, observed[j].1)])
  {
    PassBoth(expected, observed, i, j);
  }

  lemma {:induction false} FinishMerge(expected: Side, observed: Side, out: seq<Finding>)
    requires SortedById(expected) && SortedById(observed)
    requires MergeState(expected, observed, |expected|, |observed|, out)
    ensures StrictlySorted(FindingLe, Sort(FindingLe, out))
    ensures forall f :: f in Sort(FindingLe, out) <==> Differs(AsMap(expected), AsMap(observed), f)
  {
    FindingTotalOrder();
    SortDistinct(FindingLe, out);
    forall f ensures f in out <==> Differs(AsMap(expected), AsMap(observed), f) {
      ReportedAll(expected, observed, f);
    }
  }

  // The findings the cursors still have to report from positions `i` and `j`.
  function Merge(expected: Side, observed: Side, i: nat, j: nat): (r: seq<Finding>)
    requires i <= |expected| && j <= |observed|
    decreases |expected| + |observed| - i - j
  {
    if i < |expected| && (j == |observed| || expected[i].0 < observed[j].0) then
      [MissingRow(expected[i].0)] + Merge(expected, observed, i + 1, j)
    else if j < |observed| && (i == |expected| || observed[j].0 < expected[i].0) then
      [ExtraRow(observed[j].0)] + Merge(expected, observed, i, j + 1)
    else if i < |expected| then
      (if expected[i].1 == observed[j].1 then []
       else [HashMismatch(expected[i].0, expected[i].1, observed[j].1)])
      + Merge(expected, observed, i + 1, j + 1)
    else []
  }

  lemma Shift(out: seq<Finding>, f: Finding, rest: seq<Finding>)
    ensures out + ([f] + rest) == (out + [f]) + rest
  {
  }

  lemma {:induction false} MergeReports(expected: Side, observed: Side, i: nat, j: nat, out: seq<Finding>)
    requires SortedById(expected) && SortedById(observed) && MergeState(expected, observed, i, j, out)
    ensures MergeState(expected, observed, |expected|, |observed|, out + Merge(expected, observed, i, j))
    decreases |expected| + |observed| - i - j
  {
    if i < |expected| && (j == |observed| || expected[i].0 < observed[j].0) {
      var f := MissingRow(expected[i].0);
      StepMissing(expected, observed, i, j, out);
      MergeReports(expected, observed, i + 1, j, out + [f]);
      Shift(out, f, Merge(expected, observed, i + 1, j));
    } else if j < |observed| && (i == |expected| || observed[j].0 < expected[i].0) {
      var f := ExtraRow(observed[j].0);
      StepExtra(expected, observed, i, j, out);
      MergeReports(expected, observed, i, j + 1, out + [f]);
      Shift(out, f, Merge(expected, observed, i, j + 1));
    } else if i < |expected| {
      MergeReportsBoth(expected, observed, i, j, out);
    } else {
      assert out + [] == out;
    }
  }

  lemma {:induction false} MergeReportsBoth(expected: Side, observed: Side, i: nat, j: nat, out: seq<Finding>)
    requires SortedById(expected) && SortedById(observed) && MergeState(expected, observed, i, j, out)
    requires i < |expected| && j < |observed| && expected[i].0 == observed[j].0
    ensures MergeState(expected, observed, |expected|, |observed|, out + Merge(expected, observed, i, j))
    decreases |expected| + |observed| - i - j, 0
  {
    StepBoth(expected, observed, i, j, out);
    var rest := Merge(expected, observed, i + 1, j + 1);
    if expected[i].1 == observed[j].1 {
      MergeReports(expected, observed, i + 1, j + 1, out);
      assert [] + rest == rest;
    } else {
      var f := HashMismatch(expected[i].0, expected[i].1, observed[j].1);
      MergeReports(expected, observed, i + 1, j + 1, out + [f]);
      Shift(out, f, rest);
    }
  }

  // The three cursor loops, before the final sort.
  method MergeSides(expected: Side, observed: Side) returns (out: seq<Finding>)
    ensures out == Merge(expected, observed, 0, 0)
  {
    var i, j := 0, 0;
    out := [];
    ghost var all := Merge(expected, observed, 0, 0);
    while i < |expected| && j < |observed|
      invariant i <= |expected| && j <= |observed|
      invariant out + Merge(expected, observed, i, j) == all
      decreases |expected| + |observed| - i - j
    {
      if expected[i].0 < observed[j].0 {
        Shift(out, MissingRow(expected[i].0), Merge(expected, observed, i + 1, j));
        out := out + [MissingRow(expected[i].0)];
        i := i + 1;
      } else if expected[i].0 > observed[j].0 {
        Shift(out, ExtraRow(observed[j].0), Merge(expected, observed, i, j + 1));
        out := out + [ExtraRow(observed[j].0)];
        j := j + 1;
      } else {
        if expected[i].1 != observed[j].1 {
          Shift(out, HashMismatch(expected[i].0, expected[i].1, observed[j].1), Merge(expected, observed, i + 1, j + 1));
          out := out + [HashMismatch(expected[i].0, expected[i].1, observed[j].1)];
        }
        assert [] + Merge(expected, observed, i + 1, j + 1) == Merge(expected, observed, i + 1, j + 1);
        i, j := i + 1, j + 1;
      }
    }
    while i < |expected|
      invariant i <= |expected| && j <= |observed| && (i < |expected| ==> j == |observed|)
      invariant out + Merge(expected, observed, i, j) == all
    {
      Shift(out, MissingRow(expected[i].0), Merge(expected, observed, i + 1, j));
      out := out + [MissingRow(expected[i].0)];
      i := i + 1;
    }
    while j < |observed|
      invariant i == |expected| && j <= |observed|
      invariant out + Merge(expected, observed, i, j) == all
    {
      Shift(out, ExtraRow(observed[j].0), Merge(expected, observed, i, j + 1));
      out := out + [ExtraRow(observed[j].0)];
      j := j + 1;
    }
    assert out + [] == out;
  }

  /** The merge reports, sorted and each once, exactly the set-based difference. */
  method DriftFindings(expected: Side, observed: Side) returns (out: seq<Finding>)
    requires SortedById(expected) && SortedById(observed)
    ensures StrictlySorted(FindingLe, out) && InOrder(out)
    ensures forall f :: f in out <==> Differs(AsMap(expected), AsMap(observed), f)
    ensures out == [] <==> expected == observed
  {
    out := MergeSides(expected, observed);
    MergeFromStart(expected, observed);
    out := Sort(FindingLe, out);
    SortedInOrder(out);
    DriftEmpty(expected, observed);
    assert out == [] <==> InSync(AsMap(expected), AsMap(observed)) by {
      if out != [] { assert out[0] in out; }
    }
  }

  lemma {:induction false} MergeFromStart(expected: Side, observed: Side)
    requires SortedById(expected) && SortedById(observed)
    ensures var out := Sort(FindingLe, Merge(expected, observed, 0, 0));
            && StrictlySorted(FindingLe, out)
            && forall f :: f in out <==> Differs(AsMap(expected), AsMap(observed), f)
  {
    MergeReports(expected, observed, 0, 0, []);
    assert [] + Merge(expected, observed, 0, 0) == Merge(expected, observed, 0, 0);
    FinishMerge(expected, observed, Merge(expected, observed, 0, 0));
  }

  // ----- What the difference means -----

  ghost predicate InSync(m: map<RowId, Hash>, n: map<RowId, Hash>) { forall f :: !Differs(m, n, f) }

  lemma NoDifference(m: map<RowId, Hash>, n: map<RowId, Hash>)
    requires InSync(m, n)
    ensures m == n
  {
    forall id ensures id in m <==> id in n {
      if id in m { assert !Differs(m, n, MissingRow(id)); }
      if id in n { assert !Differs(m, n, ExtraRow(id)); }
    }
    forall id | id in m && id in n ensures m[id] == n[id] {
      assert !Differs(m, n, HashMismatch(id, m[id], n[id]));
    }
  }

  /** The report is empty iff the two sides are the same list. */
  lemma {:induction false} DriftEmpty(expected: Side, observed: Side)
    requires SortedById(expected) && SortedById(observed)
    ensures InSync(AsMap(expected), AsMap(observed)) <==> expected == observed
  {
    if InSync(AsMap(expected), AsMap(observed)) {
      NoDifference(AsMap(expected), AsMap(observed));
      SidesEqual(expected, observed);
    }
  }

  predicate PairLe(a: (RowId, Hash), b: (RowId, Hash)) { a.0 < b.0 || (a.0 == b.0 && a.1 <= b.1) }

  // An id-sorted list is determined by its map.
  lemma {:induction false} SidesEqual(s: Side, t: Side)
    requires SortedById(s) && SortedById(t) && AsMap(s) == AsMap(t)
    ensures s == t
  {
    AsMapMembers(s);
    AsMapMembers(t);
    assert TotalOrder(PairLe) by {
      forall a, b | PairLe(a, b) && PairLe(b, a) ensures a == b { assert a == (a.0, a.1) && b == (b.0, b.1); }
    }
    forall x ensures x in s <==> x in t {
      if x in s { assert x.0 in AsMap(t); var k :| 0 <= k < |t| && t[k].0 == x.0; }
      if x in t { assert x.0 in AsMap(s); var k :| 0 <= k < |s| && s[k].0 == x.0; }
    }
    StrictlySortedUnique(PairLe, s, t);
  }

  function Swap(f: Finding): Finding {
    match f
    case MissingRow(id) => ExtraRow(id)
    case ExtraRow(id) => MissingRow(id)
    case HashMismatch(id, e, o) => HashMismatch(id, o, e)
  }

  ghost function SwapAll(s: seq<Finding>): seq<Finding> { seq(|s|, i requires 0 <= i < |s| => Swap(s[i])) }

  // What `DriftFindings` returns.
  ghost predicate IsReport(expected: Side, observed: Side, out: seq<Finding>) {
    && StrictlySorted(FindingLe, out)
    && forall f :: f in out <==> Differs(AsMap(expected), AsMap(observed), f)
  }

  /** Exchanging the sides exchanges Missing with Extra and the hashes of each
      mismatch, and changes nothing else. */
  lemma DriftSwap(expected: Side, observed: Side, out: seq<Finding>, swapped: seq<Finding>)
    requires IsReport(expected, observed, out) && IsReport(observed, expected, swapped)
    ensures swapped == Sort(FindingLe, SwapAll(out))
  {
    var t := SwapAll(out);
    forall a, b | 0 <= a < b < |t| ensures t[a] != t[b] {
      assert Swap(t[a]) == out[a] && Swap(t[b]) == out[b];
    }
    FindingTotalOrder();
    SortDistinct(FindingLe, t);
    forall f ensures f in t <==> f in swapped {
      assert Differs(AsMap(observed), AsMap(expected), f) <==> Differs(AsMap(expected), AsMap(observed), Swap(f));
      if f in t {
        var i :| 0 <= i < |t| && t[i] == f;
        assert Swap(f) == out[i] && out[i] in out;
      }
      if f in swapped {
        var i :| 0 <= i < |out| && out[i] == Swap(f);
        assert t[i] == f;
      }
    }
    StrictlySortedUnique(FindingLe, swapped, Sort(FindingLe, t));
  }
}
