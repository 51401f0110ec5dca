/**
 The order theory shared by the model: total orders, lexicographic order, and
 the stable sort that Rust's `sort`, `sort_by` and `sort_by_key` perform.

 The two results everything else rests on are that a stable sort commutes with
 filtering, and that its output is fixed by the per-key subsequences of its input.
 */
module Sorting {

  // ----- Orders -----

  ghost predicate TotalPreorder<T(!new)>(le: (T, T) -> bool) {
    && (forall a, b :: le(a, b) || le(b, a))
    && (forall a, b, c :: le(a, b) && le(b, c) ==> le(a, c))
  }

  ghost predicate TotalOrder<T(!new)>(le: (T, T) -> bool) {
    && TotalPreorder(le)
    && (forall a, b :: le(a, b) && le(b, a) ==> a == b)
  }

  ghost predicate Sorted<T>(le: (T, T) -> bool, s: seq<T>) {
    forall i, j :: 0 <= i < j < |s| ==> le(s[i], s[j])
  }

  // Strictly ascending: sorted with no two equal elements.
  ghost predicate StrictlySorted<T>(le: (T, T) -> bool, s: seq<T>) {
    forall i, j :: 0 <= i < j < |s| ==> le(s[i], s[j]) && s[i] != s[j]
  }

  // No element occurs twice.
  ghost predicate Distinct<T>(s: seq<T>) { forall i, j :: 0 <= i < j < |s| ==> s[i] != s[j] }

  predicate CharLe(a: char, b: char) { a <= b }

  predicate NatLe(a: nat, b: nat) { a <= b }

  // Lexicographic order on sequences, as Rust orders `Vec`, `String` and slices.
  predicate LexLe<T(==)>(le: (T, T) -> bool, a: seq<T>, b: seq<T>) {
    if a == [] then true
    else if b == [] then false
    else if a[0] == b[0] then LexLe(le, a[1..], b[1..])
    else le(a[0], b[0])
  }

  predicate StrLe(a: string, b: string) { LexLe(CharLe, a, b) }

  predicate PathLe(a: seq<string>, b: seq<string>) { LexLe(StrLe, a, b) }

  predicate BytesLe(a: seq<nat>, b: seq<nat>) { LexLe(NatLe, a, b) }

  lemma {:induction false} LexTotal<T(!new)>(le: (T, T) -> bool, a: seq<T>, b: seq<T>)
    requires TotalOrder(le)
    ensures LexLe(le, a, b) || LexLe(le, b, a)
    ensures LexLe(le, a, b) && LexLe(le, b, a) ==> a == b
  {
    if a != [] && b != [] && a[0] == b[0] {
      LexTotal(le, a[1..], b[1..]);
      assert a == [a[0]] + a[1..] && b == [b[0]] + b[1..];
    }
  }

  lemma {:induction false} LexTransitive<T(!new)>(le: (T, T) -> bool, a: seq<T>, b: seq<T>, c: seq<T>)
    requires TotalOrder(le)
    requires LexLe(le, a, b) && LexLe(le, b, c)
    ensures LexLe(le, a, c)
  {
    if a != [] && a[0] == b[0] && b[0] == c[0] {
      LexTransitive(le, a[1..], b[1..], c[1..]);
    }
  }

  lemma StrTotalOrder()
    ensures TotalOrder(StrLe)
  {
    forall a, b ensures (StrLe(a, b) || StrLe(b, a)) && (StrLe(a, b) && StrLe(b, a) ==> a == b) {
      LexTotal(CharLe, a, b);
    }
    forall a, b, c | StrLe(a, b) && StrLe(b, c) ensures StrLe(a, c) {
      LexTransitive(CharLe, a, b, c);
    }
  }

  lemma PathTotalOrder()
    ensures TotalOrder(PathLe)
  {
    StrTotalOrder();
    forall a, b ensures (PathLe(a, b) || PathLe(b, a)) && (PathLe(a, b) && PathLe(b, a) ==> a == b) {
      LexTotal(StrLe, a, b);
    }
    forall a, b, c | PathLe(a, b) && PathLe(b, c) ensures PathLe(a, c) {
      LexTransitive(StrLe, a, b, c);
    }
  }

  lemma BytesTotalOrder()
    ensures TotalOrder(BytesLe)
  {
    forall a, b ensures (BytesLe(a, b) || BytesLe(b, a)) && (BytesLe(a, b) && BytesLe(b, a) ==> a == b) {
      LexTotal(NatLe, a, b);
    }
    forall a, b, c | BytesLe(a, b) && BytesLe(b, c) ensures BytesLe(a, c) {
      LexTransitive(NatLe, a, b, c);
    }
  }

  // Dictionary order: at the first difference the lesser element decides, and a proper
  // prefix comes first.
  ghost predicate Dictionary<T>(lt: (T, T) -> bool, a: seq<T>, b: seq<T>) {
    exists k :: 0 <= k <= |a| && k <= |b| && DecidedAt(lt, a, b, k)
  }

  ghost predicate DecidedAt<T>(lt: (T, T) -> bool, a: seq<T>, b: seq<T>, k: nat)
    requires k <= |a| && k <= |b|
  {
    a[..k] == b[..k] && (k == |a| || (k < |b| && lt(a[k], b[k])))
  }

  lemma {:induction false} LexIsDictionary<T(!new)>(le: (T, T) -> bool, lt: (T, T) -> bool, a: seq<T>, b: seq<T>)
    requires forall x, y :: lt(x, y) <==> le(x, y) && x != y
    ensures LexLe(le, a, b) <==> Dictionary(lt, a, b)
  {
    if a == [] {
      assert DecidedAt(lt, a, b, 0);
    } else if b != [] {
      var t, u := a[1..], b[1..];
      if a[0] == b[0] {
        LexIsDictionary(le, lt, t, u);
        if k :| 0 <= k <= |t| && k <= |u| && DecidedAt(lt, t, u, k) {
          assert a[..k + 1] == [a[0]] + t[..k] && b[..k + 1] == [b[0]] + u[..k];
          assert DecidedAt(lt, a, b, k + 1);
        }
        if k :| 0 <= k <= |a| && k <= |b| && DecidedAt(lt, a, b, k) {
          assert k > 0;
          assert t[..k - 1] == a[..k][1..] && u[..k - 1] == b[..k][1..];
          assert DecidedAt(lt, t, u, k - 1);
        }
      } else {
        assert DecidedAt(lt, a, b, 0) <==> lt(a[0], b[0]);
        forall k | 0 < k <= |a| && k <= |b| ensures !DecidedAt(lt, a, b, k) {
          assert a[..k][0] != b[..k][0];
        }
      }
    }
  }

  /** Strings and byte strings compare in dictionary order. */
  lemma {:induction false} StrOrder(a: string, b: string)
    ensures StrLe(a, b) <==> Dictionary((x: char, y: char) => x < y, a, b)
  {
    LexIsDictionary(CharLe, (x: char, y: char) => x < y, a, b);
  }

  lemma {:induction false} BytesOrder(a: seq<nat>, b: seq<nat>)
    ensures BytesLe(a, b) <==> Dictionary((x: nat, y: nat) => x < y, a, b)
  {
    LexIsDictionary(NatLe, (x: nat, y: nat) => x < y, a, b);
  }

  // Dictionary order, one element at a time.
  lemma {:induction false} BytesStep(a: seq<nat>, b: seq<nat>)
    ensures a == [] ==> BytesLe(a, b)
    ensures a != [] && b == [] ==> !BytesLe(a, b)
    ensures a != [] && b != [] ==> (BytesLe(a, b) <==> if a[0] == b[0] then BytesLe(a[1..], b[1..]) else a[0] < b[0])
  {
  }

  // Strictly before, in dictionary order.
  predicate StrBefore(a: string, b: string) { a != b && StrLe(a, b) }

  /** Paths compare in the dictionary order of their elements. */
  lemma {:induction false} PathOrder(a: seq<string>, b: seq<string>)
    ensures PathLe(a, b) <==> Dictionary(StrBefore, a, b)
  {
    LexIsDictionary(StrLe, StrBefore, a, b);
  }

  // ----- Filtering -----

  function Filter<T>(p: T -> bool, s: seq<T>): seq<T> {
    if s == [] then []
    else if p(s[0]) then [s[0]] + Filter(p, s[1..])
    else Filter(p, s[1..])
  }

  lemma {:induction false} FilterMembers<T(!new)>(p: T -> bool, s: seq<T>)
    ensures forall x :: x in Filter(p, s) <==> x in s && p(x)
  {
    if s != [] {
      FilterMembers(p, s[1..]);
      assert forall x :: x in s <==> x == s[0] || x in s[1..];
    }
  }

  lemma Associative<T>(a: seq<T>, b: seq<T>, c: seq<T>)
    ensures a + (b + c) == (a + b) + c
  {
  }

  lemma {:induction false} FilterCons<T(!new)>(p: T -> bool, x: T, s: seq<T>)
    ensures Filter(p, [x] + s) == if p(x) then [x] + Filter(p, s) else Filter(p, s)
  {
    assert ([x] + s)[1..] == s;
  }

  lemma {:induction false} FilterConcat<T(!new)>(p: T -> bool, s: seq<T>, t: seq<T>)
    ensures Filter(p, s + t) == Filter(p, s) + Filter(p, t)
  {
    if s == [] {
      assert s + t == t;
    } else {
      FilterConcat(p, s[1..], t);
      assert s + t == [s[0]] + (s[1..] + t);
      FilterCons(p, s[0], s[1..] + t);
      Associative([s[0]], Filter(p, s[1..]), Filter(p, t));
    }
  }

  // ----- The stable sort -----

  function InsertStable<T>(le: (T, T) -> bool, x: T, s: seq<T>): (r: seq<T>)
    ensures multiset(r) == multiset{x} + multiset(s)
    ensures |r| == |s| + 1
  {
    if s == [] || le(x, s[0]) then [x] + s
    else
      assert s == [s[0]] + s[1..];
      [s[0]] + InsertStable(le, x, s[1..])
  }

  // What Rust's stable `sort_by` returns for the comparator `le`.
  function Sort<T>(le: (T, T) -> bool, s: seq<T>): (r: seq<T>)
    ensures multiset(r) == multiset(s)
    ensures |r| == |s|
  {
    if s == [] then []
    else
      assert s == [s[0]] + s[1..];
      InsertStable(le, s[0], Sort(le, s[1..]))
  }

  lemma SameMembers<T(!new)>(s: seq<T>, t: seq<T>)
    requires multiset(s) == multiset(t)
    ensures forall x :: x in s <==> x in t
  {
    forall x ensures x in s <==> x in t {
      assert x in s <==> x in multiset(s);
      assert x in t <==> x in multiset(t);
    }
  }

  lemma {:induction false} InsertSorted<T(!new)>(le: (T, T) -> bool, x: T, s: seq<T>)
    requires TotalPreorder(le) && Sorted(le, s)
    ensures Sorted(le, InsertStable(le, x, s))
  {
    if s != [] && !le(x, s[0]) {
      var t := InsertStable(le, x, s[1..]);
      InsertSorted(le, x, s[1..]);
      forall j | 0 <= j < |t| ensures le(s[0], t[j]) {
        assert t[j] in multiset(t);
        assert t[j] == x || t[j] in s[1..];
      }
    }
  }

  lemma {:induction false} SortSorts<T(!new)>(le: (T, T) -> bool, s: seq<T>)
    requires TotalPreorder(le)
    ensures Sorted(le, Sort(le, s))
    ensures forall x :: x in Sort(le, s) <==> x in s
  {
    SameMembers(s, Sort(le, s));
    if s != [] {
      SortSorts(le, s[1..]);
      InsertSorted(le, s[0], Sort(le, s[1..]));
    }
  }

  // ----- Stability: sorting commutes with filtering -----

  // An element below the head of a sorted sequence is below every element of it.
  lemma HeadIsLeast<T(!new)>(le: (T, T) -> bool, x: T, s: seq<T>, y: T)
    requires TotalPreorder(le) && Sorted(le, s) && y in s && le(x, s[0])
    ensures le(x, y)
  {
    var i :| 0 <= i < |s| && s[i] == y;
    if i > 0 { assert le(s[0], s[i]); }
  }

  lemma {:induction false} FilterInsert<T(!new)>(le: (T, T) -> bool, p: T -> bool, x: T, s: seq<T>)
    requires TotalPreorder(le) && Sorted(le, s)
    ensures Filter(p, InsertStable(le, x, s)) ==
            if p(x) then InsertStable(le, x, Filter(p, s)) else Filter(p, s)
  {
    if s != [] && le(x, s[0]) {
      var f := Filter(p, s);
      FilterCons(p, x, s);
      FilterMembers(p, s);
      if f != [] { assert f[0] in f; HeadIsLeast(le, x, s, f[0]); }
    } else if s != [] {
      var t := InsertStable(le, x, s[1..]);
      FilterInsert(le, p, x, s[1..]);
      FilterCons(p, s[0], t);
      if p(s[0]) && p(x) {
        assert ([s[0]] + Filter(p, s[1..]))[1..] == Filter(p, s[1..]);
      }
    }
  }

  lemma {:induction false} FilterSort<T(!new)>(le: (T, T) -> bool, p: T -> bool, s: seq<T>)
    requires TotalPreorder(le)
    ensures Filter(p, Sort(le, s)) == Sort(le, Filter(p, s))
  {
    if s != [] {
      SortSorts(le, s[1..]);
      FilterSort(le, p, s[1..]);
      FilterInsert(le, p, s[0], Sort(le, s[1..]));
      if p(s[0]) {
        assert ([s[0]] + Filter(p, s[1..]))[1..] == Filter(p, s[1..]);
      }
    }
  }

  // ----- Canonicity -----

  predicate SameKey<T>(le: (T, T) -> bool, a: T, b: T) { le(a, b) && le(b, a) }

  // The elements of `s` that compare equal to `k`, in their order in `s`.
  function Class<T>(le: (T, T) -> bool, k: T, s: seq<T>): seq<T> {
    Filter(x => SameKey(le, k, x), s)
  }

  lemma ClassMembers<T(!new)>(le: (T, T) -> bool, k: T, s: seq<T>)
    ensures forall x :: x in Class(le, k, s) <==> x in s && SameKey(le, k, x)
  {
    FilterMembers(x => SameKey(le, k, x), s);
  }

  ghost predicate SameClasses<T(!new)>(le: (T, T) -> bool, s: seq<T>, t: seq<T>) {
    forall k :: Class(le, k, s) == Class(le, k, t)
  }

  // An element of one sequence has a counterpart in any sequence with the same classes.
  lemma ClassesShareMembers<T(!new)>(le: (T, T) -> bool, u: seq<T>, v: seq<T>, x: T)
    requires TotalPreorder(le) && SameClasses(le, u, v) && x in u
    ensures x in v
  {
    ClassMembers(le, x, u);
    ClassMembers(le, x, v);
    assert x in Class(le, x, u) && Class(le, x, u) == Class(le, x, v);
  }

  lemma ClassHead<T(!new)>(le: (T, T) -> bool, k: T, s: seq<T>)
    requires s != []
    ensures SameKey(le, k, s[0]) ==> Class(le, k, s) == [s[0]] + Class(le, k, s[1..])
    ensures !SameKey(le, k, s[0]) ==> Class(le, k, s) == Class(le, k, s[1..])
  {
  }

  lemma ClassesOfTails<T(!new)>(le: (T, T) -> bool, u: seq<T>, v: seq<T>)
    requires SameClasses(le, u, v) && u != [] && v != [] && u[0] == v[0]
    ensures SameClasses(le, u[1..], v[1..])
  {
    forall k ensures Class(le, k, u[1..]) == Class(le, k, v[1..]) {
      ClassHead(le, k, u);
      ClassHead(le, k, v);
      var a, b := Class(le, k, u), Class(le, k, v);
      assert a == b;
      if SameKey(le, k, u[0]) {
        assert Class(le, k, u[1..]) == a[1..];
        assert Class(le, k, v[1..]) == b[1..];
      }
    }
  }

  lemma {:induction false} SortedSameClasses<T(!new)>(le: (T, T) -> bool, u: seq<T>, v: seq<T>)
    requires TotalPreorder(le) && Sorted(le, u) && Sorted(le, v) && SameClasses(le, u, v)
    ensures u == v
  {
    if u != [] { ClassesShareMembers(le, u, v, u[0]); }
    if v != [] { ClassesShareMembers(le, v, u, v[0]); }
    if u != [] && v != [] {
      assert le(u[0], u[0]) && le(v[0], v[0]);
      HeadIsLeast(le, u[0], u, v[0]);
      HeadIsLeast(le, v[0], v, u[0]);
      ClassHead(le, u[0], u);
      ClassHead(le, u[0], v);
      var a, b := Class(le, u[0], u), Class(le, u[0], v);
      assert a == b && a[0] == u[0] && b[0] == v[0];
      ClassesOfTails(le, u, v);
      SortedSameClasses(le, u[1..], v[1..]);
    }
  }

  /** A stable sort depends only on the subsequence of each key: reordering the
      input without reordering equal keys does not change the output. */
  lemma {:induction false} SortCanonical<T(!new)>(le: (T, T) -> bool, s: seq<T>, t: seq<T>)
    requires TotalPreorder(le) && SameClasses(le, s, t)
    ensures Sort(le, s) == Sort(le, t)
  {
    SortSorts(le, s);
    SortSorts(le, t);
    forall k ensures Class(le, k, Sort(le, s)) == Class(le, k, Sort(le, t)) {
      FilterSort(le, x => SameKey(le, k, x), s);
      FilterSort(le, x => SameKey(le, k, x), t);
      assert Class(le, k, s) == Class(le, k, t);
    }
    SortedSameClasses(le, Sort(le, s), Sort(le, t));
  }

  // On the elements at hand, equal keys mean equal elements.
  ghost predicate KeysDistinguish<T>(le: (T, T) -> bool, s: seq<T>) {
    forall a, b :: a in s && b in s && le(a, b) && le(b, a) ==> a == b
  }

  lemma HeadsEqual<T(!new)>(le: (T, T) -> bool, u: seq<T>, v: seq<T>)
    requires TotalPreorder(le) && Sorted(le, u) && Sorted(le, v) && u != [] && v != []
    requires u[0] in v && v[0] in u && KeysDistinguish(le, u)
    ensures u[0] == v[0]
  {
    assert le(u[0], u[0]) && le(v[0], v[0]);
    HeadIsLeast(le, u[0], u, v[0]);
    HeadIsLeast(le, v[0], v, u[0]);
  }

  lemma {:induction false} SortedPermutationsEqual<T(!new)>(le: (T, T) -> bool, u: seq<T>, v: seq<T>)
    requires TotalPreorder(le) && Sorted(le, u) && Sorted(le, v)
    requires multiset(u) == multiset(v) && KeysDistinguish(le, u)
    ensures u == v
  {
    assert |u| == |multiset(u)| == |multiset(v)| == |v|;
    if u != [] {
      SameMembers(u, v);
      assert u[0] in u && v[0] in v;
      HeadsEqual(le, u, v);
      DropHead(u);
      DropHead(v);
      SortedPermutationsEqual(le, u[1..], v[1..]);
    }
  }

  lemma DropHead<T>(s: seq<T>)
    requires s != []
    ensures multiset(s[1..]) == multiset(s) - multiset{s[0]}
    ensures s == [s[0]] + s[1..]
  {
    assert s == [s[0]] + s[1..];
  }

  /** When equal keys mean equal elements, sorting forgets the input order. */
  lemma {:induction false} SortForgetsOrder<T(!new)>(le: (T, T) -> bool, s: seq<T>, t: seq<T>)
    requires TotalPreorder(le) && KeysDistinguish(le, s)
    requires multiset(s) == multiset(t)
    ensures Sort(le, s) == Sort(le, t)
  {
    SortSorts(le, s);
    SortSorts(le, t);
    SortedPermutationsEqual(le, Sort(le, s), Sort(le, t));
  }

  // A sequence that is already sorted is its own sort.
  lemma {:induction false} SortFixed<T(!new)>(le: (T, T) -> bool, s: seq<T>)
    requires Sorted(le, s)
    ensures Sort(le, s) == s
  {
    if |s| > 1 {
      SortFixed(le, s[1..]);
      assert le(s[0], s[1]);
    }
  }

  /** Two strictly sorted sequences with the same members are the same sequence. */
  lemma {:induction false} StrictlySortedUnique<T(!new)>(le: (T, T) -> bool, u: seq<T>, v: seq<T>)
    requires TotalOrder(le) && StrictlySorted(le, u) && StrictlySorted(le, v)
    requires forall x :: x in u <==> x in v
    ensures u == v
  {
    assert (u != [] ==> u[0] in v) && (v != [] ==> v[0] in u);
    if u != [] && v != [] {
      assert u[0] in v && v[0] in u;
      assert u[0] == v[0];
      forall x ensures x in u[1..] <==> x in v[1..] {
        assert x in u <==> x == u[0] || x in u[1..];
        assert x in v <==> x == v[0] || x in v[1..];
      }
      StrictlySortedUnique(le, u[1..], v[1..]);
    }
  }

  // ----- Sets in order -----

  // The elements of a set in ascending order, as `BTreeSet` and `BTreeMap` iterate.
  ghost function Ascending<T(!new)>(le: (T, T) -> bool, s: set<T>): (r: seq<T>)
    ensures forall x :: x in r <==> x in s
  {
    if s == {} then []
    else
      var x :| x in s;
      var t := Ascending(le, s - {x});
      SameMembers(InsertStable(le, x, t), [x] + t);
      InsertStable(le, x, t)
  }

  lemma {:induction false} AscendingElements<T(!new)>(le: (T, T) -> bool, s: set<T>)
    requires TotalOrder(le)
    ensures StrictlySorted(le, Ascending(le, s))
    ensures |Ascending(le, s)| == |s|
  {
    if s != {} {
      var x :| x in s && Ascending(le, s) == InsertStable(le, x, Ascending(le, s - {x}));
      var t := Ascending(le, s - {x});
      AscendingElements(le, s - {x});
      InsertSorted(le, x, t);
      var r := InsertStable(le, x, t);
      SameMembers(r, [x] + t);
      DistinctFromCounts(r, x, t);
    }
  }

  // Inserting a new element keeps a repetition-free sequence repetition-free.
  lemma DistinctFromCounts<T(!new)>(r: seq<T>, x: T, t: seq<T>)
    requires multiset(r) == multiset{x} + multiset(t) && x !in t
    requires forall i, j :: 0 <= i < j < |t| ==> t[i] != t[j]
    ensures forall i, j :: 0 <= i < j < |r| ==> r[i] != r[j]
  {
    forall i, j | 0 <= i < j < |r| ensures r[i] != r[j] {
      if r[i] == r[j] {
        assert x !in multiset(t);
        CountAtMostOne(t, r[i]);
        CountAtLeastTwo(r, i, j);
      }
    }
  }

  lemma CountAtLeastTwo<T(!new)>(s: seq<T>, i: nat, j: nat)
    requires i < j < |s| && s[i] == s[j]
    ensures multiset(s)[s[i]] >= 2
  {
    assert s == s[..i] + [s[i]] + s[i + 1..j] + [s[j]] + s[j + 1..];
  }

  lemma TwoPositions<T(!new)>(s: seq<T>, x: T)
    requires multiset(s)[x] >= 2
    ensures exists i, j :: 0 <= i < j < |s| && s[i] == x && s[j] == x
  {
    assert x in multiset(s);
    var i :| 0 <= i < |s| && s[i] == x;
    var front, back := s[..i], s[i + 1..];
    assert s == front + [x] + back;
    assert x in multiset(front) + multiset(back);
    if x in multiset(front) {
      var j :| 0 <= j < |front| && front[j] == x;
      assert s[j] == x;
    } else {
      var j :| 0 <= j < |back| && back[j] == x;
      assert s[i + 1 + j] == x;
    }
  }

  lemma {:induction false} CountAtMostOne<T(!new)>(s: seq<T>, x: T)
    requires forall i, j :: 0 <= i < j < |s| ==> s[i] != s[j]
    ensures multiset(s)[x] <= 1
  {
    if s != [] {
      assert s == [s[0]] + s[1..];
      CountAtMostOne(s[1..], x);
      if s[0] == x { assert x !in s[1..]; }
    }
  }

  // A repetition-free sequence sorts into a strictly ascending one.
  lemma {:induction false} SortDistinct<T(!new)>(le: (T, T) -> bool, s: seq<T>)
    requires TotalOrder(le)
    requires forall i, j :: 0 <= i < j < |s| ==> s[i] != s[j]
    ensures StrictlySorted(le, Sort(le, s))
    ensures forall x :: x in Sort(le, s) <==> x in s
  {
    SortSorts(le, s);
    var t := Sort(le, s);
    forall i, j | 0 <= i < j < |t| ensures t[i] != t[j] {
      if t[i] == t[j] {
        CountAtLeastTwo(t, i, j);
        CountAtMostOne(s, t[i]);
      }
    }
  }

  // Listing a set in any order and sorting the list puts the set in order.
  method SortedElements<T(!new, ==)>(le: (T, T) -> bool, s: set<T>) returns (r: seq<T>)
    requires TotalOrder(le)
    ensures r == Ascending(le, s)
  {
    r := [];
    var rest := s;
    while rest != {}
      invariant rest <= s
      invariant forall x :: x in r <==> x in s - rest
      invariant forall i, j :: 0 <= i < j < |r| ==> r[i] != r[j]
    {
      var x :| x in rest;
      assert x !in r;
      r, rest := r + [x], rest - {x};
    }
    SortDistinct(le, r);
    AscendingElements(le, s);
    StrictlySortedUnique(le, Sort(le, r), Ascending(le, s));
    r := Sort(le, r);
  }

  // ----- Ordering by a key -----

  // Strictly ascending by key.
  ghost predicate KeySorted<T, K>(le: (K, K) -> bool, key: T -> K, s: seq<T>) {
    forall i, j :: 0 <= i < j < |s| ==> le(key(s[i]), key(s[j])) && key(s[i]) != key(s[j])
  }

  ghost predicate KeysDistinct<T, K>(key: T -> K, s: seq<T>) {
    forall i, j :: 0 <= i < j < |s| ==> key(s[i]) != key(s[j])
  }

  lemma {:induction false} FilterDistinct<T(!new), K(!new)>(p: T -> bool, key: T -> K, s: seq<T>)
    requires KeysDistinct(key, s)
    ensures KeysDistinct(key, Filter(p, s))
  {
    if s != [] {
      FilterDistinct(p, key, s[1..]);
      FilterMembers(p, s[1..]);
      var rest := Filter(p, s[1..]);
      forall j | 0 <= j < |rest| ensures key(s[0]) != key(rest[j]) {
        assert rest[j] in s[1..];
        var k :| 0 <= k < |s[1..]| && s[1..][k] == rest[j];
        assert s[k + 1] == rest[j];
      }
    }
  }

  function ByKey<T, K>(le: (K, K) -> bool, key: T -> K): (T, T) -> bool { (a, b) => le(key(a), key(b)) }

  lemma ByKeyPreorder<T(!new), K(!new)>(le: (K, K) -> bool, key: T -> K)
    requires TotalPreorder(le)
    ensures TotalPreorder(ByKey(le, key))
  {
  }

  lemma KeysDistinctPermute<T(!new), K(!new)>(key: T -> K, s: seq<T>, t: seq<T>)
    requires multiset(s) == multiset(t) && KeysDistinct(key, s)
    ensures KeysDistinct(key, t)
  {
    SameMembers(s, t);
    forall i, j | 0 <= i < j < |t| ensures key(t[i]) != key(t[j]) {
      if key(t[i]) == key(t[j]) {
        assert t[i] in s && t[j] in s;
        assert t[i] == t[j];
        CountAtLeastTwo(t, i, j);
        CountAtMostOne(s, t[i]);
      }
    }
  }

  // Sorting by distinct keys gives a strictly ascending sequence of the same elements.
  lemma {:induction false} KeyedSort<T(!new), K(!new)>(le: (K, K) -> bool, key: T -> K, s: seq<T>)
    requires TotalOrder(le) && KeysDistinct(key, s)
    ensures KeySorted(le, key, Sort(ByKey(le, key), s))
    ensures forall x :: x in Sort(ByKey(le, key), s) <==> x in s
  {
    ByKeyPreorder(le, key);
    SortSorts(ByKey(le, key), s);
    KeysDistinctPermute(key, s, Sort(ByKey(le, key), s));
  }

  // Members of a strictly ascending sequence are fixed by their keys.
  lemma KeySortedInjective<T, K(!new)>(le: (K, K) -> bool, key: T -> K, s: seq<T>, x: T, y: T)
    requires KeySorted(le, key, s) && x in s && y in s && key(x) == key(y)
    ensures x == y
  {
    var i :| 0 <= i < |s| && s[i] == x;
    var j :| 0 <= j < |s| && s[j] == y;
  }

  /** Two sequences strictly ascending by the same key, with the same members, are equal. */
  lemma {:induction false} KeySortedUnique<T(!new), K(!new)>(le: (K, K) -> bool, key: T -> K, u: seq<T>, v: seq<T>)
    requires TotalOrder(le) && KeySorted(le, key, u) && KeySorted(le, key, v)
    requires forall x :: x in u <==> x in v
    ensures u == v
  {
    assert (u != [] ==> u[0] in v) && (v != [] ==> v[0] in u);
    if u != [] && v != [] {
      assert u[0] in v && v[0] in u;
      assert key(u[0]) == key(v[0]);
      KeySortedInjective(le, key, u, u[0], v[0]);
      forall x ensures x in u[1..] <==> x in v[1..] {
        assert x in u <==> x == u[0] || x in u[1..];
        assert x in v <==> x == v[0] || x in v[1..];
      }
      KeySortedUnique(le, key, u[1..], v[1..]);
    }
  }

  // Values listed along the ascending keys of their map.
  ghost predicate Listed<K, V>(m: map<K, V>, keys: seq<K>, values: seq<V>) {
    |values| == |keys| && forall i :: 0 <= i < |keys| ==> keys[i] in m && values[i] == m[keys[i]]
  }

  lemma ListedMembers<K(!new), V(!new)>(key: V -> K, m: map<K, V>, keys: seq<K>, values: seq<V>)
    requires Listed(m, keys, values)
    requires forall k :: k in keys <==> k in m
    requires forall k :: k in m ==> key(m[k]) == k
    ensures forall v :: v in values <==> key(v) in m && m[key(v)] == v
  {
    forall v | key(v) in m && m[key(v)] == v ensures v in values {
      assert key(v) in keys;
      var i :| 0 <= i < |keys| && keys[i] == key(v);
      assert values[i] == v;
    }
    forall v | v in values ensures key(v) in m && m[key(v)] == v {
      var i :| 0 <= i < |values| && values[i] == v;
    }
  }

  lemma ListedOrder<K(!new), V>(le: (K, K) -> bool, key: V -> K, m: map<K, V>, keys: seq<K>, values: seq<V>)
    requires Listed(m, keys, values) && StrictlySorted(le, keys)
    requires forall k :: k in m ==> key(m[k]) == k
    ensures KeySorted(le, key, values)
  {
  }

  method ListValues<K(==), V>(m: map<K, V>, keys: seq<K>) returns (values: seq<V>)
    requires forall k :: k in keys ==> k in m
    ensures Listed(m, keys, values)
  {
    values := [];
    for i := 0 to |keys|
      invariant |values| == i && forall j :: 0 <= j < i ==> values[j] == m[keys[j]]
    {
      values := values + [m[keys[i]]];
    }
  }

  // The values of a `BTreeMap` whose values carry their own key, in key order.
  method InKeyOrder<K(!new, ==), V(!new)>(le: (K, K) -> bool, ghost key: V -> K, m: map<K, V>) returns (values: seq<V>)
    requires TotalOrder(le)
    requires forall k :: k in m ==> key(m[k]) == k
    ensures KeySorted(le, key, values)
    ensures forall v :: v in values <==> key(v) in m && m[key(v)] == v
  {
    var keys := SortedElements(le, m.Keys);
    AscendingElements(le, m.Keys);
    values := ListValues(m, keys);
    ListedMembers(key, m, keys, values);
    ListedOrder(le, key, m, keys, values);
  }

  // ----- Mapping -----

  function Map<T, U>(f: T -> U, s: seq<T>): (r: seq<U>)
    ensures |r| == |s| && forall i :: 0 <= i < |s| ==> r[i] == f(s[i])
  {
    seq(|s|, i requires 0 <= i < |s| => f(s[i]))
  }

  lemma MapMembers<T(!new), U(!new)>(f: T -> U, s: seq<T>)
    ensures forall y :: y in Map(f, s) <==> exists x :: x in s && f(x) == y
  {
    var r := Map(f, s);
    forall y | y in r ensures exists x :: x in s && f(x) == y {
      var i :| 0 <= i < |r| && r[i] == y;
      assert s[i] in s;
    }
    forall x | x in s ensures f(x) in r {
      var i :| 0 <= i < |s| && s[i] == x;
      assert r[i] == f(x);
    }
  }
}
