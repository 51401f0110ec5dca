/**
 The composition schema table: every mounted module's schemas under one key each, the
 first declarer recorded as owner, and differing encodings of one key refused.
 */
module Composition {
  import opened Sorting
  import opened Evidence
  import opened HostModule
  import Schema

  datatype Entry = Entry(descriptor: Schema.Descriptor, owner: string)

  type Table = map<Key, Entry>

  datatype Collision = Collision(key: Key, first: string, firstEncoding: Hash, second: string, secondEncoding: Hash)

  function EntryKey(e: Entry): Key { KeyOf(e.descriptor) }

  // ----- What the table stands for -----

  ghost predicate Carries(m: Module, k: Key) { exists s :: s in m.schemas && KeyOf(s) == k }

  ghost function SchemaOf(m: Module, k: Key): (s: Schema.Descriptor)
    requires Carries(m, k)
    ensures s in m.schemas && KeyOf(s) == k
  {
    var s :| s in m.schemas && KeyOf(s) == k; s
  }

  // The entry of a key: the first module that declares it, and its declaration.
  ghost function EntryFor(ms: seq<Module>, k: Key): Option<Entry> {
    if ms == [] then None
    else
      var n := |ms| - 1;
      var prior := EntryFor(ms[..n], k);
      if prior.Some? then prior
      else if Carries(ms[n], k) then Some(Entry(SchemaOf(ms[n], k), ms[n].id))
      else None
  }

  // `ms[i]` is the first module of `ms` to declare `k`.
  ghost predicate FirstAt(ms: seq<Module>, k: Key, i: nat) {
    && i < |ms| && Carries(ms[i], k)
    && forall j :: 0 <= j < i ==> !Carries(ms[j], k)
  }

  lemma {:induction false} EntryIsFirst(ms: seq<Module>, k: Key) returns (i: nat)
    ensures EntryFor(ms, k).None? ==> forall j :: 0 <= j < |ms| ==> !Carries(ms[j], k)
    ensures EntryFor(ms, k).Some? ==> FirstAt(ms, k, i) && EntryFor(ms, k).value == Entry(SchemaOf(ms[i], k), ms[i].id)
  {
    i := 0;
    if ms != [] {
      var n := |ms| - 1;
      i := EntryIsFirst(ms[..n], k);
      if EntryFor(ms[..n], k).None? {
        forall j | 0 <= j < n ensures !Carries(ms[j], k) { assert !Carries(ms[..n][j], k); }
        i := n;
      } else {
        assert ms[..n][i] == ms[i];
        forall j | 0 <= j < i ensures !Carries(ms[j], k) { assert !Carries(ms[..n][j], k); }
      }
    }
  }

  ghost predicate Composed(t: Table, ms: seq<Module>) {
    forall k :: EntryFor(ms, k) == if k in t then Some(t[k]) else None
  }

  // Two modules give a key they both declare the same encoding.
  ghost predicate Agree(a: Module, b: Module) {
    forall s, u :: s in a.schemas && u in b.schemas && KeyOf(s) == KeyOf(u) ==> s.encoding == u.encoding
  }

  ghost predicate AllAgree(ms: seq<Module>) { forall a, b :: a in ms && b in ms ==> Agree(a, b) }

  // ----- Adding -----

  // No schema of `m` contradicts the table.
  ghost predicate Fits(t: Table, m: Module) {
    forall s :: s in m.schemas && KeyOf(s) in t ==> t[KeyOf(s)].descriptor.encoding == s.encoding
  }

  /** The table refuses a module iff it disagrees with some module already in it. */
  lemma FitsExact(t: Table, ms: seq<Module>, m: Module)
    requires Composed(t, ms) && AllAgree(ms)
    ensures Fits(t, m) <==> forall a :: a in ms ==> Agree(a, m)
  {
    if Fits(t, m) {
      forall a, s, u | a in ms && s in a.schemas && u in m.schemas && KeyOf(s) == KeyOf(u) ensures s.encoding == u.encoding {
        EntryEncoding(ms, a, s);
        assert EntryFor(ms, KeyOf(u)) == Some(t[KeyOf(u)]);
      }
    }
    if forall a :: a in ms ==> Agree(a, m) {
      forall s | s in m.schemas && KeyOf(s) in t ensures t[KeyOf(s)].descriptor.encoding == s.encoding {
        var k := KeyOf(s);
        assert EntryFor(ms, k) == Some(t[k]);
        var i := EntryIsFirst(ms, k);
        assert ms[i] in ms && Agree(ms[i], m);
      }
    }
  }

  // The entry of a key has the encoding every module that declares it gives.
  lemma {:induction false} EntryEncoding(ms: seq<Module>, a: Module, s: Schema.Descriptor)
    requires AllAgree(ms) && a in ms && s in a.schemas
    ensures EntryFor(ms, KeyOf(s)).Some? && ViewSchema(EntryFor(ms, KeyOf(s)).value.descriptor) == ViewSchema(s)
  {
    var k := KeyOf(s);
    var i := EntryIsFirst(ms, k);
    assert Carries(a, k);
    var j :| 0 <= j < |ms| && ms[j] == a;
    assert Carries(ms[j], k);
    assert ms[i] in ms && Agree(ms[i], a);
  }

  // `t` is `t0` with the first `i` schemas of `m` added.
  ghost predicate Extended(t0: Table, m: Module, i: nat, t: Table)
    requires i <= |m.schemas|
  {
    && (forall k :: k in t0 ==> k in t && t[k] == t0[k])
    && (forall j :: 0 <= j < i ==>
          var k := KeyOf(m.schemas[j]);
          k in t && (k !in t0 ==> t[k] == Entry(m.schemas[j], m.id)))
    && t.Keys == t0.Keys + SchemaKeys(m.schemas[..i])
  }

  function SchemaKeys(ss: seq<Schema.Descriptor>): set<Key> {
    if ss == [] then {} else SchemaKeys(ss[..|ss| - 1]) + {KeyOf(ss[|ss| - 1])}
  }

  lemma {:induction false} SchemaKeysMember(ss: seq<Schema.Descriptor>, k: Key)
    ensures k in SchemaKeys(ss) <==> exists s :: s in ss && KeyOf(s) == k
  {
    if ss != [] {
      SchemaKeysMember(ss[..|ss| - 1], k);
      assert forall s :: s in ss <==> s in ss[..|ss| - 1] || s == ss[|ss| - 1];
    }
  }

  lemma ExtendedComposes(t0: Table, ms: seq<Module>, m: Module, t: Table)
    requires Composed(t0, ms) && KeySorted(KeyLe, KeyOf, m.schemas)
    requires Extended(t0, m, |m.schemas|, t)
    ensures Composed(t, ms + [m])
  {
    forall k ensures EntryFor(ms + [m], k) == if k in t then Some(t[k]) else None {
      assert EntryFor(ms, k) == if k in t0 then Some(t0[k]) else None;
      assert (ms + [m])[..|ms|] == ms;
      ExtendedEntry(t0, m, t, k);
    }
  }

  lemma ExtendedEntry(t0: Table, m: Module, t: Table, k: Key)
    requires KeySorted(KeyLe, KeyOf, m.schemas) && Extended(t0, m, |m.schemas|, t)
    ensures k in t0 ==> k in t && t[k] == t0[k]
    ensures k !in t0 ==> (k in t <==> Carries(m, k))
    ensures k !in t0 && Carries(m, k) ==> t[k] == Entry(SchemaOf(m, k), m.id)
  {
    assert m.schemas[..|m.schemas|] == m.schemas;
    SchemaKeysMember(m.schemas, k);
    if k !in t0 && Carries(m, k) {
      var s := SchemaOf(m, k);
      var j :| 0 <= j < |m.schemas| && m.schemas[j] == s;
      assert KeyOf(m.schemas[j]) == k;
    }
  }

  lemma ExtendedStep(t0: Table, m: Module, i: nat, t: Table)
    requires KeySorted(KeyLe, KeyOf, m.schemas) && i < |m.schemas| && Extended(t0, m, i, t)
    ensures var k := KeyOf(m.schemas[i]);
            (k in t <==> k in t0) && Extended(t0, m, i + 1, if k in t then t else t[k := Entry(m.schemas[i], m.id)])
  {
    var k := KeyOf(m.schemas[i]);
    LaterKeyIsNew(m.schemas, i);
    assert m.schemas[..i + 1][..i] == m.schemas[..i];
    assert SchemaKeys(m.schemas[..i + 1]) == SchemaKeys(m.schemas[..i]) + {k};
  }

  lemma LaterKeyIsNew(ss: seq<Schema.Descriptor>, i: nat)
    requires KeySorted(KeyLe, KeyOf, ss) && i < |ss|
    ensures KeyOf(ss[i]) !in SchemaKeys(ss[..i]) && forall j :: 0 <= j < i ==> KeyOf(ss[j]) != KeyOf(ss[i])
  {
    SchemaKeysMember(ss[..i], KeyOf(ss[i]));
  }

  // The collision is between an entry of the table and a schema of `m`.
  ghost predicate Collides(t: Table, m: Module, c: Collision) {
    && c.key in t && c.first == t[c.key].owner && c.firstEncoding == t[c.key].descriptor.encoding
    && c.second == m.id && c.firstEncoding != c.secondEncoding
    && exists s :: s in m.schemas && KeyOf(s) == c.key && s.encoding == c.secondEncoding
  }

  class CompositionBuilder {
    var byKey: Table

    constructor ()
      ensures byKey == map[]
    {
      byKey := map[];
    }

    // The first declaration of a key wins; a later one must have its encoding.
    method Add(owner: string, s: Schema.Descriptor) returns (r: Result<(), Collision>)
      modifies this
      ensures r.Ok? <==> (KeyOf(s) in old(byKey) ==> old(byKey)[KeyOf(s)].descriptor.encoding == s.encoding)
      ensures byKey == if KeyOf(s) in old(byKey) then old(byKey) else old(byKey)[KeyOf(s) := Entry(s, owner)]
      ensures r.Err? ==>
                var e := old(byKey)[KeyOf(s)];
                r.error == Collision(KeyOf(s), e.owner, e.descriptor.encoding, owner, s.encoding)
    {
      var k := KeyOf(s);
      if k in byKey {
        var e := byKey[k];
        if e.descriptor.encoding != s.encoding {
          return Err(Collision(k, e.owner, e.descriptor.encoding, owner, s.encoding));
        }
        return Ok(());
      }
      byKey := byKey[k := Entry(s, owner)];
      r := Ok(());
    }

    // A module's schemas, in turn, until one collides.
    method AddModule(m: Module) returns (r: Result<(), Collision>)
      requires KeySorted(KeyLe, KeyOf, m.schemas)
      modifies this
      ensures r.Ok? <==> Fits(old(byKey), m)
      ensures r.Ok? ==> Extended(old(byKey), m, |m.schemas|, byKey)
      ensures r.Err? ==> Collides(old(byKey), m, r.error)
    {
      for i := 0 to |m.schemas|
        invariant Extended(old(byKey), m, i, byKey)
        invariant forall j :: 0 <= j < i && KeyOf(m.schemas[j]) in old(byKey) ==>
                    old(byKey)[KeyOf(m.schemas[j])].descriptor.encoding == m.schemas[j].encoding
      {
        var s := m.schemas[i];
        ExtendedStep(old(byKey), m, i, byKey);
        var added := Add(m.id, s);
        if added.Err? {
          assert s in m.schemas;
          return Err(added.error);
        }
      }
      r := Ok(());
    }

    // The entries in key order.
    method Seal(ghost ms: seq<Module>) returns (entries: seq<Entry>)
      requires Composed(byKey, ms)
      ensures IsComposition(ms, entries)
    {
      KeyTotalOrder();
      forall k | k in byKey ensures EntryKey(byKey[k]) == k {
        assert EntryFor(ms, k) == Some(byKey[k]);
        var i := EntryIsFirst(ms, k);
      }
      entries := InKeyOrder(KeyLe, EntryKey, byKey);
      forall e ensures e in entries <==> EntryFor(ms, EntryKey(e)) == Some(e) {
        assert EntryFor(ms, EntryKey(e)) == if EntryKey(e) in byKey then Some(byKey[EntryKey(e)]) else None;
      }
    }
  }

  // ----- The sealed composition -----

  // The entries of `ms` in key order, one per declared key.
  ghost predicate IsComposition(ms: seq<Module>, entries: seq<Entry>) {
    && KeySorted(KeyLe, EntryKey, entries)
    && forall e :: e in entries <==> EntryFor(ms, EntryKey(e)) == Some(e)
  }

  // The identity part `(id, version, role, encoding)` of an entry, and the whole
  // hashed view, which also names the owner.
  function IdentityOf(e: Entry): SchemaView { ViewSchema(e.descriptor) }

  function HashedView(e: Entry): (SchemaView, string) { (ViewSchema(e.descriptor), e.owner) }

  function ViewKey(v: SchemaView): Key { Key(v.id, v.version, v.role) }

  ghost predicate DeclaredView(ms: seq<Module>, v: SchemaView) {
    exists m, s :: m in ms && s in m.schemas && Shows(v, s)
  }

  // The view shows the schema's id, version, role and encoding.
  ghost predicate Shows(v: SchemaView, s: Schema.Descriptor) {
    v.id == s.id && v.version == s.version && v.role == s.role && v.encoding == s.encoding
  }

  // The identity part lists exactly the declared schemas, in key order.
  lemma IdentityViews(ms: seq<Module>, es: seq<Entry>)
    requires IsComposition(ms, es) && AllAgree(ms)
    ensures KeySorted(KeyLe, ViewKey, Map(IdentityOf, es))
    ensures forall v :: v in Map(IdentityOf, es) <==> DeclaredView(ms, v)
  {
    MapMembers(IdentityOf, es);
    forall i, j | 0 <= i < j < |es| ensures
      var vs := Map(IdentityOf, es);
      KeyLe(ViewKey(vs[i]), ViewKey(vs[j])) && ViewKey(vs[i]) != ViewKey(vs[j])
    {
      assert KeyLe(EntryKey(es[i]), EntryKey(es[j])) && EntryKey(es[i]) != EntryKey(es[j]);
    }
    forall v | v in Map(IdentityOf, es) ensures DeclaredView(ms, v) {
      var e :| e in es && IdentityOf(e) == v;
      var i := EntryIsFirst(ms, EntryKey(e));
      assert ms[i] in ms && e.descriptor in ms[i].schemas && Shows(v, e.descriptor);
    }
    forall v | DeclaredView(ms, v) ensures v in Map(IdentityOf, es) {
      var m, s :| m in ms && s in m.schemas && Shows(v, s);
      EntryEncoding(ms, m, s);
      var e := EntryFor(ms, KeyOf(s)).value;
      var i := EntryIsFirst(ms, KeyOf(s));
      assert e in es;
      assert Shows(IdentityOf(e), e.descriptor);
      assert IdentityOf(e) == v;
    }
  }

  /** Entries ascend by id, version and role. */
  lemma EntriesInOrder(ms: seq<Module>, es: seq<Entry>, i: nat, j: nat)
    requires IsComposition(ms, es) && i < j < |es|
    ensures KeyBefore(KeyOf(es[i].descriptor), KeyOf(es[j].descriptor))
  {
    KeyOrder(EntryKey(es[i]), EntryKey(es[j]));
  }

  // The first module to declare a key, and its declaration, as they are hashed.
  ghost predicate FirstDeclares(ms: seq<Module>, v: SchemaView, owner: string) {
    exists i: nat, s :: FirstAt(ms, Key(v.id, v.version, v.role), i) && s in ms[i].schemas && Shows(v, s) && owner == ms[i].id
  }

  /** What is hashed is, for each declared key, the declaration of its first declarer and
      that module's id. */
  lemma HashedViews(ms: seq<Module>, es: seq<Entry>)
    requires IsComposition(ms, es) && AllAgree(ms)
    ensures forall v, owner :: (v, owner) in Map(HashedView, es) <==> FirstDeclares(ms, v, owner)
  {
    MapMembers(HashedView, es);
    forall v, owner ensures (v, owner) in Map(HashedView, es) <==> FirstDeclares(ms, v, owner) {
      if e :| e in es && HashedView(e) == (v, owner) { HashedIsFirst(ms, es, e); }
      if FirstDeclares(ms, v, owner) { FirstIsHashed(ms, es, v, owner); }
    }
  }

  lemma HashedIsFirst(ms: seq<Module>, es: seq<Entry>, e: Entry)
    requires IsComposition(ms, es) && e in es
    ensures FirstDeclares(ms, HashedView(e).0, HashedView(e).1)
  {
    var k := EntryKey(e);
    var i := EntryIsFirst(ms, k);
    assert FirstAt(ms, k, i) && e.descriptor in ms[i].schemas && Shows(HashedView(e).0, e.descriptor);
  }

  lemma FirstIsHashed(ms: seq<Module>, es: seq<Entry>, v: SchemaView, owner: string)
    requires IsComposition(ms, es) && AllAgree(ms) && FirstDeclares(ms, v, owner)
    ensures exists e :: e in es && HashedView(e) == (v, owner)
  {
    var k := Key(v.id, v.version, v.role);
    var i: nat, s :| FirstAt(ms, k, i) && s in ms[i].schemas && Shows(v, s) && owner == ms[i].id;
    var p := EntryIsFirst(ms, k);
    FirstIsUnique(ms, k, i, p);
    assert KeyOf(s) == k && ms[i] in ms;
    EntryEncoding(ms, ms[i], s);
    var e := EntryFor(ms, k).value;
    assert EntryKey(e) == k && e in es && HashedView(e) == (v, owner);
  }

  lemma {:induction false} FirstIsUnique(ms: seq<Module>, k: Key, i: nat, p: nat)
    requires FirstAt(ms, k, i) && (EntryFor(ms, k).Some? ==> FirstAt(ms, k, p))
    requires EntryFor(ms, k).None? ==> forall j :: 0 <= j < |ms| ==> !Carries(ms[j], k)
    ensures EntryFor(ms, k).Some? && i == p
  {
  }

  /** The identity part of the composition is the same for every mount order. */
  lemma IdentityForgetsOrder(ms: seq<Module>, ns: seq<Module>, es: seq<Entry>, fs: seq<Entry>)
    requires multiset(ms) == multiset(ns) && AllAgree(ms)
    requires IsComposition(ms, es) && IsComposition(ns, fs)
    ensures Map(IdentityOf, es) == Map(IdentityOf, fs)
  {
    SameMembers(ms, ns);
    KeyTotalOrder();
    IdentityViews(ms, es);
    IdentityViews(ns, fs);
    forall v ensures v in Map(IdentityOf, es) <==> v in Map(IdentityOf, fs) {
      assert DeclaredView(ms, v) <==> DeclaredView(ns, v);
    }
    KeySortedUnique(KeyLe, ViewKey, Map(IdentityOf, es), Map(IdentityOf, fs));
  }

  // ----- Ownership -----

  function ModuleId(m: Module): string { m.id }

  // No schema key is declared by two modules.
  ghost predicate Unshared(ms: seq<Module>) {
    forall i, j, k :: 0 <= i < j < |ms| ==> !(Carries(ms[i], k) && Carries(ms[j], k))
  }

  // Mounting in another order changes nothing that is hashed.
  ghost predicate OrderBlind(ms: seq<Module>) {
    forall ns, es, fs :: multiset(ns) == multiset(ms) && IsComposition(ms, es) && IsComposition(ns, fs) ==>
      Map(HashedView, es) == Map(HashedView, fs)
  }

  // The keys `ms` declares.
  ghost function KeySet(ms: seq<Module>): set<Key> { set m, s | m in ms && s in m.schemas :: KeyOf(s) }

  lemma {:induction false} KeySetExact(ms: seq<Module>, k: Key)
    ensures k in KeySet(ms) <==> EntryFor(ms, k).Some?
    ensures EntryFor(ms, k).Some? ==> EntryKey(EntryFor(ms, k).value) == k
  {
    var i := EntryIsFirst(ms, k);
    if k in KeySet(ms) {
      var m, s :| m in ms && s in m.schemas && KeyOf(s) == k;
      assert Carries(m, k);
      var j :| 0 <= j < |ms| && ms[j] == m;
      assert Carries(ms[j], k);
    }
    if EntryFor(ms, k).Some? { assert ms[i] in ms && SchemaOf(ms[i], k) in ms[i].schemas; }
  }

  // Some composition exists for any modules.
  lemma CompositionExists(ms: seq<Module>) returns (es: seq<Entry>)
    ensures IsComposition(ms, es)
  {
    KeyTotalOrder();
    AscendingElements(KeyLe, KeySet(ms));
    var ks := Ascending(KeyLe, KeySet(ms));
    forall k ensures (k in ks <==> EntryFor(ms, k).Some?) && (k in ks ==> EntryKey(EntryFor(ms, k).value) == k) {
      KeySetExact(ms, k);
    }
    es := EntriesAlong(ms, ks);
  }

  lemma EntriesAlong(ms: seq<Module>, ks: seq<Key>) returns (es: seq<Entry>)
    requires StrictlySorted(KeyLe, ks)
    requires forall k :: (k in ks <==> EntryFor(ms, k).Some?) && (k in ks ==> EntryKey(EntryFor(ms, k).value) == k)
    ensures IsComposition(ms, es)
  {
    es := seq(|ks|, i requires 0 <= i < |ks| => assert ks[i] in ks; EntryFor(ms, ks[i]).value);
    assert forall i :: 0 <= i < |ks| ==> ks[i] in ks && EntryKey(es[i]) == ks[i];
    forall e | EntryFor(ms, EntryKey(e)) == Some(e) ensures e in es {
      var p :| 0 <= p < |ks| && ks[p] == EntryKey(e);
      assert es[p] == e;
    }
  }

  // Without sharing, the entry of a key is whatever its one declarer says.
  lemma {:induction false} UnsharedEntry(ms: seq<Module>, ns: seq<Module>, k: Key)
    requires multiset(ms) == multiset(ns) && KeysDistinct(ModuleId, ms) && Unshared(ms)
    ensures EntryFor(ms, k) == EntryFor(ns, k)
  {
    SameMembers(ms, ns);
    var i := EntryIsFirst(ms, k);
    var j := EntryIsFirst(ns, k);
    assert EntryFor(ms, k).Some? <==> EntryFor(ns, k).Some? by {
      KeySetExact(ms, k);
      KeySetExact(ns, k);
      assert KeySet(ms) == KeySet(ns);
    }
    if EntryFor(ns, k).Some? {
      assert ns[j] in ms;
      var p :| 0 <= p < |ms| && ms[p] == ns[j];
      assert Carries(ms[p], k);
      assert p == i;
    }
  }

  lemma UnsharedIsBlind(ms: seq<Module>)
    requires KeysDistinct(ModuleId, ms) && Unshared(ms)
    ensures OrderBlind(ms)
  {
    KeyTotalOrder();
    forall ns, es, fs | multiset(ns) == multiset(ms) && IsComposition(ms, es) && IsComposition(ns, fs)
      ensures Map(HashedView, es) == Map(HashedView, fs)
    {
      forall e ensures e in es <==> e in fs {
        UnsharedEntry(ms, ns, EntryKey(e));
      }
      KeySortedUnique(KeyLe, EntryKey, es, fs);
    }
  }

  // The mount order that moves `ms[j]` to the front.
  function Promote(ms: seq<Module>, j: nat): (ns: seq<Module>)
    requires j < |ms|
    ensures multiset(ns) == multiset(ms) && ns[0] == ms[j]
  {
    assert ms == ms[..j] + [ms[j]] + ms[j + 1..];
    [ms[j]] + ms[..j] + ms[j + 1..]
  }

  // A shared key changes owner when a later declarer is mounted first.
  lemma SharedSeesOrder(ms: seq<Module>, i: nat, j: nat, k: Key)
    requires KeysDistinct(ModuleId, ms)
    requires i < j < |ms| && Carries(ms[i], k) && Carries(ms[j], k)
    ensures !OrderBlind(ms)
  {
    var ns := Promote(ms, j);
    var es := CompositionExists(ms);
    var fs := CompositionExists(ns);
    var p := EntryIsFirst(ms, k);
    var q := EntryIsFirst(ns, k);
    assert Carries(ns[0], k);
    assert p <= i && q == 0;
    var e, f := EntryFor(ms, k).value, EntryFor(ns, k).value;
    assert e in es && f in fs && e.owner != f.owner;
    forall g | g in es ensures HashedView(g) != HashedView(f) {
      if EntryKey(g) == k { KeySortedInjective(KeyLe, EntryKey, es, e, g); }
    }
    MapMembers(HashedView, es);
    MapMembers(HashedView, fs);
    assert HashedView(f) in Map(HashedView, fs) && HashedView(f) !in Map(HashedView, es);
  }

  /** The hashed composition view is the same for every mount order iff no schema key is
      declared by two modules: the view names the first declarer. */
  lemma OwnershipOrder(ms: seq<Module>)
    requires KeysDistinct(ModuleId, ms)
    ensures OrderBlind(ms) <==> Unshared(ms)
  {
    if Unshared(ms) {
      UnsharedIsBlind(ms);
    } else {
      var i, j, k :| 0 <= i < j < |ms| && Carries(ms[i], k) && Carries(ms[j], k);
      SharedSeesOrder(ms, i, j, k);
    }
  }
}
