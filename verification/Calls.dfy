/** What each buffered call means: under the stated conditions it acts on the plain map of Views.dfy exactly as
    its name says, returns what that map says, and keeps the invariant. */
module Calls {
  import opened Base
  import opened Storage
  import opened Buffer
  import opened Coherence
  import opened Views

  ghost predicate SameValues(b: Buf, b': Buf, db: Db, x: EntityId) {
    forall c :: ValueOf(b', db, CompKey(c, x)) == ValueOf(b, db, CompKey(c, x))
  }

  /** An entity keeps its meaning when its archetype and its values are left alone. */
  lemma EntityFrame(b: Buf, b': Buf, db: Db, x: EntityId)
    requires IdxInv(b, db) && TableGrows(b, b')
    requires Cur(b', db, x) == Cur(b, db, x) && SameValues(b, b', db, x)
    ensures Entity(b', db, x) == Entity(b, db, x)
  {
    hide ValueOf, Whereabouts, NoDup, Ids;
    EntityEqual(b, db, b', db, x);
  }

  /** A call that touches one entity changes the map at that entity only. */
  lemma EntsUpdate(b: Buf, b': Buf, db: Db, e: EntityId)
    requires IdxInv(b, db) && TableGrows(b, b')
    requires forall x :: x != e ==> Cur(b', db, x) == Cur(b, db, x) && SameValues(b, b', db, x)
    ensures Ents(b', db) == if Cur(b', db, e).Some? then Ents(b, db)[e := Entity(b', db, e)] else Ents(b, db) - {e}
  {
    hide IdxInv, Cur, Entity, SameValues, TableGrows, Ents;
    var m := if Cur(b', db, e).Some? then Ents(b, db)[e := Entity(b', db, e)] else Ents(b, db) - {e};
    forall x ensures x in Ents(b', db) <==> x in m
             ensures x in m ==> Ents(b', db)[x] == m[x]
    {
      EntsAt(b, db, x);
      EntsAt(b', db, x);
      if x != e { EntityFrame(b, b', db, x); }
    }
  }

  /** Reads that only fill caches do not change the meaning. */
  lemma SameMeaning(b: Buf, b': Buf, db: Db)
    requires IdxInv(b, db) && TableGrows(b, b') && SameCur(b, b', db)
    requires forall x :: SameValues(b, b', db, x)
    ensures Ents(b', db) == Ents(b, db)
  {
    hide IdxInv, Cur, Entity, SameValues, TableGrows;
    forall x ensures Entity(b', db, x) == Entity(b, db, x) { EntityFrame(b, b', db, x); }
    EntsEqual(b, db, b', db);
  }

  ghost predicate Uses(t: ArchTable, c: CompId) {
    exists a :: a in t && c in t[a]
  }

  /** Archetypes made by a call only use components that were in use or that the call was given. */
  ghost predicate GrewBy(t: ArchTable, t': ArchTable, extra: set<CompId>) {
    forall a, c :: a in t' && c in t'[a] ==> c in extra || Uses(t, c)
  }

  lemma GrewByOne(b: Buf, b': Buf, cs: seq<CompId>, extra: set<CompId>)
    requires TableGrows(b, b') && forall x :: x in b'.comps ==> x in b.comps || b'.comps[x] == cs
    requires forall c :: c in cs ==> c in extra || Uses(b.comps, c)
    ensures GrewBy(b.comps, b'.comps, extra)
  {
  }

  // ---------------------------------------------------------------- lookups

  lemma TypesMeans(b: Buf, db: Db, e: EntityId)
    requires Inv(b, db) && !Gone(b, db, e)
    ensures var (b', r) := Types(b, db, e);
            && b' == CacheArch(b, db, e) && Inv(b', db) && View(b', db) == View(b, db) && SameCur(b, b', db)
            && (forall x :: Gone(b', db, x) == Gone(b, db, x))
            && (e !in View(b, db).ents ==> r == Err(NoSuchEntity))
            && (e in View(b, db).ents ==>
                  && Cur(b, db, e).Some? && Cur(b, db, e).value in b.comps
                  && r == Ok(b.comps[Cur(b, db, e).value])
                  && (forall c :: c in r.value <==> c in View(b, db).ents[e]))
  {
    hide DbInv, ArchOk, LocOk, ValInv, Touched, NoDup, Ids;
    LookupIsCur(b, db, e);
    CacheArchKeeps(b, db, e);
    EntsAt(b, db, e);
    hide Whereabouts, Gone;
    SameMeaning(b, CacheArch(b, db, e), db);
    hide Ents, ValueOf;
  }

  // ---------------------------------------------------------------- values

  lemma SetMeans(b: Buf, db: Db, c: CompId, e: EntityId, v: Value)
    requires Inv(b, db) && !Gone(b, db, e)
    ensures var (b', r) := Set(b, db, c, e, v); var m := View(b, db).ents;
            && Inv(b', db) && (forall x :: Gone(b', db, x) == Gone(b, db, x))
            && (e !in m ==> r == Err(NoSuchEntity)) && (e in m && c !in m[e] ==> r == Err(NotOnEntity))
            && (r.Err? ==> View(b', db) == View(b, db) && b'.values == b.values)
            && (e in m && c in m[e] ==>
                  && r == Ok(())
                  && View(b', db) == View(b, db).(ents := m[e := PutIn(m[e], c, v)])
                  && b'.values == b.values[CompKey(c, e) := v])
            && b'.doomed == b.doomed && b'.comps == b.comps && b'.registry == b.registry
  {
    hide DbInv, ArchOk, LocInv, IdxInv, ValInv, Touched, View, Whereabouts, Live;
    TypesMeans(b, db, e);
    var b1 := CacheArch(b, db, e);
    if e in View(b, db).ents && c in View(b, db).ents[e] {
      LiveIsOn(b1, db, CompKey(c, e));
      PutValueKeeps(b1, db, CompKey(c, e), v);
      PutValueMeans(b1, db, CompKey(c, e), v);
    }
  }

  /** A component is on an entity of the map iff its key is live. */
  lemma LiveIsOn(b: Buf, db: Db, k: CompKey)
    ensures Live(b, db, k) <==> k.entity in View(b, db).ents && k.comp in View(b, db).ents[k.entity]
  {
    hide Whereabouts, ValueOf;
    EntsAt(b, db, k.entity);
    hide Ents;
  }

  lemma PutValueKeepsVal(b: Buf, db: Db, k: CompKey, v: Value)
    requires ValInv(b, db) && Live(b, db, k)
    ensures ValInv(b.(values := b.values[k := v]), db)
  {
    hide Whereabouts;
    var b' := b.(values := b.values[k := v]);
    assert forall x :: Live(b', db, x) == Live(b, db, x);
  }

  lemma PutValueKeeps(b: Buf, db: Db, k: CompKey, v: Value)
    requires Inv(b, db) && Live(b, db, k)
    ensures Inv(b.(values := b.values[k := v]), db)
  {
    hide DbInv, ArchOk, LocOk, IdxInv, ValInv, Live, Whereabouts;
    PutValueKeepsVal(b, db, k, v);
    IdxFrame(b, b.(values := b.values[k := v]), db);
  }

  lemma PutValueMeans(b: Buf, db: Db, k: CompKey, v: Value)
    requires IdxInv(b, db) && Live(b, db, k)
    ensures k.entity in View(b, db).ents
    ensures var b', m := b.(values := b.values[k := v]), View(b, db).ents;
            View(b', db) == View(b, db).(ents := m[k.entity := PutIn(m[k.entity], k.comp, v)])
  {
    hide IdxInv, Whereabouts;
    var b' := b.(values := b.values[k := v]);
    EntsAt(b, db, k.entity);
    assert CompsAt(b', Cur(b', db, k.entity)) == CompsAt(b, Cur(b, db, k.entity));
    assert Entity(b', db, k.entity) == PutIn(Entity(b, db, k.entity), k.comp, v);
    hide Entity, Ents;
    EntsUpdate(b, b', db, k.entity);
  }

  /** A live component that was removed and re-added since the commit and neither set nor read after: storage
      still holds its old value, which the delete set dooms but a read would return. */
  ghost predicate Stale(b: Buf, db: Db, k: CompKey) {
    Live(b, db, k) && k !in b.values && k in b.doomed && k in db.values && db.values[k] != Zero(k.comp)
  }

  /** A read returns what the map says, and leaves the map alone, exactly when the component is not stale. */
  lemma GetMeans(b: Buf, db: Db, c: CompId, e: EntityId)
    requires Inv(b, db) && !Gone(b, db, e)
    ensures var (b', r) := Get(b, db, c, e); var m, k := View(b, db).ents, CompKey(c, e);
            && Inv(b', db) && (forall x :: Gone(b', db, x) == Gone(b, db, x))
            && (e !in m ==> r == Err(NoSuchEntity)) && (e in m && c !in m[e] ==> r == Err(NotOnEntity))
            && (r.Err? ==> View(b', db) == View(b, db) && b'.values == b.values)
            && (e in m && c in m[e] ==>
                  && r.Ok? && (r.value == m[e][c] <==> !Stale(b, db, k))
                  && (View(b', db) == View(b, db) <==> !Stale(b, db, k))
                  && b'.values == b.values[k := r.value])
            && b'.doomed == b.doomed && b'.comps == b.comps && b'.registry == b.registry
  {
    hide DbInv, ArchOk, LocInv, IdxInv, Touched, View, Whereabouts;
    var k := CompKey(c, e);
    LiveIsOn(b, db, k);
    TypesMeans(b, db, e);
    var b1 := CacheArch(b, db, e);
    LiveIsOn(b1, db, k);
    if Live(b1, db, k) {
      ValueAt(b, db, k);
      PutValueKeeps(b1, db, k, Stored(db, k));
      PutValueMeans(b1, db, k, Stored(db, k));
      hide Live, ValInv;
      if k in b.values {
        assert b.values[k := b.values[k]] == b.values;
      } else {
        PutSame(View(b, db).ents, e, c, Stored(db, k));
      }
    }
  }

  lemma ValueAt(b: Buf, db: Db, k: CompKey)
    requires Live(b, db, k)
    ensures k.entity in View(b, db).ents && k.comp in View(b, db).ents[k.entity]
    ensures View(b, db).ents[k.entity][k.comp] == ValueOf(b, db, k)
  {
    hide Whereabouts, ValueOf;
    EntsAt(b, db, k.entity);
    hide Ents;
  }

  lemma PutSame(m: map<EntityId, Bag>, e: EntityId, c: CompId, v: Value)
    requires e in m && c in m[e]
    ensures m[e := PutIn(m[e], c, v)] == m <==> m[e][c] == v
  {
    var m' := m[e := PutIn(m[e], c, v)];
    assert PutIn(m[e], c, v)[c] == v;
    if m[e][c] == v {
      assert PutIn(m[e], c, v) == m[e];
    } else {
      assert m'[e] != m[e];
    }
  }

  // ---------------------------------------------------------------- creation

  function Fresh(cs: seq<CompId>): Bag {
    map c | c in cs :: Zero(c)
  }

  lemma NewbornValue(b: Buf, db: Db, k: CompKey)
    requires DbInv(db) && ValInv(b, db) && k.entity !in db.archOf && Cur(b, db, k.entity) == None
    ensures k !in b.values && Stored(db, k) == Zero(k.comp)
  {
    hide TableOk, NoDup, Whereabouts;
    assert !Live(b, db, k);
  }

  lemma SpawnMeans(b: Buf, db: Db, a: ArchId)
    requires Inv(b, db) && a in b.comps
    ensures Ents(Spawn(b, db, a), db) == Ents(b, db)[NextId(b, db) := Fresh(b.comps[a])]
  {
    hide DbInv, ArchOk, LocInv, IdxInv, ValInv, Touched, Whereabouts;
    var b', e := Spawn(b, db, a), NextId(b, db);
    SpawnKeeps(b, db, a);
    NextIdFresh(b, db);
    assert b'.values == b.values && b'.doomed == b.doomed && b'.comps == b.comps;
    hide Spawn, NextId;
    forall c ensures ValueOf(b', db, CompKey(c, e)) == Zero(c) { NewbornValue(b, db, CompKey(c, e)); }
    assert Entity(b', db, e) == Fresh(b.comps[a]) by { hide ValueOf; }
    hide Entity, Ents;
    EntsUpdate(b, b', db, e);
  }

  /** `n` entities with ids from `first` on. */
  function Newborn(first: EntityId, n: nat, cs: seq<CompId>): map<EntityId, Bag> {
    if n == 0 then map[] else Newborn(first, n - 1, cs)[first + n - 1 := Fresh(cs)]
  }

  lemma {:induction false} SpawnManyMeans(b: Buf, db: Db, a: ArchId, n: nat)
    requires Inv(b, db) && a in b.comps
    ensures Ents(SpawnMany(b, db, a, n), db) == Ents(b, db) + Newborn(NextId(b, db), n, b.comps[a])
    ensures forall x :: Gone(SpawnMany(b, db, a, n), db, x) ==> Gone(b, db, x)
  {
    hide Inv, Ents, Spawn, NextId, Gone, Fresh;
    var first, cs := NextId(b, db), b.comps[a];
    if n > 0 {
      var b1 := SpawnMany(b, db, a, n - 1);
      SpawnManyMeans(b, db, a, n - 1);
      SpawnManyKeeps(b, db, a, n - 1);
      SpawnMeans(b1, db, a);
      SpawnGone(b1, db, a);
      assert (Ents(b, db) + Newborn(first, n - 1, cs))[first + n - 1 := Fresh(cs)]
          == Ents(b, db) + Newborn(first, n, cs);
    } else {
      assert Ents(b, db) + Newborn(first, 0, cs) == Ents(b, db);
    }
  }

  lemma SpawnGone(b: Buf, db: Db, a: ArchId)
    requires Inv(b, db) && a in b.comps
    ensures forall x :: Gone(Spawn(b, db, a), db, x) ==> Gone(b, db, x)
  {
    NextIdFresh(b, db);
    hide Inv;
  }

  /** Creation adds `num` entities with consecutive unused ids, every component at its zero value. */
  lemma CreateMeans(b: Buf, db: Db, num: nat, comps: seq<CompId>)
    requires Inv(b, db)
    ensures var (b', r) := Create(b, db, num, comps); var w := View(b, db);
            && Inv(b', db) && (forall x :: Gone(b', db, x) ==> Gone(b, db, x))
            && (comps == [] ==> r == Err(NoComponents))
            && (comps != [] && !NoDup(comps) ==> r == Err(DuplicateComponents))
            && (r.Err? ==> b' == b)
            && (comps != [] && NoDup(comps) ==>
                  && r == Ok(IdRange(w.next, num))
                  && View(b', db) == World(w.ents + Newborn(w.next, num, comps), w.next + num, w.tick))
            && b'.values == b.values && b'.doomed == b.doomed && b'.registry == b.registry
            && GrewBy(b.comps, b'.comps, set c | c in comps)
  {
    hide Inv, Ents, Whereabouts;
    if comps != [] && NoDup(comps) {
      var cs := Normalize(comps).value;
      var b1, a := OpenArch(b, db, cs), ArchFor(b, cs);
      OpenArchKeeps(b, db, cs);
      OpenArchMeans(b, db, cs);
      SpawnManyMeans(b1, db, a, num);
      SpawnManyKeeps(b1, db, a, num);
      NewbornSame(NextId(b, db), num, cs, comps);
      SpawnManyFrame(b1, db, a, num);
      GrewByOne(b, b1, cs, set c | c in comps);
    }
  }

  lemma {:induction false} NewbornSame(first: EntityId, n: nat, cs: seq<CompId>, ds: seq<CompId>)
    requires forall c :: c in cs <==> c in ds
    ensures Newborn(first, n, cs) == Newborn(first, n, ds)
  {
    assert Fresh(cs) == Fresh(ds);
    if n > 0 { NewbornSame(first, n - 1, cs, ds); }
  }

  lemma OpenArchMeans(b: Buf, db: Db, cs: seq<CompId>)
    requires Inv(b, db) && cs != [] && Increasing(cs)
    ensures Ents(OpenArch(b, db, cs), db) == Ents(b, db)
    ensures NextId(OpenArch(b, db, cs), db) == NextId(b, db)
    ensures forall a :: a in OpenArch(b, db, cs).comps ==> a in b.comps || OpenArch(b, db, cs).comps[a] == cs
  {
    hide DbInv, ArchOk, LocOk, IdxInv, ValInv, Touched, Whereabouts, FindArch, Increasing;
    OpenArchKeeps(b, db, cs);
    SameMeaning(b, OpenArch(b, db, cs), db);
  }

  lemma {:induction false} SpawnManyFrame(b: Buf, db: Db, a: ArchId, n: nat)
    ensures var b' := SpawnMany(b, db, a, n);
            b'.comps == b.comps && b'.registry == b.registry && b'.pendingArchs == b.pendingArchs
  {
    if n > 0 { SpawnManyFrame(b, db, a, n - 1); }
  }

  /** The first archetype of an empty table is archetype 0, and pending. */
  lemma CreateFirst(b: Buf, db: Db, num: nat, c: CompId)
    requires b.comps == map[] && b.pendingArchs == []
    ensures var b' := Create(b, db, num, [c]).0; b'.comps == map[0 := [c]] && b'.pendingArchs == [0]
  {
    hide Increasing, SpawnMany;
    var cs := Normalize([c]).value;
    IncreasingUnique(cs, [c]) by { OneIncreasing(c); }
    var b1 := MakeArch(b, cs);
    assert b1.comps == map[0 := [c]] && b1.pendingArchs == [0];
    SpawnManyFrame(OpenArch(b, db, cs), db, ArchFor(b, cs), num);
  }

  lemma OneIncreasing(c: CompId)
    ensures Increasing([c]) && NoDup([c])
  {
  }

  // ---------------------------------------------------------------- removal

  lemma DropIndexes(b: Buf, db: Db, a: ArchId, e: EntityId, ks: set<CompKey>)
    requires LocInv(b, db) && IdxInv(b, db) && Touched(b)
    requires Cur(b, db, e) == Some(a) && a in b.comps && e in Ids(b, db, a)
    ensures var b' := DropValues(Drop(b, db, a, e), ks);
            && LocInv(b', db) && IdxInv(b', db) && Touched(b')
            && (forall x :: Cur(b', db, x) == if x == e then None else Cur(b, db, x))
            && (forall x :: Gone(b', db, x) <==> Gone(b, db, x) || (x == e && e in db.archOf))
  {
    hide LocOk, IdxInv, Whereabouts, SwapRemove;
    var b1 := Drop(b, db, a, e);
    DropMoves(b, db, a, e);
    DropKeepsIdx(b, db, a, e);
    IdxFrame(b1, DropValues(b1, ks), db);
  }

  lemma DropLive(b: Buf, b1: Buf, db: Db, a: ArchId, e: EntityId, k: CompKey)
    requires Live(b, db, k) && Cur(b, db, e) == Some(a) && a in b.comps && k !in KeysOf(b.comps[a], e)
    requires forall x :: Cur(b1, db, x) == if x == e then None else Cur(b, db, x)
    requires b1.comps == b.comps
    ensures Live(b1, db, k)
  {
    hide Whereabouts;
    assert k.entity != e;
  }

  lemma DropMeans(b: Buf, db: Db, a: ArchId, e: EntityId)
    requires Inv(b, db) && Cur(b, db, e) == Some(a) && a in b.comps && e in Ids(b, db, a)
    ensures var b' := DropValues(Drop(b, db, a, e), KeysOf(b.comps[a], e));
            && Inv(b', db) && Ents(b', db) == Ents(b, db) - {e}
            && (forall x :: Gone(b', db, x) <==> Gone(b, db, x) || (x == e && e in db.archOf))
  {
    hide DbInv, ArchOk, LocOk, IdxInv, Touched, Whereabouts, SwapRemove, KeysOf, ValInv, Live, Ents, Gone;
    var ks, b1 := KeysOf(b.comps[a], e), Drop(b, db, a, e);
    var b' := DropValues(b1, ks);
    DropIndexes(b, db, a, e, ks);
    assert forall x :: Cur(b1, db, x) == Cur(b', db, x);
    forall k | Live(b, db, k) && k !in ks ensures Live(b1, db, k) { DropLive(b, b1, db, a, e, k); }
    DropValuesKeeps(b, b1, db, ks);
    forall x | x != e ensures SameValues(b, b', db, x) {
      assert forall c :: CompKey(c, x) !in ks by { KeysOther(b.comps[a], e, x); }
    }
    hide SameValues;
    EntsUpdate(b, b', db, e);
  }

  lemma KeysOther(cs: seq<CompId>, e: EntityId, x: EntityId)
    requires x != e
    ensures forall c :: CompKey(c, x) !in KeysOf(cs, e)
  {
  }

  /** Removal takes the entity out of the map; what it held is marked for deletion. */
  lemma RemoveMeans(b: Buf, db: Db, e: EntityId)
    requires Inv(b, db) && !Gone(b, db, e)
    ensures var (b', r) := Remove(b, db, e); var w := View(b, db);
            && Inv(b', db)
            && (e !in w.ents ==> r == Err(NoSuchEntity) && b' == b)
            && (e in w.ents ==>
                  && r == Ok(()) && View(b', db) == w.(ents := w.ents - {e})
                  && b'.values == b.values - BagKeys(w.ents[e], e)
                  && b'.doomed == b.doomed + BagKeys(w.ents[e], e)
                  && (forall x :: Gone(b', db, x) <==> Gone(b, db, x) || (x == e && e in db.archOf)))
            && b'.comps == b.comps && b'.registry == b.registry
  {
    hide DbInv, ArchOk, LocInv, ValInv, Touched, NoDup;
    LookupIsCur(b, db, e);
    EntsAt(b, db, e);
    TypesMeans(b, db, e);
    hide Whereabouts, Gone;
    if e in View(b, db).ents {
      var b1, a := CacheArch(b, db, e), Cur(b, db, e).value;
      assert e in Ids(b1, db, a);
      DropMeans(b1, db, a, e);
      assert BagKeys(View(b, db).ents[e], e) == KeysOf(b.comps[a], e) by { hide ValueOf, Ids; }
      hide IdxInv, Entity, Ents, BagKeys, KeysOf;
    }
  }

  function BagKeys(bag: Bag, e: EntityId): set<CompKey> {
    set c | c in bag :: CompKey(c, e)
  }

  // ---------------------------------------------------------------- adding and removing components

  lemma MakeArchKnown(b: Buf, db: Db, a: ArchId)
    requires ArchInv(b, db) && a in b.comps
    ensures MakeArch(b, b.comps[a]) == b && ArchFor(b, b.comps[a]) == a
  {
    hide Increasing;
  }

  /** Moving an entity to the archetype of another component set, made if it is new. */
  lemma RetypeKeeps(b: Buf, db: Db, a: ArchId, cs: seq<CompId>, e: EntityId)
    requires DbInv(db) && ArchInv(b, db) && LocInv(b, db) && IdxInv(b, db) && Touched(b)
    requires Cur(b, db, e) == Some(a) && a in b.comps && cs != b.comps[a] && cs != [] && Increasing(cs)
    ensures var (b', r) := Move(MakeArch(b, cs), db, a, ArchFor(b, cs), e);
            && r == Ok(()) && ArchInv(b', db) && LocInv(b', db) && IdxInv(b', db) && Touched(b')
            && TableGrows(b, b') && CompsAt(b', Cur(b', db, e)) == cs
            && (forall x :: x != e ==> Cur(b', db, x) == Cur(b, db, x))
            && b'.values == b.values && b'.doomed == b.doomed && b'.registry == b.registry
            && NextId(b', db) == NextId(b, db)
            && (forall x :: Gone(b', db, x) ==> Gone(b, db, x))
            && (forall x :: x in b'.comps ==> x in b.comps || b'.comps[x] == cs)
  {
    hide DbInv, ArchOk, LocOk, IdxInv, Whereabouts, Increasing, Move, FindArch, Touched;
    var b1, dst := MakeArch(b, cs), ArchFor(b, cs);
    MakeArchKeeps(b, db, cs);
    MoveKeeps(b1, db, a, dst, e);
    RetypeTouches(b, cs, Move(b1, db, a, dst, e).0);
  }

  lemma RetypeTouches(b: Buf, cs: seq<CompId>, b': Buf)
    requires Touched(b) && b'.pendingArchs == MakeArch(b, cs).pendingArchs
    requires ArchFor(b, cs) in b'.active && b'.active[ArchFor(b, cs)].modified
    requires forall a :: a in b.active && b.active[a].modified ==> a in b'.active && b'.active[a].modified
    ensures Touched(b')
  {
    hide FindArch;
  }

  /** An entity that gains a component keeps its other values; the new one is zero. */
  lemma GainMeans(b: Buf, b': Buf, db: Db, e: EntityId, c: CompId)
    requires ValInv(b, db) && IdxInv(b, db) && TableGrows(b, b')
    requires b'.values == b.values && b'.doomed == b.doomed
    requires Cur(b, db, e).Some? && c !in CompsAt(b, Cur(b, db, e))
    requires forall x :: x in CompsAt(b', Cur(b', db, e)) <==> x in CompsAt(b, Cur(b, db, e)) || x == c
    requires Cur(b', db, e).Some?
    requires forall x :: x != e ==> Cur(b', db, x) == Cur(b, db, x)
    ensures ValInv(b', db)
    ensures e in Ents(b, db) && Ents(b', db) == Ents(b, db)[e := PutIn(Ents(b, db)[e], c, Zero(c))]
  {
    hide IdxInv, Whereabouts;
    assert ValueOf(b', db, CompKey(c, e)) == Zero(c) by { assert !Live(b, db, CompKey(c, e)); }
    assert Entity(b', db, e) == PutIn(Entity(b, db, e), c, Zero(c));
    EntsAt(b, db, e);
    GainKeepsVal(b, b', db, e);
    hide Entity, Ents, ValInv;
    EntsUpdate(b, b', db, e);
  }

  lemma GainKeepsVal(b: Buf, b': Buf, db: Db, e: EntityId)
    requires ValInv(b, db) && TableGrows(b, b')
    requires b'.values == b.values && b'.doomed == b.doomed
    requires forall x :: x in CompsAt(b, Cur(b, db, e)) ==> x in CompsAt(b', Cur(b', db, e))
    requires forall x :: x != e ==> Cur(b', db, x) == Cur(b, db, x)
    ensures ValInv(b', db)
  {
    hide Whereabouts;
    forall k | Live(b, db, k) ensures Live(b', db, k) {
      assert k.comp in CompsAt(b, Cur(b, db, k.entity));
      assert k.comp in CompsAt(b', Cur(b', db, k.entity));
    }
  }

  lemma AddCompMeans(b: Buf, db: Db, c: CompId, e: EntityId)
    requires Inv(b, db) && !Gone(b, db, e)
    ensures var (b', r) := AddComp(b, db, c, e); var w := View(b, db);
            && Inv(b', db) && (forall x :: Gone(b', db, x) ==> Gone(b, db, x))
            && (e !in w.ents ==> r == Err(NoSuchEntity))
            && (e in w.ents && c in w.ents[e] ==> r == Err(AlreadyOnEntity))
            && (r.Err? ==> View(b', db) == w)
            && (e in w.ents && c !in w.ents[e] ==>
                  r == Ok(()) && View(b', db) == w.(ents := w.ents[e := PutIn(w.ents[e], c, Zero(c))]))
            && b'.values == b.values && b'.doomed == b.doomed && b'.registry == b.registry
            && GrewBy(b.comps, b'.comps, {c})
  {
    hide DbInv, ArchOk, LocInv, IdxInv, ValInv, Touched, Whereabouts, Gone, Uses;
    TypesMeans(b, db, e);
    var b1 := CacheArch(b, db, e);
    GrewByOne(b, b1, [], {c});
    hide GrewBy, Normalize, Move, MakeArch, ArchFor, Without;
    if e in View(b, db).ents && c !in View(b, db).ents[e] {
      hide Ents;
      var a := Cur(b, db, e).value;
      AddCompMoves(b1, db, a, c, e);
      var b' := AddComp(b, db, c, e).0;
      assert b' == Regroup(b1, db, a, c, e).0;
      GainMeans(b1, b', db, e, c);
    }
  }

  /** AddComponentToEntity once the component is known to be new. */
  ghost function Regroup(b: Buf, db: Db, a: ArchId, c: CompId, e: EntityId): Reply<()>
    requires a in b.comps && Normalize(b.comps[a] + [c]).Ok?
  {
    var cs := b.comps[a];
    var to := Normalize(cs + [c]).value;
    var b1 := MakeArch(b, to);
    Move(MakeArch(b1, cs), db, ArchFor(b1, cs), ArchFor(b, to), e)
  }

  lemma AddCompMoves(b: Buf, db: Db, a: ArchId, c: CompId, e: EntityId)
    requires Inv(b, db) && Cur(b, db, e) == Some(a) && a in b.comps && c !in b.comps[a]
    ensures Normalize(b.comps[a] + [c]).Ok?
    ensures var (b', r) := Regroup(b, db, a, c, e);
            && r == Ok(()) && ArchInv(b', db) && LocInv(b', db) && IdxInv(b', db) && Touched(b')
            && TableGrows(b, b') && Cur(b', db, e).Some?
            && (forall x :: x in CompsAt(b', Cur(b', db, e)) <==> x in b.comps[a] || x == c)
            && (forall x :: x != e ==> Cur(b', db, x) == Cur(b, db, x))
            && b'.values == b.values && b'.doomed == b.doomed && b'.registry == b.registry
            && NextId(b', db) == NextId(b, db)
            && (forall x :: Gone(b', db, x) ==> Gone(b, db, x))
            && GrewBy(b.comps, b'.comps, {c})
  {
    hide DbInv, ArchOk, LocOk, IdxInv, ValInv, Touched, Whereabouts, Gone, Increasing, Normalize, Move;
    var cs := b.comps[a];
    CompsIncreasing(b, db, a);
    JoinNormalizes(cs, c);
    var to := Normalize(cs + [c]).value;
    RetypeKeeps(b, db, a, to, e);
    MakeArchKeeps(b, db, to);
    MakeArchKnown(MakeArch(b, to), db, a);
    hide MakeArch, ArchFor;
    assert forall x :: x in cs ==> Uses(b.comps, x);
    GrewByOne(b, Regroup(b, db, a, c, e).0, to, {c});
  }

  lemma CompsIncreasing(b: Buf, db: Db, a: ArchId)
    requires ArchInv(b, db) && a in b.comps
    ensures Increasing(b.comps[a])
  {
    hide Increasing;
  }

  lemma JoinNormalizes(cs: seq<CompId>, c: CompId)
    requires Increasing(cs) && c !in cs
    ensures var r := Normalize(cs + [c]);
            && r.Ok? && r.value != [] && r.value != cs && Increasing(r.value)
            && forall x :: x in r.value <==> x in cs || x == c
  {
    assert NoDup(cs + [c]);
    assert c in Normalize(cs + [c]).value;
  }

  /** RemoveComponentFromEntity once the component is known to be present and not the last. */
  ghost function Shrink(b: Buf, db: Db, a: ArchId, c: CompId, e: EntityId): Reply<()>
    requires a in b.comps
  {
    var cs, b1 := b.comps[a], DropValues(b, {CompKey(c, e)});
    var b2 := MakeArch(b1, cs);
    Move(MakeArch(b2, Without(cs, c)), db, ArchFor(b1, cs), ArchFor(b2, Without(cs, c)), e)
  }

  lemma RemoveCompMoves(b: Buf, db: Db, a: ArchId, c: CompId, e: EntityId)
    requires Inv(b, db) && Cur(b, db, e) == Some(a) && a in b.comps && c in b.comps[a] && Without(b.comps[a], c) != []
    ensures var (b', r) := Shrink(b, db, a, c, e);
            && r == Ok(()) && ArchInv(b', db) && LocInv(b', db) && IdxInv(b', db) && Touched(b')
            && TableGrows(b, b') && Cur(b', db, e).Some?
            && CompsAt(b', Cur(b', db, e)) == Without(b.comps[a], c)
            && (forall x :: x != e ==> Cur(b', db, x) == Cur(b, db, x))
            && b'.values == b.values - {CompKey(c, e)} && b'.doomed == b.doomed + {CompKey(c, e)}
            && b'.registry == b.registry && NextId(b', db) == NextId(b, db)
            && (forall x :: Gone(b', db, x) ==> Gone(b, db, x))
            && GrewBy(b.comps, b'.comps, {})
  {
    hide DbInv, ArchOk, LocOk, IdxInv, ValInv, Whereabouts, Increasing, Move, FindArch;
    var cs, b1 := b.comps[a], DropValues(b, {CompKey(c, e)});
    var to := Without(cs, c);
    CompsIncreasing(b, db, a);
    assert c !in to;
    assert SameCur(b, b1, db);
    IdxFrame(b, b1, db);
    assert forall x :: x in to ==> x in cs;
    hide Touched, Without;
    MakeArchKnown(b1, db, a);
    RetypeKeeps(b1, db, a, to, e);
    hide MakeArch, ArchFor;
    assert forall x :: x in cs ==> Uses(b.comps, x);
    GrewByOne(b, Shrink(b, db, a, c, e).0, to, {});
  }

  lemma LoseKeepsVal(b: Buf, b': Buf, db: Db, e: EntityId, c: CompId)
    requires ValInv(b, db) && TableGrows(b, b')
    requires b'.values == b.values - {CompKey(c, e)} && b'.doomed == b.doomed + {CompKey(c, e)}
    requires forall x :: x in CompsAt(b, Cur(b, db, e)) && x != c ==> x in CompsAt(b', Cur(b', db, e))
    requires forall x :: x != e ==> Cur(b', db, x) == Cur(b, db, x)
    ensures ValInv(b', db)
  {
    hide Whereabouts;
    forall k | Live(b, db, k) && k != CompKey(c, e) ensures Live(b', db, k) {
      assert k.comp in CompsAt(b, Cur(b, db, k.entity));
      assert k.comp in CompsAt(b', Cur(b', db, k.entity));
    }
  }

  lemma LoseMeans(b: Buf, b': Buf, db: Db, e: EntityId, c: CompId)
    requires IdxInv(b, db) && TableGrows(b, b')
    requires b'.values == b.values - {CompKey(c, e)} && b'.doomed == b.doomed + {CompKey(c, e)}
    requires Cur(b, db, e).Some? && Cur(b', db, e).Some?
    requires forall x :: x in CompsAt(b', Cur(b', db, e)) <==> x in CompsAt(b, Cur(b, db, e)) && x != c
    requires forall x :: x != e ==> Cur(b', db, x) == Cur(b, db, x)
    ensures e in Ents(b, db) && Ents(b', db) == Ents(b, db)[e := Ents(b, db)[e] - {c}]
  {
    hide IdxInv, Whereabouts;
    assert Entity(b', db, e) == Entity(b, db, e) - {c};
    EntsAt(b, db, e);
    hide Entity, Ents;
    EntsUpdate(b, b', db, e);
  }

  lemma RemoveCompMeans(b: Buf, db: Db, c: CompId, e: EntityId)
    requires Inv(b, db) && !Gone(b, db, e)
    ensures var (b', r) := RemoveComp(b, db, c, e); var w := View(b, db);
            && Inv(b', db) && (forall x :: Gone(b', db, x) ==> Gone(b, db, x))
            && (e !in w.ents ==> r == Err(NoSuchEntity))
            && (e in w.ents && c !in w.ents[e] ==> r == Err(NotOnEntity))
            && (e in w.ents && w.ents[e].Keys == {c} ==> r == Err(LastComponent))
            && (r.Err? ==> View(b', db) == w && b'.values == b.values && b'.doomed == b.doomed)
            && (e in w.ents && c in w.ents[e] && w.ents[e].Keys != {c} ==>
                  && r == Ok(()) && View(b', db) == w.(ents := w.ents[e := w.ents[e] - {c}])
                  && b'.values == b.values - {CompKey(c, e)} && b'.doomed == b.doomed + {CompKey(c, e)})
            && b'.registry == b.registry
            && GrewBy(b.comps, b'.comps, {})
  {
    hide DbInv, ArchOk, LocInv, IdxInv, ValInv, Touched, Whereabouts, Gone, Uses;
    TypesMeans(b, db, e);
    var b1 := CacheArch(b, db, e);
    GrewByOne(b, b1, [], {});
    hide GrewBy, Normalize, Move, MakeArch, ArchFor, Without;
    if e in View(b, db).ents && c in View(b, db).ents[e] {
      hide Ents;
      var a := Cur(b, db, e).value;
      LastIffAlone(b.comps[a], View(b, db).ents[e], c);
      if Without(b.comps[a], c) != [] {
        RemoveCompMoves(b1, db, a, c, e);
        var b' := RemoveComp(b, db, c, e).0;
        assert b' == Shrink(b1, db, a, c, e).0;
        LoseKeepsVal(b1, b', db, e, c);
        LoseMeans(b1, b', db, e, c);
      }
    }
  }

  lemma LastIffAlone(cs: seq<CompId>, bag: Bag, c: CompId)
    requires c in cs && forall x :: x in cs <==> x in bag
    ensures Without(cs, c) == [] <==> bag.Keys == {c}
  {
    var r := Without(cs, c);
    if r == [] {
      forall x | x in bag ensures x == c { assert x !in r; }
    } else {
      assert r[0] in r;
    }
  }
}
