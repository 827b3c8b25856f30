/** The entity command buffer as the object it is: maps and counters updated in place by every call, loops over
    keys in whatever order the maps yield them. Each method is proved to leave exactly the state, and return
    exactly the result, of its function in Buffer.dfy. */
module CommandBuffer {
  import opened Base
  import opened Storage
  import opened Buffer
  import opened Coherence
  import opened Commit
  import opened Refinement
  import opened Allocation

  /** The Redis connection: reads see `db`, a transaction replaces it at once. */
  class PrimitiveStorage {
    var db: Db

    constructor (db: Db)
      ensures this.db == db
    {
      this.db := db;
    }

    /** MULTI/EXEC. */
    method EndTransaction(cmds: seq<Cmd>)
      modifies this
      ensures db == Exec(old(db), cmds)
    {
      db := Exec(db, cmds);
    }
  }

  /** MapStorage.Keys: every key once, in an order the caller cannot rely on. */
  method Keys<K(!new, ==)>(keys: set<K>) returns (r: seq<K>)
    ensures Lists(r, keys)
  {
    r := [];
    var todo := keys;
    while todo != {}
      invariant todo <= keys && NoDup(r)
      invariant forall k :: k in r <==> k in keys && k !in todo
      decreases todo
    {
      var k :| k in todo;
      r, todo := r + [k], todo - {k};
    }
  }

  lemma {:induction false} FirstIndex(ids: seq<EntityId>, e: EntityId, i: nat)
    requires i < |ids| && ids[i] == e && e !in ids[..i]
    ensures IndexOf(ids, e) == i
  {
    if i > 0 {
      assert ids[0] in ids[..i] && ids[1..][..i - 1] == ids[1..i];
      assert forall x :: x in ids[1..i] ==> x in ids[..i];
      FirstIndex(ids[1..], e, i - 1);
    }
  }

  /** activeEntities.swapRemove. */
  method SwapRemoveId(ids: seq<EntityId>, idToRemove: EntityId) returns (r: Result<seq<EntityId>, Error>)
    ensures r == if idToRemove in ids then Ok(SwapRemove(ids, idToRemove)) else Err(NotInActiveList)
  {
    var i := 0;
    while i < |ids| && ids[i] != idToRemove
      invariant 0 <= i <= |ids| && idToRemove !in ids[..i]
    {
      i := i + 1;
    }
    if i == |ids| {
      assert ids[..i] == ids;
      return Err(NotInActiveList);
    }
    FirstIndex(ids, idToRemove, i);
    var lastIndex := |ids| - 1;
    var out := ids;
    if i < lastIndex {
      out := out[i := out[lastIndex]];
    }
    return Ok(out[..lastIndex]);
  }

  /** sortComponentSet, with the emptiness test its callers make first. */
  method SortComponentSet(components: seq<CompId>) returns (r: Result<seq<CompId>, Error>)
    ensures r == Normalize(components)
  {
    hide Sort, HasRepeat, Increasing, NoDup;
    SortNoDup(components);
    if |components| == 0 {
      return Err(NoComponents);
    }
    var sorted := Sort(components);
    var repeat := AdjacentRepeat(sorted);
    if repeat {
      return Err(DuplicateComponents);
    }
    return Ok(sorted);
  }

  method AdjacentRepeat(sorted: seq<CompId>) returns (repeat: bool)
    requires Sorted(sorted) && sorted != []
    ensures repeat <==> HasRepeat(sorted)
  {
    hide HasRepeat;
    for i := 1 to |sorted|
      invariant forall j :: 1 <= j < i ==> sorted[j - 1] < sorted[j]
    {
      if sorted[i] == sorted[i - 1] {
        return true;
      }
    }
    AdjacentIncreasing(sorted);
    return false;
  }

  lemma AdjacentIncreasing(s: seq<nat>)
    requires Sorted(s) && forall j :: 1 <= j < |s| ==> s[j - 1] < s[j]
    ensures Increasing(s)
  {
    forall i, j | 0 <= i < j < |s| ensures s[i] < s[j] { assert s[i] <= s[j - 1] < s[j]; }
  }

  method IsComponentSetMatch(a: seq<CompId>, b: seq<CompId>) returns (r: bool)
    ensures r <==> a == b
  {
    if |a| != |b| {
      return false;
    }
    for i := 0 to |a|
      invariant a[..i] == b[..i]
    {
      if a[i] != b[i] {
        return false;
      }
    }
    assert a[..|a|] == a && b[..|b|] == b;
    return true;
  }

  /** Storing a list back after loading it is the same as storing it. */
  lemma PutAfterLoad(b: Buf, db: Db, a: ArchId, ids: seq<EntityId>)
    ensures PutActive(LoadActive(b, db, a), a, ids) == PutActive(b, a, ids)
  {
    if a !in b.active {
      assert b.active[a := Active(Members(db, a), false)][a := Active(ids, true)] == b.active[a := Active(ids, true)];
    }
  }

  /** Creating one entity, with the active list in the buffer or in a local copy. */
  lemma SpawnCommutes(b: Buf, db: Db, a: ArchId, ids: seq<EntityId>)
    ensures var e, b1 := NextId(b, db), TakeId(b, db);
            Spawn(PutActive(b, a, ids), db, a)
            == PutActive(b1.(archOf := b1.archOf[e := a], originOf := b1.originOf[e := Unborn]), a, ids + [e])
  {
    var e := NextId(b, db);
    assert b.active[a := Active(ids, true)][a := Active(ids + [e], true)] == b.active[a := Active(ids + [e], true)];
  }

  lemma MakeArchNext(b: Buf, db: Db, cs: seq<CompId>)
    ensures NextId(MakeArch(b, cs), db) == NextId(b, db)
  {
  }

  lemma DropValuesNext(b: Buf, cs: seq<CompId>, i: nat, e: EntityId)
    requires i < |cs|
    ensures DropValues(DropValues(b, KeysOf(cs[..i], e)), {CompKey(cs[i], e)}) == DropValues(b, KeysOf(cs[..i + 1], e))
  {
    assert KeysOf(cs[..i + 1], e) == KeysOf(cs[..i], e) + {CompKey(cs[i], e)};
    assert b.values - KeysOf(cs[..i], e) - {CompKey(cs[i], e)} == b.values - KeysOf(cs[..i + 1], e);
  }

  /** The filtering loop of RemoveComponentFromEntity. */
  method FilterOut(cs: seq<CompId>, c: CompId) returns (newCompSet: seq<CompId>, found: bool)
    ensures newCompSet == Without(cs, c) && (found <==> c in cs)
  {
    newCompSet, found := [], false;
    for i := 0 to |cs|
      invariant newCompSet == Without(cs[..i], c) && (found <==> c in cs[..i])
    {
      assert cs[..i + 1][..i] == cs[..i];
      if cs[i] == c {
        found := true;
      } else {
        newCompSet := newCompSet + [cs[i]];
      }
    }
    assert cs[..|cs|] == cs;
  }

  class EntityCommandBuffer {
    const dbStorage: PrimitiveStorage

    var values: map<CompKey, Value>
    var doomed: set<CompKey>
    var active: map<ArchId, Active>
    var nextSaved: nat
    var pendingIds: nat
    var idLoaded: bool
    var archOf: map<EntityId, ArchId>
    var originOf: map<EntityId, Origin>
    var comps: ArchTable
    var pendingArchs: seq<ArchId>
    var registry: Option<set<CompId>>

    ghost function Snap(): Buf
      reads this
    {
      Buf(values, doomed, active, nextSaved, pendingIds, idLoaded, archOf, originOf, comps, pendingArchs, registry)
    }

    /** Archetype ids are 0..n-1 with pairwise different component sets, the stored ones first. */
    ghost predicate Valid()
      reads this, dbStorage
    {
      ArchInv(Snap(), dbStorage.db)
    }

    constructor (storage: PrimitiveStorage)
      ensures dbStorage == storage && Snap() == NewBuf
    {
      dbStorage := storage;
      values, doomed, active := map[], {}, map[];
      nextSaved, pendingIds, idLoaded := 0, 0, false;
      archOf, originOf := map[], map[];
      comps, pendingArchs, registry := map[], [], None;
    }

    /** RegisterComponents and loadArchIDs. */
    method RegisterComponents(reg: set<CompId>) returns (r: Result<(), Error>)
      modifies this
      ensures (Snap(), r) == Register(old(Snap()), dbStorage.db, reg)
    {
      registry := Some(reg);
      if dbStorage.db.table.None? {
        return Ok(());
      }
      var fromStorage := dbStorage.db.table.value;
      var archIDs := Keys(fromStorage.Keys);
      var i, result := 0, map[];
      while i < |archIDs|
        invariant 0 <= i <= |archIDs| && Snap() == old(Snap()).(registry := Some(reg))
        invariant forall a :: a in result <==> a in archIDs[..i]
        invariant forall a :: a in result ==>
                    result[a] == fromStorage[a] && forall c :: c in fromStorage[a] ==> c in reg
      {
        var types := fromStorage[archIDs[i]];
        for j := 0 to |types|
          invariant forall c :: c in types[..j] ==> c in reg
        {
          if types[j] !in reg {
            assert archIDs[i] in Table(dbStorage.db) && types[j] in Table(dbStorage.db)[archIDs[i]];
            return Err(UnknownComponent);
          }
        }
        assert types[..|types|] == types;
        result := result[archIDs[i] := types];
        i := i + 1;
      }
      assert archIDs[..i] == archIDs;
      assert result == fromStorage;
      if comps != map[] {
        return Err(TableOverwrite);
      }
      comps := result;
      return Ok(());
    }

    method GetArchetypeForEntity(id: EntityId) returns (r: Option<ArchId>)
      modifies this`archOf
      ensures Snap() == CacheArch(old(Snap()), dbStorage.db, id)
      ensures r == LookupArch(old(Snap()), dbStorage.db, id)
    {
      if id in archOf {
        return Some(archOf[id]);
      }
      if id !in dbStorage.db.archOf {
        return None;
      }
      archOf := archOf[id := dbStorage.db.archOf[id]];
      return Some(archOf[id]);
    }

    method GetActiveEntities(a: ArchId) returns (r: Active)
      modifies this`active
      ensures Snap() == LoadActive(old(Snap()), dbStorage.db, a)
      ensures a in active && r == active[a] && r.ids == Ids(old(Snap()), dbStorage.db, a)
    {
      if a !in active {
        active := active[a := Active(Members(dbStorage.db, a), false)];
      }
      return active[a];
    }

    /** GetArchIDForComponents on a sorted set: the first match in any iteration order is the only one. */
    method FindArchetype(cs: seq<CompId>) returns (r: Option<ArchId>)
      requires TableOk(comps)
      ensures r == FindArch(comps, cs)
    {
      var archIDs := Keys(comps.Keys);
      for i := 0 to |archIDs|
        invariant forall j :: 0 <= j < i ==> comps[archIDs[j]] != cs
      {
        var match_ := IsComponentSetMatch(comps[archIDs[i]], cs);
        if match_ {
          return Some(archIDs[i]);
        }
      }
      return None;
    }

    method GetOrMakeArchID(cs: seq<CompId>) returns (a: ArchId)
      requires TableOk(comps)
      modifies this`comps, this`pendingArchs
      ensures Snap() == MakeArch(old(Snap()), cs) && a == ArchFor(old(Snap()), cs)
    {
      var found := FindArchetype(cs);
      if found.Some? {
        return found.value;
      }
      a := |comps|;
      pendingArchs := pendingArchs + [a];
      comps := comps[a := cs];
    }

    method NextEntityID() returns (id: EntityId)
      modifies this`nextSaved, this`pendingIds, this`idLoaded
      ensures Snap() == TakeId(old(Snap()), dbStorage.db) && id == NextId(old(Snap()), dbStorage.db)
    {
      if !idLoaded {
        nextSaved := dbStorage.db.next;
        pendingIds := 0;
        idLoaded := true;
      }
      id := nextSaved + pendingIds;
      pendingIds := pendingIds + 1;
    }

    method CreateManyEntities(num: nat, components: seq<CompId>) returns (r: Result<seq<EntityId>, Error>)
      requires Valid()
      modifies this
      ensures (Snap(), r) == Create(old(Snap()), dbStorage.db, num, components)
      ensures Valid()
    {
      hide ArchOk, TableOk, MakeArch, ArchFor, Normalize, Members;
      ghost var b0, db := Snap(), dbStorage.db;
      TableOkOf(b0, db);
      var sorted := SortComponentSet(components);
      if sorted.Err? {
        return Err(sorted.error);
      }
      var a := GetOrMakeArchID(sorted.value);
      var act := GetActiveEntities(a);
      PutAfterLoad(MakeArch(b0, sorted.value), db, a, act.ids);
      assert PutActive(Snap(), a, act.ids) == OpenArch(b0, db, sorted.value);
      assert NextId(Snap(), db) == NextId(b0, db) by { MakeArchNext(b0, db, sorted.value); }
      MakeArchKeepsArch(b0, db, sorted.value);
      SpawnManyKeepsArch(OpenArch(b0, db, sorted.value), db, a, num);
      var ids := SpawnEntities(a, act, num);
      return Ok(ids);
    }

    /** The loop of CreateManyEntities, which collects the new ids in its copy of the active list. */
    method SpawnEntities(a: ArchId, act0: Active, num: nat) returns (ids: seq<EntityId>)
      modifies this
      ensures Snap() == SpawnMany(PutActive(old(Snap()), a, act0.ids), dbStorage.db, a, num)
      ensures ids == IdRange(NextId(old(Snap()), dbStorage.db), num)
    {
      hide Spawn;
      ghost var b0, db := Snap(), dbStorage.db;
      ghost var b1 := PutActive(b0, a, act0.ids);
      var act := act0;
      ids := [];
      for i := 0 to num
        invariant PutActive(Snap(), a, act.ids) == SpawnMany(b1, db, a, i)
        invariant NextId(Snap(), db) == NextId(b0, db) + i
        invariant ids == IdRange(NextId(b0, db), i)
      {
        SpawnCommutes(Snap(), db, a, act.ids);
        var currID := NextEntityID();
        ids := ids + [currID];
        archOf := archOf[currID := a];
        originOf := originOf[currID := Unborn];
        act := Active(act.ids + [currID], true);
      }
      active := active[a := Active(act.ids, true)];
    }

    /** The load, swapRemove and store of an active list that removals and moves share. */
    method TakeFromActive(a: ArchId, id: EntityId) returns (r: Result<(), Error>)
      modifies this`active
      ensures var b, db := old(Snap()), dbStorage.db;
              if id in Ids(b, db, a) then r == Ok(()) && Snap() == PutActive(b, a, SwapRemove(Ids(b, db, a), id))
              else r == Err(NotInActiveList) && Snap() == LoadActive(b, db, a)
    {
      ghost var b0 := Snap();
      var act := GetActiveEntities(a);
      var removed := SwapRemoveId(act.ids, id);
      if removed.Err? {
        return Err(removed.error);
      }
      active := active[a := Active(removed.value, true)];
      PutAfterLoad(b0, dbStorage.db, a, removed.value);
      return Ok(());
    }

    method RemoveEntity(id: EntityId) returns (r: Result<(), Error>)
      requires Valid()
      modifies this
      ensures (Snap(), r) == Remove(old(Snap()), dbStorage.db, id)
      ensures Valid()
    {
      hide ArchOk, SwapRemove, Ids, LoadActive, KeysOf;
      ghost var b0, db := Snap(), dbStorage.db;
      ghost var b1 := CacheArch(b0, db, id);
      var found := GetArchetypeForEntity(id);
      if found.None? {
        return Err(NoSuchEntity);
      }
      var a := found.value;
      var removed := TakeFromActive(a, id);
      if removed.Err? {
        return Err(removed.error);
      }
      if id !in originOf {
        originOf := originOf[id := Home(a)];
      }
      archOf := archOf - {id};
      ghost var b2 := Drop(b1, db, a, id);
      assert Snap() == b2;
      if a !in comps {
        return Err(NoSuchArchetype);
      }
      DropComponentValues(comps[a], id);
      return Ok(());
    }

    method DropComponentValues(cs: seq<CompId>, id: EntityId)
      modifies this`values, this`doomed
      ensures Snap() == DropValues(old(Snap()), KeysOf(cs, id))
    {
      ghost var b0 := Snap();
      assert values - KeysOf([], id) == values;
      for i := 0 to |cs|
        invariant Snap() == DropValues(b0, KeysOf(cs[..i], id))
      {
        var key := CompKey(cs[i], id);
        values := values - {key};
        doomed := doomed + {key};
        DropValuesNext(b0, cs, i, id);
      }
      assert cs[..|cs|] == cs;
    }

    method GetComponentTypesForEntity(id: EntityId) returns (r: Result<seq<CompId>, Error>)
      requires Valid()
      modifies this`archOf
      ensures (Snap(), r) == Types(old(Snap()), dbStorage.db, id)
      ensures Valid()
    {
      var found := GetArchetypeForEntity(id);
      if found.None? {
        return Err(NoSuchEntity);
      }
      if found.value !in comps {
        return Err(NoSuchArchetype);
      }
      return Ok(comps[found.value]);
    }

    method SetComponentForEntity(c: CompId, id: EntityId, value: Value) returns (r: Result<(), Error>)
      requires Valid()
      modifies this`archOf, this`values
      ensures (Snap(), r) == Set(old(Snap()), dbStorage.db, c, id, value)
      ensures Valid()
    {
      var ts := GetComponentTypesForEntity(id);
      if ts.Err? {
        return Err(ts.error);
      }
      if c !in ts.value {
        return Err(NotOnEntity);
      }
      values := values[CompKey(c, id) := value];
      return Ok(());
    }

    method GetComponentForEntity(c: CompId, id: EntityId) returns (r: Result<Value, Error>)
      requires Valid()
      modifies this`archOf, this`values
      ensures (Snap(), r) == Get(old(Snap()), dbStorage.db, c, id)
      ensures Valid()
    {
      var key := CompKey(c, id);
      if key in values {
        return Ok(values[key]);
      }
      var ts := GetComponentTypesForEntity(id);
      if ts.Err? {
        return Err(ts.error);
      }
      if c !in ts.value {
        return Err(NotOnEntity);
      }
      var value := Zero(c);
      if key in dbStorage.db.values {
        value := dbStorage.db.values[key];
      }
      values := values[key := value];
      return Ok(value);
    }

    method MoveEntityByArchetype(src: ArchId, dst: ArchId, id: EntityId) returns (r: Result<(), Error>)
      modifies this`originOf, this`archOf, this`active
      ensures (Snap(), r) == Move(old(Snap()), dbStorage.db, src, dst, id)
    {
      ghost var b0, db := Snap(), dbStorage.db;
      ghost var b1 := Readdress(b0, src, dst, id);
      if id !in originOf {
        originOf := originOf[id := Home(src)];
      }
      archOf := archOf[id := dst];
      assert Snap() == b1;
      var removed := TakeFromActive(src, id);
      if removed.Err? {
        return Err(removed.error);
      }
      ghost var b2 := Snap();
      var act := GetActiveEntities(dst);
      active := active[dst := Active(act.ids + [id], true)];
      PutAfterLoad(b2, db, dst, act.ids);
      PutAfterLoad(b2, db, dst, act.ids + [id]);
      return Ok(());
    }

    method AddComponentToEntity(c: CompId, id: EntityId) returns (r: Result<(), Error>)
      requires Valid()
      modifies this
      ensures (Snap(), r) == AddComp(old(Snap()), dbStorage.db, c, id)
      ensures Valid()
    {
      hide ArchOk, TableOk, Move, MakeArch, ArchFor, Normalize, Increasing;
      ghost var b0, db := Snap(), dbStorage.db;
      var ts := GetComponentTypesForEntity(id);
      if ts.Err? {
        return Err(ts.error);
      }
      if c in ts.value {
        return Err(AlreadyOnEntity);
      }
      TypesIncreasing(b0, db, id);
      var sorted := SortComponentSet(ts.value + [c]);
      if sorted.Err? {
        return Err(sorted.error);
      }
      TableOkOf(Snap(), db);
      MakeArchKeepsArch(Snap(), db, sorted.value);
      ghost var b2 := MakeArch(Snap(), sorted.value);
      TableOkOf(b2, db);
      var toArchID := GetOrMakeArchID(sorted.value);
      var fromArchID := GetOrMakeArchID(ts.value);
      MakeArchKeepsArch(b2, db, ts.value);
      MoveKeepsArch(Snap(), db, fromArchID, toArchID, id);
      r := MoveEntityByArchetype(fromArchID, toArchID, id);
    }

    method RemoveComponentFromEntity(c: CompId, id: EntityId) returns (r: Result<(), Error>)
      requires Valid()
      modifies this
      ensures (Snap(), r) == RemoveComp(old(Snap()), dbStorage.db, c, id)
      ensures Valid()
    {
      hide ArchOk, TableOk, Move, MakeArch, ArchFor, Increasing, Without;
      ghost var b0, db := Snap(), dbStorage.db;
      var ts := GetComponentTypesForEntity(id);
      if ts.Err? {
        return Err(ts.error);
      }
      var cs := ts.value;
      var newCompSet, found := FilterOut(cs, c);
      if !found {
        return Err(NotOnEntity);
      }
      if |newCompSet| == 0 {
        return Err(LastComponent);
      }
      TypesIncreasing(b0, db, id);
      values := values - {CompKey(c, id)};
      doomed := doomed + {CompKey(c, id)};
      assert Snap() == DropValues(Types(b0, db, id).0, {CompKey(c, id)});
      TableOkOf(Snap(), db);
      MakeArchKeepsArch(Snap(), db, cs);
      ghost var b3 := MakeArch(Snap(), cs);
      TableOkOf(b3, db);
      var fromArchID := GetOrMakeArchID(cs);
      var toArchID := GetOrMakeArchID(newCompSet);
      MakeArchKeepsArch(b3, db, newCompSet);
      MoveKeepsArch(Snap(), db, fromArchID, toArchID, id);
      r := MoveEntityByArchetype(fromArchID, toArchID, id);
    }

    method DiscardPending()
      requires Valid()
      modifies this
      ensures Snap() == Discard(old(Snap()))
      ensures Valid()
    {
      hide ArchOk, Discard;
      DiscardKeepsArch(Snap(), dbStorage.db);
      DiscardFields();
    }

    /** Undo every archetype change: the loop over entityIDToOriginArchID. */
    method ForgetMoves()
      modifies this`archOf
      ensures archOf == old(archOf) - originOf.Keys
    {
      var ids := Keys(originOf.Keys);
      assert archOf - Elems(ids[..0]) == archOf;
      for i := 0 to |ids|
        invariant archOf == old(archOf) - Elems(ids[..i])
      {
        archOf := archOf - {ids[i]};
        assert Elems(ids[..i + 1]) == Elems(ids[..i]) + {ids[i]};
      }
      assert Elems(ids[..|ids|]) == originOf.Keys;
    }

    /** Forget every archetype created since the commit. */
    method ForgetArchetypes()
      modifies this`comps
      ensures comps == old(comps) - (set a | a in pendingArchs)
    {
      assert comps - Elems(pendingArchs[..0]) == comps;
      for i := 0 to |pendingArchs|
        invariant comps == old(comps) - Elems(pendingArchs[..i])
      {
        comps := comps - {pendingArchs[i]};
        assert Elems(pendingArchs[..i + 1]) == Elems(pendingArchs[..i]) + {pendingArchs[i]};
      }
      assert Elems(pendingArchs[..|pendingArchs|]) == set a | a in pendingArchs;
    }

    method DiscardFields()
      modifies this
      ensures Snap() == Discard(old(Snap()))
    {
      values := map[];
      active := map[];
      ForgetMoves();
      originOf := map[];
      idLoaded := false;
      pendingIds := 0;
      ForgetArchetypes();
      pendingArchs := [];
    }

    // -------------------------------------------------------------- FinalizeTick

    /** addComponentChangesToPipe: deletions first, then the cached values. The delete set is emptied on the way,
        also when a value then turns out to have no registered encoder. */
    method AddComponentChanges() returns (pipe: seq<Cmd>, ok: bool, ghost dels: seq<CompKey>, ghost sets: seq<CompKey>)
      requires registry.Some?
      modifies this`doomed
      ensures doomed == {} && (ok <==> Encodable(old(Snap())))
      ensures ok ==> Lists(dels, old(doomed)) && Lists(sets, values.Keys)
      ensures ok ==> pipe == DelCmds(dels) + SetCmds(values, sets)
    {
      var keysToDelete := Keys(doomed);
      pipe := [];
      for i := 0 to |keysToDelete|
        invariant pipe == DelCmds(keysToDelete[..i])
      {
        pipe := pipe + [DelValue(keysToDelete[i])];
        assert keysToDelete[..i + 1][..i] == keysToDelete[..i];
      }
      assert keysToDelete[..|keysToDelete|] == keysToDelete;
      doomed := {};
      var keys := Keys(values.Keys);
      dels, sets := keysToDelete, keys;
      for i := 0 to |keys|
        invariant forall k :: k in keys[..i] ==> k in values && k.comp in registry.value
        invariant pipe == DelCmds(keysToDelete) + SetCmds(values, keys[..i])
      {
        if keys[i].comp !in registry.value {
          return [], false, dels, sets;
        }
        pipe := pipe + [SetValue(keys[i], values[keys[i]])];
        assert keys[..i + 1][..i] == keys[..i];
      }
      assert keys[..|keys|] == keys;
      return pipe, true, dels, sets;
    }

    /** addEntityIDToArchIDToPipe. */
    method AddEntityMoves() returns (pipe: seq<Cmd>)
      ensures exists moved :: Lists(moved, originOf.Keys) && pipe == MoveCmds(archOf, originOf, moved)
    {
      var ids := Keys(originOf.Keys);
      pipe := [];
      for i := 0 to |ids|
        invariant forall e :: e in ids[..i] ==> e in originOf
        invariant pipe == MoveCmds(archOf, originOf, ids[..i])
      {
        var id := ids[i];
        if id !in archOf {
          pipe := pipe + [DelArch(id)];
        } else if Home(archOf[id]) != originOf[id] {
          pipe := pipe + [SetArch(id, archOf[id])];
        }
        assert ids[..i + 1][..i] == ids[..i];
      }
      assert ids[..|ids|] == ids && Lists(ids, originOf.Keys);
    }

    /** addActiveEntityIDsToPipe. */
    method AddActiveLists() returns (pipe: seq<Cmd>)
      ensures exists lists :: Lists(lists, active.Keys) && pipe == ListCmds(active, lists)
    {
      var archIDs := Keys(active.Keys);
      pipe := [];
      for i := 0 to |archIDs|
        invariant forall a :: a in archIDs[..i] ==> a in active
        invariant pipe == ListCmds(active, archIDs[..i])
      {
        var act := active[archIDs[i]];
        if act.modified {
          pipe := pipe + [SetActive(archIDs[i], act.ids)];
        }
        assert archIDs[..i + 1][..i] == archIDs[..i];
      }
      assert archIDs[..|archIDs|] == archIDs && Lists(archIDs, active.Keys);
    }

    /** makePipeOfRedisCommands and the tick increment; `o` are the iteration orders that happened. */
    method MakePipe() returns (pipe: seq<Cmd>, ok: bool, ghost o: Orders)
      requires registry.Some?
      modifies this`doomed
      ensures doomed == {} && (ok <==> Encodable(old(Snap())))
      ensures ok ==> OrdersOf(o, old(Snap())) && pipe == Pipe(old(Snap()), o)
    {
      hide NoDup, DelCmds, SetCmds, MoveCmds, ListCmds, Encodable;
      var changes, encoded, dels, sets := AddComponentChanges();
      if !encoded {
        return [], false, Orders([], [], [], []);
      }
      var moves := AddEntityMoves();
      ghost var moved :| Lists(moved, originOf.Keys) && moves == MoveCmds(archOf, originOf, moved);
      var lists := AddActiveLists();
      ghost var listed :| Lists(listed, active.Keys) && lists == ListCmds(active, listed);
      var header: seq<Cmd> := if pendingIds == 0 then [] else [SetNext(nextSaved + pendingIds)];
      var table: seq<Cmd> := if pendingArchs == [] then [] else [SetTable(comps)];
      return changes + header + table + moves + lists + [IncrTick], true, Orders(dels, sets, moved, listed);
    }

    /** FinalizeTick: storage and buffer are those of `Finalize`, whatever orders the maps were read in. */
    method FinalizeTick() returns (r: Result<(), Error>)
      requires Valid()
      modifies this, dbStorage
      ensures Final(Snap(), dbStorage.db, r) == Finalize(old(Snap()), old(dbStorage.db))
      ensures Valid()
    {
      hide ArchOk, Discard, Committed, Exec, Encodable, Pipe, OrdersOf;
      ghost var b0, db := Snap(), dbStorage.db;
      FinalizeKeepsArch(b0, db);
      if registry.None? {
        return Err(NotRegistered);
      }
      var pipe, ok, o := MakePipe();
      if !ok {
        return Err(UnknownComponent);
      }
      PipeCommits(b0, db, o);
      dbStorage.EndTransaction(pipe);
      pendingArchs := [];
      DiscardFields();
      return Ok(());
    }
  }
}
