/** The read-only manager of cardinal/gamestate/read_only.go: what a query sees while changes are pending. */
module ReadOnly {
  import opened Base
  import opened Storage
  import opened Buffer
  import opened Coherence
  import opened Views
  import opened Calls
  import opened Refinement
  import opened Allocation
  import opened CommandBuffer

  datatype ReadError = NotStored | NoTable | Mismatch | UnknownArchetype

  /** A reader starts with the buffer's own archetype table, by reference, and keeps a private copy of the stored
      one once it has had to refresh. */
  datatype Reader = Reader(own: Option<ArchTable>)

  function Seen(r: Reader, b: Buf): ArchTable {
    if r.own.Some? then r.own.value else b.comps
  }

  /** A private copy is some earlier stored table. */
  ghost predicate ReaderOk(r: Reader, db: Db) {
    r.own.Some? ==> forall a :: a in r.own.value ==> a in Table(db) && r.own.value[a] == Table(db)[a]
  }

  ghost function Refresh(r: Reader, db: Db, reg: set<CompId>): (Reader, Result<(), ReadError>) {
    if db.table.None? then (r, Err(NoTable))
    else if !AllIn(Table(db), reg) then (r, Err(Mismatch))
    else (Reader(Some(Table(db))), Ok(()))
  }

  ghost function RoComps(r: Reader, b: Buf, db: Db, reg: set<CompId>, a: ArchId)
      : (Reader, Result<seq<CompId>, ReadError>) {
    if a in Seen(r, b) then (r, Ok(Seen(r, b)[a]))
    else
      var (r', res) := Refresh(r, db, reg);
      if res.Err? then (r', Err(res.error))
      else if a in Table(db) then (r', Ok(Table(db)[a]))
      else (r', Err(UnknownArchetype))
  }

  ghost function RoTypes(r: Reader, b: Buf, db: Db, reg: set<CompId>, e: EntityId)
      : (Reader, Result<seq<CompId>, ReadError>) {
    if e !in db.archOf then (r, Err(NotStored)) else RoComps(r, b, db, reg, db.archOf[e])
  }

  function RoValue(db: Db, k: CompKey): Result<Value, ReadError> {
    if k in db.values then Ok(db.values[k]) else Err(NotStored)
  }

  function RoEntities(db: Db, a: ArchId): Result<seq<EntityId>, ReadError> {
    if a in db.active then Ok(db.active[a]) else Err(NotStored)
  }

  /** Archetypes from `start` on whose component set satisfies the filter, in order. */
  function Matching(t: ArchTable, filter: seq<CompId> -> bool, start: nat, end: nat): (r: seq<ArchId>)
    requires start <= end && forall a :: start <= a < end ==> a in t
    ensures Increasing(r) && forall a :: a in r <==> start <= a < end && filter(t[a])
    decreases end
  {
    if start == end then []
    else
      var rest := Matching(t, filter, start, end - 1);
      assert forall i :: 0 <= i < |rest| ==> rest[i] in rest;
      if filter(t[end - 1]) then rest + [end - 1] else rest
  }

  /** While any changes are pending, a reader's view of an entity's component types is that of storage alone. */
  lemma TypesIsolated(r: Reader, b: Buf, db: Db, reg: set<CompId>, e: EntityId)
    requires Inv(b, db) && ReaderOk(r, db) && AllIn(b.comps, reg)
    ensures var (r', res) := RoTypes(r, b, db, reg, e);
            && ReaderOk(r', db)
            && (e !in Saved(db).ents ==> res == Err(NotStored))
            && (e in Saved(db).ents ==> res.Ok? && Elems(res.value) == Saved(db).ents[e].Keys)
  {
    hide DbInv, ArchOk, LocInv, IdxInv, ValInv, Touched, Saved, AllIn;
    SavedAt(db, e);
    StoredRegistered(b, db, reg);
    if e in db.archOf {
      StoredInTable(b, db, e);
      SavedTypes(db, e);
    }
  }

  lemma StoredInTable(b: Buf, db: Db, e: EntityId)
    requires DbInv(db) && ArchInv(b, db) && e in db.archOf
    ensures var a := db.archOf[e]; a in Table(db) && a in b.comps && b.comps[a] == Table(db)[a] && db.table.Some?
  {
    hide TableOk, NoDup;
  }

  lemma SavedTypes(db: Db, e: EntityId)
    requires DbInv(db) && e in db.archOf
    ensures e in Saved(db).ents && Elems(Table(db)[db.archOf[e]]) == Saved(db).ents[e].Keys
  {
    hide TableOk, NoDup, ValueOf;
    EntsAt(Loaded(db), db, e);
    hide Ents;
  }

  /** A reader finds a value exactly when one is stored, and then it is the committed one. */
  lemma ValueIsolated(db: Db, k: CompKey)
    requires DbInv(db)
    ensures RoValue(db, k).Ok? ==>
              && k.entity in Saved(db).ents && k.comp in Saved(db).ents[k.entity]
              && RoValue(db, k).value == Saved(db).ents[k.entity][k.comp]
    ensures RoValue(db, k).Err? && k.entity in Saved(db).ents && k.comp in Saved(db).ents[k.entity] ==>
              Saved(db).ents[k.entity][k.comp] == Zero(k.comp)
  {
    var b := Loaded(db);
    if k in db.values { assert Live(b, db, k) by { hide TableOk, NoDup; } }
    hide DbInv;
    LiveIsOn(b, db, k);
    if Live(b, db, k) { ValueAt(b, db, k); }
    hide View, Live;
  }

  /** Every committed archetype, and no other, has a committed list: the committed entities with exactly its components,
      each once. */
  lemma EntitiesIsolated(db: Db, a: ArchId)
    requires DbInv(db)
    ensures RoEntities(db, a).Ok? <==> a in Table(db)
    ensures a in Table(db) ==>
              && NoDup(RoEntities(db, a).value)
              && forall e :: e in RoEntities(db, a).value <==>
                   e in Saved(db).ents && Saved(db).ents[e].Keys == Elems(Table(db)[a])
  {
    hide TableOk, NoDup, Saved;
    if a in Table(db) {
      forall e ensures e in RoEntities(db, a).value <==>
                       e in Saved(db).ents && Saved(db).ents[e].Keys == Elems(Table(db)[a])
      {
        SavedAt(db, e);
        if e in db.archOf {
          SavedTypes(db, e);
          SameSetSameArch(Table(db), a, db.archOf[e]);
        }
      }
    }
  }

  lemma SameSetSameArch(t: ArchTable, a: ArchId, b: ArchId)
    requires TableOk(t) && a in t && b in t
    ensures Elems(t[a]) == Elems(t[b]) <==> a == b
  {
    if Elems(t[a]) == Elems(t[b]) {
      hide Increasing;
      forall c ensures c in t[a] <==> c in t[b] {
        assert c in Elems(t[a]) <==> c in t[a];
        assert c in Elems(t[b]) <==> c in t[b];
      }
      IncreasingUnique(t[a], t[b]);
    }
  }

  // ---------------------------------------------------------------- isolation over runs

  /** Over every allowed run from an empty store: whatever is pending, a reader made at any time returns the components,
      values and entities of the committed world. */
  lemma ReadersSeeCommitted(reg: set<CompId>, calls: seq<Call>, k: CompKey, a: ArchId)
    requires RunAllowed(Blank, reg, calls)
    ensures var s := Run(Sys(Register(NewBuf, EmptyDb, reg).0, EmptyDb), reg, calls).0;
            var saved, e := PlainRun(Blank, calls).0.saved, k.entity;
            var types := RoTypes(Reader(None), s.buf, s.db, reg, e).1;
            && (e !in saved.ents ==> types == Err(NotStored))
            && (e in saved.ents ==> types.Ok? && Elems(types.value) == saved.ents[e].Keys)
            && (RoValue(s.db, k).Ok? ==> On(saved, k) && RoValue(s.db, k).value == saved.ents[e][k.comp])
            && (RoValue(s.db, k).Err? && On(saved, k) ==> saved.ents[e][k.comp] == Zero(k.comp))
            && (RoEntities(s.db, a).Ok? <==> a in Table(s.db))
            && (a in Table(s.db) ==> forall x :: x in RoEntities(s.db, a).value <==>
                  x in saved.ents && saved.ents[x].Keys == Elems(Table(s.db)[a]))
  {
    hide Run, PlainRun, RunAllowed, Inv, View, Saved, AllIn, DbInv, RoTypes, RoEntities, Table, Persisted;
    EmptyRefines(reg);
    var s0 := Sys(Register(NewBuf, EmptyDb, reg).0, EmptyDb);
    RunRefines(s0, Blank, reg, calls);
    var s := Run(s0, reg, calls).0;
    ReadersSee(s.buf, s.db, reg, k, a);
  }

  lemma ReadersSee(b: Buf, db: Db, reg: set<CompId>, k: CompKey, a: ArchId)
    requires Inv(b, db) && AllIn(b.comps, reg)
    ensures DbInv(db)
    ensures var types := RoTypes(Reader(None), b, db, reg, k.entity).1; var saved := Saved(db);
            && (k.entity !in saved.ents ==> types == Err(NotStored))
            && (k.entity in saved.ents ==> types.Ok? && Elems(types.value) == saved.ents[k.entity].Keys)
            && (RoValue(db, k).Ok? ==> On(saved, k) && RoValue(db, k).value == saved.ents[k.entity][k.comp])
            && (RoValue(db, k).Err? && On(saved, k) ==> saved.ents[k.entity][k.comp] == Zero(k.comp))
            && (RoEntities(db, a).Ok? <==> a in Table(db))
            && (a in Table(db) ==> forall x :: x in RoEntities(db, a).value <==>
                  x in saved.ents && saved.ents[x].Keys == Elems(Table(db)[a]))
  {
    hide ArchInv, LocInv, IdxInv, ValInv, Touched, DbInv, Saved, AllIn, RoTypes, RoEntities;
    TypesIsolated(Reader(None), b, db, reg, k.entity);
    ValueIsolated(db, k);
    EntitiesIsolated(db, a);
  }

  /** Two states of which a reader cannot tell the difference. */
  ghost predicate SameReads(r: Reader, s: Sys, s': Sys, reg: set<CompId>) {
    && (forall e :: RoTypes(r, s.buf, s.db, reg, e).1 == RoTypes(r, s'.buf, s'.db, reg, e).1)
    && (forall k :: RoValue(s.db, k) == RoValue(s'.db, k))
    && (forall a :: RoEntities(s.db, a) == RoEntities(s'.db, a))
    && Table(s.db) == Table(s'.db)
  }

  lemma {:induction false} NoCommitSameDb(ss: seq<Sys>, reg: set<CompId>, calls: seq<Call>, i: nat)
    requires Trace(ss, reg, calls) && DoFinalize !in calls && i < |ss|
    ensures ss[i].db == ss[0].db
  {
    hide Create, Remove, Types, Set, Get, AddComp, RemoveComp, Discard, Register, Finalize;
    if i > 0 {
      NoCommitSameDb(ss, reg, calls, i - 1);
      assert calls[i - 1] in calls;
    }
  }

  /** Along any run without a commit, allowed or not, every answer a reader gives stays what it was. */
  lemma ReadsFixed(ss: seq<Sys>, reg: set<CompId>, calls: seq<Call>, r: Reader, i: nat)
    requires Trace(ss, reg, calls) && AllocInv(ss[0]) && DbInv(ss[0].db) && ReaderOk(r, ss[0].db)
    requires DoFinalize !in calls && i < |ss|
    ensures SameReads(r, ss[0], ss[i], reg)
  {
    hide Trace, DbInv, IdOk, ArchOk, RoTypes;
    NoCommitSameDb(ss, reg, calls, i);
    TraceKeepsAlloc(ss, reg, calls, 0, i);
    forall e ensures RoTypes(r, ss[0].buf, ss[0].db, reg, e).1 == RoTypes(r, ss[i].buf, ss[i].db, reg, e).1 {
      TypesFromStorage(r, ss[0].buf, ss[0].db, reg, e);
      TypesFromStorage(r, ss[i].buf, ss[i].db, reg, e);
    }
  }

  /** What a reader says of an entity's components is decided by storage and by its own table. */
  lemma TypesFromStorage(r: Reader, b: Buf, db: Db, reg: set<CompId>, e: EntityId)
    requires DbInv(db) && ArchInv(b, db) && ReaderOk(r, db)
    ensures RoTypes(r, b, db, reg, e).1 == RoTypes(r, Loaded(db), db, reg, e).1
  {
    hide DbInv, ArchInv, AllIn;
    if e in db.archOf { StoredInTable(b, db, e); }
  }

  /** A reader's private table stays good through commits, discards and restarts. */
  lemma ReaderStaysOk(ss: seq<Sys>, reg: set<CompId>, calls: seq<Call>, r: Reader, i: nat, j: nat)
    requires Trace(ss, reg, calls) && AllocInv(ss[0]) && i <= j < |ss| && ReaderOk(r, ss[i].db)
    ensures ReaderOk(r, ss[j].db)
  {
    hide Trace, AllocInv, Table;
    TraceKeepsAlloc(ss, reg, calls, i, j);
  }

  // ---------------------------------------------------------------- two reads that leak

  /** GetArchIDForComponents looks in the shared table first. */
  ghost function RoArchId(r: Reader, b: Buf, db: Db, reg: set<CompId>, cs: seq<CompId>): Result<ArchId, ReadError> {
    var first := FindArch(Seen(r, b), cs);
    if first.Some? then Ok(first.value)
    else
      var (r', res) := Refresh(r, db, reg);
      if res.Err? then Err(res.error)
      else
        var second := FindArch(Table(db), cs);
        if second.Some? then Ok(second.value) else Err(UnknownArchetype)
  }

  /** A fresh reader answers with an archetype that is not committed exactly when the component set belongs to a pending
      archetype. */
  lemma ArchIdLeaks(b: Buf, db: Db, reg: set<CompId>, cs: seq<CompId>)
    requires ArchInv(b, db)
    ensures var res := RoArchId(Reader(None), b, db, reg, cs);
            res.Ok? && res.value !in Table(db) <==> exists a :: a in b.pendingArchs && b.comps[a] == cs
  {
    hide Increasing;
    PendingInTable(b, db);
    var f := FindArch(b.comps, cs);
    if exists a :: a in b.pendingArchs && b.comps[a] == cs {
      var a :| a in b.pendingArchs && b.comps[a] == cs;
      assert f == Some(a);
    }
    if f.Some? && f.value !in Table(db) {
      assert b.pendingArchs[f.value - |Table(db)|] == f.value;
    }
  }

  /** GetComponentTypesForArchID leaks in the same way: a fresh reader gives the components of an archetype that is not
      committed exactly when it is pending. */
  lemma ArchCompsLeak(b: Buf, db: Db, reg: set<CompId>, a: ArchId)
    requires ArchInv(b, db)
    ensures RoComps(Reader(None), b, db, reg, a).1.Ok? && a !in Table(db) <==> a in b.pendingArchs
  {
    hide Increasing;
    PendingInTable(b, db);
    if a in b.comps && a !in Table(db) { assert b.pendingArchs[a - |Table(db)|] == a; }
  }

  /** What a fresh reader says of an archetype it cannot give: nothing is stored yet, or what is stored uses a component
      it does not know, or there is no such archetype. */
  lemma ArchCompsExact(b: Buf, db: Db, reg: set<CompId>, a: ArchId)
    requires ArchInv(b, db)
    ensures var res := RoComps(Reader(None), b, db, reg, a).1;
            && (a in b.comps ==> res == Ok(b.comps[a]))
            && (a !in b.comps && db.table.None? ==> res == Err(NoTable))
            && (a !in b.comps && db.table.Some? && (exists x, c :: x in Table(db) && c in Table(db)[x] && c !in reg) ==>
                  res == Err(Mismatch))
            && (a !in b.comps && db.table.Some? && (forall x, c :: x in Table(db) && c in Table(db)[x] ==> c in reg) ==>
                  res == Err(UnknownArchetype))
  {
    hide Increasing;
    if exists x, c :: x in Table(db) && c in Table(db)[x] && c !in reg {
      var x, c :| x in Table(db) && c in Table(db)[x] && c !in reg;
      assert Uses(Table(db), c);
    }
  }

  /** Both happen: one creation on an empty store, and a reader sees its archetype before any commit. */
  lemma LeakReached(reg: set<CompId>, c: CompId)
    ensures var s := Step(Sys(Register(NewBuf, EmptyDb, reg).0, EmptyDb), reg, DoCreate(1, [c])).0;
            && Table(s.db) == map[] && RoArchId(Reader(None), s.buf, s.db, reg, [c]) == Ok(0)
            && RoComps(Reader(None), s.buf, s.db, reg, 0).1 == Ok([c])
  {
    hide Create;
    CreateFirst(Register(NewBuf, EmptyDb, reg).0, EmptyDb, 1, c);
    var s := Step(Sys(Register(NewBuf, EmptyDb, reg).0, EmptyDb), reg, DoCreate(1, [c])).0;
    assert s.buf.comps[0] == [c];
    assert FindArch(s.buf.comps, [c]) == Some(0);
  }

  lemma PendingInTable(b: Buf, db: Db)
    requires ArchInv(b, db)
    ensures forall a :: a in b.pendingArchs ==> a in b.comps && a !in Table(db)
  {
    hide Increasing;
  }

  /** ArchetypeIterator from `start`, and the loop over it. */
  method Scan(t: ArchTable, filter: seq<CompId> -> bool, start: nat) returns (r: seq<ArchId>)
    requires TableOk(t)
    ensures r == if start > |t| then [] else Matching(t, filter, start, |t|)
  {
    hide Increasing;
    r := [];
    var i := start;
    while i < |t|
      invariant start <= i && (i <= |t| || i == start)
      invariant i <= |t| ==> r == Matching(t, filter, start, i)
      invariant i > |t| ==> r == []
    {
      if filter(t[i]) {
        r := r + [i];
      }
      i := i + 1;
    }
  }

  /** The reader as an object: it holds on to the buffer it was made from until it refreshes. */
  class ReadOnlyManager {
    const buf: EntityCommandBuffer
    const reg: set<CompId>
    var own: Option<ArchTable>

    constructor (buf: EntityCommandBuffer, reg: set<CompId>)
      ensures this.buf == buf && this.reg == reg && own == None
    {
      this.buf, this.reg, own := buf, reg, None;
    }

    method RefreshTable() returns (r: Result<(), ReadError>)
      modifies this
      ensures (Reader(own), r) == Refresh(Reader(old(own)), buf.dbStorage.db, reg)
    {
      if buf.dbStorage.db.table.None? {
        return Err(NoTable);
      }
      var table := buf.dbStorage.db.table.value;
      var archIDs := Keys(table.Keys);
      for i := 0 to |archIDs|
        invariant forall a, c :: a in archIDs[..i] && c in table[a] ==> c in reg
      {
        var types := table[archIDs[i]];
        for j := 0 to |types|
          invariant forall c :: c in types[..j] ==> c in reg
        {
          if types[j] !in reg {
            assert Uses(table, types[j]);
            return Err(Mismatch);
          }
        }
        assert types[..|types|] == types;
      }
      assert archIDs[..|archIDs|] == archIDs;
      own := Some(table);
      return Ok(());
    }

    /** SearchFrom: refresh, then scan the committed archetypes in id order. */
    method SearchFrom(filter: seq<CompId> -> bool, start: nat) returns (r: seq<ArchId>)
      requires TableOk(Table(buf.dbStorage.db))
      modifies this
      ensures var t := Table(buf.dbStorage.db);
              if buf.dbStorage.db.table.None? || !AllIn(t, reg) || start > |t| then r == []
              else r == Matching(t, filter, start, |t|)
    {
      hide AllIn, TableOk;
      r := [];
      var refreshed := RefreshTable();
      if refreshed.Err? {
        return;
      }
      r := Scan(own.value, filter, start);
    }
  }
}
