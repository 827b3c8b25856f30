/** Archetype and entity ids, over every run of calls, with no condition on how the caller uses the buffer. */
module Allocation {
  import opened Base
  import opened Storage
  import opened Buffer
  import opened Coherence
  import opened Views
  import opened Refinement

  /** Ids in use lie below the counter that the next allocation reads. */
  ghost predicate IdOk(b: Buf, db: Db) {
    && (b.idLoaded ==> b.nextSaved == db.next)
    && (!b.idLoaded ==> b.pendingIds == 0)
    && (forall e :: e in b.archOf ==> e < NextId(b, db))
    && (forall e :: e in b.archOf && e !in b.originOf ==> e in db.archOf)
    && (forall e :: e in db.archOf ==> e < db.next)
  }

  ghost predicate AllocInv(s: Sys) {
    ArchInv(s.buf, s.db) && IdOk(s.buf, s.db)
  }

  /** Nothing the allocators look at has changed, except archetypes of known entities. */
  ghost predicate SameAlloc(b: Buf, b': Buf, db: Db) {
    && b'.comps == b.comps && b'.pendingArchs == b.pendingArchs
    && b'.idLoaded == b.idLoaded && b'.nextSaved == b.nextSaved && b'.pendingIds == b.pendingIds
    && b.originOf.Keys <= b'.originOf.Keys
    && (forall e :: e in b'.archOf ==> e in b.archOf || e in db.archOf)
  }

  lemma SameAllocKeeps(b: Buf, b': Buf, db: Db)
    requires ArchInv(b, db) && IdOk(b, db) && SameAlloc(b, b', db)
    ensures ArchInv(b', db) && IdOk(b', db)
  {
    hide ArchOk;
  }

  lemma TypesSameAlloc(b: Buf, db: Db, e: EntityId)
    ensures SameAlloc(b, Types(b, db, e).0, db)
  {
    LoadSameAlloc(b, db, 0, e);
    hide CacheArch;
  }

  lemma LookupsSameAlloc(b: Buf, db: Db, c: CompId, e: EntityId, v: Value)
    ensures SameAlloc(b, Types(b, db, e).0, db) && SameAlloc(b, Set(b, db, c, e, v).0, db)
    ensures SameAlloc(b, Get(b, db, c, e).0, db)
  {
    TypesSameAlloc(b, db, e);
    hide Types;
  }

  lemma DropSameAlloc(b: Buf, db: Db, a: ArchId, e: EntityId, ks: set<CompKey>)
    requires e in Ids(b, db, a)
    ensures SameAlloc(b, Drop(b, db, a, e), db) && SameAlloc(b, DropValues(Drop(b, db, a, e), ks), db)
  {
    hide SwapRemove;
  }

  lemma LoadSameAlloc(b: Buf, db: Db, a: ArchId, e: EntityId)
    ensures SameAlloc(b, CacheArch(b, db, e), db) && SameAlloc(b, LoadActive(b, db, a), db)
  {
  }

  lemma SameAllocTrans(b: Buf, b1: Buf, b': Buf, db: Db)
    requires SameAlloc(b, b1, db) && SameAlloc(b1, b', db)
    ensures SameAlloc(b, b', db)
  {
  }

  lemma RemoveSameAlloc(b: Buf, db: Db, e: EntityId)
    ensures SameAlloc(b, Remove(b, db, e).0, db)
  {
    hide SameAlloc, Drop, DropValues, LoadActive, CacheArch, Ids, KeysOf;
    var a := LookupArch(b, db, e);
    if a.Some? {
      var b1 := CacheArch(b, db, e);
      LoadSameAlloc(b, db, a.value, e);
      LoadSameAlloc(b1, db, a.value, e);
      if e in Ids(b1, db, a.value) {
        var b2 := Drop(b1, db, a.value, e);
        DropSameAlloc(b1, db, a.value, e, if a.value in b2.comps then KeysOf(b2.comps[a.value], e) else {});
      }
      SameAllocTrans(b, b1, Remove(b, db, e).0, db);
    } else {
      SameAllocSelf(b, db);
    }
  }

  lemma SameAllocSelf(b: Buf, db: Db)
    ensures SameAlloc(b, b, db)
  {
  }

  lemma LookupsKeepAlloc(b: Buf, db: Db, c: CompId, e: EntityId, v: Value)
    requires ArchInv(b, db) && IdOk(b, db)
    ensures ArchInv(Types(b, db, e).0, db) && IdOk(Types(b, db, e).0, db)
    ensures ArchInv(Set(b, db, c, e, v).0, db) && IdOk(Set(b, db, c, e, v).0, db)
    ensures ArchInv(Get(b, db, c, e).0, db) && IdOk(Get(b, db, c, e).0, db)
  {
    hide ArchInv, IdOk, SameAlloc, Types, Set, Get;
    LookupsSameAlloc(b, db, c, e, v);
    SameAllocKeeps(b, Types(b, db, e).0, db);
    SameAllocKeeps(b, Set(b, db, c, e, v).0, db);
    SameAllocKeeps(b, Get(b, db, c, e).0, db);
  }

  lemma RemoveKeepsAlloc(b: Buf, db: Db, e: EntityId)
    requires ArchInv(b, db) && IdOk(b, db)
    ensures ArchInv(Remove(b, db, e).0, db) && IdOk(Remove(b, db, e).0, db)
  {
    hide ArchInv, IdOk, SameAlloc, Remove;
    RemoveSameAlloc(b, db, e);
    SameAllocKeeps(b, Remove(b, db, e).0, db);
  }

  lemma TableOkOf(b: Buf, db: Db)
    requires ArchInv(b, db)
    ensures TableOk(b.comps)
  {
    hide TableOk;
  }

  lemma MoveSameAlloc(b: Buf, db: Db, src: ArchId, dst: ArchId, e: EntityId)
    requires e in b.archOf || e in db.archOf
    ensures SameAlloc(b, Move(b, db, src, dst, e).0, db)
  {
    hide SwapRemove;
  }

  lemma MakeArchKeepsAlloc(b: Buf, db: Db, cs: seq<CompId>)
    requires ArchInv(b, db) && IdOk(b, db) && cs != [] && Increasing(cs)
    ensures ArchInv(MakeArch(b, cs), db) && IdOk(MakeArch(b, cs), db)
    ensures MakeArch(b, cs).archOf == b.archOf
  {
    hide ArchOk, FindArch, Increasing;
    MakeArchKeepsArch(b, db, cs);
  }

  lemma SpawnKeepsAlloc(b: Buf, db: Db, a: ArchId)
    requires ArchInv(b, db) && IdOk(b, db)
    ensures ArchInv(Spawn(b, db, a), db) && IdOk(Spawn(b, db, a), db)
    ensures NextId(Spawn(b, db, a), db) == NextId(b, db) + 1
  {
    hide ArchOk;
  }

  lemma {:induction false} SpawnManyKeepsAlloc(b: Buf, db: Db, a: ArchId, n: nat)
    requires ArchInv(b, db) && IdOk(b, db)
    ensures ArchInv(SpawnMany(b, db, a, n), db) && IdOk(SpawnMany(b, db, a, n), db)
  {
    hide ArchInv, IdOk, Spawn;
    if n > 0 {
      SpawnManyKeepsAlloc(b, db, a, n - 1);
      SpawnKeepsAlloc(SpawnMany(b, db, a, n - 1), db, a);
    }
  }

  lemma CreateKeepsAlloc(b: Buf, db: Db, num: nat, comps: seq<CompId>)
    requires ArchInv(b, db) && IdOk(b, db)
    ensures var (b', r) := Create(b, db, num, comps);
            && ArchInv(b', db) && IdOk(b', db)
            && (r.Ok? ==> forall i :: 0 <= i < |r.value| ==> r.value[i] >= db.next)
  {
    hide ArchOk, Increasing, NoDup, MakeArch, ArchFor, SpawnMany;
    if Normalize(comps).Ok? {
      var cs := Normalize(comps).value;
      MakeArchKeepsAlloc(b, db, cs);
      var b1, b2 := MakeArch(b, cs), OpenArch(b, db, cs);
      assert SameAlloc(b1, b2, db);
      SameAllocKeeps(b1, b2, db);
      SpawnManyKeepsAlloc(b2, db, ArchFor(b, cs), num);
    }
  }

  lemma TypesIncreasing(b: Buf, db: Db, e: EntityId)
    requires ArchInv(b, db)
    ensures var (b', r) := Types(b, db, e);
            r.Ok? ==> r.value != [] && Increasing(r.value) && (e in b'.archOf || e in db.archOf)
  {
    hide Increasing;
  }

  lemma AddKeepsAlloc(b: Buf, db: Db, c: CompId, e: EntityId)
    requires ArchInv(b, db) && IdOk(b, db)
    ensures var b' := AddComp(b, db, c, e).0; ArchInv(b', db) && IdOk(b', db)
  {
    LookupsSameAlloc(b, db, c, e, Zero(c));
    TypesIncreasing(b, db, e);
    hide ArchInv, IdOk, SameAlloc, Types, Increasing, MakeArch, ArchFor, Move;
    var (b1, ts) := Types(b, db, e);
    SameAllocKeeps(b, b1, db);
    if ts.Ok? && c !in ts.value && Normalize(ts.value + [c]).Ok? {
      var to := Normalize(ts.value + [c]).value;
      var b2 := MakeArch(b1, to);
      var b3 := MakeArch(b2, ts.value);
      MakeArchKeepsAlloc(b1, db, to);
      MakeArchKeepsAlloc(b2, db, ts.value);
      MoveSameAlloc(b3, db, ArchFor(b2, ts.value), ArchFor(b1, to), e);
      SameAllocKeeps(b3, AddComp(b, db, c, e).0, db);
    }
  }

  lemma DropKeepsAlloc(b: Buf, db: Db, c: CompId, e: EntityId)
    requires ArchInv(b, db) && IdOk(b, db)
    ensures var b' := RemoveComp(b, db, c, e).0; ArchInv(b', db) && IdOk(b', db)
  {
    LookupsSameAlloc(b, db, c, e, Zero(c));
    TypesIncreasing(b, db, e);
    var (b1, ts) := Types(b, db, e);
    var b2 := DropValues(b1, {CompKey(c, e)});
    assert SameAlloc(b1, b2, db);
    hide ArchInv, IdOk, SameAlloc, Types, Increasing, MakeArch, ArchFor, Move;
    SameAllocKeeps(b, b1, db);
    SameAllocKeeps(b1, b2, db);
    if ts.Ok? && c in ts.value && Without(ts.value, c) != [] {
      var to := Without(ts.value, c);
      var b3 := MakeArch(b2, ts.value);
      var b4 := MakeArch(b3, to);
      MakeArchKeepsAlloc(b2, db, ts.value);
      MakeArchKeepsAlloc(b3, db, to);
      MoveSameAlloc(b4, db, ArchFor(b2, ts.value), ArchFor(b3, to), e);
      SameAllocKeeps(b4, RemoveComp(b, db, c, e).0, db);
    }
  }

  lemma CommitKeepsTable(b: Buf, db: Db)
    requires ArchInv(b, db) && Encodable(b)
    ensures var f := Finalize(b, db);
            && ArchInv(f.buf, f.db)
            && (forall a :: a in Table(db) ==> a in Table(f.db) && Table(f.db)[a] == Table(db)[a])
  {
    hide TableOk, Committed;
    CommittedTable(b, db);
    var f := Finalize(b, db);
    assert f.buf.comps == b.comps && f.buf.pendingArchs == [];
  }

  lemma CommitKeepsIds(b: Buf, db: Db)
    requires IdOk(b, db) && Encodable(b)
    ensures var f := Finalize(b, db); IdOk(f.buf, f.db) && f.db.next >= db.next
  {
    var f := Finalize(b, db);
    assert f.db.next == NextId(b, db);
    hide Committed;
    forall e: EntityId
      ensures e in f.db.archOf ==> e < f.db.next
      ensures e in f.buf.archOf ==> e in f.db.archOf
    { CommittedSource(b, db, e); }
  }

  lemma CommittedSource(b: Buf, db: Db, e: EntityId)
    ensures e in Committed(b, db).archOf ==> e in b.archOf || e in db.archOf
    ensures e in db.archOf && e !in b.originOf ==> e in Committed(b, db).archOf
  {
  }

  lemma MoveKeepsArch(b: Buf, db: Db, src: ArchId, dst: ArchId, e: EntityId)
    requires ArchInv(b, db)
    ensures ArchInv(Move(b, db, src, dst, e).0, db)
  {
    hide ArchOk, SwapRemove;
  }

  lemma {:induction false} SpawnManyKeepsArch(b: Buf, db: Db, a: ArchId, n: nat)
    requires ArchInv(b, db)
    ensures ArchInv(SpawnMany(b, db, a, n), db)
  {
    hide ArchOk;
    if n > 0 { SpawnManyKeepsArch(b, db, a, n - 1); }
  }

  lemma DiscardKeepsArch(b: Buf, db: Db)
    requires ArchInv(b, db)
    ensures ArchInv(Discard(b), db)
  {
    DiscardTable(b, db);
    hide TableOk;
  }

  lemma FinalizeKeepsArch(b: Buf, db: Db)
    requires ArchInv(b, db)
    ensures ArchInv(Finalize(b, db).buf, Finalize(b, db).db)
  {
    hide ArchOk, Discard, Committed;
    if Encodable(b) { CommitKeepsTable(b, db); }
  }

  lemma DiscardKeepsAlloc(b: Buf, db: Db)
    requires ArchInv(b, db) && IdOk(b, db)
    ensures ArchInv(Discard(b), db) && IdOk(Discard(b), db)
  {
    DiscardTable(b, db);
    hide TableOk;
  }

  lemma RestartKeepsAlloc(s: Sys, reg: set<CompId>)
    requires AllocInv(s) && Register(NewBuf, s.db, reg).1 == Ok(())
    ensures AllocInv(Sys(Register(NewBuf, s.db, reg).0, s.db))
  {
    hide TableOk;
  }

  // ---------------------------------------------------------------- every step, every run

  /** Committed archetypes keep their ids and component sets; the stored counter never goes back. */
  ghost predicate StorageGrows(db: Db, db': Db) {
    && db.next <= db'.next
    && forall a :: a in Table(db) ==> a in Table(db') && Table(db')[a] == Table(db)[a]
  }

  ghost predicate FreshIds(a: Answer, db: Db) {
    a.NewIds? ==> forall i :: 0 <= i < |a.ids| ==> a.ids[i] >= db.next
  }

  lemma StepKeepsAlloc(s: Sys, reg: set<CompId>, call: Call)
    requires AllocInv(s) && (call.DoRestart? ==> Step(s, reg, call).1 == Done)
    ensures var (s', a) := Step(s, reg, call); AllocInv(s') && StorageGrows(s.db, s'.db) && FreshIds(a, s.db)
  {
    hide ArchInv, IdOk, SameAlloc, Create, Types, Set, Get, Remove, AddComp, RemoveComp, Discard, Table;
    match call
    case DoCreate(num, comps) => CreateKeepsAlloc(s.buf, s.db, num, comps);
    case DoRemove(e) => RemoveKeepsAlloc(s.buf, s.db, e);
    case DoTypes(e) => LookupsKeepAlloc(s.buf, s.db, 0, e, Zero(0));
    case DoSet(c, e, v) => LookupsKeepAlloc(s.buf, s.db, c, e, v);
    case DoGet(c, e) => LookupsKeepAlloc(s.buf, s.db, c, e, Zero(c));
    case DoAdd(c, e) => AddKeepsAlloc(s.buf, s.db, c, e);
    case DoDrop(c, e) => DropKeepsAlloc(s.buf, s.db, c, e);
    case DoFinalize => FinalizeKeepsAlloc(s);
    case DoDiscard => DiscardKeepsAlloc(s.buf, s.db);
    case DoRestart => RestartKeepsAlloc(s, reg);
  }

  lemma FinalizeKeepsAlloc(s: Sys)
    requires AllocInv(s)
    ensures var f := Finalize(s.buf, s.db); AllocInv(Sys(f.buf, f.db)) && StorageGrows(s.db, f.db)
  {
    hide ArchOk, Discard, Committed;
    if Encodable(s.buf) {
      hide IdOk;
      CommitKeepsTable(s.buf, s.db);
      CommitKeepsIds(s.buf, s.db);
    }
  }

  /** A first start satisfies the invariant. */
  lemma FirstAlloc(reg: set<CompId>)
    ensures AllocInv(Sys(Register(NewBuf, EmptyDb, reg).0, EmptyDb))
  {
  }

  /** A run as the states it goes through; every restart in it finds its saved components registered. */
  ghost predicate Trace(ss: seq<Sys>, reg: set<CompId>, calls: seq<Call>) {
    && |ss| == |calls| + 1
    && forall i :: 0 <= i < |calls| ==>
         && ss[i + 1] == Step(ss[i], reg, calls[i]).0
         && (calls[i].DoRestart? ==> Step(ss[i], reg, calls[i]).1 == Done)
  }

  lemma {:induction false} TraceKeepsAlloc(ss: seq<Sys>, reg: set<CompId>, calls: seq<Call>, i: nat, j: nat)
    requires Trace(ss, reg, calls) && AllocInv(ss[0]) && i <= j < |ss|
    ensures AllocInv(ss[i]) && AllocInv(ss[j]) && StorageGrows(ss[i].db, ss[j].db)
    decreases j
  {
    hide AllocInv, Step, Table;
    if j > 0 {
      TraceKeepsAlloc(ss, reg, calls, if i < j then i else j - 1, j - 1);
      StepKeepsAlloc(ss[j - 1], reg, calls[j - 1]);
      assert ss[j] == Step(ss[j - 1], reg, calls[j - 1]).0;
    }
  }

  /** Whatever the caller does: archetype ids stay 0..n-1 with different, sorted, non-empty component sets, in the
      buffer and in storage, and an id that was ever committed is not handed out again. */
  lemma IdsNeverReassigned(ss: seq<Sys>, reg: set<CompId>, calls: seq<Call>, i: nat, j: nat, e: EntityId)
    requires Trace(ss, reg, calls) && AllocInv(ss[0]) && i <= j < |calls|
    ensures TableOk(ss[j].buf.comps) && TableOk(Table(ss[j].db))
    ensures e in ss[i].db.archOf ==>
              var a := Step(ss[j], reg, calls[j]).1; a.NewIds? ==> e !in a.ids
  {
    TraceKeepsAlloc(ss, reg, calls, i, j);
    StepKeepsAlloc(ss[j], reg, calls[j]);
    hide Step, TableOk, Table;
  }
}
