/** The invariant that ties the command buffer's fields to each other and to storage, and the proof that
    every building block of the buffer's calls keeps it. */
module Coherence {
  import opened Base
  import opened Storage
  import opened Buffer

  /** The archetype an entity is in, with pending moves and removals taken into account. */
  ghost function Cur(b: Buf, db: Db, e: EntityId): Option<ArchId> {
    Whereabouts(b.archOf, b.originOf, db.archOf, e)
  }

  ghost function Whereabouts(archOf: map<EntityId, ArchId>, originOf: map<EntityId, Origin>,
                             stored: map<EntityId, ArchId>, e: EntityId): Option<ArchId> {
    if e in archOf then Some(archOf[e])
    else if e in originOf || e !in stored then None
    else Some(stored[e])
  }

  /** A committed entity that was removed since the last commit. */
  ghost predicate Gone(b: Buf, db: Db, e: EntityId) {
    e in db.archOf && e in b.originOf && e !in b.archOf
  }

  ghost predicate Live(b: Buf, db: Db, k: CompKey) {
    var a := Cur(b, db, k.entity);
    a.Some? && a.value in b.comps && k.comp in b.comps[a.value]
  }

  /** The archetype table extends the stored one by exactly the pending ids. */
  ghost predicate ArchOk(stored: ArchTable, comps: ArchTable, pending: seq<ArchId>) {
    && TableOk(stored) && TableOk(comps)
    && |stored| <= |comps|
    && (forall a :: a in stored ==> a in comps && comps[a] == stored[a])
    && |pending| == |comps| - |stored|
    && (forall i :: 0 <= i < |pending| ==> pending[i] == |stored| + i)
  }

  ghost predicate ArchInv(b: Buf, db: Db) {
    ArchOk(Table(db), b.comps, b.pendingArchs)
  }

  /** Cached archetypes and origins agree with storage; entities created since the commit have fresh ids. */
  ghost predicate LocOk(archOf: map<EntityId, ArchId>, originOf: map<EntityId, Origin>, next: nat, db: Db) {
    && (forall e :: e in archOf && e !in originOf ==> e in db.archOf && db.archOf[e] == archOf[e])
    && (forall e :: e in originOf && originOf[e].Unborn? ==> e !in db.archOf && db.next <= e < next)
    && (forall e :: e in originOf && originOf[e].Home? ==> e in db.archOf && db.archOf[e] == originOf[e].arch)
  }

  ghost predicate LocInv(b: Buf, db: Db) {
    && (b.idLoaded ==> b.nextSaved == db.next)
    && (!b.idLoaded ==> b.pendingIds == 0)
    && LocOk(b.archOf, b.originOf, NextId(b, db), db)
  }

  /** The two indexes are inverse to each other: an id is in an archetype's list iff that is its archetype,
      and then it is there once. Lists that were only read still equal the stored ones. */
  ghost predicate IdxInv(b: Buf, db: Db) {
    && (forall a :: a in b.active ==> a in b.comps)
    && (forall a :: a in b.active && !b.active[a].modified ==> b.active[a].ids == Members(db, a))
    && (forall a :: a in b.comps ==> NoDup(Ids(b, db, a)))
    && (forall a, e :: a in b.comps && e in Ids(b, db, a) ==> Cur(b, db, e) == Some(a))
    && (forall e :: Cur(b, db, e).Some? ==>
          Cur(b, db, e).value in b.comps && e in Ids(b, db, Cur(b, db, e).value))
  }

  /** Cached values belong to live components; stored values of dead ones are marked for deletion. */
  ghost predicate ValInv(b: Buf, db: Db) {
    && (forall k :: k in b.values ==> Live(b, db, k))
    && (forall k :: k in db.values ==> Live(b, db, k) || k in b.doomed)
  }

  /** Every archetype created since the last commit has a list that the commit will write. */
  ghost predicate Touched(b: Buf) {
    forall a :: a in b.pendingArchs ==> a in b.active && b.active[a].modified
  }

  ghost predicate Inv(b: Buf, db: Db) {
    DbInv(db) && ArchInv(b, db) && LocInv(b, db) && IdxInv(b, db) && ValInv(b, db) && Touched(b)
  }

  // ---------------------------------------------------------------- frames

  ghost predicate SameCur(b: Buf, b': Buf, db: Db) {
    forall x :: Cur(b', db, x) == Cur(b, db, x)
  }

  /** `b'` has every archetype of `b`, with the same component set. */
  ghost predicate TableGrows(b: Buf, b': Buf) {
    forall a :: a in b.comps ==> a in b'.comps && b'.comps[a] == b.comps[a]
  }

  lemma IdxFrame(b: Buf, b': Buf, db: Db)
    requires IdxInv(b, db) && SameCur(b, b', db) && b'.comps == b.comps && b'.active == b.active
    ensures IdxInv(b', db)
  {
    hide Cur, NoDup;
    assert forall a :: Ids(b', db, a) == Ids(b, db, a);
  }

  lemma LiveFrame(b: Buf, b': Buf, db: Db, k: CompKey)
    requires Live(b, db, k) && Cur(b', db, k.entity) == Cur(b, db, k.entity) && TableGrows(b, b')
    ensures Live(b', db, k)
  {
    hide Cur;
  }

  lemma ValFrame(b: Buf, b': Buf, db: Db)
    requires ValInv(b, db) && b'.values == b.values && b'.doomed == b.doomed
    requires forall x :: Cur(b, db, x).Some? ==> Cur(b', db, x) == Cur(b, db, x)
    requires TableGrows(b, b')
    ensures ValInv(b', db)
  {
    hide Cur;
    forall k | Live(b, db, k) ensures Live(b', db, k) { LiveFrame(b, b', db, k); }
  }

  // ---------------------------------------------------------------- lazy loads change nothing

  lemma LookupIsCur(b: Buf, db: Db, e: EntityId)
    ensures LookupArch(b, db, e) == Cur(b, db, e) <==> !Gone(b, db, e)
  {
  }

  lemma CacheArchKeepsLoc(b: Buf, db: Db, e: EntityId)
    requires LocInv(b, db) && !Gone(b, db, e)
    ensures LocInv(CacheArch(b, db, e), db)
    ensures SameCur(b, CacheArch(b, db, e), db)
    ensures forall x :: Gone(CacheArch(b, db, e), db, x) == Gone(b, db, x)
  {
  }

  lemma CacheArchKeeps(b: Buf, db: Db, e: EntityId)
    requires Inv(b, db) && !Gone(b, db, e)
    ensures Inv(CacheArch(b, db, e), db)
    ensures SameCur(b, CacheArch(b, db, e), db)
    ensures forall x :: Gone(CacheArch(b, db, e), db, x) == Gone(b, db, x)
  {
    hide DbInv, ArchOk, LocInv, IdxInv, ValInv, Cur, Gone;
    CacheArchKeepsLoc(b, db, e);
    IdxFrame(b, CacheArch(b, db, e), db);
    ValFrame(b, CacheArch(b, db, e), db);
  }

  lemma LoadActiveKeepsIdx(b: Buf, db: Db, a: ArchId)
    requires IdxInv(b, db) && a in b.comps
    ensures IdxInv(LoadActive(b, db, a), db)
  {
    hide NoDup, Whereabouts;
    var b' := LoadActive(b, db, a);
    assert SameCur(b, b', db);
    assert forall x :: Ids(b', db, x) == Ids(b, db, x);
  }

  lemma LoadActiveKeeps(b: Buf, db: Db, a: ArchId)
    requires Inv(b, db) && a in b.comps
    ensures Inv(LoadActive(b, db, a), db)
    ensures SameCur(b, LoadActive(b, db, a), db)
  {
    hide DbInv, ArchOk, LocOk, IdxInv, ValInv, Whereabouts;
    LoadActiveKeepsIdx(b, db, a);
    ValFrame(b, LoadActive(b, db, a), db);
  }

  // ---------------------------------------------------------------- archetype creation

  lemma TableExtends(t: ArchTable, cs: seq<CompId>)
    requires TableOk(t) && cs != [] && Increasing(cs) && forall a :: a in t ==> t[a] != cs
    ensures |t| !in t && TableOk(t[|t| := cs]) && |t[|t| := cs]| == |t| + 1
  {
    hide Increasing;
    var n, t' := |t|, t[|t| := cs];
    assert n !in t;
    assert t'.Keys == t.Keys + {n};
    assert forall a :: a in t' <==> 0 <= a < n + 1;
    assert forall a :: a in t ==> t'[a] == t[a];
  }

  lemma PendingExtends(stored: ArchTable, comps: ArchTable, pending: seq<ArchId>, cs: seq<CompId>)
    requires ArchOk(stored, comps, pending)
    requires |comps| !in comps && TableOk(comps[|comps| := cs]) && |comps[|comps| := cs]| == |comps| + 1
    ensures ArchOk(stored, comps[|comps| := cs], pending + [|comps|])
  {
    hide TableOk;
  }

  lemma MakeArchKeepsArch(b: Buf, db: Db, cs: seq<CompId>)
    requires ArchInv(b, db) && cs != [] && Increasing(cs)
    ensures ArchInv(MakeArch(b, cs), db)
    ensures ArchFor(b, cs) in MakeArch(b, cs).comps && MakeArch(b, cs).comps[ArchFor(b, cs)] == cs
    ensures TableGrows(b, MakeArch(b, cs))
  {
    hide TableOk, Increasing;
    if FindArch(b.comps, cs).None? {
      TableExtends(b.comps, cs);
      PendingExtends(Table(db), b.comps, b.pendingArchs, cs);
    }
  }

  /** A new archetype has no members yet. */
  lemma NewArchUnused(b: Buf, db: Db)
    requires DbInv(db) && ArchInv(b, db) && LocInv(b, db) && IdxInv(b, db)
    ensures |b.comps| !in b.comps && |b.comps| !in b.active && |b.comps| !in db.active
  {
    hide Increasing, Cur, NoDup, LocOk;
  }

  lemma MakeArchKeepsIdx(b: Buf, db: Db, cs: seq<CompId>)
    requires IdxInv(b, db)
    requires |b.comps| !in b.comps && |b.comps| !in b.active && |b.comps| !in db.active
    ensures IdxInv(MakeArch(b, cs), db)
    ensures SameCur(b, MakeArch(b, cs), db)
  {
    hide IdxInv, Whereabouts, FindArch;
    if FindArch(b.comps, cs).None? {
      IdxGrows(b, MakeArch(b, cs), db, |b.comps|);
    }
  }

  lemma IdxGrows(b: Buf, b': Buf, db: Db, a: ArchId)
    requires IdxInv(b, db) && SameCur(b, b', db) && a !in b.comps && Ids(b, db, a) == []
    requires b'.active == b.active && b'.comps.Keys == b.comps.Keys + {a}
    ensures IdxInv(b', db)
  {
    hide Cur;
    assert forall x :: Ids(b', db, x) == Ids(b, db, x);
    assert forall x :: x in b'.comps <==> x in b.comps || x == a;
  }

  lemma MakeArchKeeps(b: Buf, db: Db, cs: seq<CompId>)
    requires DbInv(db) && ArchInv(b, db) && LocInv(b, db) && IdxInv(b, db)
    requires cs != [] && Increasing(cs)
    ensures var b' := MakeArch(b, cs);
            && ArchInv(b', db) && LocInv(b', db) && IdxInv(b', db) && SameCur(b, b', db) && TableGrows(b, b')
            && ArchFor(b, cs) in b'.comps && b'.comps[ArchFor(b, cs)] == cs
  {
    NewArchUnused(b, db);
    MakeArchKeepsIdx(b, db, cs);
    MakeArchKeepsArch(b, db, cs);
    hide DbInv, ArchOk, IdxInv, ValInv, FindArch, Increasing, Cur;
  }

  // ---------------------------------------------------------------- creation of entities

  lemma OpenArchKeeps(b: Buf, db: Db, cs: seq<CompId>)
    requires Inv(b, db) && cs != [] && Increasing(cs)
    ensures Inv(OpenArch(b, db, cs), db)
    ensures SameCur(b, OpenArch(b, db, cs), db)
    ensures TableGrows(b, OpenArch(b, db, cs))
    ensures var b', a := OpenArch(b, db, cs), ArchFor(b, cs);
            a in b'.comps && b'.comps[a] == cs && a in b'.active && b'.active[a].modified
  {
    hide DbInv, ArchOk, LocInv, IdxInv, ValInv, Increasing, Cur;
    MakeArchKeeps(b, db, cs);
    var b1, a := MakeArch(b, cs), ArchFor(b, cs);
    ValFrame(b, b1, db);
    TouchKeeps(b, b1, db, a);
    assert b1.pendingArchs == b.pendingArchs || b1.pendingArchs == b.pendingArchs + [a];
  }

  lemma TouchKeeps(b: Buf, b1: Buf, db: Db, a: ArchId)
    requires LocInv(b1, db) && IdxInv(b1, db) && ValInv(b1, db) && a in b1.comps
    ensures var b' := PutActive(b1, a, Ids(b1, db, a));
            LocInv(b', db) && IdxInv(b', db) && ValInv(b', db) && SameCur(b1, b', db)
  {
    var b' := PutActive(b1, a, Ids(b1, db, a));
    assert SameCur(b1, b', db);
    assert forall x :: Ids(b', db, x) == Ids(b1, db, x);
    assert IdxInv(b', db) by { hide Cur, ValInv, LocInv, NoDup; }
    assert ValInv(b', db) by { hide Cur, IdxInv, LocInv, ValInv; ValFrame(b1, b', db); }
  }

  lemma NextIdFresh(b: Buf, db: Db)
    requires DbInv(db) && LocInv(b, db)
    ensures var e := NextId(b, db); e !in db.archOf && e !in b.archOf && e !in b.originOf
  {
    hide TableOk, NoDup;
    var e := NextId(b, db);
    assert e in b.originOf ==> e in db.archOf;
  }

  lemma SpawnKeepsIdx(b: Buf, db: Db, a: ArchId)
    requires IdxInv(b, db) && a in b.comps && Cur(b, db, NextId(b, db)) == None
    requires var b', e := Spawn(b, db, a), NextId(b, db);
             forall x :: Cur(b', db, x) == if x == e then Some(a) else Cur(b, db, x)
    ensures IdxInv(Spawn(b, db, a), db)
  {
    hide Whereabouts, NextId, NoDup;
    var b', e := Spawn(b, db, a), NextId(b, db);
    assert e !in Ids(b, db, a);
    NoDupAppend(Ids(b, db, a), e);
    assert forall x :: x != a ==> Ids(b', db, x) == Ids(b, db, x);
    assert Ids(b', db, a) == Ids(b, db, a) + [e];
    assert b'.comps == b.comps;
  }

  lemma SpawnKeepsLoc(b: Buf, db: Db, a: ArchId)
    requires LocInv(b, db)
    requires var e := NextId(b, db); e !in db.archOf && e !in b.archOf && e !in b.originOf
    ensures LocInv(Spawn(b, db, a), db)
    ensures var b', e := Spawn(b, db, a), NextId(b, db);
            && Cur(b, db, e) == None && NextId(b', db) == e + 1
            && forall x :: Cur(b', db, x) == if x == e then Some(a) else Cur(b, db, x)
  {
    var e := NextId(b, db);
    LocAppends(b.archOf, b.originOf, db, e, a);
    hide LocOk;
  }

  lemma LocAppends(archOf: map<EntityId, ArchId>, originOf: map<EntityId, Origin>, db: Db, e: EntityId, a: ArchId)
    requires LocOk(archOf, originOf, e, db) && db.next <= e && e !in db.archOf
    ensures LocOk(archOf[e := a], originOf[e := Unborn], e + 1, db)
  {
  }

  lemma SpawnKeeps(b: Buf, db: Db, a: ArchId)
    requires Inv(b, db) && a in b.comps
    ensures Inv(Spawn(b, db, a), db)
    ensures var b', e := Spawn(b, db, a), NextId(b, db);
            && Cur(b, db, e) == None && NextId(b', db) == e + 1
            && forall x :: Cur(b', db, x) == if x == e then Some(a) else Cur(b, db, x)
  {
    hide DbInv, ArchOk, IdxInv, ValInv;
    NextIdFresh(b, db);
    SpawnKeepsLoc(b, db, a);
    hide Whereabouts, LocOk;
    SpawnKeepsIdx(b, db, a);
    ValFrame(b, Spawn(b, db, a), db);
  }

  lemma {:induction false} SpawnManyKeeps(b: Buf, db: Db, a: ArchId, n: nat)
    requires Inv(b, db) && a in b.comps
    ensures var b' := SpawnMany(b, db, a, n);
            && Inv(b', db) && b'.comps == b.comps && NextId(b', db) == NextId(b, db) + n
            && b'.values == b.values && b'.doomed == b.doomed
  {
    hide Inv, Cur;
    if n > 0 {
      SpawnManyKeeps(b, db, a, n - 1);
      SpawnKeeps(SpawnMany(b, db, a, n - 1), db, a);
    }
  }

  // ---------------------------------------------------------------- removal

  lemma DropMoves(b: Buf, db: Db, a: ArchId, e: EntityId)
    requires LocInv(b, db) && Cur(b, db, e) == Some(a) && a in b.comps && e in Ids(b, db, a)
    ensures var b' := Drop(b, db, a, e);
            && LocInv(b', db)
            && (forall x :: Cur(b', db, x) == if x == e then None else Cur(b, db, x))
            && (forall x :: Gone(b', db, x) <==> Gone(b, db, x) || (x == e && e in db.archOf))
  {
  }

  lemma DropKeepsIdx(b: Buf, db: Db, a: ArchId, e: EntityId)
    requires IdxInv(b, db) && Cur(b, db, e) == Some(a) && a in b.comps && e in Ids(b, db, a)
    requires forall x :: Cur(Drop(b, db, a, e), db, x) == if x == e then None else Cur(b, db, x)
    ensures IdxInv(Drop(b, db, a, e), db)
  {
    SwapRemoveExact(Ids(b, db, a), e);
    hide Whereabouts, SwapRemove, NoDup;
    var b' := Drop(b, db, a, e);
    assert forall x :: x != a ==> Ids(b', db, x) == Ids(b, db, x);
  }

  /** Forgetting the values of components that have just died restores the value invariant. */
  lemma DropValuesKeeps(b: Buf, b1: Buf, db: Db, ks: set<CompKey>)
    requires ValInv(b, db) && b1.values == b.values && b1.doomed == b.doomed
    requires forall k :: Live(b, db, k) && k !in ks ==> Live(b1, db, k)
    ensures ValInv(DropValues(b1, ks), db)
  {
    hide Whereabouts;
    var b' := DropValues(b1, ks);
    assert forall k :: Live(b', db, k) == Live(b1, db, k);
  }

  // ---------------------------------------------------------------- moves between archetypes

  lemma ReaddressMoves(b: Buf, db: Db, src: ArchId, dst: ArchId, e: EntityId)
    requires LocInv(b, db) && Cur(b, db, e) == Some(src)
    ensures var b' := Readdress(b, src, dst, e);
            && LocInv(b', db)
            && (forall x :: Cur(b', db, x) == if x == e then Some(dst) else Cur(b, db, x))
  {
  }

  /** The buffer a successful move leaves. */
  lemma MoveResult(b: Buf, db: Db, src: ArchId, dst: ArchId, e: EntityId)
    requires e in Ids(b, db, src) && src != dst
    ensures var b1, (b', r) := Readdress(b, src, dst, e), Move(b, db, src, dst, e);
            && r == Ok(())
            && b' == b1.(active := b.active[src := Active(SwapRemove(Ids(b, db, src), e), true)]
                                           [dst := Active(Ids(b, db, dst) + [e], true)])
  {
    hide SwapRemove;
  }

  lemma MoveKeepsIdx(b: Buf, b': Buf, db: Db, src: ArchId, dst: ArchId, e: EntityId)
    requires IdxInv(b, db) && b'.comps == b.comps
    requires src in b.comps && dst in b.comps && src != dst && Cur(b, db, e) == Some(src)
    requires e in Ids(b, db, src)
    requires forall x :: Cur(b', db, x) == if x == e then Some(dst) else Cur(b, db, x)
    requires b'.active == b.active[src := Active(SwapRemove(Ids(b, db, src), e), true)]
                                  [dst := Active(Ids(b, db, dst) + [e], true)]
    ensures IdxInv(b', db)
  {
    SwapRemoveExact(Ids(b, db, src), e);
    hide Whereabouts, SwapRemove, NoDup;
    assert e !in Ids(b, db, dst);
    assert forall a :: a != src && a != dst ==> Ids(b', db, a) == Ids(b, db, a);
    NoDupAppend(Ids(b, db, dst), e);
  }

  lemma MoveKeeps(b: Buf, db: Db, src: ArchId, dst: ArchId, e: EntityId)
    requires LocInv(b, db) && IdxInv(b, db)
    requires Cur(b, db, e) == Some(src) && dst in b.comps && src != dst
    ensures var (b', r) := Move(b, db, src, dst, e);
            && r == Ok(()) && LocInv(b', db) && IdxInv(b', db)
            && b' == Readdress(b, src, dst, e).(active := b'.active)
            && (forall x :: Cur(b', db, x) == if x == e then Some(dst) else Cur(b, db, x))
            && dst in b'.active && b'.active[dst].modified
            && (forall a :: a in b.active && b.active[a].modified ==> a in b'.active && b'.active[a].modified)
  {
    hide Whereabouts, LocOk, SwapRemove, NoDup;
    ReaddressMoves(b, db, src, dst, e);
    MoveResult(b, db, src, dst, e);
    MoveKeepsIdx(b, Move(b, db, src, dst, e).0, db, src, dst, e);
  }
}
