/** The meaning of a buffer over storage: a plain map from entities to component values, the next entity id
    and the number of finished ticks. Committing, discarding and reloading are stated in terms of it. */
module Views {
  import opened Base
  import opened Storage
  import opened Buffer
  import opened Coherence

  type Bag = map<CompId, Value>

  function PutIn(bag: Bag, c: CompId, v: Value): Bag {
    map x: CompId | x in bag.Keys + {c} :: if x == c then v else bag[x]
  }

  datatype World = World(ents: map<EntityId, Bag>, next: nat, tick: nat)

  /** The value a commit would store: cached, else zero if marked for deletion, else what storage has. */
  ghost function ValueOf(b: Buf, db: Db, k: CompKey): Value {
    if k in b.values then b.values[k]
    else if k in b.doomed then Zero(k.comp)
    else Stored(db, k)
  }

  ghost function CompsAt(b: Buf, a: Option<ArchId>): seq<CompId> {
    if a.Some? && a.value in b.comps then b.comps[a.value] else []
  }

  ghost function Entity(b: Buf, db: Db, e: EntityId): Bag {
    map c | c in CompsAt(b, Cur(b, db, e)) :: ValueOf(b, db, CompKey(c, e))
  }

  ghost function Known(b: Buf, db: Db): set<EntityId> {
    set e | e in b.archOf.Keys + db.archOf.Keys && Cur(b, db, e).Some?
  }

  ghost function Ents(b: Buf, db: Db): map<EntityId, Bag> {
    map e | e in Known(b, db) :: Entity(b, db, e)
  }

  ghost function View(b: Buf, db: Db): World {
    World(Ents(b, db), NextId(b, db), db.tick)
  }

  /** A buffer that has just loaded the archetype table. */
  function Loaded(db: Db): Buf {
    NewBuf.(comps := Table(db))
  }

  /** What storage means on its own. */
  ghost function Saved(db: Db): World {
    View(Loaded(db), db)
  }

  lemma EntsAt(b: Buf, db: Db, e: EntityId)
    ensures e in Ents(b, db) <==> Cur(b, db, e).Some?
    ensures e in Ents(b, db) ==> Ents(b, db)[e] == Entity(b, db, e)
  {
    hide Entity;
  }

  /** Two buffers mean the same entities when they agree entity by entity. */
  lemma EntsEqual(b: Buf, db: Db, b': Buf, db': Db)
    requires forall e :: Cur(b', db', e).Some? == Cur(b, db, e).Some?
    requires forall e :: Cur(b, db, e).Some? ==> Entity(b', db', e) == Entity(b, db, e)
    ensures Ents(b', db') == Ents(b, db)
  {
    hide Entity, Whereabouts;
    forall e ensures e in Ents(b', db') <==> e in Ents(b, db) {
      EntsAt(b, db, e);
      EntsAt(b', db', e);
    }
  }

  lemma EntityEqual(b: Buf, db: Db, b': Buf, db': Db, e: EntityId)
    requires CompsAt(b', Cur(b', db', e)) == CompsAt(b, Cur(b, db, e))
    requires forall c :: c in CompsAt(b, Cur(b, db, e)) ==>
               ValueOf(b', db', CompKey(c, e)) == ValueOf(b, db, CompKey(c, e))
    ensures Entity(b', db', e) == Entity(b, db, e)
  {
    hide ValueOf, CompsAt, Cur;
  }

  // ---------------------------------------------------------------- a buffer with nothing pending

  ghost predicate Clean(b: Buf, db: Db) {
    && b.values == map[] && b.active == map[] && b.originOf == map[]
    && !b.idLoaded && b.pendingIds == 0
    && b.comps == Table(db) && b.pendingArchs == []
    && forall e :: e in b.archOf ==> e in db.archOf && db.archOf[e] == b.archOf[e]
  }

  lemma CleanKeepsIdx(b: Buf, db: Db)
    requires DbInv(db) && Clean(b, db)
    ensures IdxInv(b, db)
  {
    hide TableOk, NoDup;
  }

  lemma CleanKeepsVal(b: Buf, db: Db)
    requires DbInv(db) && Clean(b, db)
    ensures ValInv(b, db)
  {
    hide TableOk, NoDup;
    forall k | k in db.values ensures Live(b, db, k) { }
  }

  lemma CleanIsCoherent(b: Buf, db: Db)
    requires DbInv(db) && Clean(b, db)
    ensures Inv(b, db)
  {
    CleanKeepsIdx(b, db);
    CleanKeepsVal(b, db);
    assert LocInv(b, db);
    hide IdxInv, ValInv, LocOk;
    assert ArchInv(b, db) by { hide TableOk; }
  }

  /** With nothing pending, the buffer means what storage means unless a stored value is marked for deletion. */
  lemma CleanMeansSaved(b: Buf, db: Db)
    requires DbInv(db) && Clean(b, db)
    requires forall k :: k in b.doomed && k in db.values ==> db.values[k] == Zero(k.comp)
    ensures View(b, db) == Saved(db)
  {
    hide DbInv;
    var b0 := Loaded(db);
    forall e ensures Cur(b0, db, e) == Cur(b, db, e) && Entity(b0, db, e) == Entity(b, db, e) {
      forall c | c in CompsAt(b, Cur(b, db, e))
        ensures ValueOf(b0, db, CompKey(c, e)) == ValueOf(b, db, CompKey(c, e)) { }
      EntityEqual(b, db, b0, db, e);
    }
    hide Entity, Cur;
    EntsEqual(b, db, b0, db);
  }

  // ---------------------------------------------------------------- discard

  lemma DiscardTable(b: Buf, db: Db)
    requires ArchInv(b, db)
    ensures b.comps - (set a | a in b.pendingArchs) == Table(db)
  {
    var t, pending := Table(db), set a | a in b.pendingArchs;
    hide Increasing;
    forall a ensures a in b.comps - pending <==> a in t {
      if a in b.comps && a !in t { assert b.pendingArchs[a - |t|] == a; }
    }
  }

  lemma DiscardIsClean(b: Buf, db: Db)
    requires ArchInv(b, db) && LocInv(b, db)
    ensures Clean(Discard(b), db)
  {
    hide ArchOk;
    DiscardTable(b, db);
  }

  // ---------------------------------------------------------------- commit

  lemma CommittedHomes(b: Buf, db: Db, e: EntityId)
    requires LocInv(b, db)
    ensures e in Committed(b, db).archOf <==> Cur(b, db, e).Some?
    ensures e in Committed(b, db).archOf ==> Committed(b, db).archOf[e] == Cur(b, db, e).value
  {
    assert NewHome(b, db, e) == Cur(b, db, e);
  }

  lemma CommittedTable(b: Buf, db: Db)
    requires ArchInv(b, db)
    ensures Table(Committed(b, db)) == b.comps
  {
    hide Increasing;
    if b.pendingArchs == [] {
      assert forall a :: a in b.comps <==> a in Table(db);
      assert b.comps == Table(db);
    }
  }

  lemma NewArchTouched(b: Buf, db: Db, a: ArchId)
    requires ArchInv(b, db) && Touched(b) && a in b.comps && a !in Table(db)
    ensures a in b.active && b.active[a].modified
  {
    hide Increasing;
    assert b.pendingArchs[a - |Table(db)|] == a;
  }

  lemma CommittedLists(b: Buf, db: Db, a: ArchId)
    requires DbInv(db) && ArchInv(b, db) && IdxInv(b, db) && Touched(b)
    ensures a in b.comps <==> a in Committed(b, db).active
    ensures a in b.comps ==> Committed(b, db).active[a] == Ids(b, db, a)
  {
    hide TableOk, NoDup, Cur, NewHome, Touched;
    if a in b.comps && a !in Table(db) {
      NewArchTouched(b, db, a);
    }
  }

  lemma CommittedNext(b: Buf, db: Db)
    requires LocInv(b, db)
    ensures Committed(b, db).next == NextId(b, db)
  {
    hide LocOk;
  }

  lemma CommittedIds(b: Buf, db: Db, e: EntityId)
    requires DbInv(db) && LocInv(b, db) && Cur(b, db, e).Some?
    ensures e < NextId(b, db)
  {
    hide TableOk, NoDup;
  }

  lemma CommittedValues(b: Buf, db: Db, k: CompKey)
    requires ValInv(b, db)
    ensures k in Committed(b, db).values ==> Live(b, db, k)
    ensures Stored(Committed(b, db), k) == ValueOf(b, db, k)
  {
    hide Cur;
  }

  /** Committing a coherent buffer leaves coherent storage. */
  lemma CommitKeepsDb(b: Buf, db: Db)
    requires Inv(b, db)
    ensures DbInv(Committed(b, db))
  {
    hide DbInv, TableOk, LocInv, IdxInv, ValInv, Touched, Cur, Live, Committed;
    var db' := Committed(b, db);
    CommittedTable(b, db);
    CommittedNext(b, db);
    forall a: ArchId ensures a in b.comps <==> a in db'.active
             ensures a in b.comps ==> db'.active[a] == Ids(b, db, a)
    { CommittedLists(b, db, a); }
    forall e: EntityId
      ensures e in db'.archOf <==> Cur(b, db, e).Some?
      ensures e in db'.archOf ==> db'.archOf[e] == Cur(b, db, e).value && e < db'.next
    {
      CommittedHomes(b, db, e);
      if e in db'.archOf { CommittedIds(b, db, e); }
    }
    forall k | k in db'.values ensures Live(b, db, k) { CommittedValues(b, db, k); }
    CommitKeepsDbParts(b, db, db');
  }

  lemma CommitKeepsDbParts(b: Buf, db: Db, db': Db)
    requires IdxInv(b, db) && Table(db') == b.comps && TableOk(b.comps)
    requires forall a :: a in b.comps <==> a in db'.active
    requires forall a :: a in b.comps ==> db'.active[a] == Ids(b, db, a)
    requires forall e :: e in db'.archOf <==> Cur(b, db, e).Some?
    requires forall e :: e in db'.archOf ==> db'.archOf[e] == Cur(b, db, e).value && e < db'.next
    requires forall k :: k in db'.values ==> Live(b, db, k)
    ensures DbInv(db')
  {
    hide TableOk, NoDup, Cur, Ids;
  }

  /** What was buffered before the commit is what storage holds after it. */
  lemma CommitSavesView(b: Buf, db: Db)
    requires Inv(b, db)
    ensures Saved(Committed(b, db)) == View(b, db).(tick := db.tick + 1)
  {
    hide DbInv, ArchOk, LocInv, IdxInv, ValInv, Touched;
    var db' := Committed(b, db);
    var b0 := Loaded(db');
    assert db'.tick == db.tick + 1;
    CommittedTable(b, db);
    CommittedNext(b, db);
    hide Committed;
    forall e ensures Cur(b0, db', e) == Cur(b, db, e) { CommittedHomes(b, db, e); }
    hide Cur;
    forall e ensures Entity(b0, db', e) == Entity(b, db, e) {
      forall c ensures ValueOf(b0, db', CompKey(c, e)) == ValueOf(b, db, CompKey(c, e)) {
        CommittedValues(b, db, CompKey(c, e));
        assert ValueOf(b0, db', CompKey(c, e)) == Stored(db', CompKey(c, e));
      }
      EntityEqual(b, db, b0, db', e);
    }
    EntsEqual(b, db, b0, db');
  }

  lemma FinalizeIsClean(b: Buf, db: Db)
    requires ArchInv(b, db) && LocInv(b, db)
    ensures Clean(Discard(b.(doomed := {}, pendingArchs := [])), Committed(b, db))
  {
    hide ArchOk, NewHome, Committed;
    CommittedTable(b, db);
    var b', db' := Discard(b.(doomed := {}, pendingArchs := [])), Committed(b, db);
    assert b'.comps == b.comps;
    forall e | e in b'.archOf ensures e in db'.archOf && db'.archOf[e] == b'.archOf[e] {
      CommittedHomes(b, db, e);
    }
  }

  /** A commit is refused exactly without a registry or with a cached value whose component is not in it. A refused
      commit leaves storage and all of the buffer but the delete set, which is lost in the second case. */
  lemma FinalizeRefused(b: Buf, db: Db)
    ensures var f := Finalize(b, db);
            && (f.result == Err(NotRegistered) <==> b.registry.None?)
            && (f.result == Err(UnknownComponent) <==>
                  b.registry.Some? && exists k :: k in b.values && k.comp !in b.registry.value)
            && (f.result.Err? ==> f.result.error == NotRegistered || f.result.error == UnknownComponent)
            && (f.result.Err? ==> f.db == db && f.buf == b.(doomed := if b.registry.Some? then {} else b.doomed))
  {
    hide Committed, Discard;
  }

  /** FinalizeTick on a coherent, encodable buffer: storage takes the buffered meaning, the buffer keeps it. */
  lemma FinalizeCommits(b: Buf, db: Db)
    requires Inv(b, db) && Encodable(b)
    ensures var f := Finalize(b, db);
            && f.result == Ok(()) && Inv(f.buf, f.db)
            && View(f.buf, f.db) == Saved(f.db) == View(b, db).(tick := db.tick + 1)
            && Table(f.db) == b.comps
  {
    var f := Finalize(b, db);
    FinalizeIsClean(b, db);
    CommitKeepsDb(b, db);
    CommitSavesView(b, db);
    CommittedTable(b, db);
    hide Inv, DbInv, Clean, View, Committed;
    CleanIsCoherent(f.buf, f.db);
    CleanMeansSaved(f.buf, f.db);
  }
}
