/** Why the conditions of `Refinement.Allowed` are there: exactly when a lookup, a read or a discard departs from
    the plain map. (For reads the exact condition is `Calls.GetMeans`.) */
module Hazards {
  import opened Base
  import opened Storage
  import opened Buffer
  import opened Coherence
  import opened Views
  import opened Calls
  import opened Refinement

  /** A lookup answers like the map exactly for entities that were not removed since the commit: for a removed
      committed entity the code falls back to storage and answers as if it were still there. */
  lemma NotFoundWhenGone(b: Buf, db: Db, e: EntityId)
    requires Inv(b, db)
    ensures var r := Types(b, db, e).1;
            (if e in View(b, db).ents then r.Ok? && Elems(r.value) == View(b, db).ents[e].Keys
             else r == Err(NoSuchEntity))
            <==> !Gone(b, db, e)
  {
    hide DbInv, ArchOk, LocInv, IdxInv, ValInv, Touched;
    if Gone(b, db, e) {
      GoneIsFound(b, db, e);
    } else {
      hide Gone, Whereabouts;
      TypesMeans(b, db, e);
      hide View;
      var r := Types(b, db, e).1;
      if e in View(b, db).ents { assert Elems(r.value) == View(b, db).ents[e].Keys; }
    }
  }

  lemma GoneIsFound(b: Buf, db: Db, e: EntityId)
    requires DbInv(db) && ArchInv(b, db) && Gone(b, db, e)
    ensures e !in View(b, db).ents && Types(b, db, e).1.Ok?
  {
    hide TableOk, NoDup;
    assert db.archOf[e] in Table(db);
    EntsAt(b, db, e);
    hide Ents;
  }

  /** Removing a committed entity is what makes later lookups of it in the same tick go wrong. */
  lemma RemovalMakesGone(b: Buf, db: Db, e: EntityId)
    requires Inv(b, db) && !Gone(b, db, e) && e in View(b, db).ents && e in db.archOf
    ensures var b' := Remove(b, db, e).0; e !in View(b', db).ents && Types(b', db, e).1.Ok?
  {
    RemoveMeans(b, db, e);
    NotFoundWhenGone(Remove(b, db, e).0, db, e);
    hide Inv, View, Remove;
  }

  /** A discard restores the committed meaning exactly when no stored non-zero value is still marked for deletion:
      DiscardPending leaves the delete set as it is, and the next commit acts on it. */
  lemma DiscardExact(b: Buf, db: Db)
    requires Inv(b, db)
    ensures View(Discard(b), db) == Saved(db) <==>
            forall k :: k in b.doomed && k in db.values ==> db.values[k] == Zero(k.comp)
  {
    var b' := Discard(b);
    assert b'.doomed == b.doomed;
    hide LocInv, IdxInv, ValInv, Touched, Discard, View, Saved, ArchOk, Clean;
    DiscardIsClean(b, db);
    if forall k :: k in b.doomed && k in db.values ==> db.values[k] == Zero(k.comp) {
      CleanMeansSaved(b', db);
    } else {
      var k :| k in b.doomed && k in db.values && db.values[k] != Zero(k.comp);
      DoomedDiffers(b, db, k);
    }
  }

  lemma DoomedDiffers(b: Buf, db: Db, k: CompKey)
    requires DbInv(db) && Clean(Discard(b), db)
    requires k in b.doomed && k in db.values && db.values[k] != Zero(k.comp)
    ensures View(Discard(b), db) != Saved(db)
  {
    var b', b0 := Discard(b), Loaded(db);
    assert Live(b0, db, k) && Live(b', db, k) by { hide TableOk, NoDup; }
    hide DbInv, Live, View;
    ValueAt(b', db, k);
    ValueAt(b0, db, k);
  }

  /** Reads made after a discard return what storage holds, in every case. */
  lemma DiscardReads(b: Buf, db: Db, c: CompId, e: EntityId)
    requires Inv(b, db)
    ensures Get(Discard(b), db, c, e).1 == Get(Loaded(db), db, c, e).1
    ensures Types(Discard(b), db, e).1 == Types(Loaded(db), db, e).1
    ensures forall a :: Ids(Discard(b), db, a) == Ids(Loaded(db), db, a)
  {
    hide IdxInv, ValInv, Touched, DbInv, Discard, ArchOk, LocInv;
    DiscardIsClean(b, db);
  }

  // ---------------------------------------------------------------- the conditions are exact

  /** What the calls do answer for a vanished entity: lookups, reads and writes as if it were still there with its
      committed components and values, while everything that has to take it out of a list fails there. */
  lemma VanishedAnswers(s: Sys, m: Model, reg: set<CompId>, e: EntityId, c: CompId, v: Value)
    requires Refines(s, m, reg) && Vanished(m, e)
    ensures var bag := m.saved.ents[e];
            && Step(s, reg, DoTypes(e)).1 == Comps(bag.Keys)
            && Step(s, reg, DoSet(c, e, v)).1 == (if c in bag then Done else Fail(NotOnEntity))
            && Step(s, reg, DoGet(c, e)).1 == (if c in bag then Val(bag[c]) else Fail(NotOnEntity))
            && Step(s, reg, DoRemove(e)).1 == Fail(NotInActiveList)
            && Step(s, reg, DoAdd(c, e)).1 == Fail(if c in bag then AlreadyOnEntity else NotInActiveList)
            && Step(s, reg, DoDrop(c, e)).1 ==
               Fail(if c !in bag then NotOnEntity else if bag.Keys == {c} then LastComponent else NotInActiveList)
  {
    hide DbInv, ArchInv, LocInv, IdxInv, ValInv, Touched, View, Saved, AllIn, Persisted, Gone;
    hide Types, Set, Get, Remove, AddComp, RemoveComp;
    GoneIsVanished(s, m, reg, e);
    GoneSaved(s.buf, s.db, e, c);
    GoneTyped(s.buf, s.db, e);
    GoneUnlisted(s.buf, s.db, e, c);
    var cs := s.buf.comps[s.db.archOf[e]];
    assert forall x :: x in cs <==> x in Elems(cs);
    GoneReads(s.buf, s.db, e, c, v, cs);
    FoundRemoves(s.buf, s.db, e, cs);
    FoundAdds(s.buf, s.db, e, c, cs);
    FoundDrops(s.buf, s.db, e, c, cs, m.saved.ents[e]);
  }

  lemma GoneTyped(b: Buf, db: Db, e: EntityId)
    requires DbInv(db) && ArchInv(b, db) && Gone(b, db, e)
    ensures e in db.archOf && |b.comps| !in b.comps
    ensures var a := db.archOf[e];
            && a in b.comps && a in Table(db) && b.comps[a] == Table(db)[a]
            && b.comps[a] != [] && Increasing(b.comps[a])
            && LookupArch(b, db, e) == Some(a) && Types(b, db, e) == (CacheArch(b, db, e), Ok(b.comps[a]))
  {
    hide NoDup, Increasing;
  }

  lemma GoneUnlisted(b: Buf, db: Db, e: EntityId, c: CompId)
    requires IdxInv(b, db) && ValInv(b, db) && Gone(b, db, e)
    ensures CompKey(c, e) !in b.values && forall a :: a in b.comps ==> e !in Ids(b, db, a)
  {
    hide NoDup;
    assert Cur(b, db, e) == None;
    assert !Live(b, db, CompKey(c, e));
    hide Whereabouts;
  }

  lemma GoneSaved(b: Buf, db: Db, e: EntityId, c: CompId)
    requires DbInv(db) && Gone(b, db, e)
    ensures e in db.archOf && e in Saved(db).ents && db.archOf[e] in Table(db)
    ensures Saved(db).ents[e].Keys == Elems(Table(db)[db.archOf[e]])
    ensures c in Saved(db).ents[e] ==> Saved(db).ents[e][c] == Stored(db, CompKey(c, e))
  {
    hide TableOk, NoDup;
    EntsAt(Loaded(db), db, e);
    hide Ents;
  }

  lemma GoneReads(b: Buf, db: Db, e: EntityId, c: CompId, v: Value, cs: seq<CompId>)
    requires Types(b, db, e).1 == Ok(cs) && CompKey(c, e) !in b.values
    ensures Set(b, db, c, e, v).1 == if c in cs then Ok(()) else Err(NotOnEntity)
    ensures Get(b, db, c, e).1 == if c in cs then Ok(Stored(db, CompKey(c, e))) else Err(NotOnEntity)
  {
    hide Types;
  }

  lemma MoveFails(b: Buf, b': Buf, db: Db, src: ArchId, dst: ArchId, e: EntityId)
    requires b'.active == b.active && src in b.comps && forall a :: a in b.comps ==> e !in Ids(b, db, a)
    ensures Move(b', db, src, dst, e).1 == Err(NotInActiveList)
  {
    assert Ids(Readdress(b', src, dst, e), db, src) == Ids(b, db, src);
  }

  /** A vanished entity as the calls find it. */
  ghost predicate Found(b: Buf, db: Db, e: EntityId, cs: seq<CompId>) {
    && LookupArch(b, db, e).Some? && LookupArch(b, db, e).value in b.comps && |b.comps| !in b.comps
    && cs == b.comps[LookupArch(b, db, e).value] && Types(b, db, e) == (CacheArch(b, db, e), Ok(cs))
    && forall a :: a in b.comps ==> e !in Ids(b, db, a)
  }

  lemma FoundRemoves(b: Buf, db: Db, e: EntityId, cs: seq<CompId>)
    requires Found(b, db, e, cs)
    ensures Remove(b, db, e).1 == Err(NotInActiveList)
  {
    hide Types, SwapRemove, KeysOf;
    assert Ids(CacheArch(b, db, e), db, LookupArch(b, db, e).value) == Ids(b, db, LookupArch(b, db, e).value);
  }

  lemma KnownArch(b: Buf, b': Buf, cs: seq<CompId>, to: seq<CompId>, a: ArchId)
    requires b'.comps == b.comps && a in b.comps && b.comps[a] == cs && to != cs && |b.comps| !in b.comps
    ensures ArchFor(b', cs) in b.comps && ArchFor(MakeArch(b', to), cs) in b.comps
  {
    assert b'.comps[a] == cs;
    var b2 := MakeArch(b', to);
    assert a in b2.comps && b2.comps[a] == cs;
  }

  lemma FoundAdds(b: Buf, db: Db, e: EntityId, c: CompId, cs: seq<CompId>)
    requires Found(b, db, e, cs) && Increasing(cs)
    ensures AddComp(b, db, c, e).1 == Err(if c in cs then AlreadyOnEntity else NotInActiveList)
  {
    hide Types, Increasing, Move, Normalize, MakeArch, ArchFor;
    var b1 := CacheArch(b, db, e);
    if c !in cs {
      JoinNormalizes(cs, c);
      var to := Normalize(cs + [c]).value;
      var b2 := MakeArch(b1, to);
      KnownArch(b, b1, cs, to, LookupArch(b, db, e).value);
      SameActive(b1, to);
      SameActive(b2, cs);
      MoveFails(b, MakeArch(b2, cs), db, ArchFor(b2, cs), ArchFor(b1, to), e);
    }
  }

  lemma SameActive(b: Buf, cs: seq<CompId>)
    ensures MakeArch(b, cs).active == b.active
  {
    hide FindArch;
  }

  lemma FoundDrops(b: Buf, db: Db, e: EntityId, c: CompId, cs: seq<CompId>, bag: Bag)
    requires Found(b, db, e, cs) && forall x :: x in cs <==> x in bag
    ensures RemoveComp(b, db, c, e).1 ==
            Err(if c !in bag then NotOnEntity else if bag.Keys == {c} then LastComponent else NotInActiveList)
  {
    hide Types, Move, Without, MakeArch, ArchFor;
    if c in cs {
      LastIffAlone(cs, bag, c);
      var b2 := DropValues(CacheArch(b, db, e), {CompKey(c, e)});
      var b3, less := MakeArch(b2, cs), Without(cs, c);
      KnownArch(b, b2, cs, cs + [c], LookupArch(b, db, e).value);
      SameActive(b2, cs);
      SameActive(b3, less);
      MoveFails(b, MakeArch(b3, less), db, ArchFor(b2, cs), ArchFor(b3, less), e);
    }
  }

  ghost predicate OnEntity(call: Call) {
    call.DoRemove? || call.DoTypes? || call.DoSet? || call.DoGet? || call.DoAdd? || call.DoDrop?
  }

  lemma VanishedDiffers(s: Sys, m: Model, reg: set<CompId>, call: Call)
    requires Refines(s, m, reg) && OnEntity(call) && Vanished(m, call.e)
    ensures Step(s, reg, call).1 != Plain(m, call).1
  {
    hide Refines, Step;
    var c, v := if call.DoTypes? || call.DoRemove? then 0 else call.c, if call.DoSet? then call.v else Zero(0);
    VanishedAnswers(s, m, reg, call.e, c, v);
  }

  lemma StaleDiffers(s: Sys, m: Model, reg: set<CompId>, c: CompId, e: EntityId)
    requires Refines(s, m, reg) && !Vanished(m, e) && !Allowed(m, reg, DoGet(c, e))
    ensures Step(s, reg, DoGet(c, e)).1 != Plain(m, DoGet(c, e)).1
  {
    hide Inv, View, Saved, AllIn, Gone, Persisted, Get, Stale;
    GoneIsVanished(s, m, reg, e);
    StaleIsTold(s, m, reg, CompKey(c, e));
    GetMeans(s.buf, s.db, c, e);
  }

  /** A table that uses an unregistered component is one a restart refuses to load once it is committed. */
  lemma UnregisteredCreate(s: Sys, m: Model, reg: set<CompId>, num: nat, comps: seq<CompId>)
    requires Refines(s, m, reg) && !Allowed(m, reg, DoCreate(num, comps))
    ensures !AllIn(Create(s.buf, s.db, num, comps).0.comps, reg)
  {
    hide DbInv, ArchInv, LocInv, IdxInv, ValInv, Touched, View, Saved, Persisted, Increasing, OpenArch;
    var cs := Normalize(comps).value;
    OpenArchKeeps(s.buf, s.db, cs);
    var b1, a := OpenArch(s.buf, s.db, cs), ArchFor(s.buf, cs);
    SpawnManyFrame(b1, s.db, a, num);
    var c :| c in comps && c !in reg;
    assert c in b1.comps[a];
    assert Uses(b1.comps, c);
  }

  lemma UnregisteredAdd(s: Sys, m: Model, reg: set<CompId>, c: CompId, e: EntityId)
    requires Refines(s, m, reg) && !Vanished(m, e) && !Allowed(m, reg, DoAdd(c, e))
    ensures !AllIn(AddComp(s.buf, s.db, c, e).0.comps, reg)
  {
    hide Inv, View, Saved, Persisted, AddComp, Gone, Live, GrewBy;
    GoneIsVanished(s, m, reg, e);
    AddCompMeans(s.buf, s.db, c, e);
    var b' := AddComp(s.buf, s.db, c, e).0;
    LiveIsOn(b', s.db, CompKey(c, e));
    LiveUses(b', s.db, CompKey(c, e));
  }

  lemma LiveUses(b: Buf, db: Db, k: CompKey)
    requires Live(b, db, k)
    ensures Uses(b.comps, k.comp)
  {
  }

  lemma DiscardDiffers(s: Sys, m: Model, reg: set<CompId>)
    requires Refines(s, m, reg) && !Allowed(m, reg, DoDiscard)
    ensures View(Discard(s.buf), s.db) != Plain(m, DoDiscard).0.cur
  {
    hide Inv, View, Saved, AllIn, Persisted, Discard;
    var k :| k in m.removed && Persisted(m.saved, k);
    InvDb(s.buf, s.db);
    PersistedStored(s.db, k);
    DiscardExact(s.buf, s.db);
  }

  lemma AddAnswers(s: Sys, m: Model, reg: set<CompId>, c: CompId, e: EntityId)
    requires Refines(s, m, reg) && !Vanished(m, e)
    ensures Step(s, reg, DoAdd(c, e)).1 == Plain(m, DoAdd(c, e)).1
  {
    hide Inv, View, Saved, AllIn, Persisted, AddComp, Gone, GrewBy;
    GoneIsVanished(s, m, reg, e);
    AddCompMeans(s.buf, s.db, c, e);
  }

  /** The condition for a right answer: the entity has not vanished and, for a read, the component is not one that was
      removed, not set since, and committed with a value other than zero. */
  ghost predicate Answerable(m: Model, call: Call)
    requires OnEntity(call)
  {
    !Vanished(m, call.e) && (call.DoGet? ==> Allowed(m, {}, call))
  }

  /** A call simulates the plain model if and only if it is allowed: a lookup, read or change of a vanished entity and a
      read of a stale component answer otherwise, a discard leaves another world, and an unregistered component makes an
      archetype table that, once committed, no restart loads. */
  lemma StepExact(s: Sys, m: Model, reg: set<CompId>, call: Call)
    requires Refines(s, m, reg)
    ensures Simulates(s, m, reg, call) <==> Allowed(m, reg, call)
    ensures OnEntity(call) ==> (Step(s, reg, call).1 == Plain(m, call).1 <==> Answerable(m, call))
  {
    hide Inv, View, Saved, AllIn, Persisted, Plain, Create, Remove, Types, Set, Get, AddComp, RemoveComp, Vanished;
    if Allowed(m, reg, call) {
      StepRefines(s, m, reg, call);
    } else if OnEntity(call) && Vanished(m, call.e) {
      VanishedDiffers(s, m, reg, call);
    } else {
      match call
      case DoGet(c, e) => StaleDiffers(s, m, reg, c, e);
      case DoCreate(num, comps) => UnregisteredCreate(s, m, reg, num, comps);
      case DoAdd(c, e) =>
        UnregisteredAdd(s, m, reg, c, e);
        AddAnswers(s, m, reg, c, e);
      case DoDiscard => DiscardDiffers(s, m, reg);
    }
  }

  /** A run simulates the plain model at every step if and only if every call in it is allowed when it is made. */
  lemma {:induction false} RunExact(s: Sys, m: Model, reg: set<CompId>, calls: seq<Call>)
    requires Refines(s, m, reg)
    ensures RunAllowed(m, reg, calls) <==>
            forall i :: 0 <= i < |calls| ==>
              Simulates(Run(s, reg, calls[..i]).0, PlainRun(m, calls[..i]).0, reg, calls[i])
  {
    hide Refines, Allowed, Simulates, RunAllowed, Run, PlainRun;
    if calls == [] {
      AllowedNone(m, reg);
    } else {
      var init, last := calls[..|calls| - 1], calls[|calls| - 1];
      RunExact(s, m, reg, init);
      AllowedInit(m, reg, calls);
      if RunAllowed(m, reg, init) {
        RunRefines(s, m, reg, init);
        StepExact(Run(s, reg, init).0, PlainRun(m, init).0, reg, last);
      }
      assert forall i :: 0 <= i < |init| ==> init[..i] == calls[..i] && init[i] == calls[i];
    }
  }

  lemma AllowedNone(m: Model, reg: set<CompId>)
    ensures RunAllowed(m, reg, [])
  {
  }

  lemma AllowedInit(m: Model, reg: set<CompId>, calls: seq<Call>)
    requires calls != []
    ensures var init := calls[..|calls| - 1];
            RunAllowed(m, reg, calls) <==>
            RunAllowed(m, reg, init) && Allowed(PlainRun(m, init).0, reg, calls[|calls| - 1])
  {
    hide Allowed, PlainRun;
    var init := calls[..|calls| - 1];
    assert forall i :: 0 <= i < |init| ==> init[..i] == calls[..i] && init[i] == calls[i];
  }

  // ---------------------------------------------------------------- runs that go wrong

  /** An entity with two components, one of them committed with a value other than zero. */
  ghost predicate Holds(s: Sys, m: Model, reg: set<CompId>, c: CompId, e: EntityId) {
    && Refines(s, m, reg) && m.cur == m.saved && m.removed == {} && c in reg
    && Persisted(m.saved, CompKey(c, e)) && m.saved.ents[e].Keys != {c}
  }

  /** Remove and look up: from every such state the lookup succeeds where the map has nothing. */
  lemma LookupAfterRemoval(s: Sys, m: Model, reg: set<CompId>, c: CompId, e: EntityId)
    requires Holds(s, m, reg, c, e)
    ensures var s1 := Step(s, reg, DoRemove(e)).0; Step(s1, reg, DoTypes(e)).1.Comps?
    ensures var m1 := Plain(m, DoRemove(e)).0; Plain(m1, DoTypes(e)).1 == Fail(NoSuchEntity)
  {
    hide Inv, View, Saved, AllIn, Remove, Types;
    GoneIsVanished(s, m, reg, e);
    SavedAt(s.db, e);
    RemovalMakesGone(s.buf, s.db, e);
  }

  /** Remove, look up and commit: the lookup has put the entity back in the cache, so the commit finds it at its origin
      and keeps its key, while no active list holds it. Storage is then incoherent. */
  lemma CommitAfterLookup(b: Buf, db: Db, e: EntityId)
    requires Inv(b, db) && !Gone(b, db, e) && e in View(b, db).ents && e in db.archOf
    ensures var db' := Committed(Types(Remove(b, db, e).0, db, e).0, db);
            && e in db'.archOf && (forall a :: a in db'.active ==> e !in db'.active[a]) && !DbInv(db')
  {
    hide Inv, View, Gone, Remove, Committed, DbInv;
    RemoveMeans(b, db, e);
    var b1 := Remove(b, db, e).0;
    RemovedKeptKey(b1, db, e);
    Unlisted(Committed(Types(b1, db, e).0, db), e);
  }

  lemma RemovedKeptKey(b: Buf, db: Db, e: EntityId)
    requires Inv(b, db) && e !in View(b, db).ents && e in db.archOf
    ensures var db' := Committed(Types(b, db, e).0, db);
            e in db'.archOf && forall a :: a in db'.active ==> e !in db'.active[a]
  {
    hide DbInv, ArchOk, LocInv, ValInv, NoDup, Touched, Whereabouts;
    EntsAt(b, db, e);
    RemovedOrigin(b, db, e);
    hide Ents, View;
    var b2 := CacheArch(b, db, e);
    var db' := Committed(b2, db);
    assert Types(b, db, e).0 == b2;
    assert NewHome(b2, db, e) == Some(db.archOf[e]);
    assert db'.active == Committed(b, db).active;
    hide Committed, NewHome;
    forall a | a in db'.active ensures e !in db'.active[a] { CommittedLists(b, db, a); }
  }

  lemma RemovedOrigin(b: Buf, db: Db, e: EntityId)
    requires LocInv(b, db) && Cur(b, db, e) == None && e in db.archOf
    ensures e !in b.archOf && e in b.originOf && b.originOf[e] == Home(db.archOf[e])
  {
  }

  lemma Unlisted(db: Db, e: EntityId)
    requires e in db.archOf && forall a :: a in db.active ==> e !in db.active[a]
    ensures !DbInv(db)
  {
    hide NoDup, TableOk;
  }

  /** Drop, add back and read: from every such state the read returns something other than the zero value the map
      has. */
  lemma ReadAfterReadd(s: Sys, m: Model, reg: set<CompId>, c: CompId, e: EntityId)
    requires Holds(s, m, reg, c, e)
    ensures var s2 := Step(Step(s, reg, DoDrop(c, e)).0, reg, DoAdd(c, e)).0;
            Step(s2, reg, DoGet(c, e)).1.Val? && Step(s2, reg, DoGet(c, e)).1 != Val(Zero(c))
    ensures var m2 := Plain(Plain(m, DoDrop(c, e)).0, DoAdd(c, e)).0; Plain(m2, DoGet(c, e)).1 == Val(Zero(c))
  {
    hide Inv, View, Saved, AllIn, Get, Gone, RemoveComp, AddComp, Persisted;
    Readded(s, m, reg, c, e);
    var s2 := Step(Step(s, reg, DoDrop(c, e)).0, reg, DoAdd(c, e)).0;
    var m2 := Plain(Plain(m, DoDrop(c, e)).0, DoAdd(c, e)).0;
    GoneIsVanished(s2, m2, reg, e);
    ReadStale(s2.buf, s2.db, c, e);
  }

  lemma ReadStale(b: Buf, db: Db, c: CompId, e: EntityId)
    requires Inv(b, db) && !Gone(b, db, e) && Persisted(Saved(db), CompKey(c, e))
    requires CompKey(c, e) in b.doomed && CompKey(c, e) !in b.values
    requires e in View(b, db).ents && c in View(b, db).ents[e] && View(b, db).ents[e][c] == Zero(c)
    ensures Get(b, db, c, e).1.Ok? && Get(b, db, c, e).1.value != Zero(c)
  {
    hide Inv, View, Saved, Get, Gone, Live, Persisted;
    InvDb(b, db);
    PersistedStored(db, CompKey(c, e));
    LiveIsOn(b, db, CompKey(c, e));
    GetMeans(b, db, c, e);
  }

  lemma Readded(s: Sys, m: Model, reg: set<CompId>, c: CompId, e: EntityId)
    requires Holds(s, m, reg, c, e)
    ensures var s2 := Step(Step(s, reg, DoDrop(c, e)).0, reg, DoAdd(c, e)).0;
            var m2 := Plain(Plain(m, DoDrop(c, e)).0, DoAdd(c, e)).0;
            && Refines(s2, m2, reg) && s2.db == s.db && !Vanished(m2, e)
            && CompKey(c, e) in s2.buf.doomed && CompKey(c, e) !in s2.buf.values
            && e in m2.cur.ents && c in m2.cur.ents[e] && m2.cur.ents[e][c] == Zero(c)
  {
    hide Inv, View, Saved, AllIn, RemoveComp, AddComp, Gone;
    StepRefines(s, m, reg, DoDrop(c, e));
    var s1, m1 := Step(s, reg, DoDrop(c, e)).0, Plain(m, DoDrop(c, e)).0;
    GoneIsVanished(s, m, reg, e);
    GoneIsVanished(s1, m1, reg, e);
    RemoveCompMeans(s.buf, s.db, c, e);
    AddCompMeans(s1.buf, s1.db, c, e);
    StepRefines(s1, m1, reg, DoAdd(c, e));
  }

  lemma InvDb(b: Buf, db: Db)
    requires Inv(b, db)
    ensures DbInv(db)
  {
  }

  /** Drop, discard and commit: from every such state the commit changes committed data, though nothing is pending. */
  lemma CommitAfterDiscard(s: Sys, m: Model, reg: set<CompId>, c: CompId, e: EntityId)
    requires Holds(s, m, reg, c, e)
    ensures var s2 := Step(Step(s, reg, DoDrop(c, e)).0, reg, DoDiscard).0;
            Clean(s2.buf, s2.db) && Saved(Step(s2, reg, DoFinalize).0.db).ents != m.saved.ents
  {
    hide DbInv, ArchOk, LocInv, IdxInv, ValInv, Touched, View, AllIn, RemoveComp, Clean, Committed, Gone;
    var k := CompKey(c, e);
    StepRefines(s, m, reg, DoDrop(c, e));
    var s1 := Step(s, reg, DoDrop(c, e)).0;
    var b2 := Discard(s1.buf);
    PersistedStored(s.db, k);
    DiscardIsClean(s1.buf, s.db);
    CleanIsCoherent(b2, s.db);
    DiscardFrame(s1.buf, s.db, reg);
    CachedRegistered(b2, s.db, reg);
    FinalizeCommits(b2, s.db);
    DoomedDiffers(s1.buf, s.db, k);
    CleanRest(b2, s.db);
    hide Saved, Inv;
  }

  lemma CleanRest(b: Buf, db: Db)
    requires Clean(b, db)
    ensures View(b, db).next == Saved(db).next && View(b, db).tick == Saved(db).tick
  {
    hide Ents;
  }

  const CreateSetCommit := [DoCreate(1, [0, 1]), DoSet(0, 0, Json("x")), DoFinalize]

  lemma PlainSnoc(m: Model, calls: seq<Call>, call: Call, reg: set<CompId>)
    requires RunAllowed(m, reg, calls) && Allowed(PlainRun(m, calls).0, reg, call)
    ensures PlainRun(m, calls + [call]).0 == Plain(PlainRun(m, calls).0, call).0
    ensures RunAllowed(m, reg, calls + [call])
  {
    hide Plain, Allowed;
    var all := calls + [call];
    assert all[..|calls|] == calls;
    assert forall i :: 0 <= i < |calls| ==> all[..i] == calls[..i];
  }

  lemma PlainCreated()
    ensures PlainRun(Blank, CreateSetCommit[..1]).0 ==
            Model(World(map[0 := map[0 := Zero(0), 1 := Zero(1)]], 1, 0), Nothing, {}, {})
    ensures RunAllowed(Blank, {0, 1}, CreateSetCommit[..1])
  {
    hide PlainRun, RunAllowed;
    PlainNone();
    var c1 := CreateSetCommit[0];
    PlainSnoc(Blank, [], c1, {0, 1});
    assert [] + [c1] == CreateSetCommit[..1];
    var zero: Bag := map[0 := Zero(0), 1 := Zero(1)];
    assert Newborn(0, 1, [0, 1]) == map[0 := zero] by {
      assert Newborn(0, 0, [0, 1]) == map[];
      assert Newborn(0, 1, [0, 1])[0] == zero;
    }
  }

  lemma PlainReached()
    ensures var w := World(map[0 := map[0 := Json("x"), 1 := Zero(1)]], 1, 1);
            PlainRun(Blank, CreateSetCommit).0 == Model(w, w, {}, {}) && RunAllowed(Blank, {0, 1}, CreateSetCommit)
  {
    hide PlainRun, RunAllowed;
    var calls := CreateSetCommit;
    PlainCreated();
    PlainSnoc(Blank, calls[..1], calls[1], {0, 1});
    assert calls[..1] + [calls[1]] == calls[..2];
    var zero: Bag := map[0 := Zero(0), 1 := Zero(1)];
    assert PutIn(zero, 0, Json("x")) == map[0 := Json("x"), 1 := Zero(1)];
    PlainSnoc(Blank, calls[..2], calls[2], {0, 1});
    assert calls[..2] + [calls[2]] == calls;
  }

  lemma PlainNone()
    ensures PlainRun(Blank, []).0 == Blank && RunAllowed(Blank, {0, 1}, [])
  {
  }

  /** Such states are reached from an empty store: create an entity with two components, set one, commit. */
  lemma HazardReached()
    ensures var s0 := Sys(Register(NewBuf, EmptyDb, {0, 1}).0, EmptyDb);
            Holds(Run(s0, {0, 1}, CreateSetCommit).0, PlainRun(Blank, CreateSetCommit).0, {0, 1}, 0, 0)
  {
    hide Refines, Run, RunAllowed, PlainRun;
    EmptyRefines({0, 1});
    PlainReached();
    RunRefines(Sys(Register(NewBuf, EmptyDb, {0, 1}).0, EmptyDb), Blank, {0, 1}, CreateSetCommit);
    assert 1 in PlainRun(Blank, CreateSetCommit).0.saved.ents[0].Keys;
  }
}
