/** The command buffer over storage, driven by any sequence of calls, commits, discards and restarts, refines a
    plain map from entities to component values. */
module Refinement {
  import opened Base
  import opened Storage
  import opened Buffer
  import opened Coherence
  import opened Views
  import opened Calls

  datatype Call =
    | DoCreate(num: nat, comps: seq<CompId>)
    | DoRemove(e: EntityId)
    | DoTypes(e: EntityId)
    | DoSet(c: CompId, e: EntityId, v: Value)
    | DoGet(c: CompId, e: EntityId)
    | DoAdd(c: CompId, e: EntityId)
    | DoDrop(c: CompId, e: EntityId)
    | DoFinalize
    | DoDiscard
    | DoRestart

  datatype Answer = Done | NewIds(ids: seq<EntityId>) | Comps(cs: set<CompId>) | Val(v: Value) | Fail(err: Error)

  // ---------------------------------------------------------------- the buffer as a machine

  datatype Sys = Sys(buf: Buf, db: Db)

  function Ack(r: Result<(), Error>): Answer {
    if r.Ok? then Done else Fail(r.error)
  }

  ghost function Step(s: Sys, reg: set<CompId>, call: Call): (Sys, Answer) {
    match call
    case DoCreate(num, comps) =>
      var (b, r) := Create(s.buf, s.db, num, comps);
      (Sys(b, s.db), if r.Ok? then NewIds(r.value) else Fail(r.error))
    case DoRemove(e) => var (b, r) := Remove(s.buf, s.db, e); (Sys(b, s.db), Ack(r))
    case DoTypes(e) =>
      var (b, r) := Types(s.buf, s.db, e);
      (Sys(b, s.db), if r.Ok? then Comps(Elems(r.value)) else Fail(r.error))
    case DoSet(c, e, v) => var (b, r) := Set(s.buf, s.db, c, e, v); (Sys(b, s.db), Ack(r))
    case DoGet(c, e) =>
      var (b, r) := Get(s.buf, s.db, c, e);
      (Sys(b, s.db), if r.Ok? then Val(r.value) else Fail(r.error))
    case DoAdd(c, e) => var (b, r) := AddComp(s.buf, s.db, c, e); (Sys(b, s.db), Ack(r))
    case DoDrop(c, e) => var (b, r) := RemoveComp(s.buf, s.db, c, e); (Sys(b, s.db), Ack(r))
    case DoFinalize => var f := Finalize(s.buf, s.db); (Sys(f.buf, f.db), Ack(f.result))
    case DoDiscard => (Sys(Discard(s.buf), s.db), Done)
    case DoRestart => var (b, r) := Register(NewBuf, s.db, reg); (Sys(b, s.db), Ack(r))
  }

  // ---------------------------------------------------------------- the plain model

  /** The current and the committed world, and what the caller did since the commit: `removed` are the components
      that went, `unset` those of them not set since. */
  datatype Model = Model(cur: World, saved: World, removed: set<CompKey>, unset: set<CompKey>)

  ghost function Plain(m: Model, call: Call): (Model, Answer) {
    var w := m.cur;
    match call
    case DoCreate(num, comps) =>
      if comps == [] then (m, Fail(NoComponents))
      else if !NoDup(comps) then (m, Fail(DuplicateComponents))
      else (m.(cur := World(w.ents + Newborn(w.next, num, comps), w.next + num, w.tick)),
            NewIds(IdRange(w.next, num)))
    case DoRemove(e) =>
      if e !in w.ents then (m, Fail(NoSuchEntity))
      else
        var ks := BagKeys(w.ents[e], e);
        (m.(cur := w.(ents := w.ents - {e}), removed := m.removed + ks, unset := m.unset + ks), Done)
    case DoTypes(e) => if e !in w.ents then (m, Fail(NoSuchEntity)) else (m, Comps(w.ents[e].Keys))
    case DoSet(c, e, v) =>
      if e !in w.ents then (m, Fail(NoSuchEntity))
      else if c !in w.ents[e] then (m, Fail(NotOnEntity))
      else (m.(cur := w.(ents := w.ents[e := PutIn(w.ents[e], c, v)]), unset := m.unset - {CompKey(c, e)}), Done)
    case DoGet(c, e) =>
      if e !in w.ents then (m, Fail(NoSuchEntity))
      else if c !in w.ents[e] then (m, Fail(NotOnEntity))
      else (m, Val(w.ents[e][c]))
    case DoAdd(c, e) =>
      if e !in w.ents then (m, Fail(NoSuchEntity))
      else if c in w.ents[e] then (m, Fail(AlreadyOnEntity))
      else (m.(cur := w.(ents := w.ents[e := PutIn(w.ents[e], c, Zero(c))])), Done)
    case DoDrop(c, e) =>
      if e !in w.ents then (m, Fail(NoSuchEntity))
      else if c !in w.ents[e] then (m, Fail(NotOnEntity))
      else if w.ents[e].Keys == {c} then (m, Fail(LastComponent))
      else
        var k := CompKey(c, e);
        (m.(cur := w.(ents := w.ents[e := w.ents[e] - {c}]), removed := m.removed + {k}, unset := m.unset + {k}), Done)
    case DoFinalize => var w' := w.(tick := w.tick + 1); (Model(w', w', {}, {}), Done)
    case DoDiscard => (Model(m.saved, m.saved, m.removed, m.removed), Done)
    case DoRestart => (Model(m.saved, m.saved, {}, {}), Done)
  }

  /** The committed world holds a value for the component that differs from its zero value. */
  ghost predicate Persisted(w: World, k: CompKey) {
    k.entity in w.ents && k.comp in w.ents[k.entity] && w.ents[k.entity][k.comp] != Zero(k.comp)
  }

  /** A committed entity that is there no more. */
  ghost predicate Vanished(m: Model, e: EntityId) {
    e in m.saved.ents && e !in m.cur.ents
  }

  ghost predicate On(w: World, k: CompKey) {
    k.entity in w.ents && k.comp in w.ents[k.entity]
  }

  /** The conditions under which the buffer behaves like the plain model, each decided by the caller's own past calls.
      `Hazards.StepExact` shows that they are exact. */
  ghost predicate Allowed(m: Model, reg: set<CompId>, call: Call) {
    match call
    case DoCreate(num, comps) => comps != [] && NoDup(comps) ==> forall c :: c in comps ==> c in reg
    case DoRemove(e) => !Vanished(m, e)
    case DoTypes(e) => !Vanished(m, e)
    case DoSet(c, e, v) => !Vanished(m, e)
    case DoGet(c, e) =>
      var k := CompKey(c, e);
      !Vanished(m, e) && !(k in m.unset && Persisted(m.saved, k) && On(m.cur, k))
    case DoAdd(c, e) => !Vanished(m, e) && (e in m.cur.ents && c !in m.cur.ents[e] ==> c in reg)
    case DoDrop(c, e) => !Vanished(m, e)
    case DoFinalize => true
    case DoDiscard => forall k :: k in m.removed ==> !Persisted(m.saved, k)
    case DoRestart => true
  }

  // ---------------------------------------------------------------- refinement, call by call

  ghost predicate AllIn(t: ArchTable, reg: set<CompId>) {
    forall c :: Uses(t, c) ==> c in reg
  }

  ghost predicate Refines(s: Sys, m: Model, reg: set<CompId>) {
    && Inv(s.buf, s.db) && View(s.buf, s.db) == m.cur && Saved(s.db) == m.saved
    && s.buf.doomed == m.removed && m.unset <= m.removed
    && (forall k :: k in s.buf.doomed && k !in s.buf.values ==> k in m.unset)
    && (forall k :: k in m.unset && Persisted(m.saved, k) ==> k !in s.buf.values)
    && s.buf.registry == Some(reg) && AllIn(s.buf.comps, reg)
  }

  lemma GoneIsVanished(s: Sys, m: Model, reg: set<CompId>, e: EntityId)
    requires Refines(s, m, reg)
    ensures Gone(s.buf, s.db, e) <==> Vanished(m, e)
  {
    hide Inv, AllIn, Persisted;
    SavedAt(s.db, e);
    EntsAt(s.buf, s.db, e);
    hide Ents, Saved;
  }

  lemma GrewAllIn(t: ArchTable, t': ArchTable, extra: set<CompId>, reg: set<CompId>)
    requires AllIn(t, reg) && GrewBy(t, t', extra) && extra <= reg
    ensures AllIn(t', reg)
  {
  }

  /** One call keeps the refinement and answers like the model. */
  ghost predicate Simulates(s: Sys, m: Model, reg: set<CompId>, call: Call) {
    Refines(Step(s, reg, call).0, Plain(m, call).0, reg) && Step(s, reg, call).1 == Plain(m, call).1
  }

  lemma CreateRefines(s: Sys, m: Model, reg: set<CompId>, num: nat, comps: seq<CompId>)
    requires Refines(s, m, reg) && Allowed(m, reg, DoCreate(num, comps))
    ensures Simulates(s, m, reg, DoCreate(num, comps))
  {
    hide Inv, View, Saved, GrewBy, AllIn, Create, Persisted;
    CreateMeans(s.buf, s.db, num, comps);
    if comps != [] && NoDup(comps) {
      GrewAllIn(s.buf.comps, Create(s.buf, s.db, num, comps).0.comps, (set c | c in comps), reg);
    }
  }

  lemma RemoveRefines(s: Sys, m: Model, reg: set<CompId>, e: EntityId)
    requires Refines(s, m, reg) && Allowed(m, reg, DoRemove(e))
    ensures Simulates(s, m, reg, DoRemove(e))
  {
    hide Inv, View, Saved, Gone, GrewBy, AllIn, Remove, BagKeys, Persisted;
    GoneIsVanished(s, m, reg, e);
    RemoveMeans(s.buf, s.db, e);
  }

  lemma SavedAt(db: Db, e: EntityId)
    ensures e in db.archOf <==> e in Saved(db).ents
  {
    EntsAt(Loaded(db), db, e);
  }

  lemma TypesRefines(s: Sys, m: Model, reg: set<CompId>, e: EntityId)
    requires Refines(s, m, reg) && Allowed(m, reg, DoTypes(e))
    ensures Simulates(s, m, reg, DoTypes(e))
  {
    hide Inv, View, Saved, Gone, GrewBy, AllIn, Types, Cur, Persisted;
    GoneIsVanished(s, m, reg, e);
    TypesMeans(s.buf, s.db, e);
    var r := Types(s.buf, s.db, e).1;
    if e in m.cur.ents { assert Elems(r.value) == m.cur.ents[e].Keys; }
  }

  lemma SetRefines(s: Sys, m: Model, reg: set<CompId>, c: CompId, e: EntityId, v: Value)
    requires Refines(s, m, reg) && Allowed(m, reg, DoSet(c, e, v))
    ensures Simulates(s, m, reg, DoSet(c, e, v))
  {
    hide Inv, View, Saved, Gone, GrewBy, AllIn, Set, Persisted;
    GoneIsVanished(s, m, reg, e);
    SetMeans(s.buf, s.db, c, e, v);
  }

  /** A stale component is one the caller can tell: removed and not set since, and committed with another value. */
  lemma StaleIsTold(s: Sys, m: Model, reg: set<CompId>, k: CompKey)
    requires Refines(s, m, reg)
    ensures Stale(s.buf, s.db, k) <==> k in m.unset && Persisted(m.saved, k) && On(m.cur, k)
  {
    hide ArchOk, LocInv, IdxInv, ValInv, Touched, View, Saved, AllIn, Live, Persisted, DbInv;
    LiveIsOn(s.buf, s.db, k);
    PersistedStored(s.db, k);
  }

  lemma PersistedStored(db: Db, k: CompKey)
    requires DbInv(db)
    ensures Persisted(Saved(db), k) <==> k in db.values && db.values[k] != Zero(k.comp)
  {
    var b := Loaded(db);
    hide TableOk, NoDup;
    EntsAt(b, db, k.entity);
    if k in db.values { assert k.comp in CompsAt(b, Cur(b, db, k.entity)); }
    hide Ents;
  }

  lemma GetRefines(s: Sys, m: Model, reg: set<CompId>, c: CompId, e: EntityId)
    requires Refines(s, m, reg) && Allowed(m, reg, DoGet(c, e))
    ensures Simulates(s, m, reg, DoGet(c, e))
  {
    hide Inv, View, Saved, Gone, GrewBy, AllIn, Get, Stale, Persisted;
    GoneIsVanished(s, m, reg, e);
    StaleIsTold(s, m, reg, CompKey(c, e));
    GetMeans(s.buf, s.db, c, e);
  }

  lemma AddCompRefused(b: Buf, db: Db, c: CompId, e: EntityId)
    requires Inv(b, db) && !Gone(b, db, e) && !(e in View(b, db).ents && c !in View(b, db).ents[e])
    ensures AddComp(b, db, c, e).0.comps == b.comps
  {
    hide Inv, Gone, View, Cur, Move, Normalize;
    TypesMeans(b, db, e);
  }

  lemma AddRefines(s: Sys, m: Model, reg: set<CompId>, c: CompId, e: EntityId)
    requires Refines(s, m, reg) && Allowed(m, reg, DoAdd(c, e))
    ensures Simulates(s, m, reg, DoAdd(c, e))
  {
    hide Inv, View, Saved, Gone, GrewBy, AllIn, AddComp, Persisted;
    GoneIsVanished(s, m, reg, e);
    AddCompMeans(s.buf, s.db, c, e);
    if e in m.cur.ents && c !in m.cur.ents[e] {
      GrewAllIn(s.buf.comps, AddComp(s.buf, s.db, c, e).0.comps, {c}, reg);
    } else {
      AddCompRefused(s.buf, s.db, c, e);
    }
  }

  lemma DropRefines(s: Sys, m: Model, reg: set<CompId>, c: CompId, e: EntityId)
    requires Refines(s, m, reg) && Allowed(m, reg, DoDrop(c, e))
    ensures Simulates(s, m, reg, DoDrop(c, e))
  {
    hide Inv, View, Saved, Gone, GrewBy, AllIn, RemoveComp, Persisted;
    GoneIsVanished(s, m, reg, e);
    RemoveCompMeans(s.buf, s.db, c, e);
    GrewAllIn(s.buf.comps, RemoveComp(s.buf, s.db, c, e).0.comps, {}, reg);
  }

  // ---------------------------------------------------------------- commit, discard, restart

  lemma CachedRegistered(b: Buf, db: Db, reg: set<CompId>)
    requires ValInv(b, db) && AllIn(b.comps, reg) && b.registry == Some(reg)
    ensures Encodable(b)
  {
    hide Cur;
    forall k | k in b.values ensures k.comp in reg {
      assert Live(b, db, k);
      assert Uses(b.comps, k.comp);
    }
  }

  lemma FinalizeRefines(s: Sys, m: Model, reg: set<CompId>)
    requires Refines(s, m, reg)
    ensures Simulates(s, m, reg, DoFinalize)
  {
    hide DbInv, ArchOk, LocInv, IdxInv, ValInv, Touched, Saved, AllIn, Committed;
    CachedRegistered(s.buf, s.db, reg);
    FinalizeCommits(s.buf, s.db);
    hide View;
    var f := Finalize(s.buf, s.db);
    assert f.buf.comps == s.buf.comps;
  }

  lemma DiscardRefines(s: Sys, m: Model, reg: set<CompId>)
    requires Refines(s, m, reg) && Allowed(m, reg, DoDiscard)
    ensures Simulates(s, m, reg, DoDiscard)
  {
    hide LocInv, ArchOk, IdxInv, ValInv, Touched, Whereabouts, Clean, AllIn, Discard, TableOk, View, Saved;
    var b := s.buf;
    DiscardFrame(b, s.db, reg);
    DiscardIsClean(b, s.db);
    CleanIsCoherent(Discard(b), s.db);
    forall k | k in b.doomed && k in s.db.values ensures s.db.values[k] == Zero(k.comp) {
      PersistedStored(s.db, k);
    }
    hide DbInv;
    CleanMeansSaved(Discard(b), s.db);
    hide Inv;
  }

  lemma DiscardFrame(b: Buf, db: Db, reg: set<CompId>)
    requires AllIn(b.comps, reg)
    ensures var b' := Discard(b);
            && AllIn(b'.comps, reg) && b'.doomed == b.doomed && b'.registry == b.registry
            && b'.values == map[]
  {
    assert GrewBy(b.comps, Discard(b).comps, {});
    GrewAllIn(b.comps, Discard(b).comps, {}, reg);
  }

  /** A restart with the same registration loads exactly the committed state. */
  lemma RestartLoads(db: Db, reg: set<CompId>)
    requires DbInv(db)
    ensures Register(NewBuf, db, reg).1 == Ok(()) <==> AllIn(Table(db), reg)
    ensures AllIn(Table(db), reg) ==>
              var b := Register(NewBuf, db, reg).0;
              b == Loaded(db).(registry := Some(reg)) && Inv(b, db) && View(b, db) == Saved(db)
  {
    hide Inv, View, Saved, DbInv;
    LoadedCoherent(db, reg);
    if db.table.Some? && exists a, c :: a in Table(db) && c in Table(db)[a] && c !in reg {
      var a, c :| a in Table(db) && c in Table(db)[a] && c !in reg;
      assert Uses(Table(db), c);
    }
  }

  /** Registration on any buffer: refused for a stored component that is not registered, then for a buffer that already
      has archetypes; it changes nothing but the registry and, if it succeeds on a stored table, the archetypes. */
  lemma RegisterExact(b: Buf, db: Db, reg: set<CompId>)
    ensures var (b', r) := Register(b, db, reg);
            && (r == Err(UnknownComponent) <==> !AllIn(Table(db), reg))
            && (r == Err(TableOverwrite) <==> AllIn(Table(db), reg) && db.table.Some? && b.comps != map[])
            && (r.Err? ==> r.error == UnknownComponent || r.error == TableOverwrite)
            && b' == b.(registry := Some(reg), comps := if r.Ok? && db.table.Some? then Table(db) else b.comps)
  {
    if db.table.Some? && exists a, c :: a in Table(db) && c in Table(db)[a] && c !in reg {
      var a, c :| a in Table(db) && c in Table(db)[a] && c !in reg;
      assert Uses(Table(db), c);
    }
  }

  lemma LoadedCoherent(db: Db, reg: set<CompId>)
    requires DbInv(db)
    ensures var b := Loaded(db).(registry := Some(reg)); Inv(b, db) && View(b, db) == Saved(db)
  {
    hide Inv, View, Saved, DbInv;
    var b := Loaded(db).(registry := Some(reg));
    CleanIsCoherent(b, db);
    CleanMeansSaved(b, db);
  }

  lemma StoredRegistered(b: Buf, db: Db, reg: set<CompId>)
    requires ArchInv(b, db) && AllIn(b.comps, reg)
    ensures AllIn(Table(db), reg)
  {
    hide TableOk;
    forall c | Uses(Table(db), c) ensures c in reg {
      var a :| a in Table(db) && c in Table(db)[a];
      assert Uses(b.comps, c);
    }
  }

  lemma RestartRefines(s: Sys, m: Model, reg: set<CompId>)
    requires Refines(s, m, reg)
    ensures Simulates(s, m, reg, DoRestart)
  {
    hide DbInv, ArchOk, LocInv, IdxInv, ValInv, Touched, View, Saved, AllIn, Register;
    StoredRegistered(s.buf, s.db, reg);
    RestartLoads(s.db, reg);
  }

  /** Every allowed call on a reachable state answers like the plain model and keeps the refinement. */
  lemma StepRefines(s: Sys, m: Model, reg: set<CompId>, call: Call)
    requires Refines(s, m, reg) && Allowed(m, reg, call)
    ensures Simulates(s, m, reg, call)
  {
    hide Refines, Simulates, Allowed;
    match call
    case DoCreate(num, comps) => CreateRefines(s, m, reg, num, comps);
    case DoRemove(e) => RemoveRefines(s, m, reg, e);
    case DoTypes(e) => TypesRefines(s, m, reg, e);
    case DoSet(c, e, v) => SetRefines(s, m, reg, c, e, v);
    case DoGet(c, e) => GetRefines(s, m, reg, c, e);
    case DoAdd(c, e) => AddRefines(s, m, reg, c, e);
    case DoDrop(c, e) => DropRefines(s, m, reg, c, e);
    case DoFinalize => FinalizeRefines(s, m, reg);
    case DoDiscard => DiscardRefines(s, m, reg);
    case DoRestart => RestartRefines(s, m, reg);
  }

  // ---------------------------------------------------------------- whole runs

  ghost function Run(s: Sys, reg: set<CompId>, calls: seq<Call>): (Sys, seq<Answer>) {
    if calls == [] then (s, [])
    else
      var (s1, as1) := Run(s, reg, calls[..|calls| - 1]);
      var (s2, a) := Step(s1, reg, calls[|calls| - 1]);
      (s2, as1 + [a])
  }

  ghost function PlainRun(m: Model, calls: seq<Call>): (Model, seq<Answer>) {
    if calls == [] then (m, [])
    else
      var (m1, as1) := PlainRun(m, calls[..|calls| - 1]);
      var (m2, a) := Plain(m1, calls[|calls| - 1]);
      (m2, as1 + [a])
  }

  ghost predicate RunAllowed(m: Model, reg: set<CompId>, calls: seq<Call>) {
    forall i :: 0 <= i < |calls| ==> Allowed(PlainRun(m, calls[..i]).0, reg, calls[i])
  }

  lemma {:induction false} RunRefines(s: Sys, m: Model, reg: set<CompId>, calls: seq<Call>)
    requires Refines(s, m, reg) && RunAllowed(m, reg, calls)
    ensures Refines(Run(s, reg, calls).0, PlainRun(m, calls).0, reg)
    ensures Run(s, reg, calls).1 == PlainRun(m, calls).1
  {
    hide Refines, Allowed, Step, Plain;
    if calls != [] {
      var init := calls[..|calls| - 1];
      assert forall i :: 0 <= i < |init| ==> init[..i] == calls[..i];
      RunRefines(s, m, reg, init);
      StepRefines(Run(s, reg, init).0, PlainRun(m, init).0, reg, calls[|calls| - 1]);
    }
  }

  const Nothing := World(map[], 0, 0)
  const Blank := Model(Nothing, Nothing, {}, {})

  lemma EmptyRefines(reg: set<CompId>)
    ensures Refines(Sys(Register(NewBuf, EmptyDb, reg).0, EmptyDb), Blank, reg)
  {
    assert DbInv(EmptyDb);
    RestartLoads(EmptyDb, reg);
    assert Ents(Loaded(EmptyDb), EmptyDb) == map[];
    hide Inv;
  }

  /** From an empty store, any run of allowed calls, commits, discards and restarts answers exactly like the plain
      map, and in the state it reaches the two indexes are inverse and the archetype table is well formed. */
  lemma BufferRefinesPlainMap(reg: set<CompId>, calls: seq<Call>)
    requires RunAllowed(Blank, reg, calls)
    ensures var s0 := Sys(Register(NewBuf, EmptyDb, reg).0, EmptyDb);
            var (s, answers) := Run(s0, reg, calls); var (m, expected) := PlainRun(Blank, calls);
            && answers == expected && View(s.buf, s.db) == m.cur && Saved(s.db) == m.saved
            && Inv(s.buf, s.db)
  {
    EmptyRefines(reg);
    RunRefines(Sys(Register(NewBuf, EmptyDb, reg).0, EmptyDb), Blank, reg, calls);
    hide Run, PlainRun, RunAllowed, Inv, View, Saved;
  }
}
