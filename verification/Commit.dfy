/** FinalizeTick, DiscardPending and reload: the batch of commands, its independence of map iteration
    order, and the coherence of what it leaves in storage and in the buffer. */
module Commit {
  import opened Base
  import opened Storage
  import opened Buffer
  import opened Coherence

  // ---------------------------------------------------------------- the batch, for any iteration order

  /** A listing of a map's keys, in whatever order Go's iteration produces. */
  ghost predicate Lists<T(!new)>(s: seq<T>, keys: set<T>) {
    NoDup(s) && forall x :: x in s <==> x in keys
  }

  /** One iteration order for each of the four maps the pipe is built from. */
  datatype Orders = Orders(dels: seq<CompKey>, sets: seq<CompKey>, moved: seq<EntityId>, lists: seq<ArchId>)

  ghost predicate OrdersOf(o: Orders, b: Buf) {
    && Lists(o.dels, b.doomed) && Lists(o.sets, b.values.Keys)
    && Lists(o.moved, b.originOf.Keys) && Lists(o.lists, b.active.Keys)
  }

  function DelCmds(ks: seq<CompKey>): seq<Cmd> {
    if ks == [] then [] else DelCmds(ks[..|ks| - 1]) + [DelValue(ks[|ks| - 1])]
  }

  function SetCmds(values: map<CompKey, Value>, ks: seq<CompKey>): seq<Cmd>
    requires forall k :: k in ks ==> k in values
  {
    if ks == [] then [] else
      SetCmds(values, ks[..|ks| - 1]) + [SetValue(ks[|ks| - 1], values[ks[|ks| - 1]])]
  }

  function NextCmds(b: Buf): seq<Cmd> {
    if b.pendingIds == 0 then [] else [SetNext(b.nextSaved + b.pendingIds)]
  }

  function TableCmds(b: Buf): seq<Cmd> {
    if b.pendingArchs == [] then [] else [SetTable(b.comps)]
  }

  /** An entity back at its origin needs no command. */
  function MoveCmd(archOf: map<EntityId, ArchId>, originOf: map<EntityId, Origin>, e: EntityId): seq<Cmd>
    requires e in originOf
  {
    if e !in archOf then [DelArch(e)]
    else if originOf[e] == Home(archOf[e]) then []
    else [SetArch(e, archOf[e])]
  }

  function MoveCmds(archOf: map<EntityId, ArchId>, originOf: map<EntityId, Origin>, es: seq<EntityId>): seq<Cmd>
    requires forall e :: e in es ==> e in originOf
  {
    if es == [] then []
    else MoveCmds(archOf, originOf, es[..|es| - 1]) + MoveCmd(archOf, originOf, es[|es| - 1])
  }

  function ListCmd(active: map<ArchId, Active>, a: ArchId): seq<Cmd>
    requires a in active
  {
    if active[a].modified then [SetActive(a, active[a].ids)] else []
  }

  function ListCmds(active: map<ArchId, Active>, xs: seq<ArchId>): seq<Cmd>
    requires forall a :: a in xs ==> a in active
  {
    if xs == [] then [] else ListCmds(active, xs[..|xs| - 1]) + ListCmd(active, xs[|xs| - 1])
  }

  /** makePipeOfRedisCommands plus the tick increment of FinalizeTick. */
  function Pipe(b: Buf, o: Orders): seq<Cmd>
    requires forall k :: k in o.sets ==> k in b.values
    requires forall e :: e in o.moved ==> e in b.originOf
    requires forall a :: a in o.lists ==> a in b.active
  {
    DelCmds(o.dels) + SetCmds(b.values, o.sets) + NextCmds(b) + TableCmds(b)
    + MoveCmds(b.archOf, b.originOf, o.moved) + ListCmds(b.active, o.lists) + [IncrTick]
  }

  lemma {:induction false} DelCmdsExec(db: Db, ks: seq<CompKey>)
    ensures Exec(db, DelCmds(ks)) == db.(values := db.values - Elems(ks))
  {
    if ks != [] {
      var init, k := ks[..|ks| - 1], ks[|ks| - 1];
      DelCmdsExec(db, init);
      ExecConcat(db, DelCmds(init), [DelValue(k)]);
      assert Elems(ks) == Elems(init) + {k};
      assert Exec(Exec(db, DelCmds(init)), [DelValue(k)]) == Apply(Exec(db, DelCmds(init)), DelValue(k));
      assert db.values - Elems(init) - {k} == db.values - Elems(ks);
    } else {
      assert db.values - Elems(ks) == db.values;
    }
  }

  lemma ExecOne(db: Db, c: Cmd)
    ensures Exec(db, [c]) == Apply(db, c)
  {
    assert [c][..0] == [];
  }

  lemma ExecNone(db: Db)
    ensures Exec(db, []) == db
  {
  }

  ghost function Picked(b: Buf, ks: seq<CompKey>): map<CompKey, Value>
    requires forall k :: k in ks ==> k in b.values
  {
    map k | k in ks :: b.values[k]
  }

  lemma {:induction false} SetCmdsExec(db: Db, b: Buf, ks: seq<CompKey>)
    requires forall k :: k in ks ==> k in b.values
    ensures Exec(db, SetCmds(b.values, ks)) == db.(values := db.values + Picked(b, ks))
  {
    hide Exec;
    if ks != [] {
      var init, k := ks[..|ks| - 1], ks[|ks| - 1];
      SetCmdsExec(db, b, init);
      ExecConcat(db, SetCmds(b.values, init), [SetValue(k, b.values[k])]);
      ExecOne(Exec(db, SetCmds(b.values, init)), SetValue(k, b.values[k]));
      assert forall x :: x in ks <==> x in init || x == k;
      assert (db.values + Picked(b, init))[k := b.values[k]] == db.values + Picked(b, ks);
    } else {
      ExecNone(db);
      assert db.values + Picked(b, ks) == db.values;
    }
  }

  /** Where the entity step has got to once the entities `done` are written. */
  ghost function Homes(b: Buf, db: Db, done: set<EntityId>): map<EntityId, ArchId> {
    map e | e in db.archOf.Keys + done && HomeAfter(b, db, done, e).Some? :: HomeAfter(b, db, done, e).value
  }

  ghost function HomeAfter(b: Buf, db: Db, done: set<EntityId>, e: EntityId): Option<ArchId> {
    if e in done then NewHome(b, db, e) else if e in db.archOf then Some(db.archOf[e]) else None
  }

  lemma MoveCmdExec(db: Db, b: Buf, done: set<EntityId>, e: EntityId)
    requires e in b.originOf && e !in done
    ensures Exec(db.(archOf := Homes(b, db, done)), MoveCmd(b.archOf, b.originOf, e))
         == db.(archOf := Homes(b, db, done + {e}))
  {
    var d := db.(archOf := Homes(b, db, done));
    if MoveCmd(b.archOf, b.originOf, e) != [] { ExecOne(d, MoveCmd(b.archOf, b.originOf, e)[0]); }
    var h, h' := Homes(b, db, done), Homes(b, db, done + {e});
    assert forall x :: HomeAfter(b, db, done + {e}, x) ==
                       if x == e then NewHome(b, db, e) else HomeAfter(b, db, done, x);
    if e !in b.archOf {
      assert h - {e} == h';
    } else if b.originOf[e] == Home(b.archOf[e]) {
      assert h == h';
    } else {
      assert h[e := b.archOf[e]] == h';
    }
  }

  lemma {:induction false} MoveCmdsExec(db: Db, b: Buf, es: seq<EntityId>)
    requires NoDup(es) && forall e :: e in es ==> e in b.originOf
    ensures Exec(db, MoveCmds(b.archOf, b.originOf, es)) == db.(archOf := Homes(b, db, Elems(es)))
  {
    if es != [] {
      var init, e := es[..|es| - 1], es[|es| - 1];
      MoveCmdsExec(db, b, init);
      ExecConcat(db, MoveCmds(b.archOf, b.originOf, init), MoveCmd(b.archOf, b.originOf, e));
      MoveCmdExec(db, b, Elems(init), e);
      assert Elems(es) == Elems(init) + {e};
    } else {
      assert Homes(b, db, Elems(es)) == db.archOf;
    }
  }

  ghost function WrittenLists(b: Buf, xs: seq<ArchId>): map<ArchId, seq<EntityId>>
    requires forall a :: a in xs ==> a in b.active
  {
    map a | a in xs && b.active[a].modified :: b.active[a].ids
  }

  lemma ListCmdExec(db: Db, b: Buf, xs: seq<ArchId>, a: ArchId)
    requires a in b.active && forall x :: x in xs ==> x in b.active
    ensures Exec(db.(active := db.active + WrittenLists(b, xs)), ListCmd(b.active, a))
         == db.(active := db.active + WrittenLists(b, xs + [a]))
  {
    var d := db.(active := db.active + WrittenLists(b, xs));
    var w := WrittenLists(b, xs + [a]);
    if b.active[a].modified {
      ExecOne(d, ListCmd(b.active, a)[0]);
      assert (db.active + WrittenLists(b, xs))[a := b.active[a].ids] == db.active + w;
    } else {
      assert w == WrittenLists(b, xs);
    }
  }

  lemma {:induction false} ListCmdsExec(db: Db, b: Buf, xs: seq<ArchId>)
    requires forall a :: a in xs ==> a in b.active
    ensures Exec(db, ListCmds(b.active, xs)) == db.(active := db.active + WrittenLists(b, xs))
  {
    if xs != [] {
      var init, a := xs[..|xs| - 1], xs[|xs| - 1];
      ListCmdsExec(db, b, init);
      ExecConcat(db, ListCmds(b.active, init), ListCmd(b.active, a));
      ListCmdExec(db, b, init, a);
      assert xs == init + [a];
      hide WrittenLists;
    } else {
      assert db.active + WrittenLists(b, xs) == db.active;
    }
  }

  /** Whatever order the maps are iterated in, executing the batch leaves the same storage. */
  lemma PipeCommits(b: Buf, db: Db, o: Orders)
    requires OrdersOf(o, b)
    ensures Exec(db, Pipe(b, o)) == Committed(b, db)
  {
    var p1 := DelCmds(o.dels);
    var p2 := p1 + SetCmds(b.values, o.sets);
    var p3 := p2 + NextCmds(b);
    var p4 := p3 + TableCmds(b);
    var p5 := p4 + MoveCmds(b.archOf, b.originOf, o.moved);
    var p6 := p5 + ListCmds(b.active, o.lists);
    DelCmdsExec(db, o.dels);
    ExecConcat(db, p1, SetCmds(b.values, o.sets));
    SetCmdsExec(Exec(db, p1), b, o.sets);
    ExecConcat(db, p2, NextCmds(b));
    ExecConcat(db, p3, TableCmds(b));
    ExecConcat(db, p4, MoveCmds(b.archOf, b.originOf, o.moved));
    ExecConcat(db, p5, ListCmds(b.active, o.lists));
    ExecConcat(db, p6, [IncrTick]);
    PipeEffects(b, db, o, Exec(db, p2));
  }

  /** A batch touches only what changed: values neither cached nor marked for deletion, archetypes of entities that were
      not moved, lists that were not modified, and, with nothing new, the counter and the archetype table stay as they
      are, absent keys included. */
  lemma PipeFrame(b: Buf, db: Db, o: Orders)
    requires OrdersOf(o, b)
    ensures var db' := Exec(db, Pipe(b, o));
            && (forall k :: k !in b.doomed && k !in b.values ==>
                  (k in db'.values <==> k in db.values) && (k in db.values ==> db'.values[k] == db.values[k]))
            && (forall e :: e !in b.originOf ==>
                  (e in db'.archOf <==> e in db.archOf) && (e in db.archOf ==> db'.archOf[e] == db.archOf[e]))
            && (forall a :: a !in b.active || !b.active[a].modified ==>
                  (a in db'.active <==> a in db.active) && (a in db.active ==> db'.active[a] == db.active[a]))
            && (b.pendingIds == 0 ==> db'.next == db.next)
            && (b.pendingArchs == [] ==> db'.table == db.table)
  {
    hide Exec, Pipe, OrdersOf;
    PipeCommits(b, db, o);
  }

  /** The counter and archetype table steps. */
  lemma HeaderExec(b: Buf, d: Db)
    ensures Exec(Exec(d, NextCmds(b)), TableCmds(b)) == d.(
              next := if b.pendingIds == 0 then d.next else b.nextSaved + b.pendingIds,
              table := if b.pendingArchs == [] then d.table else Some(b.comps))
  {
    var d1 := Exec(d, NextCmds(b));
    if b.pendingIds != 0 { ExecOne(d, NextCmds(b)[0]); }
    if b.pendingArchs != [] { ExecOne(d1, TableCmds(b)[0]); }
  }

  lemma PipeEffects(b: Buf, db: Db, o: Orders, d2: Db)
    requires OrdersOf(o, b)
    requires d2 == db.(values := (db.values - Elems(o.dels)) + Picked(b, o.sets))
    ensures var d4 := Exec(Exec(d2, NextCmds(b)), TableCmds(b));
            Exec(Exec(Exec(d4, MoveCmds(b.archOf, b.originOf, o.moved)), ListCmds(b.active, o.lists)), [IncrTick])
            == Committed(b, db)
  {
    hide Homes, WrittenLists, Picked, NewHome, NoDup, MoveCmds, ListCmds, Elems, Exec, NextCmds, TableCmds;
    HeaderExec(b, d2);
    var d4 := Exec(Exec(d2, NextCmds(b)), TableCmds(b));
    MoveCmdsExec(d4, b, o.moved);
    var d5 := Exec(d4, MoveCmds(b.archOf, b.originOf, o.moved));
    ListCmdsExec(d5, b, o.lists);
    ExecOne(Exec(d5, ListCmds(b.active, o.lists)), IncrTick);
    PipeMaps(b, db, d4, o);
  }

  /** The four written maps are what `Committed` says they are. */
  lemma PipeMaps(b: Buf, db: Db, d4: Db, o: Orders)
    requires OrdersOf(o, b) && d4.archOf == db.archOf
    ensures Elems(o.dels) == b.doomed && Picked(b, o.sets) == b.values
    ensures Homes(b, d4, Elems(o.moved)) == Committed(b, db).archOf
    ensures WrittenLists(b, o.lists) == (map a | a in b.active && b.active[a].modified :: b.active[a].ids)
  {
    assert Elems(o.moved) == b.originOf.Keys;
    assert forall e :: HomeAfter(b, d4, b.originOf.Keys, e) == NewHome(b, db, e);
    hide NewHome;
  }
}
