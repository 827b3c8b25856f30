/** The persistent side of the game state: the Redis keys of cardinal/gamestate/keys.go as the
    fields of one record, and the commands that a MULTI/EXEC transaction applies to them. */
module Storage {
  import opened Base

  type EntityId = nat
  type CompId = nat
  type ArchId = nat

  /** An encoded component value: the encoding of the component type's zero value, or any other. */
  datatype Value = Zero(comp: CompId) | Json(bytes: string)

  datatype CompKey = CompKey(comp: CompId, entity: EntityId)

  type ArchTable = map<ArchId, seq<CompId>>

  /** `next` and `tick` read 0 when their key is absent; the other keys can be missing. */
  datatype Db = Db(
    values: map<CompKey, Value>,
    next: nat,
    archOf: map<EntityId, ArchId>,
    active: map<ArchId, seq<EntityId>>,
    table: Option<ArchTable>,
    tick: nat)

  const EmptyDb := Db(map[], 0, map[], map[], None, 0)

  datatype Cmd =
    | SetValue(key: CompKey, value: Value)
    | DelValue(key: CompKey)
    | SetNext(next: nat)
    | SetTable(table: ArchTable)
    | SetArch(entity: EntityId, arch: ArchId)
    | DelArch(entity: EntityId)
    | SetActive(arch: ArchId, ids: seq<EntityId>)
    | IncrTick

  function Apply(db: Db, cmd: Cmd): Db {
    match cmd
    case SetValue(k, v) => db.(values := db.values[k := v])
    case DelValue(k) => db.(values := db.values - {k})
    case SetNext(n) => db.(next := n)
    case SetTable(t) => db.(table := Some(t))
    case SetArch(e, a) => db.(archOf := db.archOf[e := a])
    case DelArch(e) => db.(archOf := db.archOf - {e})
    case SetActive(a, ids) => db.(active := db.active[a := ids])
    case IncrTick => db.(tick := db.tick + 1)
  }

  /** EXEC: the queued commands take effect together, in order. */
  function Exec(db: Db, cmds: seq<Cmd>): Db {
    if cmds == [] then db else Apply(Exec(db, cmds[..|cmds| - 1]), cmds[|cmds| - 1])
  }

  lemma {:induction false} ExecConcat(db: Db, c1: seq<Cmd>, c2: seq<Cmd>)
    ensures Exec(db, c1 + c2) == Exec(Exec(db, c1), c2)
  {
    if c2 == [] {
      assert c1 + c2 == c1;
    } else {
      ExecConcat(db, c1, c2[..|c2| - 1]);
      assert (c1 + c2)[..|c1 + c2| - 1] == c1 + c2[..|c2| - 1];
    }
  }

  function Table(db: Db): ArchTable {
    if db.table.Some? then db.table.value else map[]
  }

  /** The active list stored for an archetype; a missing key reads as the empty list. */
  function Members(db: Db, a: ArchId): seq<EntityId> {
    if a in db.active then db.active[a] else []
  }

  /** Archetype ids are exactly 0..n-1; component sets are non-empty, strictly sorted, pairwise different. */
  ghost predicate TableOk(t: ArchTable) {
    && (forall a :: a in t <==> 0 <= a < |t|)
    && (forall a :: a in t ==> t[a] != [] && Increasing(t[a]))
    && (forall a, b :: a in t && b in t && t[a] == t[b] ==> a == b)
  }

  /** What every committed state satisfies. */
  ghost predicate DbInv(db: Db) {
    && TableOk(Table(db))
    && db.active.Keys == Table(db).Keys
    && (forall e :: e in db.archOf ==> db.archOf[e] in Table(db) && e < db.next)
    && (forall a :: a in db.active ==> NoDup(db.active[a]))
    && (forall a, e :: a in db.active && e in db.active[a] ==> e in db.archOf && db.archOf[e] == a)
    && (forall e :: e in db.archOf ==> e in db.active[db.archOf[e]])
    && (forall k :: k in db.values ==>
          k.entity in db.archOf && k.comp in Table(db)[db.archOf[k.entity]])
  }
}
