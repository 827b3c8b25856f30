/** The entity command buffer of cardinal/gamestate/ecb.go as functions on its fields: what each call
    returns and what it leaves behind, error paths included. The class in CommandBuffer.dfy is proved
    against these functions. */
module Buffer {
  import opened Base
  import opened Storage

  datatype Active = Active(ids: seq<EntityId>, modified: bool)

  /** The archetype an entity had in storage when it was first moved; `Unborn` is the -1 sentinel. */
  datatype Origin = Unborn | Home(arch: ArchId)

  datatype Buf = Buf(
    values: map<CompKey, Value>,
    doomed: set<CompKey>,
    active: map<ArchId, Active>,
    nextSaved: nat,
    pendingIds: nat,
    idLoaded: bool,
    archOf: map<EntityId, ArchId>,
    originOf: map<EntityId, Origin>,
    comps: ArchTable,
    pendingArchs: seq<ArchId>,
    registry: Option<set<CompId>>)

  datatype Error =
    | NoSuchEntity | NotOnEntity | AlreadyOnEntity | LastComponent
    | NoComponents | DuplicateComponents | NoSuchArchetype | NotInActiveList
    | NotRegistered | UnknownComponent | TableOverwrite

  const NewBuf := Buf(map[], {}, map[], 0, 0, false, map[], map[], map[], [], None)

  // ---------------------------------------------------------------- lookups and lazy loads

  /** getArchetypeForEntity: the cache, then storage. */
  function LookupArch(b: Buf, db: Db, e: EntityId): Option<ArchId> {
    if e in b.archOf then Some(b.archOf[e])
    else if e in db.archOf then Some(db.archOf[e])
    else None
  }

  function CacheArch(b: Buf, db: Db, e: EntityId): Buf {
    if e !in b.archOf && e in db.archOf then b.(archOf := b.archOf[e := db.archOf[e]]) else b
  }

  /** getActiveEntities: an archetype's list is read from storage on first use. */
  function LoadActive(b: Buf, db: Db, a: ArchId): Buf {
    if a in b.active then b else b.(active := b.active[a := Active(Members(db, a), false)])
  }

  function Ids(b: Buf, db: Db, a: ArchId): seq<EntityId> {
    if a in b.active then b.active[a].ids else Members(db, a)
  }

  function PutActive(b: Buf, a: ArchId, ids: seq<EntityId>): Buf {
    b.(active := b.active[a := Active(ids, true)])
  }

  function IndexOf(ids: seq<EntityId>, e: EntityId): (i: nat)
    requires e in ids
    ensures i < |ids| && ids[i] == e && e !in ids[..i]
  {
    if ids[0] == e then 0
    else
      var i := IndexOf(ids[1..], e) + 1;
      assert ids[..i] == [ids[0]] + ids[1..][..i - 1];
      i
  }

  /** activeEntities.swapRemove: the last id takes the removed id's place. */
  function SwapRemove(ids: seq<EntityId>, e: EntityId): (r: seq<EntityId>)
    requires e in ids
    ensures |r| == |ids| - 1
  {
    var i, last := IndexOf(ids, e), |ids| - 1;
    (if i < last then ids[i := ids[last]] else ids)[..last]
  }

  /** Swap-removal takes out exactly one id and keeps the others, each once. */
  lemma SwapRemoveExact(ids: seq<EntityId>, e: EntityId)
    requires e in ids && NoDup(ids)
    ensures NoDup(SwapRemove(ids, e))
    ensures forall x :: x in SwapRemove(ids, e) <==> x in ids && x != e
  {
    var i, last, r := IndexOf(ids, e), |ids| - 1, SwapRemove(ids, e);
    forall x ensures x in r <==> x in ids && x != e {
      if x in ids && x != e {
        var j :| 0 <= j < |ids| && ids[j] == x;
        if j == last { assert r[i] == x; } else { assert r[j] == x; }
      }
      if x in r {
        var j :| 0 <= j < |r| && r[j] == x;
        assert x == ids[j] || x == ids[last];
      }
    }
  }

  // ---------------------------------------------------------------- archetypes

  /** sortComponentSet plus the emptiness test of GetArchIDForComponents. */
  function Normalize(cs: seq<CompId>): (r: Result<seq<CompId>, Error>)
    ensures r.Ok? ==> r.value != [] && Increasing(r.value) && forall c :: c in r.value <==> c in cs
    ensures r == Err(NoComponents) <==> cs == []
    ensures r.Ok? <==> cs != [] && NoDup(cs)
  {
    SortNoDup(cs);
    if cs == [] then Err(NoComponents)
    else if HasRepeat(Sort(cs)) then Err(DuplicateComponents)
    else Ok(Sort(cs))
  }

  /** The adjacent-pair test on a sorted list. */
  function HasRepeat(s: seq<nat>): (r: bool)
    requires Sorted(s)
    ensures r <==> !Increasing(s)
  {
    if |s| < 2 then false
    else
      assert forall i, j :: 0 <= i < j < |s| - 1 ==> s[1..][i] == s[i + 1] && s[1..][j] == s[j + 1];
      assert s[0] < s[1] && Increasing(s[1..]) ==> Increasing(s) by {
        if s[0] < s[1] && Increasing(s[1..]) {
          forall i, j | 0 <= i < j < |s| ensures s[i] < s[j] {
            if i == 0 { assert s[1] <= s[j] || j == 1; } else { assert s[1..][i - 1] < s[1..][j - 1]; }
          }
        }
      }
      s[0] == s[1] || HasRepeat(s[1..])
  }

  ghost function FindArch(t: ArchTable, cs: seq<CompId>): (r: Option<ArchId>)
    ensures r.Some? ==> r.value in t && t[r.value] == cs
    ensures r.None? ==> forall a :: a in t ==> t[a] != cs
  {
    if exists a :: a in t && t[a] == cs then
      var a :| a in t && t[a] == cs;
      Some(a)
    else None
  }

  /** getOrMakeArchIDForComponents on a normalised set: a new set takes id len(archIDToComps). */
  ghost function MakeArch(b: Buf, cs: seq<CompId>): Buf {
    if FindArch(b.comps, cs).Some? then b
    else b.(comps := b.comps[|b.comps| := cs], pendingArchs := b.pendingArchs + [|b.comps|])
  }

  ghost function ArchFor(b: Buf, cs: seq<CompId>): ArchId {
    var f := FindArch(b.comps, cs);
    if f.Some? then f.value else |b.comps|
  }

  // ---------------------------------------------------------------- entity ids

  function NextId(b: Buf, db: Db): nat {
    if b.idLoaded then b.nextSaved + b.pendingIds else db.next
  }

  /** nextEntityID: the counter is loaded from storage on first use after a commit or discard. */
  function TakeId(b: Buf, db: Db): Buf {
    var b1 := if b.idLoaded then b else b.(nextSaved := db.next, pendingIds := 0, idLoaded := true);
    b1.(pendingIds := b1.pendingIds + 1)
  }

  // ---------------------------------------------------------------- calls

  type Reply<+T> = (Buf, Result<T, Error>)

  function Types(b: Buf, db: Db, e: EntityId): Reply<seq<CompId>> {
    match LookupArch(b, db, e)
    case None => (b, Err(NoSuchEntity))
    case Some(a) =>
      var b1 := CacheArch(b, db, e);
      if a in b1.comps then (b1, Ok(b1.comps[a])) else (b1, Err(NoSuchArchetype))
  }

  /** One iteration of the CreateManyEntities loop, with the active list kept up to date. */
  function Spawn(b: Buf, db: Db, a: ArchId): Buf {
    var e, b1 := NextId(b, db), TakeId(b, db);
    PutActive(b1.(archOf := b1.archOf[e := a], originOf := b1.originOf[e := Unborn]), a, Ids(b, db, a) + [e])
  }

  function SpawnMany(b: Buf, db: Db, a: ArchId, n: nat): Buf {
    if n == 0 then b else Spawn(SpawnMany(b, db, a, n - 1), db, a)
  }

  /** CreateManyEntities up to its loop: the archetype exists and its list is marked modified. */
  ghost function OpenArch(b: Buf, db: Db, cs: seq<CompId>): Buf {
    var a, b1 := ArchFor(b, cs), MakeArch(b, cs);
    PutActive(b1, a, Ids(b1, db, a))
  }

  function IdRange(first: EntityId, n: nat): seq<EntityId> {
    seq(n, i => first + i)
  }

  ghost function Create(b: Buf, db: Db, num: nat, comps: seq<CompId>): Reply<seq<EntityId>> {
    match Normalize(comps)
    case Err(err) => (b, Err(err))
    case Ok(cs) =>
      (SpawnMany(OpenArch(b, db, cs), db, ArchFor(b, cs), num),
       Ok(IdRange(NextId(b, db), num)))
  }

  function KeysOf(cs: seq<CompId>, e: EntityId): set<CompKey> {
    set c | c in cs :: CompKey(c, e)
  }

  /** RemoveEntity once the id has been found in its active list. */
  function Drop(b: Buf, db: Db, a: ArchId, e: EntityId): Buf
    requires e in Ids(b, db, a)
  {
    var b1 := PutActive(b, a, SwapRemove(Ids(b, db, a), e));
    b1.(originOf := if e in b1.originOf then b1.originOf else b1.originOf[e := Home(a)],
        archOf := b1.archOf - {e})
  }

  function DropValues(b: Buf, ks: set<CompKey>): Buf {
    b.(values := b.values - ks, doomed := b.doomed + ks)
  }

  function Remove(b: Buf, db: Db, e: EntityId): Reply<()> {
    match LookupArch(b, db, e)
    case None => (b, Err(NoSuchEntity))
    case Some(a) =>
      var b1 := CacheArch(b, db, e);
      if e !in Ids(b1, db, a) then (LoadActive(b1, db, a), Err(NotInActiveList))
      else
        var b2 := Drop(b1, db, a, e);
        if a !in b2.comps then (b2, Err(NoSuchArchetype))
        else (DropValues(b2, KeysOf(b2.comps[a], e)), Ok(()))
  }

  function Set(b: Buf, db: Db, c: CompId, e: EntityId, v: Value): Reply<()> {
    var (b1, ts) := Types(b, db, e);
    match ts
    case Err(err) => (b1, Err(err))
    case Ok(cs) =>
      if c !in cs then (b1, Err(NotOnEntity))
      else (b1.(values := b1.values[CompKey(c, e) := v]), Ok(()))
  }

  /** The value storage holds for a component; a component never stored has its zero value. */
  function Stored(db: Db, k: CompKey): Value {
    if k in db.values then db.values[k] else Zero(k.comp)
  }

  /** GetComponentForEntity: the cache answers first; a miss reads storage, whatever `doomed` says. */
  function Get(b: Buf, db: Db, c: CompId, e: EntityId): Reply<Value> {
    var k := CompKey(c, e);
    if k in b.values then (b, Ok(b.values[k]))
    else
      var (b1, ts) := Types(b, db, e);
      match ts
      case Err(err) => (b1, Err(err))
      case Ok(cs) =>
        if c !in cs then (b1, Err(NotOnEntity))
        else (b1.(values := b1.values[k := Stored(db, k)]), Ok(Stored(db, k)))
  }

  /** The part of moveEntityByArchetype that precedes the two list updates. */
  function Readdress(b: Buf, src: ArchId, dst: ArchId, e: EntityId): Buf {
    b.(originOf := if e in b.originOf then b.originOf else b.originOf[e := Home(src)],
       archOf := b.archOf[e := dst])
  }

  /** moveEntityByArchetype. */
  function Move(b: Buf, db: Db, src: ArchId, dst: ArchId, e: EntityId): Reply<()> {
    var b1 := Readdress(b, src, dst, e);
    if e !in Ids(b1, db, src) then (LoadActive(b1, db, src), Err(NotInActiveList))
    else
      var b2 := PutActive(b1, src, SwapRemove(Ids(b1, db, src), e));
      (PutActive(b2, dst, Ids(b2, db, dst) + [e]), Ok(()))
  }

  ghost function AddComp(b: Buf, db: Db, c: CompId, e: EntityId): Reply<()> {
    var (b1, ts) := Types(b, db, e);
    match ts
    case Err(err) => (b1, Err(err))
    case Ok(cs) =>
      if c in cs then (b1, Err(AlreadyOnEntity))
      else
        match Normalize(cs + [c])
        case Err(err) => (b1, Err(err))
        case Ok(to) =>
          var b2 := MakeArch(b1, to);
          var b3 := MakeArch(b2, cs);
          Move(b3, db, ArchFor(b2, cs), ArchFor(b1, to), e)
  }

  function Without(cs: seq<CompId>, c: CompId): (r: seq<CompId>)
    ensures forall x :: x in r <==> x in cs && x != c
    ensures Increasing(cs) ==> Increasing(r)
    ensures c !in cs ==> r == cs
  {
    if cs == [] then []
    else
      var init, last := cs[..|cs| - 1], cs[|cs| - 1];
      assert cs == init + [last];
      assert Increasing(cs) ==> Increasing(init) && forall x :: x in init ==> x < last;
      var w := Without(init, c);
      assert forall i :: 0 <= i < |w| ==> w[i] in init;
      if last == c then w else w + [last]
  }

  ghost function RemoveComp(b: Buf, db: Db, c: CompId, e: EntityId): Reply<()> {
    var (b1, ts) := Types(b, db, e);
    match ts
    case Err(err) => (b1, Err(err))
    case Ok(cs) =>
      if c !in cs then (b1, Err(NotOnEntity))
      else if Without(cs, c) == [] then (b1, Err(LastComponent))
      else
        var b2 := DropValues(b1, {CompKey(c, e)});
        var b3 := MakeArch(b2, cs);
        var b4 := MakeArch(b3, Without(cs, c));
        Move(b4, db, ArchFor(b2, cs), ArchFor(b3, Without(cs, c)), e)
  }

  // ---------------------------------------------------------------- discard, commit, load

  function Discard(b: Buf): Buf {
    b.(values := map[],
       active := map[],
       archOf := b.archOf - b.originOf.Keys,
       originOf := map[],
       idLoaded := false,
       pendingIds := 0,
       comps := b.comps - (set a | a in b.pendingArchs),
       pendingArchs := [])
  }

  /** Where an entity is stored after the commit: the entity step of the pipe. */
  function NewHome(b: Buf, db: Db, e: EntityId): Option<ArchId> {
    var stored := if e in db.archOf then Some(db.archOf[e]) else None;
    if e !in b.originOf then stored
    else if e !in b.archOf then None
    else if b.originOf[e] == Home(b.archOf[e]) then stored
    else Some(b.archOf[e])
  }

  /** The storage a committed batch leaves, as one record. */
  function Committed(b: Buf, db: Db): Db {
    Db(
      (db.values - b.doomed) + b.values,
      if b.pendingIds == 0 then db.next else b.nextSaved + b.pendingIds,
      map e | e in db.archOf.Keys + b.originOf.Keys && NewHome(b, db, e).Some? :: NewHome(b, db, e).value,
      db.active + (map a | a in b.active && b.active[a].modified :: b.active[a].ids),
      if b.pendingArchs == [] then db.table else Some(b.comps),
      db.tick + 1)
  }

  predicate Encodable(b: Buf) {
    b.registry.Some? && forall k :: k in b.values ==> k.comp in b.registry.value
  }

  datatype Final = Final(buf: Buf, db: Db, result: Result<(), Error>)

  /** FinalizeTick. A failed encoding leaves storage alone but has already emptied the delete set. */
  function Finalize(b: Buf, db: Db): Final {
    if b.registry.None? then Final(b, db, Err(NotRegistered))
    else if !Encodable(b) then Final(b.(doomed := {}), db, Err(UnknownComponent))
    else Final(Discard(b.(doomed := {}, pendingArchs := [])), Committed(b, db), Ok(()))
  }

  /** RegisterComponents: install the registry and load the archetype table. */
  function Register(b: Buf, db: Db, reg: set<CompId>): Reply<()> {
    var b1 := b.(registry := Some(reg));
    if db.table.None? then (b1, Ok(()))
    else if exists a, c :: a in Table(db) && c in Table(db)[a] && c !in reg then (b1, Err(UnknownComponent))
    else if b1.comps != map[] then (b1, Err(TableOverwrite))
    else (b1.(comps := Table(db)), Ok(()))
  }
}
