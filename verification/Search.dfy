/** Entity searches: component filters, And/Or/Not over searches, and the per-search archetype cache. */
module Search {
  import opened Base
  import opened Storage
  import opened Buffer
  import opened Coherence
  import opened Views
  import opened Calls
  import opened Refinement
  import opened Allocation

  // ---------------------------------------------------------------- component filters

  datatype Filter =
    | All
    | Exact(comps: seq<CompId>)
    | Contains(comps: seq<CompId>)
    | AllOf(filters: seq<Filter>)
    | AnyOf(filters: seq<Filter>)
    | NoneOf(filter: Filter)

  /** MatchesComponents: Exact compares lengths and then tests membership one way only. */
  predicate Matches(f: Filter, cs: seq<CompId>) {
    match f
    case All => true
    case Exact(fs) => |cs| == |fs| && forall i :: 0 <= i < |cs| ==> cs[i] in fs
    case Contains(fs) => forall i :: 0 <= i < |fs| ==> fs[i] in cs
    case AllOf(fs) => forall i :: 0 <= i < |fs| ==> Matches(fs[i], cs)
    case AnyOf(fs) => exists i :: 0 <= i < |fs| && Matches(fs[i], cs)
    case NoneOf(g) => !Matches(g, cs)
  }

  /** On an archetype's component set, which has no repeats, the length test makes Exact set equality: by the
      pigeonhole principle a filter with a repeated component matches nothing. */
  lemma ExactIsSetEquality(fs: seq<CompId>, cs: seq<CompId>)
    requires NoDup(cs)
    ensures Matches(Exact(fs), cs) <==> Elems(cs) == Elems(fs) && NoDup(fs)
  {
    NoDupCard(cs);
    ElemsCardAtMost(fs);
    if Matches(Exact(fs), cs) {
      assert Elems(cs) <= Elems(fs);
      SubsetSameCard(Elems(cs), Elems(fs));
    } else if Elems(cs) == Elems(fs) && NoDup(fs) {
      NoDupCard(fs);
      forall i | 0 <= i < |cs| ensures cs[i] in fs { assert cs[i] in Elems(cs); }
    }
  }

  lemma SubsetSameCard<T>(a: set<T>, b: set<T>)
    requires a <= b && |a| >= |b|
    ensures a == b
  {
    assert b == a + (b - a);
    assert |b| == |a| + |b - a|;
  }

  /** A filter as a property of a set of components; an Exact with a repeated component matches nothing. */
  ghost predicate Selects(f: Filter, cs: set<CompId>) {
    match f
    case All => true
    case Exact(fs) => cs == Elems(fs) && NoDup(fs)
    case Contains(fs) => Elems(fs) <= cs
    case AllOf(fs) => forall i :: 0 <= i < |fs| ==> Selects(fs[i], cs)
    case AnyOf(fs) => exists i :: 0 <= i < |fs| && Selects(fs[i], cs)
    case NoneOf(g) => !Selects(g, cs)
  }

  lemma {:induction false} MatchesIsSelects(f: Filter, cs: seq<CompId>)
    requires NoDup(cs)
    ensures Matches(f, cs) <==> Selects(f, Elems(cs))
  {
    match f
    case All =>
    case Exact(fs) => ExactIsSetEquality(fs, cs);
    case Contains(fs) =>
      if Matches(f, cs) { forall c | c in Elems(fs) ensures c in Elems(cs) { var i :| 0 <= i < |fs| && fs[i] == c; } }
      if Selects(f, Elems(cs)) { forall i | 0 <= i < |fs| ensures fs[i] in cs { assert fs[i] in Elems(fs); } }
    case AllOf(fs) =>
      forall i | 0 <= i < |fs| ensures Matches(fs[i], cs) <==> Selects(fs[i], Elems(cs)) {
        MatchesIsSelects(fs[i], cs);
      }
    case AnyOf(fs) =>
      forall i | 0 <= i < |fs| ensures Matches(fs[i], cs) <==> Selects(fs[i], Elems(cs)) {
        MatchesIsSelects(fs[i], cs);
      }
    case NoneOf(g) => MatchesIsSelects(g, cs);
  }

  // ---------------------------------------------------------------- what a search sees

  /** The archetypes, in id order, with their component sets and their entities. */
  datatype Snapshot = Snapshot(comps: seq<seq<CompId>>, lists: seq<seq<EntityId>>)

  ghost predicate SnapOk(w: Snapshot) {
    && |w.comps| == |w.lists|
    && (forall a :: 0 <= a < |w.lists| ==> NoDup(w.lists[a]))
    && (forall a, b, e :: 0 <= a < |w.lists| && 0 <= b < |w.lists| && e in w.lists[a] && e in w.lists[b] ==> a == b)
  }

  ghost function SnapshotOf(b: Buf, db: Db): (w: Snapshot)
    requires ArchInv(b, db)
    ensures |w.comps| == |w.lists|
  {
    Snapshot(seq(|b.comps|, a requires 0 <= a < |b.comps| => Known(b.comps, a)),
             seq(|b.comps|, a requires 0 <= a < |b.comps| => Ids(b, db, a)))
  }

  ghost function Known(t: ArchTable, a: ArchId): seq<CompId> {
    if a in t then t[a] else []
  }

  lemma SnapshotOk(b: Buf, db: Db)
    requires ArchInv(b, db) && IdxInv(b, db)
    ensures SnapOk(SnapshotOf(b, db))
  {
    ArchRange(b, db);
    hide ArchOk, Whereabouts, NoDup;
    var w := SnapshotOf(b, db);
    forall a: ArchId, x: ArchId, e | a < |w.lists| && x < |w.lists| && e in w.lists[a] && e in w.lists[x]
      ensures a == x
    {
      assert e in Ids(b, db, a) && e in Ids(b, db, x);
      assert Cur(b, db, e) == Some(a) && Cur(b, db, e) == Some(x);
    }
  }

  lemma SnapshotAt(b: Buf, db: Db, e: EntityId)
    requires ArchInv(b, db) && IdxInv(b, db)
    ensures e in View(b, db).ents <==> Alive(SnapshotOf(b, db), e)
    ensures forall a :: 0 <= a < |SnapshotOf(b, db).lists| && e in SnapshotOf(b, db).lists[a] ==>
              e in View(b, db).ents && View(b, db).ents[e].Keys == Elems(SnapshotOf(b, db).comps[a])
  {
    ArchRange(b, db);
    hide ArchOk, Whereabouts, NoDup, ValueOf;
    var w := SnapshotOf(b, db);
    EntsAt(b, db, e);
    hide Ents;
    if Cur(b, db, e).Some? { assert e in w.lists[Cur(b, db, e).value]; }
    forall a | 0 <= a < |w.lists| && e in w.lists[a] ensures Cur(b, db, e) == Some(a) { assert e in Ids(b, db, a); }
  }

  /** A coherent buffer presents every live entity in exactly one archetype, the one with its components. */
  lemma SnapshotFaithful(b: Buf, db: Db)
    requires Inv(b, db)
    ensures var w := SnapshotOf(b, db);
            && SnapOk(w)
            && (forall e :: e in View(b, db).ents <==> Alive(w, e))
            && (forall a, e :: 0 <= a < |w.lists| && e in w.lists[a] ==>
                  e in View(b, db).ents && View(b, db).ents[e].Keys == Elems(w.comps[a]))
  {
    hide DbInv, ArchOk, LocInv, IdxInv, ValInv, Touched, View;
    SnapshotOk(b, db);
    forall e: EntityId
      ensures e in View(b, db).ents <==> Alive(SnapshotOf(b, db), e)
      ensures forall a :: 0 <= a < |SnapshotOf(b, db).lists| && e in SnapshotOf(b, db).lists[a] ==>
                e in View(b, db).ents && View(b, db).ents[e].Keys == Elems(SnapshotOf(b, db).comps[a])
    { SnapshotAt(b, db, e); }
  }

  /** A search reads the lists it needs into the buffer, which changes neither what the buffer means nor what the next
      search sees. */
  lemma SearchKeepsMeaning(b: Buf, db: Db, a: ArchId)
    requires Inv(b, db) && a in b.comps
    ensures var b' := LoadActive(b, db, a);
            Inv(b', db) && View(b', db) == View(b, db) && SnapshotOf(b', db) == SnapshotOf(b, db)
  {
    hide DbInv, ArchInv, LocInv, IdxInv, ValInv, Touched, Cur, SnapshotOf, Ents;
    LoadActiveKeeps(b, db, a);
    SameLists(b, db, a);
    SameMeaning(b, LoadActive(b, db, a), db);
  }

  lemma SameLists(b: Buf, db: Db, a: ArchId)
    requires ArchInv(b, db) && ArchInv(LoadActive(b, db, a), db)
    ensures SnapshotOf(LoadActive(b, db, a), db) == SnapshotOf(b, db)
  {
    hide ArchInv;
  }

  lemma ArchRange(b: Buf, db: Db)
    requires ArchInv(b, db)
    ensures forall a :: a in b.comps <==> 0 <= a < |b.comps|
  {
    hide Increasing;
  }

  /** The entities of all archetypes. */
  ghost predicate Alive(w: Snapshot, e: EntityId) {
    exists a :: 0 <= a < |w.lists| && e in w.lists[a]
  }

  // ---------------------------------------------------------------- searches

  /** A `where` clause is a partial test: an error (None) excludes the entity. */
  type Where = EntityId -> Option<bool>

  datatype Query =
    | Entity(filter: Filter, where: Where)
    | Or(subs: seq<Query>)
    | And(subs: seq<Query>)
    | Not(sub: Query)

  /** What a query means: union, intersection, complement among the live entities. */
  ghost predicate Means(q: Query, w: Snapshot, e: EntityId)
    requires |w.comps| == |w.lists|
  {
    match q
    case Entity(f, where) =>
      where(e) == Some(true) && exists a :: 0 <= a < |w.lists| && e in w.lists[a] && Matches(f, w.comps[a])
    case Or(subs) => exists i :: 0 <= i < |subs| && Means(subs[i], w, e)
    case And(subs) => Alive(w, e) && forall i :: 0 <= i < |subs| ==> Means(subs[i], w, e)
    case Not(sub) => Alive(w, e) && !Means(sub, w, e)
  }

  /** Every And has something to intersect. */
  ghost predicate Proper(q: Query) {
    match q
    case Entity(_, _) => true
    case Or(subs) => forall i :: 0 <= i < |subs| ==> Proper(subs[i])
    case And(subs) => subs != [] && forall i :: 0 <= i < |subs| ==> Proper(subs[i])
    case Not(sub) => Proper(sub)
  }

  /** What the code computes: as `Means`, but an And of nothing selects nothing. */
  ghost predicate Computes(q: Query, w: Snapshot, e: EntityId)
    requires |w.comps| == |w.lists|
  {
    match q
    case Entity(f, where) =>
      where(e) == Some(true) && exists a :: 0 <= a < |w.lists| && e in w.lists[a] && Matches(f, w.comps[a])
    case Or(subs) => exists i :: 0 <= i < |subs| && Computes(subs[i], w, e)
    case And(subs) => subs != [] && forall i :: 0 <= i < |subs| ==> Computes(subs[i], w, e)
    case Not(sub) => Alive(w, e) && !Computes(sub, w, e)
  }

  lemma {:induction false} ComputesAlive(q: Query, w: Snapshot, e: EntityId)
    requires |w.comps| == |w.lists| && Computes(q, w, e)
    ensures Alive(w, e)
  {
    match q
    case Entity(f, where) =>
    case Or(subs) =>
      var i :| 0 <= i < |subs| && Computes(subs[i], w, e);
      ComputesAlive(subs[i], w, e);
    case And(subs) => ComputesAlive(subs[0], w, e);
    case Not(sub) =>
  }

  /** For queries without an empty And, what is computed is what is meant, at every depth of nesting. */
  lemma {:induction false} ComputesMeaning(q: Query, w: Snapshot, e: EntityId)
    requires |w.comps| == |w.lists| && Proper(q)
    ensures Computes(q, w, e) <==> Means(q, w, e)
  {
    match q
    case Entity(f, where) =>
    case Or(subs) => forall i | 0 <= i < |subs| ensures Computes(subs[i], w, e) <==> Means(subs[i], w, e) {
      ComputesMeaning(subs[i], w, e);
    }
    case And(subs) =>
      forall i | 0 <= i < |subs| ensures Computes(subs[i], w, e) <==> Means(subs[i], w, e) {
        ComputesMeaning(subs[i], w, e);
      }
      if Computes(q, w, e) { ComputesAlive(q, w, e); }
    case Not(sub) => ComputesMeaning(sub, w, e);
  }

  /** What a query means on the plain map of entities. */
  ghost predicate Wants(q: Query, ents: map<EntityId, Bag>, e: EntityId) {
    match q
    case Entity(f, where) => e in ents && where(e) == Some(true) && Selects(f, ents[e].Keys)
    case Or(subs) => exists i :: 0 <= i < |subs| && Wants(subs[i], ents, e)
    case And(subs) => e in ents && forall i :: 0 <= i < |subs| ==> Wants(subs[i], ents, e)
    case Not(sub) => e in ents && !Wants(sub, ents, e)
  }

  /** Over a coherent buffer, every query without an empty And selects exactly what it means on the plain map. */
  lemma {:induction false} SearchesPlainMap(q: Query, b: Buf, db: Db, e: EntityId)
    requires Inv(b, db) && Proper(q)
    ensures Computes(q, SnapshotOf(b, db), e) <==> Wants(q, View(b, db).ents, e)
  {
    hide DbInv, ArchInv, LocInv, IdxInv, ValInv, Touched, View, SnapshotOf, Matches, Selects;
    ComputesMeaning(q, SnapshotOf(b, db), e);
    hide Computes;
    MeansWants(q, b, db, e);
  }

  lemma {:induction false} MeansWants(q: Query, b: Buf, db: Db, e: EntityId)
    requires Inv(b, db)
    ensures Means(q, SnapshotOf(b, db), e) <==> Wants(q, View(b, db).ents, e)
  {
    hide DbInv, ArchInv, LocInv, IdxInv, ValInv, Touched, View, SnapshotOf, Matches, Selects;
    match q
    case Entity(f, where) => EntityWants(f, b, db, e);
    case Or(subs) =>
      forall i | 0 <= i < |subs| ensures Means(subs[i], SnapshotOf(b, db), e) <==> Wants(subs[i], View(b, db).ents, e) {
        MeansWants(subs[i], b, db, e);
      }
    case And(subs) =>
      SnapshotFaithful(b, db);
      forall i | 0 <= i < |subs| ensures Means(subs[i], SnapshotOf(b, db), e) <==> Wants(subs[i], View(b, db).ents, e) {
        MeansWants(subs[i], b, db, e);
      }
    case Not(sub) =>
      SnapshotFaithful(b, db);
      MeansWants(sub, b, db, e);
  }

  lemma EntityWants(f: Filter, b: Buf, db: Db, e: EntityId)
    requires Inv(b, db)
    ensures var w := SnapshotOf(b, db);
            (exists a :: 0 <= a < |w.lists| && e in w.lists[a] && Matches(f, w.comps[a])) <==>
            e in View(b, db).ents && Selects(f, View(b, db).ents[e].Keys)
  {
    hide IdxInv, LocInv, DbInv, ValInv, View, Matches, Selects, NoDup, TableOk;
    var w := SnapshotOf(b, db);
    SnapshotFaithful(b, db);
    SnapshotSets(b, db);
    hide SnapshotOf, Inv;
    forall a | 0 <= a < |w.lists| && e in w.lists[a]
      ensures Matches(f, w.comps[a]) <==> Selects(f, View(b, db).ents[e].Keys)
    {
      MatchesIsSelects(f, w.comps[a]);
    }
  }

  lemma SnapshotSets(b: Buf, db: Db)
    requires ArchInv(b, db)
    ensures forall a :: 0 <= a < |SnapshotOf(b, db).comps| ==> NoDup(SnapshotOf(b, db).comps[a])
  {
    forall a | 0 <= a < |b.comps| ensures NoDup(Known(b.comps, a)) { assert Increasing(b.comps[a]); }
  }

  ghost predicate Answers(r: seq<EntityId>, q: Query, w: Snapshot)
    requires |w.comps| == |w.lists|
  {
    Increasing(r) && forall e :: e in r <==> Computes(q, w, e)
  }

  /** Search.Each over the matching archetypes, in order: no entity comes twice. */
  method Scan(f: Filter, where: Where, w: Snapshot) returns (r: seq<EntityId>)
    requires SnapOk(w)
    ensures NoDup(r) && forall e :: e in r <==> Computes(Entity(f, where), w, e)
  {
    r := [];
    for a := 0 to |w.comps|
      invariant ScanInv(r, f, where, w, a, 0)
    {
      if Matches(f, w.comps[a]) {
        for i := 0 to |w.lists[a]|
          invariant ScanInv(r, f, where, w, a, i)
        {
          if where(w.lists[a][i]) == Some(true) {
            ScanFresh(r, f, where, w, a, i);
            r := r + [w.lists[a][i]];
          }
        }
      }
    }
  }

  /** Entities of archetypes below `a`, and the first `i` of archetype `a`, have been looked at. */
  ghost predicate ScanInv(r: seq<EntityId>, f: Filter, where: Where, w: Snapshot, a: nat, i: nat)
    requires |w.comps| == |w.lists|
  {
    && NoDup(r) && a <= |w.lists| && (a < |w.lists| ==> i <= |w.lists[a]|)
    && forall e :: e in r <==> where(e) == Some(true) && Seen(e, f, w, a, i)
  }

  ghost predicate Seen(e: EntityId, f: Filter, w: Snapshot, a: nat, i: nat)
    requires |w.comps| == |w.lists|
  {
    || (exists b :: 0 <= b < a && b < |w.lists| && e in w.lists[b] && Matches(f, w.comps[b]))
    || (a < |w.lists| && i <= |w.lists[a]| && e in w.lists[a][..i] && Matches(f, w.comps[a]))
  }

  lemma ScanFresh(r: seq<EntityId>, f: Filter, where: Where, w: Snapshot, a: nat, i: nat)
    requires SnapOk(w) && ScanInv(r, f, where, w, a, i) && a < |w.lists| && i < |w.lists[a]|
    ensures w.lists[a][i] !in r
  {
  }

  /** Collect: a strictly increasing list of exactly the entities the query selects, and so, with no empty And in it, of
      those it means. */
  method Collect(q: Query, w: Snapshot) returns (r: seq<EntityId>)
    requires SnapOk(w)
    ensures Answers(r, q, w)
    ensures Proper(q) ==> forall e :: e in r <==> Means(q, w, e)
    decreases q, 1
  {
    match q {
      case Entity(f, where) =>
        var acc := Scan(f, where, w);
        SortNoDup(acc);
        r := Sort(acc);
      case Or(subs) => r := CollectOr(q, subs, w);
      case And(subs) => r := CollectAnd(q, subs, w);
      case Not(sub) => r := CollectNot(sub, w);
    }
    if Proper(q) {
      forall e ensures Computes(q, w, e) <==> Means(q, w, e) { ComputesMeaning(q, w, e); }
    }
  }

  /** OrSearch.Collect. */
  method CollectOr(q: Query, subs: seq<Query>, w: Snapshot) returns (r: seq<EntityId>)
    requires SnapOk(w) && q == Or(subs)
    ensures Answers(r, q, w)
    decreases q, 0
  {
    var idExists: set<EntityId> := {};
    for i := 0 to |subs|
      invariant forall e :: e in idExists <==> exists k :: 0 <= k < i && Computes(subs[k], w, e)
    {
      var ids := Collect(subs[i], w);
      for j := 0 to |ids|
        invariant forall e :: e in idExists <==> (exists k :: 0 <= k < i && Computes(subs[k], w, e)) || e in ids[..j]
      {
        idExists := idExists + {ids[j]};
      }
      assert ids[..|ids|] == ids;
    }
    r := Listed(idExists);
  }

  /** The keys of a map, sorted. */
  method Listed(keys: set<EntityId>) returns (r: seq<EntityId>)
    ensures Increasing(r) && forall e :: e in r <==> e in keys
  {
    r := [];
    var todo := keys;
    while todo != {}
      invariant todo <= keys && NoDup(r) && forall e :: e in r <==> e in keys && e !in todo
      decreases todo
    {
      var e :| e in todo;
      r, todo := r + [e], todo - {e};
    }
    SortNoDup(r);
    r := Sort(r);
  }

  /** In how many of the lists an entity occurs. */
  ghost function Hits(lists: seq<seq<EntityId>>, e: EntityId): nat {
    if lists == [] then 0
    else Hits(lists[..|lists| - 1], e) + if e in lists[|lists| - 1] then 1 else 0
  }

  /** The counting test is sound because no list counts an entity twice. */
  lemma {:induction false} HitsAll(lists: seq<seq<EntityId>>, e: EntityId)
    ensures Hits(lists, e) <= |lists|
    ensures Hits(lists, e) == |lists| <==> forall i :: 0 <= i < |lists| ==> e in lists[i]
    ensures Hits(lists, e) > 0 <==> exists i :: 0 <= i < |lists| && e in lists[i]
  {
    if lists != [] {
      var init := lists[..|lists| - 1];
      HitsAll(init, e);
      assert forall i :: 0 <= i < |init| ==> init[i] == lists[i];
    }
  }

  function CountOf(m: map<EntityId, nat>, e: EntityId): nat {
    if e in m then m[e] else 0
  }

  /** The inner counting loop of AndSearch.Each. */
  method Tally(m: map<EntityId, nat>, ids: seq<EntityId>) returns (m': map<EntityId, nat>)
    requires Increasing(ids)
    ensures forall e :: CountOf(m', e) == CountOf(m, e) + if e in ids then 1 else 0
    ensures (forall e :: e in m ==> m[e] > 0) ==> forall e :: e in m' ==> m'[e] > 0
  {
    m' := m;
    for j := 0 to |ids|
      invariant forall e :: CountOf(m', e) == CountOf(m, e) + if e in ids[..j] then 1 else 0
      invariant (forall e :: e in m ==> m[e] > 0) ==> forall e :: e in m' ==> m'[e] > 0
    {
      assert ids[j] !in ids[..j];
      m' := m'[ids[j] := CountOf(m', ids[j]) + 1];
      assert forall e :: e in ids[..j + 1] <==> e in ids[..j] || e == ids[j];
    }
    assert ids[..|ids|] == ids;
  }

  /** AndSearch.Collect: count, then keep the entities every sub-search returned. */
  method CollectAnd(q: Query, subs: seq<Query>, w: Snapshot) returns (r: seq<EntityId>)
    requires SnapOk(w) && q == And(subs)
    ensures Answers(r, q, w)
    decreases q, 0
  {
    var idCount: map<EntityId, nat> := map[];
    ghost var results: seq<seq<EntityId>> := [];
    for i := 0 to |subs|
      invariant |results| == i && forall k :: 0 <= k < i ==> Answers(results[k], subs[k], w)
      invariant forall e :: CountOf(idCount, e) == Hits(results, e)
      invariant forall e :: e in idCount ==> idCount[e] > 0
    {
      var subIDs := Collect(subs[i], w);
      idCount := Tally(idCount, subIDs);
      results := results + [subIDs];
      assert results[..i] == results[..|results| - 1];
    }
    var kept := set e | e in idCount && idCount[e] == |subs|;
    r := Listed(kept);
    forall e ensures e in r <==> Computes(q, w, e) {
      HitsAll(results, e);
      AndCounts(results, subs, w, e);
    }
  }

  lemma AndCounts(results: seq<seq<EntityId>>, subs: seq<Query>, w: Snapshot, e: EntityId)
    requires SnapOk(w) && |results| == |subs| && forall k :: 0 <= k < |subs| ==> Answers(results[k], subs[k], w)
    ensures subs != [] && (forall i :: 0 <= i < |results| ==> e in results[i]) <==> Computes(And(subs), w, e)
  {
  }

  /** NotSearch.Collect: all entities but the excluded ones. */
  method CollectNot(sub: Query, w: Snapshot) returns (r: seq<EntityId>)
    requires SnapOk(w)
    ensures Answers(r, Not(sub), w)
    decreases sub, 2
  {
    hide NoDup, Increasing;
    var everyone: Where := _ => Some(true);
    var allids := Scan(All, everyone, w);
    var excluded := Collect(sub, w);
    r := Except(allids, excluded);
    AllAlive(allids, everyone, w);
    SortNoDup(r);
    r := Sort(r);
  }

  lemma AllAlive(ids: seq<EntityId>, everyone: Where, w: Snapshot)
    requires |w.comps| == |w.lists| && (forall e :: everyone(e) == Some(true))
    requires forall e :: e in ids <==> Computes(Entity(All, everyone), w, e)
    ensures forall e :: e in ids <==> Alive(w, e)
  {
    forall e ensures e in ids <==> Alive(w, e) {
      if Alive(w, e) { var a :| 0 <= a < |w.lists| && e in w.lists[a]; assert Matches(All, w.comps[a]); }
    }
  }

  /** The loop that leaves out the excluded entities. */
  method Except(ids: seq<EntityId>, excluded: seq<EntityId>) returns (r: seq<EntityId>)
    requires NoDup(ids)
    ensures NoDup(r) && forall e :: e in r <==> e in ids && e !in excluded
  {
    r := [];
    for i := 0 to |ids|
      invariant NoDup(r) && forall e :: e in r <==> e in ids[..i] && e !in excluded
    {
      assert ids[..i + 1] == ids[..i] + [ids[i]];
      if ids[i] !in excluded {
        r := r + [ids[i]];
      }
    }
    assert ids[..|ids|] == ids;
  }

  /** Search.Count repeats the scan with a counter. */
  method CountEntities(f: Filter, where: Where, w: Snapshot) returns (n: nat)
    requires SnapOk(w)
    ensures exists ids :: Answers(ids, Entity(f, where), w) && n == |ids|
  {
    n := 0;
    ghost var acc: seq<EntityId> := [];
    for a := 0 to |w.comps|
      invariant n == |acc| && ScanInv(acc, f, where, w, a, 0)
    {
      if Matches(f, w.comps[a]) {
        for i := 0 to |w.lists[a]|
          invariant n == |acc| && ScanInv(acc, f, where, w, a, i)
        {
          if where(w.lists[a][i]) == Some(true) {
            ScanFresh(acc, f, where, w, a, i);
            acc := acc + [w.lists[a][i]];
            n := n + 1;
          }
        }
      }
    }
    SortNoDup(acc);
    assert Answers(Sort(acc), Entity(f, where), w);
  }

  /** Count is the length of what Collect returns. */
  method Count(q: Query, w: Snapshot) returns (n: nat)
    requires SnapOk(w)
    ensures forall ids :: Answers(ids, q, w) ==> n == |ids|
    ensures exists ids :: Answers(ids, q, w) && n == |ids|
  {
    if q.Entity? {
      n := CountEntities(q.filter, q.where, w);
    } else {
      var r := Collect(q, w);
      n := |r|;
    }
    AnswersUnique(q, w);
  }

  /** A query has one answer, list and all. */
  lemma AnswersUnique(q: Query, w: Snapshot)
    requires SnapOk(w)
    ensures forall r, r' :: Answers(r, q, w) && Answers(r', q, w) ==> r == r'
  {
    hide Computes;
    forall r, r' | Answers(r, q, w) && Answers(r', q, w) ensures r == r' { IncreasingUnique(r, r'); }
  }

  /** An And of nothing selects nothing, which is what it means only in an empty world. */
  lemma EmptyAnd(w: Snapshot)
    requires SnapOk(w)
    ensures (forall e :: Computes(And([]), w, e) <==> Means(And([]), w, e)) <==> forall e :: !Alive(w, e)
  {
    var q: Query := And([]);
    forall e ensures !Computes(q, w, e) && (Means(q, w, e) <==> Alive(w, e)) { }
    if exists e :: Alive(w, e) {
      var e :| Alive(w, e);
      assert Means(q, w, e) && !Computes(q, w, e);
    }
  }

  /** The query with every And of nothing replaced by an Or of nothing. */
  function Patched(q: Query): Query {
    match q
    case Entity(_, _) => q
    case Or(subs) => Or(seq(|subs|, i requires 0 <= i < |subs| => Patched(subs[i])))
    case And(subs) => if subs == [] then Or([]) else And(seq(|subs|, i requires 0 <= i < |subs| => Patched(subs[i])))
    case Not(sub) => Not(Patched(sub))
  }

  /** Every query, whatever empty Ands are nested in it, computes exactly what the patched query means. */
  lemma {:induction false} ComputesPatched(q: Query, w: Snapshot, e: EntityId)
    requires |w.comps| == |w.lists|
    ensures Computes(q, w, e) <==> Means(Patched(q), w, e)
  {
    match q
    case Entity(f, where) =>
    case Or(subs) =>
      forall i | 0 <= i < |subs| ensures Computes(subs[i], w, e) <==> Means(Patched(q).subs[i], w, e) {
        ComputesPatched(subs[i], w, e);
      }
    case And(subs) =>
      if subs != [] {
        forall i | 0 <= i < |subs| ensures Computes(subs[i], w, e) <==> Means(Patched(q).subs[i], w, e) {
          ComputesPatched(subs[i], w, e);
        }
        if Computes(q, w, e) { ComputesAlive(q, w, e); }
      }
    case Not(sub) => ComputesPatched(sub, w, e);
  }

  // ---------------------------------------------------------------- the archetype cache

  datatype Cache = Cache(archetypes: seq<ArchId>, seen: nat)

  /** SearchFrom: matching archetypes with ids in [lo, hi). */
  function Matching(t: seq<seq<CompId>>, f: Filter, lo: nat, hi: nat): seq<ArchId>
    requires hi <= |t|
    decreases hi
  {
    if lo >= hi then []
    else Matching(t, f, lo, hi - 1) + if Matches(f, t[hi - 1]) then [hi - 1] else []
  }

  lemma {:induction false} MatchingExact(t: seq<seq<CompId>>, f: Filter, lo: nat, hi: nat)
    requires hi <= |t|
    ensures Increasing(Matching(t, f, lo, hi))
    ensures forall a :: a in Matching(t, f, lo, hi) <==> lo <= a < hi && Matches(f, t[a])
    decreases hi
  {
    if lo < hi {
      MatchingExact(t, f, lo, hi - 1);
      var rest := Matching(t, f, lo, hi - 1);
      assert forall i :: 0 <= i < |rest| ==> rest[i] in rest;
    }
  }

  function FullScan(t: seq<seq<CompId>>, f: Filter): seq<ArchId> {
    Matching(t, f, 0, |t|)
  }

  /** evaluateSearch on a table: scan what is new, remember how far. */
  function Evaluate(c: Cache, t: seq<seq<CompId>>, f: Filter): Cache {
    Cache(c.archetypes + Matching(t, f, c.seen, |t|), |t|)
  }

  class CachedSearch {
    const filter: Filter
    var archetypes: seq<ArchId>
    var seen: nat

    constructor (filter: Filter)
      ensures this.filter == filter && archetypes == [] && seen == 0
    {
      this.filter, archetypes, seen := filter, [], 0;
    }

    method EvaluateSearch(t: seq<seq<CompId>>) returns (r: seq<ArchId>)
      modifies this
      ensures Cache(archetypes, seen) == Evaluate(Cache(old(archetypes), old(seen)), t, filter) && r == archetypes
    {
      var i := seen;
      while i < |t|
        invariant seen == old(seen) && seen <= i && (i <= |t| || i == seen)
        invariant archetypes == old(archetypes) + if i <= |t| then Matching(t, filter, seen, i) else []
      {
        if Matches(filter, t[i]) {
          archetypes := archetypes + [i];
        }
        i := i + 1;
      }
      seen := |t|;
      return archetypes;
    }
  }

  lemma {:induction false} MatchingSplit(t: seq<seq<CompId>>, f: Filter, mid: nat, hi: nat)
    requires mid <= hi <= |t|
    ensures Matching(t, f, 0, hi) == Matching(t, f, 0, mid) + Matching(t, f, mid, hi)
    decreases hi
  {
    if mid < hi { MatchingSplit(t, f, mid, hi - 1); }
  }

  lemma {:induction false} MatchingPrefix(t: seq<seq<CompId>>, t': seq<seq<CompId>>, f: Filter, hi: nat)
    requires hi <= |t| && t <= t'
    ensures Matching(t, f, 0, hi) == Matching(t', f, 0, hi)
    decreases hi
  {
    if hi > 0 { MatchingPrefix(t, t', f, hi - 1); }
  }

  /** A cache that was a full scan of an older table is, once evaluated, a full scan of the new one exactly when the
      archetypes it already counted match as before: always if the table only grew, and not after a discard that put
      other archetypes under their ids. */
  lemma CacheExact(t: seq<seq<CompId>>, t': seq<seq<CompId>>, f: Filter)
    ensures var n := if |t| <= |t'| then |t| else |t'|;
            Evaluate(Cache(FullScan(t, f), |t|), t', f).archetypes == FullScan(t', f)
            <==> FullScan(t, f) == Matching(t', f, 0, n)
  {
    if |t| <= |t'| {
      MatchingSplit(t', f, |t|, |t'|);
      CancelTail(FullScan(t, f), Matching(t', f, 0, |t|), Matching(t', f, |t|, |t'|));
    } else {
      assert Matching(t', f, |t|, |t'|) == [];
      assert FullScan(t, f) + [] == FullScan(t, f);
    }
  }

  /** It does go wrong: a search finds the archetype of the first creation on an empty store; a discard forgets it, and
      the next creation puts other components under its id, where the cache still lists it. */
  lemma DiscardStalesCache(reg: set<CompId>)
    ensures var f := Contains([0]);
            var s1 := Step(Sys(Register(NewBuf, EmptyDb, reg).0, EmptyDb), reg, DoCreate(1, [0])).0;
            var s3 := Step(Step(s1, reg, DoDiscard).0, reg, DoCreate(1, [1])).0;
            && ArchInv(s1.buf, s1.db) && ArchInv(s3.buf, s3.db)
            && var t1, t3 := SnapshotOf(s1.buf, s1.db).comps, SnapshotOf(s3.buf, s3.db).comps;
            Evaluate(Evaluate(Cache([], 0), t1, f), t3, f).archetypes == [0] && FullScan(t3, f) == []
  {
    hide Create, ArchInv, IdOk, SnapshotOf, Matching;
    var s0 := Sys(Register(NewBuf, EmptyDb, reg).0, EmptyDb);
    var s1 := Step(s0, reg, DoCreate(1, [0])).0;
    var s2 := Step(s1, reg, DoDiscard).0;
    var s3 := Step(s2, reg, DoCreate(1, [1])).0;
    FirstAlloc(reg);
    StepKeepsAlloc(s0, reg, DoCreate(1, [0]));
    StepKeepsAlloc(s1, reg, DoDiscard);
    StepKeepsAlloc(s2, reg, DoCreate(1, [1]));
    CreateFirst(s0.buf, s0.db, 1, 0);
    assert s2.buf.comps == map[];
    CreateFirst(s2.buf, s2.db, 1, 1);
    OneArchetype(s1.buf, s1.db, 0);
    OneArchetype(s3.buf, s3.db, 1);
    StaleTables();
  }

  lemma OneArchetype(b: Buf, db: Db, c: CompId)
    requires ArchInv(b, db) && b.comps == map[0 := [c]]
    ensures SnapshotOf(b, db).comps == [[c]]
  {
    hide ArchInv;
    assert |b.comps| == 1;
  }

  lemma StaleTables()
    ensures var f, t, t' := Contains([0]), [[0]], [[1]];
            Evaluate(Evaluate(Cache([], 0), t, f), t', f).archetypes == [0] && FullScan(t', f) == []
  {
    var f, t, t' := Contains([0]), [[0]], [[1]];
    assert f.comps[0] == 0 && t[0] == [0] && t'[0] == [1];
    assert Matches(f, t[0]) && !Matches(f, t'[0]);
    assert Matching(t, f, 0, 0) == [] && Matching(t', f, 0, 0) == [];
  }

  lemma CancelTail(a: seq<ArchId>, b: seq<ArchId>, c: seq<ArchId>)
    ensures a + c == b + c <==> a == b
  {
    if a + c == b + c {
      assert |a| == |b| && a == (a + c)[..|a|] && b == (b + c)[..|b|];
    }
  }

  ghost predicate Growing(ts: seq<seq<seq<CompId>>>) {
    forall i :: 0 <= i < |ts| - 1 ==> ts[i] <= ts[i + 1]
  }

  ghost function Evaluated(ts: seq<seq<seq<CompId>>>, f: Filter): Cache {
    if ts == [] then Cache([], 0) else Evaluate(Evaluated(ts[..|ts| - 1], f), ts[|ts| - 1], f)
  }

  /** However searches and archetype creations interleave, the cache is what a fresh scan would return: the same
      archetypes, in the same order, none twice. */
  lemma {:induction false} CacheIsFreshScan(ts: seq<seq<seq<CompId>>>, f: Filter)
    requires ts != [] && Growing(ts)
    ensures Evaluated(ts, f) == Cache(FullScan(ts[|ts| - 1], f), |ts[|ts| - 1]|)
  {
    var init, last := ts[..|ts| - 1], ts[|ts| - 1];
    if init == [] {
      assert Evaluated(init, f) == Cache([], 0);
    } else {
      assert forall i :: 0 <= i < |init| ==> init[i] == ts[i];
      CacheIsFreshScan(init, f);
      var t := init[|init| - 1];
      assert t == ts[|ts| - 2] && ts[|ts| - 2] <= ts[|ts| - 2 + 1];
      MatchingPrefix(t, last, f, |t|);
      CacheExact(t, last, f);
    }
  }
}
