/** The world object that ticks and recovers, over a real command buffer: doTick, the paged query of the chain, and the
    loops of recoverFromChain. */
module Engine {
  import opened Base
  import opened Storage
  import opened Order
  import opened Buffer
  import opened Coherence
  import opened Views
  import opened Refinement
  import opened CommandBuffer
  import opened Sequencer
  import opened Ticks
  import opened Recovery
  import opened Delivery

  // ---------------------------------------------------------------- the paged query

  /** The chain's key-value store: an epoch under its number in eight bytes, most significant first. */
  datatype StoredEpoch = StoredEpoch(number: nat, body: Epoch)

  type KvStore = map<Bytes, StoredEpoch>

  const WIDTH: nat := 8

  function PageKey(e: nat): Bytes {
    BigEndian(e, WIDTH)
  }

  ghost predicate Stores(kv: KvStore, chain: Chain) {
    && (forall e :: e in chain ==>
          e < Capacity(WIDTH) && PageKey(e) in kv && kv[PageKey(e)] == StoredEpoch(e, chain[e]))
    && (forall k :: k in kv ==> kv[k].number in chain && PageKey(kv[k].number) == k)
  }

  /** `e` is the first stored epoch not below `key`. */
  ghost predicate First(chain: Chain, key: nat, e: nat) {
    e in chain && e >= key && forall x :: x in chain && x >= key ==> e <= x
  }

  ghost predicate KeyFor(key: Option<Bytes>, n: nat) {
    n < Capacity(WIDTH) && key == if n == 0 && key.None? then None else Some(PageKey(n))
  }

  /** The keeper's Transactions query with limit 1: keys are iterated in byte order from `key` on. Since that is the
      order of the epochs, the page is the first epoch from `start` on, and the next key that of the one after. */
  method QueryTransactions(kv: KvStore, key: Option<Bytes>, ghost chain: Chain, ghost start: nat)
      returns (page: Option<StoredEpoch>, next: Option<Bytes>, ghost after: nat)
    requires Stores(kv, chain) && KeyFor(key, start)
    ensures page.None? ==> next.None? && forall x :: x in chain ==> x < start
    ensures page.Some? ==> First(chain, start, page.value.number) && page.value.body == chain[page.value.number]
    ensures page.Some? && next.None? ==> forall x :: x in chain ==> x <= page.value.number
    ensures page.Some? && next.Some? ==>
              First(chain, page.value.number + 1, after) && after < Capacity(WIDTH) && next == Some(PageKey(after))
  {
    hide Stores, First, BigEndian, Less, Ascending, Increasing, Capacity, KeyFor, PageKey, Numbers;
    var keys := SortedNames(kv.Keys);
    var i := Seek(kv, keys, key, chain, start);
    page, next, after := None, None, 0;
    if i < |keys| {
      page := Some(kv[keys[i]]);
      if i + 1 < |keys| {
        next, after := Some(keys[i + 1]), kv[keys[i + 1]].number;
      }
    }
    PageAt(kv, chain, keys, i, start);
  }

  /** The store's iterator starts at the first key that is not below the given one. */
  method Seek(kv: KvStore, keys: seq<Bytes>, key: Option<Bytes>, ghost chain: Chain, ghost start: nat) returns (i: nat)
    requires Stores(kv, chain) && KeyFor(key, start) && Ascending(keys) && forall k :: k in keys <==> k in kv
    ensures i <= |keys| && forall j :: 0 <= j < i ==> kv[keys[j]].number < start
    ensures i < |keys| ==> kv[keys[i]].number >= start
  {
    hide Stores, BigEndian, Less, Ascending, KeyFor;
    i := 0;
    while i < |keys| && key.Some? && Less(keys[i], key.value)
      invariant i <= |keys| && forall j :: 0 <= j < i ==> kv[keys[j]].number < start
    {
      KeyOrder(kv, chain, keys[i], key, start);
      i := i + 1;
    }
    if i < |keys| { KeyOrder(kv, chain, keys[i], key, start); }
  }

  /** The key at which a query starts is that of the first epoch from `start` on, and the one after it is next. */
  lemma PageAt(kv: KvStore, chain: Chain, keys: seq<Bytes>, i: nat, start: nat)
    requires Stores(kv, chain) && Ascending(keys) && (forall k :: k in keys <==> k in kv) && i <= |keys|
    requires forall j :: 0 <= j < i ==> kv[keys[j]].number < start
    requires i < |keys| ==> kv[keys[i]].number >= start
    ensures i == |keys| ==> forall x :: x in chain ==> x < start
    ensures i < |keys| ==>
              var e := kv[keys[i]].number;
              && First(chain, start, e) && kv[keys[i]].body == chain[e]
              && (i + 1 == |keys| ==> forall x :: x in chain ==> x <= e)
              && (i + 1 < |keys| ==>
                    var n := kv[keys[i + 1]].number;
                    First(chain, e + 1, n) && n < Capacity(WIDTH) && keys[i + 1] == PageKey(n))
  {
    hide Stores, First, BigEndian, Less, Ascending, Capacity, PageKey, Increasing;
    KeysInOrder(kv, chain, keys);
    var ns := Numbers(kv, keys);
    if i < |keys| { FirstKey(chain, ns, i, start); }
    if i + 1 < |keys| { NextKey(chain, ns, i + 1); }
    if i + 1 == |keys| { LastKey(chain, ns); }
    if i == |keys| {
      forall x | x in chain ensures x < start { var j :| 0 <= j < |ns| && ns[j] == x; }
    }
  }

  lemma LastKey(chain: Chain, keys: seq<nat>)
    requires Increasing(keys) && keys != [] && forall x :: x in keys <==> x in chain
    ensures forall x :: x in chain ==> x <= keys[|keys| - 1]
  {
    forall x | x in chain ensures x <= keys[|keys| - 1] { var j :| 0 <= j < |keys| && keys[j] == x; }
  }

  ghost function Numbers(kv: KvStore, keys: seq<Bytes>): seq<nat>
    requires forall k :: k in keys ==> k in kv
  {
    seq(|keys|, i requires 0 <= i < |keys| => kv[keys[i]].number)
  }

  /** The byte order of the keys is the order of the epochs. */
  lemma KeysInOrder(kv: KvStore, chain: Chain, keys: seq<Bytes>)
    requires Stores(kv, chain) && Ascending(keys) && forall k :: k in keys <==> k in kv
    ensures Increasing(Numbers(kv, keys)) && forall x :: x in Numbers(kv, keys) <==> x in chain
    ensures forall i :: 0 <= i < |keys| ==>
              keys[i] == PageKey(kv[keys[i]].number) && kv[keys[i]].number < Capacity(WIDTH)
              && kv[keys[i]].number in chain && kv[keys[i]].body == chain[kv[keys[i]].number]
  {
    hide BigEndian, Less, Capacity;
    var ns := Numbers(kv, keys);
    forall i | 0 <= i < |keys|
      ensures keys[i] == PageKey(kv[keys[i]].number) && kv[keys[i]].number < Capacity(WIDTH)
      ensures kv[keys[i]].number in chain && kv[keys[i]].body == chain[kv[keys[i]].number]
    { assert keys[i] in keys; }
    forall i, j | 0 <= i < j < |ns| ensures ns[i] < ns[j] {
      BigEndianOrders(ns[i], ns[j], WIDTH);
    }
    forall x ensures x in ns <==> x in chain {
      if x in chain {
        assert PageKey(x) in keys;
        var i :| 0 <= i < |keys| && keys[i] == PageKey(x);
        assert ns[i] == x;
      }
    }
  }

  lemma KeyOrder(kv: KvStore, chain: Chain, k: Bytes, key: Option<Bytes>, start: nat)
    requires Stores(kv, chain) && k in kv && KeyFor(key, start)
    ensures key.None? || !Less(k, key.value) <==> kv[k].number >= start
  {
    hide BigEndian, Less;
    if key.Some? { BigEndianOrders(kv[k].number, start, WIDTH); }
  }

  lemma FirstKey(chain: Chain, keys: seq<nat>, i: nat, k: nat)
    requires Increasing(keys) && (forall x :: x in keys <==> x in chain) && i < |keys| && keys[i] >= k
    requires forall j :: 0 <= j < i ==> keys[j] < k
    ensures First(chain, k, keys[i])
  {
    assert keys[i] in keys;
    forall x | x in chain && x >= k ensures keys[i] <= x {
      var j :| 0 <= j < |keys| && keys[j] == x;
    }
  }

  lemma NextKey(chain: Chain, keys: seq<nat>, i: nat)
    requires Increasing(keys) && (forall x :: x in keys <==> x in chain) && 0 < i < |keys|
    ensures First(chain, keys[i - 1] + 1, keys[i])
  {
    assert keys[i] > keys[i - 1];
    FirstKey(chain, keys, i, keys[i - 1] + 1);
  }

  // ---------------------------------------------------------------- replays, epoch by epoch

  ghost predicate Replayable(chain: Chain, cur: nat, epochs: seq<nat>) {
    Increasing(epochs) && forall x :: x in epochs ==> x in chain && x >= cur
  }

  function End(cur: nat, epochs: seq<nat>): nat {
    if epochs == [] then cur else epochs[|epochs| - 1] + 1
  }

  /** One more epoch at the end of a replay. */
  lemma {:induction false} ReplaySnoc(chain: Chain, cur: nat, epochs: seq<nat>, e: nat)
    requires Replayable(chain, cur, epochs) && e in chain && e >= End(cur, epochs)
    ensures Replayable(chain, cur, epochs + [e])
    ensures cur + |Replay(chain, cur, epochs)| == End(cur, epochs)
    ensures Replay(chain, cur, epochs + [e]) == Replay(chain, cur, epochs) + Chunk(chain, End(cur, epochs), e)
    decreases |epochs|
  {
    hide Chunk, Increasing, Replay;
    SnocReplayable(chain, cur, epochs, e);
    var all := epochs + [e];
    ReplayCons(chain, cur, all);
    if epochs == [] {
      assert all[1..] == [];
      ReplayNone(chain, cur);
      ReplayNone(chain, e + 1);
    } else {
      ReplayCons(chain, cur, epochs);
      var rest, f := epochs[1..], epochs[0];
      RestReplayable(chain, cur, epochs);
      assert all[1..] == rest + [e] && all[0] == f;
      ReplaySnoc(chain, f + 1, rest, e);
    }
  }

  lemma RestReplayable(chain: Chain, cur: nat, epochs: seq<nat>)
    requires Replayable(chain, cur, epochs) && epochs != []
    ensures Replayable(chain, epochs[0] + 1, epochs[1..]) && epochs[0] in chain && epochs[0] >= cur
    ensures End(epochs[0] + 1, epochs[1..]) == End(cur, epochs)
  {
    assert epochs[0] in epochs;
    assert forall i :: 0 <= i < |epochs[1..]| ==> epochs[1..][i] == epochs[i + 1] && epochs[i + 1] in epochs;
  }

  lemma SnocReplayable(chain: Chain, cur: nat, epochs: seq<nat>, e: nat)
    requires Replayable(chain, cur, epochs) && e in chain && e >= End(cur, epochs)
    ensures Replayable(chain, cur, epochs + [e])
  {
    if epochs != [] {
      var last := epochs[|epochs| - 1];
      assert last in epochs;
      assert forall i :: 0 <= i < |epochs| ==> epochs[i] <= last;
    }
  }

  /** Every epoch the chain has between `cur` and the end of the replay is replayed. */
  ghost predicate Gapless(chain: Chain, cur: nat, epochs: seq<nat>) {
    forall x :: x in chain && cur <= x < End(cur, epochs) ==> x in epochs
  }

  /** The time of the least stored epoch at or above `k`. */
  ghost predicate AtTimeOf(chain: Chain, k: nat, timestamp: nat) {
    exists e :: First(chain, k, e) && timestamp == chain[e].timestamp
  }

  /** Tick `k` of a recovery: run at the time of the next stored epoch, with that epoch's transactions if it is its own
      and with none otherwise. */
  ghost predicate RanFor(input: Input, chain: Chain, k: nat) {
    && AtTimeOf(chain, k, input.timestamp)
    && (k in chain ==> input.txs == Regroup(chain[k].txs))
    && (k !in chain ==> input.txs == map[])
  }

  lemma {:induction false} ReplayRan(chain: Chain, cur: nat, epochs: seq<nat>)
    requires Replayable(chain, cur, epochs) && Gapless(chain, cur, epochs)
    ensures forall i :: 0 <= i < |Replay(chain, cur, epochs)| ==> RanFor(Replay(chain, cur, epochs)[i], chain, cur + i)
    decreases |epochs|
  {
    hide RanFor, Chunk, Gapless, Increasing, Replay;
    if epochs == [] {
      ReplayNone(chain, cur);
    } else {
      ReplayCons(chain, cur, epochs);
      var e, rest := epochs[0], epochs[1..];
      RestReplayable(chain, cur, epochs);
      RestGapless(chain, cur, epochs);
      ReplayRan(chain, e + 1, rest);
      forall i | 0 <= i <= e - cur ensures RanFor(Chunk(chain, cur, e)[i], chain, cur + i) {
        ChunkRan(chain, cur, e, i);
      }
      RanJoin(chain, cur, Chunk(chain, cur, e), Replay(chain, e + 1, rest));
    }
  }

  lemma RanJoin(chain: Chain, cur: nat, head: seq<Input>, tail: seq<Input>)
    requires forall i :: 0 <= i < |head| ==> RanFor(head[i], chain, cur + i)
    requires forall i :: 0 <= i < |tail| ==> RanFor(tail[i], chain, cur + |head| + i)
    ensures forall i :: 0 <= i < |head + tail| ==> RanFor((head + tail)[i], chain, cur + i)
  {
    hide RanFor;
    var r := head + tail;
    forall i | 0 <= i < |r| ensures RanFor(r[i], chain, cur + i) {
      if i >= |head| {
        assert r[i] == tail[i - |head|] && RanFor(tail[i - |head|], chain, cur + |head| + (i - |head|));
      }
    }
  }

  lemma LogRan(chain: Chain, log: seq<Input>, replay: seq<Input>)
    requires forall i :: 0 <= i < |replay| ==> RanFor(replay[i], chain, |log| + i)
    ensures forall i :: |log| <= i < |log + replay| ==> AtTimeOf(chain, i, (log + replay)[i].timestamp)
    ensures forall i :: |log| <= i < |log + replay| ==>
              (log + replay)[i].txs == if i in chain then Regroup(chain[i].txs) else map[]
  {
    hide Regroup, AtTimeOf;
    var all := log + replay;
    forall i | |log| <= i < |all|
      ensures AtTimeOf(chain, i, all[i].timestamp)
      ensures all[i].txs == if i in chain then Regroup(chain[i].txs) else map[]
    {
      var input := replay[i - |log|];
      assert all[i] == input && RanFor(input, chain, |log| + (i - |log|));
    }
  }

  lemma RestGapless(chain: Chain, cur: nat, epochs: seq<nat>)
    requires Replayable(chain, cur, epochs) && Gapless(chain, cur, epochs) && epochs != []
    ensures Gapless(chain, epochs[0] + 1, epochs[1..])
    ensures forall x :: x in chain && x >= cur ==> x >= epochs[0]
  {
    RestReplayable(chain, cur, epochs);
    var e, rest := epochs[0], epochs[1..];
    forall x | x in chain && e + 1 <= x < End(e + 1, rest) ensures x in rest {
      var i :| 0 <= i < |epochs| && epochs[i] == x;
      assert rest[i - 1] == x;
    }
    assert End(cur, epochs) > e;
    assert forall x :: x in epochs ==> x >= e;
  }

  lemma ChunkRan(chain: Chain, cur: nat, e: nat, i: nat)
    requires e in chain && cur <= e && (forall x :: x in chain && x >= cur ==> x >= e) && i <= e - cur
    ensures RanFor(Chunk(chain, cur, e)[i], chain, cur + i)
  {
    hide Regroup;
    assert First(chain, cur + i, e);
  }

  datatype RecoverError = UnknownMessage

  /** A recovery that fails has replayed exactly the stored epochs before the first one with an unknown message. */
  ghost predicate StoppedAt(chain: Chain, known: set<MsgId>, cur: nat, epochs: seq<nat>, bad: nat) {
    && bad in chain && bad >= cur && !KnownEpoch(chain[bad], known)
    && (forall x :: x in epochs <==> x in chain && cur <= x < bad)
    && (forall x :: x in epochs ==> x in chain && KnownEpoch(chain[x], known))
  }

  ghost predicate KnownEpoch(ep: Epoch, known: set<MsgId>) {
    forall i :: 0 <= i < |ep.txs| ==> ep.txs[i].id in known
  }

  /** One call of a system, made on the store. */
  method Execute(store: EntityCommandBuffer, call: Call, ghost reg: set<CompId>)
    requires store.Valid() && GameCall(call)
    modifies store
    ensures store.Valid()
    ensures Sys(store.Snap(), store.dbStorage.db) == Step(Sys(old(store.Snap()), store.dbStorage.db), reg, call).0
  {
    hide ArchInv, Create, Remove, Types, Set, Get, AddComp, RemoveComp;
    match call {
      case DoCreate(num, comps) => var r := store.CreateManyEntities(num, comps);
      case DoRemove(e) => var r := store.RemoveEntity(e);
      case DoTypes(e) => var r := store.GetComponentTypesForEntity(e);
      case DoSet(c, e, v) => var r := store.SetComponentForEntity(c, e, v);
      case DoGet(c, e) => var r := store.GetComponentForEntity(c, e);
      case DoAdd(c, e) => var r := store.AddComponentToEntity(c, e);
      case DoDrop(c, e) => var r := store.RemoveComponentFromEntity(c, e);
    }
  }

  type Code = (Db, Input) -> seq<Call>

  /** The registered systems as code: what they do is decided by what storage means and by the tick's input. */
  ghost predicate Implements(systems: Code, sys: Systems) {
    forall db, input :: DbInv(db) ==> systems(db, input) == sys(Saved(db), input)
  }

  /** A blob handed to the router's job queue. */
  datatype Handed = Handed(tick: nat, timestamp: nat, blob: Blob)

  // ---------------------------------------------------------------- the run a world has gone through

  datatype Journal = Journal(trace: seq<Node>, events: seq<Event>)

  /** The systems keep to the rules, and the journal is a run from a good state. */
  ghost predicate Sound(j: Journal, code: Code, sys: Systems, reg: set<CompId>, w0: Views.World) {
    && Behaved(sys, reg, w0) && Implements(code, sys)
    && NodeRun(j.trace, sys, reg, j.events) && NodeInv(j.trace[0], sys, reg, w0)
  }

  ghost function Last(j: Journal): Node
    requires j.trace != []
  {
    j.trace[|j.trace| - 1]
  }

  ghost function Grown(j: Journal, n: Node, ev: Event): Journal {
    Journal(j.trace + [n], j.events + [ev])
  }

  ghost predicate Extends(j: Journal, j': Journal) {
    j.trace <= j'.trace && j.events <= j'.events
  }

  ghost predicate At(j: Journal, code: Code, sys: Systems, reg: set<CompId>, w0: Views.World, n: Node) {
    j.trace != [] && Sound(j, code, sys, reg, w0) && Last(j) == n && NodeInv(n, sys, reg, w0)
  }

  /** A journal to begin with: a first start on an empty store. */
  lemma FirstJournal(code: Code, sys: Systems, reg: set<CompId>)
    requires Behaved(sys, reg, Nothing) && Implements(code, sys)
    ensures At(Journal([FirstNode(reg)], []), code, sys, reg, Nothing, FirstNode(reg))
  {
    hide NodeInv, Behaved, Implements, FirstNode;
    FirstStart(sys, reg);
  }

  lemma TakeStep(j: Journal, code: Code, sys: Systems, reg: set<CompId>, w0: Views.World, n: Node, ev: Event)
    requires At(j, code, sys, reg, w0, n) && Enabled(n, ev)
    ensures At(Grown(j, Next(n, sys, reg, ev), ev), code, sys, reg, w0, Next(n, sys, reg, ev))
    ensures Extends(j, Grown(j, Next(n, sys, reg, ev), ev))
  {
    hide NodeInv, Behaved, Implements, Next, Enabled;
    NextKeeps(n, sys, reg, w0, ev);
    RunSnoc(j.trace, sys, reg, j.events, ev);
  }

  ghost function Restarted(n: Node, sys: Systems, reg: set<CompId>): Node {
    Next(n, sys, reg, Crash)
  }

  lemma ExtendsTrans(a: Journal, b: Journal, c: Journal)
    requires Extends(a, b) && Extends(b, c)
    ensures Extends(a, c)
  {
  }

  /** The world, between ticks. The journal is the run of `Ticks` that it has gone through, restarts included. */
  class World {
    const store: EntityCommandBuffer
    const txPool: TxPool
    const systems: Code
    var tick: nat
    var recovering: bool
    var jobs: seq<Handed>

    ghost const sys: Systems
    ghost const reg: set<CompId>
    ghost const w0: Views.World
    ghost var journal: Journal
    ghost var node: Node

    /** The journal ends in `node`, whose storage and buffer are the store's. */
    ghost predicate Mirrors()
      reads this, store, store.dbStorage, txPool
    {
      && At(journal, systems, sys, reg, w0, node)
      && node.s.buf == store.Snap() && node.s.db == store.dbStorage.db
      && node.tick == tick && node.recovering == recovering && txPool.Valid()
    }

    ghost predicate Valid()
      reads this, store, store.dbStorage, txPool
    {
      Mirrors() && node.phase.Idle?
    }

    /** StartGame up to recovery, over storage that a run of earlier processes has left: the components are registered,
        and the tick is the last finalized one. */
    constructor (storage: PrimitiveStorage, systems: Code, reg: set<CompId>,
                 ghost sys: Systems, ghost w0: Views.World, ghost past: Journal, ghost before: Node)
      requires At(past, systems, sys, reg, w0, before) && before.s.db == storage.db
      ensures Valid() && fresh(store) && store.dbStorage == storage && fresh(txPool) && txPool.m == map[]
      ensures this.sys == sys && this.reg == reg && this.w0 == w0 && this.systems == systems && recovering && jobs == []
      ensures node == Restarted(before, sys, reg) && journal == Grown(past, node, Crash)
    {
      hide At, Register;
      var ecb := new EntityCommandBuffer(storage);
      var registered := ecb.RegisterComponents(reg);
      store := ecb;
      txPool := new TxPool();
      tick, recovering, jobs := storage.db.tick, true, [];
      this.systems, this.sys, this.reg, this.w0 := systems, sys, reg, w0;
      TakeStep(past, systems, sys, reg, w0, before, Crash);
      node := Next(before, sys, reg, Crash);
      journal := Grown(past, Next(before, sys, reg, Crash), Crash);
    }

    /** The systems, call by call. */
    method RunSystems(calls: seq<Call>)
      requires Mirrors() && node.phase.Running? && node.phase.done == 0 && node.phase.calls == calls
      modifies this`node, this`journal, store
      ensures Mirrors() && node.phase == old(node).phase.(done := |calls|)
      ensures node == old(node).(s := node.s, phase := node.phase) && Extends(old(journal), journal)
    {
      hide At, Step, Extends, Grown, ArchInv;
      ExtendsSelf(journal);
      for i := 0 to |calls|
        invariant Mirrors() && node.phase == old(node).phase.(done := i)
        invariant node == old(node).(s := node.s, phase := node.phase) && Extends(old(journal), journal)
      {
        RunningConducts(journal, systems, sys, reg, w0, node);
        Execute(store, calls[i], reg);
        ghost var n := Next(node, sys, reg, Work);
        TakeStep(journal, systems, sys, reg, w0, node, Work);
        ExtendsTrans(old(journal), journal, Grown(journal, n, Work));
        journal, node := Grown(journal, n, Work), n;
      }
    }

    /** doTick: take the pool, run the systems on it, commit, hand the blob to the router unless recovering, advance the
        counter. Storage is the effect of one more tick. */
    method DoTick(timestamp: nat)
      requires Valid()
      modifies this`node, this`journal, this`tick, this`jobs, txPool, store, store.dbStorage
      ensures Valid() && Extends(old(journal), journal) && tick == old(tick) + 1 && txPool.m == map[]
      ensures node.log == old(node).log + [Input(timestamp, old(txPool.m))] && node.lost == old(node).lost
      ensures recovering ==>
                jobs == old(jobs) && node.sent == old(node).sent && node.replayed == old(node).replayed + {old(tick)}
      ensures !recovering ==>
                && jobs == old(jobs) + [Handed(old(tick), timestamp, BlobOf(old(txPool.m)))]
                && node.sent == old(node).sent + {old(tick)} && node.replayed == old(node).replayed
      ensures Saved(store.dbStorage.db) ==
              Effect(sys, Saved(old(store.dbStorage.db)), Input(timestamp, old(txPool.m)))
    {
      hide At, Step, Saved, BlobOf, Effect, Extends, Grown, History, View, DbInv, ArchInv;
      var txs := txPool.CopyTransactions();
      var input := Input(timestamp, txs);
      Compute(input);
      if !recovering {
        var blob := SubmitTxBlob(txs);
        jobs := jobs + [Handed(tick, timestamp, blob)];
      }
      ghost var n1 := Next(node, sys, reg, Submit);
      ghost var n2 := Next(n1, sys, reg, Advance);
      TakeStep(journal, systems, sys, reg, w0, node, Submit);
      TakeStep(Grown(journal, n1, Submit), systems, sys, reg, w0, n1, Advance);
      ExtendsTrans(old(journal), journal, Grown(journal, n1, Submit));
      ExtendsTrans(old(journal), Grown(journal, n1, Submit), Grown(Grown(journal, n1, Submit), n2, Advance));
      journal, node := Grown(Grown(journal, n1, Submit), n2, Advance), n2;
      tick := tick + 1;
    }

    /** The first half of doTick: the systems and the commit. */
    method Compute(input: Input)
      requires Valid()
      modifies this`node, this`journal, store, store.dbStorage
      ensures Mirrors() && node.phase.Stored? && Extends(old(journal), journal)
      ensures node == old(node).(s := node.s, phase := Stored, log := old(node).log + [input])
      ensures Saved(store.dbStorage.db) == Effect(sys, Saved(old(store.dbStorage.db)), input)
    {
      hide At, Step, Saved, Effect, Extends, Grown, History, View, DbInv, ArchInv;
      IdleMeans(journal, systems, sys, reg, w0, node);
      var calls := systems(store.dbStorage.db, input);
      ghost var n1 := Next(node, sys, reg, Begin(input));
      TakeStep(journal, systems, sys, reg, w0, node, Begin(input));
      journal, node := Grown(journal, n1, Begin(input)), n1;
      ghost var j1 := journal;
      RunSystems(calls);
      RunningConducts(journal, systems, sys, reg, w0, node);
      var stored := store.FinalizeTick();
      FinalizeStep(node.s, reg);
      ghost var n2 := Next(node, sys, reg, Store);
      TakeStep(journal, systems, sys, reg, w0, node, Store);
      ExtendsTrans(old(journal), j1, journal);
      ExtendsTrans(old(journal), journal, Grown(journal, n2, Store));
      journal, node := Grown(journal, n2, Store), n2;
      RunMeans(journal, systems, sys, reg, w0, node);
      HistoryNext(sys, w0, old(node).log, input);
    }

    /** Empty ticks up to the one about to be replayed; the distance to it is the termination measure. */
    method FastForward(target: nat, timestamp: nat)
      requires Valid() && recovering && tick <= target && txPool.m == map[]
      modifies this`node, this`journal, this`tick, this`jobs, txPool, store, store.dbStorage
      ensures Valid() && Extends(old(journal), journal) && jobs == old(jobs) && node.sent == old(node).sent
      ensures tick == target && txPool.m == map[]
      ensures node.log == old(node).log + Blanks(target - old(tick), timestamp)
    {
      hide At, Saved, Extends, Effect, BlobOf;
      ExtendsSelf(journal);
      while tick != target
        invariant Valid() && Extends(old(journal), journal) && jobs == old(jobs) && node.sent == old(node).sent
        invariant old(tick) <= tick <= target && txPool.m == map[]
        invariant node.log == old(node).log + Blanks(tick - old(tick), timestamp)
        decreases target - tick
      {
        ghost var j := journal;
        DoTick(timestamp);
        ExtendsTrans(old(journal), j, journal);
      }
    }

    /** The callback of recoverFromChain for one epoch. */
    method ReplayEpoch(ep: StoredEpoch, ghost chain: Chain)
      requires Valid() && recovering && txPool.m == map[]
      requires ep.number in chain && chain[ep.number] == ep.body && tick <= ep.number
      modifies this`node, this`journal, this`tick, this`jobs, txPool, store, store.dbStorage
      ensures Valid() && Extends(old(journal), journal) && jobs == old(jobs) && node.sent == old(node).sent
      ensures tick == ep.number + 1 && txPool.m == map[]
      ensures node.log == old(node).log + Chunk(chain, old(tick), ep.number)
      ensures forall i :: |old(node).log| <= i < |node.log| ==> node.log[i].timestamp == ep.body.timestamp
      ensures forall i :: |old(node).log| <= i < |node.log| - 1 ==> node.log[i].txs == map[]
      ensures node.log[|node.log| - 1].txs == Regroup(ep.body.txs)
    {
      hide At, Saved, Extends, Effect, BlobOf;
      FastForward(ep.number, ep.body.timestamp);
      AddAll(ep.body.txs);
      ghost var j := journal;
      DoTick(ep.body.timestamp);
      ExtendsTrans(old(journal), j, journal);
    }

    method AddAll(txs: seq<Item>)
      requires txPool.Valid() && txPool.m == map[]
      modifies txPool
      ensures txPool.Valid() && txPool.m == Regroup(txs)
    {
      for i := 0 to |txs|
        invariant txPool.m == Regroup(txs[..i]) && txPool.Valid()
      {
        txPool.AddTransaction(txs[i].id, FromWire(txs[i].tx));
        assert txs[..i + 1][..i] == txs[..i];
      }
      assert txs[..|txs|] == txs;
    }

    static method CheckMessages(ep: Epoch, known: set<MsgId>) returns (ok: bool)
      ensures ok <==> KnownEpoch(ep, known)
    {
      for i := 0 to |ep.txs|
        invariant forall j :: 0 <= j < i ==> ep.txs[j].id in known
      {
        if ep.txs[i].id !in known {
          return false;
        }
      }
      return true;
    }

    /** iterator.Each with the callback of recoverFromChain: every stored epoch from the current tick on, one page at a
        time; an epoch with an unknown message stops the recovery before it is run. */
    method EachEpoch(kv: KvStore, known: set<MsgId>, ghost chain: Chain)
        returns (r: Result<(), RecoverError>, ghost epochs: seq<nat>)
      requires Valid() && recovering && txPool.m == map[] && Stores(kv, chain) && tick < Capacity(WIDTH)
      modifies this`node, this`journal, this`tick, this`jobs, txPool, store, store.dbStorage
      ensures Valid() && Extends(old(journal), journal) && jobs == old(jobs) && node.sent == old(node).sent
      ensures txPool.m == map[] && Replayable(chain, old(tick), epochs)
      ensures node.log == old(node).log + Replay(chain, old(tick), epochs)
      ensures tick == old(tick) + |Replay(chain, old(tick), epochs)|
      ensures r.Ok? <==> forall e :: e in chain && e >= old(tick) ==> KnownEpoch(chain[e], known)
      ensures r.Ok? ==> ListsFrom(epochs, chain, old(tick))
      ensures r.Err? ==> exists bad :: StoppedAt(chain, known, old(tick), epochs, bad)
      ensures Gapless(chain, old(tick), epochs)
    {
      hide Replay, Chunk, First, Remaining, KnownEpoch, At, Saved, BigEndian, Extends, Increasing, View;
      hide Stores, ListsFrom, Capacity, Covered, StoppedAt, Gapless, KeyFor, PageKey;
      var start := tick;
      var nextKey: Option<Bytes> := if start > 0 then Some(PageKey(start)) else None;
      ghost var key: nat := start;
      epochs := [];
      StartKey(start);
      CoveredNone(chain, known, start);
      ExtendsSelf(journal);
      while true
        invariant Valid() && Extends(old(journal), journal) && jobs == old(jobs) && node.sent == old(node).sent
        invariant txPool.m == map[] && KeyFor(nextKey, key) && Covered(chain, known, start, epochs, key)
        invariant Replayable(chain, start, epochs)
        invariant tick == End(start, epochs) == start + |Replay(chain, start, epochs)|
        invariant node.log == old(node).log + Replay(chain, start, epochs)
        invariant key >= tick
        decreases Remaining(chain, key)
      {
        var page, next, after := QueryTransactions(kv, nextKey, chain, key);
        if page.Some? {
          var ep := page.value;
          FirstIn(chain, key, ep.number);
          var ok := CheckMessages(ep.body, known);
          if !ok {
            CoveredGapless(chain, known, start, epochs, key);
            CoveredStop(chain, known, start, epochs, key, ep.number);
            return Err(UnknownMessage), epochs;
          }
          ReplaySnoc(chain, start, epochs, ep.number);
          ghost var j := journal;
          ReplayEpoch(ep, chain);
          ExtendsTrans(old(journal), j, journal);
          CoveredNext(chain, known, start, epochs, key, ep.number);
          epochs := epochs + [ep.number];
          ReplayLength(chain, start, epochs);
        }
        if next.None? {
          CoveredAll(chain, known, start, epochs, key, if page.Some? then Some(page.value.number) else None);
          CoveredGapless(chain, known, start, epochs, if page.Some? then page.value.number + 1 else key);
          return Ok(()), epochs;
        }
        FirstIn(chain, page.value.number + 1, after);
        CoveredGap(chain, known, start, epochs, page.value.number + 1, after);
        RemainingShrinks(chain, key, page.value.number, after);
        NextPageKey(after);
        nextKey, key := next, after;
      }
    }

    /** recoverFromChain: the run of the world is extended by exactly the replay, and nothing is submitted. If the chain
        publishes the ticks `orig` of a run whose first ones are in storage, storage ends up as that run's after its
        last tick with transactions. Every tick it runs has the time of the next stored epoch. */
    method RecoverFromChain(kv: KvStore, known: set<MsgId>, ghost chain: Chain, ghost orig: seq<Input>)
        returns (r: Result<(), RecoverError>, ghost epochs: seq<nat>)
      requires Valid() && recovering && txPool.m == map[] && Stores(kv, chain) && tick < Capacity(WIDTH)
      modifies this`node, this`journal, this`tick, this`jobs, txPool, store, store.dbStorage
      ensures Valid() && Extends(old(journal), journal) && jobs == old(jobs) && node.sent == old(node).sent
      ensures txPool.m == map[] && Replayable(chain, old(tick), epochs)
      ensures node.log == old(node).log + Replay(chain, old(tick), epochs)
      ensures tick == old(tick) + |Replay(chain, old(tick), epochs)|
      ensures r.Ok? <==> forall e :: e in chain && e >= old(tick) ==> KnownEpoch(chain[e], known)
      ensures r.Ok? ==> ListsFrom(epochs, chain, old(tick))
      ensures r.Err? ==> exists bad :: StoppedAt(chain, known, old(tick), epochs, bad)
      ensures |node.log| == tick && forall i :: 0 <= i < old(tick) ==> node.log[i] == old(node).log[i]
      ensures forall i :: old(tick) <= i < tick ==> AtTimeOf(chain, i, node.log[i].timestamp)
      ensures forall i :: old(tick) <= i < tick ==>
                node.log[i].txs == if i in chain then Regroup(chain[i].txs) else map[]
      ensures Saved(store.dbStorage.db) == History(sys, w0, node.log)
      ensures r.Ok? && Indifferent(sys) && Retells(chain, orig, old(node).log) ==>
                && tick <= |orig| && Saved(store.dbStorage.db) == History(sys, w0, orig[..tick])
                && forall k :: tick <= k < |orig| ==> orig[k].txs == map[]
    {
      hide Replay, KnownEpoch, At, Saved, Extends, View, Stores, ListsFrom, History, Indifferent, Retells, Capacity;
      hide StoppedAt, Regroup, RanFor, AtTimeOf, Gapless, Increasing;
      IdleMeans(journal, systems, sys, reg, w0, node);
      ghost var start, log := tick, node.log;
      r, epochs := EachEpoch(kv, known, chain);
      RunMeans(journal, systems, sys, reg, w0, node);
      IdleMeans(journal, systems, sys, reg, w0, node);
      ReplayRan(chain, start, epochs);
      LogRan(chain, log, Replay(chain, start, epochs));
      assert log == old(node).log && node.log == log + Replay(chain, start, epochs);
      if r.Ok? && Indifferent(sys) && Retells(chain, orig, old(node).log) {
        Retold(chain, orig, old(node).log, sys, w0, epochs);
      }
    }

    /** The end of recovery: from here on ticks are handed over. */
    method EndRecovery()
      requires Valid() && recovering
      modifies this`node, this`journal, this`recovering
      ensures Valid() && !recovering && Extends(old(journal), journal)
      ensures node == old(node).(recovering := false)
    {
      hide At, Step, Extends, Grown;
      ghost var n := Next(node, sys, reg, Resume);
      TakeStep(journal, systems, sys, reg, w0, node, Resume);
      journal, node := Grown(journal, n, Resume), n;
      recovering := false;
    }

    method Receive(arrivals: seq<Arrival>)
      requires txPool.Valid() && txPool.m == map[]
      modifies txPool
      ensures txPool.Valid() && txPool.m == Gathered(arrivals)
    {
      for i := 0 to |arrivals|
        invariant txPool.Valid() && txPool.m == Gathered(arrivals[..i])
      {
        txPool.AddTransaction(arrivals[i].id, arrivals[i].tx);
        assert arrivals[..i + 1][..i] == arrivals[..i];
      }
      assert arrivals[..|arrivals|] == arrivals;
    }

    /** The game loop: what arrives before each tick is run by it and handed over, once, under that tick's number. */
    method Play(rounds: seq<Round>)
      requires Valid() && !recovering && txPool.m == map[]
      modifies this`node, this`journal, this`tick, this`jobs, txPool, store, store.dbStorage
      ensures Valid() && Extends(old(journal), journal) && txPool.m == map[] && tick == old(tick) + |rounds|
      ensures node.log == old(node).log + Inputs(rounds) && jobs == old(jobs) + Handovers(rounds, old(tick))
      ensures node.lost == old(node).lost && node.replayed == old(node).replayed
      ensures forall k :: k in node.sent <==> k in old(node).sent || old(tick) <= k < tick
    {
      hide At, Saved, Extends, Effect, BlobOf, Gathered;
      ExtendsSelf(journal);
      for i := 0 to |rounds|
        invariant Valid() && Extends(old(journal), journal) && txPool.m == map[] && tick == old(tick) + i
        invariant node.log == old(node).log + Inputs(rounds[..i])
        invariant jobs == old(jobs) + Handovers(rounds[..i], old(tick))
        invariant node.lost == old(node).lost && node.replayed == old(node).replayed
        invariant forall k :: k in node.sent <==> k in old(node).sent || old(tick) <= k < tick
      {
        ghost var j := journal;
        Receive(rounds[i].arrivals);
        DoTick(rounds[i].timestamp);
        ExtendsTrans(old(journal), j, journal);
        assert rounds[..i + 1] == rounds[..i] + [rounds[i]];
        RoundSnoc(rounds[..i], rounds[i], old(tick));
      }
      assert rounds[..|rounds|] == rounds;
    }

    /** StartGame after the start: recover, leave recovery, and play. Nothing that was recovered is handed over; every
        tick played is, once; and storage is the recovered run followed by the ticks played. */
    method StartGame(kv: KvStore, known: set<MsgId>, rounds: seq<Round>, ghost chain: Chain, ghost orig: seq<Input>)
        returns (r: Result<(), RecoverError>, ghost at: nat)
      requires Valid() && recovering && txPool.m == map[] && Stores(kv, chain) && tick < Capacity(WIDTH)
      modifies this`node, this`journal, this`tick, this`jobs, this`recovering, txPool, store, store.dbStorage
      ensures Valid() && Extends(old(journal), journal) && at >= old(tick)
      ensures r.Err? ==> tick == at && jobs == old(jobs) && node.sent == old(node).sent
      ensures r.Ok? ==>
                && !recovering && tick == at + |rounds| && jobs == old(jobs) + Handovers(rounds, at)
                && forall k :: k in node.sent <==> k in old(node).sent || at <= k < tick
      ensures r.Ok? && Indifferent(sys) && Retells(chain, orig, old(node).log) ==>
                && at <= |orig| && (forall k :: at <= k < |orig| ==> orig[k].txs == map[])
                && Saved(store.dbStorage.db) == History(sys, w0, orig[..at] + Inputs(rounds))
    {
      hide At, Saved, Extends, View, Stores, ListsFrom, History, Indifferent, Retells, Capacity, Replay, KnownEpoch;
      hide StoppedAt, AtTimeOf, Regroup, Inputs, Handovers, Replayable;
      ghost var epochs;
      r, epochs := RecoverFromChain(kv, known, chain, orig);
      at := tick;
      if r.Ok? {
        ghost var j, log := journal, node.log;
        EndRecovery();
        ExtendsTrans(old(journal), j, journal);
        j := journal;
        RunMeans(journal, systems, sys, reg, w0, node);
        Play(rounds);
        ExtendsTrans(old(journal), j, journal);
        RunMeans(journal, systems, sys, reg, w0, node);
        if Indifferent(sys) && Retells(chain, orig, old(node).log) {
          HistoryConcat(sys, w0, log, Inputs(rounds));
          HistoryConcat(sys, w0, orig[..at], Inputs(rounds));
        }
      }
    }
  }

  datatype Arrival = Arrival(id: MsgId, tx: Tx)

  /** A tick of the game loop: its time, and what arrives before it. */
  datatype Round = Round(timestamp: nat, arrivals: seq<Arrival>)

  function Gathered(arrivals: seq<Arrival>): TxMap {
    if arrivals == [] then map[]
    else Add(Gathered(arrivals[..|arrivals| - 1]), arrivals[|arrivals| - 1].id, arrivals[|arrivals| - 1].tx)
  }

  /** The transactions that arrived for a message, first come first. */
  function ArrivedFor(arrivals: seq<Arrival>, id: MsgId): seq<Tx> {
    if arrivals == [] then []
    else Mine(arrivals[0], id) + ArrivedFor(arrivals[1..], id)
  }

  function Mine(a: Arrival, id: MsgId): seq<Tx> {
    if a.id == id then [a.tx] else []
  }

  lemma {:induction false} ArrivedSnoc(arrivals: seq<Arrival>, a: Arrival, id: MsgId)
    ensures ArrivedFor(arrivals + [a], id) == ArrivedFor(arrivals, id) + Mine(a, id)
  {
    hide Mine;
    var all := arrivals + [a];
    assert ArrivedFor(all, id) == Mine(all[0], id) + ArrivedFor(all[1..], id);
    if arrivals == [] {
      assert all[1..] == [] && all[0] == a;
    } else {
      assert all[1..] == arrivals[1..] + [a] && all[0] == arrivals[0];
      ArrivedSnoc(arrivals[1..], a, id);
    }
  }

  /** What a tick finds in the pool: for every message what arrived for it, in order, and no empty list. */
  lemma {:induction false} GatheredExact(arrivals: seq<Arrival>, id: MsgId)
    ensures ForId(Gathered(arrivals), id) == ArrivedFor(arrivals, id)
    ensures id in Gathered(arrivals) <==> ArrivedFor(arrivals, id) != []
  {
    if arrivals != [] {
      hide ArrivedFor;
      var init, last := arrivals[..|arrivals| - 1], arrivals[|arrivals| - 1];
      GatheredExact(init, id);
      ArrivedSnoc(init, last, id);
      assert arrivals == init + [last];
    }
  }

  function Inputs(rounds: seq<Round>): seq<Input> {
    seq(|rounds|, i requires 0 <= i < |rounds| => Input(rounds[i].timestamp, Gathered(rounds[i].arrivals)))
  }

  function Handovers(rounds: seq<Round>, first: nat): seq<Handed> {
    seq(|rounds|, i requires 0 <= i < |rounds| =>
          Handed(first + i, rounds[i].timestamp, BlobOf(Gathered(rounds[i].arrivals))))
  }

  lemma RoundSnoc(rounds: seq<Round>, round: Round, first: nat)
    ensures Inputs(rounds + [round]) == Inputs(rounds) + [Input(round.timestamp, Gathered(round.arrivals))]
    ensures Handovers(rounds + [round], first) ==
            Handovers(rounds, first) + [Handed(first + |rounds|, round.timestamp, BlobOf(Gathered(round.arrivals)))]
  {
  }

  /** The chain publishes a run whose first ticks are the ones already in storage. */
  ghost predicate Retells(chain: Chain, orig: seq<Input>, log: seq<Input>) {
    log <= orig && Published(chain, orig) && forall k :: 0 <= k < |orig| ==> NonEmpty(orig[k].txs)
  }

  /** A chain that received every tick of a run in one submission each, and is flushed, retells it. Together with
      `World.RecoverFromChain`: submitting, queueing, flushing, iterating and recovering gives back the world. */
  lemma DeliveredRetells(acts: seq<Action>, ns: Namespace, orig: seq<Input>, handed: set<nat>, log: seq<Input>)
    requires Delivered(acts, ns, orig, handed) && Legal(Events(acts)) && AllFlushed(acts, ns) && log <= orig
    requires forall k :: 0 <= k < |orig| ==> NonEmpty(orig[k].txs) && (k in handed || orig[k].txs == map[])
    ensures Retells(ChainAfter(Events(acts), ns), orig, log)
  {
    hide Legal, AllFlushed, Events, ChainAfter, Published;
    PublishedIff(acts, ns, orig, handed);
  }

  lemma Retold(chain: Chain, orig: seq<Input>, log: seq<Input>, sys: Systems, w0: Views.World, epochs: seq<nat>)
    requires Retells(chain, orig, log) && Indifferent(sys) && ListsFrom(epochs, chain, |log|)
    ensures var replay := Replay(chain, |log|, epochs); var end := |log| + |replay|;
            && end <= |orig| && History(sys, w0, log + replay) == History(sys, w0, orig[..end])
            && forall k :: end <= k < |orig| ==> orig[k].txs == map[]
  {
    hide Published, Indifferent, Replay, History;
    assert orig[..|log|] == log;
    RecoveryReproduces(sys, w0, orig, chain, |log|, epochs);
    HistoryConcat(sys, w0, log, Replay(chain, |log|, epochs));
  }

  // ---------------------------------------------------------------- a node between and within ticks

  lemma RunSnoc(ns: seq<Node>, sys: Systems, reg: set<CompId>, evs: seq<Event>, ev: Event)
    requires NodeRun(ns, sys, reg, evs) && Enabled(ns[|evs|], ev)
    ensures NodeRun(ns + [Next(ns[|evs|], sys, reg, ev)], sys, reg, evs + [ev])
  {
    hide Next, Enabled;
  }

  lemma ExtendsSelf(j: Journal)
    ensures Extends(j, j)
  {
  }

  lemma RunMeans(j: Journal, code: Code, sys: Systems, reg: set<CompId>, w0: Views.World, n: Node)
    requires At(j, code, sys, reg, w0, n)
    ensures Saved(n.s.db) == History(sys, w0, n.log)
  {
    hide NodeInv, Behaved, Saved, History, Implements;
    NodeMeans(n, sys, reg, w0);
  }

  /** Between ticks the systems' code makes the calls that the specification says. */
  lemma IdleMeans(j: Journal, code: Code, sys: Systems, reg: set<CompId>, w0: Views.World, n: Node)
    requires At(j, code, sys, reg, w0, n) && n.phase.Idle?
    ensures Saved(n.s.db) == History(sys, w0, n.log) == View(n.s.buf, n.s.db) && n.tick == |n.log|
    ensures forall input :: code(n.s.db, input) == sys(View(n.s.buf, n.s.db), input)
  {
    hide DbInv, ArchInv, LocInv, IdxInv, ValInv, Touched, View, Saved, AllIn, History, Behaved, NodeRun;
    assert DbInv(n.s.db);
  }

  lemma RunningConducts(j: Journal, code: Code, sys: Systems, reg: set<CompId>, w0: Views.World, n: Node)
    requires At(j, code, sys, reg, w0, n) && n.phase.Running?
    ensures ArchInv(n.s.buf, n.s.db) && forall i :: 0 <= i < |n.phase.calls| ==> GameCall(n.phase.calls[i])
  {
    hide DbInv, ArchInv, LocInv, IdxInv, ValInv, Touched, View, Saved, AllIn, History, RunAllowed, PlainRun, NodeRun;
    assert Conducts(sys, reg, History(sys, w0, n.log), n.phase.input);
  }

  lemma FinalizeStep(s: Sys, reg: set<CompId>)
    ensures Step(s, reg, DoFinalize).0 == Sys(Finalize(s.buf, s.db).buf, Finalize(s.buf, s.db).db)
  {
  }

  // ---------------------------------------------------------------- the loop over pages

  ghost function Remaining(chain: Chain, key: nat): set<nat> {
    set x | x in chain && x >= key
  }

  /** Every epoch from `start` to below `key` has been replayed, and had only known messages. */
  ghost predicate Covered(chain: Chain, known: set<MsgId>, start: nat, epochs: seq<nat>, key: nat) {
    && Replayable(chain, start, epochs)
    && (forall e :: e in epochs ==> KnownEpoch(chain[e], known))
    && (forall e :: e in chain && start <= e < key ==> e in epochs)
  }

  lemma FirstIn(chain: Chain, key: nat, e: nat)
    requires First(chain, key, e)
    ensures e in chain && e >= key
  {
  }

  lemma RemainingShrinks(chain: Chain, key: nat, e: nat, next: nat)
    requires e in chain && key <= e < next
    ensures Remaining(chain, next) < Remaining(chain, key)
  {
    assert e in Remaining(chain, key) && e !in Remaining(chain, next);
  }

  lemma CoveredNone(chain: Chain, known: set<MsgId>, start: nat)
    ensures Covered(chain, known, start, [], start) && Replayable(chain, start, []) && Replay(chain, start, []) == []
  {
  }

  lemma StartKey(start: nat)
    requires start < Capacity(WIDTH)
    ensures KeyFor(if start > 0 then Some(PageKey(start)) else None, start)
  {
  }

  lemma NextPageKey(e: nat)
    requires e < Capacity(WIDTH)
    ensures KeyFor(Some(PageKey(e)), e)
  {
  }

  lemma CoveredGapless(chain: Chain, known: set<MsgId>, start: nat, epochs: seq<nat>, key: nat)
    requires Covered(chain, known, start, epochs, key) && End(start, epochs) <= key
    ensures Gapless(chain, start, epochs)
  {
    hide KnownEpoch;
  }

  lemma CoveredStop(chain: Chain, known: set<MsgId>, start: nat, epochs: seq<nat>, key: nat, bad: nat)
    requires Covered(chain, known, start, epochs, key) && First(chain, key, bad) && !KnownEpoch(chain[bad], known)
    requires End(start, epochs) <= key && start <= key
    ensures StoppedAt(chain, known, start, epochs, bad)
  {
    hide KnownEpoch;
    forall x | x in epochs ensures x < bad {
      var i :| 0 <= i < |epochs| && epochs[i] == x;
      assert x <= epochs[|epochs| - 1];
    }
  }

  lemma CoveredGap(chain: Chain, known: set<MsgId>, start: nat, epochs: seq<nat>, key: nat, e: nat)
    requires Covered(chain, known, start, epochs, key) && First(chain, key, e)
    ensures Covered(chain, known, start, epochs, e)
  {
    hide KnownEpoch;
  }

  lemma CoveredNext(chain: Chain, known: set<MsgId>, start: nat, epochs: seq<nat>, key: nat, e: nat)
    requires Covered(chain, known, start, epochs, key) && First(chain, key, e) && e >= End(start, epochs)
    requires KnownEpoch(chain[e], known)
    ensures Covered(chain, known, start, epochs + [e], e + 1)
  {
    SnocReplayable(chain, start, epochs, e);
    hide KnownEpoch;
    forall x | x in chain && start <= x < e + 1 ensures x in epochs + [e] {
      if x != e { assert x < key; }
    }
  }

  lemma CoveredAll(chain: Chain, known: set<MsgId>, start: nat, epochs: seq<nat>, key: nat, page: Option<nat>)
    requires page.Some? ==>
               Covered(chain, known, start, epochs, page.value + 1) && forall x :: x in chain ==> x <= page.value
    requires page.None? ==> Covered(chain, known, start, epochs, key) && forall x :: x in chain ==> x < key
    ensures ListsFrom(epochs, chain, start)
    ensures forall e :: e in chain && e >= start ==> KnownEpoch(chain[e], known)
  {
  }

  lemma ReplayLength(chain: Chain, cur: nat, epochs: seq<nat>)
    requires Replayable(chain, cur, epochs)
    ensures cur + |Replay(chain, cur, epochs)| == End(cur, epochs)
    decreases |epochs|
  {
    if epochs != [] {
      RestReplayable(chain, cur, epochs);
      ReplayLength(chain, epochs[0] + 1, epochs[1..]);
    }
  }
}
