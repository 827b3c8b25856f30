/** Replaying a world from the transactions stored on chain: the page-by-page iterator, recoverFromChain with its
    fast-forward, and the proof that the replay reproduces the original ticks. */
module Recovery {
  import opened Base
  import opened Storage
  import opened Order
  import opened Views
  import opened Refinement
  import opened Sequencer
  import opened Ticks

  // ---------------------------------------------------------------- from a pool to the chain and back

  function Strip(txs: seq<Tx>): seq<Tx> {
    seq(|txs|, i requires 0 <= i < |txs| => txs[i].(salt := 0))
  }

  /** A pool as it comes back from the chain: salts, and with them hashes, are gone. */
  function StripAll(m: TxMap): TxMap {
    map id | id in m :: Strip(m[id])
  }

  /** The pool that AddTransaction builds from an epoch's transactions, added in order. */
  function Regroup(items: seq<Item>): TxMap {
    if items == [] then map[]
    else Add(Regroup(items[..|items| - 1]), items[|items| - 1].id, FromWire(items[|items| - 1].tx))
  }

  /** An epoch carries a pool when it has each message's transactions, in order. */
  ghost predicate Carries(items: seq<Item>, m: TxMap) {
    forall id :: Pick(items, id) == Wired(ForId(m, id))
  }

  /** Sequencer.Submit queues a blob whose items carry the pool it was made from. */
  lemma FlattenCarries(m: TxMap, ids: seq<MsgId>)
    requires NoDup(ids) && forall id :: id in ids <==> id in m
    ensures Carries(Flatten(BlobOf(m), ids), m)
  {
    forall id ensures Pick(Flatten(BlobOf(m), ids), id) == Wired(ForId(m, id)) {
      PickFlatten(BlobOf(m), ids, id);
    }
  }

  lemma {:induction false} RegroupPicks(items: seq<Item>, id: MsgId)
    ensures var txs := Pick(items, id);
            ForId(Regroup(items), id) == seq(|txs|, i requires 0 <= i < |txs| => FromWire(txs[i]))
    ensures id in Regroup(items) <==> Pick(items, id) != []
  {
    if items != [] { RegroupPicks(items[..|items| - 1], id); }
  }

  /** The round trip through the chain loses nothing but the salts. */
  lemma RoundTrip(items: seq<Item>, m: TxMap)
    requires Carries(items, m) && NonEmpty(m)
    ensures Regroup(items) == StripAll(m)
  {
    forall id ensures id in Regroup(items) <==> id in m
              ensures id in m ==> Regroup(items)[id] == Strip(m[id])
    {
      RegroupPicks(items, id);
      assert Pick(items, id) == Wired(ForId(m, id));
      if id in m { assert ForId(Regroup(items), id) == Strip(m[id]); }
    }
  }

  lemma {:induction false} EnqueueJoin(q: Queue, ns: Namespace, epoch: nat, t: nat, a: seq<Item>, b: seq<Item>)
    ensures EnqueueAll(q, ns, epoch, t, a + b) == EnqueueAll(EnqueueAll(q, ns, epoch, t, a), ns, epoch, t, b)
  {
    hide Enqueue;
    if b == [] {
      assert a + b == a;
    } else {
      assert (a + b)[..|a + b| - 1] == a + b[..|b| - 1];
      EnqueueJoin(q, ns, epoch, t, a, b[..|b| - 1]);
    }
  }

  lemma EnqueueOne(q: Queue, ns: Namespace, epoch: nat, t: nat, items: seq<Item>, item: Item)
    ensures EnqueueAll(q, ns, epoch, t, items + [item]) ==
            Enqueue(EnqueueAll(q, ns, epoch, t, items), ns, epoch, t, item)
  {
    assert (items + [item])[..|items|] == items;
  }

  method SubmitMessage(tq: TxQueue, ns: Namespace, epoch: nat, timestamp: nat, id: MsgId, txs: seq<WireTx>)
    requires tq.Valid() && tq.validSender
    modifies tq
    ensures tq.Valid()
    ensures tq.txQueue == EnqueueAll(old(tq.txQueue), ns, epoch, timestamp, Items(id, txs))
  {
    hide Enqueue;
    for j := 0 to |txs|
      invariant tq.Valid() && tq.txQueue == EnqueueAll(old(tq.txQueue), ns, epoch, timestamp, Items(id, txs[..j]))
    {
      EnqueueOne(old(tq.txQueue), ns, epoch, timestamp, Items(id, txs[..j]), Item(id, txs[j]));
      var added := tq.AddTx(ns, epoch, timestamp, Item(id, txs[j]));
      assert Items(id, txs[..j + 1]) == Items(id, txs[..j]) + [Item(id, txs[j])];
    }
    assert txs[..|txs|] == txs;
  }

  /** Only one epoch's queue has changed. */
  ghost predicate OnlyEpoch(q: Queue, q': Queue, ns: Namespace, epoch: nat) {
    forall n, e :: !(n == ns && e == epoch) ==> Queued(q', n, e) == Queued(q, n, e)
  }

  lemma {:induction false} EnqueueAllAppends(q: Queue, ns: Namespace, epoch: nat, t: nat, items: seq<Item>)
    requires QueueOk(q)
    ensures var q' := EnqueueAll(q, ns, epoch, t, items);
            QueueOk(q') && OnlyEpoch(q, q', ns, epoch) && Queued(q', ns, epoch) == Queued(q, ns, epoch) + items
  {
    hide Enqueue, QueueOk, Queued;
    if items != [] {
      var init, last := items[..|items| - 1], items[|items| - 1];
      EnqueueAllAppends(q, ns, epoch, t, init);
      EnqueueAppends(EnqueueAll(q, ns, epoch, t, init), ns, epoch, t, last);
      assert items == init + [last];
    }
  }

  /** Sequencer.Submit: message ids in sorted order, each transaction added in turn. The blob, flattened, is appended to
      its epoch's queue, and no other epoch's is touched. */
  method Submit(tq: TxQueue, ns: Namespace, epoch: nat, timestamp: nat, blob: Blob) returns (ghost ids: seq<MsgId>)
    requires tq.Valid() && tq.validSender
    modifies tq
    ensures tq.Valid()
    ensures Increasing(ids) && forall id :: id in ids <==> id in blob
    ensures tq.txQueue == EnqueueAll(old(tq.txQueue), ns, epoch, timestamp, Flatten(blob, ids))
    ensures OnlyEpoch(old(tq.txQueue), tq.txQueue, ns, epoch)
    ensures Queued(tq.txQueue, ns, epoch) == Queued(old(tq.txQueue), ns, epoch) + Flatten(blob, ids)
  {
    hide QueueOk, EnqueueAll, Items, Queued;
    var txIDs := SortedNumbers(blob.Keys);
    ids := txIDs;
    EnqueueNone(tq.txQueue, ns, epoch, timestamp);
    for i := 0 to |txIDs|
      invariant tq.Valid()
      invariant forall id :: id in txIDs[..i] ==> id in blob
      invariant tq.txQueue == EnqueueAll(old(tq.txQueue), ns, epoch, timestamp, Flatten(blob, txIDs[..i]))
    {
      var id := txIDs[i];
      EnqueueJoin(old(tq.txQueue), ns, epoch, timestamp, Flatten(blob, txIDs[..i]), Items(id, blob[id]));
      SubmitMessage(tq, ns, epoch, timestamp, id, blob[id]);
      assert txIDs[..i + 1][..i] == txIDs[..i];
    }
    assert txIDs[..|txIDs|] == txIDs;
    EnqueueAllAppends(old(tq.txQueue), ns, epoch, timestamp, Flatten(blob, ids));
  }

  lemma EnqueueNone(q: Queue, ns: Namespace, epoch: nat, t: nat)
    ensures EnqueueAll(q, ns, epoch, t, []) == q
  {
  }

  // ---------------------------------------------------------------- what is on chain

  /** The chain holds every non-empty tick of the log, and only those. */
  ghost predicate Published(chain: Chain, log: seq<Input>) {
    && (forall k :: k in chain <==> 0 <= k < |log| && log[k].txs != map[])
    && (forall k :: k in chain ==> chain[k].timestamp == log[k].timestamp && Carries(chain[k].txs, log[k].txs))
  }

  /** Everything queued for a namespace carries its tick's timestamp. */
  ghost predicate Stamped(evs: seq<QueueEvent>, ns: Namespace, log: seq<Input>) {
    forall i :: 0 <= i < |evs| && evs[i].Enq? && evs[i].ns == ns ==>
      evs[i].epoch < |log| && evs[i].timestamp == log[evs[i].epoch].timestamp
  }

  lemma EnqueueStamp(q: Queue, ns: Namespace, epoch: nat, timestamp: nat, item: Item, n: Namespace, e: nat)
    ensures var q' := Enqueue(q, ns, epoch, timestamp, item);
            && (Has(q', n, e) <==> Has(q, n, e) || (n == ns && e == epoch))
            && (Has(q', n, e) ==> q'[n][e].timestamp == if Has(q, n, e) then q[n][e].timestamp else timestamp)
  {
  }

  lemma {:induction false} StampsShip(evs: seq<QueueEvent>, ns: Namespace, log: seq<Input>, e: nat)
    requires Legal(evs) && Stamped(evs, ns, log)
    ensures Has(QueueAfter(evs), ns, e) ==> e < |log| && QueueAfter(evs)[ns][e].timestamp == log[e].timestamp
    ensures forall i :: 0 <= i < |Shipped(evs, ns, e)| ==>
              e < |log| && Shipped(evs, ns, e)[i].timestamp == log[e].timestamp
  {
    if evs != [] {
      var init, ev := evs[..|evs| - 1], evs[|evs| - 1];
      assert forall i :: 0 <= i < |init| ==> init[..i] == evs[..i];
      StampsShip(init, ns, log, e);
      if ev.Flush? {
        QueueConserves(init, ns, e);
        FlushShips(QueueAfter(init), ev.reqs, ns, e);
        var sent, more := Shipped(init, ns, e), ReqsFor(ev.reqs, ns, e);
        assert Shipped(evs, ns, e) == sent + more;
        assert forall i :: 0 <= i < |more| ==> e < |log| && more[i].timestamp == log[e].timestamp;
      } else {
        EnqueueStamp(QueueAfter(init), ev.ns, ev.epoch, ev.timestamp, ev.item, ns, e);
        assert Shipped(evs, ns, e) == Shipped(init, ns, e);
      }
    } else {
      assert Shipped(evs, ns, e) == [];
    }
  }

  /** If every tick's transactions were queued for its epoch, all has been flushed, and no flush split an epoch, the
      chain publishes the log. */
  lemma ChainPublishes(evs: seq<QueueEvent>, ns: Namespace, log: seq<Input>)
    requires Legal(evs) && Stamped(evs, ns, log)
    requires forall k :: 0 <= k < |log| ==> Carries(Added(evs, ns, k), log[k].txs) && NonEmpty(log[k].txs)
    requires forall k :: Queued(QueueAfter(evs), ns, k) == [] && |Shipped(evs, ns, k)| <= 1
    ensures Published(ChainAfter(evs, ns), log)
  {
    var chain := ChainAfter(evs, ns);
    forall k: nat
      ensures k in chain <==> k < |log| && log[k].txs != map[]
      ensures k in chain ==> chain[k].timestamp == log[k].timestamp && Carries(chain[k].txs, log[k].txs)
    {
      hide Legal, Stamped, QueueAfter, ChainAfter, Carries;
      StampsShip(evs, ns, log, k);
      QueueConserves(evs, ns, k);
      ChainHoldsLast(evs, ns, k);
      EpochPublished(evs, ns, log, k);
    }
  }

  lemma EpochPublished(evs: seq<QueueEvent>, ns: Namespace, log: seq<Input>, k: nat)
    requires var rs := Shipped(evs, ns, k);
             && |rs| <= 1 && JoinTxs(rs) == Added(evs, ns, k)
             && (forall i :: 0 <= i < |rs| ==> rs[i].txs != [] && k < |log|)
    requires k < |log| ==> Carries(Added(evs, ns, k), log[k].txs) && NonEmpty(log[k].txs)
    ensures Shipped(evs, ns, k) != [] <==> k < |log| && log[k].txs != map[]
    ensures Shipped(evs, ns, k) != [] ==> Carries(Shipped(evs, ns, k)[0].txs, log[k].txs)
  {
    hide Shipped, Added;
    var rs := Shipped(evs, ns, k);
    JoinNone();
    if rs != [] {
      assert JoinTxs(rs) == JoinTxs([]) + rs[0].txs by { assert rs[..0] == []; }
      assert Added(evs, ns, k) == rs[0].txs;
      PickSome(rs[0].txs, 0);
      CarriesSome(rs[0].txs, log[k].txs, rs[0].txs[0].id);
    } else if k < |log| {
      CarriesNone(Added(evs, ns, k), log[k].txs);
    }
  }

  lemma CarriesSome(items: seq<Item>, m: TxMap, id: MsgId)
    requires Carries(items, m) && Pick(items, id) != []
    ensures id in m
  {
    assert Pick(items, id) == Wired(ForId(m, id));
  }

  lemma CarriesNone(items: seq<Item>, m: TxMap)
    requires Carries(items, m) && NonEmpty(m) && items == []
    ensures m == map[]
  {
    forall id ensures id !in m { assert |Wired(ForId(m, id))| == |Pick(items, id)| == 0; }
  }

  lemma {:induction false} PickSome(items: seq<Item>, i: nat)
    requires i < |items|
    ensures Pick(items, items[i].id) != []
  {
    if i < |items| - 1 { PickSome(items[..|items| - 1], i); }
  }

  // ---------------------------------------------------------------- the replay

  function Blanks(n: nat, timestamp: nat): seq<Input> {
    seq(n, _ => Input(timestamp, map[]))
  }

  /** Empty ticks up to a stored epoch, then the epoch itself. */
  function Chunk(chain: Chain, cur: nat, e: nat): (r: seq<Input>)
    requires e in chain && cur <= e
    ensures |r| == e - cur + 1
  {
    Blanks(e - cur, chain[e].timestamp) + [Input(chain[e].timestamp, Regroup(chain[e].txs))]
  }

  /** The ticks a recovery runs: up to each stored epoch with empty ticks, then the epoch itself. */
  function Replay(chain: Chain, cur: nat, epochs: seq<nat>): seq<Input>
    requires Increasing(epochs) && forall e :: e in epochs ==> e in chain && e >= cur
    decreases |epochs|
  {
    if epochs == [] then []
    else
      var e := epochs[0];
      assert e in epochs && forall x :: x in epochs[1..] ==> x in epochs;
      assert forall i :: 0 <= i < |epochs[1..]| ==> epochs[1..][i] == epochs[i + 1] > e;
      Chunk(chain, cur, e) + Replay(chain, e + 1, epochs[1..])
  }

  lemma ReplayCons(chain: Chain, cur: nat, epochs: seq<nat>)
    requires Increasing(epochs) && (forall e :: e in epochs ==> e in chain && e >= cur) && epochs != []
    ensures epochs[0] in chain && epochs[0] >= cur && Increasing(epochs[1..])
    ensures forall e :: e in epochs[1..] ==> e in chain && e >= epochs[0] + 1
    ensures Replay(chain, cur, epochs) == Chunk(chain, cur, epochs[0]) + Replay(chain, epochs[0] + 1, epochs[1..])
  {
    hide Chunk;
    assert epochs[0] in epochs && forall x :: x in epochs[1..] ==> x in epochs;
    assert forall i :: 0 <= i < |epochs[1..]| ==> epochs[1..][i] == epochs[i + 1] > epochs[0];
  }

  lemma ReplayNone(chain: Chain, cur: nat)
    ensures Replay(chain, cur, []) == []
  {
  }

  /** Same ticks up to what recovery cannot know: salts, and the timestamps of empty ticks. */
  ghost predicate Alike(a: Input, b: Input) {
    a.txs == StripAll(b.txs) && (b.txs != map[] ==> a.timestamp == b.timestamp)
  }

  ghost predicate ListsFrom(epochs: seq<nat>, chain: Chain, cur: nat) {
    Increasing(epochs) && forall e :: e in epochs <==> e in chain && e >= cur
  }

  lemma {:induction false} ReplayMatches(chain: Chain, cur: nat, epochs: seq<nat>, log: seq<Input>)
    requires Published(chain, log) && ListsFrom(epochs, chain, cur) && cur <= |log|
    requires forall k :: 0 <= k < |log| ==> NonEmpty(log[k].txs)
    ensures var r := Replay(chain, cur, epochs);
            && cur + |r| == (if epochs == [] then cur else epochs[|epochs| - 1] + 1)
            && cur + |r| <= |log| && forall i :: 0 <= i < |r| ==> Alike(r[i], log[cur + i])
    decreases |epochs|
  {
    hide Published, Chunk, Alike, NonEmpty, Increasing, Replay;
    if epochs == [] {
      ReplayNone(chain, cur);
    } else {
      var e, rest := epochs[0], epochs[1..];
      RestLists(epochs, chain, cur);
      FirstListed(epochs, chain, cur, log);
      ReplayCons(chain, cur, epochs);
      ReplayMatches(chain, e + 1, rest, log);
      ChunkMatches(chain, cur, e, log);
      AlikeJoin(Chunk(chain, cur, e), Replay(chain, e + 1, rest), log, cur);
    }
  }

  lemma FirstListed(epochs: seq<nat>, chain: Chain, cur: nat, log: seq<Input>)
    requires Published(chain, log) && ListsFrom(epochs, chain, cur) && cur <= |log| && epochs != []
    requires forall k :: 0 <= k < |log| ==> NonEmpty(log[k].txs)
    ensures epochs[0] in chain && cur <= epochs[0] < |log| && forall k :: cur <= k < epochs[0] ==> log[k].txs == map[]
  {
    assert epochs[0] in epochs;
    forall k | cur <= k < epochs[0] ensures log[k].txs == map[] { SkippedEmpty(epochs, chain, cur, log, k); }
  }

  lemma AlikeJoin(head: seq<Input>, tail: seq<Input>, log: seq<Input>, cur: nat)
    requires cur + |head| + |tail| <= |log|
    requires forall i :: 0 <= i < |head| ==> Alike(head[i], log[cur + i])
    requires forall i :: 0 <= i < |tail| ==> Alike(tail[i], log[cur + |head| + i])
    ensures var r := head + tail; forall i :: 0 <= i < |r| ==> Alike(r[i], log[cur + i])
  {
    hide Alike;
    var r := head + tail;
    forall i | 0 <= i < |r| ensures Alike(r[i], log[cur + i]) {
      if i >= |head| { assert r[i] == tail[i - |head|] && log[cur + i] == log[cur + |head| + (i - |head|)]; }
    }
  }

  lemma ChunkMatches(chain: Chain, cur: nat, e: nat, log: seq<Input>)
    requires Published(chain, log) && e in chain && cur <= e < |log| && NonEmpty(log[e].txs)
    requires forall k :: cur <= k < e ==> log[k].txs == map[]
    ensures var r := Chunk(chain, cur, e); forall i :: 0 <= i < |r| ==> Alike(r[i], log[cur + i])
  {
    RoundTrip(chain[e].txs, log[e].txs);
    assert StripAll(map[]) == map[];
    hide Carries;
  }

  lemma RestLists(epochs: seq<nat>, chain: Chain, cur: nat)
    requires ListsFrom(epochs, chain, cur) && epochs != []
    ensures ListsFrom(epochs[1..], chain, epochs[0] + 1)
  {
    var e, rest := epochs[0], epochs[1..];
    forall x ensures x in rest <==> x in chain && x >= e + 1 {
      if x in rest { var i :| 0 <= i < |rest| && rest[i] == x; assert epochs[i + 1] == x; }
      if x in chain && x >= e + 1 {
        assert e in epochs;
        var i :| 0 <= i < |epochs| && epochs[i] == x;
        assert rest[i - 1] == x;
      }
    }
  }

  lemma SkippedEmpty(epochs: seq<nat>, chain: Chain, cur: nat, log: seq<Input>, k: nat)
    requires Published(chain, log) && ListsFrom(epochs, chain, cur) && epochs != []
    requires cur <= k < epochs[0] && k < |log|
    ensures log[k].txs == map[]
  {
    hide Carries;
    assert forall i :: 0 <= i < |epochs| ==> epochs[i] >= epochs[0];
    assert k !in epochs;
  }

  // ---------------------------------------------------------------- same ticks, same world

  /** Systems ignore salts and hashes, and do not look at the timestamp of an empty tick. */
  ghost predicate Indifferent(sys: Systems) {
    forall w, a, b :: Alike(a, b) ==> sys(w, a) == sys(w, b)
  }

  lemma {:induction false} AlikeHistories(sys: Systems, w: World, a: seq<Input>, b: seq<Input>)
    requires Indifferent(sys) && |a| == |b| && forall i :: 0 <= i < |a| ==> Alike(a[i], b[i])
    ensures History(sys, w, a) == History(sys, w, b)
  {
    hide Alike, PlainRun, Plain;
    if a != [] { AlikeHistories(sys, w, a[..|a| - 1], b[..|b| - 1]); }
  }

  lemma {:induction false} HistoryConcat(sys: Systems, w: World, a: seq<Input>, b: seq<Input>)
    ensures History(sys, w, a + b) == History(sys, History(sys, w, a), b)
  {
    hide Effect;
    if b == [] {
      assert a + b == a;
    } else {
      HistoryConcat(sys, w, a, b[..|b| - 1]);
      assert (a + b)[..|a + b| - 1] == a + b[..|b| - 1];
    }
  }

  /** A world whose storage is at tick `cur` of the original run, replaying what the chain published, reaches exactly
      the original world after the last non-empty tick. */
  lemma RecoveryReproduces(sys: Systems, w0: World, log: seq<Input>, chain: Chain, cur: nat, epochs: seq<nat>)
    requires Indifferent(sys) && Published(chain, log) && ListsFrom(epochs, chain, cur) && cur <= |log|
    requires forall k :: 0 <= k < |log| ==> NonEmpty(log[k].txs)
    ensures var end := cur + |Replay(chain, cur, epochs)|;
            && end <= |log|
            && History(sys, History(sys, w0, log[..cur]), Replay(chain, cur, epochs)) == History(sys, w0, log[..end])
            && forall k :: end <= k < |log| ==> log[k].txs == map[]
  {
    hide Published, Replay, History, Indifferent, Effect;
    ReplayMatches(chain, cur, epochs, log);
    var r := Replay(chain, cur, epochs);
    var end := cur + |r|;
    assert epochs != [] ==> epochs[|epochs| - 1] in epochs;
    forall i | 0 <= i < |r| ensures Alike(r[i], log[cur..end][i]) { assert log[cur..end][i] == log[cur + i]; }
    hide Alike, ListsFrom;
    AlikeHistories(sys, History(sys, w0, log[..cur]), r, log[cur..end]);
    HistoryConcat(sys, w0, log[..cur], log[cur..end]);
    assert log[..cur] + log[cur..end] == log[..end];
    forall k | end <= k < |log| ensures log[k].txs == map[] { TailEmpty(epochs, chain, cur, log, k); }
  }

  lemma TailEmpty(epochs: seq<nat>, chain: Chain, cur: nat, log: seq<Input>, k: nat)
    requires Published(chain, log) && ListsFrom(epochs, chain, cur) && k < |log|
    requires k >= if epochs == [] then cur else epochs[|epochs| - 1] + 1
    requires k >= cur
    ensures log[k].txs == map[]
  {
    hide Carries;
    assert forall i :: 0 <= i < |epochs| ==> epochs[i] <= epochs[|epochs| - 1];
    assert k !in epochs;
  }
}
