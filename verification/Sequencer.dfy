/** The path of transactions from a finished tick to the chain: the transaction pool, the blob submitted to the
    sequencer, its queue, and the chain's store of epochs. */
module Sequencer {
  import opened Base
  import opened Order

  type MsgId = nat
  type Namespace = Bytes

  /** A signed transaction; `salt` is the part of it that is not put on the wire. */
  datatype Tx = Tx(persona: string, ns: string, timestamp: int, salt: nat, signature: string, body: string)

  datatype WireTx = WireTx(persona: string, ns: string, timestamp: int, signature: string, body: string)

  /** The conversion in SubmitTxBlob. */
  function ToWire(tx: Tx): WireTx {
    WireTx(tx.persona, tx.ns, tx.timestamp, tx.signature, tx.body)
  }

  /** protoTxToSignTx. */
  function FromWire(w: WireTx): Tx {
    Tx(w.persona, w.ns, w.timestamp, 0, w.signature, w.body)
  }

  type TxMap = map<MsgId, seq<Tx>>

  function ForId(m: TxMap, id: MsgId): seq<Tx> {
    if id in m then m[id] else []
  }

  function Add(m: TxMap, id: MsgId, tx: Tx): TxMap {
    m[id := ForId(m, id) + [tx]]
  }

  /** Pools and blobs never hold an empty list. */
  ghost predicate NonEmpty<T>(m: map<MsgId, seq<T>>) {
    forall id :: id in m ==> m[id] != []
  }

  // ---------------------------------------------------------------- the transaction pool

  datatype PoolEvent = Arrive(id: MsgId, tx: Tx) | Snapshot

  /** The snapshots taken so far and the pool as it stands. */
  function PoolRun(evs: seq<PoolEvent>): (seq<TxMap>, TxMap) {
    if evs == [] then ([], map[])
    else
      var (snaps, pool) := PoolRun(evs[..|evs| - 1]);
      match evs[|evs| - 1]
      case Arrive(id, tx) => (snaps, Add(pool, id, tx))
      case Snapshot => (snaps + [pool], map[])
  }

  function Arrived(evs: seq<PoolEvent>, id: MsgId): seq<Tx> {
    if evs == [] then []
    else
      var rest := Arrived(evs[..|evs| - 1], id);
      match evs[|evs| - 1]
      case Arrive(i, tx) => if i == id then rest + [tx] else rest
      case Snapshot => rest
  }

  function AllFor(snaps: seq<TxMap>, id: MsgId): seq<Tx> {
    if snaps == [] then [] else AllFor(snaps[..|snaps| - 1], id) + ForId(snaps[|snaps| - 1], id)
  }

  /** Every transaction lands in exactly one snapshot, in arrival order for its message; what has not is still
      pooled. */
  lemma {:induction false} PoolConserves(evs: seq<PoolEvent>, id: MsgId)
    ensures var (snaps, pool) := PoolRun(evs); AllFor(snaps, id) + ForId(pool, id) == Arrived(evs, id)
  {
    if evs != [] {
      PoolConserves(evs[..|evs| - 1], id);
      var (snaps, pool) := PoolRun(evs[..|evs| - 1]);
      if evs[|evs| - 1].Snapshot? { assert (snaps + [pool])[..|snaps|] == snaps; }
    }
  }

  /** cardinal/txpool: one mutex-guarded map, emptied by every tick. `past` is what has happened to the pool. */
  class TxPool {
    var m: TxMap
    var txsInPool: nat
    ghost var past: seq<PoolEvent>

    /** The map is what the arrivals since the last snapshot make it. */
    ghost predicate Valid()
      reads this
    {
      m == PoolRun(past).1 && NonEmpty(m)
    }

    constructor ()
      ensures Valid() && m == map[] && txsInPool == 0 && past == []
    {
      m, txsInPool, past := map[], 0, [];
    }

    /** The transaction is the message's last; for every message, snapshots and pool together hold what arrived. */
    method AddTransaction(id: MsgId, tx: Tx)
      requires Valid()
      modifies this
      ensures Valid() && past == old(past) + [Arrive(id, tx)]
      ensures m == Add(old(m), id, tx) && txsInPool == old(txsInPool) + 1
      ensures forall x :: AllFor(PoolRun(past).0, x) + ForId(m, x) == Arrived(past, x)
    {
      m := m[id := ForId(m, id) + [tx]];
      txsInPool := txsInPool + 1;
      PoolSnoc(past, Arrive(id, tx));
      past := past + [Arrive(id, tx)];
      forall x ensures AllFor(PoolRun(past).0, x) + ForId(m, x) == Arrived(past, x) { PoolConserves(past, x); }
    }

    /** The copy is the next snapshot, and with it every transaction that ever arrived is in exactly one snapshot. */
    method CopyTransactions() returns (copy: TxMap)
      requires Valid()
      modifies this
      ensures Valid() && copy == old(m) && NonEmpty(copy) && m == map[] && txsInPool == 0
      ensures past == old(past) + [Snapshot] && PoolRun(past).0 == PoolRun(old(past)).0 + [copy]
      ensures forall x :: AllFor(PoolRun(past).0, x) == Arrived(past, x)
    {
      copy := m;
      m, txsInPool := map[], 0;
      PoolSnoc(past, Snapshot);
      past := past + [Snapshot];
      forall x ensures AllFor(PoolRun(past).0, x) == Arrived(past, x) { PoolConserves(past, x); }
    }
  }

  lemma PoolSnoc(evs: seq<PoolEvent>, ev: PoolEvent)
    ensures var (snaps, pool) := PoolRun(evs);
            PoolRun(evs + [ev]) ==
            match ev { case Arrive(id, tx) => (snaps, Add(pool, id, tx)) case Snapshot => (snaps + [pool], map[]) }
  {
    assert (evs + [ev])[..|evs|] == evs;
  }

  // ---------------------------------------------------------------- the blob and its flattening

  type Blob = map<MsgId, seq<WireTx>>

  function Wired(txs: seq<Tx>): seq<WireTx> {
    seq(|txs|, i requires 0 <= i < |txs| => ToWire(txs[i]))
  }

  function BlobOf(m: TxMap): Blob {
    map id | id in m :: Wired(m[id])
  }

  /** SubmitTxBlob: the request body, built in whatever order the pool map is iterated. */
  method SubmitTxBlob(processed: TxMap) returns (blob: Blob)
    ensures blob == BlobOf(processed)
  {
    blob := map[];
    var todo := processed.Keys;
    while todo != {}
      invariant todo <= processed.Keys
      invariant blob.Keys == processed.Keys - todo
      invariant forall id :: id in blob ==> blob[id] == Wired(processed[id])
      decreases todo
    {
      var id :| id in todo;
      var txs, wired := processed[id], [];
      for i := 0 to |txs|
        invariant wired == Wired(txs[..i])
      {
        wired := wired + [ToWire(txs[i])];
      }
      assert txs[..|txs|] == txs;
      blob, todo := blob[id := wired], todo - {id};
    }
  }

  datatype Item = Item(id: MsgId, tx: WireTx)

  function Items(id: MsgId, txs: seq<WireTx>): seq<Item> {
    seq(|txs|, i requires 0 <= i < |txs| => Item(id, txs[i]))
  }

  function Flatten(blob: Blob, ids: seq<MsgId>): seq<Item>
    requires forall id :: id in ids ==> id in blob
  {
    if ids == [] then [] else Flatten(blob, ids[..|ids| - 1]) + Items(ids[|ids| - 1], blob[ids[|ids| - 1]])
  }

  /** The transactions of one message, in the order they appear. */
  function Pick(items: seq<Item>, id: MsgId): seq<WireTx> {
    if items == [] then []
    else
      var rest := Pick(items[..|items| - 1], id);
      if items[|items| - 1].id == id then rest + [items[|items| - 1].tx] else rest
  }

  lemma {:induction false} PickConcat(a: seq<Item>, b: seq<Item>, id: MsgId)
    ensures Pick(a + b, id) == Pick(a, id) + Pick(b, id)
  {
    if b == [] {
      assert a + b == a;
    } else {
      assert (a + b)[..|a + b| - 1] == a + b[..|b| - 1];
      PickConcat(a, b[..|b| - 1], id);
    }
  }

  lemma {:induction false} PickItems(id: MsgId, txs: seq<WireTx>, x: MsgId)
    ensures Pick(Items(id, txs), x) == if x == id then txs else []
  {
    if txs != [] {
      var init := txs[..|txs| - 1];
      PickItems(id, init, x);
      assert Items(id, txs)[..|txs| - 1] == Items(id, init);
      assert txs == init + [txs[|txs| - 1]];
    }
  }

  lemma PickNone(id: MsgId)
    ensures Pick([], id) == []
  {
  }

  /** Flattening keeps each message's transactions, in order. */
  lemma {:induction false} PickFlatten(blob: Blob, ids: seq<MsgId>, id: MsgId)
    requires NoDup(ids) && forall x :: x in ids ==> x in blob
    ensures Pick(Flatten(blob, ids), id) == if id in ids then blob[id] else []
  {
    hide NoDup, Pick, Items;
    if ids == [] {
      PickNone(id);
    } else {
      var init, last := ids[..|ids| - 1], ids[|ids| - 1];
      NoDupInit(ids);
      PickFlatten(blob, init, id);
      PickConcat(Flatten(blob, init), Items(last, blob[last]), id);
      PickItems(last, blob[last], id);
    }
  }

  // ---------------------------------------------------------------- the sequencer's queue

  datatype Request = Request(ns: Namespace, epoch: nat, timestamp: nat, txs: seq<Item>)

  type Queue = map<Namespace, map<nat, Request>>

  ghost predicate Has(q: Queue, ns: Namespace, epoch: nat) {
    ns in q && epoch in q[ns]
  }

  ghost predicate QueueOk(q: Queue) {
    forall ns, epoch :: Has(q, ns, epoch) ==>
      q[ns][epoch].ns == ns && q[ns][epoch].epoch == epoch && q[ns][epoch].txs != []
  }

  ghost function Queued(q: Queue, ns: Namespace, epoch: nat): seq<Item> {
    if Has(q, ns, epoch) then q[ns][epoch].txs else []
  }

  function Enqueue(q: Queue, ns: Namespace, epoch: nat, timestamp: nat, item: Item): Queue {
    var inner: map<nat, Request> := if ns in q then q[ns] else map[];
    var req := if epoch in inner then inner[epoch] else Request(ns, epoch, timestamp, []);
    q[ns := inner[epoch := req.(txs := req.txs + [item])]]
  }

  function EnqueueAll(q: Queue, ns: Namespace, epoch: nat, timestamp: nat, items: seq<Item>): Queue {
    if items == [] then q
    else Enqueue(EnqueueAll(q, ns, epoch, timestamp, items[..|items| - 1]), ns, epoch, timestamp, items[|items| - 1])
  }

  lemma EnqueueAppends(q: Queue, ns: Namespace, epoch: nat, timestamp: nat, item: Item)
    requires QueueOk(q)
    ensures QueueOk(Enqueue(q, ns, epoch, timestamp, item))
    ensures forall n, e :: Queued(Enqueue(q, ns, epoch, timestamp, item), n, e)
                           == if n == ns && e == epoch then Queued(q, n, e) + [item] else Queued(q, n, e)
  {
  }

  ghost predicate Before(a: Request, b: Request) {
    Less(a.ns, b.ns) || (a.ns == b.ns && a.epoch < b.epoch)
  }

  /** What a flush returns: every queued request once, strictly ordered by namespace and epoch. */
  ghost predicate IsFlush(q: Queue, reqs: seq<Request>) {
    && (forall i, j :: 0 <= i < j < |reqs| ==> Before(reqs[i], reqs[j]))
    && (forall i :: 0 <= i < |reqs| ==>
          Has(q, reqs[i].ns, reqs[i].epoch) && q[reqs[i].ns][reqs[i].epoch] == reqs[i])
    && (forall ns, epoch :: Has(q, ns, epoch) ==> q[ns][epoch] in reqs)
  }

  class TxQueue {
    var txQueue: Queue
    const validSender: bool

    ghost predicate Valid()
      reads this
    {
      QueueOk(txQueue)
    }

    constructor (validSender: bool)
      ensures txQueue == map[] && this.validSender == validSender && Valid()
    {
      txQueue := map[];
      this.validSender := validSender;
    }

    /** AddTx; a request for a new epoch is validated first. */
    method AddTx(ns: Namespace, epoch: nat, timestamp: nat, item: Item) returns (ok: bool)
      requires Valid()
      modifies this
      ensures Valid() && (ok <==> validSender || Has(old(txQueue), ns, epoch))
      ensures ok ==> txQueue == Enqueue(old(txQueue), ns, epoch, timestamp, item)
      ensures !ok ==> forall n, e :: Queued(txQueue, n, e) == Queued(old(txQueue), n, e)
    {
      EnqueueAppends(txQueue, ns, epoch, timestamp, item);
      var inner: map<nat, Request> := if ns in txQueue then txQueue[ns] else map[];
      if epoch !in inner {
        if !validSender {
          txQueue := txQueue[ns := inner];
          return false;
        }
        inner := inner[epoch := Request(ns, epoch, timestamp, [])];
      }
      var req := inner[epoch];
      inner := inner[epoch := req.(txs := req.txs + [item])];
      assert inner == Enqueue(txQueue, ns, epoch, timestamp, item)[ns];
      txQueue := txQueue[ns := inner];
      return true;
    }

    method FlushTxQueue() returns (reqs: seq<Request>)
      requires Valid()
      modifies this
      ensures IsFlush(old(txQueue), reqs) && txQueue == map[] && Valid()
    {
      reqs := [];
      var q := txQueue;
      var namespaces := SortedNames(q.Keys);
      for i := 0 to |namespaces|
        invariant FlushedUpTo(q, namespaces, i, reqs)
      {
        var txq := q[namespaces[i]];
        var epochs := SortedNumbers(txq.Keys);
        ghost var before := reqs;
        var part := [];
        for j := 0 to |epochs|
          invariant |part| == j && forall k :: 0 <= k < j ==> part[k] == txq[epochs[k]]
        {
          part := part + [txq[epochs[j]]];
        }
        FlushNext(q, namespaces, i, before, epochs, part);
        reqs := reqs + part;
      }
      FlushDone(q, namespaces, reqs);
      txQueue := map[];
    }
  }

  ghost predicate FlushedUpTo(q: Queue, names: seq<Namespace>, i: nat, reqs: seq<Request>)
    requires i <= |names|
  {
    && (forall a, b :: 0 <= a < b < |reqs| ==> Before(reqs[a], reqs[b]))
    && (forall a :: 0 <= a < |reqs| ==>
          reqs[a].ns in names[..i] && Has(q, reqs[a].ns, reqs[a].epoch) && q[reqs[a].ns][reqs[a].epoch] == reqs[a])
    && (forall ns, epoch :: ns in names[..i] && Has(q, ns, epoch) ==> q[ns][epoch] in reqs)
  }

  lemma FlushNext(q: Queue, names: seq<Namespace>, i: nat, reqs: seq<Request>, epochs: seq<nat>, part: seq<Request>)
    requires QueueOk(q) && i < |names| && Ascending(names) && names[i] in q
    requires FlushedUpTo(q, names, i, reqs)
    requires Increasing(epochs) && forall e :: e in epochs <==> e in q[names[i]]
    requires |part| == |epochs| && forall k :: 0 <= k < |part| ==> part[k] == q[names[i]][epochs[k]]
    ensures FlushedUpTo(q, names, i + 1, reqs + part)
  {
    var ns := names[i];
    forall k | 0 <= k < |part| ensures Has(q, ns, epochs[k]) && part[k].ns == ns && part[k].epoch == epochs[k] { }
    forall a, b | 0 <= a < b < |reqs + part| ensures Before((reqs + part)[a], (reqs + part)[b]) {
      if a < |reqs| <= b {
        assert reqs[a].ns in names[..i];
        var m :| 0 <= m < i && names[..i][m] == reqs[a].ns;
        assert Less(names[m], names[i]);
        assert part[b - |reqs|].ns == ns;
      } else if a >= |reqs| {
        assert epochs[a - |reqs|] < epochs[b - |reqs|];
      }
    }
    forall n, e | n in names[..i + 1] && Has(q, n, e) ensures q[n][e] in reqs + part {
      if n == ns {
        var k :| 0 <= k < |epochs| && epochs[k] == e;
        assert part[k] == q[n][e];
      } else {
        assert n in names[..i];
      }
    }
  }

  lemma FlushDone(q: Queue, names: seq<Namespace>, reqs: seq<Request>)
    requires FlushedUpTo(q, names, |names|, reqs) && forall ns :: ns in q ==> ns in names
    ensures IsFlush(q, reqs)
  {
    assert names[..|names|] == names;
  }

  // ---------------------------------------------------------------- adds and flushes, interleaved

  datatype QueueEvent = Enq(ns: Namespace, epoch: nat, timestamp: nat, item: Item) | Flush(reqs: seq<Request>)

  ghost function QueueAfter(evs: seq<QueueEvent>): Queue {
    if evs == [] then map[]
    else
      match evs[|evs| - 1]
      case Enq(ns, epoch, timestamp, item) => Enqueue(QueueAfter(evs[..|evs| - 1]), ns, epoch, timestamp, item)
      case Flush(_) => map[]
  }

  ghost predicate Legal(evs: seq<QueueEvent>) {
    forall i :: 0 <= i < |evs| && evs[i].Flush? ==> IsFlush(QueueAfter(evs[..i]), evs[i].reqs)
  }

  function Added(evs: seq<QueueEvent>, ns: Namespace, epoch: nat): seq<Item> {
    if evs == [] then []
    else
      var rest, ev := Added(evs[..|evs| - 1], ns, epoch), evs[|evs| - 1];
      if ev.Enq? && ev.ns == ns && ev.epoch == epoch then rest + [ev.item] else rest
  }

  /** The requests for one epoch among those of a flush. */
  function ReqsFor(reqs: seq<Request>, ns: Namespace, epoch: nat): seq<Request> {
    if reqs == [] then []
    else
      var rest, r := ReqsFor(reqs[..|reqs| - 1], ns, epoch), reqs[|reqs| - 1];
      if r.ns == ns && r.epoch == epoch then rest + [r] else rest
  }

  /** The requests for one epoch, over all flushes. */
  function Shipped(evs: seq<QueueEvent>, ns: Namespace, epoch: nat): seq<Request> {
    if evs == [] then []
    else
      var rest, ev := Shipped(evs[..|evs| - 1], ns, epoch), evs[|evs| - 1];
      if ev.Flush? then rest + ReqsFor(ev.reqs, ns, epoch) else rest
  }

  function JoinTxs(reqs: seq<Request>): seq<Item> {
    if reqs == [] then [] else JoinTxs(reqs[..|reqs| - 1]) + reqs[|reqs| - 1].txs
  }

  lemma {:induction false} ReqsForNone(reqs: seq<Request>, ns: Namespace, epoch: nat)
    requires forall i :: 0 <= i < |reqs| ==> !(reqs[i].ns == ns && reqs[i].epoch == epoch)
    ensures ReqsFor(reqs, ns, epoch) == []
  {
    if reqs != [] { ReqsForNone(reqs[..|reqs| - 1], ns, epoch); }
  }

  lemma {:induction false} ReqsForOne(reqs: seq<Request>, ns: Namespace, epoch: nat, i: nat)
    requires i < |reqs| && reqs[i].ns == ns && reqs[i].epoch == epoch
    requires forall j :: 0 <= j < |reqs| && j != i ==> !(reqs[j].ns == ns && reqs[j].epoch == epoch)
    ensures ReqsFor(reqs, ns, epoch) == [reqs[i]]
  {
    if i == |reqs| - 1 {
      ReqsForNone(reqs[..i], ns, epoch);
    } else {
      ReqsForOne(reqs[..|reqs| - 1], ns, epoch, i);
    }
  }

  /** A flush ships an epoch's queue as one request, or nothing. */
  lemma FlushShips(q: Queue, reqs: seq<Request>, ns: Namespace, epoch: nat)
    requires QueueOk(q) && IsFlush(q, reqs)
    ensures ReqsFor(reqs, ns, epoch) == if Has(q, ns, epoch) then [q[ns][epoch]] else []
  {
    if Has(q, ns, epoch) {
      var i :| 0 <= i < |reqs| && reqs[i] == q[ns][epoch];
      forall j | 0 <= j < |reqs| && j != i ensures !(reqs[j].ns == ns && reqs[j].epoch == epoch) {
        LessTotal(ns, ns);
        if j < i { assert Before(reqs[j], reqs[i]); } else { assert Before(reqs[i], reqs[j]); }
      }
      ReqsForOne(reqs, ns, epoch, i);
    } else {
      ReqsForNone(reqs, ns, epoch);
    }
  }

  lemma {:induction false} JoinConcat(a: seq<Request>, b: seq<Request>)
    ensures JoinTxs(a + b) == JoinTxs(a) + JoinTxs(b)
  {
    if b == [] {
      assert a + b == a;
    } else {
      assert (a + b)[..|a + b| - 1] == a + b[..|b| - 1];
      JoinConcat(a, b[..|b| - 1]);
    }
  }

  /** Whatever the interleaving: for every namespace and epoch, what was shipped over all flushes followed by what is
      still queued is what was added, in order; no request shipped is empty. */
  lemma {:induction false} QueueConserves(evs: seq<QueueEvent>, ns: Namespace, epoch: nat)
    requires Legal(evs)
    ensures QueueOk(QueueAfter(evs))
    ensures JoinTxs(Shipped(evs, ns, epoch)) + Queued(QueueAfter(evs), ns, epoch) == Added(evs, ns, epoch)
    ensures forall i :: 0 <= i < |Shipped(evs, ns, epoch)| ==> Shipped(evs, ns, epoch)[i].txs != []
  {
    if evs != [] {
      hide Legal, QueueOk, IsFlush, Enqueue, Queued, JoinTxs, ReqsFor;
      var init, ev := evs[..|evs| - 1], evs[|evs| - 1];
      LegalInit(evs);
      QueueConserves(init, ns, epoch);
      var q, rs := QueueAfter(init), Shipped(init, ns, epoch);
      match ev
      case Enq(n, e, t, item) => EnqueueAppends(q, n, e, t, item);
      case Flush(reqs) =>
        FlushShips(q, reqs, ns, epoch);
        FlushJoins(q, reqs, ns, epoch);
        JoinConcat(rs, ReqsFor(reqs, ns, epoch));
    }
  }

  lemma LegalInit(evs: seq<QueueEvent>)
    requires Legal(evs) && evs != []
    ensures var init, ev := evs[..|evs| - 1], evs[|evs| - 1];
            Legal(init) && (ev.Flush? ==> IsFlush(QueueAfter(init), ev.reqs))
  {
    hide IsFlush, QueueAfter;
    var init := evs[..|evs| - 1];
    assert forall i :: 0 <= i < |init| ==> init[..i] == evs[..i];
  }

  lemma FlushJoins(q: Queue, reqs: seq<Request>, ns: Namespace, epoch: nat)
    requires QueueOk(q) && IsFlush(q, reqs)
    ensures var part := ReqsFor(reqs, ns, epoch);
            JoinTxs(part) == Queued(q, ns, epoch) && forall i :: 0 <= i < |part| ==> part[i].txs != []
    ensures QueueOk(map[]) && Queued(map[], ns, epoch) == []
  {
    hide IsFlush, ReqsFor;
    FlushShips(q, reqs, ns, epoch);
    var part := ReqsFor(reqs, ns, epoch);
    if part != [] { assert part[..0] == [] && JoinTxs(part) == JoinTxs([]) + part[0].txs; }
  }

  // ---------------------------------------------------------------- the chain's store

  datatype Epoch = Epoch(timestamp: nat, txs: seq<Item>)

  type Chain = map<nat, Epoch>

  /** saveTransactions, as seen by one namespace: an epoch that is already there is overwritten. */
  function Save(chain: Chain, ns: Namespace, r: Request): Chain {
    if r.ns == ns then chain[r.epoch := Epoch(r.timestamp, r.txs)] else chain
  }

  function SaveAll(chain: Chain, ns: Namespace, reqs: seq<Request>): Chain {
    if reqs == [] then chain else Save(SaveAll(chain, ns, reqs[..|reqs| - 1]), ns, reqs[|reqs| - 1])
  }

  /** The chain after every flush of a run has been delivered, in order. */
  function ChainAfter(evs: seq<QueueEvent>, ns: Namespace): Chain {
    if evs == [] then map[]
    else
      var rest, ev := ChainAfter(evs[..|evs| - 1], ns), evs[|evs| - 1];
      if ev.Flush? then SaveAll(rest, ns, ev.reqs) else rest
  }

  lemma {:induction false} SaveAllLast(chain: Chain, ns: Namespace, reqs: seq<Request>, epoch: nat)
    ensures var c, rs := SaveAll(chain, ns, reqs), ReqsFor(reqs, ns, epoch);
            if rs == [] then (epoch in c <==> epoch in chain) && (epoch in c ==> c[epoch] == chain[epoch])
            else epoch in c && c[epoch] == Epoch(rs[|rs| - 1].timestamp, rs[|rs| - 1].txs)
  {
    if reqs != [] { SaveAllLast(chain, ns, reqs[..|reqs| - 1], epoch); }
  }

  lemma {:induction false} ChainHoldsLast(evs: seq<QueueEvent>, ns: Namespace, epoch: nat)
    ensures var c, rs := ChainAfter(evs, ns), Shipped(evs, ns, epoch);
            if rs == [] then epoch !in c
            else epoch in c && c[epoch] == Epoch(rs[|rs| - 1].timestamp, rs[|rs| - 1].txs)
  {
    if evs != [] {
      var init, ev := evs[..|evs| - 1], evs[|evs| - 1];
      ChainHoldsLast(init, ns, epoch);
      if ev.Flush? { SaveAllLast(ChainAfter(init, ns), ns, ev.reqs, epoch); }
    }
  }

  /** The chain ends up with all of an epoch's transactions exactly when one flush carried them all: a flush that
      falls between two additions for an epoch loses the first part. */
  lemma ChainCompleteIffOneFlush(evs: seq<QueueEvent>, ns: Namespace, epoch: nat)
    requires Legal(evs) && Added(evs, ns, epoch) != [] && Queued(QueueAfter(evs), ns, epoch) == []
    ensures epoch in ChainAfter(evs, ns)
    ensures ChainAfter(evs, ns)[epoch].txs == Added(evs, ns, epoch) <==> |Shipped(evs, ns, epoch)| == 1
  {
    hide Legal, Shipped, Added, QueueAfter, Queued, JoinTxs, ChainAfter;
    QueueConserves(evs, ns, epoch);
    ChainHoldsLast(evs, ns, epoch);
    var rs := Shipped(evs, ns, epoch);
    assert rs != [] by { JoinNone(); }
    JoinLast(rs);
  }

  /** It does happen: an epoch flushed in two parts keeps the second only. */
  lemma SplitFlushLoses(ns: Namespace, t: nat, first: Item, second: Item)
    ensures var evs := InTwoParts(ns, t, first, second);
            && Legal(evs) && QueueAfter(evs) == map[]
            && Added(evs, ns, 0) == [first, second] && ChainAfter(evs, ns) == map[0 := Epoch(t, [second])]
  {
    hide IsFlush, Enqueue, SaveAll;
    var evs := InTwoParts(ns, t, first, second);
    var a, b, c := evs[..1], evs[..2], evs[..3];
    assert a[..0] == [] && b[..1] == a && c[..2] == b && evs[..0] == [];
    EnqueueFlushes(ns, t, first);
    EnqueueFlushes(ns, t, second);
    SaveOne(map[], ns, evs[1].reqs[0]);
    SaveOne(map[0 := Epoch(t, [first])], ns, evs[3].reqs[0]);
    assert Added(a, ns, 0) == [first] && Added(b, ns, 0) == [first] && Added(c, ns, 0) == [first, second];
    assert ChainAfter(a, ns) == map[] && ChainAfter(b, ns) == map[0 := Epoch(t, [first])] == ChainAfter(c, ns);
    assert QueueAfter([]) == map[] && QueueAfter(b) == map[];
  }

  function InTwoParts(ns: Namespace, t: nat, first: Item, second: Item): seq<QueueEvent> {
    [Enq(ns, 0, t, first), Flush([Request(ns, 0, t, [first])]),
     Enq(ns, 0, t, second), Flush([Request(ns, 0, t, [second])])]
  }

  lemma SaveOne(chain: Chain, ns: Namespace, r: Request)
    ensures SaveAll(chain, ns, [r]) == Save(chain, ns, r)
  {
    assert [r][..0] == [];
  }

  lemma EnqueueFlushes(ns: Namespace, t: nat, item: Item)
    ensures IsFlush(Enqueue(map[], ns, 0, t, item), [Request(ns, 0, t, [item])])
  {
    var q, r := Enqueue(map[], ns, 0, t, item), Request(ns, 0, t, [item]);
    assert [] + [item] == [item];
    assert q[ns] == map[0 := r];
    assert q == map[ns := map[0 := r]];
    assert [r][0] == r;
  }

  lemma JoinNone()
    ensures JoinTxs([]) == []
  {
  }

  lemma JoinLast(rs: seq<Request>)
    requires rs != [] && forall i :: 0 <= i < |rs| ==> rs[i].txs != []
    ensures JoinTxs(rs) == rs[|rs| - 1].txs <==> |rs| == 1
  {
    var init := rs[..|rs| - 1];
    if |rs| > 1 {
      assert JoinTxs(init) == JoinTxs(init[..|init| - 1]) + init[|init| - 1].txs;
      assert |JoinTxs(rs)| > |rs[|rs| - 1].txs|;
    }
  }
}
