/** From the ticks of a world to the chain and back, as one path: submissions to the sequencer, flushes between them,
    the chain's store, and the replay. */
module Delivery {
  import opened Base
  import opened Storage
  import opened Order
  import opened Views
  import opened Refinement
  import opened Sequencer
  import opened Ticks
  import opened Recovery

  /** A tick's transactions reaching the sequencer, its message ids sorted; or a flush. */
  datatype Action =
    | Submission(ns: Namespace, epoch: nat, timestamp: nat, txs: TxMap, ids: seq<MsgId>)
    | Flushing(reqs: seq<Request>)

  ghost predicate ActionOk(a: Action) {
    a.Submission? ==> Increasing(a.ids) && forall id :: id in a.ids <==> id in a.txs
  }

  function Enqs(ns: Namespace, epoch: nat, timestamp: nat, items: seq<Item>): seq<QueueEvent> {
    seq(|items|, i requires 0 <= i < |items| => Enq(ns, epoch, timestamp, items[i]))
  }

  /** What a submission adds to the queue: the blob, flattened. */
  ghost function ItemsOf(a: Action): seq<Item>
    requires a.Submission? && ActionOk(a)
  {
    Flatten(BlobOf(a.txs), a.ids)
  }

  ghost function EventsOf(a: Action): seq<QueueEvent>
    requires ActionOk(a)
  {
    match a
    case Submission(ns, epoch, timestamp, _, _) => Enqs(ns, epoch, timestamp, ItemsOf(a))
    case Flushing(reqs) => [Flush(reqs)]
  }

  ghost predicate ActionsOk(acts: seq<Action>) {
    forall i :: 0 <= i < |acts| ==> ActionOk(acts[i])
  }

  /** The queue events of a run: no flush falls inside a submission. */
  ghost function Events(acts: seq<Action>): seq<QueueEvent>
    requires ActionsOk(acts)
  {
    if acts == [] then [] else Events(acts[..|acts| - 1]) + EventsOf(acts[|acts| - 1])
  }

  // ---------------------------------------------------------------- one submission

  lemma {:induction false} EnqsAdd(evs: seq<QueueEvent>, ns: Namespace, epoch: nat, t: nat, items: seq<Item>,
                                   n: Namespace, e: nat)
    ensures var evs' := evs + Enqs(ns, epoch, t, items);
            && Added(evs', n, e) == Added(evs, n, e) + (if n == ns && e == epoch then items else [])
            && Shipped(evs', n, e) == Shipped(evs, n, e)
            && QueueAfter(evs') == EnqueueAll(QueueAfter(evs), ns, epoch, t, items)
  {
    hide Enqueue, ReqsFor;
    var all := evs + Enqs(ns, epoch, t, items);
    if items == [] {
      assert all == evs;
    } else {
      var init, last := items[..|items| - 1], items[|items| - 1];
      EnqsAdd(evs, ns, epoch, t, init, n, e);
      assert all[..|all| - 1] == evs + Enqs(ns, epoch, t, init);
      assert all[|all| - 1] == Enq(ns, epoch, t, last);
      assert items == init + [last];
      hide Enqs;
    }
  }

  lemma LegalPrefix(a: seq<QueueEvent>, b: seq<QueueEvent>)
    requires Legal(a + b)
    ensures Legal(a)
  {
    hide IsFlush, QueueAfter;
    assert forall i :: 0 <= i < |a| ==> (a + b)[..i] == a[..i] && (a + b)[i] == a[i];
  }

  ghost predicate For(a: Action, ns: Namespace, k: nat) {
    a.Submission? && a.ns == ns && a.epoch == k
  }

  /** How many submissions were made for an epoch. */
  ghost function Times(acts: seq<Action>, ns: Namespace, k: nat): nat {
    if acts == [] then 0 else Times(acts[..|acts| - 1], ns, k) + if For(acts[|acts| - 1], ns, k) then 1 else 0
  }

  lemma NothingShips(evs: seq<QueueEvent>, ns: Namespace, k: nat)
    requires Legal(evs) && Added(evs, ns, k) == []
    ensures Shipped(evs, ns, k) == [] && Queued(QueueAfter(evs), ns, k) == []
  {
    hide Legal, Shipped, Added, QueueAfter, Queued, JoinTxs;
    QueueConserves(evs, ns, k);
    if Shipped(evs, ns, k) != [] { JoinSome(Shipped(evs, ns, k)); }
  }

  lemma JoinSome(rs: seq<Request>)
    requires rs != [] && rs[|rs| - 1].txs != []
    ensures JoinTxs(rs) != []
  {
  }

  /** Since no flush falls inside a submission, an epoch submitted once is shipped at once. */
  lemma {:induction false} OneShipment(acts: seq<Action>, ns: Namespace, k: nat)
    requires ActionsOk(acts) && Legal(Events(acts))
    ensures var evs := Events(acts);
            && (Times(acts, ns, k) == 0 ==> Added(evs, ns, k) == [])
            && (Times(acts, ns, k) <= 1 ==>
                  |Shipped(evs, ns, k)| <= 1 && (Shipped(evs, ns, k) != [] ==> Queued(QueueAfter(evs), ns, k) == []))
  {
    hide Legal, QueueAfter, Queued, Added, Shipped;
    if acts == [] {
      AddedNone(ns, k);
    } else {
      var init, a := acts[..|acts| - 1], acts[|acts| - 1];
      var evs, evs' := Events(init), Events(acts);
      LegalPrefix(evs, EventsOf(a));
      OneShipment(init, ns, k);
      if a.Flushing? {
        AddedFlush(evs, a.reqs, ns, k);
        if Times(init, ns, k) <= 1 { FlushShipsOnce(evs, a.reqs, ns, k); }
      } else {
        EnqsAdd(evs, a.ns, a.epoch, a.timestamp, ItemsOf(a), ns, k);
        QueueConserves(evs', ns, k);
        if For(a, ns, k) {
          if Times(init, ns, k) == 0 { NothingShips(evs, ns, k); }
        } else {
          QueueConserves(evs, ns, k);
          SameTail(JoinTxs(Shipped(evs, ns, k)), Queued(QueueAfter(evs), ns, k), Queued(QueueAfter(evs'), ns, k));
        }
      }
    }
  }

  lemma AddedNone(ns: Namespace, k: nat)
    ensures Added([], ns, k) == [] && Shipped([], ns, k) == []
  {
  }

  lemma SameTail(a: seq<Item>, b: seq<Item>, c: seq<Item>)
    requires a + b == a + c
    ensures b == c
  {
    assert b == (a + b)[|a|..] && c == (a + c)[|a|..];
  }

  lemma FlushShipsOnce(evs: seq<QueueEvent>, reqs: seq<Request>, ns: Namespace, k: nat)
    requires Legal(evs + [Flush(reqs)]) && |Shipped(evs, ns, k)| <= 1
    requires Shipped(evs, ns, k) != [] ==> Queued(QueueAfter(evs), ns, k) == []
    ensures var evs' := evs + [Flush(reqs)];
            && Added(evs', ns, k) == Added(evs, ns, k)
            && |Shipped(evs', ns, k)| <= 1 && Queued(QueueAfter(evs'), ns, k) == []
  {
    hide IsFlush, JoinTxs, ReqsFor;
    var evs' := evs + [Flush(reqs)];
    assert evs'[..|evs|] == evs && evs'[|evs|] == Flush(reqs);
    LegalPrefix(evs, [Flush(reqs)]);
    QueueConserves(evs, ns, k);
    FlushShips(QueueAfter(evs), reqs, ns, k);
  }

  /** What was added for an epoch submitted once is that submission. */
  lemma {:induction false} AddedOnce(acts: seq<Action>, ns: Namespace, k: nat, i: nat)
    requires ActionsOk(acts) && Legal(Events(acts)) && i < |acts| && For(acts[i], ns, k) && Times(acts, ns, k) == 1
    ensures Added(Events(acts), ns, k) == ItemsOf(acts[i])
  {
    hide Legal, Added, Shipped, QueueAfter, ItemsOf;
    var init, a := acts[..|acts| - 1], acts[|acts| - 1];
    var evs := Events(init);
    LegalPrefix(evs, EventsOf(a));
    if a.Submission? {
      EnqsAdd(evs, a.ns, a.epoch, a.timestamp, ItemsOf(a), ns, k);
    } else {
      AddedFlush(evs, a.reqs, ns, k);
    }
    if i == |acts| - 1 {
      OneShipment(init, ns, k);
    } else {
      TimesSome(init, ns, k, i);
      AddedOnce(init, ns, k, i);
    }
  }

  lemma AddedFlush(evs: seq<QueueEvent>, reqs: seq<Request>, ns: Namespace, k: nat)
    ensures Added(evs + [Flush(reqs)], ns, k) == Added(evs, ns, k)
  {
    assert (evs + [Flush(reqs)])[..|evs|] == evs;
  }

  lemma {:induction false} TimesSome(acts: seq<Action>, ns: Namespace, k: nat, i: nat)
    requires i < |acts| && For(acts[i], ns, k)
    ensures Times(acts, ns, k) >= 1
  {
    if i < |acts| - 1 { TimesSome(acts[..|acts| - 1], ns, k, i); }
  }

  lemma {:induction false} TimesFinds(acts: seq<Action>, ns: Namespace, k: nat) returns (i: nat)
    requires Times(acts, ns, k) >= 1
    ensures i < |acts| && For(acts[i], ns, k)
  {
    if For(acts[|acts| - 1], ns, k) { i := |acts| - 1; } else { i := TimesFinds(acts[..|acts| - 1], ns, k); }
  }

  // ---------------------------------------------------------------- the ticks of a log

  /** The ticks `handed` over were each submitted once, and no other was. A submission agrees with its tick up to salts,
      and in the timestamp if it has transactions. */
  ghost predicate Delivered(acts: seq<Action>, ns: Namespace, log: seq<Input>, handed: set<nat>) {
    && ActionsOk(acts) && (forall k :: k in handed ==> k < |log|)
    && (forall k: nat :: Times(acts, ns, k) == if k in handed then 1 else 0)
    && forall i :: 0 <= i < |acts| && acts[i].Submission? && acts[i].ns == ns && acts[i].epoch < |log| ==>
         OfTick(acts[i], log[acts[i].epoch])
  }

  ghost predicate OfTick(a: Action, input: Input)
    requires a.Submission?
  {
    StripAll(a.txs) == StripAll(input.txs) && (a.txs != map[] ==> a.timestamp == input.timestamp)
  }

  ghost predicate AllFlushed(acts: seq<Action>, ns: Namespace)
    requires ActionsOk(acts)
  {
    forall k: nat :: Queued(QueueAfter(Events(acts)), ns, k) == []
  }

  lemma {:induction false} SubmissionsStamped(acts: seq<Action>, ns: Namespace, log: seq<Input>)
    requires ActionsOk(acts)
    requires forall i :: 0 <= i < |acts| && acts[i].Submission? && acts[i].ns == ns ==>
               acts[i].epoch < |log| && OfTick(acts[i], log[acts[i].epoch])
    ensures Stamped(Events(acts), ns, log)
  {
    hide OfTick;
    if acts != [] {
      var init, a := acts[..|acts| - 1], acts[|acts| - 1];
      SubmissionsStamped(init, ns, log);
      assert a == acts[|acts| - 1];
      if a.Submission? && a.ns == ns { StampedOne(a, log); }
    }
  }

  lemma StampedOne(a: Action, log: seq<Input>)
    requires a.Submission? && ActionOk(a) && a.epoch < |log| && OfTick(a, log[a.epoch])
    ensures ItemsOf(a) != [] ==> a.timestamp == log[a.epoch].timestamp
  {
    if ItemsOf(a) != [] { assert a.ids[0] in a.txs; }
  }

  lemma CarriesStripped(items: seq<Item>, m: TxMap, m': TxMap)
    requires Carries(items, m) && StripAll(m) == StripAll(m')
    ensures Carries(items, m')
  {
    forall id ensures Wired(ForId(m', id)) == Wired(ForId(m, id)) {
      assert id in m <==> id in StripAll(m);
      assert id in m' <==> id in StripAll(m');
      if id in m {
        assert Strip(m[id]) == StripAll(m)[id] == StripAll(m')[id] == Strip(m'[id]);
        assert |m[id]| == |m'[id]|;
        forall i | 0 <= i < |m[id]| ensures ToWire(m[id][i]) == ToWire(m'[id][i]) {
          assert Strip(m[id])[i] == Strip(m'[id])[i];
        }
      }
    }
    hide Pick;
  }

  lemma TickAdded(acts: seq<Action>, ns: Namespace, log: seq<Input>, handed: set<nat>, k: nat)
    requires Delivered(acts, ns, log, handed) && Legal(Events(acts)) && k in handed
    ensures Carries(Added(Events(acts), ns, k), log[k].txs)
  {
    hide Legal, Added, Carries, ItemsOf;
    var i := TimesFinds(acts, ns, k);
    AddedOnce(acts, ns, k, i);
    SubmissionCarries(acts[i]);
    CarriesStripped(ItemsOf(acts[i]), acts[i].txs, log[k].txs);
  }

  lemma SubmissionCarries(a: Action)
    requires a.Submission? && ActionOk(a)
    ensures Carries(ItemsOf(a), a.txs)
  {
    hide Carries;
    FlattenCarries(a.txs, a.ids);
  }

  /** Once all is flushed, the chain publishes the log if and only if every tick that was not handed over had no
      transactions. */
  lemma PublishedIff(acts: seq<Action>, ns: Namespace, log: seq<Input>, handed: set<nat>)
    requires Delivered(acts, ns, log, handed) && Legal(Events(acts)) && AllFlushed(acts, ns)
    requires forall k :: 0 <= k < |log| ==> NonEmpty(log[k].txs)
    ensures Published(ChainAfter(Events(acts), ns), log) <==>
            forall k :: 0 <= k < |log| && k !in handed ==> log[k].txs == map[]
  {
    hide Legal, Carries, Events, Stamped, QueueAfter, Queued, Added, Shipped, ChainAfter, OfTick;
    var evs, chain := Events(acts), ChainAfter(Events(acts), ns);
    forall k: nat ensures |Shipped(evs, ns, k)| <= 1
                  ensures k !in handed ==> Added(evs, ns, k) == [] && k !in chain
    {
      OneShipment(acts, ns, k);
      ChainHoldsLast(evs, ns, k);
      if k !in handed { NothingShips(evs, ns, k); }
    }
    if forall k :: 0 <= k < |log| && k !in handed ==> log[k].txs == map[] {
      forall i | 0 <= i < |acts| && acts[i].Submission? && acts[i].ns == ns ensures acts[i].epoch in handed {
        TimesSome(acts, ns, acts[i].epoch, i);
      }
      SubmissionsStamped(acts, ns, log);
      forall k | 0 <= k < |log| ensures Carries(Added(evs, ns, k), log[k].txs) {
        if k in handed { TickAdded(acts, ns, log, handed, k); } else { CarriesNothing(); }
      }
      ChainPublishes(evs, ns, log);
    }
  }

  lemma CarriesNothing()
    ensures Carries([], map[])
  {
  }

  /** Submit, queue, flush, iterate, recover: when every tick was submitted once, in whatever interleaving with flushes
      and other worlds' submissions, and all is flushed, then replaying the chain from any tick on which the storage
      stands takes it to the original world after the last tick with transactions. */
  lemma ChainRecovers(acts: seq<Action>, ns: Namespace, log: seq<Input>, handed: set<nat>,
                      sys: Systems, w0: World, cur: nat, epochs: seq<nat>)
    requires Delivered(acts, ns, log, handed) && Legal(Events(acts)) && AllFlushed(acts, ns)
    requires forall k :: 0 <= k < |log| ==> k in handed && NonEmpty(log[k].txs)
    requires Indifferent(sys) && cur <= |log| && ListsFrom(epochs, ChainAfter(Events(acts), ns), cur)
    ensures var replay := Replay(ChainAfter(Events(acts), ns), cur, epochs); var end := cur + |replay|;
            && end <= |log| && History(sys, History(sys, w0, log[..cur]), replay) == History(sys, w0, log[..end])
            && forall k :: end <= k < |log| ==> log[k].txs == map[]
  {
    hide AllFlushed, Legal, Published, Indifferent, History, ChainAfter, Events;
    PublishedIff(acts, ns, log, handed);
    RecoveryReproduces(sys, w0, log, ChainAfter(Events(acts), ns), cur, epochs);
  }

  // ---------------------------------------------------------------- what a lost tick does

  /** A node's finalized ticks that have not reached the job queue: lost ones, and one still to be submitted. */
  ghost function Unsent(n: Node): set<nat> {
    n.lost + if n.phase.Stored? then {n.tick} else {}
  }

  /** At every point of every run with crashes, if what was handed over is delivered, the chain publishes the node's log
      if and only if no tick that was lost, or is still to be submitted, had transactions. */
  lemma LostTicksBreakTheChain(ns: seq<Node>, sys: Systems, reg: set<CompId>, evs: seq<Event>, w0: World, i: nat,
                               acts: seq<Action>, name: Namespace)
    requires NodeRun(ns, sys, reg, evs) && Behaved(sys, reg, w0) && NodeInv(ns[0], sys, reg, w0) && i < |ns|
    requires Delivered(acts, name, ns[i].log, ns[i].sent + ns[i].replayed)
    requires Legal(Events(acts)) && AllFlushed(acts, name)
    requires forall k :: 0 <= k < |ns[i].log| ==> NonEmpty(ns[i].log[k].txs)
    ensures (forall t :: t in Unsent(ns[i]) ==> t < |ns[i].log|)
    ensures Published(ChainAfter(Events(acts), name), ns[i].log) <==>
            forall t :: t in Unsent(ns[i]) ==> ns[i].log[t].txs == map[]
  {
    hide NodeInv, Behaved, Next, Enabled, Delivered, Legal, AllFlushed, Published, ChainAfter, Events, History, Saved;
    var n := ns[i];
    StorageIsWholeTicks(ns, sys, reg, evs, w0, i);
    RunKeepsNode(ns, sys, reg, evs, w0, i);
    NodeMeans(n, sys, reg, w0);
    PublishedIff(acts, name, n.log, n.sent + n.replayed);
    UnsentIs(n);
  }

  lemma UnsentIs(n: Node)
    requires Accounted(n, if n.phase.Stored? then n.tick else |n.log|) && (n.phase.Stored? ==> n.tick + 1 == |n.log|)
    ensures forall t :: t in Unsent(n) <==> 0 <= t < |n.log| && t !in n.sent + n.replayed
  {
    forall t: nat ensures t in Unsent(n) <==> 0 <= t < |n.log| && t !in n.sent + n.replayed {
      assert Settled(n, t) <==> 0 <= t < if n.phase.Stored? then n.tick else |n.log|;
    }
  }

  /** It does happen: a tick with transactions that a crash keeps from being submitted is finalized, and no chain that
      received what was submitted publishes the log. */
  lemma LostTickUnpublished(sys: Systems, reg: set<CompId>, input: Input, name: Namespace)
      returns (ns: seq<Node>, evs: seq<Event>)
    requires Behaved(sys, reg, Nothing) && NonEmpty(input.txs) && input.txs != map[]
    ensures NodeRun(ns, sys, reg, evs) && ns[0] == FirstNode(reg) && ns[|evs|].log == [input]
    ensures Delivered([], name, ns[|evs|].log, ns[|evs|].sent + ns[|evs|].replayed)
    ensures !Published(ChainAfter(Events([]), name), ns[|evs|].log)
  {
    hide NodeInv, Behaved, Next, Enabled, Published, ChainAfter, FirstNode;
    ns, evs := TickLost(sys, reg, input);
    FirstStart(sys, reg);
    NothingDelivered(name, [input]);
    LostTicksBreakTheChain(ns, sys, reg, evs, Nothing, |evs|, [], name);
    assert 0 in Unsent(ns[|evs|]);
  }

  lemma NothingDelivered(name: Namespace, log: seq<Input>)
    ensures Delivered([], name, log, {}) && Legal(Events([])) && AllFlushed([], name)
  {
  }
}
