/** The tick loop of cardinal/world.go over the command buffer, with a crash allowed between any two steps. */
module Ticks {
  import opened Base
  import opened Storage
  import opened Buffer
  import opened Coherence
  import opened Views
  import opened Refinement
  import opened Sequencer

  datatype Input = Input(timestamp: nat, txs: TxMap)

  /** The registered systems: deterministic, so the calls they make in a tick are fixed by the committed world they
      start from (which includes the tick number) and the tick's input. */
  type Systems = (World, Input) -> seq<Call>

  ghost predicate GameCall(c: Call) {
    !c.DoFinalize? && !c.DoDiscard? && !c.DoRestart?
  }

  ghost function Fresh(w: World): Model {
    Model(w, w, {}, {})
  }

  /** In this world and on this input the systems stay within the buffer's conditions of use. */
  ghost predicate Conducts(sys: Systems, reg: set<CompId>, w: World, input: Input) {
    (forall i :: 0 <= i < |sys(w, input)| ==> GameCall(sys(w, input)[i])) && RunAllowed(Fresh(w), reg, sys(w, input))
  }

  /** The systems do so in every world they can bring about. */
  ghost predicate Behaved(sys: Systems, reg: set<CompId>, w0: World) {
    forall log, input :: Conducts(sys, reg, History(sys, w0, log), input)
  }

  /** What one tick does to the committed world. */
  ghost function Effect(sys: Systems, w: World, input: Input): World {
    Plain(PlainRun(Fresh(w), sys(w, input)).0, DoFinalize).0.saved
  }

  ghost function History(sys: Systems, w: World, inputs: seq<Input>): World {
    if inputs == [] then w else Effect(sys, History(sys, w, inputs[..|inputs| - 1]), inputs[|inputs| - 1])
  }

  // ---------------------------------------------------------------- one process and its storage

  datatype Phase =
    | Idle
    | Running(input: Input, calls: seq<Call>, done: nat)  // `done` of the tick's calls have been made
    | Stored                                              // finalized, not yet submitted
    | Submitted                                           // submitted, tick counter not yet advanced

  /** A process is recovering from its start until the chain has been replayed. `log` records the inputs of finalized
      ticks; of these, `sent` had their transactions handed to the job queue, `replayed` were run while recovering, and
      `lost` fell to a crash between the commit and the submission. */
  datatype Node = Node(
    s: Sys, tick: nat, phase: Phase, recovering: bool,
    log: seq<Input>, sent: set<nat>, replayed: set<nat>, lost: set<nat>)

  datatype Event = Begin(input: Input) | Work | Store | Submit | Advance | Crash | Resume

  ghost predicate Enabled(n: Node, ev: Event) {
    match ev
    case Begin(_) => n.phase.Idle?
    case Work => n.phase.Running? && n.phase.done < |n.phase.calls|
    case Store => n.phase.Running? && n.phase.done == |n.phase.calls|
    case Submit => n.phase.Stored?
    case Advance => n.phase.Submitted?
    case Crash => true
    case Resume => n.phase.Idle? && n.recovering
  }

  /** doTick, step by step; a crash loses everything but storage, and StartGame reloads from it. */
  ghost function Next(n: Node, sys: Systems, reg: set<CompId>, ev: Event): Node
    requires Enabled(n, ev)
  {
    match ev
    case Begin(input) => n.(phase := Running(input, sys(View(n.s.buf, n.s.db), input), 0))
    case Work =>
      n.(s := Step(n.s, reg, n.phase.calls[n.phase.done]).0, phase := n.phase.(done := n.phase.done + 1))
    case Store => n.(s := Step(n.s, reg, DoFinalize).0, phase := Stored, log := n.log + [n.phase.input])
    case Submit =>
      if n.recovering then n.(phase := Submitted, replayed := n.replayed + {n.tick})
      else n.(phase := Submitted, sent := n.sent + {n.tick})
    case Advance => n.(phase := Idle, tick := n.tick + 1)
    case Crash =>
      n.(s := Step(n.s, reg, DoRestart).0, phase := Idle, recovering := true, tick := n.s.db.tick,
         replayed := if n.phase.Stored? && n.recovering then n.replayed + {n.tick} else n.replayed,
         lost := if n.phase.Stored? && !n.recovering then n.lost + {n.tick} else n.lost)
    case Resume => n.(recovering := false)
  }

  /** Storage is the result of the logged ticks, the buffer is where the current tick has got to, and the counters
      agree. */
  ghost predicate NodeInv(n: Node, sys: Systems, reg: set<CompId>, w0: World) {
    var w := History(sys, w0, n.log);
    && w.tick == |n.log|
    && Accounted(n, if n.phase.Stored? then n.tick else |n.log|)
    && (match n.phase
        case Idle => n.tick == |n.log| && Refines(n.s, Fresh(w), reg)
        case Running(input, calls, done) =>
          && n.tick == |n.log| && calls == sys(w, input) && done <= |calls|
          && Refines(n.s, PlainRun(Fresh(w), calls[..done]).0, reg)
        case Stored => n.tick + 1 == |n.log| && Refines(n.s, Fresh(w), reg)
        case Submitted => n.tick + 1 == |n.log| && Refines(n.s, Fresh(w), reg))
  }

  /** Each of the first `k` ticks was sent, replayed or lost, in exactly one of the three ways, and no other was. */
  ghost predicate Accounted(n: Node, k: int) {
    && n.sent !! n.replayed && n.sent !! n.lost && n.replayed !! n.lost
    && forall t :: Settled(n, t) <==> 0 <= t < k
  }

  ghost predicate Settled(n: Node, t: int) {
    t in n.sent || t in n.replayed || t in n.lost
  }

  lemma SettleOne(n: Node, n': Node)
    requires Accounted(n, n.tick)
    requires || (n'.sent == n.sent + {n.tick} && n'.replayed == n.replayed && n'.lost == n.lost)
             || (n'.sent == n.sent && n'.replayed == n.replayed + {n.tick} && n'.lost == n.lost)
             || (n'.sent == n.sent && n'.replayed == n.replayed && n'.lost == n.lost + {n.tick})
    ensures Accounted(n', n.tick + 1)
  {
    assert !Settled(n, n.tick);
    forall t: int ensures Settled(n', t) <==> Settled(n, t) || t == n.tick { }
  }

  lemma SettleSame(n: Node, n': Node, k: int)
    requires Accounted(n, k) && n'.sent == n.sent && n'.replayed == n.replayed && n'.lost == n.lost
    ensures Accounted(n', k)
  {
    forall t: int ensures Settled(n', t) <==> Settled(n, t) { }
  }

  /** Game calls do not touch what is committed. */
  lemma {:induction false} RunKeepsSaved(m: Model, calls: seq<Call>)
    requires forall i :: 0 <= i < |calls| ==> GameCall(calls[i])
    ensures PlainRun(m, calls).0.saved == m.saved && PlainRun(m, calls).0.cur.tick == m.cur.tick
  {
    if calls != [] { RunKeepsSaved(m, calls[..|calls| - 1]); }
  }

  lemma EffectTick(sys: Systems, reg: set<CompId>, w: World, input: Input)
    requires Conducts(sys, reg, w, input)
    ensures Effect(sys, w, input).tick == w.tick + 1
    ensures Plain(PlainRun(Fresh(w), sys(w, input)).0, DoFinalize).0 == Fresh(Effect(sys, w, input))
  {
    hide RunAllowed, PlainRun;
    RunKeepsSaved(Fresh(w), sys(w, input));
  }

  lemma HistoryNext(sys: Systems, w0: World, log: seq<Input>, input: Input)
    ensures History(sys, w0, log + [input]) == Effect(sys, History(sys, w0, log), input)
  {
    assert (log + [input])[..|log|] == log;
  }

  lemma BeginKeeps(n: Node, sys: Systems, reg: set<CompId>, w0: World, input: Input)
    requires NodeInv(n, sys, reg, w0) && n.phase.Idle?
    ensures NodeInv(Next(n, sys, reg, Begin(input)), sys, reg, w0)
  {
    hide Inv, View, Saved, Gone, AllIn, History;
    var w := History(sys, w0, n.log);
    assert View(n.s.buf, n.s.db) == w;
    var calls := sys(w, input);
    assert calls[..0] == [];
    hide Refines, Settled;
    SettleSame(n, Next(n, sys, reg, Begin(input)), |n.log|);
  }

  lemma WorkKeeps(n: Node, sys: Systems, reg: set<CompId>, w0: World)
    requires NodeInv(n, sys, reg, w0) && Behaved(sys, reg, w0) && Enabled(n, Work)
    ensures NodeInv(Next(n, sys, reg, Work), sys, reg, w0)
  {
    hide Refines, Step, Plain, Allowed, History, Accounted;
    assert Conducts(sys, reg, History(sys, w0, n.log), n.phase.input);
    SettleSame(n, Next(n, sys, reg, Work), |n.log|);
    var w := History(sys, w0, n.log);
    var calls, d := n.phase.calls, n.phase.done;
    assert calls[..d + 1][..d] == calls[..d];
    StepRefines(n.s, PlainRun(Fresh(w), calls[..d]).0, reg, calls[d]);
  }

  lemma StoreKeeps(n: Node, sys: Systems, reg: set<CompId>, w0: World)
    requires NodeInv(n, sys, reg, w0) && Behaved(sys, reg, w0) && Enabled(n, Store)
    ensures NodeInv(Next(n, sys, reg, Store), sys, reg, w0)
  {
    hide Refines, Step, Plain, PlainRun, History, Accounted, RunAllowed;
    SettleSame(n, Next(n, sys, reg, Store), |n.log|);
    var w := History(sys, w0, n.log);
    var calls := n.phase.calls;
    assert calls[..|calls|] == calls;
    StepRefines(n.s, PlainRun(Fresh(w), calls).0, reg, DoFinalize);
    assert Conducts(sys, reg, w, n.phase.input) by { assert Behaved(sys, reg, w0); }
    EffectTick(sys, reg, w, n.phase.input);
    HistoryNext(sys, w0, n.log, n.phase.input);
  }

  lemma CrashKeeps(n: Node, sys: Systems, reg: set<CompId>, w0: World)
    requires NodeInv(n, sys, reg, w0) && Behaved(sys, reg, w0)
    ensures NodeInv(Next(n, sys, reg, Crash), sys, reg, w0)
    ensures Table(Next(n, sys, reg, Crash).s.db) == Next(n, sys, reg, Crash).s.buf.comps
    ensures Next(n, sys, reg, Crash).s.db == n.s.db
  {
    hide Refines, Step, PlainRun, History, Table, Accounted;
    var w := History(sys, w0, n.log);
    if n.phase.Running? {
      assert Conducts(sys, reg, History(sys, w0, n.log), n.phase.input);
      RunKeepsSaved(Fresh(w), n.phase.calls[..n.phase.done]);
      CrashReloads(n.s, PlainRun(Fresh(w), n.phase.calls[..n.phase.done]).0, reg);
    } else {
      CrashReloads(n.s, Fresh(w), reg);
    }
    CrashAccounts(n, Next(n, sys, reg, Crash), |n.log|);
  }

  lemma CrashAccounts(n: Node, n': Node, k: int)
    requires Accounted(n, if n.phase.Stored? then n.tick else k) && (n.phase.Stored? ==> n.tick + 1 == k)
    requires n' == n.(s := n'.s, phase := Idle, recovering := true, tick := n'.tick,
                      replayed := if n.phase.Stored? && n.recovering then n.replayed + {n.tick} else n.replayed,
                      lost := if n.phase.Stored? && !n.recovering then n.lost + {n.tick} else n.lost)
    ensures Accounted(n', k)
  {
    hide Accounted;
    if n.phase.Stored? { SettleOne(n, n'); } else { SettleSame(n, n', k); }
  }

  lemma CrashReloads(s: Sys, m: Model, reg: set<CompId>)
    requires Refines(s, m, reg)
    ensures var s' := Step(s, reg, DoRestart).0;
            && Refines(s', Fresh(m.saved), reg) && s'.db == s.db
            && s.db.tick == m.saved.tick && Table(s.db) == s'.buf.comps
  {
    StepRefines(s, m, reg, DoRestart);
    hide DbInv, ArchOk, LocInv, IdxInv, ValInv, Touched, Ents, AllIn, Gone;
    StoredRegistered(s.buf, s.db, reg);
    RestartLoads(s.db, reg);
    hide Register;
  }

  lemma NextKeeps(n: Node, sys: Systems, reg: set<CompId>, w0: World, ev: Event)
    requires NodeInv(n, sys, reg, w0) && Behaved(sys, reg, w0) && Enabled(n, ev)
    ensures NodeInv(Next(n, sys, reg, ev), sys, reg, w0)
  {
    hide Refines, Step, PlainRun, Behaved, History, Settled;
    match ev
    case Begin(input) => BeginKeeps(n, sys, reg, w0, input);
    case Work => WorkKeeps(n, sys, reg, w0);
    case Store => StoreKeeps(n, sys, reg, w0);
    case Submit => SettleOne(n, Next(n, sys, reg, ev));
    case Advance => SettleSame(n, Next(n, sys, reg, ev), |n.log|);
    case Resume => SettleSame(n, Next(n, sys, reg, ev), |n.log|);
    case Crash => CrashKeeps(n, sys, reg, w0);
  }

  // ---------------------------------------------------------------- every run

  /** A first start on an empty store. */
  ghost function FirstNode(reg: set<CompId>): Node {
    Node(Sys(Register(NewBuf, EmptyDb, reg).0, EmptyDb), 0, Idle, true, [], {}, {}, {})
  }

  lemma FirstStart(sys: Systems, reg: set<CompId>)
    ensures NodeInv(FirstNode(reg), sys, reg, Nothing)
  {
    hide Refines;
    EmptyRefines(reg);
  }

  ghost predicate NodeRun(ns: seq<Node>, sys: Systems, reg: set<CompId>, evs: seq<Event>) {
    && |ns| == |evs| + 1
    && forall i :: 0 <= i < |evs| ==> Enabled(ns[i], evs[i]) && ns[i + 1] == Next(ns[i], sys, reg, evs[i])
  }

  lemma {:induction false} RunKeepsNode(ns: seq<Node>, sys: Systems, reg: set<CompId>, evs: seq<Event>,
                                        w0: World, i: nat)
    requires NodeRun(ns, sys, reg, evs) && Behaved(sys, reg, w0) && NodeInv(ns[0], sys, reg, w0) && i < |ns|
    ensures NodeInv(ns[i], sys, reg, w0)
  {
    hide NodeInv, Behaved, Next;
    if i > 0 {
      RunKeepsNode(ns, sys, reg, evs, w0, i - 1);
      NextKeeps(ns[i - 1], sys, reg, w0, evs[i - 1]);
      assert ns[i] == Next(ns[i - 1], sys, reg, evs[i - 1]);
    }
  }

  /** Some crash before point `i` fell between the commit and the submission of tick `t`. */
  ghost predicate LostBefore(ns: seq<Node>, evs: seq<Event>, i: nat, t: nat)
    requires i <= |evs| < |ns|
  {
    exists j :: 0 <= j < i && evs[j].Crash? && ns[j].phase.Stored? && !ns[j].recovering && ns[j].tick == t
  }

  lemma {:induction false} LostExactly(ns: seq<Node>, sys: Systems, reg: set<CompId>, evs: seq<Event>, i: nat, t: nat)
    requires NodeRun(ns, sys, reg, evs) && i < |ns|
    ensures t in ns[i].lost <==> t in ns[0].lost || LostBefore(ns, evs, i, t)
  {
    hide Step;
    if i > 0 {
      LostExactly(ns, sys, reg, evs, i - 1, t);
      var n, ev := ns[i - 1], evs[i - 1];
      assert ns[i] == Next(n, sys, reg, ev);
      if ev.Crash? && n.phase.Stored? && !n.recovering && n.tick == t { assert LostBefore(ns, evs, i, t); }
    }
  }

  // ---------------------------------------------------------------- a run that loses a tick

  lemma RunCons(n: Node, ev: Event, ns: seq<Node>, sys: Systems, reg: set<CompId>, evs: seq<Event>)
    requires Enabled(n, ev) && NodeRun(ns, sys, reg, evs) && ns[0] == Next(n, sys, reg, ev)
    ensures NodeRun([n] + ns, sys, reg, [ev] + evs)
  {
    hide Next, Enabled;
    var ms, es := [n] + ns, [ev] + evs;
    forall i | 0 <= i < |es| ensures Enabled(ms[i], es[i]) && ms[i + 1] == Next(ms[i], sys, reg, es[i]) {
      if i > 0 { assert ms[i] == ns[i - 1] && es[i] == evs[i - 1]; }
    }
  }

  /** The rest of a tick's calls, its commit, and then a crash. */
  lemma {:induction false} LoseRunning(n: Node, sys: Systems, reg: set<CompId>) returns (ns: seq<Node>, evs: seq<Event>)
    requires n.phase.Running? && n.phase.done <= |n.phase.calls| && !n.recovering
    ensures NodeRun(ns, sys, reg, evs) && ns[0] == n
    ensures ns[|evs|].log == n.log + [n.phase.input] && ns[|evs|].lost == n.lost + {n.tick}
    ensures ns[|evs|].sent == n.sent && ns[|evs|].replayed == n.replayed && ns[|evs|].phase.Idle?
    decreases |n.phase.calls| - n.phase.done
  {
    hide Step;
    if n.phase.done < |n.phase.calls| {
      var rest, es := LoseRunning(Next(n, sys, reg, Work), sys, reg);
      RunCons(n, Work, rest, sys, reg, es);
      ns, evs := [n] + rest, [Work] + es;
    } else {
      var n1 := Next(n, sys, reg, Store);
      var n2 := Next(n1, sys, reg, Crash);
      ns, evs := [n, n1, n2], [Store, Crash];
    }
  }

  /** It does happen: whatever the systems, a first start followed by one tick with any input and a crash before its
      submission leaves the tick finalized and lost. */
  lemma TickLost(sys: Systems, reg: set<CompId>, input: Input) returns (ns: seq<Node>, evs: seq<Event>)
    ensures NodeRun(ns, sys, reg, evs) && ns[0] == FirstNode(reg)
    ensures ns[|evs|].log == [input] && ns[|evs|].lost == {0} && ns[|evs|].sent == {} && ns[|evs|].replayed == {}
  {
    hide Step;
    var n0 := FirstNode(reg);
    var n1 := Next(n0, sys, reg, Resume);
    var n2 := Next(n1, sys, reg, Begin(input));
    var rest, es := LoseRunning(n2, sys, reg);
    RunCons(n1, Begin(input), rest, sys, reg, es);
    RunCons(n0, Resume, [n1] + rest, sys, reg, [Begin(input)] + es);
    ns, evs := [n0] + ([n1] + rest), [Resume] + ([Begin(input)] + es);
  }

  // ---------------------------------------------------------------- the theorem

  /** At every point of every run with crashes: storage is exactly the world after the finalized ticks, with
      last-finalized-tick their number; every finalized tick but the one whose submission is still to come was either
      submitted once, replayed during a recovery and not submitted again, or lost; it is lost if and only if a crash
      fell between its commit and its submission; and a process that has just restarted is at the last finalized tick,
      with the stored archetype table. */
  lemma StorageIsWholeTicks(ns: seq<Node>, sys: Systems, reg: set<CompId>, evs: seq<Event>, w0: World, i: nat)
    requires NodeRun(ns, sys, reg, evs) && Behaved(sys, reg, w0) && NodeInv(ns[0], sys, reg, w0) && i < |ns|
    ensures Saved(ns[i].s.db) == History(sys, w0, ns[i].log) && ns[i].s.db.tick == |ns[i].log|
    ensures Accounted(ns[i], if ns[i].phase.Stored? then ns[i].s.db.tick - 1 else ns[i].s.db.tick)
    ensures forall t :: t in ns[i].lost <==> t in ns[0].lost || LostBefore(ns, evs, i, t)
    ensures i > 0 && evs[i - 1].Crash? ==>
              && ns[i].log == ns[i - 1].log && ns[i].s.db == ns[i - 1].s.db
              && ns[i].tick == ns[i].s.db.tick && ns[i].s.buf.comps == Table(ns[i].s.db)
  {
    hide NodeInv, Step, History, Behaved, Table, Accounted, LostBefore;
    RunKeepsNode(ns, sys, reg, evs, w0, i);
    NodeMeans(ns[i], sys, reg, w0);
    forall t ensures t in ns[i].lost <==> t in ns[0].lost || LostBefore(ns, evs, i, t) {
      LostExactly(ns, sys, reg, evs, i, t);
    }
    if i > 0 {
      assert ns[i] == Next(ns[i - 1], sys, reg, evs[i - 1]);
      if evs[i - 1].Crash? {
        RunKeepsNode(ns, sys, reg, evs, w0, i - 1);
        CrashKeeps(ns[i - 1], sys, reg, w0);
      }
    }
  }

  lemma NodeMeans(n: Node, sys: Systems, reg: set<CompId>, w0: World)
    requires NodeInv(n, sys, reg, w0) && Behaved(sys, reg, w0)
    ensures Saved(n.s.db) == History(sys, w0, n.log) && n.s.db.tick == |n.log|
    ensures n.phase.Stored? ==> n.tick + 1 == |n.log|
    ensures Accounted(n, if n.phase.Stored? then n.tick else |n.log|)
  {
    hide Refines, History, PlainRun, Accounted;
    var w := History(sys, w0, n.log);
    if n.phase.Running? {
      assert Conducts(sys, reg, History(sys, w0, n.log), n.phase.input);
      RunKeepsSaved(Fresh(w), n.phase.calls[..n.phase.done]);
      SavedTick(n.s, PlainRun(Fresh(w), n.phase.calls[..n.phase.done]).0, reg);
    } else {
      SavedTick(n.s, Fresh(w), reg);
    }
  }

  lemma SavedTick(s: Sys, m: Model, reg: set<CompId>)
    requires Refines(s, m, reg)
    ensures Saved(s.db) == m.saved && s.db.tick == m.saved.tick
  {
    hide Inv, Ents, Gone, AllIn;
  }
}
