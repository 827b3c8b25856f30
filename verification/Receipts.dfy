/** Transaction receipts: the ring buffer of recent ticks (cardinal/receipt) and the polling endpoint over it
    (cardinal/server/handler/receipts.go). */
module Receipts {
  import opened Base

  type Hash = string

  datatype Receipt = Receipt(hash: Hash, result: Option<string>, errs: seq<string>)

  type Slot = map<Hash, Receipt>

  datatype Note = AnError(err: string) | AResult(result: string)

  /** AddError appends, SetResult replaces; both create the receipt if need be. */
  function Noted(slot: Slot, hash: Hash, note: Note): Slot {
    var rec := if hash in slot then slot[hash] else Receipt(hash, None, []);
    slot[hash := match note
                 case AnError(e) => rec.(hash := hash, errs := rec.errs + [e])
                 case AResult(r) => rec.(hash := hash, result := Some(r))]
  }

  datatype Ring = Ring(slots: seq<Slot>, cur: nat)

  datatype ReadError = NotProcessed | Discarded

  function NewRing(cur: nat, ticksToStore: nat): Ring {
    Ring(seq(ticksToStore + 1, _ => map[]), cur)
  }

  function NextTick(r: Ring): Ring
    requires r.slots != []
  {
    Ring(r.slots[(r.cur + 1) % |r.slots| := map[]], r.cur + 1)
  }

  function Record(r: Ring, hash: Hash, note: Note): Ring
    requires r.slots != []
  {
    var i := r.cur % |r.slots|;
    r.(slots := r.slots[i := Noted(r.slots[i], hash, note)])
  }

  /** GetReceiptsForTick. */
  function Read(r: Ring, tick: nat): Result<Slot, ReadError>
    requires r.slots != []
  {
    if r.cur <= tick then Err(NotProcessed)
    else if r.cur - tick >= |r.slots| then Err(Discarded)
    else Ok(r.slots[tick % |r.slots|])
  }

  // ---------------------------------------------------------------- the unbounded log

  /** Receipts of every tick ever, and the current tick. */
  datatype Log = Log(entries: map<nat, Slot>, cur: nat)

  function At(l: Log, tick: nat): Slot {
    if tick in l.entries then l.entries[tick] else map[]
  }

  function LogNext(l: Log): Log {
    Log(l.entries[l.cur + 1 := map[]], l.cur + 1)
  }

  function LogRecord(l: Log, hash: Hash, note: Note): Log {
    l.(entries := l.entries[l.cur := Noted(At(l, l.cur), hash, note)])
  }

  /** The ring holds the log's entry for every tick in its window. */
  ghost predicate Mirrors(r: Ring, l: Log) {
    && r.slots != [] && r.cur == l.cur
    && forall t :: 0 <= t <= r.cur && r.cur - t < |r.slots| ==> r.slots[t % |r.slots|] == At(l, t)
  }

  lemma ModDistinct(a: nat, b: nat, n: nat)
    requires 0 < n && a < b && b - a < n
    ensures a % n != b % n
  {
    var qa, qb := a / n, b / n;
    assert a == qa * n + a % n && b == qb * n + b % n;
    assert (qb - qa) * n == qb * n - qa * n;
    MulGap(qb - qa, n);
  }

  lemma MulGap(q: int, n: nat)
    ensures q >= 1 ==> q * n >= n
    ensures q <= 0 ==> q * n <= 0
  {
  }

  lemma NewMirrors(cur: nat, ticksToStore: nat)
    ensures Mirrors(NewRing(cur, ticksToStore), Log(map[], cur))
  {
  }

  lemma NextMirrors(r: Ring, l: Log)
    requires Mirrors(r, l)
    ensures Mirrors(NextTick(r), LogNext(l))
  {
    var r', n := NextTick(r), |r.slots|;
    forall t | 0 <= t <= r'.cur && r'.cur - t < n ensures r'.slots[t % n] == At(LogNext(l), t) {
      if t < r'.cur { ModDistinct(t, r'.cur, n); }
    }
  }

  lemma RecordMirrors(r: Ring, l: Log, hash: Hash, note: Note)
    requires Mirrors(r, l)
    ensures Mirrors(Record(r, hash, note), LogRecord(l, hash, note))
  {
    var r', n := Record(r, hash, note), |r.slots|;
    assert r.slots[r.cur % n] == At(l, r.cur);
    forall t | 0 <= t <= r.cur && r.cur - t < n ensures r'.slots[t % n] == At(LogRecord(l, hash, note), t) {
      if t < r.cur { ModDistinct(t, r.cur, n); }
    }
  }

  // ---------------------------------------------------------------- what the log holds

  /** What was recorded, transaction by transaction, while the history stood at tick `t`. */
  datatype Jotting = Jotting(hash: Hash, note: Note)

  function TickAfter(start: nat, evs: seq<RingEvent>): nat {
    if evs == [] then start else TickAfter(start, evs[..|evs| - 1]) + if evs[|evs| - 1].Ticked? then 1 else 0
  }

  function JottingsAt(start: nat, evs: seq<RingEvent>, t: nat): seq<Jotting> {
    if evs == [] then []
    else
      var init, last := evs[..|evs| - 1], evs[|evs| - 1];
      var rest := JottingsAt(start, init, t);
      if last.Recorded? && TickAfter(start, init) == t then rest + [Jotting(last.hash, last.note)] else rest
  }

  /** The errors recorded for a transaction, in order. */
  function ErrorsOf(js: seq<Jotting>, hash: Hash): seq<string> {
    if js == [] then []
    else
      var rest, last := ErrorsOf(js[..|js| - 1], hash), js[|js| - 1];
      if last.hash == hash && last.note.AnError? then rest + [last.note.err] else rest
  }

  /** The last result recorded for a transaction. */
  function ResultOf(js: seq<Jotting>, hash: Hash): Option<string> {
    if js == [] then None
    else
      var last := js[|js| - 1];
      if last.hash == hash && last.note.AResult? then Some(last.note.result) else ResultOf(js[..|js| - 1], hash)
  }

  function Mentions(js: seq<Jotting>, hash: Hash): bool {
    exists i :: 0 <= i < |js| && js[i].hash == hash
  }

  /** Over every run: at each tick a transaction has a receipt if and only if something was recorded for it in that
      tick; its errors are those recorded, in order, and its result is the last one recorded. */
  lemma {:induction false} LogHolds(start: nat, evs: seq<RingEvent>, t: nat, hash: Hash)
    ensures var l, js := RunLog(Log(map[], start), evs), JottingsAt(start, evs, t);
            && l.cur == TickAfter(start, evs)
            && (hash in At(l, t) <==> Mentions(js, hash))
            && (t > l.cur ==> js == [] && At(l, t) == map[])
            && (hash in At(l, t) ==> At(l, t)[hash] == Receipt(hash, ResultOf(js, hash), ErrorsOf(js, hash)))
            && (hash !in At(l, t) ==> ResultOf(js, hash) == None && ErrorsOf(js, hash) == [])
  {
    if evs != [] {
      var init, last := evs[..|evs| - 1], evs[|evs| - 1];
      LogHolds(start, init, t, hash);
      var l := RunLog(Log(map[], start), init);
      var js, js' := JottingsAt(start, init, t), JottingsAt(start, evs, t);
      if last.Ticked? {
        LogHolds(start, init, l.cur + 1, hash);
      } else if l.cur == t {
        assert js' == js + [Jotting(last.hash, last.note)];
        JottingSnoc(js, Jotting(last.hash, last.note), hash);
        hide JottingsAt, ErrorsOf, ResultOf, Mentions;
      }
    }
  }

  lemma JottingSnoc(js: seq<Jotting>, j: Jotting, hash: Hash)
    ensures var js' := js + [j];
            && (Mentions(js', hash) <==> Mentions(js, hash) || j.hash == hash)
            && ErrorsOf(js', hash) ==
               ErrorsOf(js, hash) + (if j.hash == hash && j.note.AnError? then [j.note.err] else [])
            && ResultOf(js', hash) ==
               if j.hash == hash && j.note.AResult? then Some(j.note.result) else ResultOf(js, hash)
  {
    var js' := js + [j];
    assert js'[..|js|] == js && js'[|js|] == j;
    if Mentions(js, hash) { var i :| 0 <= i < |js| && js[i].hash == hash; assert js'[i].hash == hash; }
  }

  // ---------------------------------------------------------------- a history that counts from zero

  datatype RingEvent = Recorded(hash: Hash, note: Note) | Ticked

  function RunRing(r: Ring, evs: seq<RingEvent>): (r': Ring)
    requires r.slots != []
    ensures |r'.slots| == |r.slots|
  {
    if evs == [] then r
    else
      var r1 := RunRing(r, evs[..|evs| - 1]);
      match evs[|evs| - 1]
      case Recorded(h, n) => Record(r1, h, n)
      case Ticked => NextTick(r1)
  }

  function RunLog(l: Log, evs: seq<RingEvent>): Log {
    if evs == [] then l
    else
      var l1 := RunLog(l, evs[..|evs| - 1]);
      match evs[|evs| - 1]
      case Recorded(h, n) => LogRecord(l1, h, n)
      case Ticked => LogNext(l1)
  }

  /** Slots that a history counting from zero has not come to yet are empty. */
  ghost predicate Unreached(r: Ring) {
    forall i :: r.cur < i < |r.slots| ==> r.slots[i] == map[]
  }

  lemma {:induction false} RecoveryRecords(ticksToStore: nat, evs: seq<RingEvent>)
    ensures var r, l := RunRing(NewRing(0, ticksToStore), evs), RunLog(Log(map[], 0), evs);
            Mirrors(r, l) && Unreached(r)
  {
    hide Record, NextTick, Mirrors, Unreached;
    if evs == [] {
      NewMirrors(0, ticksToStore);
      UnreachedNew(ticksToStore);
    } else {
      var init := evs[..|evs| - 1];
      RecoveryRecords(ticksToStore, init);
      var r, l := RunRing(NewRing(0, ticksToStore), init), RunLog(Log(map[], 0), init);
      UnreachedKept(r);
      match evs[|evs| - 1]
      case Recorded(h, n) => RecordMirrors(r, l, h, n); UnreachedRecord(r, h, n);
      case Ticked => NextMirrors(r, l);
    }
  }

  lemma UnreachedNew(ticksToStore: nat)
    ensures Unreached(NewRing(0, ticksToStore))
  {
  }

  lemma UnreachedKept(r: Ring)
    requires r.slots != [] && Unreached(r)
    ensures Unreached(NextTick(r))
  {
  }

  lemma UnreachedRecord(r: Ring, hash: Hash, note: Note)
    requires r.slots != [] && Unreached(r)
    ensures Unreached(Record(r, hash, note))
  {
    if r.cur < |r.slots| { SmallMod(r.cur, |r.slots|); }
  }

  lemma SmallMod(a: nat, n: nat)
    requires a < n
    ensures a % n == a
  {
  }

  /** The log of a history that started at 0 when the world was at `d`, in the world's ticks. */
  function Shifted(l: Log, d: nat): (s: Log)
    ensures s.cur == l.cur + d
    ensures forall t: nat :: At(s, t) == if t >= d then At(l, t - d) else map[]
  {
    Log(map t: nat | t in Later(l.entries.Keys, d) :: l.entries[t - d], l.cur + d)
  }

  function Later(ticks: set<nat>, d: nat): set<nat> {
    set t | t in ticks :: t + d
  }

  ghost predicate InWindow(t: nat, cur: nat, n: nat) {
    t <= cur && cur - t < n
  }

  /** In the window of the shifted counter, every slot equals the one `d` ticks before, or is empty if there is none. */
  ghost predicate SlotsAgree(r: Ring, d: nat)
    requires r.slots != []
  {
    forall t: nat {:trigger InWindow(t, r.cur + d, |r.slots|)} :: InWindow(t, r.cur + d, |r.slots|) ==> Agrees(r, d, t)
  }

  ghost predicate Agrees(r: Ring, d: nat, t: nat)
    requires r.slots != []
  {
    r.slots[t % |r.slots|] == if t >= d then r.slots[(t - d) % |r.slots|] else map[]
  }

  /** StartGame: the history counted the m recovered ticks from 0 while the world counted them from `d`, and
      SetTick(d + m) moves only the counter. Every tick of the window then reads its own receipts if and only if the
      slots agree under the shift. */
  lemma SetTickExact(r: Ring, l: Log, d: nat)
    requires Mirrors(r, l)
    ensures Mirrors(r.(cur := r.cur + d), Shifted(l, d)) <==> SlotsAgree(r, d)
  {
    hide Mirrors, Agrees, Shifted, Own, InWindow, At;
    MirrorsBasics(r, l);
    var r', s := r.(cur := r.cur + d), Shifted(l, d);
    forall t: nat | InWindow(t, r'.cur, |r.slots|) ensures Agrees(r, d, t) <==> Own(r', s, t) {
      ShiftedSlot(r, l, d, t);
    }
    MirrorsOwn(r', s);
  }

  lemma MirrorsBasics(r: Ring, l: Log)
    requires Mirrors(r, l)
    ensures r.slots != [] && r.cur == l.cur
  {
  }

  /** A tick's slot holds what the log has for it. */
  ghost predicate Own(r: Ring, l: Log, t: nat)
    requires r.slots != []
  {
    r.slots[t % |r.slots|] == At(l, t)
  }

  lemma MirrorsOwn(r: Ring, l: Log)
    requires r.slots != [] && r.cur == l.cur
    ensures Mirrors(r, l) <==>
            forall t: nat {:trigger InWindow(t, r.cur, |r.slots|)} :: InWindow(t, r.cur, |r.slots|) ==> Own(r, l, t)
  {
    if forall t: nat {:trigger InWindow(t, r.cur, |r.slots|)} :: InWindow(t, r.cur, |r.slots|) ==> Own(r, l, t) {
      forall t | 0 <= t <= r.cur && r.cur - t < |r.slots| ensures r.slots[t % |r.slots|] == At(l, t) {
        assert InWindow(t, r.cur, |r.slots|) && Own(r, l, t);
      }
    }
  }

  lemma ShiftedSlot(r: Ring, l: Log, d: nat, t: nat)
    requires Mirrors(r, l) && InWindow(t, r.cur + d, |r.slots|)
    ensures Agrees(r, d, t) <==> Own(r.(cur := r.cur + d), Shifted(l, d), t)
  {
    if t >= d { assert r.slots[(t - d) % |r.slots|] == At(l, t - d); }
  }

  lemma ModShift(t: nat, d: nat, n: nat)
    requires 0 < n && d % n == 0 && t >= d
    ensures (t - d) % n == t % n
  {
    var q, p := d / n, (t - d) / n;
    assert d == q * n;
    assert t - d == p * n + (t - d) % n;
    assert (q + p) * n == q * n + p * n;
    ModOf(q + p, (t - d) % n, n);
  }

  /** They do agree when the ring's size divides the tick the world started at. */
  lemma DivisibleAgrees(r: Ring, d: nat)
    requires r.slots != [] && Unreached(r) && d % |r.slots| == 0
    ensures SlotsAgree(r, d)
  {
    forall t: nat | InWindow(t, r.cur + d, |r.slots|) ensures Agrees(r, d, t) {
      if t >= d { ModShift(t, d, |r.slots|); } else { BeforeStart(r, d, t); }
    }
  }

  /** A tick of the window from before the start has the slot of a tick that the history has not come to. */
  lemma BeforeStart(r: Ring, d: nat, t: nat)
    requires r.slots != [] && Unreached(r) && d % |r.slots| == 0 && t < d && r.cur + d - t < |r.slots|
    ensures r.slots[t % |r.slots|] == map[]
  {
    var n := |r.slots|;
    assert d == (d / n) * n;
    MulGap(d / n, n);
    ModShift(d, n, n);
    ModShift(t, d - n, n);
    SmallMod(t - (d - n), n);
  }

  /** And only then, if some tick of the window recorded what no other slot holds; receipts are keyed by transaction
      hash, so any recorded tick is such a one. */
  lemma AgreeOnlyDivisible(r: Ring, d: nat, j: nat)
    requires r.slots != [] && SlotsAgree(r, d) && j <= r.cur && r.cur - j < |r.slots|
    requires forall i :: 0 <= i < |r.slots| && i != j % |r.slots| ==> r.slots[i] != r.slots[j % |r.slots|]
    ensures d % |r.slots| == 0
  {
    assert InWindow(j + d, r.cur + d, |r.slots|);
    assert Agrees(r, d, j + d);
    SameMod(j, d, |r.slots|);
  }

  lemma SameMod(j: nat, d: nat, n: nat)
    requires 0 < n && (j + d) % n == j % n
    ensures d % n == 0
  {
    var p, q := (j + d) / n, j / n;
    assert j + d == p * n + j % n && j == q * n + j % n;
    assert (p - q) * n == p * n - q * n;
    MulGap(p - q, n);
    MulGap(q - p, n);
    assert (q - p) * n == q * n - p * n;
    MultipleMod(p - q, n, d);
  }

  lemma MultipleMod(k: int, n: nat, d: nat)
    requires n > 0 && k >= 0 && d == k * n
    ensures d % n == 0
  {
    ModOf(k, 0, n);
  }

  /** Over every recovery that recorded something unlike the rest: receipts are read back under their own ticks if and
      only if the ring's size divides the tick the world started at. */
  lemma RecoveredReceiptsExact(ticksToStore: nat, evs: seq<RingEvent>, d: nat, j: nat)
    requires var r := RunRing(NewRing(0, ticksToStore), evs);
             && j <= r.cur && r.cur - j < |r.slots|
             && forall i :: 0 <= i < |r.slots| && i != j % |r.slots| ==> r.slots[i] != r.slots[j % |r.slots|]
    ensures var r, l := RunRing(NewRing(0, ticksToStore), evs), RunLog(Log(map[], 0), evs);
            Mirrors(r.(cur := r.cur + d), Shifted(l, d)) <==> d % (ticksToStore + 1) == 0
  {
    hide RunRing, RunLog, SlotsAgree, Mirrors, Shifted;
    var r, l := RunRing(NewRing(0, ticksToStore), evs), RunLog(Log(map[], 0), evs);
    RecoveryRecords(ticksToStore, evs);
    SetTickExact(r, l, d);
    if d % |r.slots| == 0 { DivisibleAgrees(r, d); }
    if SlotsAgree(r, d) { AgreeOnlyDivisible(r, d, j); }
  }

  lemma {:induction false} ModOf(q: int, i: nat, n: nat)
    requires q >= 0 && i < n
    ensures (q * n + i) % n == i
  {
    var x := q * n + i;
    var p := x / n;
    assert x == p * n + x % n;
    assert (p - q) * n == p * n - q * n;
    MulGap(p - q, n);
    MulGap(q - p, n);
    assert (q - p) * n == q * n - p * n;
  }

  /** It does happen: with a ring of three, a world that restarts at tick 1 and recovers ticks 1 and 2 returns for tick
      1 what tick 2 recorded. */
  lemma SetTickMisfiles(first: Hash, second: Hash, note: Note)
    requires first != second
    ensures var r := RunRing(NewRing(0, 2), [Recorded(first, note), Ticked, Recorded(second, note), Ticked]);
            && r.cur == 2 && Read(r.(cur := 3), 1) == Ok(Noted(map[], second, note))
            && Noted(map[], second, note) != Noted(map[], first, note)
  {
    var a, b := Recorded(first, note), Recorded(second, note);
    var evs := [a, Ticked, b, Ticked];
    assert evs[..3] == [a, Ticked, b] && [a, Ticked, b][..2] == [a, Ticked];
    assert [a, Ticked][..1] == [a] && [a][..0] == [];
    var r0 := NewRing(0, 2);
    assert RunRing(r0, []) == r0;
    var r1 := RunRing(r0, [a]);
    assert r1 == Record(r0, first, note);
    var r2 := RunRing(r0, [a, Ticked]);
    assert r2.cur == 1 && r2.slots[1] == map[];
    var r3 := RunRing(r0, [a, Ticked, b]);
    assert r3.slots[1] == Noted(map[], second, note);
    assert second in Noted(map[], second, note) && second !in Noted(map[], first, note);
  }

  // ---------------------------------------------------------------- the object

  class History {
    const history: array<Slot>
    var currTick: nat
    ghost var log: Log

    ghost function Snap(): Ring
      reads this, history
    {
      Ring(history[..], currTick)
    }

    ghost predicate Valid()
      reads this, history
    {
      Mirrors(Snap(), log)
    }

    constructor (currentTick: nat, ticksToStore: nat)
      ensures Valid() && fresh(history)
      ensures Snap() == NewRing(currentTick, ticksToStore) && log == Log(map[], currentTick)
    {
      history := new Slot[ticksToStore + 1](_ => map[]);
      currTick := currentTick;
      log := Log(map[], currentTick);
      new;
      NewMirrors(currentTick, ticksToStore);
      assert history[..] == NewRing(currentTick, ticksToStore).slots;
    }

    method Advance()
      requires Valid()
      modifies this, history
      ensures Valid() && Snap() == NextTick(old(Snap())) && log == LogNext(old(log))
    {
      NextMirrors(Snap(), log);
      ghost var r := Snap();
      currTick := currTick + 1;
      history[currTick % history.Length] := map[];
      log := LogNext(log);
      assert history[..] == NextTick(r).slots;
    }

    method Add(hash: Hash, note: Note)
      requires Valid()
      modifies this`log, history
      ensures Valid() && Snap() == Record(old(Snap()), hash, note) && log == LogRecord(old(log), hash, note)
      ensures var was, now := old(At(log, log.cur)), At(log, log.cur);
              && now.Keys == was.Keys + {hash} && (forall h :: h in was && h != hash ==> now[h] == was[h])
              && now[hash].hash == hash
              && now[hash].errs == (if hash in was then was[hash].errs else [])
                                   + (if note.AnError? then [note.err] else [])
              && now[hash].result == if note.AResult? then Some(note.result)
                                     else if hash in was then was[hash].result else None
      ensures forall t: nat :: t != log.cur ==> At(log, t) == old(At(log, t))
    {
      RecordMirrors(Snap(), log, hash, note);
      ghost var r := Snap();
      var i := currTick % history.Length;
      history[i] := Noted(history[i], hash, note);
      log := LogRecord(log, hash, note);
      assert history[..] == Record(r, hash, note).slots;
    }

    /** SetTick moves the counter alone. The history stays that of its log, in the new ticks, if and only if the slots
        agree under the shift. */
    method SetTick(tick: nat)
      requires Valid()
      modifies this
      ensures Snap() == old(Snap()).(cur := tick)
      ensures tick >= old(currTick) ==>
                && log == Shifted(old(log), tick - old(currTick))
                && (Valid() <==> SlotsAgree(old(Snap()), tick - old(currTick)))
    {
      hide Mirrors, SlotsAgree, Shifted;
      if tick >= currTick {
        SetTickExact(Snap(), log, tick - currTick);
        log := Shifted(log, tick - currTick);
      }
      currTick := tick;
    }

    /** GetReceiptsForTick: the log's entry for every completed tick in the window, an error for every other tick. */
    method GetReceiptsForTick(tick: nat) returns (res: Result<Slot, ReadError>)
      requires Valid()
      ensures res == Read(Snap(), tick)
      ensures res == (if log.cur <= tick then Err(NotProcessed)
                      else if log.cur - tick >= history.Length then Err(Discarded) else Ok(At(log, tick)))
    {
      if currTick <= tick {
        return Err(NotProcessed);
      }
      if currTick - tick >= history.Length {
        return Err(Discarded);
      }
      assert Snap().slots[tick % history.Length] == At(log, tick);
      return Ok(history[tick % history.Length]);
    }
  }

  // ---------------------------------------------------------------- polling

  datatype Entry = Entry(tick: nat, slot: Slot)

  datatype Reply = Reply(start: nat, end: nat, entries: seq<Entry>)

  /** The non-empty ticks of a stretch of the log. */
  function Entries(l: Log, lo: nat, hi: nat): seq<Entry>
    decreases hi
  {
    if lo >= hi then []
    else Entries(l, lo, hi - 1) + if At(l, hi - 1) != map[] then [Entry(hi - 1, At(l, hi - 1))] else []
  }

  function StartOf(size: nat, end: nat, requested: nat): nat {
    var start := if size > end then 0 else end - size;
    if requested > end then end else if requested > start then requested else start
  }

  /** The range of a poll: nothing for a request from the future, and otherwise from the requested tick, but no further
      back than the size of the history. */
  lemma StartOfExact(size: nat, end: nat, requested: nat)
    ensures requested > end ==> StartOf(size, end, requested) == end
    ensures requested <= end && requested + size >= end ==> StartOf(size, end, requested) == requested
    ensures requested + size < end ==> StartOf(size, end, requested) == end - size
  {
  }

  /** GetReceipts: narrow the range, then collect tick by tick, skipping what cannot be read. */
  method GetReceipts(h: History, worldTick: nat, requested: nat) returns (reply: Reply)
    requires h.Valid()
    ensures reply.end == worldTick && reply.start == StartOf(h.history.Length, worldTick, requested)
    ensures requested > worldTick ==> reply.start == worldTick
    ensures requested <= worldTick <= requested + h.history.Length ==> reply.start == requested
    ensures requested + h.history.Length < worldTick ==> reply.start == worldTick - h.history.Length
    ensures reply.entries == Collected(h.Snap(), reply.start, reply.end)
  {
    var end, size := worldTick, h.history.Length;
    var start := if size > end then 0 else end - size;
    if requested > end {
      start := end;
    } else if requested > start {
      start := requested;
    }
    var entries := [];
    var t := start;
    while t < end
      invariant start <= t <= end && entries == Collected(h.Snap(), start, t)
    {
      var res := h.GetReceiptsForTick(t);
      if res.Ok? && res.value != map[] {
        entries := entries + [Entry(t, res.value)];
      }
      t := t + 1;
    }
    reply := Reply(start, end, entries);
  }

  function Collected(r: Ring, lo: nat, hi: nat): seq<Entry>
    requires r.slots != []
    decreases hi
  {
    if lo >= hi then []
    else
      var rest, res := Collected(r, lo, hi - 1), Read(r, hi - 1);
      if res.Ok? && res.value != map[] then rest + [Entry(hi - 1, res.value)] else rest
  }

  /** Inside the window, what is collected is the log. */
  lemma {:induction false} CollectedIsLog(r: Ring, l: Log, lo: nat, hi: nat)
    requires Mirrors(r, l) && hi <= r.cur && r.cur - lo < |r.slots|
    ensures Collected(r, lo, hi) == Entries(l, lo, hi)
    decreases hi
  {
    if lo < hi {
      CollectedIsLog(r, l, lo, hi - 1);
      assert r.slots[(hi - 1) % |r.slots|] == At(l, hi - 1);
    }
  }

  /** A poll at a quiet moment, from however long ago, returns every completed tick that can still be read. */
  lemma PollReturnsReadable(r: Ring, l: Log, from: nat)
    requires Mirrors(r, l) && from <= r.cur
    ensures var oldest := if r.cur < |r.slots| then 0 else r.cur + 1 - |r.slots|;
            Collected(r, StartOf(|r.slots|, r.cur, from), r.cur)
            == Entries(l, if from > oldest then from else oldest, r.cur)
  {
    var oldest := if r.cur < |r.slots| then 0 else r.cur + 1 - |r.slots|;
    var start := StartOf(|r.slots|, r.cur, from);
    if start >= oldest {
      CollectedIsLog(r, l, start, r.cur);
    } else {
      CollectedFrom(r, start, r.cur);
      CollectedIsLog(r, l, oldest, r.cur);
    }
  }

  /** A discarded tick adds nothing. */
  lemma {:induction false} CollectedFrom(r: Ring, lo: nat, hi: nat)
    requires r.slots != [] && lo < hi <= r.cur && r.cur - lo >= |r.slots|
    ensures Collected(r, lo, hi) == Collected(r, lo + 1, hi)
    decreases hi
  {
    if lo + 1 < hi {
      CollectedFrom(r, lo, hi - 1);
    } else {
      assert Collected(r, lo, lo) == [] && Collected(r, lo + 1, hi) == [];
    }
  }

  /** What a stretch of the log comes to: its non-empty ticks, in order. */
  lemma {:induction false} EntriesExact(l: Log, lo: nat, hi: nat)
    ensures forall i, j :: 0 <= i < j < |Entries(l, lo, hi)| ==> Entries(l, lo, hi)[i].tick < Entries(l, lo, hi)[j].tick
    ensures forall x :: x in Entries(l, lo, hi) <==> lo <= x.tick < hi && x.slot == At(l, x.tick) && x.slot != map[]
    decreases hi
  {
    if lo < hi {
      EntriesExact(l, lo, hi - 1);
      var rest := Entries(l, lo, hi - 1);
      assert forall i :: 0 <= i < |rest| ==> rest[i] in rest;
      assert forall x: Entry :: x.tick == hi - 1 && x.slot == At(l, x.tick) <==> x == Entry(hi - 1, At(l, hi - 1));
    }
  }

  /** A poll at a quiet moment, less than a window after the last, returns every completed tick since. */
  lemma PollReturnsAll(r: Ring, l: Log, from: nat)
    requires Mirrors(r, l) && from <= r.cur && r.cur - from < |r.slots|
    ensures StartOf(|r.slots|, r.cur, from) == from
    ensures Collected(r, from, r.cur) == Entries(l, from, r.cur)
  {
    CollectedIsLog(r, l, from, r.cur);
  }

  /** A poll between the two counter increments of doTick, when the world is already one tick ahead of the history,
      reports the finished tick as covered but leaves its receipts out. */
  lemma PollWhileAdvancing(r: Ring, l: Log, from: nat)
    requires Mirrors(r, l) && from <= r.cur && r.cur - from < |r.slots|
    ensures StartOf(|r.slots|, r.cur + 1, from) == from
    ensures Collected(r, from, r.cur + 1) == Entries(l, from, r.cur)
    ensures Collected(r, from, r.cur + 1) == Entries(l, from, r.cur + 1) <==> At(l, r.cur) == map[]
  {
    CollectedIsLog(r, l, from, r.cur);
  }

  lemma {:induction false} EntriesJoin(l: Log, a: nat, b: nat, c: nat)
    requires a <= b <= c
    ensures Entries(l, a, b) + Entries(l, b, c) == Entries(l, a, c)
    decreases c
  {
    if b < c { EntriesJoin(l, a, b, c - 1); }
  }

  lemma {:induction false} EntriesStable(l: Log, l': Log, lo: nat, hi: nat)
    requires forall t :: 0 <= t < hi ==> At(l', t) == At(l, t)
    ensures Entries(l', lo, hi) == Entries(l, lo, hi)
    decreases hi
  {
    if lo < hi { EntriesStable(l, l', lo, hi - 1); }
  }

  // ---------------------------------------------------------------- a client, and polls at any moment

  /** A poll in progress: the ticks from `at` to `end` are still to be read. */
  datatype Poll = Poll(at: nat, end: nat)

  /** The world's tick, the ring and its log, and one client: it asks from `next` on, and has `got` what it was sent
      since it first asked for tick `first`. */
  datatype Client = Client(
    world: nat, ring: Ring, log: Log,
    first: nat, next: nat, poll: Option<Poll>, got: seq<Entry>)

  /** The tick loop records receipts and then advances the world's tick and the history, one after the other; the
      handler reads the world's tick and then one tick of the history at a time. */
  datatype Event = Noting(hash: Hash, note: Note) | WorldTick | RingTick | PollStart | PollRead | PollEnd

  ghost predicate Enabled(c: Client, ev: Event) {
    c.ring.slots != [] &&
    match ev
    case Noting(_, _) => c.world == c.ring.cur
    case WorldTick => c.world == c.ring.cur
    case RingTick => c.world == c.ring.cur + 1
    case PollStart => c.poll.None?
    case PollRead => c.poll.Some? && c.poll.value.at < c.poll.value.end
    case PollEnd => c.poll.Some? && c.poll.value.at == c.poll.value.end
  }

  ghost function StepClient(c: Client, ev: Event): Client
    requires Enabled(c, ev)
  {
    match ev
    case Noting(h, n) => c.(ring := Record(c.ring, h, n), log := LogRecord(c.log, h, n))
    case WorldTick => c.(world := c.world + 1)
    case RingTick => c.(ring := NextTick(c.ring), log := LogNext(c.log))
    case PollStart => c.(poll := Some(Poll(StartOf(|c.ring.slots|, c.world, c.next), c.world)))
    case PollRead =>
      var at, res := c.poll.value.at, Read(c.ring, c.poll.value.at);
      c.(poll := Some(c.poll.value.(at := at + 1)),
         got := if res.Ok? && res.value != map[] then c.got + [Entry(at, res.value)] else c.got)
    case PollEnd => c.(poll := None, next := c.poll.value.end)
  }

  /** How far the client believes it has seen everything. */
  ghost function Reached(c: Client): nat {
    if c.poll.Some? then c.poll.value.at else c.next
  }

  /** How many ticks with receipts a step passes over without reporting them. */
  ghost function Misses(c: Client, ev: Event): nat
    requires Enabled(c, ev)
  {
    match ev
    case PollStart => |Entries(c.log, c.next, StartOf(|c.ring.slots|, c.world, c.next))|
    case PollRead =>
      if Read(c.ring, c.poll.value.at).Err? && At(c.log, c.poll.value.at) != map[] then 1 else 0
    case _ => 0
  }

  ghost predicate ClientOk(c: Client) {
    && Mirrors(c.ring, c.log) && c.ring.cur <= c.world <= c.ring.cur + 1
    && c.first <= c.next <= c.world
    && (c.poll.Some? ==> c.next <= c.poll.value.at <= c.poll.value.end <= c.world)
  }

  /** What was received falls short of the log by exactly what was missed. */
  ghost predicate Lacks(c: Client, missed: nat) {
    && |c.got| + missed == |Entries(c.log, c.first, Reached(c))|
    && (missed == 0 ==> c.got == Entries(c.log, c.first, Reached(c)))
  }

  /** A read misses its tick if and only if the tick has receipts and is either the one that the world has finished and
      the history has not, because the read fell between the two increments, or a whole window old. */
  lemma MissesExactly(c: Client)
    requires ClientOk(c) && Enabled(c, PollRead)
    ensures var at := c.poll.value.at;
            Misses(c, PollRead) > 0 <==>
            At(c.log, at) != map[] && (at == c.ring.cur || c.ring.cur - at >= |c.ring.slots|)
  {
  }

  lemma StepKeepsOk(c: Client, ev: Event)
    requires ClientOk(c) && Enabled(c, ev)
    ensures ClientOk(StepClient(c, ev))
  {
    hide Mirrors;
    match ev
    case Noting(h, n) => RecordMirrors(c.ring, c.log, h, n);
    case RingTick => NextMirrors(c.ring, c.log);
    case WorldTick =>
    case PollStart =>
    case PollRead =>
    case PollEnd =>
  }

  lemma StepLacks(c: Client, ev: Event, missed: nat)
    requires ClientOk(c) && Enabled(c, ev) && Lacks(c, missed)
    ensures Lacks(StepClient(c, ev), missed + Misses(c, ev))
  {
    match ev
    case Noting(h, n) => hide Entries; EntriesStable(c.log, LogRecord(c.log, h, n), c.first, Reached(c));
    case RingTick => hide Entries; EntriesStable(c.log, LogNext(c.log), c.first, Reached(c));
    case WorldTick =>
    case PollStart =>
      hide Entries;
      EntriesJoin(c.log, c.first, c.next, StartOf(|c.ring.slots|, c.world, c.next));
    case PollRead => ReadLacks(c, missed);
    case PollEnd =>
  }

  lemma ReadLacks(c: Client, missed: nat)
    requires ClientOk(c) && Enabled(c, PollRead) && Lacks(c, missed)
    ensures Lacks(StepClient(c, PollRead), missed + Misses(c, PollRead))
  {
    var at := c.poll.value.at;
    if Read(c.ring, at).Ok? { assert c.ring.slots[at % |c.ring.slots|] == At(c.log, at); }
    assert Entries(c.log, c.first, at + 1) ==
           Entries(c.log, c.first, at) + if At(c.log, at) != map[] then [Entry(at, At(c.log, at))] else [];
    hide Entries, Mirrors;
  }

  ghost predicate ClientRun(cs: seq<Client>, evs: seq<Event>) {
    && |cs| == |evs| + 1
    && forall i :: 0 <= i < |evs| ==> Enabled(cs[i], evs[i]) && cs[i + 1] == StepClient(cs[i], evs[i])
  }

  /** A client that has just come, to a world between ticks. */
  ghost predicate NewClient(c: Client) {
    ClientOk(c) && c.next == c.first && c.poll.None? && c.got == []
  }

  lemma FirstClient(tick: nat, ticksToStore: nat, first: nat)
    requires first <= tick
    ensures NewClient(Client(tick, NewRing(tick, ticksToStore), Log(map[], tick), first, first, None, []))
  {
    NewMirrors(tick, ticksToStore);
  }

  lemma {:induction false} RunLacks(cs: seq<Client>, evs: seq<Event>, n: nat) returns (missed: nat)
    requires ClientRun(cs, evs) && NewClient(cs[0]) && n <= |evs|
    ensures ClientOk(cs[n]) && Lacks(cs[n], missed)
    ensures missed == 0 <==> forall i :: 0 <= i < n ==> Misses(cs[i], evs[i]) == 0
  {
    if n == 0 {
      missed := 0;
      assert Entries(cs[0].log, cs[0].first, cs[0].first) == [];
    } else {
      hide Misses, StepClient, Enabled, ClientOk, Lacks;
      var m := RunLacks(cs, evs, n - 1);
      StepKeepsOk(cs[n - 1], evs[n - 1]);
      StepLacks(cs[n - 1], evs[n - 1], m);
      assert cs[n] == StepClient(cs[n - 1], evs[n - 1]);
      missed := m + Misses(cs[n - 1], evs[n - 1]);
    }
  }

  /** Over every run, with polls at any moment and reads interleaved with the tick loop: a client that feeds each end
      tick back as the next start has seen the receipts of every tick up to where it has got, each once and in order, if
      and only if no step so far passed over a tick with receipts. */
  lemma PollingExact(cs: seq<Client>, evs: seq<Event>)
    requires ClientRun(cs, evs) && NewClient(cs[0])
    ensures var c := cs[|evs|];
            c.got == Entries(c.log, c.first, Reached(c)) <==>
            forall i :: 0 <= i < |evs| ==> Misses(cs[i], evs[i]) == 0
  {
    hide Misses, StepClient, Enabled, ClientOk, Entries;
    var missed := RunLacks(cs, evs, |evs|);
  }

  /** It does happen: a poll that reads between the two increments of the first tick with receipts moves the client past
      it without them. */
  lemma GapPollLoses(hash: Hash, note: Note, ticksToStore: nat) returns (cs: seq<Client>)
    ensures ClientRun(cs, [Noting(hash, note), WorldTick, PollStart, PollRead, PollEnd]) && NewClient(cs[0])
    ensures cs[5].next == 1 && cs[5].got == [] && Entries(cs[5].log, 0, 1) != []
  {
    FirstClient(0, ticksToStore, 0);
    var c0 := Client(0, NewRing(0, ticksToStore), Log(map[], 0), 0, 0, None, []);
    var c1 := StepClient(c0, Noting(hash, note));
    var c2 := StepClient(c1, WorldTick);
    var c3 := StepClient(c2, PollStart);
    var c4 := StepClient(c3, PollRead);
    var c5 := StepClient(c4, PollEnd);
    cs := [c0, c1, c2, c3, c4, c5];
    assert hash in At(c5.log, 0);
    assert Entries(c5.log, 0, 1) == Entries(c5.log, 0, 0) + [Entry(0, At(c5.log, 0))];
  }
}
