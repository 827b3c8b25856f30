/** Scheduled tasks (cardinal/plugin_task.go): a pass ranges over the very slice its own removals swap elements in. */
module Tasks {
  import opened Base
  import opened Storage
  import opened Buffer

  /** taskMetadata; the constructors set exactly one of the two. */
  datatype Meta = Meta(atTick: Option<nat>, atTime: Option<nat>)

  ghost predicate MetaOk(m: Meta) {
    m.atTick.Some? || m.atTime.Some?
  }

  predicate IsTriggered(m: Meta, tick: nat, timestamp: nat)
    requires MetaOk(m)
  {
    if m.atTick.Some? then tick >= m.atTick.value else timestamp >= m.atTime.value
  }

  ghost predicate AllMeta(ids: seq<EntityId>, meta: map<EntityId, Meta>) {
    forall i :: 0 <= i < |ids| ==> ids[i] in meta && MetaOk(meta[ids[i]])
  }

  /** The tasks of a list whose time has come, in list order. */
  function Due(ids: seq<EntityId>, meta: map<EntityId, Meta>, tick: nat, timestamp: nat): (r: seq<EntityId>)
    requires AllMeta(ids, meta)
    ensures forall x :: x in r <==>
              x in ids
              && if meta[x].atTick.Some? then tick >= meta[x].atTick.value else timestamp >= meta[x].atTime.value
  {
    if ids == [] then []
    else
      var rest, last := Due(ids[..|ids| - 1], meta, tick, timestamp), ids[|ids| - 1];
      assert forall x :: x in ids <==> x in ids[..|ids| - 1] || x == last;
      if IsTriggered(meta[last], tick, timestamp) then rest + [last] else rest
  }

  /** An archetype's active list: a slice, that is, a backing array and a length. */
  class ActiveList {
    const ids: array<EntityId>
    var len: nat

    ghost predicate Valid()
      reads this, ids
    {
      len <= ids.Length && NoDup(ids[..len])
    }

    constructor (ids: array<EntityId>)
      requires NoDup(ids[..])
      ensures this.ids == ids && len == ids.Length && Valid()
    {
      this.ids, len := ids, ids.Length;
      new;
      assert ids[..len] == ids[..];
    }

    /** activeEntities.swapRemove, in place: only the freed position is written, and what lies beyond the new length
        stays as it was. */
    method SwapRemoveInPlace(id: EntityId) returns (at: Option<nat>)
      requires Valid()
      modifies ids, this`len
      ensures Valid() && (at.Some? <==> id in old(ids[..len]))
      ensures at.None? ==> len == old(len) && ids[..] == old(ids[..])
      ensures at.Some? ==>
                && at.value < old(len) && old(ids[at.value]) == id && len == old(len) - 1
                && ids[..len] == SwapRemove(old(ids[..len]), id)
                && forall p :: 0 <= p < ids.Length && p != at.value ==> ids[p] == old(ids[p])
    {
      ghost var before := ids[..len];
      var i := 0;
      while i < len && ids[i] != id
        invariant 0 <= i <= len && forall p :: 0 <= p < i ==> ids[p] != id
      {
        i := i + 1;
      }
      if i == len {
        return None;
      }
      assert before[i] == id;
      assert IndexOf(before, id) == i by { assert before[IndexOf(before, id)] == id; }
      SwapRemoveExact(before, id);
      var last := len - 1;
      if i < last {
        ids[i] := ids[last];
      }
      len := last;
      assert ids[..len] == SwapRemove(before, id);
      return Some(i);
    }
  }

  /** taskSystem on the entities of one archetype, with handlers that succeed and leave the archetype alone. Although
      removals shuffle the ranged slice, every task in it is visited once, in the original order; exactly the due ones
      are handled, and exactly the others remain. */
  method TaskPass(list: ActiveList, meta: map<EntityId, Meta>, tick: nat, timestamp: nat)
      returns (visited: seq<EntityId>, handled: seq<EntityId>)
    requires list.Valid() && AllMeta(list.ids[..list.len], meta)
    modifies list.ids, list`len
    ensures visited == old(list.ids[..list.len])
    ensures handled == Due(visited, meta, tick, timestamp) && NoDup(handled)
    ensures list.Valid()
    ensures forall x :: x in list.ids[..list.len] <==> x in visited && !IsTriggered(meta[x], tick, timestamp)
    ensures forall x :: x in list.ids[..list.len] <==> x in visited && x !in handled
    ensures forall x :: x in handled <==>
              x in visited
              && if meta[x].atTick.Some? then tick >= meta[x].atTick.value else timestamp >= meta[x].atTime.value
  {
    hide PassInv, SwapRemove, Due, NoDup;
    ghost var all := list.ids[..list.len];
    var n := list.len;
    visited, handled := [], [];
    PassStart(all, list.ids[..], meta, tick, timestamp);
    for i := 0 to n
      invariant list.Valid() && visited == all[..i]
      invariant PassInv(all, list.ids[..], list.len, i, handled, meta, tick, timestamp)
    {
      var id := list.ids[i];
      PassReads(all, list.ids[..], list.len, i, handled, meta, tick, timestamp);
      visited := visited + [id];
      ghost var arr, len := list.ids[..], list.len;
      if IsTriggered(meta[id], tick, timestamp) {
        assert arr[..len] == list.ids[..len];
        var at := list.SwapRemoveInPlace(id);
        assert list.ids[..][..list.len] == list.ids[..list.len];
        PassRemoves(all, arr, len, i, handled, meta, tick, timestamp, list.ids[..], at.value);
        handled := handled + [id];
      } else {
        PassSkips(all, arr, len, i, handled, meta, tick, timestamp);
      }
    }
    PassEnds(all, list.ids[..], list.len, handled, meta, tick, timestamp);
    assert list.ids[..][..list.len] == list.ids[..list.len];
  }

  // ---------------------------------------------------------------- several archetypes

  /** The entities of several archetypes, one archetype after the other. */
  function Joined(parts: seq<seq<EntityId>>): seq<EntityId> {
    if parts == [] then [] else Joined(parts[..|parts| - 1]) + parts[|parts| - 1]
  }

  /** No entity is in two archetypes, or twice in one. */
  ghost predicate Disjoint(parts: seq<seq<EntityId>>) {
    && (forall i :: 0 <= i < |parts| ==> NoDup(parts[i]))
    && (forall i, j, e :: 0 <= i < j < |parts| && e in parts[i] ==> e !in parts[j])
  }

  ghost predicate Tasks(parts: seq<seq<EntityId>>, meta: map<EntityId, Meta>) {
    Disjoint(parts) && forall i :: 0 <= i < |parts| ==> AllMeta(parts[i], meta)
  }

  /** Lists of different archetypes share nothing. */
  ghost predicate Apart(lists: seq<ActiveList>) {
    forall i, j :: 0 <= i < j < |lists| ==> lists[i] != lists[j] && lists[i].ids != lists[j].ids
  }

  ghost predicate Lists(l: ActiveList, part: seq<EntityId>)
    reads l, l.ids
  {
    l.Valid() && l.ids[..l.len] == part
  }

  ghost predicate Holds(l: ActiveList, x: EntityId)
    reads l, l.ids
  {
    l.len <= l.ids.Length && x in l.ids[..l.len]
  }

  ghost predicate Passed(l: ActiveList, part: seq<EntityId>, meta: map<EntityId, Meta>, tick: nat, timestamp: nat)
    requires AllMeta(part, meta)
    reads l, l.ids
  {
    l.Valid() && forall x :: x in l.ids[..l.len] <==> x in part && !IsTriggered(meta[x], tick, timestamp)
  }

  /** taskSystem: the search yields every archetype with the task's components, and each is ranged over while its own
      list shrinks. Over all of them, every task is visited once, exactly the due ones are handled, each once, and
      exactly the others remain. */
  method TaskSystem(lists: seq<ActiveList>, meta: map<EntityId, Meta>, tick: nat, timestamp: nat,
                    ghost parts: seq<seq<EntityId>>) returns (visited: seq<EntityId>, handled: seq<EntityId>)
    requires Apart(lists) && |parts| == |lists| && Tasks(parts, meta)
    requires forall i :: 0 <= i < |lists| ==> Lists(lists[i], parts[i])
    modifies lists, set l | l in lists :: l.ids
    ensures visited == Joined(parts) && NoDup(visited) && AllMeta(visited, meta)
    ensures handled == Due(visited, meta, tick, timestamp) && NoDup(handled)
    ensures forall i :: 0 <= i < |lists| ==> Passed(lists[i], parts[i], meta, tick, timestamp)
    ensures forall x :: x in handled <==>
              x in visited
              && if meta[x].atTick.Some? then tick >= meta[x].atTick.value else timestamp >= meta[x].atTime.value
    ensures forall i, x :: 0 <= i < |lists| && x in parts[i] ==> (Holds(lists[i], x) <==> x !in handled)
  {
    hide Due, NoDup, AllMeta, Lists, Passed, Disjoint, Holds;
    visited, handled := [], [];
    JoinedTasks(parts, meta, 0);
    DueNone(meta, tick, timestamp);
    for k := 0 to |lists|
      invariant visited == Joined(parts[..k]) && AllMeta(visited, meta)
      invariant handled == Due(visited, meta, tick, timestamp)
      invariant forall i :: 0 <= i < k ==> Passed(lists[i], parts[i], meta, tick, timestamp)
      invariant forall i :: k <= i < |lists| ==> Lists(lists[i], parts[i])
    {
      PartTasks(parts, meta, k);
      var seen, done := PassList(lists[k], meta, tick, timestamp, parts[k]);
      JoinedTasks(parts, meta, k + 1);
      assert parts[..k + 1][..k] == parts[..k];
      DueJoin(visited, seen, meta, tick, timestamp);
      visited, handled := visited + seen, handled + done;
    }
    assert parts[..|lists|] == parts;
    JoinedTasks(parts, meta, |lists|);
    DueNoDup(visited, meta, tick, timestamp);
    MetaAll(visited, meta);
    forall i, x | 0 <= i < |lists| && x in parts[i]
      ensures Holds(lists[i], x) <==> x !in handled
    {
      PassedIs(lists[i], parts[i], meta, tick, timestamp, x);
    }
  }

  lemma MetaAll(ids: seq<EntityId>, meta: map<EntityId, Meta>)
    requires AllMeta(ids, meta)
    ensures forall x :: x in ids ==> x in meta && MetaOk(meta[x])
  {
  }

  lemma PassedIs(l: ActiveList, part: seq<EntityId>, meta: map<EntityId, Meta>, tick: nat, timestamp: nat, x: EntityId)
    requires AllMeta(part, meta) && Passed(l, part, meta, tick, timestamp) && x in part
    ensures x in meta && MetaOk(meta[x])
    ensures Holds(l, x) <==>
            !(if meta[x].atTick.Some? then tick >= meta[x].atTick.value else timestamp >= meta[x].atTime.value)
  {
  }

  method PassList(l: ActiveList, meta: map<EntityId, Meta>, tick: nat, timestamp: nat, ghost part: seq<EntityId>)
      returns (visited: seq<EntityId>, handled: seq<EntityId>)
    requires Lists(l, part) && AllMeta(part, meta)
    modifies l.ids, l`len
    ensures visited == part && handled == Due(part, meta, tick, timestamp)
    ensures Passed(l, part, meta, tick, timestamp)
  {
    hide Due, NoDup, AllMeta;
    visited, handled := TaskPass(l, meta, tick, timestamp);
  }

  lemma PartTasks(parts: seq<seq<EntityId>>, meta: map<EntityId, Meta>, k: nat)
    requires Tasks(parts, meta) && k < |parts|
    ensures AllMeta(parts[k], meta)
  {
  }

  lemma DueNone(meta: map<EntityId, Meta>, tick: nat, timestamp: nat)
    ensures AllMeta([], meta) && Due([], meta, tick, timestamp) == []
  {
  }

  lemma {:induction false} JoinedTasks(parts: seq<seq<EntityId>>, meta: map<EntityId, Meta>, k: nat)
    requires Tasks(parts, meta) && k <= |parts|
    ensures var all := Joined(parts[..k]);
            && NoDup(all) && AllMeta(all, meta) && forall e :: e in all <==> exists i :: 0 <= i < k && e in parts[i]
  {
    if k > 0 {
      JoinedTasks(parts, meta, k - 1);
      assert parts[..k][..k - 1] == parts[..k - 1];
      var init, last := Joined(parts[..k - 1]), parts[k - 1];
      assert AllMeta(last, meta) && NoDup(last);
      forall e | e in init ensures e !in last { var i :| 0 <= i < k - 1 && e in parts[i]; }
      NoDupJoin(init, last);
      hide NoDup;
      forall e ensures e in init + last <==> exists i :: 0 <= i < k && e in parts[i] {
        if e in init { var i :| 0 <= i < k - 1 && e in parts[i]; }
      }
    }
  }

  lemma {:induction false} DueJoin(a: seq<EntityId>, b: seq<EntityId>,
                                   meta: map<EntityId, Meta>, tick: nat, timestamp: nat)
    requires AllMeta(a, meta) && AllMeta(b, meta)
    ensures AllMeta(a + b, meta)
    ensures Due(a + b, meta, tick, timestamp) == Due(a, meta, tick, timestamp) + Due(b, meta, tick, timestamp)
  {
    if b == [] {
      assert a + b == a;
    } else {
      assert (a + b)[..|a + b| - 1] == a + b[..|b| - 1];
      DueJoin(a, b[..|b| - 1], meta, tick, timestamp);
    }
  }

  lemma {:induction false} DueNoDup(ids: seq<EntityId>, meta: map<EntityId, Meta>, tick: nat, timestamp: nat)
    requires AllMeta(ids, meta) && NoDup(ids)
    ensures NoDup(Due(ids, meta, tick, timestamp))
  {
    if ids != [] {
      NoDupInit(ids);
      DueNoDup(ids[..|ids| - 1], meta, tick, timestamp);
    }
  }

  /** The loop of a pass before step `i`: `arr` is the backing array, `len` the list's length. */
  ghost predicate PassInv(all: seq<EntityId>, arr: seq<EntityId>, len: nat, i: nat, handled: seq<EntityId>,
                          meta: map<EntityId, Meta>, tick: nat, timestamp: nat) {
    && i <= |all| <= |arr| && len <= |all| && NoDup(all) && AllMeta(all, meta) && NoDup(arr[..len])
    && handled == Due(all[..i], meta, tick, timestamp) && NoDup(handled)
    && (forall p :: i <= p < |all| ==> arr[p] == all[p])
    && (forall x :: x in arr[..len] <==> x in all && x !in handled)
  }

  lemma PassStart(all: seq<EntityId>, arr: seq<EntityId>, meta: map<EntityId, Meta>, tick: nat, timestamp: nat)
    requires |all| <= |arr| && all == arr[..|all|] && NoDup(all) && AllMeta(all, meta)
    ensures PassInv(all, arr, |all|, 0, [], meta, tick, timestamp)
  {
    assert all[..0] == [];
  }

  lemma PassReads(all: seq<EntityId>, arr: seq<EntityId>, len: nat, i: nat, handled: seq<EntityId>,
                  meta: map<EntityId, Meta>, tick: nat, timestamp: nat)
    requires PassInv(all, arr, len, i, handled, meta, tick, timestamp) && i < |all|
    ensures arr[i] == all[i] && arr[i] in arr[..len] && arr[i] in meta && MetaOk(meta[arr[i]])
    ensures all[..i + 1] == all[..i] + [arr[i]]
  {
    NotYetSeen(all, i);
  }

  lemma PassSkips(all: seq<EntityId>, arr: seq<EntityId>, len: nat, i: nat, handled: seq<EntityId>,
                  meta: map<EntityId, Meta>, tick: nat, timestamp: nat)
    requires PassInv(all, arr, len, i, handled, meta, tick, timestamp) && i < |all|
    requires !IsTriggered(meta[all[i]], tick, timestamp)
    ensures PassInv(all, arr, len, i + 1, handled, meta, tick, timestamp)
  {
    assert all[..i + 1][..i] == all[..i];
  }

  lemma PassRemoves(all: seq<EntityId>, arr: seq<EntityId>, len: nat, i: nat, handled: seq<EntityId>,
                    meta: map<EntityId, Meta>, tick: nat, timestamp: nat, arr': seq<EntityId>, at: nat)
    requires PassInv(all, arr, len, i, handled, meta, tick, timestamp) && i < |all|
    requires IsTriggered(meta[all[i]], tick, timestamp) && all[i] in arr[..len]
    requires |arr'| == |arr| && at < len && arr[at] == all[i] && arr'[..len - 1] == SwapRemove(arr[..len], all[i])
    requires forall p :: 0 <= p < |arr| && p != at ==> arr'[p] == arr[p]
    ensures PassInv(all, arr', len - 1, i + 1, handled + [all[i]], meta, tick, timestamp)
  {
    var id := all[i];
    NotYetSeen(all, i);
    SwapRemoveExact(arr[..len], id);
    hide SwapRemove;
    RemovedBehind(arr[..len], id, i, at);
    assert all[..i + 1][..i] == all[..i];
    assert id !in handled;
  }

  lemma PassEnds(all: seq<EntityId>, arr: seq<EntityId>, len: nat, handled: seq<EntityId>,
                 meta: map<EntityId, Meta>, tick: nat, timestamp: nat)
    requires PassInv(all, arr, len, |all|, handled, meta, tick, timestamp)
    ensures handled == Due(all, meta, tick, timestamp) && NoDup(handled)
    ensures forall x :: x in arr[..len] <==> x in all && !IsTriggered(meta[x], tick, timestamp)
  {
    assert all[..|all|] == all;
  }

  lemma NotYetSeen(all: seq<EntityId>, i: nat)
    requires NoDup(all) && i < |all|
    ensures all[i] !in all[..i] && all[i] in all
  {
  }

  /** The position a removal overwrites is never ahead of the loop. */
  lemma RemovedBehind(before: seq<EntityId>, id: EntityId, i: nat, at: nat)
    requires NoDup(before) && at < |before| && before[at] == id && (i < |before| ==> before[i] == id)
    ensures at <= i
  {
  }

  // ---------------------------------------------------------------- whole runs

  datatype TaskEvent = Schedule(id: EntityId, meta: Meta) | Pass(tick: nat, timestamp: nat)

  /** `doneAt` gives, for each handled task, the event that handled it. */
  datatype TaskState = TaskState(pending: map<EntityId, Meta>, doneAt: map<EntityId, nat>)

  ghost predicate Fires(ev: TaskEvent, m: Meta) {
    ev.Pass? && MetaOk(m) && IsTriggered(m, ev.tick, ev.timestamp)
  }

  ghost function After(evs: seq<TaskEvent>): TaskState {
    if evs == [] then TaskState(map[], map[])
    else
      var st, ev := After(evs[..|evs| - 1]), evs[|evs| - 1];
      if ev.Schedule? then st.(pending := st.pending[ev.id := ev.meta])
      else
        var fired := set id | id in st.pending && Fires(ev, st.pending[id]);
        TaskState(st.pending - fired, st.doneAt + (map id | id in fired :: |evs| - 1))
  }

  /** ScheduleTickTask and createTickTask. */
  function TickTask(now: nat, delay: nat): Meta {
    Meta(Some(now + delay), None)
  }

  /** ScheduleTimeTask and createTimestampTask: a negative duration is refused. */
  function TimeTask(now: nat, millis: int): Option<Meta> {
    if millis < 0 then None else Some(Meta(None, Some(now + millis)))
  }

  /** A pass of `taskSystem` over the list of pending tasks handles and leaves exactly what the run's state says. */
  lemma PassIsStep(evs: seq<TaskEvent>, ids: seq<EntityId>, tick: nat, timestamp: nat)
    requires var st := After(evs); (forall id :: id in ids <==> id in st.pending) && AllMeta(ids, st.pending)
    ensures var st, st' := After(evs), After(evs + [Pass(tick, timestamp)]);
            var due := Due(ids, st.pending, tick, timestamp);
            && (forall id :: id in due <==> id in st.pending && id !in st'.pending)
            && (forall id :: id in due ==> id in st'.doneAt && st'.doneAt[id] == |evs|)
            && (forall id :: id in st'.pending <==> id in ids && !IsTriggered(st.pending[id], tick, timestamp))
  {
    hide Due;
    var ev, all := Pass(tick, timestamp), evs + [Pass(tick, timestamp)];
    assert all[..|all| - 1] == evs;
    var st := After(evs);
    assert forall id :: id in ids ==> Fires(ev, st.pending[id]) == IsTriggered(st.pending[id], tick, timestamp);
  }

  /** Entity ids are never reused (see Allocation), so every task has its own. */
  ghost predicate OwnIds(evs: seq<TaskEvent>) {
    forall i, j :: 0 <= i < j < |evs| && evs[i].Schedule? && evs[j].Schedule? ==> evs[i].id != evs[j].id
  }

  lemma {:induction false} Unscheduled(evs: seq<TaskEvent>, id: EntityId)
    requires forall i :: 0 <= i < |evs| && evs[i].Schedule? ==> evs[i].id != id
    ensures id !in After(evs).pending && id !in After(evs).doneAt
  {
    if evs != [] { Unscheduled(evs[..|evs| - 1], id); }
  }

  /** Every scheduled task is handled exactly once, by the first later pass that reaches its trigger; until then it is
      pending, and it is never pending and handled at once. */
  lemma {:induction false} TaskHandledOnce(evs: seq<TaskEvent>, s: nat)
    requires OwnIds(evs) && s < |evs| && evs[s].Schedule?
    ensures var id, m, st := evs[s].id, evs[s].meta, After(evs);
            && (id in st.pending <==> id !in st.doneAt)
            && (id in st.pending ==> st.pending[id] == m && forall p :: s < p < |evs| ==> !Fires(evs[p], m))
            && (id in st.doneAt ==>
                  && s < st.doneAt[id] < |evs| && Fires(evs[st.doneAt[id]], m)
                  && forall p :: s < p < st.doneAt[id] ==> !Fires(evs[p], m))
  {
    var init, last := evs[..|evs| - 1], |evs| - 1;
    assert forall i :: 0 <= i < |init| ==> init[i] == evs[i];
    if s == last {
      Unscheduled(init, evs[s].id);
    } else {
      TaskHandledOnce(init, s);
      assert init[s] == evs[s];
      var st0 := After(init);
      if evs[s].id in st0.doneAt { assert init[st0.doneAt[evs[s].id]] == evs[st0.doneAt[evs[s].id]]; }
    }
  }

  /** A task scheduled at tick `now` with a delay is handled by the first later pass at tick `now + delay` or after, by
      none before it, and is pending until then. */
  lemma TickTaskHandled(evs: seq<TaskEvent>, s: nat, now: nat, delay: nat)
    requires OwnIds(evs) && s < |evs| && evs[s].Schedule? && evs[s].meta == TickTask(now, delay)
    ensures var id, st := evs[s].id, After(evs);
            && (id in st.pending <==> id !in st.doneAt)
            && (id in st.pending <==> forall p :: s < p < |evs| && evs[p].Pass? ==> evs[p].tick < now + delay)
            && (id in st.doneAt ==>
                  var d := st.doneAt[id];
                  && s < d < |evs| && evs[d].Pass? && evs[d].tick >= now + delay
                  && forall p :: s < p < d && evs[p].Pass? ==> evs[p].tick < now + delay)
  {
    hide After, OwnIds;
    TaskHandledOnce(evs, s);
    assert forall p :: s < p < |evs| ==> (Fires(evs[p], evs[s].meta) <==> evs[p].Pass? && evs[p].tick >= now + delay);
  }

  /** A task scheduled at time `now` with a duration is handled by the first later pass whose timestamp is at least
      `now + millis`, by none before it, and is pending until then. */
  lemma TimeTaskHandled(evs: seq<TaskEvent>, s: nat, now: nat, millis: nat)
    requires OwnIds(evs) && s < |evs| && evs[s].Schedule? && TimeTask(now, millis) == Some(evs[s].meta)
    ensures var id, st := evs[s].id, After(evs);
            && (id in st.pending <==> id !in st.doneAt)
            && (id in st.pending <==> forall p :: s < p < |evs| && evs[p].Pass? ==> evs[p].timestamp < now + millis)
            && (id in st.doneAt ==>
                  var d := st.doneAt[id];
                  && s < d < |evs| && evs[d].Pass? && evs[d].timestamp >= now + millis
                  && forall p :: s < p < d && evs[p].Pass? ==> evs[p].timestamp < now + millis)
  {
    hide After, OwnIds;
    TaskHandledOnce(evs, s);
    assert forall p :: s < p < |evs| ==>
        (Fires(evs[p], evs[s].meta) <==> evs[p].Pass? && evs[p].timestamp >= now + millis);
  }
}
