/** Nonce checking (cardinal/storage/redis/nonce.go): a pruned set and a sliding window stand in for the set of all
    nonces ever used. */
module Nonce {
  import opened Base

  const WINDOW: nat := 1000
  const CLEANUP: nat := 1500
  const MAX_VALID: nat := 0x1F_FFFF_FFFF_FFFF  // 2^53 - 1

  /** What is kept for one signer: the stored set, and the highest nonce and the size as tracked in memory. */
  datatype Signer = Signer(stored: set<nat>, max: nat, count: int)

  datatype Verdict = Accepted | TooLarge | TooOld | Used

  function Max(a: nat, b: nat): nat {
    if a > b then a else b
  }

  const U64: nat := 0x1_0000_0000_0000_0000

  /** The highest nonce a cleanup removes: an unsigned 64-bit subtraction, which wraps around below zero. */
  function Cutoff(max: nat): nat {
    (max - WINDOW) % U64
  }

  function UpTo(stored: set<nat>, cutoff: nat): set<nat> {
    set x | x in stored && x <= cutoff
  }

  /** cleanupOldNonces. */
  function Pruned(s: Signer): Signer {
    var removed := UpTo(s.stored, Cutoff(s.max));
    s.(stored := s.stored - removed, count := s.count - |removed|)
  }

  /** UseNonce; `cleans` says whether a cleanup that this call triggers succeeds. */
  ghost function Use(s: Signer, nonce: nat, cleans: bool): (Signer, Verdict) {
    if nonce > MAX_VALID then (s, TooLarge)
    else if nonce < s.max && s.max - nonce >= WINDOW then (s, TooOld)
    else if nonce in s.stored then (s, Used)
    else
      var s1 := Signer(s.stored + {nonce}, Max(s.max, nonce), s.count + 1);
      (if s1.count > CLEANUP && cleans then Pruned(s1) else s1, Accepted)
  }

  // ---------------------------------------------------------------- the unbounded set

  /** Every nonce ever accepted, and the largest. */
  datatype Ledger = Ledger(used: set<nat>, max: nat)

  ghost function Judge(l: Ledger, nonce: nat): Verdict {
    if nonce > MAX_VALID then TooLarge
    else if nonce < l.max && l.max - nonce >= WINDOW then TooOld
    else if nonce in l.used then Used
    else Accepted
  }

  ghost function Enter(l: Ledger, nonce: nat): Ledger {
    if Judge(l, nonce) == Accepted then Ledger(l.used + {nonce}, Max(l.max, nonce)) else l
  }

  /** The stored set is a part of the used one that lacks nothing inside the window. */
  ghost predicate Tracks(s: Signer, l: Ledger) {
    && s.max == l.max && s.count == |s.stored| && s.stored <= l.used
    && l.max <= MAX_VALID && (forall x :: x in l.used ==> x <= l.max)
    && (forall x :: x in l.used && l.max - x < WINDOW ==> x in s.stored)
  }

  lemma {:induction false} CardRange(s: set<nat>, lo: int, hi: int)
    requires lo <= hi && forall x :: x in s ==> lo <= x < hi
    ensures |s| <= hi - lo
    decreases hi - lo
  {
    if lo == hi {
      assert s == {};
    } else {
      var rest := s - {hi - 1};
      CardRange(rest, lo, hi - 1);
      if hi - 1 in s { assert s == rest + {hi - 1}; } else { assert s == rest; }
    }
  }

  /** More than 1500 distinct naturals force the maximum up, so the cutoff of a triggered cleanup does not wrap. */
  lemma CutoffExact(s: Signer, l: Ledger)
    requires Tracks(s, l) && s.count > CLEANUP
    ensures s.max >= CLEANUP && Cutoff(s.max) == s.max - WINDOW
  {
    CardRange(s.stored, 0, s.max + 1);
  }

  lemma PrunedTracks(s: Signer, l: Ledger)
    requires Tracks(s, l) && s.count > CLEANUP
    ensures Tracks(Pruned(s), l)
  {
    CutoffExact(s, l);
    var removed := UpTo(s.stored, Cutoff(s.max));
    assert s.stored == (s.stored - removed) + removed;
  }

  /** One call answers as the unbounded set would, whether or not a cleanup happens or succeeds. */
  lemma UseTracks(s: Signer, l: Ledger, nonce: nat, cleans: bool)
    requires Tracks(s, l)
    ensures Use(s, nonce, cleans).1 == Judge(l, nonce)
    ensures Tracks(Use(s, nonce, cleans).0, Enter(l, nonce))
  {
    if Judge(l, nonce) == Accepted {
      var s1 := Signer(s.stored + {nonce}, Max(s.max, nonce), s.count + 1);
      assert Tracks(s1, Enter(l, nonce));
      if s1.count > CLEANUP { PrunedTracks(s1, Enter(l, nonce)); }
    }
  }

  datatype Attempt = Attempt(nonce: nat, cleans: bool)

  ghost function Run(s: Signer, ts: seq<Attempt>): (Signer, seq<Verdict>) {
    if ts == [] then (s, [])
    else
      var (s1, vs) := Run(s, ts[..|ts| - 1]);
      var (s2, v) := Use(s1, ts[|ts| - 1].nonce, ts[|ts| - 1].cleans);
      (s2, vs + [v])
  }

  ghost function LedgerAfter(l: Ledger, ts: seq<Attempt>): Ledger {
    if ts == [] then l else Enter(LedgerAfter(l, ts[..|ts| - 1]), ts[|ts| - 1].nonce)
  }

  lemma {:induction false} RunTracks(s: Signer, l: Ledger, ts: seq<Attempt>)
    requires Tracks(s, l)
    ensures Tracks(Run(s, ts).0, LedgerAfter(l, ts)) && |Run(s, ts).1| == |ts|
    ensures forall i :: 0 <= i < |ts| ==> Run(s, ts).1[i] == Judge(LedgerAfter(l, ts[..i]), ts[i].nonce)
  {
    hide Use, Judge, Tracks, Enter;
    if ts != [] {
      var init := ts[..|ts| - 1];
      RunTracks(s, l, init);
      UseTracks(Run(s, init).0, LedgerAfter(l, init), ts[|ts| - 1].nonce, ts[|ts| - 1].cleans);
      assert forall i :: 0 <= i < |init| ==> init[..i] == ts[..i];
    }
  }

  const New := Signer({}, 0, 0)
  const Clean := Ledger({}, 0)

  ghost predicate AcceptedAt(ts: seq<Attempt>, j: nat)
    requires j < |ts|
  {
    Judge(LedgerAfter(Clean, ts[..j]), ts[j].nonce) == Accepted
  }

  /** The ledger holds the accepted nonces and their maximum, nothing else. */
  lemma {:induction false} LedgerHolds(ts: seq<Attempt>)
    ensures var l := LedgerAfter(Clean, ts);
            && (forall x :: x in l.used ==>
                  x <= l.max && exists j :: 0 <= j < |ts| && AcceptedAt(ts, j) && ts[j].nonce == x)
            && (forall j :: 0 <= j < |ts| && AcceptedAt(ts, j) ==> ts[j].nonce in l.used)
            && (l.max in l.used || l == Clean)
  {
    hide Judge;
    if ts != [] {
      var init, last := ts[..|ts| - 1], |ts| - 1;
      LedgerHolds(init);
      assert forall j :: 0 <= j < last ==> init[..j] == ts[..j];
      assert forall j :: 0 <= j < last ==> AcceptedAt(ts, j) == AcceptedAt(init, j);
      var l, l' := LedgerAfter(Clean, init), LedgerAfter(Clean, ts);
      forall x | x in l'.used
        ensures exists j :: 0 <= j < |ts| && AcceptedAt(ts, j) && ts[j].nonce == x
      {
        if x in l.used {
          var j :| 0 <= j < last && AcceptedAt(init, j) && init[j].nonce == x;
          assert AcceptedAt(ts, j) && ts[j].nonce == x;
        } else {
          assert AcceptedAt(ts, last) && ts[last].nonce == x;
        }
      }
    }
  }

  /** Over every run of one process from an empty set, in terms of the calls alone: a nonce is accepted if and only if
      it is at most 2^53 - 1, was not accepted before, and is less than 1000 below every nonce accepted before.
      Otherwise it is too large, or too old, or, being neither, used before. Pruning never makes a used nonce acceptable
      again. */
  lemma AcceptedIff(ts: seq<Attempt>, i: nat)
    requires i < |ts|
    ensures var vs := Run(New, ts).1;
            && |vs| == |ts|
            && (vs[i] == Accepted <==>
                  && ts[i].nonce <= 9007199254740991
                  && forall j :: 0 <= j < i && vs[j] == Accepted ==>
                       ts[j].nonce != ts[i].nonce && ts[j].nonce - ts[i].nonce < 1000)
            && (vs[i] == TooLarge <==> ts[i].nonce > 9007199254740991)
            && (vs[i] == TooOld <==>
                  && ts[i].nonce <= 9007199254740991
                  && exists j :: 0 <= j < i && vs[j] == Accepted && ts[j].nonce - ts[i].nonce >= 1000)
  {
    hide Run, LedgerAfter;
    EarlierCalls(ts, i);
  }

  /** Call `i` is judged by the nonces accepted before it and their maximum. */
  lemma EarlierCalls(ts: seq<Attempt>, i: nat)
    requires i < |ts|
    ensures var vs, l := Run(New, ts).1, LedgerAfter(Clean, ts[..i]);
            && |vs| == |ts| && vs[i] == Judge(l, ts[i].nonce)
            && (forall x :: x in l.used ==>
                  x <= l.max && exists j :: 0 <= j < i && vs[j] == Accepted && ts[j].nonce == x)
            && (forall j :: 0 <= j < i && vs[j] == Accepted ==> ts[j].nonce in l.used)
            && (l.max in l.used || l == Clean)
  {
    hide Judge, Run, LedgerAfter;
    RunTracks(New, Clean, ts);
    LedgerHolds(ts[..i]);
    var vs := Run(New, ts).1;
    forall j | 0 <= j < i ensures AcceptedAt(ts[..i], j) <==> vs[j] == Accepted { assert ts[..i][..j] == ts[..j]; }
    var l := LedgerAfter(Clean, ts[..i]);
    forall x | x in l.used ensures exists j :: 0 <= j < i && vs[j] == Accepted && ts[j].nonce == x {
      var j :| 0 <= j < |ts[..i]| && AcceptedAt(ts[..i], j) && ts[..i][j].nonce == x;
      assert vs[j] == Accepted && ts[j].nonce == x;
    }
    forall j | 0 <= j < i && vs[j] == Accepted ensures ts[j].nonce in l.used { assert AcceptedAt(ts[..i], j); }
  }

  // ---------------------------------------------------------------- bounds

  /** The set stays small: a call whose cleanup succeeds leaves at most 1500 nonces, and at most 1000 if it pruned. It
      prunes exactly when more than 1500 would be stored, down to the nonces less than 1000 below the highest. */
  lemma UseBounds(s: Signer, l: Ledger, nonce: nat)
    requires Tracks(s, l)
    ensures var (s', v) := Use(s, nonce, true);
            && (v == Accepted || s.count <= 1500 ==> s'.count <= 1500)
            && (v == Accepted && s.count + 1 > 1500 ==> s'.count <= 1000)
            && s'.count == |s'.stored|
            && (v == Accepted ==>
                  forall x :: x in s'.stored <==>
                    (x in s.stored || x == nonce) && (s.count + 1 > 1500 ==> x > Max(s.max, nonce) - 1000))
            && (v != Accepted ==> s' == s)
  {
    UseTracks(s, l, nonce, true);
    var s' := Use(s, nonce, true).0;
    if Judge(l, nonce) == Accepted && s.count + 1 > CLEANUP {
      var s1 := Signer(s.stored + {nonce}, Max(s.max, nonce), s.count + 1);
      CutoffExact(s1, Enter(l, nonce));
      CardRange(s'.stored, s1.max - WINDOW + 1, s1.max + 1);
    }
  }

  /** In no run from an empty set does a cleanup's cutoff, the maximum less the window, wrap around. */
  lemma NoUnderflow(ts: seq<Attempt>, nonce: nat)
    ensures var s := Run(New, ts).0;
            Use(s, nonce, true).1 == Accepted && s.count + 1 > 1500 ==>
              Max(s.max, nonce) >= 1500 && Cutoff(Max(s.max, nonce)) == Max(s.max, nonce) - 1000
  {
    RunTracks(New, Clean, ts);
    var s, l := Run(New, ts).0, LedgerAfter(Clean, ts);
    UseTracks(s, l, nonce, false);
    if Judge(l, nonce) == Accepted && s.count + 1 > CLEANUP {
      CutoffExact(Use(s, nonce, false).0, Enter(l, nonce));
    }
  }

  // ---------------------------------------------------------------- the storage object

  function SignerIn(zsets: map<string, set<nat>>, maxNonce: map<string, nat>, countNonce: map<string, int>,
                    key: string): Signer {
    Signer(if key in zsets then zsets[key] else {}, if key in maxNonce then maxNonce[key] else 0,
           if key in countNonce then countNonce[key] else 0)
  }

  class NonceStorage {
    var zsets: map<string, set<nat>>  // in Redis
    var maxNonce: map<string, nat>
    var countNonce: map<string, int>
    ghost var ledgers: map<string, Ledger>

    ghost function Of(key: string): Signer
      reads this
    {
      SignerIn(zsets, maxNonce, countNonce, key)
    }

    ghost function LedgerOf(key: string): Ledger
      reads this
    {
      if key in ledgers then ledgers[key] else Clean
    }

    ghost predicate Valid()
      reads this
    {
      forall key :: Tracks(Of(key), LedgerOf(key))
    }

    constructor ()
      ensures Valid() && forall key :: LedgerOf(key) == Clean
    {
      zsets, maxNonce, countNonce, ledgers := map[], map[], map[], map[];
    }

    /** UseNonce: the verdict is that of the unbounded set, and only this signer's state changes. */
    method UseNonce(key: string, nonce: nat, cleans: bool) returns (v: Verdict)
      requires Valid()
      modifies this
      ensures Valid() && v == Judge(old(LedgerOf(key)), nonce)
      ensures Of(key) == Use(old(Of(key)), nonce, cleans).0
      ensures LedgerOf(key) == Enter(old(LedgerOf(key)), nonce)
      ensures forall k :: k != key ==> Of(k) == old(Of(k)) && LedgerOf(k) == old(LedgerOf(k))
    {
      hide Tracks, Use, Enter, Judge, SignerIn;
      ghost var s0, l0 := Of(key), LedgerOf(key);
      UseTracks(s0, l0, nonce, cleans);
      v := UseFor(key, nonce, cleans);
      ledgers := ledgers[key := Enter(l0, nonce)];
      forall k ensures Tracks(Of(k), LedgerOf(k)) {
        assert old(Tracks(Of(k), LedgerOf(k)));
        assert k != key ==> LedgerOf(k) == old(LedgerOf(k));
      }
    }

    method UseFor(key: string, nonce: nat, cleans: bool) returns (v: Verdict)
      modifies this`zsets, this`maxNonce, this`countNonce
      ensures Of(key) == Use(old(Of(key)), nonce, cleans).0 && v == Use(old(Of(key)), nonce, cleans).1
      ensures forall k :: k != key ==> Of(k) == old(Of(k))
    {
      hide Pruned;
      if nonce > MAX_VALID {
        return TooLarge;
      }
      var max := GetMaxNonceForKey(key);
      if nonce < max && max - nonce >= WINDOW {
        return TooOld;
      }
      if key in zsets && nonce in zsets[key] {
        return Used;
      }
      Record(key, nonce);
      if countNonce[key] > CLEANUP && cleans {
        CleanupOldNonces(key);
      }
      return Accepted;
    }

    /** getMaxNonceForKey, for a signer whose set was empty when the process started. */
    method GetMaxNonceForKey(key: string) returns (max: nat)
      modifies this`maxNonce
      ensures key in maxNonce && max == old(Of(key)).max
      ensures forall k :: Of(k) == old(Of(k))
    {
      max := if key in maxNonce then maxNonce[key] else 0;
      maxNonce := maxNonce[key := max];
    }

    /** An accepted nonce enters the set; the highest nonce and the size are tracked. */
    method Record(key: string, nonce: nat)
      requires key in maxNonce
      modifies this`zsets, this`maxNonce, this`countNonce
      ensures key in zsets && key in maxNonce && key in countNonce
      ensures var s := old(Of(key)); Of(key) == Signer(s.stored + {nonce}, Max(s.max, nonce), s.count + 1)
      ensures forall k :: k != key ==> Of(k) == old(Of(k))
    {
      zsets := zsets[key := (if key in zsets then zsets[key] else {}) + {nonce}];
      maxNonce := maxNonce[key := Max(maxNonce[key], nonce)];
      countNonce := countNonce[key := (if key in countNonce then countNonce[key] else 0) + 1];
    }

    /** cleanupOldNonces. */
    method CleanupOldNonces(key: string)
      requires key in zsets && key in maxNonce && key in countNonce
      modifies this`zsets, this`countNonce
      ensures Of(key) == Pruned(old(Of(key)))
      ensures forall k :: k != key ==> Of(k) == old(Of(k))
    {
      hide Cutoff, UpTo;
      var removed := UpTo(zsets[key], Cutoff(maxNonce[key]));
      zsets, countNonce := zsets[key := zsets[key] - removed], countNonce[key := countNonce[key] - |removed|];
    }
  }
}
