/** Beta keys (relay/nakama/allowlist): claims by any number of concurrent users over versioned storage with
    conditional, all-or-nothing writes. */
module Allowlist {
  import opened Base

  type User = string
  type Key = string

  /** A key object and the version of its last write. */
  datatype KeyRecord = KeyRecord(used: bool, usedBy: User, version: nat)

  datatype Store = Store(users: set<User>, keys: map<Key, KeyRecord>, nextVersion: nat)

  datatype Outcome = Success | AlreadyVerified | InvalidKey | KeyUsed | WriteConflict

  /** How far a claim has got. */
  datatype Stage = Start | UserChecked | KeyRead(version: nat) | Done(outcome: Outcome)

  datatype Claim = Claim(user: User, key: Key, stage: Stage)

  // ---------------------------------------------------------------- the three storage accesses of a claim

  function UpperChar(c: char): char {
    if 'a' <= c <= 'z' then c - ' ' else c  // ' ' is 32, the distance between the cases
  }

  /** Keys are generated, stored and looked up in upper case. */
  function Upper(key: Key): Key {
    seq(|key|, i requires 0 <= i < |key| => UpperChar(key[i]))
  }

  ghost predicate AllCapital(key: Key) {
    forall i :: 0 <= i < |key| ==> !Small(key[i])
  }

  /** A key as typed finds the stored key that agrees with it up to case. */
  lemma UpperFinds(key: Key, stored: Key)
    requires AllCapital(stored)
    ensures Upper(key) == stored <==> SameText(key, stored)
  {
    forall i | 0 <= i < |key| && |key| == |stored|
      ensures UpperChar(key[i]) == stored[i] <==> SameLetter(key[i], stored[i])
    { }
    if Upper(key) == stored {
      assert |key| == |stored|;
      forall i | 0 <= i < |key| ensures SameLetter(key[i], stored[i]) { assert Upper(key)[i] == UpperChar(key[i]); }
    }
  }

  /** Keys as they are generated: without small letters. */
  ghost predicate Capitals(st: Store) {
    forall k :: k in st.keys ==> AllCapital(k)
  }

  /** IsUserVerified, then the empty-key test. With the allowlist disabled every user counts as verified. */
  function ReadUser(st: Store, enabled: bool, c: Claim): Claim {
    if !enabled || c.user in st.users then c.(stage := Done(AlreadyVerified))
    else if c.key == "" then c.(stage := Done(InvalidKey))
    else c.(key := Upper(c.key), stage := UserChecked)
  }

  function ReadKey(st: Store, c: Claim): Claim {
    if c.key !in st.keys then c.(stage := Done(InvalidKey))
    else if st.keys[c.key].used then c.(stage := Done(KeyUsed))
    else c.(stage := KeyRead(st.keys[c.key].version))
  }

  /** writeVerifiedAndUsedKey: both objects are written, or neither. The user object must not exist yet, and the key
      object must still have the version that was read. */
  function Write(st: Store, c: Claim): (Store, Claim)
    requires c.stage.KeyRead?
  {
    if c.user in st.users || c.key !in st.keys || st.keys[c.key].version != c.stage.version then
      (st, c.(stage := Done(WriteConflict)))
    else
      (Store(st.users + {c.user}, st.keys[c.key := KeyRecord(true, c.user, st.nextVersion + 1)], st.nextVersion + 2),
       c.(stage := Done(Success)))
  }

  /** GenerateBetaKeys writes its keys unconditionally. */
  function Generate(st: Store, ks: set<Key>): Store {
    Store(st.users, st.keys + (map k | k in ks :: KeyRecord(false, "", st.nextVersion)), st.nextVersion + 1)
  }

  // ---------------------------------------------------------------- what is kept

  /** Verified users and used keys correspond one to one. */
  ghost predicate OneToOne(st: Store) {
    && (forall k :: k in st.keys && st.keys[k].used ==> st.keys[k].usedBy in st.users)
    && (forall u :: u in st.users ==> exists k :: k in st.keys && st.keys[k].used && st.keys[k].usedBy == u)
    && (forall k, k' ::
          k in st.keys && k' in st.keys && st.keys[k].used && st.keys[k'].used
          && st.keys[k].usedBy == st.keys[k'].usedBy
          ==> k == k')
  }

  /** A version a claim still holds is one at which its key was unused. */
  ghost predicate Unspent(st: Store, c: Claim) {
    c.stage.KeyRead? && c.key in st.keys && st.keys[c.key].version == c.stage.version ==> !st.keys[c.key].used
  }

  ghost predicate ClaimOk(st: Store, c: Claim) {
    Unspent(st, c) && (c.stage.KeyRead? ==> c.stage.version < st.nextVersion)
  }

  datatype State = State(store: Store, claims: seq<Claim>, enabled: bool)

  ghost predicate StateInv(s: State) {
    && OneToOne(s.store)
    && (forall k :: k in s.store.keys ==> s.store.keys[k].version < s.store.nextVersion)
    && (forall i :: 0 <= i < |s.claims| ==> ClaimOk(s.store, s.claims[i]))
  }

  datatype Event = Arrive(user: User, key: Key) | Advance(i: nat) | Create(keys: set<Key>)

  /** One access by one claim; an arrival; or a batch of new keys, none of which is in use. */
  ghost predicate Enabled(s: State, ev: Event) {
    match ev
    case Arrive(_, _) => true
    case Advance(i) => i < |s.claims| && !s.claims[i].stage.Done?
    case Create(ks) => forall k :: k in ks && k in s.store.keys ==> !s.store.keys[k].used
  }

  function Next(s: State, ev: Event): State
    requires Enabled(s, ev)
  {
    match ev
    case Arrive(u, k) => s.(claims := s.claims + [Claim(u, k, Start)])
    case Create(ks) => s.(store := Generate(s.store, ks))
    case Advance(i) =>
      var c := s.claims[i];
      match c.stage
      case Start => s.(claims := s.claims[i := ReadUser(s.store, s.enabled, c)])
      case UserChecked => s.(claims := s.claims[i := ReadKey(s.store, c)])
      case KeyRead(_) => var (st, c') := Write(s.store, c); s.(store := st, claims := s.claims[i := c'])
  }

  lemma WriteKeepsOneToOne(st: Store, c: Claim)
    requires OneToOne(st) && c.stage.KeyRead? && Unspent(st, c)
    ensures OneToOne(Write(st, c).0)
  {
    var st' := Write(st, c).0;
    if st' != st {
      assert !st.keys[c.key].used;
      assert st'.keys[c.key].used && st'.keys[c.key].usedBy == c.user;
      forall u | u in st'.users ensures exists k :: k in st'.keys && st'.keys[k].used && st'.keys[k].usedBy == u {
        if u == c.user {
          assert c.key in st'.keys;
        } else {
          var k :| k in st.keys && st.keys[k].used && st.keys[k].usedBy == u;
          assert k in st'.keys && st'.keys[k] == st.keys[k];
        }
      }
    }
  }

  lemma WriteKeepsClaims(st: Store, c: Claim, d: Claim)
    requires c.stage.KeyRead? && ClaimOk(st, d)
    ensures ClaimOk(Write(st, c).0, d)
  {
  }

  /** A batch of keys keeps the correspondence exactly when it does not overwrite a used key. */
  lemma GenerateExact(st: Store, ks: set<Key>)
    requires OneToOne(st)
    ensures OneToOne(Generate(st, ks)) <==> forall k :: k in ks && k in st.keys ==> !st.keys[k].used
  {
    var st' := Generate(st, ks);
    if forall k :: k in ks && k in st.keys ==> !st.keys[k].used {
      forall u | u in st'.users ensures exists k :: k in st'.keys && st'.keys[k].used && st'.keys[k].usedBy == u {
        var k :| k in st.keys && st.keys[k].used && st.keys[k].usedBy == u;
        assert k !in ks && k in st'.keys && st'.keys[k] == st.keys[k];
      }
    } else {
      var k :| k in ks && k in st.keys && st.keys[k].used;
      var u := st.keys[k].usedBy;
      assert u in st'.users;
      forall k' | k' in st'.keys && st'.keys[k'].used ensures st'.keys[k'].usedBy != u {
        assert k' !in ks && k' in st.keys;
      }
    }
  }

  /** Used keys stay used, by the same user; verified users stay verified. */
  ghost predicate Grows(st: Store, st': Store) {
    && st.users <= st'.users
    && forall k :: k in st.keys && st.keys[k].used ==>
         k in st'.keys && st'.keys[k].used && st'.keys[k].usedBy == st.keys[k].usedBy
  }

  lemma WriteKeeps(s: State, i: nat)
    requires StateInv(s) && i < |s.claims| && s.claims[i].stage.KeyRead?
    ensures StateInv(Next(s, Advance(i))) && Grows(s.store, Next(s, Advance(i)).store)
  {
    var c := s.claims[i];
    WriteKeepsOneToOne(s.store, c);
    forall j | 0 <= j < |s.claims| ensures ClaimOk(Write(s.store, c).0, s.claims[j]) {
      WriteKeepsClaims(s.store, c, s.claims[j]);
    }
    hide OneToOne;
  }

  lemma NextKeeps(s: State, ev: Event)
    requires StateInv(s) && Enabled(s, ev)
    ensures StateInv(Next(s, ev)) && Grows(s.store, Next(s, ev).store)
  {
    hide OneToOne;
    match ev
    case Arrive(u, k) =>
    case Create(ks) => GenerateExact(s.store, ks);
    case Advance(i) => if s.claims[i].stage.KeyRead? { WriteKeeps(s, i); }
  }

  /** The storage module, and ClaimKey when nothing interferes: it succeeds exactly for a new user with an unused
      key, and otherwise changes nothing. */
  class NakamaStorage {
    var store: Store
    const enabled: bool

    constructor (store: Store, enabled: bool)
      ensures this.store == store && this.enabled == enabled
    {
      this.store, this.enabled := store, enabled;
    }

    method ClaimKey(user: User, key: Key) returns (o: Outcome)
      requires OneToOne(store)
      modifies this
      ensures OneToOne(store)
      ensures o == Success <==>
              && enabled && user !in old(store).users && key != ""
              && Upper(key) in old(store).keys && !old(store).keys[Upper(key)].used
      ensures o != Success ==> store == old(store) && o != WriteConflict
      ensures o == AlreadyVerified <==> !enabled || user in old(store).users
      ensures o == KeyUsed <==>
              && enabled && user !in old(store).users && key != ""
              && Upper(key) in old(store).keys && old(store).keys[Upper(key)].used
      ensures Capitals(old(store)) ==> Capitals(store)
      ensures Capitals(old(store)) ==>
                (o == Success <==>
                   && enabled && user !in old(store).users && key != ""
                   && exists k :: k in old(store).keys && SameText(key, k) && !old(store).keys[k].used)
      ensures Capitals(old(store)) && o == Success ==>
                forall k :: k in old(store).keys && SameText(key, k) ==>
                  && k in store.keys && store.keys[k].used && store.keys[k].usedBy == user
                  && store.keys - {k} == old(store).keys - {k}
      ensures Capitals(old(store)) ==>
                (o == InvalidKey <==>
                   && enabled && user !in old(store).users
                   && (key == "" || forall k :: k in old(store).keys ==> !SameText(key, k)))
      ensures o == Success ==>
                && store.users == old(store).users + {user}
                && Upper(key) in store.keys && store.keys[Upper(key)].used && store.keys[Upper(key)].usedBy == user
                && store.keys - {Upper(key)} == old(store).keys - {Upper(key)}
    {
      hide OneToOne, SameText, Upper, AllCapital;
      forall k | AllCapital(k) ensures Upper(key) == k <==> SameText(key, k) { UpperFinds(key, k); }
      var c := ReadUser(store, enabled, Claim(user, key, Start));
      if c.stage.Done? {
        return c.stage.outcome;
      }
      c := ReadKey(store, c);
      if c.stage.Done? {
        return c.stage.outcome;
      }
      WriteKeepsOneToOne(store, c);
      var (st, c') := Write(store, c);
      store := st;
      return c'.stage.outcome;
    }
  }

  // ---------------------------------------------------------------- every interleaving

  ghost predicate Run(ss: seq<State>, evs: seq<Event>) {
    && |ss| == |evs| + 1
    && forall i :: 0 <= i < |evs| ==> Enabled(ss[i], evs[i]) && ss[i + 1] == Next(ss[i], evs[i])
  }

  const Empty := Store({}, map[], 1)

  /** A first state: nothing stored, nobody claiming. */
  lemma FirstState(enabled: bool)
    ensures StateInv(State(Empty, [], enabled))
  {
  }

  /** Keys stay without small letters as long as the generated ones are. */
  lemma CapitalsKept(s: State, ev: Event)
    requires Capitals(s.store) && Enabled(s, ev) && (ev.Create? ==> forall k :: k in ev.keys ==> AllCapital(k))
    ensures Capitals(Next(s, ev).store)
  {
    hide AllCapital;
  }

  lemma {:induction false} RunKeeps(ss: seq<State>, evs: seq<Event>, i: nat, j: nat)
    requires Run(ss, evs) && StateInv(ss[0]) && i <= j < |ss|
    ensures StateInv(ss[i]) && StateInv(ss[j]) && Grows(ss[i].store, ss[j].store)
    decreases j
  {
    hide StateInv, Next, Enabled;
    if j > 0 {
      RunKeeps(ss, evs, if i < j then i else j - 1, j - 1);
      NextKeeps(ss[j - 1], evs[j - 1]);
      assert ss[j] == Next(ss[j - 1], evs[j - 1]);
    }
  }

  lemma SuccessMeans(s: State, i: nat)
    requires Enabled(s, Advance(i)) && Next(s, Advance(i)).claims[i].stage == Done(Success)
    ensures var c, st := s.claims[i], Next(s, Advance(i)).store;
            && c.user !in s.store.users && c.key in s.store.keys && (StateInv(s) ==> !s.store.keys[c.key].used)
            && c.user in st.users && c.key in st.keys && st.keys[c.key].used && st.keys[c.key].usedBy == c.user
  {
  }

  /** Whatever the interleaving, no two successful claims share a key or a user. */
  lemma ClaimsAreExclusive(ss: seq<State>, evs: seq<Event>, p: nat, q: nat)
    requires Run(ss, evs) && StateInv(ss[0]) && p < q < |evs|
    requires evs[p].Advance? && ss[p + 1].claims[evs[p].i].stage == Done(Success)
    requires evs[q].Advance? && evs[q].i < |ss[q].claims| && ss[q + 1].claims[evs[q].i].stage == Done(Success)
    ensures OneToOne(ss[q + 1].store)
    ensures ss[p].claims[evs[p].i].user != ss[q].claims[evs[q].i].user
    ensures ss[p].claims[evs[p].i].key != ss[q].claims[evs[q].i].key
  {
    RunKeeps(ss, evs, p + 1, q);
    RunKeeps(ss, evs, q, q + 1);
    hide OneToOne, ClaimOk;
    SuccessMeans(ss[p], evs[p].i);
    SuccessMeans(ss[q], evs[q].i);
  }
}
