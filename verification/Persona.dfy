/** Persona tags (cardinal/plugin_persona.go): an in-memory index over the stored signer components. */
module Persona {
  import opened Base
  import opened Storage

  datatype Signer = Signer(tag: string, address: string, authorized: seq<string>)

  datatype IndexEntry = IndexEntry(address: string, entity: EntityId)

  type Index = map<string, IndexEntry>

  function LowerChar(c: char): char {
    if 'A' <= c <= 'Z' then c + ' ' else c  // ' ' is 32, the distance between the cases
  }

  function Lower(s: string): string {
    seq(|s|, i requires 0 <= i < |s| => LowerChar(s[i]))
  }

  predicate TagChar(c: char) {
    'a' <= c <= 'z' || 'A' <= c <= 'Z' || '0' <= c <= '9' || c == '_'
  }

  /** IsValidPersonaTag: 3 to 16 letters, digits and underscores. */
  predicate ValidTag(s: string) {
    3 <= |s| <= 16 && forall i :: 0 <= i < |s| ==> TagChar(s[i])
  }

  function Unspaced(s: string): string {
    if s == "" then "" else if s[0] == ' ' then Unspaced(s[1..]) else [s[0]] + Unspaced(s[1..])
  }

  predicate HexDigits(s: string) {
    forall i :: 0 <= i < |s| ==> '0' <= s[i] <= '9' || 'a' <= s[i] <= 'f' || 'A' <= s[i] <= 'F'
  }

  /** An optional 0x and forty hexadecimal digits. */
  predicate HexAddress(s: string) {
    var digits := if |s| >= 2 && s[0] == '0' && (s[1] == 'x' || s[1] == 'X') then s[2..] else s;
    |digits| == 40 && HexDigits(digits)
  }

  /** Two tags have the same index key if and only if they agree letter by letter up to case. */
  lemma LowerSame(s: string, t: string)
    ensures Lower(s) == Lower(t) <==> SameText(s, t)
  {
    forall a: char, b: char ensures LowerChar(a) == LowerChar(b) <==> SameLetter(a, b) { }
    if Lower(s) == Lower(t) {
      assert |s| == |Lower(s)| == |t|;
      forall i | 0 <= i < |s| ensures SameLetter(s[i], t[i]) {
        assert Lower(s)[i] == LowerChar(s[i]) && Lower(t)[i] == LowerChar(t[i]);
      }
    }
  }

  /** The index key of a tag is the tag itself in small letters. */
  lemma LowerIs(s: string)
    ensures SameText(s, Lower(s)) && forall i :: 0 <= i < |Lower(s)| ==> !Capital(Lower(s)[i])
  {
  }

  lemma LowerSames()
    ensures forall s, t :: Lower(s) == Lower(t) <==> SameText(s, t)
  {
    hide Lower, SameText;
    forall s, t ensures Lower(s) == Lower(t) <==> SameText(s, t) { LowerSame(s, t); }
  }

  /** What is left of a text without its spaces, said piece by piece. */
  lemma {:induction false} UnspacedExact(a: string, b: string)
    ensures Unspaced(a + b) == Unspaced(a) + Unspaced(b)
    ensures Unspaced(" ") == "" && forall c :: c != ' ' ==> Unspaced([c]) == [c]
  {
    assert Unspaced([]) == [];
    if a == [] {
      assert a + b == b;
    } else {
      assert (a + b)[1..] == a[1..] + b;
      UnspacedExact(a[1..], b);
    }
  }

  /** Forty hexadecimal digits, bare or after 0x. */
  lemma HexAddressExact(s: string)
    ensures HexAddress(s) <==>
            || (|s| == 40 && forall i :: 0 <= i < 40 ==> s[i] in "0123456789abcdefABCDEF")
            || (|s| == 42 && s[0] == '0' && s[1] in "xX"
                && forall i :: 2 <= i < 42 ==> s[i] in "0123456789abcdefABCDEF")
  {
    forall c: char ensures c in "0123456789abcdefABCDEF" <==> '0' <= c <= '9' || 'a' <= c <= 'f' || 'A' <= c <= 'F' {
      HexDigit(c);
    }
    var prefixed := |s| >= 2 && s[0] == '0' && (s[1] == 'x' || s[1] == 'X');
    if prefixed {
      assert s[1] !in "0123456789abcdefABCDEF";
      assert forall i :: 0 <= i < |s[2..]| ==> s[2..][i] == s[i + 2];
      if |s| == 42 && forall i :: 2 <= i < 42 ==> s[i] in "0123456789abcdefABCDEF" { assert HexDigits(s[2..]); }
      if HexAddress(s) {
        forall i | 2 <= i < 42 ensures s[i] in "0123456789abcdefABCDEF" { assert s[2..][i - 2] == s[i]; }
      }
    }
  }

  lemma HexDigit(c: char)
    ensures c in "0123456789abcdefABCDEF" <==> '0' <= c <= '9' || 'a' <= c <= 'f' || 'A' <= c <= 'F'
  {
    var digits := "0123456789abcdefABCDEF";
    if '0' <= c <= '9' { assert digits[c as int - '0' as int] == c; }
    if 'a' <= c <= 'f' { assert digits[c as int - 'a' as int + 10] == c; }
    if 'A' <= c <= 'F' { assert digits[c as int - 'A' as int + 16] == c; }
  }

  type Signers = map<EntityId, Signer>

  /** No two personas have tags that differ only in letter case. */
  ghost predicate TagsUnique(signers: Signers) {
    forall a, b :: a in signers && b in signers && SameText(signers[a].tag, signers[b].tag) ==> a == b
  }

  /** The index is exactly what the stored components of the entities in `ids` say. */
  ghost predicate Indexes(index: Index, signers: Signers, ids: set<EntityId>)
    requires ids <= signers.Keys
  {
    && (forall id :: id in ids ==>
          Lower(signers[id].tag) in index && index[Lower(signers[id].tag)] == IndexEntry(signers[id].address, id))
    && (forall k :: k in index ==> index[k].entity in ids && Lower(signers[index[k].entity].tag) == k)
  }

  /** The index is exactly what the stored components say. */
  ghost predicate IndexOk(index: Index, signers: Signers) {
    Indexes(index, signers, signers.Keys)
  }

  lemma IndexOne(index: Index, signers: Signers, ids: set<EntityId>, id: EntityId)
    requires ids <= signers.Keys && id in signers && TagsUnique(signers) && Indexes(index, signers, ids)
    ensures Indexes(index[Lower(signers[id].tag) := IndexEntry(signers[id].address, id)], signers, ids + {id})
  {
    hide Lower, SameText;
    LowerSames();
  }

  /** The index is determined by the components, whatever order they are read in. */
  lemma IndexUnique(a: Index, b: Index, signers: Signers)
    requires IndexOk(a, signers) && IndexOk(b, signers)
    ensures a == b
  {
    forall k ensures k in a <==> k in b ensures k in a ==> a[k] == b[k] {
      if k in a { var id := a[k].entity; assert id in signers && Lower(signers[id].tag) in b; }
      if k in b { var id := b[k].entity; assert id in signers && Lower(signers[id].tag) in a; }
    }
  }

  // ---------------------------------------------------------------- the systems, on values

  datatype PersonaError = InvalidTag | TagTaken | NoSuchPersona | InvalidAddress

  /** The stored signer components with the next entity id, and the plugin's globals. */
  datatype State = State(
    signers: Signers,
    nextId: EntityId,
    index: Option<Index>,  // globalPersonaTagToAddressIndex; None before it is built
    indexTick: nat
  )

  /** One create-persona message. */
  function Create(p: State, tag: string, address: string): (State, Result<EntityId, PersonaError>)
    requires p.index.Some?
  {
    if !ValidTag(tag) then (p, Err(InvalidTag))
    else if Lower(tag) in p.index.value then (p, Err(TagTaken))
    else (State(p.signers[p.nextId := Signer(tag, address, [])], p.nextId + 1,
                Some(p.index.value[Lower(tag) := IndexEntry(address, p.nextId)]), p.indexTick), Ok(p.nextId))
  }

  function WithAddress(s: Signer, address: string): Signer {
    if address in s.authorized then s else s.(authorized := s.authorized + [address])
  }

  /** One authorize-persona-address message, from the persona `tag`. */
  function Authorize(p: State, tag: string, address: string): (State, Result<(), PersonaError>)
    requires p.index.Some?
  {
    var addr := Unspaced(Lower(address));
    if Lower(tag) !in p.index.value then (p, Err(NoSuchPersona))
    else if !HexAddress(addr) then (p, Err(InvalidAddress))
    else
      var id := p.index.value[Lower(tag)].entity;
      if id !in p.signers then (p, Err(NoSuchPersona))
      else (p.(signers := p.signers[id := WithAddress(p.signers[id], addr)]), Ok(()))
  }

  /** The signer entities in the order the search yields them. */
  ghost predicate Enumerates(order: seq<EntityId>, signers: Signers) {
    forall id :: id in order <==> id in signers
  }

  function IndexFrom(signers: Signers, order: seq<EntityId>): Index
    requires forall id :: id in order ==> id in signers
  {
    if order == [] then map[]
    else
      var id := order[|order| - 1];
      IndexFrom(signers, order[..|order| - 1])[Lower(signers[id].tag) := IndexEntry(signers[id].address, id)]
  }

  /** buildGlobalPersonaIndex: rebuild unless it was built on an earlier tick. */
  function Build(p: State, tick: nat, order: seq<EntityId>): State
    requires forall id :: id in order ==> id in p.signers
  {
    if p.index.Some? && p.indexTick < tick then p
    else p.(index := Some(IndexFrom(p.signers, order)), indexTick := tick)
  }

  // ---------------------------------------------------------------- one step

  /** No address is authorized twice for one persona. */
  ghost predicate NoRepeats(signers: Signers) {
    forall id :: id in signers ==> NoDup(signers[id].authorized)
  }

  /** Tags differ up to case, no list of addresses repeats one, ids are below the counter, and an index that exists is
      the derived one. */
  ghost predicate Consistent(p: State) {
    && TagsUnique(p.signers) && NoRepeats(p.signers) && (forall id :: id in p.signers ==> id < p.nextId)
    && (p.index.Some? ==> IndexOk(p.index.value, p.signers))
  }

  /** Tags and signers are fixed for good; only authorizations are added. */
  ghost predicate Extends(s: Signers, s': Signers) {
    forall id :: id in s ==>
      id in s' && s'[id].tag == s[id].tag && s'[id].address == s[id].address && s[id].authorized <= s'[id].authorized
  }

  ghost predicate HasPersona(signers: Signers, tag: string) {
    exists id :: id in signers && SameText(signers[id].tag, tag)
  }

  lemma IndexFinds(index: Index, signers: Signers, tag: string)
    requires IndexOk(index, signers)
    ensures Lower(tag) in index <==> HasPersona(signers, tag)
  {
    hide Lower, SameText;
    LowerSames();
    if Lower(tag) in index {
      assert SameText(signers[index[Lower(tag)].entity].tag, tag);
    }
  }

  lemma NewSigner(index: Index, signers: Signers, id: EntityId, s: Signer)
    requires IndexOk(index, signers) && TagsUnique(signers) && id !in signers && !HasPersona(signers, s.tag)
    ensures var signers' := signers[id := s];
            && TagsUnique(signers') && Extends(signers, signers')
            && IndexOk(index[Lower(s.tag) := IndexEntry(s.address, id)], signers')
  {
    hide Lower, SameText;
    var signers' := signers[id := s];
    assert TagsUnique(signers') by { LowerSames(); }
    assert Indexes(index, signers', signers.Keys);
    IndexOne(index, signers', signers.Keys, id);
    assert signers'.Keys == signers.Keys + {id};
  }

  /** A message is judged by the stored components: a persona is created if and only if the tag is well formed and no
      stored tag equals it up to case. */
  lemma CreateExact(p: State, tag: string, address: string)
    requires p.index.Some? && Consistent(p)
    ensures var (p', r) := Create(p, tag, address);
            && Consistent(p') && p'.index.Some? && Extends(p.signers, p'.signers)
            && (r.Ok? <==>
                  && 3 <= |tag| <= 16
                  && (forall i :: 0 <= i < |tag| ==>
                        'a' <= tag[i] <= 'z' || 'A' <= tag[i] <= 'Z' || '0' <= tag[i] <= '9' || tag[i] == '_')
                  && forall id :: id in p.signers ==> !SameText(p.signers[id].tag, tag))
            && (r.Ok? ==> r.value !in p.signers && p'.signers == p.signers[r.value := Signer(tag, address, [])])
            && (r.Err? ==> p' == p && r.error == if ValidTag(tag) then TagTaken else InvalidTag)
  {
    hide Lower, TagsUnique, Indexes, SameText;
    IndexFinds(p.index.value, p.signers, tag);
    if !HasPersona(p.signers, tag) {
      NewSigner(p.index.value, p.signers, p.nextId, Signer(tag, address, []));
    }
  }

  lemma AddressAdded(index: Index, signers: Signers, id: EntityId, addr: string)
    requires IndexOk(index, signers) && TagsUnique(signers) && id in signers
    ensures var signers' := signers[id := WithAddress(signers[id], addr)];
            && IndexOk(index, signers') && TagsUnique(signers') && Extends(signers, signers')
            && signers'.Keys == signers.Keys
  {
    hide Lower, SameText;
  }

  /** An address is authorized for the persona with that tag up to case, and for no other. */
  lemma AuthorizeExact(p: State, tag: string, address: string)
    requires p.index.Some? && Consistent(p)
    ensures var (p', r) := Authorize(p, tag, address);
            var addr := Unspaced(Lower(address));
            && Consistent(p') && p'.index.Some? && Extends(p.signers, p'.signers) && p'.signers.Keys == p.signers.Keys
            && (r.Ok? <==> HasPersona(p.signers, tag) && HexAddress(addr))
            && (r.Err? ==> p' == p && r.error == if HasPersona(p.signers, tag) then InvalidAddress else NoSuchPersona)
            && (r.Ok? ==> forall id :: id in p.signers ==>
                  if SameText(p.signers[id].tag, tag) then Authorized(p.signers[id], p'.signers[id], addr)
                  else p'.signers[id] == p.signers[id])
  {
    hide Lower, HexAddress, Unspaced, HasPersona, SameText, NoDup, WithAddress;
    IndexFinds(p.index.value, p.signers, tag);
    if Lower(tag) in p.index.value {
      var id, addr := p.index.value[Lower(tag)].entity, Unspaced(Lower(address));
      WithAddressExact(p.signers[id], addr);
      AddressAdded(p.index.value, p.signers, id, addr);
      assert SameText(p.signers[id].tag, tag) by { LowerSames(); }
      assert forall x :: x in p.signers && SameText(p.signers[x].tag, tag) ==> x == id by { LowerSames(); }
    }
  }

  /** The list holds the old addresses and this one: it is the old list if the address was there, and the old list
      followed by it otherwise. Nothing else changes. */
  ghost predicate Authorized(s: Signer, s': Signer, addr: string) {
    && s'.tag == s.tag && s'.address == s.address
    && (forall a :: a in s'.authorized <==> a in s.authorized || a == addr)
    && s'.authorized == if addr in s.authorized then s.authorized else s.authorized + [addr]
  }

  lemma WithAddressExact(s: Signer, addr: string)
    requires NoDup(s.authorized)
    ensures Authorized(s, WithAddress(s, addr), addr) && NoDup(WithAddress(s, addr).authorized)
  {
    if addr !in s.authorized { NoDupAppend(s.authorized, addr); }
  }

  lemma {:induction false} IndexFromIndexes(signers: Signers, order: seq<EntityId>)
    requires TagsUnique(signers) && forall id :: id in order ==> id in signers
    ensures Indexes(IndexFrom(signers, order), signers, Elems(order))
  {
    if order != [] {
      hide Lower, Indexes, TagsUnique;
      var init, id := order[..|order| - 1], order[|order| - 1];
      IndexFromIndexes(signers, init);
      IndexOne(IndexFrom(signers, init), signers, Elems(init), id);
      assert order == init + [id];
      assert Elems(order) == Elems(init) + {id};
    }
  }

  /** A rebuild gives the derived index, whatever order the search yields the entities in. It happens without an index
      or with one built on this tick or a later one, and is marked with this tick. */
  lemma BuildExact(p: State, tick: nat, order: seq<EntityId>)
    requires Consistent(p) && Enumerates(order, p.signers)
    ensures var p' := Build(p, tick, order);
            && p'.index.Some? && IndexOk(p'.index.value, p.signers) && Consistent(p') && p'.signers == p.signers
            && (p.index.Some? && p.indexTick < tick ==> p' == p)
            && (p.index.None? || p.indexTick >= tick ==> p' == p.(index := p'.index, indexTick := tick))
  {
    hide Lower;
    IndexFromIndexes(p.signers, order);
    assert Elems(order) == p.signers.Keys;
  }

  // ---------------------------------------------------------------- runs

  /** The live plugin, and the signer components as of the last finalized tick. */
  datatype World = World(live: State, saved: Signers, savedNext: EntityId)

  datatype Event =
    | Rebuild(tick: nat, order: seq<EntityId>)
    | CreateMsg(tag: string, address: string)
    | AuthorizeMsg(persona: string, addr: string)
    | Finalize
    | Crash  // and restart: components as saved, no index

  ghost predicate Step(w: World, e: Event, w': World) {
    match e
    case Rebuild(tick, order) => Enumerates(order, w.live.signers) && w' == w.(live := Build(w.live, tick, order))
    case CreateMsg(tag, address) => w.live.index.Some? && w' == w.(live := Create(w.live, tag, address).0)
    case AuthorizeMsg(persona, addr) => w.live.index.Some? && w' == w.(live := Authorize(w.live, persona, addr).0)
    case Finalize => w' == w.(saved := w.live.signers, savedNext := w.live.nextId)
    case Crash => w' == w.(live := State(w.saved, w.savedNext, None, 0))
  }

  ghost predicate Run(ws: seq<World>, es: seq<Event>) {
    |ws| == |es| + 1 && forall i {:trigger es[i]} :: 0 <= i < |es| ==> Step(ws[i], es[i], ws[i + 1])
  }

  ghost predicate WorldOk(w: World) {
    Consistent(w.live) && Consistent(State(w.saved, w.savedNext, None, 0)) && Extends(w.saved, w.live.signers)
  }

  lemma StepKeeps(w: World, e: Event, w': World)
    requires WorldOk(w) && Step(w, e, w')
    ensures WorldOk(w') && Extends(w.saved, w'.saved)
    ensures e != Crash ==> Extends(w.live.signers, w'.live.signers)
  {
    hide Create, Authorize, Build, TagsUnique, Indexes, Enumerates, NoRepeats, Authorized, SameText;
    match e
    case Rebuild(tick, order) => BuildExact(w.live, tick, order);
    case CreateMsg(tag, address) => CreateExact(w.live, tag, address);
    case AuthorizeMsg(persona, addr) => AuthorizeExact(w.live, persona, addr);
    case Finalize =>
    case Crash =>
  }

  lemma {:induction false} RunKeeps(ws: seq<World>, es: seq<Event>)
    requires Run(ws, es) && WorldOk(ws[0])
    ensures WorldOk(ws[|es|]) && Extends(ws[0].saved, ws[|es|].saved)
    ensures Crash !in es ==> Extends(ws[0].live.signers, ws[|es|].live.signers)
    decreases |es|
  {
    hide WorldOk, Step;
    if es != [] {
      var last := |es| - 1;
      RunKeeps(ws[..|es|], es[..last]);
      assert Step(ws[last], es[last], ws[last + 1]);
      StepKeeps(ws[last], es[last], ws[last + 1]);
    }
  }

  const Fresh := World(State(map[], 0, None, 0), map[], 0)

  /** After every message of every tick, every rebuild, commit and crash: an index that exists is the one and only index
      of the stored components, and no two tags agree up to case. */
  lemma IndexAlwaysDerived(ws: seq<World>, es: seq<Event>)
    requires Run(ws, es) && ws[0] == Fresh
    ensures var p := ws[|es|].live;
            && TagsUnique(p.signers) && NoRepeats(p.signers)
            && (p.index.Some? ==> IndexOk(p.index.value, p.signers))
            && (p.index.Some? ==> forall index :: IndexOk(index, p.signers) ==> index == p.index.value)
  {
    RunKeeps(ws, es);
    var p := ws[|es|].live;
    if p.index.Some? {
      forall index | IndexOk(index, p.signers) ensures index == p.index.value {
        IndexUnique(index, p.index.value, p.signers);
      }
    }
  }

  /** A tag's signer never changes once its persona is saved: at any later point of any run, whoever holds the tag up
      to case is the same entity with the same signer address. Without a crash the same holds from the message on. */
  lemma SignerNeverChanges(ws: seq<World>, es: seq<Event>, m: nat, a: EntityId, b: EntityId)
    requires Run(ws, es) && ws[0] == Fresh && m <= |es|
    requires a in ws[m].saved || (a in ws[m].live.signers && Crash !in es[m..])
    requires b in ws[|es|].live.signers
    ensures a in ws[|es|].live.signers
    ensures var s := if a in ws[m].saved then ws[m].saved[a] else ws[m].live.signers[a];
            && ws[|es|].live.signers[a].address == s.address
            && (SameText(ws[|es|].live.signers[b].tag, s.tag) ==> b == a)
  {
    hide Lower, Step;
    assert Run(ws[..m + 1], es[..m]);
    RunKeeps(ws[..m + 1], es[..m]);
    assert Run(ws[m..], es[m..]) by {
      forall i | 0 <= i < |es[m..]| ensures Step(ws[m..][i], es[m..][i], ws[m..][i + 1]) {
        assert es[m..][i] == es[m + i];
      }
    }
    RunKeeps(ws[m..], es[m..]);
  }

  // ---------------------------------------------------------------- the plugin

  class PersonaPlugin {
    var signers: Signers
    var nextId: EntityId
    var index: Option<Index>
    var indexTick: nat

    function Now(): State
      reads this
    {
      State(signers, nextId, index, indexTick)
    }

    constructor ()
      ensures Now() == Fresh.live
    {
      signers, nextId, index, indexTick := map[], 0, None, 0;
    }

    /** buildGlobalPersonaIndex; `order` is what the search for signer components yields. */
    method BuildIndex(tick: nat, order: seq<EntityId>)
      requires forall id :: id in order ==> id in signers
      modifies this`index, this`indexTick
      ensures Now() == Build(old(Now()), tick, order)
    {
      hide Lower;
      if index.Some? && indexTick < tick {
        return;
      }
      indexTick := tick;
      var built: Index := map[];
      for i := 0 to |order|
        invariant built == IndexFrom(signers, order[..i])
      {
        var sc := signers[order[i]];
        assert order[..i + 1][..i] == order[..i];
        built := built[Lower(sc.tag) := IndexEntry(sc.address, order[i])];
      }
      assert order[..|order|] == order;
      index := Some(built);
    }

    /** One message of createPersonaSystem. */
    method CreatePersona(tag: string, address: string) returns (r: Result<EntityId, PersonaError>)
      requires index.Some?
      modifies this
      ensures (Now(), r) == Create(old(Now()), tag, address)
    {
      hide Lower, ValidTag;
      if !ValidTag(tag) {
        return Err(InvalidTag);
      }
      var lower := Lower(tag);
      if lower in index.value {
        return Err(TagTaken);
      }
      var id := nextId;
      nextId := nextId + 1;
      signers := signers[id := Signer(tag, address, [])];
      index := Some(index.value[lower := IndexEntry(address, id)]);
      return Ok(id);
    }

    /** One message of authorizePersonaAddressSystem. */
    method AuthorizeAddress(tag: string, address: string) returns (r: Result<(), PersonaError>)
      requires index.Some?
      modifies this`signers
      ensures (Now(), r) == Authorize(old(Now()), tag, address)
    {
      hide Lower, HexAddress, Unspaced;
      var lower := Lower(tag);
      if lower !in index.value {
        return Err(NoSuchPersona);
      }
      var addr := Unspaced(Lower(address));
      if !HexAddress(addr) {
        return Err(InvalidAddress);
      }
      var id := index.value[lower].entity;
      if id !in signers {
        return Err(NoSuchPersona);
      }
      var s, known := signers[id], false;
      for i := 0 to |s.authorized|
        invariant known <==> addr in s.authorized[..i]
      {
        assert s.authorized[..i + 1] == s.authorized[..i] + [s.authorized[i]];
        if s.authorized[i] == addr { known := true; }
      }
      assert s.authorized[..|s.authorized|] == s.authorized;
      signers := signers[id := if known then s else s.(authorized := s.authorized + [addr])];
      return Ok(());
    }
  }
}
