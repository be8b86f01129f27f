// What unwrapQObject achieves: which objects come into being, that each is
// unwrapped exactly once and left without wrappers, how every value is read, and
// when this is what registering all objects in advance would have given.
module Unwrapping {
  import opened Wire
  import opened QObjects
  import opened Registry
  import opened Reading

  // Registered ids and live objects correspond one to one.
  ghost predicate Consistent(s: Store) {
    (forall id | id in s.objects ::
       s.objects[id] < |s.heap| && s.heap[s.objects[id]].id == id && s.heap[s.objects[id]].live) &&
    (forall h | 0 <= h < |s.heap| && s.heap[h].live ::
       s.heap[h].id in s.objects && s.objects[s.heap[h].id] == h)
  }

  // ------------------------------------------------------------ who is registered

  // A nested object as constructed, with the client's callback on "destroyed".
  function Newcomer(h: nat, a: Announcement): QObj {
    var raw, members := RawCache(a.data.properties), Members(a.data);
    QObj(a.id, true, raw, members, Watching(h, a.id, members), raw, 0)
  }

  function Watching(h: nat, id: string, members: map<string, SignalRef>): map<nat, seq<Callback>> {
    if "destroyed" in members then map[members["destroyed"].index := [Destroyer(h, id)]] else map[]
  }

  // The object at h is the one announced; all is known of it but what its cache
  // has become.
  ghost predicate Joined(t: Store, h: nat, a: Announcement) {
    h < |t.heap| && a.id in t.objects && t.objects[a.id] == h &&
    t.heap[h] == Newcomer(h, a).(cache := t.heap[h].cache, passes := 1)
  }

  // The news occupy the handles from `base` on, in order.
  ghost predicate AllJoined(t: Store, base: nat, news: seq<Announcement>) {
    forall k | 0 <= k < |news| :: Joined(t, base + k, news[k])
  }

  // The objects of the news, and no others, have joined those of s.
  ghost predicate Enrolled(s: Store, t: Store, news: seq<Announcement>) {
    |t.heap| == |s.heap| + |news| && AllJoined(t, |s.heap|, news) && Registers(s.objects, t.objects, news)
  }

  ghost predicate Registers(a: map<string, nat>, b: map<string, nat>, news: seq<Announcement>) {
    b.Keys == a.Keys + Ids(news) && Grown(a, b)
  }

  lemma JoinedStays(t: Store, u: Store, but: int, h: nat, a: Announcement)
    requires Joined(t, h, a) && Extends(t, u, but)
    ensures Joined(u, h, a)
  {
  }

  lemma AllJoinedAppend(t: Store, u: Store, but: int, base: nat, a: seq<Announcement>, b: seq<Announcement>)
    requires AllJoined(t, base, a) && Extends(t, u, but) && AllJoined(u, base + |a|, b)
    ensures AllJoined(u, base, a + b)
  {
    var c := a + b;
    forall k | 0 <= k < |c| ensures Joined(u, base + k, c[k]) {
      if k < |a| {
        assert Joined(t, base + k, a[k]);
        JoinedStays(t, u, but, base + k, a[k]);
      } else {
        assert Joined(u, base + |a| + (k - |a|), b[k - |a|]);
      }
    }
  }

  lemma EnrolledAppend(s: Store, t: Store, u: Store, a: seq<Announcement>, b: seq<Announcement>)
    requires Enrolled(s, t, a) && Enrolled(t, u, b) && Extends(t, u, -1)
    ensures Enrolled(s, u, a + b)
  {
    RegistersAppend(s.objects, t.objects, u.objects, a, b);
    AllJoinedAppend(t, u, -1, |s.heap|, a, b);
  }

  lemma RegistersAppend(
      s: map<string, nat>, t: map<string, nat>, u: map<string, nat>, a: seq<Announcement>, b: seq<Announcement>)
    requires Registers(s, t, a) && Registers(t, u, b)
    ensures Registers(s, u, a + b)
  {
    IdsAppend(a, b);
  }

  // -------------------------------------------------------- how each object reads

  function Below(objects: map<string, nat>, n: nat): set<string> {
    set id | id in objects && objects[id] < n
  }

  // g has been unwrapped, exactly once, from what its announcement carried, the
  // ids in `known` being registered at the start.
  ghost predicate Settled(s: Store, g: nat, known: set<string>)
    requires g < |s.heap|
  {
    var o := s.heap[g];
    o.live && o.passes == 1 && CleanSlots(o.cache, |s.heap|) &&
    Suffices(s.objects, known, NewsAll(known, Values(o.raw))) &&
    o.cache == ReadSlots(known, s.objects, o.raw)
  }

  // A nested object is unwrapped as soon as it is registered.
  ghost predicate NestedSettled(s: Store, g: nat)
    requires g < |s.heap|
  {
    Settled(s, g, Below(s.objects, g + 1))
  }

  ghost predicate SettledFrom(s: Store, from: nat) {
    forall g: nat | from <= g < |s.heap| :: NestedSettled(s, g)
  }

  // The first n slots have been read, the others are still as announced.
  ghost predicate ReadUpTo(cache: seq<Slot>, raw: seq<Slot>, n: nat, known: set<string>, objects: map<string, nat>) {
    |cache| == |raw| && n <= |raw| &&
    cache[..n] == ReadSlots(known, objects, raw[..n]) && cache[n..] == raw[n..]
  }

  ghost predicate Partly(s: Store, h: nat, n: nat, known: set<string>)
    requires h < |s.heap|
  {
    var o := s.heap[h];
    o.live && ReadUpTo(o.cache, o.raw, n, known, s.objects) && CleanSlots(o.cache[..n], |s.heap|) &&
    Suffices(s.objects, known, NewsAll(known, Values(o.raw[..n])))
  }

  // ------------------------------------------------------------------ monotonicity

  lemma BelowAll(s: Store)
    requires Consistent(s)
    ensures Below(s.objects, |s.heap|) == s.objects.Keys
  {
  }

  // Whatever later holds a handle that s already had was registered in s.
  lemma BelowStable(s: Store, t: Store, but: int, n: nat)
    requires Consistent(s) && Consistent(t) && Extends(s, t, but) && n <= |s.heap|
    ensures Below(t.objects, n) == Below(s.objects, n)
  {
    forall id | id in Below(t.objects, n) ensures id in Below(s.objects, n) {
      var k := t.objects[id];
      assert k < |s.heap| && t.heap[k].id == id && t.heap[k].live;
      assert s.heap[k].id == id && s.heap[k].live;
    }
  }

  lemma SettledGrows(s: Store, t: Store, but: int, g: nat, known: set<string>)
    requires Extends(s, t, but) && g < |s.heap| && t.heap[g] == s.heap[g] && Settled(s, g, known)
    ensures Settled(t, g, known)
  {
    CleanSlotsGrow(s.heap[g].cache, |s.heap|, |t.heap|);
    ReadAllGrows(known, s.objects, t.objects, Values(s.heap[g].raw));
  }

  lemma NestedGrows(s: Store, t: Store, but: int, g: nat)
    requires Consistent(s) && Consistent(t) && Extends(s, t, but)
    requires g < |s.heap| && t.heap[g] == s.heap[g] && NestedSettled(s, g)
    ensures NestedSettled(t, g)
  {
    BelowStable(s, t, but, g + 1);
    SettledGrows(s, t, but, g, Below(s.objects, g + 1));
  }

  lemma SettledFromGrows(s: Store, t: Store, from: nat)
    requires Consistent(s) && Consistent(t) && Extends(s, t, -1)
    requires SettledFrom(s, from) && SettledFrom(t, |s.heap|)
    ensures SettledFrom(t, from)
  {
    forall g: nat | from <= g < |s.heap| ensures NestedSettled(t, g) {
      assert NestedSettled(s, g);
      NestedGrows(s, t, -1, g);
    }
  }

  lemma PartlyGrows(s: Store, t: Store, h: nat, n: nat, known: set<string>)
    requires Extends(s, t, -1) && h < |s.heap| && Partly(s, h, n, known)
    ensures Partly(t, h, n, known)
  {
    var o := s.heap[h];
    CleanSlotsGrow(o.cache[..n], |s.heap|, |t.heap|);
    ReadAllGrows(known, s.objects, t.objects, Values(o.raw[..n]));
  }

  // ------------------------------------------------------------------- single steps

  lemma NewcomerIs(s: Store, a: Announcement)
    ensures WatchDestroyed(NewObject(s, a.id, a.data), |s.heap|).heap == s.heap + [Newcomer(|s.heap|, a)]
  {
    var d := Destroyer(|s.heap|, a.id);
    assert [] + [d] == [d];
    assert forall i: nat :: map[][i := [d]] == map[i := [d]];
  }

  lemma AnnounceOk(s: Store, a: Announcement)
    requires Consistent(s) && a.id !in s.objects
    ensures var t := Announce(s, a.id, a.data); var h := |s.heap|;
      Consistent(t) && t.heap == s.heap + [Newcomer(h, a)] && t.objects == s.objects[a.id := h]
  {
    NewcomerIs(s, a);
    var t := Announce(s, a.id, a.data);
    forall i | i in t.objects
      ensures t.objects[i] < |t.heap| && t.heap[t.objects[i]].id == i && t.heap[t.objects[i]].live
    {
      assert i == a.id || i in s.objects;
    }
  }

  lemma SetSlotOk(s: Store, h: nat, n: nat, v: Value, known: set<string>)
    requires Consistent(s) && h < |s.heap| && Partly(s, h, n, known) && n < |s.heap[h].cache|
    requires Clean(v, |s.heap|)
    requires var raw := s.heap[h].raw;
      v == Read(known + Ids(NewsAll(known, Values(raw[..n]))), s.objects, raw[n].value) &&
      Suffices(s.objects, known, NewsAll(known, Values(raw[..n + 1])))
    ensures var t := SetSlot(s, h, n, v); Consistent(t) && Partly(t, h, n + 1, known)
  {
    ReadOneMore(s.heap[h].cache, s.heap[h].raw, n, v, known, s.objects);
    SetSlotConsistent(s, h, n, v);
  }

  lemma SetSlotConsistent(s: Store, h: nat, n: nat, v: Value)
    requires Consistent(s) && h < |s.heap| && n < |s.heap[h].cache|
    ensures Consistent(SetSlot(s, h, n, v))
  {
  }

  lemma ReadOneMore(p: seq<Slot>, raw: seq<Slot>, n: nat, v: Value, known: set<string>, objects: map<string, nat>)
    requires ReadUpTo(p, raw, n, known, objects) && n < |raw|
    requires v == Read(known + Ids(NewsAll(known, Values(raw[..n]))), objects, raw[n].value)
    ensures var q := p[n := Slot(p[n].index, v)];
      ReadUpTo(q, raw, n + 1, known, objects) && q[..n + 1] == p[..n] + [Slot(raw[n].index, v)]
  {
    ReadSlotsNext(known, objects, raw, n);
    OneSlotMore(p, raw, n, v);
  }

  lemma OneSlotMore(p: seq<Slot>, raw: seq<Slot>, n: nat, v: Value)
    requires n < |p| == |raw| && p[n..] == raw[n..]
    ensures var q := p[n := Slot(p[n].index, v)];
      q[..n + 1] == p[..n] + [Slot(raw[n].index, v)] && q[n + 1..] == raw[n + 1..]
  {
    var q := p[n := Slot(p[n].index, v)];
    assert p[n] == p[n..][0] == raw[n..][0] == raw[n];
    assert q[n + 1..] == p[n..][1..];
    assert raw[n + 1..] == raw[n..][1..];
  }

  lemma EndPassOk(s: Store, h: nat, known: set<string>)
    requires Consistent(s) && h < |s.heap| && s.heap[h].passes == 0
    requires Partly(s, h, |s.heap[h].raw|, known)
    ensures var t := EndPass(s, h);
      Consistent(t) && Settled(t, h, known) &&
      forall g: nat, m | g < |s.heap| && g != h && Settled(s, g, m) :: Settled(t, g, m)
  {
    var o := s.heap[h];
    assert o.raw[..|o.raw|] == o.raw && o.cache[..|o.raw|] == o.cache;
  }

  // --------------------------------------------------------------------- the theorem

  // Unwrapping v has registered what v announces, in order, and settled it.
  ghost predicate Unwrapped(s: Store, t: Store, news: seq<Announcement>) {
    Consistent(t) && SettledFrom(t, |s.heap|) && Enrolled(s, t, news)
  }

  lemma UnwrappedAppend(s: Store, t: Store, u: Store, a: seq<Announcement>, b: seq<Announcement>)
    requires Unwrapped(s, t, a) && Unwrapped(t, u, b) && Extends(t, u, -1)
    ensures Unwrapped(s, u, a + b)
  {
    EnrolledAppend(s, t, u, a, b);
    SettledFromGrows(t, u, |s.heap|);
  }

  // From a consistent registry, unwrapping a host's tree registers exactly the
  // news of the tree, in order, and leaves every new object unwrapped exactly
  // once from what it was announced with, cycles included; the value it yields
  // is the one-pass reading of the tree, with no wrapper left.
  lemma {:induction false} UnwrapOk(s: Store, v: Value)
    requires FromHost(v) && Consistent(s)
    ensures var (t, r) := Unwrap(s, v);
      Unwrapped(s, t, News(s.objects.Keys, v)) &&
      Clean(r, |t.heap|) && r == Read(s.objects.Keys, t.objects, v)
    decreases Size(v), 1
  {
    match v
    case List(elems) => UnwrapAllOk(s, elems);
    case Dict(_, members) => UnwrapAllOk(s, members);
    case Wrapper(id, Some(data)) =>
      if id !in s.objects {
        UnwrapNewOk(s, Announcement(id, data));
      }
    case _ =>
  }

  // An object registers itself before its properties are unwrapped.
  lemma {:induction false} UnwrapNewOk(s: Store, a: Announcement)
    requires a.id !in s.objects && HasDestroyed(a.data) && FromHostData(a.data) && Consistent(s)
    ensures var t := UnwrapNew(s, a.id, a.data);
      Unwrapped(s, t, [a] + NewsAll(s.objects.Keys + {a.id}, Contents(a.data))) &&
      t.objects[a.id] == |s.heap|
    decreases 1 + SizeProperties(a.data.properties), 0
  {
    RawCacheOk(a.data.properties);
    AnnounceOk(s, a);
    var h, s1 := |s.heap|, Announce(s, a.id, a.data);
    var raw := RawCache(a.data.properties);
    assert s1.objects.Keys == s.objects.Keys + {a.id};
    UnwrapSlotsOk(s1, h, raw);
    var s2 := UnwrapSlots(s1, h, raw);
    NewSettled(s, a, s1, s2);
  }

  // Completing one's own unwrapping once the objects met on the way have joined.
  lemma NewEnrolled(s: Store, a: Announcement, s1: Store, s2: Store, rest: seq<Announcement>)
    requires |s1.heap| == |s.heap| + 1 && Extends(s, s1, -1) && Extends(s1, s2, |s.heap|)
    requires s1.heap[|s.heap|] == Newcomer(|s.heap|, a) && s1.objects == s.objects[a.id := |s.heap|]
    requires a.id !in s.objects && Enrolled(s1, s2, rest)
    ensures Enrolled(s, EndPass(s2, |s.heap|), [a] + rest)
  {
    var h := |s.heap|;
    IdsAppend([a], rest);
    assert Ids([a]) == {a.id};
    NewJoined(a, h, s1, s2, rest);
  }

  lemma NewJoined(a: Announcement, h: nat, s1: Store, s2: Store, rest: seq<Announcement>)
    requires |s1.heap| == h + 1 && Extends(s1, s2, h) && s1.heap[h] == Newcomer(h, a)
    requires a.id in s1.objects && s1.objects[a.id] == h && AllJoined(s2, h + 1, rest)
    ensures AllJoined(EndPass(s2, h), h, [a] + rest)
  {
    var t := EndPass(s2, h);
    assert Joined(t, h, a);
    forall k | 0 <= k < |rest| ensures Joined(t, h + 1 + k, rest[k]) {
      assert Joined(s2, h + 1 + k, rest[k]);
    }
    AllJoinedAppend(t, t, -1, h, [a], rest);
  }

  lemma NewSettled(s: Store, a: Announcement, s1: Store, s2: Store)
    requires Consistent(s1) && |s1.heap| == |s.heap| + 1 && Extends(s, s1, -1)
    requires s1.heap[|s.heap|] == Newcomer(|s.heap|, a) && s1.objects == s.objects[a.id := |s.heap|]
    requires a.id !in s.objects
    requires Extends(s1, s2, |s.heap|) && Unwrapped(s1, s2, NewsAll(s1.objects.Keys, Contents(a.data)))
    requires Partly(s2, |s.heap|, |s2.heap[|s.heap|].raw|, s1.objects.Keys)
    ensures Unwrapped(s, EndPass(s2, |s.heap|), [a] + NewsAll(s1.objects.Keys, Contents(a.data)))
  {
    var h, t := |s.heap|, EndPass(s2, |s.heap|);
    NewEnrolled(s, a, s1, s2, NewsAll(s1.objects.Keys, Contents(a.data)));
    BelowAll(s1);
    BelowStable(s1, s2, h, h + 1);
    EndPassOk(s2, h, s1.objects.Keys);
    forall g: nat | h <= g < |t.heap| ensures NestedSettled(t, g) {
      if g > h { assert NestedSettled(s2, g); }
    }
  }

  lemma {:induction false} UnwrapAllOk(s: Store, vs: seq<Value>)
    requires (forall v | v in vs :: FromHost(v)) && Consistent(s)
    ensures var (t, rs) := UnwrapAll(s, vs);
      Unwrapped(s, t, NewsAll(s.objects.Keys, vs)) &&
      (forall r | r in rs :: Clean(r, |t.heap|)) && rs == ReadAll(s.objects.Keys, t.objects, vs)
    decreases SizeAll(vs), 2, |vs|
  {
    if vs != [] {
      var n := |vs| - 1;
      assert vs[n] in vs;
      UnwrapAllOk(s, vs[..n]);
      var (s1, out) := UnwrapAll(s, vs[..n]);
      UnwrapOk(s1, vs[n]);
      var (s2, last) := Unwrap(s1, vs[n]);
      var news := NewsAll(s.objects.Keys, vs[..n]);
      UnwrappedAppend(s, s1, s2, news, News(s1.objects.Keys, vs[n]));
      ReadAllGrows(s.objects.Keys, s1.objects, s2.objects, vs[..n]);
      forall r | r in out ensures Clean(r, |s2.heap|) { CleanGrows(r, |s1.heap|, |s2.heap|); }
    }
  }

  lemma {:induction false} UnwrapSlotsOk(s: Store, h: nat, raw: seq<Slot>)
    requires h < |s.heap| && |raw| <= |s.heap[h].cache| && FromHostSlots(raw) && Consistent(s)
    requires s.heap[h].live && s.heap[h].cache == s.heap[h].raw && raw == s.heap[h].raw[..|raw|]
    ensures var t := UnwrapSlots(s, h, raw);
      Unwrapped(s, t, NewsAll(s.objects.Keys, Values(raw))) && Partly(t, h, |raw|, s.objects.Keys)
    decreases SizeSlots(raw), 2, |raw|
  {
    if raw != [] {
      var n, known := |raw| - 1, s.objects.Keys;
      assert raw[n] in raw;
      UnwrapSlotsOk(s, h, raw[..n]);
      var s1 := UnwrapSlots(s, h, raw[..n]);
      UnwrapOk(s1, raw[n].value);
      var (s2, v) := Unwrap(s1, raw[n].value);
      var a, b := NewsAll(known, Values(raw[..n])), News(s1.objects.Keys, raw[n].value);
      SlotUnwrapped(s, s1, s2, h, n, v, a, b);
      NewsAllNext(known, raw);
      SlotRead(s1, s2, h, raw, v, known);
    }
  }

  lemma SlotUnwrapped(
      s: Store, s1: Store, s2: Store, h: nat, n: nat, v: Value, a: seq<Announcement>, b: seq<Announcement>)
    requires h < |s.heap| && n < |s.heap[h].cache| && Extends(s, s1, h) && Extends(s1, s2, -1)
    requires Unwrapped(s, s1, a) && Unwrapped(s1, s2, b)
    ensures Unwrapped(s, SetSlot(s2, h, n, v), a + b)
    ensures s1.objects.Keys == s.objects.Keys + Ids(a) && Suffices(s2.objects, s.objects.Keys, a + b)
  {
    UnwrappedAppend(s, s1, s2, a, b);
    SlotKeepsUnwrapped(s, s2, h, n, v, a + b);
  }

  lemma SlotRead(s1: Store, s2: Store, h: nat, raw: seq<Slot>, v: Value, known: set<string>)
    requires raw != [] && h < |s1.heap| && Extends(s1, s2, -1) && Consistent(s2)
    requires |raw| <= |s1.heap[h].raw| && raw == s1.heap[h].raw[..|raw|]
    requires Partly(s1, h, |raw| - 1, known) && Clean(v, |s2.heap|)
    requires v == Read(known + Ids(NewsAll(known, Values(raw[..|raw| - 1]))), s2.objects, raw[|raw| - 1].value)
    requires Suffices(s2.objects, known, NewsAll(known, Values(raw)))
    ensures Partly(SetSlot(s2, h, |raw| - 1, v), h, |raw|, known)
  {
    var n, mine := |raw| - 1, s1.heap[h].raw;
    assert mine[..n] == raw[..n] && mine[..n + 1] == raw && mine[n] == raw[n];
    PartlyGrows(s1, s2, h, n, known);
    SetSlotOk(s2, h, n, v, known);
  }

  lemma SlotKeepsUnwrapped(s: Store, t: Store, h: nat, i: nat, v: Value, news: seq<Announcement>)
    requires h < |s.heap| <= |t.heap| && i < |t.heap[h].cache| && Unwrapped(s, t, news)
    ensures Unwrapped(s, SetSlot(t, h, i, v), news)
  {
    var u := SetSlot(t, h, i, v);
    forall g: nat | |s.heap| <= g < |u.heap| ensures NestedSettled(u, g) {
      assert NestedSettled(t, g) && u.heap[g] == t.heap[g];
    }
    assert Extends(t, u, h);
    AllJoinedAppend(t, u, h, |s.heap|, news, []);
    assert news + [] == news;
  }

  // Without reference to any order: lists and dictionaries keep their shape, what is no
  // wrapper stays as it is, and each wrapper with data has become the one object
  // registered under its id; so has one without, or it is undefined.  That goes for the
  // value itself, and for every slot of every new object.
  lemma UnwrapStands(s: Store, v: Value)
    requires FromHost(v) && Consistent(s)
    ensures var (t, r) := Unwrap(s, v);
      Stands(t.objects, v, r) &&
      forall h: nat | |s.heap| <= h < |t.heap| :: SlotsStand(t.objects, t.heap[h].raw, t.heap[h].cache)
  {
    UnwrapOk(s, v);
    var t := Unwrap(s, v).0;
    ReadStands(s.objects.Keys, t.objects, v);
    forall h: nat | |s.heap| <= h < |t.heap| ensures SlotsStand(t.objects, t.heap[h].raw, t.heap[h].cache) {
      assert NestedSettled(t, h);
      ReadSlotsStand(Below(t.objects, h + 1), t.objects, t.heap[h].raw);
    }
  }

  // ------------------------------------------------------------ interning over time

  lemma {:induction false} AnnouncedIsLookup(s: Store, v: Value)
    requires FromHost(v) && Announced(s.objects, v)
    ensures Unwrap(s, v) == (s, Subst(s.objects, v))
    decreases Size(v), 1
  {
    match v
    case List(elems) => AnnouncedAllIsLookup(s, elems);
    case Dict(_, members) => AnnouncedAllIsLookup(s, members);
    case _ =>
  }

  lemma {:induction false} AnnouncedAllIsLookup(s: Store, vs: seq<Value>)
    requires forall v | v in vs :: FromHost(v) && Announced(s.objects, v)
    ensures UnwrapAll(s, vs) == (s, SubstAll(s.objects, vs))
    decreases SizeAll(vs), 2, |vs|
  {
    if vs != [] {
      var n := |vs| - 1;
      assert vs[n] in vs;
      AnnouncedAllIsLookup(s, vs[..n]);
      AnnouncedIsLookup(s, vs[n]);
    }
  }

  // Receiving a tree creates nothing, and changes nothing, exactly if every id it
  // announces is registered.
  lemma CreatesNothingExactly(s: Store, v: Value)
    requires FromHost(v) && Consistent(s)
    ensures Unwrap(s, v).0 == s <==> Announced(s.objects, v)
  {
    UnwrapOk(s, v);
    NoNewsIsAnnounced(s.objects, v);
    if Announced(s.objects, v) {
      AnnouncedIsLookup(s, v);
    }
  }

  // Whatever has arrived in between, as long as the ids the tree names are bound
  // as they were: receiving it again creates nothing and changes nothing, and it
  // reads as the first time exactly if no mention was missed then.
  lemma SecondUnwrapCreatesNothing(s: Store, v: Value, later: Store)
    requires FromHost(v) && Consistent(s)
    requires StillBound(Unwrap(s, v).0.objects, later.objects, Named(v))
    ensures Unwrap(later, v) == (later, Subst(later.objects, v))
    ensures Unwrap(later, v).1 == Unwrap(s, v).1 <==> InOrder(s.objects.Keys, later.objects.Keys, v)
  {
    UnwrapOk(s, v);
    var t := Unwrap(s, v).0;
    SufficedIsAnnounced(s.objects.Keys, t.objects, later.objects, v);
    AnnouncedIsLookup(later, v);
    ReadIsSubst(s.objects.Keys, t.objects, later.objects, v);
  }
}
