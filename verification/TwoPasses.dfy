// Registering all objects first and resolving references afterwards, as the
// reference for unwrapping, which does both at once.
module TwoPasses {
  import opened Wire
  import opened QObjects
  import opened Registry
  import opened Reading
  import opened Unwrapping

  function Bind(objects: map<string, nat>, base: nat, news: seq<Announcement>): map<string, nat> {
    if news == [] then objects
    else Bind(objects, base, news[..|news| - 1])[news[|news| - 1].id := base + |news| - 1]
  }

  function Newcomers(base: nat, news: seq<Announcement>): seq<QObj> {
    seq(|news|, k requires 0 <= k < |news| => Newcomer(base + k, news[k]))
  }

  // Pass one: register all that is news, its properties still as announced.
  function Enrol(s: Store, news: seq<Announcement>): Store {
    Store(Bind(s.objects, |s.heap|, news), s.heap + Newcomers(|s.heap|, news))
  }

  function Filled(objects: map<string, nat>, o: QObj): QObj {
    o.(cache := SubstSlots(objects, o.raw), passes := 1)
  }

  // Pass two: put references in place of wrappers in every new cache.
  function Fill(t: Store, from: nat): Store {
    t.(heap := seq(|t.heap|, h requires 0 <= h < |t.heap| =>
      if h < from then t.heap[h] else Filled(t.objects, t.heap[h])))
  }

  function TwoPass(s: Store, v: Value): (Store, Value) {
    var t := Enrol(s, News(s.objects.Keys, v));
    (Fill(t, |s.heap|), Subst(t.objects, v))
  }

  // What the object announced k-th knows when its properties are unwrapped.
  function KnownTo(known: set<string>, news: seq<Announcement>, k: nat): set<string>
    requires k < |news|
  {
    known + Ids(news[..k + 1])
  }

  // The data of each announcement is in order, read with what is known by then.
  predicate CachesInOrder(known: set<string>, after: set<string>, news: seq<Announcement>) {
    forall k | 0 <= k < |news| :: AllInOrder(KnownTo(known, news, k), after, Contents(news[k].data))
  }

  // Nowhere in the tree, nor in the data it carries and a client reads, does a
  // mention without data come before the announcement of its id.
  predicate NothingMissed(known: set<string>, v: Value) {
    var news := News(known, v);
    InOrder(known, known + Ids(news), v) && CachesInOrder(known, known + Ids(news), news)
  }

  // The objects `news` announces are in t's registry from handle `base` on.
  ghost predicate Bound(objects: map<string, nat>, base: nat, news: seq<Announcement>) {
    forall k | 0 <= k < |news| :: news[k].id in objects && objects[news[k].id] == base + k
  }

  lemma BindOneMore(a: map<string, nat>, b: map<string, nat>, base: nat, news: seq<Announcement>, last: Announcement)
    requires Registers(a, b, news) && Bound(b, base, news) && last.id !in b
    ensures var b' := b[last.id := base + |news|];
      Registers(a, b', news + [last]) && Bound(b', base, news + [last])
  {
    IdsAppend(news, [last]);
    assert Ids([last]) == {last.id};
  }

  lemma {:induction false} BindOk(a: map<string, nat>, base: nat, news: seq<Announcement>)
    requires AllNew(a.Keys, news)
    ensures Registers(a, Bind(a, base, news), news) && Bound(Bind(a, base, news), base, news)
  {
    if news != [] {
      var n := |news| - 1;
      assert news[n] in news && news == news[..n] + [news[n]];
      assert AllNew(a.Keys, news[..n]);
      BindOk(a, base, news[..n]);
      BindOneMore(a, Bind(a, base, news[..n]), base, news[..n], news[n]);
    }
  }

  lemma EnrolledBinds(s: Store, t: Store, news: seq<Announcement>)
    requires Enrolled(s, t, news)
    ensures Registers(s.objects, t.objects, news) && Bound(t.objects, |s.heap|, news)
  {
    forall k | 0 <= k < |news| ensures news[k].id in t.objects && t.objects[news[k].id] == |s.heap| + k {
      assert Joined(t, |s.heap| + k, news[k]);
    }
  }

  lemma SameBinding(a: map<string, nat>, b: map<string, nat>, c: map<string, nat>, base: nat, news: seq<Announcement>)
    requires Registers(a, b, news) && Registers(a, c, news) && Bound(b, base, news) && Bound(c, base, news)
    ensures b == c
  {
    forall id | id in b ensures b[id] == c[id] {
      if id !in a {
        var k :| 0 <= k < |news| && news[k].id == id;
      }
    }
  }

  lemma SameRegistry(s: Store, t: Store, news: seq<Announcement>)
    requires Enrolled(s, t, news) && AllNew(s.objects.Keys, news)
    ensures t.objects == Enrol(s, news).objects
  {
    EnrolledBinds(s, t, news);
    BindOk(s.objects, |s.heap|, news);
    SameBinding(s.objects, t.objects, Enrol(s, news).objects, |s.heap|, news);
  }

  lemma BelowIsKnown(a: map<string, nat>, b: map<string, nat>, base: nat, news: seq<Announcement>, k: nat)
    requires Registers(a, b, news) && Bound(b, base, news) && k < |news|
    requires forall id | id in a :: a[id] < base
    ensures Below(b, base + k + 1) == KnownTo(a.Keys, news, k)
  {
    forall id | id in b ensures id in Below(b, base + k + 1) <==> id in KnownTo(a.Keys, news, k) {
      if id !in a {
        var j :| 0 <= j < |news| && news[j].id == id;
        assert j <= k ==> news[..k + 1][j] == news[j];
      }
    }
    assert Ids(news[..k + 1]) <= Ids(news);
  }

  // The object at h is as pass two leaves o.
  ghost predicate IsFilled(t: Store, h: nat, o: QObj)
    requires h < |t.heap|
  {
    t.heap[h] == Filled(t.objects, o)
  }

  // The objects from `base` on are as pass two leaves those given.
  ghost predicate AllFilled(t: Store, base: nat, enrolled: seq<QObj>)
    requires |t.heap| == base + |enrolled|
  {
    forall k | 0 <= k < |enrolled| :: IsFilled(t, base + k, enrolled[k])
  }

  // An object is so exactly if its announcement was in order.
  lemma SettledIsFilled(t: Store, h: nat, a: Announcement, known: set<string>)
    requires Joined(t, h, a) && NestedSettled(t, h) && Below(t.objects, h + 1) == known
    ensures IsFilled(t, h, Newcomer(h, a)) <==> AllInOrder(known, t.objects.Keys, Contents(a.data))
  {
    ReadSlotsIsSubst(known, t.objects, t.heap[h].raw);
  }

  lemma FillShape(objects: map<string, nat>, before: seq<QObj>, enrolled: seq<QObj>)
    ensures var f := Fill(Store(objects, before + enrolled), |before|);
      f.objects == objects && |f.heap| == |before| + |enrolled| &&
      (forall h | 0 <= h < |before| :: f.heap[h] == before[h]) &&
      forall k | 0 <= k < |enrolled| :: f.heap[|before| + k] == Filled(objects, enrolled[k])
  {
  }

  lemma FillIs(t: Store, objects: map<string, nat>, before: seq<QObj>, enrolled: seq<QObj>)
    requires t.objects == objects && |t.heap| == |before| + |enrolled|
    requires forall h | 0 <= h < |before| :: t.heap[h] == before[h]
    ensures t == Fill(Store(objects, before + enrolled), |before|) <==> AllFilled(t, |before|, enrolled)
  {
    FillShape(objects, before, enrolled);
    var f := Fill(Store(objects, before + enrolled), |before|);
    if AllFilled(t, |before|, enrolled) {
      forall h | |before| <= h < |t.heap| ensures t.heap[h] == f.heap[h] {
        assert IsFilled(t, |before| + (h - |before|), enrolled[h - |before|]);
      }
      assert t.heap == f.heap;
    }
  }

  ghost predicate NewsFilled(t: Store, base: nat, news: seq<Announcement>)
    requires |t.heap| == base + |news|
  {
    forall k | 0 <= k < |news| :: IsFilled(t, base + k, Newcomer(base + k, news[k]))
  }

  lemma EachKnows(s: Store, t: Store, news: seq<Announcement>)
    requires Consistent(s) && Enrolled(s, t, news)
    ensures forall k | 0 <= k < |news| :: Below(t.objects, |s.heap| + k + 1) == KnownTo(s.objects.Keys, news, k)
  {
    EnrolledBinds(s, t, news);
    forall k | 0 <= k < |news| ensures Below(t.objects, |s.heap| + k + 1) == KnownTo(s.objects.Keys, news, k) {
      BelowIsKnown(s.objects, t.objects, |s.heap|, news, k);
    }
  }

  lemma JoinedAt(t: Store, base: nat, news: seq<Announcement>, k: nat)
    requires k < |news| && AllJoined(t, base, news) && SettledFrom(t, base)
    ensures Joined(t, base + k, news[k]) && NestedSettled(t, base + k)
  {
    assert Joined(t, base + k, news[k]);
  }

  lemma EachIsFilled(t: Store, known: set<string>, base: nat, news: seq<Announcement>)
    requires |t.heap| == base + |news| && AllJoined(t, base, news) && SettledFrom(t, base)
    requires forall k | 0 <= k < |news| :: Below(t.objects, base + k + 1) == KnownTo(known, news, k)
    ensures NewsFilled(t, base, news) <==> CachesInOrder(known, t.objects.Keys, news)
  {
    forall k | 0 <= k < |news|
      ensures IsFilled(t, base + k, Newcomer(base + k, news[k]))
              <==> AllInOrder(KnownTo(known, news, k), t.objects.Keys, Contents(news[k].data))
    {
      JoinedAt(t, base, news, k);
      SettledIsFilled(t, base + k, news[k], KnownTo(known, news, k));
    }
  }

  lemma AllFilledIs(t: Store, base: nat, news: seq<Announcement>)
    requires |t.heap| == base + |news|
    ensures AllFilled(t, base, Newcomers(base, news)) <==> NewsFilled(t, base, news)
  {
    var objs := Newcomers(base, news);
    assert forall k | 0 <= k < |news| :: objs[k] == Newcomer(base + k, news[k]);
  }

  lemma NewAreFilled(s: Store, t: Store, news: seq<Announcement>)
    requires Consistent(s) && Unwrapped(s, t, news)
    ensures NewsFilled(t, |s.heap|, news) <==> CachesInOrder(s.objects.Keys, t.objects.Keys, news)
  {
    EachKnows(s, t, news);
    EachIsFilled(t, s.objects.Keys, |s.heap|, news);
  }

  // Unwrapping in one pass, which registers objects as it meets them, comes to the
  // same as registering everything first, exactly if no mention is missed; the
  // registry is the same in any case, and the value is if the tree itself is in
  // order.
  lemma UnwrapIsTwoPass(s: Store, v: Value)
    requires FromHost(v) && Consistent(s)
    ensures Unwrap(s, v) == TwoPass(s, v) <==> NothingMissed(s.objects.Keys, v)
    ensures Unwrap(s, v).0.objects == TwoPass(s, v).0.objects
    ensures Unwrap(s, v).1 == TwoPass(s, v).1 <==> InOrder(s.objects.Keys, TwoPass(s, v).0.objects.Keys, v)
  {
    var t := Unwrap(s, v).0;
    UnwrapOk(s, v);
    NewsAllNew(s.objects.Keys, v);
    SameRegistry(s, t, News(s.objects.Keys, v));
    FillIs(t, t.objects, s.heap, Newcomers(|s.heap|, News(s.objects.Keys, v)));
    AllFilledIs(t, |s.heap|, News(s.objects.Keys, v));
    NewAreFilled(s, t, News(s.objects.Keys, v));
    ReadIsSubst(s.objects.Keys, t.objects, t.objects, v);
  }

  // An id mentioned before it is announced is lost; announced first, it is found.
  lemma MissedMention(data: ObjectData)
    requires HasDestroyed(data) && FromHostData(data)
    ensures var a, b := Wrapper("a", Some(data)), Wrapper("a", None);
      Unwrap(Store(map[], []), List([b, a])).1 == List([Undefined, Object(0)]) &&
      Unwrap(Store(map[], []), List([a, b])).1 == List([Object(0), Object(0)])
  {
    var s, a, b := Store(map[], []), Wrapper("a", Some(data)), Wrapper("a", None);
    UnwrapPair(s, b, a);
    UnwrapPair(s, a, b);
    UnwrapNewOk(s, Announcement("a", data));
    assert "a" in Ids([Announcement("a", data)] + NewsAll({"a"}, Contents(data))) by {
      assert ([Announcement("a", data)] + NewsAll({"a"}, Contents(data)))[0].id == "a";
    }
  }

  lemma UnwrapPair(s: Store, v: Value, w: Value)
    requires FromHost(v) && FromHost(w)
    ensures FromHost(List([v, w]))
    ensures var (s1, x) := Unwrap(s, v); var (s2, y) := Unwrap(s1, w);
      Unwrap(s, List([v, w])) == (s2, List([x, y]))
  {
    var (s1, x) := Unwrap(s, v);
    var y := Unwrap(s1, w).1;
    assert [v, w][..1] == [v] && [v][..0] == [];
    assert [] + [x] == [x] && UnwrapAll(s, [v]) == (s1, [x]);
    assert [x] + [y] == [x, y] && UnwrapAll(s, [v, w]) == (Unwrap(s1, w).0, [x, y]);
    ListIsAll(s, [v, w]);
  }

  lemma ListIsAll(s: Store, vs: seq<Value>)
    requires forall v | v in vs :: FromHost(v)
    ensures Unwrap(s, List(vs)) == (UnwrapAll(s, vs).0, List(UnwrapAll(s, vs).1))
  {
  }
}
