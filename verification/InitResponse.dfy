// The callback of the init request: all announced objects are registered, then
// the properties of each are unwrapped in turn.
module InitResponse {
  import opened Wire
  import opened Registry
  import opened Reading
  import opened Unwrapping
  import opened TwoPasses

  datatype Root = Root(name: string, data: ObjectData)

  predicate RootsFromHost(roots: seq<Root>) {
    (forall i, j | 0 <= i < j < |roots| :: roots[i].name != roots[j].name) &&
    (forall root | root in roots :: FromHostData(root.data))
  }

  function RegisterRoots(roots: seq<Root>): Store {
    if roots == [] then Store(map[], [])
    else
      var n := |roots| - 1;
      NewObject(RegisterRoots(roots[..n]), roots[n].name, roots[n].data)
  }

  function UnwrapProperties(s: Store, h: nat): Store
    requires h < |s.heap| && FromHostSlots(s.heap[h].cache)
  {
    EndPass(UnwrapSlots(s, h, s.heap[h].cache), h)
  }

  // -------------------------------------------------------- what the response says

  function Names(roots: seq<Root>): set<string> {
    set root | root in roots :: root.name
  }

  // The nested objects that the first n roots make a client register.
  function RootNews(roots: seq<Root>, n: nat): seq<Announcement>
    requires n <= |roots|
  {
    if n == 0 then []
    else
      var early := RootNews(roots, n - 1);
      early + NewsAll(Names(roots) + Ids(early), Contents(roots[n - 1].data))
  }

  // What is registered when the properties of the n-th root are unwrapped.
  function RootKnows(roots: seq<Root>, n: nat): set<string>
    requires n < |roots|
  {
    Names(roots) + Ids(RootNews(roots, n))
  }

  // ------------------------------------------------------------------ registration

  ghost predicate Announcing(s: Store, g: nat, data: ObjectData)
    requires g < |s.heap|
  {
    var o := s.heap[g];
    o.live && o.passes == 0 && o.raw == RawCache(data.properties) && o.cache == o.raw && FromHostSlots(o.raw) &&
    o.members == Members(data) && o.handlers == map[]
  }

  lemma NewObjectOk(s: Store, root: Root)
    requires Consistent(s) && root.name !in s.objects && FromHostData(root.data)
    ensures var t := NewObject(s, root.name, root.data);
      Consistent(t) && Announcing(t, |s.heap|, root.data)
  {
    RawCacheOk(root.data.properties);
    var t := NewObject(s, root.name, root.data);
    forall id | id in t.objects
      ensures t.objects[id] < |t.heap| && t.heap[t.objects[id]].id == id && t.heap[t.objects[id]].live
    {
      assert id == root.name || id in s.objects;
    }
  }

  lemma {:induction false} RootIds(roots: seq<Root>, k: nat)
    requires k < |roots|
    ensures var s := RegisterRoots(roots);
      |s.heap| == |roots| && s.heap[k].id == roots[k].name
  {
    var n := |roots| - 1;
    if n > 0 {
      RootIds(roots[..n], if k < n then k else 0);
    }
  }

  lemma {:induction false} RootNames(roots: seq<Root>)
    ensures RegisterRoots(roots).objects.Keys == Names(roots)
  {
    if roots != [] {
      var n := |roots| - 1;
      RootNames(roots[..n]);
      assert roots == roots[..n] + [roots[n]];
    }
  }

  lemma {:induction false} RegisterRootsConsistent(roots: seq<Root>)
    requires RootsFromHost(roots)
    ensures Consistent(RegisterRoots(roots)) && |RegisterRoots(roots).heap| == |roots|
  {
    if roots != [] {
      var n := |roots| - 1;
      RegisterRootsConsistent(roots[..n]);
      var s0 := RegisterRoots(roots[..n]);
      assert roots[n] in roots;
      assert roots[n].name !in s0.objects by {
        if roots[n].name in s0.objects {
          RootIds(roots[..n], s0.objects[roots[n].name]);
        }
      }
      NewObjectOk(s0, roots[n]);
    }
  }

  lemma NewAnnounces(s: Store, root: Root)
    requires FromHostData(root.data)
    ensures Announcing(NewObject(s, root.name, root.data), |s.heap|, root.data)
  {
    RawCacheOk(root.data.properties);
  }

  lemma {:induction false} RegisterRootsAnnouncing(roots: seq<Root>, i: nat)
    requires RootsFromHost(roots) && i < |roots|
    ensures |RegisterRoots(roots).heap| == |roots| && Announcing(RegisterRoots(roots), i, roots[i].data)
  {
    var n := |roots| - 1;
    RootIds(roots, i);
    if i < n {
      RegisterRootsAnnouncing(roots[..n], i);
    } else {
      assert roots[n] in roots;
      NewAnnounces(RegisterRoots(roots[..n]), roots[n]);
    }
  }

  // ------------------------------------------------------------ the loop over roots

  ghost predicate RootAt(s: Store, i: nat, root: Root) {
    i < |s.heap| && root.name in s.objects && s.objects[root.name] == i &&
    s.heap[i].raw == RawCache(root.data.properties) &&
    s.heap[i].members == Members(root.data) && s.heap[i].handlers == map[]
  }

  // The objects there are: the roots, then the news so far.
  ghost predicate RootsEnrolled(roots: seq<Root>, s: Store, news: seq<Announcement>) {
    RootsHere(s, roots) && NewsHere(s, |roots|, Names(roots), news)
  }

  ghost predicate NewsHere(s: Store, base: nat, names: set<string>, news: seq<Announcement>) {
    |s.heap| == base + |news| && AllJoined(s, base, news) && s.objects.Keys == names + Ids(news)
  }

  ghost predicate RootsHere(s: Store, roots: seq<Root>) {
    forall i: nat | i < |roots| :: RootAt(s, i, roots[i])
  }

  // The first n of the roots have been unwrapped, and whatever that created; the
  // i-th knew knows[i].
  ghost predicate RootsDone(roots: seq<Root>, n: nat, s: Store, knows: seq<set<string>>, news: seq<Announcement>)
    requires n <= |roots| == |knows|
  {
    Consistent(s) && RootsEnrolled(roots, s, news) && SettledFrom(s, |roots|) &&
    (forall i: nat | i < n :: Settled(s, i, knows[i])) &&
    (forall i: nat | n <= i < |roots| :: Announcing(s, i, roots[i].data))
  }

  lemma RegisteredRootsDone(roots: seq<Root>, knows: seq<set<string>>)
    requires RootsFromHost(roots) && |knows| == |roots|
    ensures RootsDone(roots, 0, RegisterRoots(roots), knows, [])
  {
    RegisterRootsConsistent(roots);
    RootNames(roots);
    var s := RegisterRoots(roots);
    forall i: nat | i < |roots| ensures RootAt(s, i, roots[i]) && Announcing(s, i, roots[i].data) {
      RootIds(roots, i);
      RegisterRootsAnnouncing(roots, i);
    }
  }

  lemma UnwrapRootOk(roots: seq<Root>, n: nat, s: Store, knows: seq<set<string>>, news: seq<Announcement>)
    requires n < |roots| == |knows| && RootsDone(roots, n, s, knows, news) && knows[n] == s.objects.Keys
    ensures RootAt(s, n, roots[n]) && FromHostSlots(s.heap[n].cache)
    ensures RootsDone(roots, n + 1, UnwrapProperties(s, n), knows, news + NewsAll(knows[n], Contents(roots[n].data)))
  {
    assert Announcing(s, n, roots[n].data) && RootAt(s, n, roots[n]);
    var raw := s.heap[n].cache;
    assert raw == s.heap[n].raw[..|raw|];
    UnwrapSlotsOk(s, n, raw);
    var s1, more := UnwrapSlots(s, n, raw), NewsAll(s.objects.Keys, Contents(roots[n].data));
    NewsEnrolled(n, |roots|, Names(roots), s, s1, news, more);
    RootsStay(roots, n, s, s1);
    RootDone(roots, n, s, s1, knows, news, more);
  }

  // The objects nested in the n-th root have joined.
  lemma NewsEnrolled(
      n: nat, base: nat, names: set<string>, s: Store, s1: Store, a: seq<Announcement>, b: seq<Announcement>)
    requires n < base && NewsHere(s, base, names, a) && Extends(s, s1, n) && Enrolled(s, s1, b)
    ensures NewsHere(EndPass(s1, n), base, names, a + b)
  {
    KeysJoin(names, s.objects.Keys, s1.objects.Keys, a, b);
    NestedJoin(base, n, s, s1, a, b);
  }

  lemma KeysJoin(names: set<string>, s: set<string>, t: set<string>, a: seq<Announcement>, b: seq<Announcement>)
    requires s == names + Ids(a) && t == s + Ids(b)
    ensures t == names + Ids(a + b)
  {
    IdsAppend(a, b);
  }

  lemma RootsStay(roots: seq<Root>, n: nat, s: Store, s1: Store)
    requires n < |roots| && Extends(s, s1, n) && RootsHere(s, roots)
    ensures n < |s1.heap| && RootsHere(EndPass(s1, n), roots)
  {
    assert RootAt(s, n, roots[n]);
    forall i: nat | i < |roots| ensures RootAt(EndPass(s1, n), i, roots[i]) {
      assert RootAt(s, i, roots[i]);
    }
  }

  lemma NestedJoin(base: nat, n: nat, s: Store, s1: Store, a: seq<Announcement>, b: seq<Announcement>)
    requires n < base && Extends(s, s1, n) && |s.heap| == base + |a|
    requires AllJoined(s, base, a) && AllJoined(s1, base + |a|, b) && |s1.heap| == base + |a| + |b|
    ensures AllJoined(EndPass(s1, n), base, a + b)
  {
    var t, c := EndPass(s1, n), a + b;
    AllJoinedAppend(s, s1, n, base, a, b);
    forall k | 0 <= k < |c| ensures Joined(t, base + k, c[k]) {
      assert Joined(s1, base + k, c[k]) && t.heap[base + k] == s1.heap[base + k];
    }
  }

  lemma NestedDone(base: nat, n: nat, s: Store, s1: Store)
    requires n < base && Consistent(s) && Consistent(s1) && Extends(s, s1, n)
    requires SettledFrom(s, base) && SettledFrom(s1, |s.heap|)
    ensures SettledFrom(s1, base)
  {
    forall g: nat | base <= g < |s1.heap| ensures NestedSettled(s1, g) {
      if g < |s.heap| {
        assert NestedSettled(s, g);
        NestedGrows(s, s1, n, g);
      }
    }
  }

  lemma RootDone(
      roots: seq<Root>, n: nat, s: Store, s1: Store, knows: seq<set<string>>,
      a: seq<Announcement>, b: seq<Announcement>)
    requires n < |roots| == |knows| && RootsDone(roots, n, s, knows, a) && Extends(s, s1, n)
    requires Consistent(s1) && SettledFrom(s1, |s.heap|) && Partly(s1, n, |s1.heap[n].raw|, knows[n])
    requires RootsEnrolled(roots, EndPass(s1, n), a + b)
    ensures RootsDone(roots, n + 1, EndPass(s1, n), knows, a + b)
  {
    assert Announcing(s, n, roots[n].data);
    NestedDone(|roots|, n, s, s1);
    forall i: nat | i < n ensures Settled(s1, i, knows[i]) {
      SettledGrows(s, s1, n, i, knows[i]);
    }
    forall i: nat | n + 1 <= i < |roots| ensures Announcing(s1, i, roots[i].data) {
      assert Announcing(s, i, roots[i].data) && s1.heap[i] == s.heap[i];
    }
    LastStep(roots, n, s1, knows, a + b);
  }

  lemma LastStep(roots: seq<Root>, n: nat, s1: Store, knows: seq<set<string>>, news: seq<Announcement>)
    requires n < |roots| == |knows| && |roots| <= |s1.heap| && Consistent(s1)
    requires s1.heap[n].passes == 0 && Partly(s1, n, |s1.heap[n].raw|, knows[n])
    requires SettledFrom(s1, |roots|) && forall i: nat | i < n :: Settled(s1, i, knows[i])
    requires forall i: nat | n + 1 <= i < |roots| :: Announcing(s1, i, roots[i].data)
    requires RootsEnrolled(roots, EndPass(s1, n), news)
    ensures RootsDone(roots, n + 1, EndPass(s1, n), knows, news)
  {
    var t := EndPass(s1, n);
    EndPassOk(s1, n, knows[n]);
    forall g: nat | |roots| <= g < |t.heap| ensures NestedSettled(t, g) {
      assert NestedSettled(s1, g);
    }
    forall i: nat | n + 1 <= i < |roots| ensures Announcing(t, i, roots[i].data) {
      assert Announcing(s1, i, roots[i].data);
    }
  }

  // channel.objects[name].unwrapProperties().  The test only makes the function
  // total: RootsAreDone shows that in the loop over the roots it always succeeds.
  function UnwrapNamed(s: Store, name: string): Store {
    if name in s.objects && s.objects[name] < |s.heap| && FromHostSlots(s.heap[s.objects[name]].cache)
    then UnwrapProperties(s, s.objects[name])
    else s
  }

  // ... for the first n roots, in order.
  function UnwrapRoots(roots: seq<Root>, n: nat): Store
    requires n <= |roots|
  {
    if n == 0 then RegisterRoots(roots) else UnwrapNamed(UnwrapRoots(roots, n - 1), roots[n - 1].name)
  }

  lemma NextRootDone(roots: seq<Root>, n: nat, s: Store, knows: seq<set<string>>, news: seq<Announcement>)
    requires n < |roots| == |knows| && RootsDone(roots, n, s, knows, news) && knows[n] == s.objects.Keys
    ensures var more := NewsAll(knows[n], Contents(roots[n].data));
      RootsDone(roots, n + 1, UnwrapNamed(s, roots[n].name), knows, news + more)
  {
    UnwrapRootOk(roots, n, s, knows, news);
  }

  // Where the loop over the roots stands before each of them.
  datatype Stage = Stage(store: Store, knows: set<string>, news: seq<Announcement>)

  ghost predicate Link(roots: seq<Root>, stages: seq<Stage>, i: nat)
    requires i < |roots| == |stages| - 1
  {
    var a, b := stages[i], stages[i + 1];
    a.knows == Names(roots) + Ids(a.news) &&
    b.news == a.news + NewsAll(a.knows, Contents(roots[i].data)) &&
    b.store == UnwrapNamed(a.store, roots[i].name)
  }

  ghost predicate Chain(roots: seq<Root>, stages: seq<Stage>) {
    |stages| == |roots| + 1 && stages[0].store == RegisterRoots(roots) && stages[0].news == [] &&
    forall i: nat | i < |roots| :: Link(roots, stages, i)
  }

  ghost predicate StageDone(roots: seq<Root>, n: nat, stages: seq<Stage>, knows: seq<set<string>>)
    requires n <= |roots| == |knows| && |stages| == |roots| + 1
  {
    RootsDone(roots, n, stages[n].store, knows, stages[n].news)
  }

  lemma NextStageDone(roots: seq<Root>, n: nat, stages: seq<Stage>, knows: seq<set<string>>)
    requires n < |roots| == |knows| && |stages| == |roots| + 1 && knows[n] == stages[n].knows
    requires Link(roots, stages, n) && StageDone(roots, n, stages, knows)
    ensures StageDone(roots, n + 1, stages, knows)
  {
    NextRootDone(roots, n, stages[n].store, knows, stages[n].news);
  }

  lemma {:induction false} StagesAreDone(roots: seq<Root>, n: nat, stages: seq<Stage>, knows: seq<set<string>>)
    requires RootsFromHost(roots) && n <= |roots| == |knows| && Chain(roots, stages)
    requires forall i | 0 <= i < |roots| :: knows[i] == stages[i].knows
    ensures StageDone(roots, n, stages, knows)
  {
    if n == 0 {
      RegisteredRootsDone(roots, knows);
    } else {
      StagesAreDone(roots, n - 1, stages, knows);
      assert Link(roots, stages, n - 1);
      NextStageDone(roots, n - 1, stages, knows);
    }
  }

  function Knows(roots: seq<Root>): seq<set<string>> {
    seq(|roots|, i requires 0 <= i < |roots| => RootKnows(roots, i))
  }

  function StageAt(roots: seq<Root>, i: nat): Stage
    requires i <= |roots|
  {
    Stage(UnwrapRoots(roots, i), Names(roots) + Ids(RootNews(roots, i)), RootNews(roots, i))
  }

  function Stages(roots: seq<Root>): seq<Stage> {
    seq(|roots| + 1, i requires 0 <= i <= |roots| => StageAt(roots, i))
  }

  lemma NextLink(roots: seq<Root>, i: nat)
    requires i < |roots|
    ensures Link(roots, Stages(roots), i)
  {
    var a, b := StageAt(roots, i), StageAt(roots, i + 1);
    assert b.store == UnwrapNamed(a.store, roots[i].name);
    assert b.news == a.news + NewsAll(a.knows, Contents(roots[i].data));
  }

  lemma RootsChain(roots: seq<Root>)
    ensures Chain(roots, Stages(roots))
  {
    forall i: nat | i < |roots| ensures Link(roots, Stages(roots), i) {
      NextLink(roots, i);
    }
  }

  lemma StageStands(roots: seq<Root>, n: nat, stages: seq<Stage>, knows: seq<set<string>>)
    requires n <= |roots| == |knows| && |stages| == |roots| + 1 && stages[n] == StageAt(roots, n)
    requires StageDone(roots, n, stages, knows)
    ensures RootsDone(roots, n, UnwrapRoots(roots, n), knows, RootNews(roots, n))
  {
  }

  // The first n roots have been unwrapped after n rounds of the loop.
  lemma RootsAreDone(roots: seq<Root>, n: nat)
    requires RootsFromHost(roots) && n <= |roots|
    ensures RootsDone(roots, n, UnwrapRoots(roots, n), Knows(roots), RootNews(roots, n))
  {
    var stages, knows := Stages(roots), Knows(roots);
    RootsChain(roots);
    assert forall i | 0 <= i < |roots| :: knows[i] == stages[i].knows;
    StagesAreDone(roots, n, stages, knows);
    StageStands(roots, n, stages, knows);
  }

  // The n-th root is there, and unread.
  lemma RootIsReady(roots: seq<Root>, n: nat)
    requires RootsFromHost(roots) && n < |roots|
    ensures var s := UnwrapRoots(roots, n); RootAt(s, n, roots[n]) && FromHostSlots(s.heap[n].cache)
  {
    RootsAreDone(roots, n);
    RootDoneIsReady(roots, n, UnwrapRoots(roots, n), Knows(roots), RootNews(roots, n));
  }

  lemma RootDoneIsReady(roots: seq<Root>, n: nat, s: Store, knows: seq<set<string>>, news: seq<Announcement>)
    requires n < |roots| == |knows| && RootsDone(roots, n, s, knows, news)
    ensures RootAt(s, n, roots[n]) && FromHostSlots(s.heap[n].cache)
  {
    assert Announcing(s, n, roots[n].data) && RootAt(s, n, roots[n]);
  }

  // -------------------------------------------------------------------- the theorem

  // Live, unwrapped once, no wrapper left; announced with data, and every value
  // of that read with the ids in `known`; as the two-pass reading has it exactly
  // if the data is in order.
  ghost predicate ReadFrom(s: Store, g: nat, data: ObjectData, known: set<string>) {
    g < |s.heap| &&
    var o := s.heap[g];
    o.live && o.passes == 1 && CleanSlots(o.cache, |s.heap|) && o.raw == RawCache(data.properties) &&
    o.cache == ReadSlots(known, s.objects, o.raw) && SlotsStand(s.objects, o.raw, o.cache) &&
    (o.cache == SubstSlots(s.objects, o.raw) <==> AllInOrder(known, s.objects.Keys, Contents(data)))
  }

  lemma SettledIsRead(s: Store, g: nat, data: ObjectData, known: set<string>)
    requires g < |s.heap| && Settled(s, g, known) && s.heap[g].raw == RawCache(data.properties)
    ensures ReadFrom(s, g, data, known)
  {
    ReadSlotsStand(known, s.objects, s.heap[g].raw);
    ReadSlotsIsSubst(known, s.objects, s.heap[g].raw);
  }

  lemma RootsAreRead(roots: seq<Root>, s: Store, knows: seq<set<string>>, news: seq<Announcement>)
    requires |knows| == |roots| && RootsDone(roots, |roots|, s, knows, news)
    ensures forall i: nat | i < |roots| :: ReadFrom(s, i, roots[i].data, knows[i])
  {
    forall i: nat | i < |roots| ensures ReadFrom(s, i, roots[i].data, knows[i]) {
      assert RootAt(s, i, roots[i]);
      SettledIsRead(s, i, roots[i].data, knows[i]);
    }
  }

  lemma NestedKnow(roots: seq<Root>, s: Store, news: seq<Announcement>, k: nat)
    requires RootsEnrolled(roots, s, news) && k < |news|
    ensures Below(s.objects, |roots| + k + 1) == KnownTo(Names(roots), news, k)
  {
    var a := map id | id in Names(roots) :: s.objects[id];
    assert a.Keys == Names(roots);
    forall id | id in a ensures a[id] < |roots| {
      var i :| 0 <= i < |roots| && roots[i].name == id;
      assert RootAt(s, i, roots[i]);
    }
    forall j | 0 <= j < |news| ensures news[j].id in s.objects && s.objects[news[j].id] == |roots| + j {
      assert Joined(s, |roots| + j, news[j]);
    }
    BelowIsKnown(a, s.objects, |roots|, news, k);
  }

  lemma NestedIsRead(s: Store, h: nat, a: Announcement, known: set<string>)
    requires Joined(s, h, a) && NestedSettled(s, h) && Below(s.objects, h + 1) == known
    ensures ReadFrom(s, h, a.data, known)
  {
    SettledIsRead(s, h, a.data, known);
  }

  // What each of the news knows when it is unwrapped.
  ghost predicate EachInformed(s: Store, base: nat, names: set<string>, news: seq<Announcement>) {
    forall k | 0 <= k < |news| :: Below(s.objects, base + k + 1) == KnownTo(names, news, k)
  }

  ghost predicate EachRead(s: Store, base: nat, names: set<string>, news: seq<Announcement>) {
    forall k: nat | k < |news| :: ReadFrom(s, base + k, news[k].data, KnownTo(names, news, k))
  }

  lemma EachIsRead(s: Store, base: nat, names: set<string>, news: seq<Announcement>)
    requires AllJoined(s, base, news) && SettledFrom(s, base)
    requires EachInformed(s, base, names, news)
    ensures EachRead(s, base, names, news)
  {
    forall k: nat | k < |news| ensures ReadFrom(s, base + k, news[k].data, KnownTo(names, news, k)) {
      JoinedAt(s, base, news, k);
      NestedIsRead(s, base + k, news[k], KnownTo(names, news, k));
    }
  }

  lemma AllKnow(roots: seq<Root>, s: Store, news: seq<Announcement>)
    requires RootsEnrolled(roots, s, news)
    ensures EachInformed(s, |roots|, Names(roots), news)
  {
    forall k | 0 <= k < |news| ensures Below(s.objects, |roots| + k + 1) == KnownTo(Names(roots), news, k) {
      NestedKnow(roots, s, news, k);
    }
  }

  lemma EveryoneIsRead(roots: seq<Root>, s: Store, knows: seq<set<string>>, news: seq<Announcement>)
    requires |knows| == |roots| && RootsDone(roots, |roots|, s, knows, news)
    ensures Consistent(s) && RootsEnrolled(roots, s, news)
    ensures forall i: nat | i < |roots| :: ReadFrom(s, i, roots[i].data, knows[i])
    ensures EachRead(s, |roots|, Names(roots), news)
  {
    RootsAreRead(roots, s, knows, news);
    AllKnow(roots, s, news);
    EachIsRead(s, |roots|, Names(roots), news);
  }

  // After the init response: the objects there are, are the roots and those the
  // response announces inside them, each under its id; every one has been
  // unwrapped exactly once, from what the response says of it, and holds no
  // wrapper; each of its values reads as the ids known by then make it read.
  lemma InitUnwrapsEverything(roots: seq<Root>)
    requires RootsFromHost(roots)
    ensures var s := UnwrapRoots(roots, |roots|); var news := RootNews(roots, |roots|);
      Consistent(s) && RootsEnrolled(roots, s, news) &&
      (forall i: nat | i < |roots| :: ReadFrom(s, i, roots[i].data, RootKnows(roots, i))) &&
      EachRead(s, |roots|, Names(roots), news)
  {
    var s, knows := UnwrapRoots(roots, |roots|), Knows(roots);
    RootsAreDone(roots, |roots|);
    EveryoneIsRead(roots, s, knows, RootNews(roots, |roots|));
    forall i: nat | i < |roots| ensures ReadFrom(s, i, roots[i].data, RootKnows(roots, i)) {
      assert knows[i] == RootKnows(roots, i);
    }
  }

  // What else holds of the object at h.
  ghost predicate Ready(s: Store, h: nat, roots: nat) {
    h < |s.heap| && s.heap[h].passes == 1 && CleanSlots(s.heap[h].cache, |s.heap|) &&
    s.heap[h].handlers == if h < roots then map[] else Watching(h, s.heap[h].id, s.heap[h].members)
  }

  lemma RootReady(s: Store, h: nat, root: Root, known: set<string>, roots: nat)
    requires h < roots && RootAt(s, h, root) && Settled(s, h, known)
    ensures Ready(s, h, roots)
  {
  }

  lemma NestedReady(s: Store, h: nat, a: Announcement, roots: nat)
    requires roots <= h && Joined(s, h, a) && NestedSettled(s, h)
    ensures Ready(s, h, roots)
  {
  }

  lemma EveryoneIsReady(roots: seq<Root>, s: Store, knows: seq<set<string>>, news: seq<Announcement>)
    requires |knows| == |roots| && RootsDone(roots, |roots|, s, knows, news)
    ensures forall h: nat | h < |s.heap| :: Ready(s, h, |roots|)
  {
    forall h: nat | h < |s.heap| ensures Ready(s, h, |roots|) {
      if h < |roots| {
        assert RootAt(s, h, roots[h]);
        RootReady(s, h, roots[h], knows[h], |roots|);
      } else {
        var k := h - |roots|;
        assert Joined(s, |roots| + k, news[k]) && NestedSettled(s, h);
        NestedReady(s, h, news[k], |roots|);
      }
    }
  }

  // After the init response user code has connected nothing yet.
  lemma InitLeavesReady(roots: seq<Root>)
    requires RootsFromHost(roots)
    ensures var s := UnwrapRoots(roots, |roots|);
      Consistent(s) && forall h: nat | h < |s.heap| :: Ready(s, h, |roots|)
  {
    RootsAreDone(roots, |roots|);
    EveryoneIsReady(roots, UnwrapRoots(roots, |roots|), Knows(roots), RootNews(roots, |roots|));
  }
}
