// What a channel does with signals and property updates once it is initialised.
module Delivery {
  import opened Lists
  import opened Wire
  import opened QObjects
  import opened Registry
  import opened Reading
  import opened Unwrapping

  // One run of a user callback: what it was passed, and the property cache of its
  // object at that moment.
  datatype Invocation = Invocation(fn: nat, handle: nat, signal: nat, args: Value, seen: seq<Slot>)

  datatype Emission = Emission(signal: nat, args: Value)
  datatype Update = Update(target: string, signals: seq<Emission>, properties: seq<Slot>)

  // The callback unwrapQObject connects to "destroyed": forget the object if it
  // is still the registered one, and delete every property it has.
  function Destroy(s: Store, h: nat, id: string): Store
    requires h < |s.heap|
  {
    if id in s.objects && s.objects[id] == h then
      Store(s.objects - {id}, s.heap[h := s.heap[h].(live := false, cache := [], members := map[], handlers := map[])])
    else s
  }

  ghost predicate HandlesBelow(cbs: seq<Callback>, n: nat) {
    forall cb | cb in cbs && cb.Destroyer? :: cb.handle < n
  }

  // connections.forEach(callback => callback.apply(...))
  function Invoke(s: Store, h: nat, signal: nat, args: Value, cbs: seq<Callback>): (r: (Store, seq<Invocation>))
    requires h < |s.heap| && HandlesBelow(cbs, |s.heap|)
    ensures |r.0.heap| == |s.heap|
  {
    if cbs == [] then (s, [])
    else
      var n := |cbs| - 1;
      assert cbs[n] in cbs;
      var (s1, log) := Invoke(s, h, signal, args, cbs[..n]);
      match cbs[n]
      case User(fn) => (s1, log + [Invocation(fn, h, signal, args, s1.heap[h].cache)])
      case Destroyer(g, id) => (Destroy(s1, g, id), log)
  }

  // ---------------------------------------------------------------- invariants

  ghost predicate Tidy(s: Store) {
    Consistent(s) &&
    (forall h: nat | h < |s.heap| :: CleanSlots(s.heap[h].cache, |s.heap|)) &&
    (forall h: nat | h < |s.heap| :: s.heap[h].passes == 1)
  }

  // The only destroyer among an object's callbacks is its own.
  ghost predicate OwnCallbacks(cbs: seq<Callback>, h: nat, id: string) {
    forall cb | cb in cbs && cb.Destroyer? :: cb == Destroyer(h, id)
  }

  ghost predicate OwnHandlers(o: QObj, h: nat) {
    forall signal | signal in o.handlers :: OwnCallbacks(o.handlers[signal], h, o.id)
  }

  ghost predicate OwnDestroyers(s: Store) {
    forall h: nat | h < |s.heap| :: OwnHandlers(s.heap[h], h)
  }

  ghost predicate Good(s: Store) {
    Tidy(s) && OwnDestroyers(s)
  }

  // Handles are never reused: an object keeps its id, and a dead one stays dead.
  ghost predicate Lineage(s: Store, t: Store) {
    |s.heap| <= |t.heap| &&
    forall h | 0 <= h < |s.heap| :: t.heap[h].id == s.heap[h].id && (t.heap[h].live ==> s.heap[h].live)
  }

  lemma OwnBelow(s: Store, h: nat, signal: nat)
    requires OwnDestroyers(s) && h < |s.heap|
    ensures HandlesBelow(Handlers(s.heap[h], signal), |s.heap|)
  {
    assert OwnHandlers(s.heap[h], h);
  }

  lemma DestroyOk(s: Store, h: nat, id: string)
    requires h < |s.heap|
    ensures Consistent(s) ==> Consistent(Destroy(s, h, id))
    ensures Good(s) ==> Good(Destroy(s, h, id))
    ensures |Destroy(s, h, id).heap| == |s.heap| && Lineage(s, Destroy(s, h, id))
    ensures forall g | 0 <= g < |s.heap| && Destroy(s, h, id).heap[g].live :: Destroy(s, h, id).heap[g] == s.heap[g]
    ensures var t := Destroy(s, h, id);
      if id in s.objects && s.objects[id] == h then
        var o := t.heap[h];
        !o.live && o.cache == [] && o.members == map[] && o.handlers == map[] && o.id == s.heap[h].id &&
        t.objects == s.objects - {id} && forall g | 0 <= g < |s.heap| && g != h :: t.heap[g] == s.heap[g]
      else t == s
  {
  }

  // A destroyed object is gone for good: its id resolves to nothing until the
  // host announces it again, and then to an object never seen before.
  lemma DestroyedIsForgotten(s: Store, h: nat, data: ObjectData)
    requires Consistent(s) && h < |s.heap| && s.heap[h].live && HasDestroyed(data) && FromHostData(data)
    ensures var id := s.heap[h].id; var t := Destroy(s, h, id);
      Unwrap(t, Wrapper(id, None)) == (t, Undefined) &&
      Unwrap(t, Wrapper(id, Some(data))).1 == Object(|s.heap|) &&
      |s.heap| != h
  {
  }

  // ------------------------------------------------------------------ one emission

  // Delivering this signal destroys the object.
  predicate Kills(o: QObj, h: nat, signal: nat) {
    Destroyer(h, o.id) in Handlers(o, signal)
  }

  // What user callbacks report: each runs once, in the order of connection; one
  // connected behind the destroyer finds the cache gone.
  function Reports(cbs: seq<Callback>, o: QObj, h: nat, signal: nat, args: Value): seq<Invocation> {
    if cbs == [] then []
    else
      var n := |cbs| - 1;
      var front := Reports(cbs[..n], o, h, signal, args);
      match cbs[n]
      case User(fn) => front + [Invocation(fn, h, signal, args, if Destroyer(h, o.id) in cbs[..n] then [] else o.cache)]
      case Destroyer(_, _) => front
  }

  lemma DestroyTwice(s: Store, h: nat, id: string)
    requires h < |s.heap|
    ensures Destroy(Destroy(s, h, id), h, id) == Destroy(s, h, id)
  {
  }

  // Callbacks other than the client's own leave the store alone.
  lemma {:induction false} InvokeExact(s: Store, h: nat, signal: nat, args: Value, cbs: seq<Callback>)
    requires h < |s.heap| && Consistent(s) && s.heap[h].live && OwnCallbacks(cbs, h, s.heap[h].id)
    ensures HandlesBelow(cbs, |s.heap|)
    ensures Invoke(s, h, signal, args, cbs) ==
      (if Destroyer(h, s.heap[h].id) in cbs then Destroy(s, h, s.heap[h].id) else s,
       Reports(cbs, s.heap[h], h, signal, args))
  {
    if cbs != [] {
      var n, id := |cbs| - 1, s.heap[h].id;
      assert cbs == cbs[..n] + [cbs[n]];
      InvokeExact(s, h, signal, args, cbs[..n]);
      DestroyTwice(s, h, id);
    }
  }

  function Users(cbs: seq<Callback>): seq<nat> {
    if cbs == [] then []
    else
      var front := Users(cbs[..|cbs| - 1]);
      match cbs[|cbs| - 1] case User(fn) => front + [fn] case Destroyer(_, _) => front
  }

  // Which are the user callbacks of a list, in its order.
  lemma {:induction false} UsersAre(a: seq<Callback>, cb: Callback, b: seq<Callback>)
    ensures Users([]) == []
    ensures Users(a + [cb] + b) == Users(a) + (if cb.User? then [cb.fn] else []) + Users(b)
  {
    var cbs := a + [cb] + b;
    if b == [] {
      assert cbs[..|a|] == a && cbs == a + [cb];
    } else {
      var n := |b| - 1;
      assert cbs[..|cbs| - 1] == a + [cb] + b[..n];
      UsersAre(a, cb, b[..n]);
    }
  }

  function Fns(log: seq<Invocation>): (fns: seq<nat>)
    ensures |fns| == |log| && forall i | 0 <= i < |log| :: fns[i] == log[i].fn
  {
    if log == [] then [] else Fns(log[..|log| - 1]) + [log[|log| - 1].fn]
  }

  // Every connected user callback reports once, in the order of connection, with
  // the arguments given; unless the signal kills, it sees the object's cache.
  lemma {:induction false} ReportsAre(cbs: seq<Callback>, o: QObj, h: nat, signal: nat, args: Value)
    ensures var log := Reports(cbs, o, h, signal, args);
      Fns(log) == Users(cbs) &&
      forall i | i in log ::
        i.handle == h && i.signal == signal && i.args == args &&
        (Destroyer(h, o.id) !in cbs ==> i.seen == o.cache)
  {
    if cbs != [] {
      var n := |cbs| - 1;
      assert cbs == cbs[..n] + [cbs[n]];
      ReportsAre(cbs[..n], o, h, signal, args);
      var log := Reports(cbs[..n], o, h, signal, args);
      if cbs[n].User? {
        var i := Invocation(cbs[n].fn, h, signal, args, if Destroyer(h, o.id) in cbs[..n] then [] else o.cache);
        assert (log + [i])[..|log|] == log;
      }
    }
  }

  // Where the signal kills, those connected before the destroyer see the object's
  // cache, and those behind it an empty one.
  lemma {:induction false} SeenAround(
      a: seq<Callback>, b: seq<Callback>, o: QObj, h: nat, signal: nat, args: Value)
    requires Destroyer(h, o.id) !in a
    ensures var log := Reports(a + [Destroyer(h, o.id)] + b, o, h, signal, args);
      |log| == |Users(a)| + |Users(b)| &&
      forall i | 0 <= i < |log| :: log[i].seen == if i < |Users(a)| then o.cache else []
  {
    var d := Destroyer(h, o.id);
    var cbs := a + [d] + b;
    if b == [] {
      assert cbs == a + [d] && cbs[..|a|] == a;
      ReportsAre(a, o, h, signal, args);
    } else {
      var n := |b| - 1;
      assert cbs[..|cbs| - 1] == a + [d] + b[..n];
      assert (a + [d] + b[..n])[|a|] == d;
      SeenAround(a, b[..n], o, h, signal, args);
    }
  }

  // -------------------------------------------------------------- unwrapping again

  lemma JoinedOwn(t: Store, h: nat, a: Announcement)
    requires Joined(t, h, a)
    ensures OwnHandlers(t.heap[h], h) && t.heap[h].passes == 1
  {
    assert t.heap[h].handlers == Watching(h, a.id, Members(a.data));
  }

  lemma UnwrapGood(s: Store, v: Value)
    requires FromHost(v) && Good(s)
    ensures Good(Unwrap(s, v).0) && Clean(Unwrap(s, v).1, |Unwrap(s, v).0.heap|)
  {
    UnwrapOk(s, v);
    var t := Unwrap(s, v).0;
    forall h: nat | h < |t.heap|
      ensures CleanSlots(t.heap[h].cache, |t.heap|) && t.heap[h].passes == 1 && OwnHandlers(t.heap[h], h)
    {
      if h < |s.heap| {
        CleanSlotsGrow(s.heap[h].cache, |s.heap|, |t.heap|);
      } else {
        var news := News(s.objects.Keys, v);
        assert NestedSettled(t, h) && Joined(t, |s.heap| + (h - |s.heap|), news[h - |s.heap|]);
        JoinedOwn(t, h, news[h - |s.heap|]);
      }
    }
  }

  // ------------------------------------------------------------- property updates

  predicate UpdateFromHost(u: Update) {
    FromHostSlots(u.properties)
  }

  function PutSlot(s: Store, h: nat, k: nat, v: Value): Store
    requires h < |s.heap|
  {
    s.(heap := s.heap[h := s.heap[h].(cache := Put(s.heap[h].cache, k, v))])
  }

  // the first loop of propertyUpdate
  function PutAll(s: Store, h: nat, ps: seq<Slot>): (r: Store)
    requires h < |s.heap| && FromHostSlots(ps)
    ensures |s.heap| <= |r.heap|
  {
    if ps == [] then s
    else
      var n := |ps| - 1;
      assert ps[n] in ps;
      var (s1, v) := Unwrap(PutAll(s, h, ps[..n]), ps[n].value);
      PutSlot(s1, h, ps[n].index, v)
  }

  // The last assignment to k, if there is one.
  function LastAt(ps: seq<Slot>, k: nat): (i: Option<nat>)
    ensures i.Some? ==> i.value < |ps| && ps[i.value].index == k && forall j | i.value < j < |ps| :: ps[j].index != k
    ensures i.None? ==> forall j | 0 <= j < |ps| :: ps[j].index != k
  {
    if ps == [] then None
    else if ps[|ps| - 1].index == k then Some(|ps| - 1)
    else LastAt(ps[..|ps| - 1], k)
  }

  // At k the cache of h has the last value assigned there, as it reads in its
  // place among the others, or what it had.
  ghost predicate Updated(s: Store, t: Store, h: nat, ps: seq<Slot>, k: nat)
    requires h < |s.heap| <= |t.heap|
  {
    match LastAt(ps, k)
    case None => Get(t.heap[h].cache, k) == Get(s.heap[h].cache, k)
    case Some(i) => Get(t.heap[h].cache, k) == ReadAll(s.objects.Keys, t.objects, Values(ps))[i]
  }

  // Only the cache of h has changed, and objects have been added.
  ghost predicate OnlyCache(s: Store, t: Store, h: nat)
    requires h < |s.heap|
  {
    |s.heap| <= |t.heap| && Grown(s.objects, t.objects) &&
    t.heap[h] == s.heap[h].(cache := t.heap[h].cache) &&
    forall g | 0 <= g < |s.heap| && g != h :: t.heap[g] == s.heap[g]
  }

  lemma PutSlotOk(s: Store, h: nat, k: nat, v: Value)
    requires Good(s) && h < |s.heap| && Clean(v, |s.heap|)
    ensures Good(PutSlot(s, h, k, v))
  {
    PutSize(s.heap[h].cache, k, v);
    var t := PutSlot(s, h, k, v);
    forall g: nat | g < |t.heap| ensures OwnHandlers(t.heap[g], g) {
      assert OwnHandlers(s.heap[g], g);
    }
  }

  // One assignment more: the store, and what the cache holds.
  lemma PutNext(s: Store, s1: Store, h: nat, ps: seq<Slot>)
    requires ps != [] && h < |s.heap| && FromHostSlots(ps) && Good(s1) && OnlyCache(s, s1, h)
    requires Registers(s.objects, s1.objects, NewsAll(s.objects.Keys, Values(ps[..|ps| - 1])))
    ensures ps[|ps| - 1] in ps
    ensures var (s2, v) := Unwrap(s1, ps[|ps| - 1].value); var t := PutSlot(s2, h, ps[|ps| - 1].index, v);
      Good(t) && OnlyCache(s, t, h) && Registers(s.objects, t.objects, NewsAll(s.objects.Keys, Values(ps)))
  {
    var n, known := |ps| - 1, s.objects.Keys;
    assert ps[n] in ps;
    UnwrapGood(s1, ps[n].value);
    UnwrapOk(s1, ps[n].value);
    var (s2, v) := Unwrap(s1, ps[n].value);
    PutSlotOk(s2, h, ps[n].index, v);
    NewsAllNext(known, ps);
    var early, late := NewsAll(known, Values(ps[..n])), News(s1.objects.Keys, ps[n].value);
    RegistersAppend(s.objects, s1.objects, s2.objects, early, late);
  }

  lemma PutNextReads(s: Store, s1: Store, h: nat, ps: seq<Slot>, k: nat)
    requires ps != [] && h < |s.heap| && FromHostSlots(ps) && Good(s1) && |s.heap| <= |s1.heap|
    requires Updated(s, s1, h, ps[..|ps| - 1], k)
    requires Registers(s.objects, s1.objects, NewsAll(s.objects.Keys, Values(ps[..|ps| - 1])))
    ensures ps[|ps| - 1] in ps
    ensures var (s2, v) := Unwrap(s1, ps[|ps| - 1].value);
      Updated(s, PutSlot(s2, h, ps[|ps| - 1].index, v), h, ps, k)
  {
    var n, known := |ps| - 1, s.objects.Keys;
    assert ps[n] in ps;
    UnwrapOk(s1, ps[n].value);
    var (s2, v) := Unwrap(s1, ps[n].value);
    PutThenGet(s2.heap[h].cache, ps[n].index, v, k);
    ReadAllNext(known, s1.objects, s2.objects, ps);
  }

  lemma ReadAllNext(known: set<string>, a: map<string, nat>, b: map<string, nat>, ps: seq<Slot>)
    requires ps != [] && Grown(a, b) && Suffices(a, known, NewsAll(known, Values(ps[..|ps| - 1])))
    ensures var n := |ps| - 1; var front := Values(ps[..n]);
      ReadAll(known, b, Values(ps)) ==
      ReadAll(known, a, front) + [Read(known + Ids(NewsAll(known, front)), b, ps[n].value)]
  {
    var n := |ps| - 1;
    assert Values(ps)[..n] == Values(ps[..n]);
    ReadAllGrows(known, a, b, Values(ps[..n]));
  }

  lemma {:induction false} PutAllOk(s: Store, h: nat, ps: seq<Slot>, k: nat)
    requires h < |s.heap| && FromHostSlots(ps) && Good(s)
    ensures var t := PutAll(s, h, ps);
      Good(t) && OnlyCache(s, t, h) && Updated(s, t, h, ps, k) &&
      Registers(s.objects, t.objects, NewsAll(s.objects.Keys, Values(ps)))
  {
    if ps != [] {
      var n := |ps| - 1;
      PutAllOk(s, h, ps[..n], k);
      PutNext(s, PutAll(s, h, ps[..n]), h, ps);
      PutNextReads(s, PutAll(s, h, ps[..n]), h, ps, k);
    }
  }

  lemma PutSlotKeepsUnwrapped(s: Store, t: Store, h: nat, k: nat, v: Value, news: seq<Announcement>)
    requires h < |s.heap| <= |t.heap| && Unwrapped(s, t, news)
    ensures Unwrapped(s, PutSlot(t, h, k, v), news)
  {
    var u := PutSlot(t, h, k, v);
    forall g: nat | |s.heap| <= g < |u.heap| ensures NestedSettled(u, g) {
      assert NestedSettled(t, g) && u.heap[g] == t.heap[g];
    }
    forall i | 0 <= i < |news| ensures Joined(u, |s.heap| + i, news[i]) {
      assert Joined(t, |s.heap| + i, news[i]);
    }
  }

  // The objects that come with the new values are those announced in them, in order,
  // each registered and unwrapped as in any other tree.
  lemma {:induction false} PutAllUnwraps(s: Store, h: nat, ps: seq<Slot>)
    requires h < |s.heap| && FromHostSlots(ps) && Good(s)
    ensures Unwrapped(s, PutAll(s, h, ps), NewsAll(s.objects.Keys, Values(ps)))
  {
    if ps != [] {
      var n, known := |ps| - 1, s.objects.Keys;
      assert ps[n] in ps;
      PutAllUnwraps(s, h, ps[..n]);
      PutAllOk(s, h, ps[..n], 0);
      var s1 := PutAll(s, h, ps[..n]);
      UnwrapOk(s1, ps[n].value);
      var (s2, v) := Unwrap(s1, ps[n].value);
      var a, b := NewsAll(known, Values(ps[..n])), News(s1.objects.Keys, ps[n].value);
      UnwrappedAppend(s, s1, s2, a, b);
      NewsAllNext(known, ps);
      PutSlotKeepsUnwrapped(s, s2, h, ps[n].index, v, a + b);
    }
  }

  // What has happened so far: the store, what was logged, and whether nothing threw.
  type Progress = (Store, seq<Invocation>, bool)

  // One emission of the second loop.  False: object.__objectSignals__ was deleted
  // under it, a TypeError.
  function EmitThen(a: Progress, h: nat, e: Emission): (b: Progress)
    requires h < |a.0.heap| && Good(a.0)
    ensures |b.0.heap| == |a.0.heap| && Good(b.0)
  {
    if !a.2 || !a.0.heap[h].live then (a.0, a.1, false)
    else
      var cbs := Handlers(a.0.heap[h], e.signal);
      assert OwnHandlers(a.0.heap[h], h);
      InvokeExact(a.0, h, e.signal, e.args, cbs);
      DestroyOk(a.0, h, a.0.heap[h].id);
      var (t, more) := Invoke(a.0, h, e.signal, e.args, cbs);
      (t, a.1 + more, true)
  }

  function EmitAll(s: Store, h: nat, es: seq<Emission>): (r: Progress)
    requires h < |s.heap| && Good(s)
    ensures |r.0.heap| == |s.heap| && Good(r.0)
  {
    if es == [] then (s, [], true) else EmitThen(EmitAll(s, h, es[..|es| - 1]), h, es[|es| - 1])
  }

  // One of the emissions destroys the object; one but the last does.
  predicate Ends(o: QObj, h: nat, es: seq<Emission>) {
    exists j | 0 <= j < |es| :: Kills(o, h, es[j].signal)
  }

  predicate Fatal(o: QObj, h: nat, es: seq<Emission>) {
    exists j | 0 <= j < |es| - 1 :: Kills(o, h, es[j].signal)
  }

  lemma EndsNext(o: QObj, h: nat, es: seq<Emission>)
    requires es != []
    ensures Fatal(o, h, es) <==> Ends(o, h, es[..|es| - 1])
    ensures Ends(o, h, es) <==> Ends(o, h, es[..|es| - 1]) || Kills(o, h, es[|es| - 1].signal)
    ensures Fatal(o, h, es[..|es| - 1]) ==> Ends(o, h, es[..|es| - 1])
  {
    var n := |es| - 1;
    if Ends(o, h, es[..n]) {
      var j :| 0 <= j < n && Kills(o, h, es[..n][j].signal);
      assert Kills(o, h, es[j].signal);
    }
    if j :| 0 <= j < n && Kills(o, h, es[j].signal) {
      assert Kills(o, h, es[..n][j].signal);
    }
    if j :| 0 <= j < |es| && Kills(o, h, es[j].signal) {
      assert j == n || Kills(o, h, es[..n][j].signal);
    }
    if j :| 0 <= j < n - 1 && Kills(o, h, es[..n][j].signal) {
      assert Ends(o, h, es[..n]);
    }
  }

  // One emission's callbacks have run: each user callback connected to its signal once,
  // in the order of connection, with its arguments; unless the signal kills, on the
  // cache of the object.
  ghost predicate Heard(log: seq<Invocation>, o: QObj, h: nat, e: Emission) {
    Fns(log) == Users(Handlers(o, e.signal)) &&
    forall i | i in log ::
      i.handle == h && i.signal == e.signal && i.args == e.args && (!Kills(o, h, e.signal) ==> i.seen == o.cache)
  }

  // parts[j] is what the j-th emission has made callbacks report, up to the first that
  // kills, and up to the last if none does.
  ghost predicate HeardUpTo(parts: seq<seq<Invocation>>, o: QObj, h: nat, es: seq<Emission>) {
    |parts| <= |es| &&
    (forall j | 0 <= j < |parts| :: Heard(parts[j], o, h, es[j])) &&
    (forall j | 0 <= j < |parts| - 1 :: !Kills(o, h, es[j].signal)) &&
    (|parts| < |es| ==> parts != [] && Kills(o, h, es[|parts| - 1].signal))
  }

  // The log is that of the emissions, one after the other.
  ghost predicate Emitted(log: seq<Invocation>, o: QObj, h: nat, es: seq<Emission>) {
    exists parts :: HeardUpTo(parts, o, h, es) && Flat(parts) == log
  }

  lemma HeardAll(parts: seq<seq<Invocation>>, o: QObj, h: nat, es: seq<Emission>, more: seq<Invocation>)
    requires es != [] && HeardUpTo(parts, o, h, es[..|es| - 1])
    requires !Ends(o, h, es[..|es| - 1]) && Heard(more, o, h, es[|es| - 1])
    ensures HeardUpTo(parts + [more], o, h, es)
  {
    var n := |es| - 1;
    forall j | 0 <= j < n ensures !Kills(o, h, es[j].signal) {
      assert es[..n][j] == es[j];
    }
    assert |parts| == n;
  }

  lemma HeardBefore(parts: seq<seq<Invocation>>, o: QObj, h: nat, es: seq<Emission>)
    requires es != [] && HeardUpTo(parts, o, h, es[..|es| - 1]) && Ends(o, h, es[..|es| - 1])
    ensures HeardUpTo(parts, o, h, es)
  {
    var n := |es| - 1;
    assert forall i | 0 <= i < n :: es[..n][i] == es[i];
    var j :| 0 <= j < n && Kills(o, h, es[..n][j].signal);
    assert j >= |parts| - 1;
    assert |parts| == n ==> j == n - 1;
  }

  lemma EmittedNext(log: seq<Invocation>, o: QObj, h: nat, es: seq<Emission>, more: seq<Invocation>)
    requires es != [] && Emitted(log, o, h, es[..|es| - 1])
    ensures Ends(o, h, es[..|es| - 1]) ==> Emitted(log, o, h, es)
    ensures !Ends(o, h, es[..|es| - 1]) && Heard(more, o, h, es[|es| - 1]) ==> Emitted(log + more, o, h, es)
  {
    var n := |es| - 1;
    var parts :| HeardUpTo(parts, o, h, es[..n]) && Flat(parts) == log;
    if Ends(o, h, es[..n]) {
      HeardBefore(parts, o, h, es);
    } else if Heard(more, o, h, es[n]) {
      HeardAll(parts, o, h, es, more);
      FlatSnoc(parts, more);
    }
  }

  // Emitting on a live object makes the callbacks of the emissions report, in order, up
  // to the first that destroys it; it throws exactly if that is not the last, and
  // changes nothing but by destroying it.
  lemma {:induction false} EmitExact(s: Store, h: nat, es: seq<Emission>)
    requires h < |s.heap| && Good(s) && s.heap[h].live
    ensures var (t, log, ok) := EmitAll(s, h, es); var o := s.heap[h];
      t == (if Ends(o, h, es) then Destroy(s, h, o.id) else s) &&
      (ok <==> !Fatal(o, h, es)) && Emitted(log, o, h, es) &&
      forall i | i in log :: i.handle == h && (!Kills(o, h, i.signal) ==> i.seen == o.cache)
  {
    var o := s.heap[h];
    if es == [] {
      assert HeardUpTo([], o, h, es) && Flat<Invocation>([]) == [];
    } else {
      var n := |es| - 1;
      EmitExact(s, h, es[..n]);
      EndsNext(o, h, es);
      var log, more := EmitAll(s, h, es[..n]).1, Reports(Handlers(o, es[n].signal), o, h, es[n].signal, es[n].args);
      ReportsAre(Handlers(o, es[n].signal), o, h, es[n].signal, es[n].args);
      EmittedNext(log, o, h, es, more);
      if !Ends(o, h, es[..n]) {
        assert OwnHandlers(o, h);
        InvokeExact(s, h, es[n].signal, es[n].args, Handlers(o, es[n].signal));
      }
    }
  }

  function PropertyUpdate(s: Store, h: nat, u: Update): (r: Progress)
    requires h < |s.heap| && UpdateFromHost(u) && Good(s)
    ensures Good(r.0)
  {
    PutAllOk(s, h, u.properties, 0);
    EmitAll(PutAll(s, h, u.properties), h, u.signals)
  }

  // The callbacks of one update run emission by emission, in order, with the arguments
  // the update carries for each, up to the first that destroys the object; those on a
  // signal that does aside, on the cache as the first loop left it.  The update throws
  // exactly if an emission but the last destroys the object.
  lemma UpdateDelivers(s: Store, h: nat, u: Update)
    requires h < |s.heap| && s.heap[h].live && UpdateFromHost(u) && Good(s)
    ensures var s1 := PutAll(s, h, u.properties); var (t, log, ok) := PropertyUpdate(s, h, u); var o := s.heap[h];
      OnlyCache(s, s1, h) && Emitted(log, s1.heap[h], h, u.signals) &&
      t == (if Ends(o, h, u.signals) then Destroy(s1, h, o.id) else s1) && (ok <==> !Fatal(o, h, u.signals)) &&
      forall i | i in log :: i.handle == h && (!Kills(o, h, i.signal) ==> i.seen == s1.heap[h].cache)
  {
    PutAllOk(s, h, u.properties, 0);
    var s1 := PutAll(s, h, u.properties);
    EmitExact(s1, h, u.signals);
    SameKills(s.heap[h], s1.heap[h], h, u.signals);
  }

  // So each of them sees all of the new values: for each key the cache it saw holds the
  // reading of the last value the update carries for that key, or the old value where
  // it carries none.
  lemma UpdateIsAtomic(s: Store, h: nat, u: Update, k: nat)
    requires h < |s.heap| && s.heap[h].live && UpdateFromHost(u) && Good(s)
    ensures var s1 := PutAll(s, h, u.properties); var (t, log, ok) := PropertyUpdate(s, h, u); var o := s.heap[h];
      Updated(s, s1, h, u.properties, k) && OnlyCache(s, s1, h) && Emitted(log, s1.heap[h], h, u.signals) &&
      t == (if Ends(o, h, u.signals) then Destroy(s1, h, o.id) else s1) &&
      (ok <==> !Fatal(o, h, u.signals)) &&
      forall i | i in log :: i.handle == h && (!Kills(o, h, i.signal) ==> Get(i.seen, k) == Get(s1.heap[h].cache, k))
  {
    PutAllOk(s, h, u.properties, k);
    UpdateDelivers(s, h, u);
  }

  lemma SameKills(o: QObj, p: QObj, h: nat, es: seq<Emission>)
    requires p == o.(cache := p.cache)
    ensures Ends(o, h, es) <==> Ends(p, h, es)
    ensures Fatal(o, h, es) <==> Fatal(p, h, es)
    ensures forall signal :: Kills(o, h, signal) <==> Kills(p, h, signal)
  {
    forall signal ensures Kills(o, h, signal) <==> Kills(p, h, signal) {
      assert Handlers(o, signal) == Handlers(p, signal);
    }
  }

  // ------------------------------------------------------- property-update messages

  predicate UpdatesFromHost(us: seq<Update>) {
    us == [] || (UpdatesFromHost(us[..|us| - 1]) && UpdateFromHost(us[|us| - 1]))
  }

  lemma {:induction false} UpdatesFromHostPrefix(us: seq<Update>, i: nat)
    requires UpdatesFromHost(us) && i <= |us|
    ensures UpdatesFromHost(us[..i]) && (i < |us| ==> UpdateFromHost(us[i]))
  {
    if i == |us| {
      assert us[..i] == us;
    } else {
      assert us[..|us| - 1][..i] == us[..i];
      UpdatesFromHostPrefix(us[..|us| - 1], i);
    }
  }

  // One more message entry, for a loop over them.
  lemma UpdatesNext(s: Store, us: seq<Update>, i: nat)
    requires Good(s) && UpdatesFromHost(us) && i < |us|
    ensures UpdatesFromHost(us[..i]) && UpdatesFromHost(us[..i + 1]) && UpdateFromHost(us[i])
    ensures Updates(s, us[..i + 1]) == AndThen(Updates(s, us[..i]), us[i])
  {
    UpdatesFromHostPrefix(us, i);
    UpdatesFromHostPrefix(us, i + 1);
    assert us[..i + 1][..i] == us[..i];
  }

  function AndThen(a: Progress, u: Update): (b: Progress)
    requires Good(a.0) && UpdateFromHost(u)
    ensures Good(b.0)
  {
    if !a.2 then a
    else
      var (t, more, ok) := OneUpdate(a.0, u);
      (t, a.1 + more, ok)
  }

  function OneUpdate(s: Store, u: Update): (r: Progress)
    requires Good(s) && UpdateFromHost(u)
    ensures Good(r.0)
  {
    if u.target in s.objects then PropertyUpdate(s, s.objects[u.target], u) else (s, [], true)
  }

  // handlePropertyUpdate up to the idle message; an exception ends it early
  function Updates(s: Store, us: seq<Update>): (r: Progress)
    requires Good(s) && UpdatesFromHost(us)
    ensures Good(r.0)
  {
    if us == [] then (s, [], true) else AndThen(Updates(s, us[..|us| - 1]), us[|us| - 1])
  }

  // The entry is for a registered object that an emission but the last destroys.
  ghost predicate Throws(s: Store, u: Update)
    requires Consistent(s)
  {
    u.target in s.objects && Fatal(s.heap[s.objects[u.target]], s.objects[u.target], u.signals)
  }

  // No entry of the message throws, each looked at when its turn comes.
  ghost predicate Smooth(s: Store, us: seq<Update>)
    requires Good(s) && UpdatesFromHost(us)
  {
    us == [] ||
    (var n := |us| - 1;
     Smooth(s, us[..n]) && !Throws(Updates(s, us[..n]).0, us[n]))
  }

  // Handling a property-update message throws exactly if it is not smooth.
  lemma {:induction false} UpdatesThrow(s: Store, us: seq<Update>)
    requires Good(s) && UpdatesFromHost(us)
    ensures Updates(s, us).2 <==> Smooth(s, us)
  {
    if us != [] {
      var n := |us| - 1;
      UpdatesThrow(s, us[..n]);
      var s1 := Updates(s, us[..n]).0;
      if us[n].target in s1.objects {
        UpdateIsAtomic(s1, s1.objects[us[n].target], us[n], 0);
      }
    }
  }

  // name's object is registered as before, with the same callbacks.
  ghost predicate SameHandlers(s: Store, t: Store, name: string)
    requires Consistent(s) && name in s.objects
  {
    name in t.objects && t.objects[name] == s.objects[name] < |t.heap| &&
    t.heap[t.objects[name]] == s.heap[s.objects[name]]
  }

  lemma DestroyElsewhere(s: Store, s1: Store, h: nat, name: string)
    requires h < |s.heap| && OnlyCache(s, s1, h) && Consistent(s) && s.heap[h].live
    requires name in s.objects && name != s.heap[h].id
    ensures SameHandlers(s, s1, name) && SameHandlers(s, Destroy(s1, h, s.heap[h].id), name)
  {
    assert s.heap[s.objects[name]].id == name;
  }

  lemma OneUpdateElsewhere(s: Store, u: Update, name: string)
    requires Good(s) && UpdateFromHost(u) && name in s.objects && u.target != name
    ensures SameHandlers(s, OneUpdate(s, u).0, name)
  {
    if u.target in s.objects {
      var h := s.objects[u.target];
      UpdateIsAtomic(s, h, u, 0);
      DestroyElsewhere(s, PutAll(s, h, u.properties), h, name);
    } else {
      assert s.heap[s.objects[name]].id == name;
    }
  }

  lemma {:induction false} UpdatesElsewhere(s: Store, us: seq<Update>, name: string)
    requires Good(s) && UpdatesFromHost(us) && name in s.objects && forall u | u in us :: u.target != name
    ensures SameHandlers(s, Updates(s, us).0, name)
  {
    if us != [] {
      var n := |us| - 1;
      assert us[n] in us;
      UpdatesElsewhere(s, us[..n], name);
      var s1 := Updates(s, us[..n]).0;
      OneUpdateElsewhere(s1, us[n], name);
    }
  }

  // What one entry of the message does: nothing for an unknown object; otherwise the
  // values it carries are put in the cache, with whatever they announce, the callbacks
  // of its emissions report, and the object is destroyed if one of them says so.
  ghost predicate EntryDone(s: Store, u: Update, t: Store, log: seq<Invocation>)
    requires Good(s) && UpdateFromHost(u)
  {
    if u.target !in s.objects then t == s && log == []
    else
      var h := s.objects[u.target];
      var s1 := PutAll(s, h, u.properties);
      OnlyCache(s, s1, h) && (forall k :: Updated(s, s1, h, u.properties, k)) &&
      Unwrapped(s, s1, NewsAll(s.objects.Keys, Values(u.properties))) &&
      Emitted(log, s1.heap[h], h, u.signals) &&
      t == if Ends(s.heap[h], h, u.signals) then Destroy(s1, h, u.target) else s1
  }

  lemma OneUpdateDoes(s: Store, u: Update)
    requires Good(s) && UpdateFromHost(u)
    ensures var (t, log, ok) := OneUpdate(s, u); EntryDone(s, u, t, log) && (ok <==> !Throws(s, u))
  {
    if u.target in s.objects {
      var h := s.objects[u.target];
      UpdateDelivers(s, h, u);
      PutAllUnwraps(s, h, u.properties);
      forall k ensures Updated(s, PutAll(s, h, u.properties), h, u.properties, k) {
        PutAllOk(s, h, u.properties, k);
      }
    }
  }

  // The entries have been dealt with in order, from store to store, up to the first
  // that throws.
  ghost predicate EntriesDone(us: seq<Update>, stores: seq<Store>, logs: seq<seq<Invocation>>) {
    |stores| == |logs| + 1 <= |us| + 1 && (forall i | 0 <= i < |stores| :: Good(stores[i])) && UpdatesFromHost(us) &&
    (forall i | 0 <= i < |logs| :: UpdateFromHost(us[i]) && EntryDone(stores[i], us[i], stores[i + 1], logs[i])) &&
    (forall i | 0 <= i < |logs| - 1 :: !Throws(stores[i], us[i])) &&
    (|logs| < |us| ==> logs != [] && Throws(stores[|logs| - 1], us[|logs| - 1]))
  }

  // None of them has thrown.
  ghost predicate AllWell(us: seq<Update>, stores: seq<Store>, logs: seq<seq<Invocation>>)
    requires EntriesDone(us, stores, logs)
  {
    |logs| == |us| && (us != [] ==> !Throws(stores[|us| - 1], us[|us| - 1]))
  }

  ghost predicate DoneThrough(
      s: Store, us: seq<Update>, t: Store, log: seq<Invocation>, stores: seq<Store>, logs: seq<seq<Invocation>>)
  {
    EntriesDone(us, stores, logs) && stores[0] == s && stores[|logs|] == t && Flat(logs) == log
  }

  // From s to t through all of them, with that log; ok if none has thrown.
  ghost predicate MessageDone(s: Store, us: seq<Update>, t: Store, log: seq<Invocation>, ok: bool) {
    exists stores, logs :: DoneThrough(s, us, t, log, stores, logs) && (ok <==> AllWell(us, stores, logs))
  }

  lemma EntriesNext(us: seq<Update>, stores: seq<Store>, logs: seq<seq<Invocation>>, t: Store, more: seq<Invocation>)
    requires us != [] && UpdatesFromHost(us) && Good(t)
    requires EntriesDone(us[..|us| - 1], stores, logs) && |logs| == |us| - 1
    requires |us| > 1 ==> !Throws(stores[|us| - 2], us[|us| - 2])
    requires EntryDone(stores[|us| - 1], us[|us| - 1], t, more)
    ensures EntriesDone(us, stores + [t], logs + [more])
  {
    var n := |us| - 1;
    var after, all := stores + [t], logs + [more];
    forall i | 0 <= i < |all| ensures UpdateFromHost(us[i]) && EntryDone(after[i], us[i], after[i + 1], all[i]) {
      if i < n {
        assert us[..n][i] == us[i] && EntryDone(stores[i], us[..n][i], stores[i + 1], logs[i]);
      }
    }
    forall i | 0 <= i < n ensures !Throws(after[i], us[i]) {
      assert i < n - 1 ==> us[..n][i] == us[i] && !Throws(stores[i], us[..n][i]);
    }
  }

  // Nothing is done after an entry that throws.
  lemma EntriesStay(us: seq<Update>, stores: seq<Store>, logs: seq<seq<Invocation>>)
    requires us != [] && UpdatesFromHost(us) && EntriesDone(us[..|us| - 1], stores, logs)
    requires |logs| == |us| - 1 ==> logs != [] && Throws(stores[|us| - 2], us[|us| - 2])
    ensures EntriesDone(us, stores, logs)
  {
    var n := |us| - 1;
    forall i | 0 <= i < |logs|
      ensures UpdateFromHost(us[i]) && EntryDone(stores[i], us[i], stores[i + 1], logs[i])
    {
      assert us[..n][i] == us[i] && EntryDone(stores[i], us[..n][i], stores[i + 1], logs[i]);
    }
  }

  lemma DoneOneMore(
      s: Store, us: seq<Update>, t: Store, log: seq<Invocation>, stores: seq<Store>, logs: seq<seq<Invocation>>,
      t': Store, more: seq<Invocation>)
    requires us != [] && UpdatesFromHost(us) && Good(t) && DoneThrough(s, us[..|us| - 1], t, log, stores, logs)
    requires AllWell(us[..|us| - 1], stores, logs) && Good(t') && EntryDone(t, us[|us| - 1], t', more)
    ensures DoneThrough(s, us, t', log + more, stores + [t'], logs + [more])
  {
    var n := |us| - 1;
    FlatSnoc(logs, more);
    assert n > 0 ==> us[..n][n - 1] == us[n - 1];
    EntriesNext(us, stores, logs, t', more);
  }

  lemma WellOneMore(us: seq<Update>, stores: seq<Store>, logs: seq<seq<Invocation>>, t': Store, more: seq<Invocation>)
    requires us != [] && |stores| == |us| && |logs| == |us| - 1 && Good(stores[|us| - 1])
    requires EntriesDone(us, stores + [t'], logs + [more])
    ensures AllWell(us, stores + [t'], logs + [more]) <==> !Throws(stores[|us| - 1], us[|us| - 1])
  {
    assert (stores + [t'])[|us| - 1] == stores[|us| - 1];
  }

  lemma DoneIs(
      s: Store, us: seq<Update>, t: Store, log: seq<Invocation>, stores: seq<Store>, logs: seq<seq<Invocation>>,
      ok: bool)
    requires DoneThrough(s, us, t, log, stores, logs) && (ok <==> AllWell(us, stores, logs))
    ensures MessageDone(s, us, t, log, ok)
  {
  }

  lemma DoneBefore(
      s: Store, us: seq<Update>, t: Store, log: seq<Invocation>, stores: seq<Store>, logs: seq<seq<Invocation>>)
    requires us != [] && UpdatesFromHost(us) && DoneThrough(s, us[..|us| - 1], t, log, stores, logs)
    requires !AllWell(us[..|us| - 1], stores, logs)
    ensures MessageDone(s, us, t, log, false)
  {
    EntriesStay(us, stores, logs);
    assert DoneThrough(s, us, t, log, stores, logs) && !AllWell(us, stores, logs);
  }

  // A property-update message does what its entries do, in order, up to the first that
  // throws.
  lemma {:induction false} UpdatesDo(s: Store, us: seq<Update>)
    requires Good(s) && UpdatesFromHost(us)
    ensures var (t, log, ok) := Updates(s, us); MessageDone(s, us, t, log, ok)
  {
    if us == [] {
      assert EntriesDone(us, [s], []) && Flat<Invocation>([]) == [];
      assert DoneThrough(s, us, s, [], [s], []) && AllWell(us, [s], []);
    } else {
      var n := |us| - 1;
      UpdatesDo(s, us[..n]);
      var (t, log, ok) := Updates(s, us[..n]);
      var stores, logs :| DoneThrough(s, us[..n], t, log, stores, logs) && (ok <==> AllWell(us[..n], stores, logs));
      if ok {
        OneUpdateDoes(t, us[n]);
        var (t', more, ok') := OneUpdate(t, us[n]);
        DoneOneMore(s, us, t, log, stores, logs, t', more);
        WellOneMore(us, stores, logs, t', more);
        DoneIs(s, us, t', log + more, stores + [t'], logs + [more], ok');
      } else {
        DoneBefore(s, us, t, log, stores, logs);
      }
    }
  }

  // A message with one entry each for objects already registered is smooth exactly
  // if none of its entries throws at the outset.
  lemma {:induction false} SmoothAtOnce(s: Store, us: seq<Update>)
    requires Good(s) && UpdatesFromHost(us)
    requires forall u | u in us :: u.target in s.objects
    requires forall i, j | 0 <= i < j < |us| :: us[i].target != us[j].target
    ensures Smooth(s, us) <==> forall u | u in us :: !Throws(s, u)
  {
    if us != [] {
      var n := |us| - 1;
      assert us[n] in us && forall u :: u in us <==> u in us[..n] || u == us[n];
      SmoothAtOnce(s, us[..n]);
      forall u | u in us[..n] ensures u.target != us[n].target {
        var i :| 0 <= i < n && us[i] == u;
      }
      UpdatesElsewhere(s, us[..n], us[n].target);
      assert Throws(Updates(s, us[..n]).0, us[n]) <==> Throws(s, us[n]);
    }
  }

  // ----------------------------------------------------------------------- signals

  // handleSignal
  function Signal(s: Store, target: string, signal: nat, args: Value): (r: (Store, seq<Invocation>))
    requires Good(s) && FromHost(args)
    ensures Good(r.0)
  {
    if target !in s.objects then (s, [])
    else
      var h := s.objects[target];
      UnwrapGood(s, args);
      var (s1, given) := Unwrap(s, args);
      var cbs := Handlers(s1.heap[h], signal);
      assert OwnHandlers(s1.heap[h], h);
      InvokeExact(s1, h, signal, given, cbs);
      DestroyOk(s1, h, target);
      Invoke(s1, h, signal, given, cbs)
  }

  // A signal of a registered object runs exactly the user callbacks connected to
  // it, on the reading of the arguments the host sent, and destroys the object
  // exactly if its own destroyer is among them; that of an unknown object does
  // nothing.
  lemma SignalReachesCallbacks(s: Store, target: string, signal: nat, args: Value)
    requires Good(s) && FromHost(args)
    ensures target !in s.objects ==> Signal(s, target, signal, args) == (s, [])
    ensures target in s.objects ==>
      var h := s.objects[target]; var (t, log) := Signal(s, target, signal, args); var s1 := Unwrap(s, args).0;
      t == (if Kills(s.heap[h], h, signal) then Destroy(s1, h, target) else s1) &&
      Heard(log, s.heap[h], h, Emission(signal, Read(s.objects.Keys, s1.objects, args)))
  {
    if target in s.objects {
      var h := s.objects[target];
      UnwrapGood(s, args);
      UnwrapOk(s, args);
      var (s1, given) := Unwrap(s, args);
      assert OwnHandlers(s1.heap[h], h);
      InvokeExact(s1, h, signal, given, Handlers(s1.heap[h], signal));
      ReportsAre(Handlers(s1.heap[h], signal), s1.heap[h], h, signal, given);
    }
  }
}
