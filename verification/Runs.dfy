// Whole runs of an initialised channel: messages from the host and calls from
// user code in any order.
module Runs {
  import opened Wire
  import opened QObjects
  import opened Registry
  import opened Reading
  import opened Unwrapping
  import opened InitResponse
  import opened Delivery

  datatype State = State(store: Store, log: seq<Invocation>, sent: seq<Message>)

  datatype Event =
    | OnSignal(target: string, signal: nat, args: Value)
    | OnUpdate(updates: seq<Update>)
    | OnReturn(value: Value)                            // result of a method call
    | CallSignal(handle: nat, op: SignalOp)             // user code connects or disconnects
    | CallSet(handle: nat, key: nat, value: Value)      // user code assigns a property

  // The host sends wire trees; user code passes functions of its own, and values
  // it can hold, to objects that still exist.
  ghost predicate Possible(s: Store, e: Event) {
    match e
    case OnSignal(_, _, args) => FromHost(args)
    case OnUpdate(us) => UpdatesFromHost(us)
    case OnReturn(value) => FromHost(value)
    case CallSignal(h, op) => h < |s.heap| && s.heap[h].live && op.cb.User?
    case CallSet(h, _, value) => h < |s.heap| && s.heap[h].live && Clean(value, |s.heap|)
  }

  // ------------------------------------------------------------ calls of user code

  function CallSignalFx(s: Store, h: nat, op: SignalOp): (Store, seq<Message>)
    requires h < |s.heap|
  {
    var (o, msgs) := QObjects.Step(s.heap[h], op);
    (s.(heap := s.heap[h := o]), msgs)
  }

  // v is, if an object at all, one there has been.
  ghost predicate Held(s: Store, v: Value) {
    v.Object? ==> v.handle < |s.heap|
  }

  // A registered object is sent as its id alone.
  function ToSend(s: Store, v: Value): Value
    requires Held(s, v)
  {
    if v.Object? && s.heap[v.handle].live && s.heap[v.handle].id in s.objects
    then Dict(["id"], [Prim(s.heap[v.handle].id)])
    else v
  }

  // The arguments of a method call, as sent.
  function SentArgs(s: Store, vs: seq<Value>): (r: seq<Value>)
    requires forall v | v in vs :: Held(s, v)
  {
    if vs == [] then []
    else
      assert vs[|vs| - 1] in vs;
      SentArgs(s, vs[..|vs| - 1]) + [ToSend(s, vs[|vs| - 1])]
  }

  // A fully specified method goes by its index, another by its name.
  function MethodOf(name: string, index: nat): MethodId {
    if name != "" && name[|name| - 1] == ')' then ByIndex(index) else ByName(name)
  }

  // The last character decides, and an empty name has none.
  lemma MethodOfIs(name: string, last: char, index: nat)
    ensures MethodOf(name + [last], index) == if last == ')' then ByIndex(index) else ByName(name + [last])
    ensures MethodOf("", index) == ByName("")
  {
  }

  // A live object is sent as its id and anything else as it is.
  lemma ToSendIs(s: Store, v: Value)
    requires Consistent(s) && Held(s, v)
    ensures ToSend(s, v) == if v.Object? && s.heap[v.handle].live then Dict(["id"], [Prim(s.heap[v.handle].id)]) else v
  {
  }

  // Every argument is sent in its place.
  lemma {:induction false} SentArgsAre(s: Store, vs: seq<Value>, i: nat)
    requires Consistent(s) && (forall v | v in vs :: Held(s, v)) && i < |vs|
    ensures |SentArgs(s, vs)| == |vs| && vs[i] in vs
    ensures SentArgs(s, vs)[i] ==
      if vs[i].Object? && s.heap[vs[i].handle].live then Dict(["id"], [Prim(s.heap[vs[i].handle].id)]) else vs[i]
  {
    var n := |vs| - 1;
    assert vs[n] in vs;
    if n > 0 {
      SentArgsAre(s, vs[..n], if i < n then i else 0);
    }
    ToSendIs(s, vs[n]);
  }

  function CallSetFx(s: Store, h: nat, key: nat, v: Value): (Store, seq<Message>)
    requires h < |s.heap| && Held(s, v)
  {
    if v == Undefined then (s, [])
    else
      var t := PutSlot(s, h, key, v);
      (t, [SetProperty(s.heap[h].id, key, ToSend(t, v))])
  }

  // Assigning a property makes it read back as assigned, changes no other, and
  // tells the host once.  A live object is sent as its id; anything else, a list
  // or dictionary with objects in it included, is sent as it is.
  lemma SetterReadsBack(s: Store, h: nat, key: nat, v: Value, k: nat)
    requires h < |s.heap| && Held(s, v) && Consistent(s)
    ensures var (t, msgs) := CallSetFx(s, h, key, v);
      Get(t.heap[h].cache, k) == (if k == key && v != Undefined then v else Get(s.heap[h].cache, k)) &&
      |msgs| == (if v == Undefined then 0 else 1) &&
      forall m | m in msgs ::
        m.SetProperty? && m.target == s.heap[h].id && m.property == key &&
        m.value == if v.Object? && s.heap[v.handle].live then Dict(["id"], [Prim(s.heap[v.handle].id)]) else v
  {
    PutThenGet(s.heap[h].cache, key, v, k);
    ToSendIs(PutSlot(s, h, key, v), v);
  }

  lemma StepOwn(o: QObj, h: nat, op: SignalOp)
    requires op.cb.User? && OwnHandlers(o, h)
    ensures OwnHandlers(QObjects.Step(o, op).0, h)
  {
    var o' := QObjects.Step(o, op).0;
    forall signal | signal in o'.handlers ensures OwnCallbacks(o'.handlers[signal], h, o.id) {
      forall cb | cb in o'.handlers[signal] && cb.Destroyer? ensures cb in Handlers(o, signal) {}
    }
  }

  lemma CallSignalGood(s: Store, h: nat, op: SignalOp)
    requires Good(s) && h < |s.heap| && op.cb.User?
    ensures var t := CallSignalFx(s, h, op).0; Good(t) && Lineage(s, t)
  {
    assert OwnHandlers(s.heap[h], h);
    StepOwn(s.heap[h], h, op);
    HandlersReplaced(s, h, QObjects.Step(s.heap[h], op).0.handlers);
  }

  lemma HandlersReplaced(s: Store, h: nat, handlers: map<nat, seq<Callback>>)
    requires Good(s) && h < |s.heap| && OwnHandlers(s.heap[h].(handlers := handlers), h)
    ensures var t := s.(heap := s.heap[h := s.heap[h].(handlers := handlers)]); Good(t) && Lineage(s, t)
  {
    var t := s.(heap := s.heap[h := s.heap[h].(handlers := handlers)]);
    forall g: nat | g < |t.heap| ensures OwnHandlers(t.heap[g], g) {
      assert OwnHandlers(s.heap[g], g);
    }
  }

  // ------------------------------------------------------------------------- events

  // The store an event leaves, what user callbacks report and what is sent.
  function Effect(s: Store, e: Event): (r: (Store, seq<Invocation>, seq<Message>))
    requires Good(s) && Possible(s, e)
    ensures Good(r.0)
  {
    match e
    case OnSignal(target, signal, args) =>
      var (t, log) := Signal(s, target, signal, args);
      (t, log, [])
    case OnUpdate(us) =>
      var (t, log, ok) := Updates(s, us);
      (t, log, if ok then [Idle] else [])
    case OnReturn(value) =>
      UnwrapGood(s, value);
      (Unwrap(s, value).0, [], [])
    case CallSignal(h, op) =>
      CallSignalGood(s, h, op);
      var (t, msgs) := CallSignalFx(s, h, op);
      (t, [], msgs)
    case CallSet(h, key, value) =>
      PutSlotOk(s, h, key, value);
      var (t, msgs) := CallSetFx(s, h, key, value);
      (t, [], msgs)
  }

  function Next(st: State, e: Event): (r: State)
    requires Good(st.store) && Possible(st.store, e)
    ensures Good(r.store)
  {
    var (t, log, msgs) := Effect(st.store, e);
    State(t, st.log + log, st.sent + msgs)
  }

  lemma NextCall(st: State, h: nat, op: SignalOp)
    requires Good(st.store) && Possible(st.store, CallSignal(h, op))
    ensures var (t, msgs) := CallSignalFx(st.store, h, op);
      Next(st, CallSignal(h, op)) == State(t, st.log, st.sent + msgs)
  {
    assert st.log + [] == st.log;
  }

  // What an event does.  A signal of a registered object makes the callbacks connected
  // to it report, on its arguments as read, and destroys the object if it kills; that
  // of an unknown one does nothing.  An update does what its entries do, and is answered
  // by idle if none throws.  A method's result is unwrapped.  User code changes the
  // callbacks, or the cache, of one object and tells the host.
  ghost predicate Does(st: State, e: Event, u: State)
    requires Good(st.store) && Possible(st.store, e)
  {
    var s, t := st.store, u.store;
    match e
    case OnSignal(target, signal, args) =>
      if target !in s.objects then u == st
      else
        var h, s1 := s.objects[target], Unwrap(s, args).0;
        t == (if Kills(s.heap[h], h, signal) then Destroy(s1, h, target) else s1) && u.sent == st.sent &&
        st.log <= u.log &&
        Heard(u.log[|st.log|..], s.heap[h], h, Emission(signal, Read(s.objects.Keys, s1.objects, args)))
    case OnUpdate(us) =>
      st.log <= u.log && MessageDone(s, us, t, u.log[|st.log|..], Smooth(s, us)) &&
      u.sent == st.sent + if Smooth(s, us) then [Idle] else []
    case OnReturn(value) => u == st.(store := Unwrap(s, value).0)
    case CallSignal(h, op) =>
      var (o, msgs) := QObjects.Step(s.heap[h], op);
      u == State(s.(heap := s.heap[h := o]), st.log, st.sent + msgs)
    case CallSet(h, key, value) => u.log == st.log && Assigned(s, t, h, key, value, st.sent, u.sent)
  }

  // The property has its new value, nothing else has changed, and the host is told; not
  // so for undefined.
  ghost predicate Assigned(
      s: Store, t: Store, h: nat, key: nat, value: Value, before: seq<Message>, after: seq<Message>)
    requires h < |s.heap| && Held(s, value)
  {
    OnlyCache(s, t, h) && t.objects == s.objects && |t.heap| == |s.heap| &&
    (forall k ::
       Get(t.heap[h].cache, k) == if k == key && value != Undefined then value else Get(s.heap[h].cache, k)) &&
    after == before +
      if value == Undefined then []
      else if value.Object? && s.heap[value.handle].live
      then [SetProperty(s.heap[h].id, key, Dict(["id"], [Prim(s.heap[value.handle].id)]))]
      else [SetProperty(s.heap[h].id, key, value)]
  }

  lemma SetAssigns(s: Store, h: nat, key: nat, value: Value, before: seq<Message>)
    requires Good(s) && h < |s.heap| && Held(s, value)
    ensures var (t, msgs) := CallSetFx(s, h, key, value); Assigned(s, t, h, key, value, before, before + msgs)
  {
    var (t, msgs) := CallSetFx(s, h, key, value);
    forall k
      ensures Get(t.heap[h].cache, k) == if k == key && value != Undefined then value else Get(s.heap[h].cache, k)
    {
      SetterReadsBack(s, h, key, value, k);
    }
    SetterReadsBack(s, h, key, value, 0);
  }

  lemma NextDoes(st: State, e: Event)
    requires Good(st.store) && Possible(st.store, e)
    ensures Does(st, e, Next(st, e))
  {
    var u := Next(st, e);
    var log := Effect(st.store, e).1;
    assert u.log[|st.log|..] == log && u.log[..|st.log|] == st.log;
    match e
    case OnSignal(target, signal, args) =>
      SignalReachesCallbacks(st.store, target, signal, args);
      assert u.sent == st.sent && (log == [] ==> u.log == st.log);
    case OnUpdate(us) =>
      UpdatesDo(st.store, us);
      UpdatesThrow(st.store, us);
    case OnReturn(_) => assert u.sent == st.sent && u.log == st.log;
    case CallSignal(_, _) => assert u.log == st.log;
    case CallSet(h, key, value) =>
      SetAssigns(st.store, h, key, value, st.sent);
      assert u.log == st.log;
  }

  // The state after a run of events, None if one of them cannot happen.
  ghost function RunFrom(st: State, events: seq<Event>): (r: Option<State>)
    requires Good(st.store)
    ensures r.Some? ==> Good(r.value.store)
  {
    if events == [] then Some(st)
    else
      var last := events[|events| - 1];
      match RunFrom(st, events[..|events| - 1])
      case None => None
      case Some(mid) => if Possible(mid.store, last) then Some(Next(mid, last)) else None
  }

  // ------------------------------------------------------------- after the init

  // After the init response: the roots unwrapped and the first idle message sent.
  function Initial(roots: seq<Root>): (r: State)
    requires RootsFromHost(roots)
    ensures Good(r.store)
  {
    InitGood(roots);
    State(UnwrapRoots(roots, |roots|), [], [Init(0), Idle])
  }

  lemma ReadyIsGood(s: Store, roots: nat)
    requires Consistent(s) && forall h: nat | h < |s.heap| :: Ready(s, h, roots)
    ensures Good(s)
  {
    forall h: nat | h < |s.heap|
      ensures CleanSlots(s.heap[h].cache, |s.heap|) && s.heap[h].passes == 1 && OwnHandlers(s.heap[h], h)
    {
      assert Ready(s, h, roots);
    }
  }

  lemma InitGood(roots: seq<Root>)
    requires RootsFromHost(roots)
    ensures Good(UnwrapRoots(roots, |roots|))
  {
    InitLeavesReady(roots);
    ReadyIsGood(UnwrapRoots(roots, |roots|), |roots|);
  }

  // ------------------------------------------------------ what no host message changes

  // Every object still alive has the signals and callbacks it had, and a new one
  // the client's own callback only.
  ghost predicate SignalsKept(s: Store, t: Store) {
    forall h: nat | h < |t.heap| && t.heap[h].live :: ObjectKept(s, t, h)
  }

  ghost predicate ObjectKept(s: Store, t: Store, h: nat)
    requires h < |t.heap|
  {
    var o := t.heap[h];
    if h < |s.heap| then o.members == s.heap[h].members && o.handlers == s.heap[h].handlers
    else o.handlers == Watching(h, o.id, o.members)
  }

  ghost predicate Preserves(s: Store, t: Store) {
    Lineage(s, t) && SignalsKept(s, t)
  }

  lemma PreservesTransitive(s: Store, t: Store, u: Store)
    requires Preserves(s, t) && Preserves(t, u)
    ensures Preserves(s, u)
  {
    forall h: nat | h < |u.heap| && u.heap[h].live ensures ObjectKept(s, u, h) {
      assert ObjectKept(t, u, h);
      if h < |t.heap| { assert ObjectKept(s, t, h); }
    }
  }

  lemma DestroyKept(s: Store, h: nat, id: string)
    requires h < |s.heap|
    ensures Preserves(s, s) && Preserves(s, Destroy(s, h, id))
  {
  }

  lemma JoinedKept(s: Store, t: Store, h: nat, a: Announcement)
    requires |s.heap| <= h && Joined(t, h, a)
    ensures ObjectKept(s, t, h)
  {
  }

  lemma EnrolledKept(s: Store, t: Store, news: seq<Announcement>)
    requires Extends(s, t, -1) && |t.heap| == |s.heap| + |news| && AllJoined(t, |s.heap|, news)
    ensures Preserves(s, t)
  {
    forall h: nat | |s.heap| <= h < |t.heap| ensures ObjectKept(s, t, h) {
      assert Joined(t, |s.heap| + (h - |s.heap|), news[h - |s.heap|]);
      JoinedKept(s, t, h, news[h - |s.heap|]);
    }
  }

  lemma UnwrapKept(s: Store, v: Value)
    requires FromHost(v) && Good(s)
    ensures Preserves(s, Unwrap(s, v).0)
  {
    UnwrapOk(s, v);
    EnrolledKept(s, Unwrap(s, v).0, News(s.objects.Keys, v));
  }

  lemma PutSlotKept(s: Store, h: nat, k: nat, v: Value)
    requires h < |s.heap|
    ensures Preserves(s, PutSlot(s, h, k, v))
  {
  }

  lemma {:induction false} PutAllKept(s: Store, h: nat, ps: seq<Slot>)
    requires h < |s.heap| && FromHostSlots(ps) && Good(s)
    ensures Preserves(s, PutAll(s, h, ps))
  {
    if ps == [] {
      DestroyKept(s, h, "");
    } else {
      var n := |ps| - 1;
      assert ps[n] in ps;
      PutAllKept(s, h, ps[..n]);
      PutAllOk(s, h, ps[..n], 0);
      var s1 := PutAll(s, h, ps[..n]);
      var (s2, v) := Unwrap(s1, ps[n].value);
      UnwrapKept(s1, ps[n].value);
      PutSlotKept(s2, h, ps[n].index, v);
      PreservesTransitive(s, s1, s2);
      PreservesTransitive(s, s2, PutSlot(s2, h, ps[n].index, v));
    }
  }

  lemma SameKept(s: Store)
    ensures Preserves(s, s)
  {
  }

  lemma OneUpdateKept(s: Store, u: Update)
    requires Good(s) && UpdateFromHost(u)
    ensures Preserves(s, OneUpdate(s, u).0)
  {
    SameKept(s);
    if u.target in s.objects {
      var h := s.objects[u.target];
      var s1 := PutAll(s, h, u.properties);
      UpdateIsAtomic(s, h, u, 0);
      PutAllKept(s, h, u.properties);
      DestroyKept(s1, h, s.heap[h].id);
      PreservesTransitive(s, s1, Destroy(s1, h, s.heap[h].id));
    }
  }

  lemma {:induction false} UpdatesKept(s: Store, us: seq<Update>)
    requires Good(s) && UpdatesFromHost(us)
    ensures Preserves(s, Updates(s, us).0)
  {
    SameKept(s);
    if us != [] {
      var n := |us| - 1;
      UpdatesKept(s, us[..n]);
      var a := Updates(s, us[..n]);
      OneUpdateKept(a.0, us[n]);
      PreservesTransitive(s, a.0, OneUpdate(a.0, us[n]).0);
    }
  }

  lemma SignalKept(s: Store, target: string, signal: nat, args: Value)
    requires Good(s) && FromHost(args)
    ensures Preserves(s, Signal(s, target, signal, args).0)
  {
    SameKept(s);
    SignalReachesCallbacks(s, target, signal, args);
    if target in s.objects {
      var h, s1 := s.objects[target], Unwrap(s, args).0;
      UnwrapKept(s, args);
      DestroyKept(s1, h, target);
      PreservesTransitive(s, s1, Destroy(s1, h, target));
    }
  }

  // Only user calls of connect and disconnect change callbacks.
  lemma EffectKeeps(s: Store, e: Event)
    requires Good(s) && Possible(s, e)
    ensures var t := Effect(s, e).0;
      Lineage(s, t) && if e.CallSignal? then t == CallSignalFx(s, e.handle, e.op).0 else Preserves(s, t)
  {
    match e
    case OnSignal(target, signal, args) => SignalKept(s, target, signal, args);
    case OnUpdate(us) => UpdatesKept(s, us);
    case OnReturn(value) => UnwrapKept(s, value);
    case CallSignal(h, op) => CallSignalGood(s, h, op);
    case CallSet(h, key, value) =>
      SameKept(s);
      PutSlotKept(s, h, key, value);
  }

  // ---------------------------------------------------------------- lineage, interning

  lemma {:induction false} RunLineage(st: State, events: seq<Event>)
    requires Good(st.store) && RunFrom(st, events).Some?
    ensures Lineage(st.store, RunFrom(st, events).value.store)
  {
    if events != [] {
      var n := |events| - 1;
      RunLineage(st, events[..n]);
      EffectKeeps(RunFrom(st, events[..n]).value.store, events[n]);
    }
  }

  // An object not destroyed in between is still bound to its id.
  lemma StillThere(s: Store, t: Store, id: string)
    requires Consistent(s) && Consistent(t) && Lineage(s, t) && id in s.objects && t.heap[s.objects[id]].live
    ensures id in t.objects && t.objects[id] == s.objects[id]
  {
    assert t.heap[s.objects[id]].id == id;
  }

  // From the init response on, in every run: no cache of any object holds a
  // wrapper, every object has been unwrapped exactly once, registered ids and
  // live objects correspond one to one, and an id stays bound to the same object
  // for as long as that object has not been destroyed.
  lemma RunsStayGood(roots: seq<Root>, early: seq<Event>, late: seq<Event>)
    requires RootsFromHost(roots)
    requires RunFrom(Initial(roots), early).Some?
    requires RunFrom(RunFrom(Initial(roots), early).value, late).Some?
    ensures var s := RunFrom(Initial(roots), early).value.store;
      var t := RunFrom(RunFrom(Initial(roots), early).value, late).value.store;
      Tidy(s) && Tidy(t) &&
      |s.heap| <= |t.heap| &&
      forall id | id in s.objects && t.heap[s.objects[id]].live :: id in t.objects && t.objects[id] == s.objects[id]
  {
    RunLineage(RunFrom(Initial(roots), early).value, late);
    var s := RunFrom(Initial(roots), early).value.store;
    var t := RunFrom(RunFrom(Initial(roots), early).value, late).value.store;
    forall id | id in s.objects && t.heap[s.objects[id]].live
      ensures id in t.objects && t.objects[id] == s.objects[id]
    {
      StillThere(s, t, id);
    }
  }

  // None of the objects that v names and `first` has registered is destroyed later.
  ghost predicate Surviving(first: Store, later: Store, v: Value) {
    forall id | id in Named(v) && id in first.objects ::
      first.objects[id] < |later.heap| && later.heap[first.objects[id]].live
  }

  // Interning across messages: after the host has sent v, and whatever happens then,
  // sending it again creates and changes nothing exactly if what it announces is
  // registered; which is so if none of the objects it names has been destroyed, and
  // then it yields the very same objects exactly if no mention was missed the first
  // time.
  lemma InterningOverRuns(st: State, v: Value, events: seq<Event>)
    requires Good(st.store) && FromHost(v) && RunFrom(Next(st, OnReturn(v)), events).Some?
    ensures var later := RunFrom(Next(st, OnReturn(v)), events).value.store;
      Unwrap(later, v).0 == later <==> Announced(later.objects, v)
    ensures var first := Next(st, OnReturn(v)).store;
      var later := RunFrom(Next(st, OnReturn(v)), events).value.store;
      Surviving(first, later, v) ==>
        Unwrap(later, v) == (later, Subst(later.objects, v)) &&
        (Unwrap(later, v).1 == Unwrap(st.store, v).1 <==> InOrder(st.store.objects.Keys, later.objects.Keys, v))
  {
    var mid := Next(st, OnReturn(v));
    var first, later := mid.store, RunFrom(mid, events).value.store;
    RunLineage(mid, events);
    CreatesNothingExactly(later, v);
    if Surviving(first, later, v) {
      forall id | id in Named(v) && id in first.objects
        ensures id in later.objects && later.objects[id] == first.objects[id]
      {
        StillThere(first, later, id);
      }
      SecondUnwrapCreatesNothing(st.store, v, later);
    }
  }

  // ---------------------------------------------------------------- idle messages

  function Idles(trace: seq<Message>): nat {
    if trace == [] then 0
    else Idles(trace[..|trace| - 1]) + if trace[|trace| - 1] == Idle then 1 else 0
  }

  function UpdateMessages(events: seq<Event>): nat {
    if events == [] then 0
    else UpdateMessages(events[..|events| - 1]) + if events[|events| - 1].OnUpdate? then 1 else 0
  }

  // The run's last event is a property-update message with an entry that throws:
  // for a live object that an emission but the entry's last destroys.
  ghost predicate EndsRoughly(st: State, events: seq<Event>)
    requires Good(st.store)
  {
    events != [] && events[|events| - 1].OnUpdate? &&
    RunFrom(st, events[..|events| - 1]).Some? &&
    Possible(RunFrom(st, events[..|events| - 1]).value.store, events[|events| - 1]) &&
    !Smooth(RunFrom(st, events[..|events| - 1]).value.store, events[|events| - 1].updates)
  }

  ghost function RoughMessages(st: State, events: seq<Event>): nat
    requires Good(st.store)
  {
    if events == [] then 0
    else RoughMessages(st, events[..|events| - 1]) + if EndsRoughly(st, events) then 1 else 0
  }

  lemma IdlesAppend(trace: seq<Message>, more: seq<Message>)
    requires |more| <= 1
    ensures Idles(trace + more) == Idles(trace) + if more == [Idle] then 1 else 0
  {
    if more == [] {
      assert trace + more == trace;
    } else {
      assert (trace + more)[..|trace|] == trace;
    }
  }

  // What an event sends: at most one message, and idle exactly for a property
  // update that is smooth.
  lemma EffectSends(s: Store, e: Event)
    requires Good(s) && Possible(s, e)
    ensures var msgs := Effect(s, e).2;
      |msgs| <= 1 && (msgs == [Idle] <==> e.OnUpdate? && Smooth(s, e.updates)) &&
      (!e.CallSignal? ==> forall m | m in msgs :: m.Idle? || m.SetProperty?)
  {
    match e
    case OnUpdate(us) => UpdatesThrow(s, us);
    case CallSignal(h, op) =>
      var o := s.heap[h];
      if op.name in o.members {
        SendsShape(o, o.members[op.name], Handlers(o, o.members[op.name].index), op);
      }
    case _ =>
  }

  lemma NextIdles(st: State, e: Event)
    requires Good(st.store) && Possible(st.store, e)
    ensures Idles(Next(st, e).sent) == Idles(st.sent) + if e.OnUpdate? && Smooth(st.store, e.updates) then 1 else 0
  {
    EffectSends(st.store, e);
    IdlesAppend(st.sent, Effect(st.store, e).2);
  }

  // Flow control: over any run, one idle message for the init response and one for
  // every property-update message none of whose entries throws.
  lemma {:induction false} IdleConservation(roots: seq<Root>, events: seq<Event>)
    requires RootsFromHost(roots) && RunFrom(Initial(roots), events).Some?
    ensures Idles(RunFrom(Initial(roots), events).value.sent) + RoughMessages(Initial(roots), events)
         == 1 + UpdateMessages(events)
  {
    if events == [] {
      IdlesAppend([], [Init(0)]);
      IdlesAppend([Init(0)], [Idle]);
      assert [] + [Init(0)] == [Init(0)] && [Init(0)] + [Idle] == [Init(0), Idle];
    } else {
      var n := |events| - 1;
      IdleConservation(roots, events[..n]);
      var mid := RunFrom(Initial(roots), events[..n]).value;
      NextIdles(mid, events[n]);
    }
  }

  // No property-update message of the run has an entry that throws.
  ghost predicate NeverRough(st: State, events: seq<Event>)
    requires Good(st.store)
  {
    events == [] || (NeverRough(st, events[..|events| - 1]) && !EndsRoughly(st, events))
  }

  lemma {:induction false} NoneRough(st: State, events: seq<Event>)
    requires Good(st.store)
    ensures RoughMessages(st, events) == 0 <==> NeverRough(st, events)
  {
    if events != [] {
      NoneRough(st, events[..|events| - 1]);
    }
  }

  // Idle messages sent equal property-update messages handled plus one exactly if
  // no message of the run has an entry that throws.
  lemma FlowControl(roots: seq<Root>, events: seq<Event>)
    requires RootsFromHost(roots) && RunFrom(Initial(roots), events).Some?
    ensures Idles(RunFrom(Initial(roots), events).value.sent) == 1 + UpdateMessages(events)
            <==> NeverRough(Initial(roots), events)
  {
    IdleConservation(roots, events);
    NoneRough(Initial(roots), events);
  }

  lemma RunOne(st: State, e: Event)
    requires Good(st.store) && Possible(st.store, e)
    ensures RunFrom(st, [e]) == Some(Next(st, e))
  {
    assert [e][..0] == [];
  }

  lemma RunNext(st: State, events: seq<Event>, e: Event)
    requires Good(st.store) && RunFrom(st, events).Some? && Possible(RunFrom(st, events).value.store, e)
    ensures RunFrom(st, events + [e]) == Some(Next(RunFrom(st, events).value, e))
  {
    assert (events + [e])[..|events|] == events;
  }

  // An object nested in a message, once registered, throws in the middle of an
  // update that emits its "destroyed" signal before another.
  lemma DestroyedMidway(s: Store, id: string, data: ObjectData, other: Emission)
    requires Good(s) && id !in s.objects && HasDestroyed(data) && FromHostData(data)
    ensures var t := Unwrap(s, Wrapper(id, Some(data))).0;
      "destroyed" in Members(data) &&
      var u := Update(id, [Emission(Members(data)["destroyed"].index, Undefined), other], []);
      Good(t) && UpdateFromHost(u) && id in t.objects && Throws(t, u)
  {
    var w, a := Wrapper(id, Some(data)), Announcement(id, data);
    UnwrapGood(s, w);
    UnwrapNewOk(s, a);
    DestroyedIsMember(data);
    var t := Unwrap(s, w).0;
    var news := [a] + NewsAll(s.objects.Keys + {id}, Contents(data));
    assert Joined(t, |s.heap| + 0, news[0]);
    var d := Members(data)["destroyed"].index;
    assert Kills(t.heap[|s.heap|], |s.heap|, d);
    assert [Emission(d, Undefined), other][0].signal == d;
  }

  // The update message of which the idle message is never sent.
  lemma {:induction false} MissingIdle(data: ObjectData, other: Emission)
    requires HasDestroyed(data) && FromHostData(data)
    ensures "destroyed" in Members(data)
    ensures var u := Update("a", [Emission(Members(data)["destroyed"].index, Undefined), other], []);
      var run := RunFrom(Initial([]), [OnReturn(Wrapper("a", Some(data))), OnUpdate([u])]);
      run.Some? && run.value.sent == [Init(0), Idle]
  {
    DestroyedIsMember(data);
    var st, w := Initial([]), Wrapper("a", Some(data));
    var u := Update("a", [Emission(Members(data)["destroyed"].index, Undefined), other], []);
    DestroyedMidway(st.store, "a", data, other);
    var mid := Next(st, OnReturn(w));
    RunOne(st, OnReturn(w));
    OneThrows(mid.store, u);
    assert [OnReturn(w)] + [OnUpdate([u])] == [OnReturn(w), OnUpdate([u])];
    RunNext(st, [OnReturn(w)], OnUpdate([u]));
    assert mid.sent == st.sent;
  }

  lemma OneThrows(s: Store, u: Update)
    requires Good(s) && UpdateFromHost(u) && Throws(s, u)
    ensures UpdatesFromHost([u]) && Effect(s, OnUpdate([u])).2 == []
  {
    assert [u][..0] == [] && Updates(s, []).0 == s;
    UpdatesThrow(s, [u]);
  }
}
