// The subscription protocol over whole runs of a channel, objects coming and
// going.
module Subscriptions {
  import opened QObjects
  import opened Registry
  import opened Unwrapping
  import opened InitResponse
  import opened Delivery
  import opened Runs

  // The subscription messages of a trace that are about the object called id.
  function OnTarget(trace: seq<Message>, id: string): seq<Message> {
    if trace == [] then []
    else
      var n := |trace| - 1;
      OnTarget(trace[..n], id) + if Targets(trace[n], id) then [trace[n]] else []
  }

  predicate Targets(m: Message, id: string) {
    (m.ConnectToSignal? || m.DisconnectFromSignal?) && m.target == id
  }

  lemma OnTargetAppend(trace: seq<Message>, more: seq<Message>, id: string)
    requires |more| <= 1
    ensures OnTarget(trace + more, id) == OnTarget(trace, id) + OnTarget(more, id)
    ensures OnTarget(more, id) == if more != [] && Targets(more[0], id) then more else []
  {
    if more == [] {
      assert trace + more == trace;
    } else {
      assert (trace + more)[..|trace|] == trace && more[..0] == [];
      assert OnTarget(more, id) == OnTarget([], id) + if Targets(more[0], id) then [more[0]] else [];
    }
  }

  lemma StepTargets(o: QObj, op: SignalOp, id: string)
    ensures var msgs := QObjects.Step(o, op).1;
      |msgs| <= 1 && OnTarget(msgs, id) == if id == o.id then msgs else []
  {
    OnTargetAppend([], QObjects.Step(o, op).1, id);
  }

  // An event that leaves h alive either is a connect or disconnect on it, or
  // changes none of its callbacks and sends no subscription message about it.
  lemma EffectOn(s: Store, e: Event, h: nat)
    requires Good(s) && Possible(s, e) && h < |s.heap| && s.heap[h].live
    requires h < |Effect(s, e).0.heap| && Effect(s, e).0.heap[h].live
    ensures var (t, _, msgs) := Effect(s, e); var o := s.heap[h];
      t.heap[h].id == o.id && t.heap[h].members == o.members && |msgs| <= 1 &&
      if e.CallSignal? && e.handle == h
      then t.heap[h] == QObjects.Step(o, e.op).0 && msgs == QObjects.Step(o, e.op).1 && OnTarget(msgs, o.id) == msgs
      else t.heap[h].handlers == o.handlers && OnTarget(msgs, o.id) == []
  {
    if e.CallSignal? {
      CallOn(s, e, h);
    } else {
      EffectKeeps(s, e);
      EffectSends(s, e);
      QuietOn(Effect(s, e).2, s.heap[h].id);
      assert ObjectKept(s, Effect(s, e).0, h);
    }
  }

  lemma CallOn(s: Store, e: Event, h: nat)
    requires Good(s) && e.CallSignal? && Possible(s, e) && h < |s.heap| && s.heap[h].live
    ensures var (t, _, msgs) := Effect(s, e); var o := s.heap[h];
      h < |t.heap| && t.heap[h].id == o.id && t.heap[h].members == o.members && |msgs| <= 1 &&
      if e.handle == h
      then t.heap[h] == QObjects.Step(o, e.op).0 && msgs == QObjects.Step(o, e.op).1 && OnTarget(msgs, o.id) == msgs
      else t.heap[h].handlers == o.handlers && OnTarget(msgs, o.id) == []
  {
    StepShape(s.heap[e.handle], e.op, 0);
    StepTargets(s.heap[e.handle], e.op, s.heap[h].id);
  }

  lemma QuietOn(msgs: seq<Message>, id: string)
    requires |msgs| <= 1 && forall m | m in msgs :: m.Idle? || m.SetProperty?
    ensures OnTarget(msgs, id) == []
  {
    if msgs != [] {
      assert msgs[0] in msgs && msgs[..0] == [];
    }
  }

  // The object at h since the state st: its messages and callbacks in step.
  ghost predicate InStepSince(st: State, now: State, h: nat, index: nat)
    requires h < |st.store.heap| && h < |now.store.heap|
  {
    st.sent <= now.sent && now.store.heap[h].members == st.store.heap[h].members &&
    InStep(now.store.heap[h], OnTarget(now.sent[|st.sent|..], st.store.heap[h].id), index)
  }

  lemma StaysInStep(o: QObj, p: QObj, sent: seq<Message>, index: nat)
    requires InStep(o, sent, index) && p.handlers == o.handlers
    ensures InStep(p, sent + [], index)
  {
    assert sent + [] == sent && Handlers(p, index) == Handlers(o, index);
  }

  lemma NextInStep(s: Store, e: Event, h: nat, index: nat, sent: seq<Message>)
    requires Good(s) && Possible(s, e) && h < |s.heap| && s.heap[h].live
    requires h < |Effect(s, e).0.heap| && Effect(s, e).0.heap[h].live
    requires PureAt(s.heap[h], index) && InStep(s.heap[h], OnTarget(sent, s.heap[h].id), index)
    ensures var (t, _, msgs) := Effect(s, e);
      t.heap[h].members == s.heap[h].members && t.heap[h].id == s.heap[h].id &&
      InStep(t.heap[h], OnTarget(sent + msgs, s.heap[h].id), index)
  {
    var o := s.heap[h];
    var (t, _, msgs) := Effect(s, e);
    EffectOn(s, e, h);
    OnTargetAppend(sent, msgs, o.id);
    if e.CallSignal? && e.handle == h {
      StepStaysInStep(o, OnTarget(sent, o.id), e.op, index);
    } else {
      StaysInStep(o, t.heap[h], OnTarget(sent, o.id), index);
    }
  }

  lemma StaysInStepSince(st: State, mid: State, e: Event, h: nat, index: nat)
    requires Good(mid.store) && Possible(mid.store, e) && h < |st.store.heap| && h < |mid.store.heap|
    requires mid.store.heap[h].live && mid.store.heap[h].id == st.store.heap[h].id
    requires PureAt(st.store.heap[h], index) && InStepSince(st, mid, h, index)
    requires h < |Next(mid, e).store.heap| && Next(mid, e).store.heap[h].live
    ensures InStepSince(st, Next(mid, e), h, index)
  {
    var sent, msgs := mid.sent[|st.sent|..], Effect(mid.store, e).2;
    assert (mid.sent + msgs)[|st.sent|..] == sent + msgs;
    NextInStep(mid.store, e, h, index, sent);
  }

  // Over any run during which an object lives, from a moment when nothing is
  // connected to it at a pure index: connectToSignal and disconnectFromSignal
  // about it strictly alternate starting with connect, and the host is subscribed
  // exactly while some callback is connected, whatever happens to other objects.
  lemma {:induction false} LivingProtocol(st: State, events: seq<Event>, h: nat, index: nat)
    requires Good(st.store) && RunFrom(st, events).Some?
    requires h < |st.store.heap| && PureAt(st.store.heap[h], index) && Handlers(st.store.heap[h], index) == []
    requires h < |RunFrom(st, events).value.store.heap| && RunFrom(st, events).value.store.heap[h].live
    ensures InStepSince(st, RunFrom(st, events).value, h, index)
  {
    if events == [] {
      assert st.sent[|st.sent|..] == [];
    } else {
      var n := |events| - 1;
      var mid := RunFrom(st, events[..n]).value;
      RunLineage(st, events[..n]);
      EffectKeeps(mid.store, events[n]);
      LivingProtocol(st, events[..n], h, index);
      StaysInStepSince(st, mid, events[n], h, index);
    }
  }

  // ----------------------------------------------------- objects coming and going

  // Whether the object registered under id has survived the step from s to t.
  predicate Survives(s: Store, t: Store, id: string) {
    id in s.objects && id in t.objects && t.objects[id] == s.objects[id]
  }

  // Whether the host, whose subscriptions go with the object they are for, is
  // subscribed to a signal of the object now called id.
  ghost function HostHas(st: State, events: seq<Event>, id: string, index: nat): bool
    requires Good(st.store) && RunFrom(st, events).Some?
  {
    if events == [] then false
    else
      var n := |events| - 1;
      var s := RunFrom(st, events[..n]).value.store;
      var (t, _, msgs) := Effect(s, events[n]);
      Survives(s, t, id) &&
      var about := OnIndex(OnTarget(msgs, id), index);
      if about == [] then HostHas(st, events[..n], id, index) else about[|about| - 1].ConnectToSignal?
  }

  // The host is subscribed exactly if some callback is connected.
  ghost predicate HostAgrees(st: State, events: seq<Event>, id: string, index: nat)
    requires Good(st.store) && RunFrom(st, events).Some?
  {
    var s := RunFrom(st, events).value.store;
    id in s.objects && PureAt(s.heap[s.objects[id]], index) ==>
      (HostHas(st, events, id, index) <==> Handlers(s.heap[s.objects[id]], index) != [])
  }

  lemma WatchedElsewhere(o: QObj, h: nat, index: nat)
    requires o.handlers == Watching(h, o.id, o.members) && PureAt(o, index)
    ensures Handlers(o, index) == []
  {
  }

  lemma OldIsSurvivor(s: Store, t: Store, id: string)
    requires Consistent(s) && Consistent(t) && Lineage(s, t) && id in t.objects && t.objects[id] < |s.heap|
    ensures Survives(s, t, id)
  {
    assert t.heap[t.objects[id]].id == id && t.heap[t.objects[id]].live;
  }

  // An object that is new after an event has nothing connected at a pure index.
  lemma NewIsUnconnected(s: Store, e: Event, id: string, index: nat)
    requires Good(s) && Possible(s, e) && id in Effect(s, e).0.objects && |s.heap| <= Effect(s, e).0.objects[id]
    requires PureAt(Effect(s, e).0.heap[Effect(s, e).0.objects[id]], index)
    ensures Handlers(Effect(s, e).0.heap[Effect(s, e).0.objects[id]], index) == []
  {
    EffectKeeps(s, e);
    var t := Effect(s, e).0;
    var h := t.objects[id];
    assert t.heap[h].live && ObjectKept(s, t, h);
    WatchedElsewhere(t.heap[h], h, index);
  }

  lemma SurvivorAgrees(s: Store, e: Event, id: string, index: nat, had: bool)
    requires Good(s) && Possible(s, e) && Survives(s, Effect(s, e).0, id)
    requires PureAt(Effect(s, e).0.heap[Effect(s, e).0.objects[id]], index)
    requires PureAt(s.heap[s.objects[id]], index) ==> (had <==> Handlers(s.heap[s.objects[id]], index) != [])
    ensures var (t, _, msgs) := Effect(s, e); var about := OnIndex(OnTarget(msgs, id), index);
      (if about == [] then had else about[|about| - 1].ConnectToSignal?)
      <==> Handlers(t.heap[t.objects[id]], index) != []
  {
    var h := s.objects[id];
    var (t, _, msgs) := Effect(s, e);
    assert t.heap[h].live && t.heap[h].id == id && s.heap[h].live && s.heap[h].id == id;
    EffectOn(s, e, h);
    if e.CallSignal? && e.handle == h {
      CallerAgrees(s.heap[h], e.op, id, index, had);
    } else {
      assert Handlers(t.heap[h], index) == Handlers(s.heap[h], index);
    }
  }

  lemma CallerAgrees(o: QObj, op: SignalOp, id: string, index: nat, had: bool)
    requires PureAt(o, index) && (had <==> Handlers(o, index) != []) && o.id == id
    ensures var (o', msgs) := QObjects.Step(o, op); var about := OnIndex(OnTarget(msgs, id), index);
      (if about == [] then had else about[|about| - 1].ConnectToSignal?) <==> Handlers(o', index) != []
  {
    var msgs := QObjects.Step(o, op).1;
    StepTargets(o, op, id);
    StepShape(o, op, index);
    OnIndexAppend([], msgs, index);
    assert [] + msgs == msgs;
    if op.name in o.members && o.members[op.name].index == index {
      PureStep(o, op);
    }
  }

  lemma InitUnconnected(roots: seq<Root>, h: nat, index: nat)
    requires RootsFromHost(roots) && h < |UnwrapRoots(roots, |roots|).heap|
    requires PureAt(UnwrapRoots(roots, |roots|).heap[h], index)
    ensures Handlers(UnwrapRoots(roots, |roots|).heap[h], index) == []
  {
    InitLeavesReady(roots);
    var s := UnwrapRoots(roots, |roots|);
    assert Ready(s, h, |roots|);
    if h >= |roots| { WatchedElsewhere(s.heap[h], h, index); }
  }

  // In every run from the init response, for every id and pure index: whenever an
  // object is registered under the id, be it the first or one announced after
  // others were destroyed, the host is subscribed exactly if a callback is
  // connected.
  lemma {:induction false} HostAgreesThroughout(roots: seq<Root>, events: seq<Event>, id: string, index: nat)
    requires RootsFromHost(roots) && RunFrom(Initial(roots), events).Some?
    ensures HostAgrees(Initial(roots), events, id, index)
  {
    var st := Initial(roots);
    var t := RunFrom(st, events).value.store;
    if id in t.objects && PureAt(t.heap[t.objects[id]], index) {
      if events == [] {
        InitUnconnected(roots, t.objects[id], index);
      } else {
        var n := |events| - 1;
        var s := RunFrom(st, events[..n]).value.store;
        HostAgreesThroughout(roots, events[..n], id, index);
        EffectKeeps(s, events[n]);
        if t.objects[id] < |s.heap| {
          OldIsSurvivor(s, t, id);
          SurvivorAgrees(s, events[n], id, index, HostHas(st, events[..n], id, index));
        } else {
          NewIsUnconnected(s, events[n], id, index);
        }
      }
    }
  }
}
