// The QWebChannel object itself, as the source has it: fields updated in place,
// every method proved against the specification functions.
module Channel {
  import opened Wire
  import opened QObjects
  import opened Registry
  import opened InitResponse
  import opened Delivery
  import opened Runs
  import Requests

  class QWebChannel {
    var execId: nat
    var execCallbacks: map<nat, nat>
    var objects: map<string, nat>
    var heap: seq<QObj>
    var sent: seq<Message>
    var log: seq<Invocation>
    ghost var table: Requests.Table

    ghost function TheStore(): Store
      reads this
    {
      Store(objects, heap)
    }

    // The channel as the runs of module Runs have it.
    ghost function Snapshot(): State
      reads this
    {
      State(TheStore(), log, sent)
    }

    // The two fields exec maintains are those of the request table.
    ghost predicate Valid()
      reads this
    {
      execId == table.execId == Requests.IdOf(table.issued) && execCallbacks == table.pending
    }

    constructor ()
      ensures Valid() && table == Requests.Run([Requests.Issue]) && execId == 1 && execCallbacks == map[0 := 0]
      ensures sent == [Init(0)] && TheStore() == Store(map[], []) && log == []
    {
      execId, execCallbacks, objects, heap, sent, log := 0, map[], map[], [], [], [];
      table := Requests.EMPTY;
      new;
      var id := AllocateRequest(0);
      assert [Requests.Issue][..0] == [] && Requests.IdOf(1) == Requests.Increment(0) == 1;
      sent := sent + [Init(id)];
    }

    // ------------------------------------------------------------ exec, handleResponse

    // The part of exec that a callback adds; callbacks are numbered as they come.
    // The first test is the wrap-around guard.
    method AllocateRequest(callback: nat) returns (id: nat)
      requires Valid() && callback == table.issued
      modifies `execId, `execCallbacks, `table
      ensures Valid() && id == old(execId) && table == Requests.Fx(old(table), Requests.Issue)
      ensures execCallbacks == old(execCallbacks)[id := callback]
    {
      if execId == Requests.MAX_VALUE {
        Requests.NeverWraps(table.issued);
        assert false;
      }
      id := execId;
      execId := Requests.Increment(execId);
      execCallbacks := execCallbacks[id := callback];
      table := Requests.IssueFx(table);
    }

    // object[methodName](...): an exec with a callback; the arguments are those
    // that are not functions
    method CallMethod(h: nat, name: string, index: nat, arguments: seq<Value>, callback: nat)
      requires Valid() && callback == table.issued && h < |heap|
      requires forall v | v in arguments :: Held(TheStore(), v)
      modifies `execId, `execCallbacks, `table, `sent
      ensures Valid() && table == Requests.Fx(old(table), Requests.Issue)
      ensures execCallbacks == old(execCallbacks)[old(execId) := callback]
      ensures var args := SentArgs(old(TheStore()), arguments);
        sent == old(sent) + [InvokeMethod(heap[h].id, MethodOf(name, index), args, old(execId))]
    {
      var invoked := if name != "" && name[|name| - 1] == ')' then ByIndex(index) else ByName(name);
      var args := MapArguments(arguments);
      var id := AllocateRequest(callback);
      sent := sent + [InvokeMethod(heap[h].id, invoked, args, id)];
    }

    // the loop over the arguments
    method MapArguments(arguments: seq<Value>) returns (args: seq<Value>)
      requires forall v | v in arguments :: Held(TheStore(), v)
      ensures args == SentArgs(TheStore(), arguments)
    {
      args := [];
      var i := 0;
      while i < |arguments|
        invariant 0 <= i <= |arguments| && args == SentArgs(TheStore(), arguments[..i])
      {
        var v := arguments[i];
        assert v in arguments && arguments[..i + 1][..i] == arguments[..i];
        if v.Object? && heap[v.handle].live && heap[v.handle].id in objects {
          args := args + [Dict(["id"], [Prim(heap[v.handle].id)])];
        } else {
          args := args + [v];
        }
        i := i + 1;
      }
      assert arguments[..i] == arguments;
    }

    // handleResponse up to the moment its callback starts; `answered` is the
    // request the host is answering.  None: there is no callback to call.
    method BeginResponse(id: nat, ghost answered: nat) returns (callback: Option<nat>)
      requires Valid() && id == Requests.IdOf(answered)
      modifies `table
      ensures Valid() && table == Requests.Fx(old(table), Requests.Answer(answered))
      ensures callback == if id in execCallbacks then Some(execCallbacks[id]) else None
    {
      callback := if id in execCallbacks then Some(execCallbacks[id]) else None;
      table := Requests.AnswerFx(table, answered);
    }

    // The delete once the callback has returned.
    method EndResponse(id: nat)
      requires Valid() && table.calls != [] && table.calls[|table.calls| - 1].id == id
      modifies `execCallbacks, `table
      ensures Valid() && table == Requests.Fx(old(table), Requests.Return)
      ensures execCallbacks == old(execCallbacks) - {id}
    {
      execCallbacks := execCallbacks - {id};
      table := Requests.ReturnFx(table);
    }

    // The callback throws: control leaves handleResponse before the delete.
    method AbandonResponse()
      requires Valid() && table.calls != []
      modifies `table
      ensures Valid() && table == Requests.Fx(old(table), Requests.Throw)
    {
      table := Requests.ThrowFx(table);
    }

    // ------------------------------------------------------------------ unwrapping

    method NewQObject(id: string, data: ObjectData) returns (h: nat)
      modifies `objects, `heap
      ensures h == |old(heap)| && TheStore() == NewObject(old(TheStore()), id, data)
    {
      h := |heap|;
      objects := objects[id := h];
      heap := heap + [QObj(id, true, RawCache(data.properties), Members(data), map[], RawCache(data.properties), 0)];
    }

    method UnwrapQObject(response: Value) returns (r: Value)
      requires FromHost(response)
      modifies `objects, `heap
      ensures (TheStore(), r) == Unwrap(old(TheStore()), response)
      decreases Size(response), 1, 0
    {
      match response {
        case List(elems) =>
          var out := MapUnwrap(elems);
          r := List(out);
        case Dict(names, members) =>
          var out := MapUnwrap(members);
          r := Dict(names, out);
        case Wrapper(id, data) =>
          if id in objects {
            r := Object(objects[id]);
          } else if data.None? {
            r := Undefined;
          } else {
            RawCacheOk(data.value.properties);
            var h := NewQObject(id, data.value);
            heap := heap[h := QObjects.Step(heap[h], Connect("destroyed", Destroyer(h, id))).0];
            assert TheStore() == Announce(old(TheStore()), id, data.value);
            UnwrapObjectProperties(h, RawCache(data.value.properties));
            r := Object(h);
          }
        case _ =>
          r := response;
      }
    }

    // response.map(...), and the loop over the keys of a plain object
    method MapUnwrap(vs: seq<Value>) returns (out: seq<Value>)
      requires forall v | v in vs :: FromHost(v)
      modifies `objects, `heap
      ensures (TheStore(), out) == UnwrapAll(old(TheStore()), vs)
      decreases SizeAll(vs), 2
    {
      out := [];
      var i := 0;
      while i < |vs|
        invariant 0 <= i <= |vs|
        invariant (TheStore(), out) == UnwrapAll(old(TheStore()), vs[..i])
      {
        SizeAllMember(vs, i);
        assert vs[..i + 1][..i] == vs[..i];
        assert vs[i] in vs;
        var r := UnwrapQObject(vs[i]);
        out := out + [r];
        i := i + 1;
      }
      assert vs[..i] == vs;
    }

    // object.__propertyCache__[propertyIdx] = object.unwrapQObject(...)
    method UnwrapProperty(h: nat, i: nat)
      requires h < |heap| && i < |heap[h].cache| && FromHost(heap[h].cache[i].value)
      modifies `objects, `heap
      ensures var (t, r) := Unwrap(old(TheStore()), old(heap[h].cache[i].value));
        Extends(old(TheStore()), t, -1) && TheStore() == SetSlot(t, h, i, r)
      decreases Size(heap[h].cache[i].value), 1, 1
    {
      var r := UnwrapQObject(heap[h].cache[i].value);
      var o := heap[h];
      heap := heap[h := o.(cache := o.cache[i := Slot(o.cache[i].index, r)])];
    }

    // unwrapProperties: each value is read from the live cache, which unwrapping
    // the ones before it has not touched.
    method UnwrapObjectProperties(h: nat, ghost raw: seq<Slot>)
      requires h < |heap| && heap[h].cache == raw && FromHostSlots(raw)
      modifies `objects, `heap
      ensures TheStore() == EndPass(UnwrapSlots(old(TheStore()), h, raw), h)
      decreases SizeSlots(raw), 2
    {
      ghost var s := TheStore();
      var i := 0;
      assert raw[..0] == [];
      while i < |heap[h].cache|
        invariant h < |heap| && |heap[h].cache| == |raw| && 0 <= i <= |raw|
        invariant TheStore() == UnwrapSlots(s, h, raw[..i])
        invariant forall k | i <= k < |raw| :: heap[h].cache[k] == raw[k]
        decreases |raw| - i
      {
        SlotsNext(s, h, raw, i);
        UnwrapProperty(h, i);
        i := i + 1;
      }
      assert raw[..i] == raw;
      heap := heap[h := heap[h].(passes := heap[h].passes + 1)];
    }

    lemma SlotsNext(s: Store, h: nat, raw: seq<Slot>, i: nat)
      requires h < |s.heap| && |raw| <= |s.heap[h].cache| && FromHostSlots(raw) && i < |raw|
      ensures Size(raw[i].value) <= SizeSlots(raw) && FromHost(raw[i].value)
      ensures FromHostSlots(raw[..i]) && FromHostSlots(raw[..i + 1])
      ensures var (t, r) := Unwrap(UnwrapSlots(s, h, raw[..i]), raw[i].value);
        UnwrapSlots(s, h, raw[..i + 1]) == SetSlot(t, h, i, r)
    {
      SizeSlotsMember(raw, i);
      assert raw[..i + 1][..i] == raw[..i];
      assert raw[i] in raw;
    }

    lemma SizeAllMember(vs: seq<Value>, i: nat)
      requires i < |vs|
      ensures Size(vs[i]) <= SizeAll(vs)
    {
      if i < |vs| - 1 { SizeAllMember(vs[..|vs| - 1], i); }
    }

    lemma SizeSlotsMember(c: seq<Slot>, i: nat)
      requires i < |c|
      ensures Size(c[i].value) <= SizeSlots(c)
    {
      if i < |c| - 1 { SizeSlotsMember(c[..|c| - 1], i); }
    }

    // for each name of the init data: new QObject(...)
    method RegisterAll(roots: seq<Root>)
      requires TheStore() == Store(map[], [])
      modifies `objects, `heap
      ensures TheStore() == RegisterRoots(roots)
    {
      var i := 0;
      while i < |roots|
        invariant 0 <= i <= |roots|
        invariant TheStore() == RegisterRoots(roots[..i])
      {
        assert roots[..i + 1][..i] == roots[..i];
        var _ := NewQObject(roots[i].name, roots[i].data);
        i := i + 1;
      }
      assert roots[..i] == roots;
    }

    method UnwrapRoot(ghost roots: seq<Root>, ghost n: nat, name: string)
      requires RootsFromHost(roots) && n < |roots| && TheStore() == UnwrapRoots(roots, n)
      requires name == roots[n].name
      modifies `objects, `heap
      ensures TheStore() == UnwrapRoots(roots, n + 1)
    {
      RootIsReady(roots, n);
      UnwrapObjectProperties(objects[name], heap[objects[name]].cache);
    }

    method UnwrapRegistered(roots: seq<Root>)
      requires RootsFromHost(roots) && TheStore() == UnwrapRoots(roots, 0)
      modifies `objects, `heap
      ensures TheStore() == UnwrapRoots(roots, |roots|)
    {
      var i := 0;
      while i < |roots|
        invariant 0 <= i <= |roots|
        invariant TheStore() == UnwrapRoots(roots, i)
      {
        UnwrapRoot(roots, i, roots[i].name);
        i := i + 1;
      }
    }

    // The callback of the init request.
    method HandleInit(roots: seq<Root>)
      requires RootsFromHost(roots) && TheStore() == Store(map[], [])
      modifies `objects, `heap, `sent
      ensures TheStore() == UnwrapRoots(roots, |roots|) && sent == old(sent) + [Idle]
      ensures old(sent) == [Init(0)] && old(log) == [] ==> Snapshot() == Initial(roots)
    {
      RegisterAll(roots);
      UnwrapRegistered(roots);
      sent := sent + [Idle];
    }

    // -------------------------------------------------------------------- delivery

    // connections.forEach(...)
    method InvokeAll(h: nat, signal: nat, args: Value, cbs: seq<Callback>)
      requires h < |heap| && HandlesBelow(cbs, |heap|)
      modifies `objects, `heap, `log
      ensures TheStore() == Invoke(old(TheStore()), h, signal, args, cbs).0
      ensures log == old(log) + Invoke(old(TheStore()), h, signal, args, cbs).1
    {
      var i := 0;
      assert cbs[..0] == [];
      while i < |cbs|
        invariant 0 <= i <= |cbs| && |heap| == |old(heap)|
        invariant TheStore() == Invoke(old(TheStore()), h, signal, args, cbs[..i]).0
        invariant log == old(log) + Invoke(old(TheStore()), h, signal, args, cbs[..i]).1
      {
        assert cbs[..i + 1][..i] == cbs[..i];
        assert cbs[i] in cbs;
        match cbs[i] {
          case User(fn) =>
            log := log + [Invocation(fn, h, signal, args, heap[h].cache)];
          case Destroyer(g, id) =>
            if id in objects && objects[id] == g {
              objects := objects - {id};
              heap := heap[g := heap[g].(live := false, cache := [], members := map[], handlers := map[])];
            }
        }
        i := i + 1;
      }
      assert cbs[..i] == cbs;
    }

    // the first loop of propertyUpdate
    method PutProperties(h: nat, ps: seq<Slot>)
      requires h < |heap| && FromHostSlots(ps)
      modifies `objects, `heap
      ensures TheStore() == PutAll(old(TheStore()), h, ps)
    {
      ghost var s := TheStore();
      var i := 0;
      assert ps[..0] == [];
      while i < |ps|
        invariant 0 <= i <= |ps| && |s.heap| <= |heap|
        invariant TheStore() == PutAll(s, h, ps[..i])
      {
        assert ps[..i + 1][..i] == ps[..i];
        assert ps[i] in ps;
        var r := UnwrapQObject(ps[i].value);
        heap := heap[h := heap[h].(cache := Put(heap[h].cache, ps[i].index, r))];
        i := i + 1;
      }
      assert ps[..i] == ps;
    }

    // The log and the store are at this point of handling a message.
    ghost predicate Reached(was: seq<Invocation>, a: Progress, ok: bool)
      reads this
    {
      TheStore() == a.0 && log == was + a.1 && ok == a.2
    }

    // ok turns false where the source throws; nothing runs after that.
    method EmitOne(ghost was: seq<Invocation>, ghost a: Progress, h: nat, e: Emission, ok0: bool) returns (ok: bool)
      requires h < |heap| && h < |a.0.heap| && Good(a.0) && Reached(was, a, ok0)
      modifies `objects, `heap, `log
      ensures Reached(was, EmitThen(a, h, e), ok)
    {
      ok := ok0 && heap[h].live;
      if ok {
        OwnBelow(TheStore(), h, e.signal);
        InvokeAll(h, e.signal, e.args, Handlers(heap[h], e.signal));
      }
    }

    // the second loop
    method EmitSignals(h: nat, es: seq<Emission>) returns (ok: bool)
      requires h < |heap| && Good(TheStore())
      modifies `objects, `heap, `log
      ensures Reached(old(log), EmitAll(old(TheStore()), h, es), ok)
    {
      ghost var s := TheStore();
      ok := true;
      var i := 0;
      assert es[..0] == [];
      while i < |es|
        invariant 0 <= i <= |es| && |heap| == |s.heap|
        invariant Reached(old(log), EmitAll(s, h, es[..i]), ok)
      {
        assert es[..i + 1][..i] == es[..i];
        ok := EmitOne(old(log), EmitAll(s, h, es[..i]), h, es[i], ok);
        i := i + 1;
      }
      assert es[..i] == es;
    }

    method UpdateProperties(h: nat, u: Update) returns (ok: bool)
      requires h < |heap| && UpdateFromHost(u) && Good(TheStore())
      modifies `objects, `heap, `log
      ensures var (t, more, ok2) := PropertyUpdate(old(TheStore()), h, u);
        TheStore() == t && log == old(log) + more && ok == ok2
    {
      PutAllOk(TheStore(), h, u.properties, 0);
      PutProperties(h, u.properties);
      ok := EmitSignals(h, u.signals);
    }

    method HandleOneUpdate(u: Update) returns (ok: bool)
      requires Good(TheStore()) && UpdateFromHost(u)
      modifies `objects, `heap, `log
      ensures var (t, more, ok2) := OneUpdate(old(TheStore()), u);
        TheStore() == t && log == old(log) + more && ok == ok2
    {
      ok := true;
      if u.target in objects {
        ok := UpdateProperties(objects[u.target], u);
      }
    }

    method HandleEntry(ghost was: seq<Invocation>, ghost a: Progress, u: Update, ok0: bool) returns (ok: bool)
      requires Good(a.0) && UpdateFromHost(u) && Reached(was, a, ok0)
      modifies `objects, `heap, `log
      ensures Reached(was, AndThen(a, u), ok)
    {
      ok := ok0;
      if ok {
        ok := HandleOneUpdate(u);
      }
    }

    method HandlePropertyUpdate(us: seq<Update>) returns (ok: bool)
      requires Good(TheStore()) && UpdatesFromHost(us)
      modifies `objects, `heap, `log, `sent
      ensures var (t, more, ok2) := Updates(old(TheStore()), us);
        TheStore() == t && log == old(log) + more && ok == ok2
      ensures sent == old(sent) + if ok then [Idle] else []
      ensures Snapshot() == Next(old(Snapshot()), OnUpdate(us))
    {
      ghost var s := TheStore();
      ok := true;
      var i := 0;
      while i < |us|
        invariant 0 <= i <= |us| && sent == old(sent) && UpdatesFromHost(us[..i])
        invariant Reached(old(log), Updates(s, us[..i]), ok)
      {
        UpdatesNext(s, us, i);
        ok := HandleEntry(old(log), Updates(s, us[..i]), us[i], ok);
        i := i + 1;
      }
      assert us[..i] == us;
      if ok {
        sent := sent + [Idle];
      }
    }

    method HandleSignal(target: string, signal: nat, args: Value)
      requires Good(TheStore()) && FromHost(args)
      modifies `objects, `heap, `log
      ensures var (t, more) := Signal(old(TheStore()), target, signal, args);
        TheStore() == t && log == old(log) + more
      ensures Snapshot() == Next(old(Snapshot()), OnSignal(target, signal, args))
    {
      if target in objects {
        var h := objects[target];
        UnwrapGood(TheStore(), args);
        var given := UnwrapQObject(args);
        OwnBelow(TheStore(), h, signal);
        InvokeAll(h, signal, given, Handlers(heap[h], signal));
      }
      assert sent + [] == sent;
    }

    // what becomes of the response to a method call; an undefined one is no result
    method HandleResult(response: Value) returns (result: Option<Value>)
      requires Good(TheStore()) && FromHost(response)
      modifies `objects, `heap
      ensures Snapshot() == Next(old(Snapshot()), OnReturn(response))
      ensures result == if response == Undefined then None else Some(Unwrap(old(TheStore()), response).1)
    {
      result := None;
      if response != Undefined {
        var unwrapped := UnwrapQObject(response);
        result := Some(unwrapped);
      }
      assert log + [] == log && sent + [] == sent;
    }

    // ------------------------------------------------------- called by user code

    // object[signalName].connect(callback)
    method ConnectSignal(h: nat, name: string, cb: Callback)
      requires h < |heap| && name in heap[h].members
      modifies `heap, `sent
      ensures var (t, msgs) := CallSignalFx(old(TheStore()), h, Connect(name, cb));
        TheStore() == t && sent == old(sent) + msgs
      ensures old(Good(TheStore()) && Possible(TheStore(), CallSignal(h, Connect(name, cb)))) ==>
                Snapshot() == Next(old(Snapshot()), CallSignal(h, Connect(name, cb)))
    {
      ghost var st, call := Snapshot(), CallSignal(h, Connect(name, cb));
      if Good(st.store) && Possible(st.store, call) {
        NextCall(st, h, call.op);
      }
      var o := heap[h];
      var sig := o.members[name];
      var cbs := if sig.index in o.handlers then o.handlers[sig.index] else [];
      cbs := cbs + [cb];
      heap := heap[h := o.(handlers := o.handlers[sig.index := cbs])];
      if sig.notify {
        return;
      }
      if IsDestroyedName(name) {
        return;
      }
      if |cbs| == 1 {
        sent := sent + [ConnectToSignal(o.id, sig.index)];
      }
    }

    // object[signalName].disconnect(callback)
    method DisconnectSignal(h: nat, name: string, cb: Callback)
      requires h < |heap| && name in heap[h].members
      modifies `heap, `sent
      ensures var (t, msgs) := CallSignalFx(old(TheStore()), h, Disconnect(name, cb));
        TheStore() == t && sent == old(sent) + msgs
      ensures old(Good(TheStore()) && Possible(TheStore(), CallSignal(h, Disconnect(name, cb)))) ==>
                Snapshot() == Next(old(Snapshot()), CallSignal(h, Disconnect(name, cb)))
    {
      ghost var st, call := Snapshot(), CallSignal(h, Disconnect(name, cb));
      var sig := heap[h].members[name];
      var found := DropCallback(h, sig.index, cb);
      if found && !sig.notify && |Handlers(heap[h], sig.index)| == 0 {
        sent := sent + [DisconnectFromSignal(heap[h].id, sig.index)];
      }
      if Good(st.store) && Possible(st.store, call) {
        NextCall(st, h, call.op);
      }
    }

    // its indexOf and splice; found tells whether there was such a callback
    method DropCallback(h: nat, index: nat, cb: Callback) returns (found: bool)
      requires h < |heap|
      modifies `heap
      ensures var cbs := old(Handlers(heap[h], index)); var i := IndexOf(cbs, cb);
        (found <==> i != -1) &&
        var left := if found then Splice(cbs, i) else cbs;
        heap == old(heap)[h := old(heap[h]).(handlers := old(heap[h]).handlers[index := left])]
    {
      var o := heap[h];
      var cbs := if index in o.handlers then o.handlers[index] else [];
      var i := IndexOf(cbs, cb);
      found := i != -1;
      if found {
        cbs := Splice(cbs, i);
      }
      heap := heap[h := o.(handlers := o.handlers[index := cbs])];
    }

    // the setter bound to a property
    method SetPropertyValue(h: nat, key: nat, value: Value)
      requires h < |heap| && Held(TheStore(), value)
      modifies `heap, `sent
      ensures var (t, msgs) := CallSetFx(old(TheStore()), h, key, value);
        TheStore() == t && sent == old(sent) + msgs
      ensures old(Good(TheStore()) && Possible(TheStore(), CallSet(h, key, value))) ==>
                Snapshot() == Next(old(Snapshot()), CallSet(h, key, value))
    {
      if value == Undefined {
        return;
      }
      var o := heap[h];
      heap := heap[h := o.(cache := Put(o.cache, key, value))];
      var toSend := value;
      if value.Object? && heap[value.handle].live && heap[value.handle].id in objects {
        toSend := Dict(["id"], [Prim(heap[value.handle].id)]);
      }
      sent := sent + [SetProperty(o.id, key, toSend)];
    }
  }
}
