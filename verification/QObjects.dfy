// A client-side QObject and the connect/disconnect half of its signals.
module QObjects {
  import opened Wire

  // A function given to connect.  Destroyer is the one unwrapQObject connects
  // itself, closing over the new object and the id it was announced under.
  datatype Callback = User(fn: nat) | Destroyer(handle: nat, id: string)

  // object[signalName]: the index the closures captured, and whether the signal
  // was added as the notify signal of a property.
  datatype SignalRef = SignalRef(index: nat, notify: bool)

  // raw and passes are history: the cache as constructed, and how often
  // unwrapProperties has completed on the object.
  datatype QObj = QObj(
    id: string,
    live: bool,
    cache: seq<Slot>,
    members: map<string, SignalRef>,
    handlers: map<nat, seq<Callback>>,
    raw: seq<Slot>,
    passes: nat)

  // What is sent to the host; the two messages sent with a callback carry the id
  // exec gave the request.
  datatype Message =
    | Init(request: nat)
    | Idle
    | ConnectToSignal(target: string, signal: nat)
    | DisconnectFromSignal(target: string, signal: nat)
    | SetProperty(target: string, property: nat, value: Value)
    | InvokeMethod(target: string, invoked: MethodId, args: seq<Value>, request: nat)

  datatype MethodId = ByIndex(index: nat) | ByName(name: string)

  datatype SignalOp = Connect(name: string, cb: Callback) | Disconnect(name: string, cb: Callback)

  predicate IsDestroyedName(name: string) {
    name == "destroyed" || name == "destroyed()" || name == "destroyed(QObject*)"
  }

  // object.__objectSignals__[index] || []
  function Handlers(o: QObj, index: nat): seq<Callback> {
    if index in o.handlers then o.handlers[index] else []
  }

  // Array.prototype.indexOf: the first position, or -1.
  function IndexOf(cbs: seq<Callback>, cb: Callback): (i: int)
    ensures -1 <= i < |cbs|
  {
    if cbs == [] then -1
    else if cbs[0] == cb then 0
    else
      var i := IndexOf(cbs[1..], cb);
      if i == -1 then -1 else i + 1
  }

  // cbs.splice(i, 1)
  function Splice(cbs: seq<Callback>, i: nat): (r: seq<Callback>)
    requires i < |cbs|
    ensures |r| == |cbs| - 1
  {
    cbs[..i] + cbs[i + 1..]
  }

  lemma {:induction false} IndexOfFirst(cbs: seq<Callback>, cb: Callback)
    ensures var i := IndexOf(cbs, cb);
      (i == -1 <==> cb !in cbs) && (i >= 0 ==> cbs[i] == cb && cb !in cbs[..i])
  {
    if cbs != [] && cbs[0] != cb {
      IndexOfFirst(cbs[1..], cb);
      var i := IndexOf(cbs[1..], cb);
      assert cbs == [cbs[0]] + cbs[1..];
      assert i >= 0 ==> cbs[..i + 1] == [cbs[0]] + cbs[1..][..i];
    }
  }

  // The callback list of a signal after a call on it.
  function ListAfter(cbs: seq<Callback>, op: SignalOp): seq<Callback> {
    match op
    case Connect(_, cb) => cbs + [cb]
    case Disconnect(_, cb) =>
      var i := IndexOf(cbs, cb);
      if i == -1 then cbs else Splice(cbs, i)
  }

  // What the call sends, given the list before.
  function Sends(o: QObj, sig: SignalRef, cbs: seq<Callback>, op: SignalOp): seq<Message> {
    match op
    case Connect(name, _) =>
      if sig.notify || IsDestroyedName(name) || |cbs + [op.cb]| != 1 then []
      else [ConnectToSignal(o.id, sig.index)]
    case Disconnect(_, cb) =>
      if IndexOf(cbs, cb) == -1 || sig.notify || |ListAfter(cbs, op)| != 0 then []
      else [DisconnectFromSignal(o.id, sig.index)]
  }

  // One call of connect or disconnect; calling a signal the object lacks does nothing.
  function Step(o: QObj, op: SignalOp): (QObj, seq<Message>) {
    if op.name !in o.members then (o, [])
    else
      var sig := o.members[op.name];
      var cbs := Handlers(o, sig.index);
      (o.(handlers := o.handlers[sig.index := ListAfter(cbs, op)]), Sends(o, sig, cbs, op))
  }

  // A run of connect and disconnect calls, and everything it sends.
  function Run(o: QObj, ops: seq<SignalOp>): (QObj, seq<Message>) {
    if ops == [] then (o, [])
    else
      var n := |ops| - 1;
      var (o1, sent) := Run(o, ops[..n]);
      var (o2, more) := Step(o1, ops[n]);
      (o2, sent + more)
  }

  // ------------------------------------------------------- the host's side of it

  predicate About(m: Message, index: nat) {
    (m.ConnectToSignal? || m.DisconnectFromSignal?) && m.signal == index
  }

  function OnIndex(trace: seq<Message>, index: nat): seq<Message> {
    if trace == [] then []
    else
      var n := |trace| - 1;
      OnIndex(trace[..n], index) + if About(trace[n], index) then [trace[n]] else []
  }

  // The host subscribes on connectToSignal and unsubscribes on disconnectFromSignal.
  predicate HostSubscribed(trace: seq<Message>, index: nat) {
    trace != [] &&
    var n := |trace| - 1;
    if About(trace[n], index) then trace[n].ConnectToSignal? else HostSubscribed(trace[..n], index)
  }

  // Connect first, then strictly in turn.
  predicate Alternates(msgs: seq<Message>) {
    forall i | 0 <= i < |msgs| ::
      if i % 2 == 0 then msgs[i].ConnectToSignal? else msgs[i].DisconnectFromSignal?
  }

  // --------------------------------------------------- what an index is used for

  predicate PureAt(o: QObj, index: nat) {
    forall name | name in o.members && o.members[name].index == index ::
      !o.members[name].notify && !IsDestroyedName(name)
  }

  predicate NotifyAt(o: QObj, index: nat) {
    forall name | name in o.members && o.members[name].index == index :: o.members[name].notify
  }

  predicate DestroyedAt(o: QObj, index: nat) {
    forall name | name in o.members && o.members[name].index == index ::
      !o.members[name].notify && IsDestroyedName(name)
  }

  // ------------------------------------------------------------------- theorems

  lemma OnIndexAppend(trace: seq<Message>, more: seq<Message>, index: nat)
    requires |more| <= 1
    ensures OnIndex(trace + more, index)
         == OnIndex(trace, index) + if more != [] && About(more[0], index) then more else []
    ensures HostSubscribed(trace + more, index)
         == if more != [] && About(more[0], index) then more[0].ConnectToSignal? else HostSubscribed(trace, index)
  {
    if more == [] {
      assert trace + more == trace;
    } else {
      assert (trace + more)[..|trace|] == trace;
    }
  }

  lemma SendsShape(o: QObj, sig: SignalRef, cbs: seq<Callback>, op: SignalOp)
    ensures var sent := Sends(o, sig, cbs, op);
      |sent| <= 1 &&
      (sent != [] ==> About(sent[0], sig.index) && !sig.notify && (sent[0].ConnectToSignal? <==> op.Connect?))
  {
  }

  lemma StepShape(o: QObj, op: SignalOp, j: nat)
    ensures Step(o, op).0.members == o.members && |Step(o, op).1| <= 1
    ensures op.name !in o.members || o.members[op.name].index != j ==>
              Handlers(Step(o, op).0, j) == Handlers(o, j) &&
              (Step(o, op).1 != [] ==> !About(Step(o, op).1[0], j))
  {
    if op.name in o.members {
      var sig := o.members[op.name];
      SendsShape(o, sig, Handlers(o, sig.index), op);
    }
  }

  lemma {:induction false} RunKeepsMembers(o: QObj, ops: seq<SignalOp>)
    ensures Run(o, ops).0.members == o.members
  {
    if ops != [] {
      RunKeepsMembers(o, ops[..|ops| - 1]);
      StepShape(Run(o, ops[..|ops| - 1]).0, ops[|ops| - 1], 0);
    }
  }

  // The host's view agrees with the callback list.
  ghost predicate InStep(o: QObj, sent: seq<Message>, index: nat) {
    Alternates(OnIndex(sent, index)) &&
    (Handlers(o, index) != [] <==> |OnIndex(sent, index)| % 2 == 1) &&
    (Handlers(o, index) != [] <==> HostSubscribed(sent, index))
  }

  lemma AlternatesNext(msgs: seq<Message>, m: Message)
    requires Alternates(msgs) && (if |msgs| % 2 == 0 then m.ConnectToSignal? else m.DisconnectFromSignal?)
    ensures Alternates(msgs + [m])
  {
  }

  lemma StepStaysInStep(o: QObj, sent: seq<Message>, op: SignalOp, index: nat)
    requires PureAt(o, index) && InStep(o, sent, index)
    ensures InStep(Step(o, op).0, sent + Step(o, op).1, index)
  {
    var more, msgs := Step(o, op).1, OnIndex(sent, index);
    StepShape(o, op, index);
    OnIndexAppend(sent, more, index);
    if op.name in o.members && o.members[op.name].index == index {
      PureStep(o, op);
      if more != [] {
        AlternatesNext(msgs, more[0]);
      }
    }
    if more == [] || !About(more[0], index) {
      assert msgs + [] == msgs;
    }
  }

  // Connecting puts the callback behind those connected to the signal, and leaves the
  // rest of the object alone.  A message goes out if it is now the only one, and the
  // signal is neither a property's nor the destroyed signal in one of its spellings.
  lemma ConnectDoes(o: QObj, name: string, cb: Callback, j: nat)
    requires name in o.members
    ensures var sig := o.members[name]; var (o', sent) := Step(o, Connect(name, cb));
      o' == o.(handlers := o'.handlers) &&
      Handlers(o', j) == Handlers(o, j) + (if j == sig.index then [cb] else []) &&
      sent == if Handlers(o, sig.index) == [] && !sig.notify && name != "destroyed" && name != "destroyed()" &&
                 name != "destroyed(QObject*)"
              then [ConnectToSignal(o.id, sig.index)] else []
  {
  }

  // Disconnecting takes out the first occurrence of the callback, the others staying in
  // their order.  A message goes out if it was the only one and the signal is not a
  // property's.  A callback that is not connected changes nothing.
  lemma DisconnectDoes(o: QObj, name: string, a: seq<Callback>, cb: Callback, b: seq<Callback>, j: nat)
    requires name in o.members && cb !in a
    ensures var sig := o.members[name]; var (o', sent) := Step(o, Disconnect(name, cb));
      o' == o.(handlers := o'.handlers) &&
      (j != sig.index ==> Handlers(o', j) == Handlers(o, j)) &&
      (Handlers(o, sig.index) == a ==> Handlers(o', sig.index) == a && sent == []) &&
      (Handlers(o, sig.index) == a + [cb] + b ==>
         Handlers(o', sig.index) == a + b &&
         sent == if a + b == [] && !sig.notify then [DisconnectFromSignal(o.id, sig.index)] else [])
  {
    IndexOfFirst(a, cb);
    IndexBetween(a, cb, b);
    var cbs := a + [cb] + b;
    assert cbs[..|a|] == a && cbs[|a| + 1..] == b;
  }

  lemma {:induction false} IndexBetween(a: seq<Callback>, cb: Callback, b: seq<Callback>)
    requires cb !in a
    ensures IndexOf(a + [cb] + b, cb) == |a|
  {
    if a != [] {
      assert (a + [cb] + b)[1..] == a[1..] + [cb] + b;
      IndexBetween(a[1..], cb, b);
    }
  }

  // One call on a pure signal: a message exactly when the list starts or ceases to
  // be empty, and the right one.
  lemma PureStep(o: QObj, op: SignalOp)
    requires op.name in o.members && !o.members[op.name].notify && !IsDestroyedName(op.name)
    ensures var index := o.members[op.name].index; var (o', sent) := Step(o, op);
      sent == if Handlers(o, index) == [] && Handlers(o', index) != [] then [ConnectToSignal(o.id, index)]
              else if Handlers(o, index) != [] && Handlers(o', index) == [] then [DisconnectFromSignal(o.id, index)]
              else []
  {
  }

  // For an index used by pure signals only, connectToSignal and
  // disconnectFromSignal strictly alternate starting with connect, and the host
  // is subscribed exactly while some callback is connected.
  lemma {:induction false} SubscriptionProtocol(o: QObj, ops: seq<SignalOp>, index: nat)
    requires PureAt(o, index) && Handlers(o, index) == []
    ensures var (o', sent) := Run(o, ops);
      Alternates(OnIndex(sent, index)) &&
      (Handlers(o', index) != [] <==> |OnIndex(sent, index)| % 2 == 1) &&
      (Handlers(o', index) != [] <==> HostSubscribed(sent, index))
  {
    if ops != [] {
      var n := |ops| - 1;
      SubscriptionProtocol(o, ops[..n], index);
      RunKeepsMembers(o, ops[..n]);
      StepStaysInStep(Run(o, ops[..n]).0, Run(o, ops[..n]).1, ops[n], index);
    }
  }

  // Notify signals send neither message.
  lemma {:induction false} NotifyIsSilent(o: QObj, ops: seq<SignalOp>, index: nat)
    requires NotifyAt(o, index)
    ensures OnIndex(Run(o, ops).1, index) == []
  {
    if ops != [] {
      var n := |ops| - 1;
      NotifyIsSilent(o, ops[..n], index);
      RunKeepsMembers(o, ops[..n]);
      var (o1, sent) := Run(o, ops[..n]);
      StepShape(o1, ops[n], index);
      OnIndexAppend(sent, Step(o1, ops[n]).1, index);
    }
  }

  // How many calls of the run took the callback list at index from non-empty to empty.
  function Emptyings(o: QObj, ops: seq<SignalOp>, index: nat): nat {
    if ops == [] then 0
    else
      var n := |ops| - 1;
      var o1 := Run(o, ops[..n]).0;
      Emptyings(o, ops[..n], index) +
      if Handlers(o1, index) != [] && Handlers(Step(o1, ops[n]).0, index) == [] then 1 else 0
  }

  // The "destroyed" signal is exempt from connectToSignal but not from
  // disconnectFromSignal: each emptying of its list sends a disconnect that no
  // connect preceded.  The protocol holds exactly when the list is never emptied.
  lemma {:induction false} DestroyedProtocol(o: QObj, ops: seq<SignalOp>, index: nat)
    requires DestroyedAt(o, index)
    ensures var msgs := OnIndex(Run(o, ops).1, index);
      |msgs| == Emptyings(o, ops, index) &&
      (forall m | m in msgs :: m.DisconnectFromSignal?) &&
      (Alternates(msgs) <==> Emptyings(o, ops, index) == 0)
  {
    if ops != [] {
      var n := |ops| - 1;
      DestroyedProtocol(o, ops[..n], index);
      RunKeepsMembers(o, ops[..n]);
      var (o1, sent) := Run(o, ops[..n]);
      StepShape(o1, ops[n], index);
      OnIndexAppend(sent, Step(o1, ops[n]).1, index);
    }
    var msgs := OnIndex(Run(o, ops).1, index);
    assert msgs != [] ==> msgs[0] in msgs;
  }

  lemma StepKeepsOthers(o: QObj, op: SignalOp, index: nat, cb: Callback)
    requires cb in Handlers(o, index) && op.cb != cb
    ensures cb in Handlers(Step(o, op).0, index)
  {
    var cbs := Handlers(o, index);
    if op.name in o.members && o.members[op.name].index == index && op.Disconnect? {
      IndexOfFirst(cbs, op.cb);
      var i := IndexOf(cbs, op.cb);
      if i >= 0 {
        var k :| 0 <= k < |cbs| && cbs[k] == cb;
        assert Splice(cbs, i)[if k < i then k else k - 1] == cb;
      }
    }
  }

  // An object registered by unwrapQObject keeps the client's own callback on
  // "destroyed", which user code cannot name: its list is never emptied.
  lemma {:induction false} PinnedNeverEmpties(o: QObj, ops: seq<SignalOp>, index: nat)
    requires exists cb | cb in Handlers(o, index) :: cb.Destroyer?
    requires forall op | op in ops :: op.cb.User?
    ensures Emptyings(o, ops, index) == 0
    ensures exists cb | cb in Handlers(Run(o, ops).0, index) :: cb.Destroyer?
  {
    if ops != [] {
      var n := |ops| - 1;
      assert ops[n] in ops;
      PinnedNeverEmpties(o, ops[..n], index);
      var o1 := Run(o, ops[..n]).0;
      var cb :| cb in Handlers(o1, index) && cb.Destroyer?;
      StepShape(o1, ops[n], index);
      StepKeepsOthers(o1, ops[n], index, cb);
    }
  }

  // An object announced in the init response has no such callback, and one
  // connect followed by one disconnect of "destroyed" already breaks the protocol.
  lemma StrayDisconnect(o: QObj, index: nat, cb: Callback)
    requires "destroyed" in o.members && o.members["destroyed"] == SignalRef(index, false)
    requires Handlers(o, index) == []
    ensures Run(o, [Connect("destroyed", cb), Disconnect("destroyed", cb)]).1
         == [DisconnectFromSignal(o.id, index)]
  {
    var o1 := Step(o, Connect("destroyed", cb)).0;
    RunTwo(o, Connect("destroyed", cb), Disconnect("destroyed", cb));
    assert Handlers(o1, index) == [cb];
  }

  lemma RunTwo(o: QObj, first: SignalOp, second: SignalOp)
    ensures var (o1, sent) := Step(o, first);
      Run(o, [first, second]) == (Step(o1, second).0, sent + Step(o1, second).1)
  {
    var ops := [first, second];
    assert ops[..|ops| - 1] == [first];
    assert [first][..|[first]| - 1] == [];
    assert Run(o, []) == (o, []);
    assert [] + Step(o, first).1 == Step(o, first).1;
    assert Run(o, [first]) == Step(o, first);
  }

  lemma SpliceMultiset(cbs: seq<Callback>, i: nat)
    requires i < |cbs|
    ensures multiset(Splice(cbs, i)) == multiset(cbs) - multiset{cbs[i]}
  {
    assert cbs == cbs[..i] + ([cbs[i]] + cbs[i + 1..]);
    assert multiset(cbs) == multiset(cbs[..i]) + multiset([cbs[i]] + cbs[i + 1..]);
  }

  lemma RemovePushed(before: seq<Callback>, cb: Callback)
    ensures var cbs := before + [cb]; var i := IndexOf(cbs, cb);
      i >= 0 &&
      multiset(Splice(cbs, i)) == multiset(before) &&
      (cb !in before ==> Splice(cbs, i) == before)
  {
    var cbs := before + [cb];
    assert cbs[|before|] == cb;
    IndexOfFirst(cbs, cb);
    var i := IndexOf(cbs, cb);
    SpliceMultiset(cbs, i);
    assert multiset(cbs) == multiset(before) + multiset{cb};
    assert i < |before| ==> before[i] == cb;
    if cb !in before {
      assert Splice(cbs, |before|) == before;
    }
  }

  // Disconnecting what was just connected restores the callbacks as a multiset,
  // and the list itself unless the same callback was connected before; whether
  // the list is empty, hence whether the host is subscribed, is as before.
  lemma DisconnectUndoesConnect(o: QObj, name: string, cb: Callback)
    requires name in o.members
    ensures var index := o.members[name].index;
      var after := Handlers(Step(Step(o, Connect(name, cb)).0, Disconnect(name, cb)).0, index);
      multiset(after) == multiset(Handlers(o, index)) &&
      (cb !in Handlers(o, index) ==> after == Handlers(o, index)) &&
      (after == [] <==> Handlers(o, index) == [])
  {
    var index := o.members[name].index;
    var before := Handlers(o, index);
    RemovePushed(before, cb);
    var o1 := Step(o, Connect(name, cb)).0;
    assert Handlers(o1, index) == before + [cb];
    var i := IndexOf(before + [cb], cb);
    var after := Handlers(Step(o1, Disconnect(name, cb)).0, index);
    assert after == Splice(before + [cb], i);
  }
}
