// unwrapQObject and unwrapProperties: a wire tree becomes a graph of registered
// objects.  The functions here are the specification; Channel.dfy proves the
// in-place methods against them.
module Registry {
  import opened Wire
  import opened QObjects

  // objects: webChannel.objects.  heap: every QObject ever created, a handle
  // being its position; two references are the same object iff their handles are.
  datatype Store = Store(objects: map<string, nat>, heap: seq<QObj>)

  // The signal members of an object: notify signals as the properties are bound,
  // then the listed signals, a later one replacing an earlier one of its name.
  function NotifyMembers(ps: seq<PropertyInfo>): map<string, SignalRef> {
    if ps == [] then map[]
    else
      var p := ps[|ps| - 1];
      var m := NotifyMembers(ps[..|ps| - 1]);
      match p.notify
      case None => m
      case Some(info) => m[NotifyName(p) := SignalRef(info.index, true)]
  }

  // A name optimised away is reconstructed from the property's.
  function NotifyName(p: PropertyInfo): string
    requires p.notify.Some?
  {
    match p.notify.value.name case None => p.name + "Changed" case Some(given) => given
  }

  function PureMembers(m: map<string, SignalRef>, sigs: seq<SignalInfo>): map<string, SignalRef> {
    if sigs == [] then m
    else
      var last := sigs[|sigs| - 1];
      PureMembers(m, sigs[..|sigs| - 1])[last.name := SignalRef(last.index, false)]
  }

  function Members(data: ObjectData): map<string, SignalRef> {
    PureMembers(NotifyMembers(data.properties), data.signals)
  }

  ghost predicate NamedBy(p: PropertyInfo, name: string) {
    p.notify.Some? && NotifyName(p) == name
  }

  ghost predicate Notifies(ps: seq<PropertyInfo>, name: string) {
    exists i :: 0 <= i < |ps| && NamedBy(ps[i], name)
  }

  lemma NotifiesNext(ps: seq<PropertyInfo>, name: string)
    requires ps != []
    ensures Notifies(ps, name) <==> Notifies(ps[..|ps| - 1], name) || NamedBy(ps[|ps| - 1], name)
  {
    var n := |ps| - 1;
    if i :| 0 <= i < n && NamedBy(ps[..n][i], name) {
      assert NamedBy(ps[i], name);
    }
    if i :| 0 <= i < |ps| && NamedBy(ps[i], name) {
      assert i == n || NamedBy(ps[..n][i], name);
    }
  }

  lemma {:induction false} NotifyMembersAre(ps: seq<PropertyInfo>, name: string)
    ensures name in NotifyMembers(ps) <==> Notifies(ps, name)
  {
    if ps != [] {
      NotifyMembersAre(ps[..|ps| - 1], name);
      NotifiesNext(ps, name);
    }
  }

  lemma {:induction false} NotifyMemberIsLast(ps: seq<PropertyInfo>, i: nat)
    requires i < |ps| && ps[i].notify.Some?
    requires forall j | i < j < |ps| :: !NamedBy(ps[j], NotifyName(ps[i]))
    ensures var m := NotifyMembers(ps);
      NotifyName(ps[i]) in m && m[NotifyName(ps[i])] == SignalRef(ps[i].notify.value.index, true)
  {
    var n := |ps| - 1;
    if i < n {
      NotifyMemberIsLast(ps[..n], i);
      assert !NamedBy(ps[n], NotifyName(ps[i]));
    }
  }

  lemma {:induction false} PureMembersAre(m: map<string, SignalRef>, sigs: seq<SignalInfo>, name: string)
    ensures name in PureMembers(m, sigs) <==> name in m || exists sig | sig in sigs :: sig.name == name
    ensures (forall sig | sig in sigs :: sig.name != name) && name in m ==> PureMembers(m, sigs)[name] == m[name]
    ensures forall i | 0 <= i < |sigs| && sigs[i].name == name && (forall j | i < j < |sigs| :: sigs[j].name != name) ::
              PureMembers(m, sigs)[name] == SignalRef(sigs[i].index, false)
  {
    if sigs != [] {
      var n := |sigs| - 1;
      PureMembersAre(m, sigs[..n], name);
      assert sigs == sigs[..n] + [sigs[n]];
    }
  }

  // The signals of an object are those its properties notify by, under the name given
  // or else the property's with "Changed" behind it, those listed, and no others.
  lemma MembersAre(data: ObjectData, name: string)
    ensures name in Members(data) <==>
      (exists p | p in data.properties ::
         p.notify.Some? &&
         name == match p.notify.value.name case Some(given) => given case None => p.name + "Changed") ||
      (exists sig | sig in data.signals :: sig.name == name)
  {
    NotifyMembersAre(data.properties, name);
    PureMembersAre(NotifyMembers(data.properties), data.signals, name);
    if i :| 0 <= i < |data.properties| && NamedBy(data.properties[i], name) {
      assert data.properties[i] in data.properties;
    }
  }

  // A listed signal is pure, under its own index.
  lemma ListedSignalIsPure(data: ObjectData, i: nat)
    requires i < |data.signals| && forall j | i < j < |data.signals| :: data.signals[j].name != data.signals[i].name
    ensures var name := data.signals[i].name;
      name in Members(data) && Members(data)[name] == SignalRef(data.signals[i].index, false)
  {
    PureMembersAre(NotifyMembers(data.properties), data.signals, data.signals[i].name);
  }

  // A property's notify signal is one, under the index the property gives, unless
  // a listed signal has its name.
  lemma NotifySignalIsNotify(data: ObjectData, i: nat, name: string)
    requires i < |data.properties| && data.properties[i].notify.Some?
    requires var p := data.properties[i];
      name == match p.notify.value.name case Some(given) => given case None => p.name + "Changed"
    requires forall j | i < j < |data.properties| :: !NamedBy(data.properties[j], name)
    requires forall sig | sig in data.signals :: sig.name != name
    ensures name in Members(data) &&
            Members(data)[name] == SignalRef(data.properties[i].notify.value.index, true)
  {
    NotifyMemberIsLast(data.properties, i);
    PureMembersAre(NotifyMembers(data.properties), data.signals, name);
  }

  lemma {:induction false} PureMembersHave(m: map<string, SignalRef>, sigs: seq<SignalInfo>, sig: SignalInfo)
    requires sig in sigs
    ensures sig.name in PureMembers(m, sigs)
  {
    if sig != sigs[|sigs| - 1] {
      PureMembersHave(m, sigs[..|sigs| - 1], sig);
    }
  }

  lemma DestroyedIsMember(data: ObjectData)
    requires HasDestroyed(data)
    ensures "destroyed" in Members(data)
  {
    var sig :| sig in data.signals && sig.name == "destroyed";
    PureMembersHave(NotifyMembers(data.properties), data.signals, sig);
  }

  // new QObject(id, data, webChannel)
  function NewObject(s: Store, id: string, data: ObjectData): Store {
    var raw := RawCache(data.properties);
    Store(s.objects[id := |s.heap|], s.heap + [QObj(id, true, raw, Members(data), map[], raw, 0)])
  }

  // qObject.destroyed.connect(...), which sends no message
  function WatchDestroyed(s: Store, h: nat): Store
    requires h < |s.heap|
  {
    s.(heap := s.heap[h := QObjects.Step(s.heap[h], Connect("destroyed", Destroyer(h, s.heap[h].id))).0])
  }

  function SetSlot(s: Store, h: nat, i: nat, v: Value): Store
    requires h < |s.heap| && i < |s.heap[h].cache|
  {
    var o := s.heap[h];
    s.(heap := s.heap[h := o.(cache := o.cache[i := Slot(o.cache[i].index, v)])])
  }

  function EndPass(s: Store, h: nat): Store
    requires h < |s.heap|
  {
    s.(heap := s.heap[h := s.heap[h].(passes := s.heap[h].passes + 1)])
  }

  // ---------------------------------------------------------------- frame conditions

  // Between a and b objects were only added: none was rebound, and no object of
  // a changed, except that the one at `but` may have new values in its slots.
  ghost predicate Extends(a: Store, b: Store, but: int) {
    |a.heap| <= |b.heap| &&
    (forall g | 0 <= g < |a.heap| && g != but :: b.heap[g] == a.heap[g]) &&
    (0 <= but < |a.heap| ==> SameButValues(a.heap[but], b.heap[but])) &&
    (forall id | id in a.objects :: id in b.objects && b.objects[id] == a.objects[id])
  }

  ghost predicate SameButValues(p: QObj, q: QObj) {
    q == p.(cache := q.cache) && |q.cache| == |p.cache| &&
    forall i | 0 <= i < |p.cache| :: q.cache[i].index == p.cache[i].index
  }

  function Announce(s: Store, id: string, data: ObjectData): (r: Store)
    requires id !in s.objects
    ensures Extends(s, r, -1)
    ensures |r.heap| == |s.heap| + 1 && r.heap[|s.heap|].cache == RawCache(data.properties)
  {
    WatchDestroyed(NewObject(s, id, data), |s.heap|)
  }

  // A nested object comes with the client's own callback on "destroyed", connected
  // without a message to the host.
  lemma AnnouncedIsWatched(s: Store, id: string, data: ObjectData)
    requires id !in s.objects && HasDestroyed(data)
    ensures var h := |s.heap|; var o := Announce(s, id, data).heap[h];
      o.id == id && "destroyed" in o.members && o.members == Members(data) &&
      Handlers(o, o.members["destroyed"].index) == [Destroyer(h, id)] &&
      QObjects.Step(NewObject(s, id, data).heap[h], Connect("destroyed", Destroyer(h, id))).1 == []
  {
    DestroyedIsMember(data);
  }

  // ------------------------------------------------------------------ unwrapQObject

  function Unwrap(s: Store, v: Value): (r: (Store, Value))
    requires FromHost(v)
    ensures Extends(s, r.0, -1)
    decreases Size(v), 1
  {
    match v
    case List(elems) =>
      var (s1, out) := UnwrapAll(s, elems);
      (s1, List(out))
    case Dict(names, members) =>
      var (s1, out) := UnwrapAll(s, members);
      (s1, Dict(names, out))
    case Wrapper(id, data) =>
      if id in s.objects then (s, Object(s.objects[id]))
      else if data.None? then (s, Undefined)
      else
        (UnwrapNew(s, id, data.value), Object(|s.heap|))
    case _ => (s, v)
  }

  // A new object registers itself before its properties are unwrapped.
  function UnwrapNew(s: Store, id: string, data: ObjectData): (r: Store)
    requires id !in s.objects && HasDestroyed(data) && FromHostData(data)
    ensures Extends(s, r, -1)
    decreases 1 + SizeProperties(data.properties), 0
  {
    RawCacheOk(data.properties);
    var s1 := Announce(s, id, data);
    EndPass(UnwrapSlots(s1, |s.heap|, RawCache(data.properties)), |s.heap|)
  }

  function UnwrapAll(s: Store, vs: seq<Value>): (r: (Store, seq<Value>))
    requires forall v | v in vs :: FromHost(v)
    ensures Extends(s, r.0, -1) && |r.1| == |vs|
    decreases SizeAll(vs), 2, |vs|
  {
    if vs == [] then (s, [])
    else
      var n := |vs| - 1;
      assert vs[n] in vs;
      var (s1, out) := UnwrapAll(s, vs[..n]);
      var (s2, last) := Unwrap(s1, vs[n]);
      (s2, out + [last])
  }

  // unwrapProperties on the object at h, whose first |raw| slots hold raw
  function UnwrapSlots(s: Store, h: nat, raw: seq<Slot>): (r: Store)
    requires h < |s.heap| && |raw| <= |s.heap[h].cache| && FromHostSlots(raw)
    ensures Extends(s, r, h)
    decreases SizeSlots(raw), 2, |raw|
  {
    if raw == [] then s
    else
      var n := |raw| - 1;
      assert raw[n] in raw;
      var s1 := UnwrapSlots(s, h, raw[..n]);
      var (s2, v) := Unwrap(s1, raw[n].value);
      SetSlot(s2, h, n, v)
  }
}
