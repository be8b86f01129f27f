// Decoded messages of the web channel: what the host sends, and the values a
// client ends up with once wrapped objects have been replaced by references.
module Wire {

  datatype Option<+T> = None | Some(value: T)

  // One type covers both sides of unwrapping, as in the JavaScript source.  A
  // Wrapper is the host's description of an object (the "__QObject*__" marker
  // together with an id); an Object is a reference to a client-side QObject.
  datatype Value =
    | Undefined
    | Prim(text: string)
    | List(elems: seq<Value>)
    | Dict(names: seq<string>, members: seq<Value>)
    | Wrapper(id: string, data: Option<ObjectData>)
    | Object(handle: nat)

  datatype ObjectData = ObjectData(properties: seq<PropertyInfo>, signals: seq<SignalInfo>)

  datatype PropertyInfo = PropertyInfo(index: nat, name: string, notify: Option<NotifyInfo>, value: Value)

  // The name of a notify signal is None when the host sent the number 1 for it.
  datatype NotifyInfo = NotifyInfo(name: Option<string>, index: nat)

  datatype SignalInfo = SignalInfo(name: string, index: nat)

  // One entry of a property cache.  A cache lists its slots by ascending index,
  // the order in which JavaScript enumerates integer keys.
  datatype Slot = Slot(index: nat, value: Value)

  // ---------------------------------------------------------------- tree size

  function Size(v: Value): (n: nat)
    ensures n >= 1
    decreases v
  {
    match v
    case List(elems) => 1 + SizeAll(elems)
    case Dict(_, members) => 1 + SizeAll(members)
    case Wrapper(_, Some(data)) => 1 + SizeProperties(data.properties)
    case _ => 1
  }

  function SizeAll(vs: seq<Value>): nat
    decreases vs
  {
    if vs == [] then 0 else SizeAll(vs[..|vs| - 1]) + Size(vs[|vs| - 1])
  }

  function SizeProperties(ps: seq<PropertyInfo>): nat
    decreases ps
  {
    if ps == [] then 0 else SizeProperties(ps[..|ps| - 1]) + Size(ps[|ps| - 1].value)
  }

  function SizeSlots(c: seq<Slot>): nat {
    if c == [] then 0 else SizeSlots(c[..|c| - 1]) + Size(c[|c| - 1].value)
  }

  // ------------------------------------------------------------ what a host sends

  // A tree as it arrives: no client-side reference in it, and every object it
  // describes announces a "destroyed" signal.
  predicate FromHost(v: Value)
    decreases v
  {
    match v
    case List(elems) => forall e | e in elems :: FromHost(e)
    case Dict(_, members) => forall e | e in members :: FromHost(e)
    case Wrapper(_, Some(data)) => HasDestroyed(data) && FromHostData(data)
    case Object(_) => false
    case _ => true
  }

  predicate FromHostData(data: ObjectData)
    decreases data
  {
    forall p | p in data.properties :: FromHost(p.value)
  }

  predicate HasDestroyed(data: ObjectData) {
    exists sig | sig in data.signals :: sig.name == "destroyed"
  }

  predicate FromHostSlots(c: seq<Slot>) {
    forall slot | slot in c :: FromHost(slot.value)
  }

  // ---------------------------------------------------------- what a client holds

  // No wrapper is left anywhere in v, and its references are below n.
  predicate Clean(v: Value, n: nat)
    decreases v
  {
    match v
    case List(elems) => forall e | e in elems :: Clean(e, n)
    case Dict(_, members) => forall e | e in members :: Clean(e, n)
    case Wrapper(_, _) => false
    case Object(h) => h < n
    case _ => true
  }

  predicate CleanSlots(c: seq<Slot>, n: nat) {
    forall slot | slot in c :: Clean(slot.value, n)
  }

  lemma {:induction false} CleanGrows(v: Value, n: nat, m: nat)
    requires Clean(v, n) && n <= m
    ensures Clean(v, m)
    decreases v
  {
    match v
    case List(elems) =>
      forall e | e in elems ensures Clean(e, m) { CleanGrows(e, n, m); }
    case Dict(_, members) =>
      forall e | e in members ensures Clean(e, m) { CleanGrows(e, n, m); }
    case _ =>
  }

  lemma CleanSlotsGrow(c: seq<Slot>, n: nat, m: nat)
    requires CleanSlots(c, n) && n <= m
    ensures CleanSlots(c, m)
  {
    forall slot | slot in c ensures Clean(slot.value, m) { CleanGrows(slot.value, n, m); }
  }

  // -------------------------------------------------------------- property caches

  predicate Ascending(c: seq<Slot>) {
    forall i, j | 0 <= i < j < |c| :: c[i].index < c[j].index
  }

  // cache[k] = v
  function Put(c: seq<Slot>, k: nat, v: Value): seq<Slot> {
    if c == [] then [Slot(k, v)]
    else
      var n := |c| - 1;
      if c[n].index < k then c + [Slot(k, v)]
      else if c[n].index == k then c[..n] + [Slot(k, v)]
      else Put(c[..n], k, v) + [c[n]]
  }

  // cache[k]; undefined when the key is absent.
  function Get(c: seq<Slot>, k: nat): Value {
    if c == [] then Undefined
    else if c[|c| - 1].index == k then c[|c| - 1].value
    else Get(c[..|c| - 1], k)
  }

  // A cache reads at an index what its slot there holds, and undefined without one.
  lemma {:induction false} GetIs(c: seq<Slot>, k: nat)
    requires Ascending(c)
    ensures forall i | 0 <= i < |c| && c[i].index == k :: Get(c, k) == c[i].value
    ensures (forall i | 0 <= i < |c| :: c[i].index != k) ==> Get(c, k) == Undefined
  {
    if c != [] {
      GetIs(c[..|c| - 1], k);
    }
  }

  lemma GetSnoc(c: seq<Slot>, last: Slot, j: nat)
    ensures Get(c + [last], j) == if last.index == j then last.value else Get(c, j)
  {
    assert (c + [last])[..|c|] == c;
  }

  // A cache is a finite map: Put changes the value at one key and at no other.
  lemma {:induction false} PutThenGet(c: seq<Slot>, k: nat, v: Value, j: nat)
    ensures Get(Put(c, k, v), j) == if j == k then v else Get(c, j)
  {
    if c == [] {
      GetSnoc([], Slot(k, v), j);
      assert [] + [Slot(k, v)] == [Slot(k, v)];
    } else {
      var front, last := c[..|c| - 1], c[|c| - 1];
      if last.index < k {
        GetSnoc(c, Slot(k, v), j);
      } else if last.index == k {
        GetSnoc(front, Slot(k, v), j);
      } else {
        GetSnoc(Put(front, k, v), last, j);
        PutThenGet(front, k, v, j);
      }
    }
  }

  lemma {:induction false} PutSize(c: seq<Slot>, k: nat, v: Value)
    ensures SizeSlots(Put(c, k, v)) <= SizeSlots(c) + Size(v)
    ensures forall s | s in Put(c, k, v) :: s == Slot(k, v) || s in c
  {
    var p := Put(c, k, v);
    if c == [] {
      assert p[..0] == [];
    } else {
      var n := |c| - 1;
      if c[n].index < k {
        assert p[..|c|] == c;
      } else if c[n].index == k {
        assert p[..n] == c[..n];
      } else {
        PutSize(c[..n], k, v);
        assert p[..|p| - 1] == Put(c[..n], k, v);
      }
    }
  }

  lemma {:induction false} PutKeepsAscending(c: seq<Slot>, k: nat, v: Value)
    requires Ascending(c)
    ensures Ascending(Put(c, k, v))
  {
    if c != [] && k < c[|c| - 1].index {
      var front, last := c[..|c| - 1], c[|c| - 1];
      PutKeepsAscending(front, k, v);
      PutSize(front, k, v);
      var p := Put(front, k, v);
      forall i | 0 <= i < |p| ensures p[i].index < last.index {
        assert p[i] in p;
      }
    }
  }

  // The cache a QObject starts with: its properties' wire values, a later
  // entry for the same index replacing an earlier one.
  function RawCache(ps: seq<PropertyInfo>): seq<Slot> {
    if ps == [] then []
    else Put(RawCache(ps[..|ps| - 1]), ps[|ps| - 1].index, ps[|ps| - 1].value)
  }

  lemma {:induction false} RawCacheOk(ps: seq<PropertyInfo>)
    ensures Ascending(RawCache(ps))
    ensures SizeSlots(RawCache(ps)) <= SizeProperties(ps)
    ensures (forall p | p in ps :: FromHost(p.value)) ==> FromHostSlots(RawCache(ps))
  {
    if ps != [] {
      var n := |ps| - 1;
      RawCacheOk(ps[..n]);
      PutKeepsAscending(RawCache(ps[..n]), ps[n].index, ps[n].value);
      PutSize(RawCache(ps[..n]), ps[n].index, ps[n].value);
      assert ps[n] in ps;
      assert forall p | p in ps[..n] :: p in ps;
    }
  }

  // A new object's cache reads, at each property's index, as the host announced it.
  lemma {:induction false} RawCacheReads(ps: seq<PropertyInfo>, i: nat)
    requires i < |ps| && forall j | i < j < |ps| :: ps[j].index != ps[i].index
    ensures Get(RawCache(ps), ps[i].index) == ps[i].value
  {
    var n := |ps| - 1;
    PutThenGet(RawCache(ps[..n]), ps[n].index, ps[n].value, ps[i].index);
    if i < n {
      RawCacheReads(ps[..n], i);
    }
  }
}
