// What a wire tree says, independently of any store: which objects it makes a
// client register, and how a reader who knows certain ids reads it.
module Reading {
  import opened Wire

  datatype Announcement = Announcement(id: string, data: ObjectData)

  function Ids(news: seq<Announcement>): set<string> {
    set a | a in news :: a.id
  }

  lemma IdsAppend(a: seq<Announcement>, b: seq<Announcement>)
    ensures Ids(a + b) == Ids(a) + Ids(b)
  {
    assert forall x :: x in a + b <==> x in a || x in b;
  }

  function Values(c: seq<Slot>): (vs: seq<Value>)
    ensures |vs| == |c| && forall i | 0 <= i < |c| :: vs[i] == c[i].value
    ensures SizeAll(vs) == SizeSlots(c)
  {
    if c == [] then []
    else
      var front := Values(c[..|c| - 1]);
      assert (front + [c[|c| - 1].value])[..|c| - 1] == front;
      front + [c[|c| - 1].value]
  }

  // The values of a new object's cache, in the order they are unwrapped.
  function Contents(data: ObjectData): (vs: seq<Value>)
    ensures SizeAll(vs) <= SizeProperties(data.properties)
  {
    RawCacheOk(data.properties);
    Values(RawCache(data.properties))
  }

  // The announcements a reader takes up, in pre-order: the first data for an id
  // wins, and an id already known is skipped with all its data holds.
  function News(known: set<string>, v: Value): seq<Announcement>
    decreases Size(v), 1
  {
    match v
    case List(elems) => NewsAll(known, elems)
    case Dict(_, members) => NewsAll(known, members)
    case Wrapper(id, Some(data)) =>
      if id in known then [] else [Announcement(id, data)] + NewsAll(known + {id}, Contents(data))
    case _ => []
  }

  function NewsAll(known: set<string>, vs: seq<Value>): seq<Announcement>
    decreases SizeAll(vs), 2, |vs|
  {
    if vs == [] then []
    else NewsAll(known, vs[..|vs| - 1]) + News(Learnt(known, vs), vs[|vs| - 1])
  }

  // What is known by the time the last of vs is read.
  function Learnt(known: set<string>, vs: seq<Value>): set<string>
    requires vs != []
    decreases SizeAll(vs), 1, |vs|
  {
    known + Ids(NewsAll(known, vs[..|vs| - 1]))
  }

  lemma NewsAllNext(known: set<string>, c: seq<Slot>)
    requires c != []
    ensures var n := |c| - 1; var early := NewsAll(known, Values(c[..n]));
      NewsAll(known, Values(c)) == early + News(known + Ids(early), c[n].value)
  {
    assert Values(c)[..|c| - 1] == Values(c[..|c| - 1]);
  }

  ghost predicate AllNew(known: set<string>, news: seq<Announcement>) {
    (forall a | a in news :: a.id !in known) &&
    forall i, j | 0 <= i < j < |news| :: news[i].id != news[j].id
  }

  lemma AllNewAppend(known: set<string>, a: seq<Announcement>, b: seq<Announcement>)
    requires AllNew(known, a) && AllNew(known + Ids(a), b)
    ensures AllNew(known, a + b)
  {
    var c := a + b;
    forall i, j | 0 <= i < j < |c| ensures c[i].id != c[j].id {
      if i < |a| <= j {
        assert a[i] in a && b[j - |a|] in b;
      }
    }
  }

  // Each id is taken up at most once, and no known one is.
  lemma {:induction false} NewsAllNew(known: set<string>, v: Value)
    ensures AllNew(known, News(known, v))
    decreases Size(v), 1
  {
    match v
    case List(elems) => EachNewsAllNew(known, elems);
    case Dict(_, members) => EachNewsAllNew(known, members);
    case Wrapper(id, Some(data)) =>
      if id in known { return; }
      EachNewsAllNew(known + {id}, Contents(data));
      assert Ids([Announcement(id, data)]) == {id};
      AllNewAppend(known, [Announcement(id, data)], NewsAll(known + {id}, Contents(data)));
    case _ =>
  }

  lemma {:induction false} EachNewsAllNew(known: set<string>, vs: seq<Value>)
    ensures AllNew(known, NewsAll(known, vs))
    decreases SizeAll(vs), 2, |vs|
  {
    if vs != [] {
      var n := |vs| - 1;
      EachNewsAllNew(known, vs[..n]);
      NewsAllNew(Learnt(known, vs), vs[n]);
      AllNewAppend(known, NewsAll(known, vs[..n]), News(Learnt(known, vs), vs[n]));
    }
  }

  // What the first k values announce is taken up first and as they have it, whatever
  // comes after.
  lemma {:induction false} EarlierFirst(known: set<string>, vs: seq<Value>, k: nat)
    requires k <= |vs|
    ensures NewsAll(known, vs[..k]) <= NewsAll(known, vs)
  {
    if k == |vs| {
      assert vs[..k] == vs;
    } else {
      assert vs[..|vs| - 1][..k] == vs[..k];
      EarlierFirst(known, vs[..|vs| - 1], k);
    }
  }

  // ------------------------------------------------------------- one-pass reading

  // A mention without data is understood only if its id is known by then.
  function Read(known: set<string>, objects: map<string, nat>, v: Value): Value
    decreases v
  {
    match v
    case List(elems) => List(ReadAll(known, objects, elems))
    case Dict(names, members) => Dict(names, ReadAll(known, objects, members))
    case Wrapper(id, data) => if id in objects && (id in known || data.Some?) then Object(objects[id]) else Undefined
    case _ => v
  }

  function ReadAll(known: set<string>, objects: map<string, nat>, vs: seq<Value>): (rs: seq<Value>)
    ensures |rs| == |vs|
    decreases vs
  {
    if vs == [] then []
    else ReadAll(known, objects, vs[..|vs| - 1]) + [Read(Learnt(known, vs), objects, vs[|vs| - 1])]
  }

  function ReadSlots(known: set<string>, objects: map<string, nat>, c: seq<Slot>): (r: seq<Slot>)
    ensures |r| == |c|
  {
    var vs := ReadAll(known, objects, Values(c));
    seq(|c|, i requires 0 <= i < |c| => Slot(c[i].index, vs[i]))
  }

  lemma ReadSlotsNext(known: set<string>, objects: map<string, nat>, c: seq<Slot>, n: nat)
    requires n < |c|
    ensures Values(c[..n + 1])[..n] == Values(c[..n])
    ensures ReadSlots(known, objects, c[..n + 1]) == ReadSlots(known, objects, c[..n]) +
      [Slot(c[n].index, Read(known + Ids(NewsAll(known, Values(c[..n]))), objects, c[n].value))]
  {
    var vs := Values(c[..n + 1]);
    assert c[..n + 1][..n] == c[..n];
    assert vs[..n] == Values(c[..n]);
    assert ReadAll(known, objects, vs)[..n] == ReadAll(known, objects, vs[..n]);
  }

  // Everything the reading of v can refer to is registered.
  ghost predicate Suffices(objects: map<string, nat>, known: set<string>, news: seq<Announcement>) {
    known <= objects.Keys && Ids(news) <= objects.Keys
  }

  ghost predicate Grown(a: map<string, nat>, b: map<string, nat>) {
    forall id | id in a :: id in b && b[id] == a[id]
  }

  lemma SufficesSplit(objects: map<string, nat>, known: set<string>, vs: seq<Value>)
    requires vs != [] && Suffices(objects, known, NewsAll(known, vs))
    ensures Suffices(objects, known, NewsAll(known, vs[..|vs| - 1]))
    ensures Suffices(objects, Learnt(known, vs), News(Learnt(known, vs), vs[|vs| - 1]))
  {
    IdsAppend(NewsAll(known, vs[..|vs| - 1]), News(Learnt(known, vs), vs[|vs| - 1]));
  }

  // What is registered later does not change a reading.
  lemma {:induction false} ReadGrows(known: set<string>, a: map<string, nat>, b: map<string, nat>, v: Value)
    requires Suffices(a, known, News(known, v)) && Grown(a, b)
    ensures Read(known, a, v) == Read(known, b, v)
    decreases v
  {
    match v
    case List(elems) => ReadAllGrows(known, a, b, elems);
    case Dict(_, members) => ReadAllGrows(known, a, b, members);
    case Wrapper(id, Some(data)) => if id !in known { assert News(known, v)[0].id == id; }
    case _ =>
  }

  lemma {:induction false} ReadAllGrows(known: set<string>, a: map<string, nat>, b: map<string, nat>, vs: seq<Value>)
    requires Suffices(a, known, NewsAll(known, vs)) && Grown(a, b)
    ensures ReadAll(known, a, vs) == ReadAll(known, b, vs)
    decreases vs
  {
    if vs != [] {
      SufficesSplit(a, known, vs);
      ReadAllGrows(known, a, b, vs[..|vs| - 1]);
      ReadGrows(Learnt(known, vs), a, b, vs[|vs| - 1]);
    }
  }

  // No wrapper is left in what has been read.
  lemma {:induction false} ReadClean(known: set<string>, objects: map<string, nat>, v: Value, n: nat)
    requires FromHost(v) && forall id | id in objects :: objects[id] < n
    ensures Clean(Read(known, objects, v), n)
    decreases v
  {
    match v
    case List(elems) => ReadAllClean(known, objects, elems, n);
    case Dict(_, members) => ReadAllClean(known, objects, members, n);
    case _ =>
  }

  lemma {:induction false} ReadAllClean(known: set<string>, objects: map<string, nat>, vs: seq<Value>, n: nat)
    requires (forall v | v in vs :: FromHost(v)) && forall id | id in objects :: objects[id] < n
    ensures forall r | r in ReadAll(known, objects, vs) :: Clean(r, n)
    decreases vs
  {
    if vs != [] {
      var last := vs[|vs| - 1];
      assert last in vs;
      ReadAllClean(known, objects, vs[..|vs| - 1], n);
      ReadClean(Learnt(known, vs), objects, last, n);
    }
  }

  // r is v with a reference, or nothing, in place of each wrapper: the object its id
  // is bound to, or undefined where the wrapper carries no data.
  ghost predicate Stands(objects: map<string, nat>, v: Value, r: Value)
    decreases v
  {
    match v
    case List(elems) =>
      r.List? && |r.elems| == |elems| && forall i | 0 <= i < |elems| :: Stands(objects, elems[i], r.elems[i])
    case Dict(names, members) =>
      r.Dict? && r.names == names && |r.members| == |members| &&
      forall i | 0 <= i < |members| :: Stands(objects, members[i], r.members[i])
    case Wrapper(id, Some(_)) => id in objects && r == Object(objects[id])
    case Wrapper(id, None) => r == Undefined || (id in objects && r == Object(objects[id]))
    case _ => r == v
  }

  lemma {:induction false} ReadStands(known: set<string>, objects: map<string, nat>, v: Value)
    requires Suffices(objects, known, News(known, v))
    ensures Stands(objects, v, Read(known, objects, v))
    decreases v
  {
    match v
    case List(elems) => ReadAllStands(known, objects, elems);
    case Dict(_, members) => ReadAllStands(known, objects, members);
    case Wrapper(id, Some(data)) => if id !in known { assert News(known, v)[0].id == id; }
    case _ =>
  }

  lemma {:induction false} ReadAllStands(known: set<string>, objects: map<string, nat>, vs: seq<Value>)
    requires Suffices(objects, known, NewsAll(known, vs))
    ensures forall i | 0 <= i < |vs| :: Stands(objects, vs[i], ReadAll(known, objects, vs)[i])
    decreases vs
  {
    if vs != [] {
      var n := |vs| - 1;
      SufficesSplit(objects, known, vs);
      ReadAllStands(known, objects, vs[..n]);
      ReadStands(Learnt(known, vs), objects, vs[n]);
    }
  }

  // A cache as read: the same slots, each with the value that stands for what it held.
  ghost predicate SlotsStand(objects: map<string, nat>, raw: seq<Slot>, cache: seq<Slot>) {
    |cache| == |raw| &&
    forall i | 0 <= i < |raw| :: cache[i].index == raw[i].index && Stands(objects, raw[i].value, cache[i].value)
  }

  lemma ReadSlotsStand(known: set<string>, objects: map<string, nat>, raw: seq<Slot>)
    requires Suffices(objects, known, NewsAll(known, Values(raw)))
    ensures SlotsStand(objects, raw, ReadSlots(known, objects, raw))
  {
    ReadAllStands(known, objects, Values(raw));
  }

  // ------------------------------------------------------------- two-pass reading

  // All objects are known in advance; put references in place of wrappers.
  function Subst(objects: map<string, nat>, v: Value): Value
    decreases v
  {
    match v
    case List(elems) => List(SubstAll(objects, elems))
    case Dict(names, members) => Dict(names, SubstAll(objects, members))
    case Wrapper(id, _) => if id in objects then Object(objects[id]) else Undefined
    case _ => v
  }

  function SubstAll(objects: map<string, nat>, vs: seq<Value>): (rs: seq<Value>)
    ensures |rs| == |vs| && forall i | 0 <= i < |vs| :: rs[i] == Subst(objects, vs[i])
    decreases vs
  {
    if vs == [] then [] else SubstAll(objects, vs[..|vs| - 1]) + [Subst(objects, vs[|vs| - 1])]
  }

  function SubstSlots(objects: map<string, nat>, c: seq<Slot>): (r: seq<Slot>)
    ensures |r| == |c| && forall i | 0 <= i < |c| :: r[i] == Slot(c[i].index, Subst(objects, c[i].value))
  {
    seq(|c|, i requires 0 <= i < |c| => Slot(c[i].index, Subst(objects, c[i].value)))
  }

  // No mention without data of an id that `after` has comes before that id is
  // known, in reading order.
  predicate InOrder(known: set<string>, after: set<string>, v: Value)
    decreases v
  {
    match v
    case List(elems) => AllInOrder(known, after, elems)
    case Dict(_, members) => AllInOrder(known, after, members)
    case Wrapper(id, None) => id in known || id !in after
    case _ => true
  }

  predicate AllInOrder(known: set<string>, after: set<string>, vs: seq<Value>)
    decreases vs
  {
    vs == [] || (AllInOrder(known, after, vs[..|vs| - 1]) && InOrder(Learnt(known, vs), after, vs[|vs| - 1]))
  }

  // The ids that wrappers of v go by, those inside the data of others left out.
  function Named(v: Value): set<string>
    decreases v
  {
    match v
    case List(elems) => NamedAll(elems)
    case Dict(_, members) => NamedAll(members)
    case Wrapper(id, _) => {id}
    case _ => {}
  }

  function NamedAll(vs: seq<Value>): set<string>
    decreases vs
  {
    if vs == [] then {} else NamedAll(vs[..|vs| - 1]) + Named(vs[|vs| - 1])
  }

  // Of these ids, those that `first` has are still bound to the same objects.
  ghost predicate StillBound(first: map<string, nat>, later: map<string, nat>, ids: set<string>) {
    forall id | id in ids && id in first :: id in later && later[id] == first[id]
  }

  // The one-pass reading is the two-pass reading exactly if the tree is in order.
  lemma {:induction false} ReadIsSubst(known: set<string>, first: map<string, nat>, later: map<string, nat>, v: Value)
    requires Suffices(first, known, News(known, v)) && StillBound(first, later, Named(v))
    ensures Read(known, first, v) == Subst(later, v) <==> InOrder(known, later.Keys, v)
    decreases v
  {
    match v
    case List(elems) => ReadAllIsSubst(known, first, later, elems);
    case Dict(_, members) => ReadAllIsSubst(known, first, later, members);
    case Wrapper(id, Some(data)) => if id !in known { assert News(known, v)[0].id == id; }
    case _ =>
  }

  lemma {:induction false} ReadAllIsSubst(
      known: set<string>, first: map<string, nat>, later: map<string, nat>, vs: seq<Value>)
    requires Suffices(first, known, NewsAll(known, vs)) && StillBound(first, later, NamedAll(vs))
    ensures ReadAll(known, first, vs) == SubstAll(later, vs) <==> AllInOrder(known, later.Keys, vs)
    decreases vs
  {
    if vs != [] {
      var n := |vs| - 1;
      SufficesSplit(first, known, vs);
      ReadAllIsSubst(known, first, later, vs[..n]);
      ReadIsSubst(Learnt(known, vs), first, later, vs[n]);
      var p, q := ReadAll(known, first, vs), SubstAll(later, vs);
      assert p[..n] == ReadAll(known, first, vs[..n]) && q[..n] == SubstAll(later, vs[..n]);
      assert p == p[..n] + [p[n]] && q == q[..n] + [q[n]];
    }
  }

  lemma ReadSlotsIsSubst(known: set<string>, objects: map<string, nat>, c: seq<Slot>)
    requires Suffices(objects, known, NewsAll(known, Values(c)))
    ensures ReadSlots(known, objects, c) == SubstSlots(objects, c) <==> AllInOrder(known, objects.Keys, Values(c))
  {
    ReadAllIsSubst(known, objects, objects, Values(c));
    var p, q := ReadSlots(known, objects, c), SubstSlots(objects, c);
    var rs, ss := ReadAll(known, objects, Values(c)), SubstAll(objects, Values(c));
    assert forall i | 0 <= i < |c| :: p[i].value == rs[i] && q[i].value == ss[i];
    if p == q {
      assert forall i | 0 <= i < |c| :: rs[i] == ss[i];
    }
  }

  lemma {:induction false} ReadAllAt(known: set<string>, objects: map<string, nat>, vs: seq<Value>, i: nat)
    requires i < |vs| && Suffices(objects, known, NewsAll(known, vs))
    ensures var ids := known + Ids(NewsAll(known, vs[..i]));
      ReadAll(known, objects, vs)[i] == Read(ids, objects, vs[i]) && Suffices(objects, ids, News(ids, vs[i]))
  {
    var n := |vs| - 1;
    SufficesSplit(objects, known, vs);
    if i < n {
      ReadAllAt(known, objects, vs[..n], i);
      assert vs[..n][..i] == vs[..i] && vs[..n][i] == vs[i];
      assert ReadAll(known, objects, vs)[i] == ReadAll(known, objects, vs[..n])[i];
    } else {
      assert Learnt(known, vs) == known + Ids(NewsAll(known, vs[..i]));
    }
  }

  // Slot by slot: a value reads as in two passes exactly if it is in order, given
  // what the values before it have announced.
  lemma SlotIsSubst(known: set<string>, objects: map<string, nat>, c: seq<Slot>, i: nat)
    requires i < |c| && Suffices(objects, known, NewsAll(known, Values(c)))
    ensures ReadSlots(known, objects, c)[i].value == Subst(objects, c[i].value)
            <==> InOrder(known + Ids(NewsAll(known, Values(c)[..i])), objects.Keys, c[i].value)
  {
    ReadAllAt(known, objects, Values(c), i);
    ReadIsSubst(known + Ids(NewsAll(known, Values(c)[..i])), objects, objects, c[i].value);
  }

  // Every id that v announces is registered.
  ghost predicate Announced(objects: map<string, nat>, v: Value)
    decreases v
  {
    match v
    case List(elems) => forall e | e in elems :: Announced(objects, e)
    case Dict(_, members) => forall e | e in members :: Announced(objects, e)
    case Wrapper(id, Some(_)) => id in objects
    case _ => true
  }

  // A tree is no news exactly if all it announces is known.
  lemma {:induction false} NoNewsIsAnnounced(objects: map<string, nat>, v: Value)
    ensures News(objects.Keys, v) == [] <==> Announced(objects, v)
    decreases v
  {
    match v
    case List(elems) => NoNewsAllAnnounced(objects, elems);
    case Dict(_, members) => NoNewsAllAnnounced(objects, members);
    case _ =>
  }

  lemma {:induction false} NoNewsAllAnnounced(objects: map<string, nat>, vs: seq<Value>)
    ensures NewsAll(objects.Keys, vs) == [] <==> forall v | v in vs :: Announced(objects, v)
    decreases vs
  {
    if vs != [] {
      var n := |vs| - 1;
      assert forall v :: v in vs <==> v in vs[..n] || v == vs[n];
      NoNewsAllAnnounced(objects, vs[..n]);
      NoNewsIsAnnounced(objects, vs[n]);
      var early := NewsAll(objects.Keys, vs[..n]);
      if early == [] {
        assert Learnt(objects.Keys, vs) == objects.Keys;
      } else {
        assert |NewsAll(objects.Keys, vs)| >= |early| > 0;
      }
    }
  }

  lemma {:induction false} SufficedIsAnnounced(
      known: set<string>, first: map<string, nat>, later: map<string, nat>, v: Value)
    requires Suffices(first, known, News(known, v)) && StillBound(first, later, Named(v))
    ensures Announced(later, v)
    decreases v
  {
    match v
    case List(elems) => SufficedAllAnnounced(known, first, later, elems);
    case Dict(_, members) => SufficedAllAnnounced(known, first, later, members);
    case Wrapper(id, Some(data)) => if id !in known { assert News(known, v)[0].id == id; }
    case _ =>
  }

  lemma {:induction false} SufficedAllAnnounced(
      known: set<string>, first: map<string, nat>, later: map<string, nat>, vs: seq<Value>)
    requires Suffices(first, known, NewsAll(known, vs)) && StillBound(first, later, NamedAll(vs))
    ensures forall v | v in vs :: Announced(later, v)
    decreases vs
  {
    if vs != [] {
      var n := |vs| - 1;
      SufficesSplit(first, known, vs);
      SufficedAllAnnounced(known, first, later, vs[..n]);
      SufficedIsAnnounced(Learnt(known, vs), first, later, vs[n]);
      assert vs == vs[..n] + [vs[n]];
    }
  }
}
