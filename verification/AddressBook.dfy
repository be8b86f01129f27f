// The address book manager: contacts as nested lists, looked up linearly and
// changed in place, against an abstract map of cards.
module AddressBook {
  import opened Lists

  // addresses is a JSON object; what iterates over it sees ascending keys.
  datatype WalletInfo = WalletInfo(kind: string, addresses: map<string, string>)
  datatype Contact = Contact(name: string, categories: seq<string>, wallets: seq<WalletInfo>)

  // ------------------------------------------------------------------- lookups

  function ContactName(c: Contact): string {
    c.name
  }

  function WalletKind(w: WalletInfo): string {
    w.kind
  }

  // First contact of that name, or -1.
  function Find(data: seq<Contact>, name: string): (i: int)
    ensures -1 <= i < |data| && (i >= 0 ==> data[i].name == name)
  {
    First(data, ContactName, name)
  }

  // First wallet info of that type, or -1.
  function FindKind(ws: seq<WalletInfo>, kind: string): (i: int)
    ensures -1 <= i < |ws| && (i >= 0 ==> ws[i].kind == kind)
  {
    First(ws, WalletKind, kind)
  }

  // ----------------------------------------------------------- well-formed books

  predicate DistinctNames(data: seq<Contact>) {
    forall i, j | 0 <= i < j < |data| :: data[i].name != data[j].name
  }

  predicate DistinctKinds(ws: seq<WalletInfo>) {
    forall i, j | 0 <= i < j < |ws| :: ws[i].kind != ws[j].kind
  }

  predicate NoEmptyWallet(ws: seq<WalletInfo>) {
    forall w | w in ws :: w.addresses != map[]
  }

  predicate WalletsOk(ws: seq<WalletInfo>) {
    DistinctKinds(ws) && NoEmptyWallet(ws)
  }

  predicate ContactOk(c: Contact) {
    NoRepeats(c.categories) && WalletsOk(c.wallets)
  }

  predicate BookOk(data: seq<Contact>) {
    DistinctNames(data) && forall i | 0 <= i < |data| :: ContactOk(data[i])
  }

  // ------------------------------------------------------------- abstract reading

  type Addresses = map<(string, string), string>

  datatype Card = Card(categories: seq<string>, addresses: Addresses)

  ghost function PairsOf(w: WalletInfo): Addresses {
    map k | k in w.addresses :: (w.kind, k) := w.addresses[k]
  }

  // An earlier wallet info hides a later one of the same type.
  ghost function AddressesOf(ws: seq<WalletInfo>): Addresses {
    if ws == [] then map[] else PairsOf(ws[|ws| - 1]) + AddressesOf(ws[..|ws| - 1])
  }

  ghost function CardOf(c: Contact): Card {
    Card(c.categories, AddressesOf(c.wallets))
  }

  ghost function CardsOf(data: seq<Contact>): map<string, Card> {
    map name | name in (set c | c in data :: c.name) && Find(data, name) >= 0 :: CardOf(data[Find(data, name)])
  }

  // The addresses under a type; none where the type is absent.
  function Under(ws: seq<WalletInfo>, kind: string): map<string, string> {
    var i := FindKind(ws, kind);
    if i >= 0 then ws[i].addresses else map[]
  }

  lemma CardsAt(data: seq<Contact>, name: string)
    ensures name in CardsOf(data) <==> Find(data, name) >= 0
    ensures Find(data, name) >= 0 ==> CardsOf(data)[name] == CardOf(data[Find(data, name)])
  {
    var i := Find(data, name);
    if i >= 0 { assert data[i] in data; }
  }

  lemma {:induction false} AddressesAt(ws: seq<WalletInfo>, kind: string, key: string)
    ensures (kind, key) in AddressesOf(ws) ==> FindKind(ws, kind) >= 0
    ensures DistinctKinds(ws) ==> ((kind, key) in AddressesOf(ws) <==> key in Under(ws, kind))
    ensures DistinctKinds(ws) && key in Under(ws, kind) ==> AddressesOf(ws)[(kind, key)] == Under(ws, kind)[key]
  {
    if ws != [] {
      var n := |ws| - 1;
      AddressesAt(ws[..n], kind, key);
      if FindKind(ws[..n], kind) >= 0 {
        assert ws[..n][FindKind(ws[..n], kind)] == ws[FindKind(ws[..n], kind)];
      }
      assert (kind, key) in PairsOf(ws[n]) <==> kind == ws[n].kind && key in ws[n].addresses;
    }
  }

  ghost predicate ReadsAs(ws: seq<WalletInfo>, m: Addresses, kind: string, key: string) {
    (key in Under(ws, kind) <==> (kind, key) in m) &&
    (key in Under(ws, kind) ==> m[(kind, key)] == Under(ws, kind)[key])
  }

  // With distinct types the abstract map is what the lookups say it is.
  lemma Represents(ws: seq<WalletInfo>, m: Addresses)
    requires DistinctKinds(ws) && forall kind, key :: ReadsAs(ws, m, kind, key)
    ensures AddressesOf(ws) == m
  {
    var a := AddressesOf(ws);
    forall p | p in a || p in m ensures p in a && p in m && a[p] == m[p] {
      assert p == (p.0, p.1);
      AddressesAt(ws, p.0, p.1);
      assert ReadsAs(ws, m, p.0, p.1);
    }
  }

  lemma ReadsItself(ws: seq<WalletInfo>, kind: string, key: string)
    requires DistinctKinds(ws)
    ensures ReadsAs(ws, AddressesOf(ws), kind, key)
  {
    AddressesAt(ws, kind, key);
  }

  // has_wallet_info(name, type) tells whether any address is under the type.
  lemma KindPresent(ws: seq<WalletInfo>, kind: string)
    requires WalletsOk(ws)
    ensures FindKind(ws, kind) >= 0 <==> exists key :: (kind, key) in AddressesOf(ws)
  {
    var i := FindKind(ws, kind);
    if i >= 0 {
      assert ws[i] in ws;
      var key :| key in ws[i].addresses;
      AddressesAt(ws, kind, key);
    }
    if key :| (kind, key) in AddressesOf(ws) {
      AddressesAt(ws, kind, key);
    }
  }

  // ------------------------------------------------------- changes to a wallet list

  // wallet_info["addresses"][key] = address, in a new wallet info if needed
  function SetAddress(ws: seq<WalletInfo>, kind: string, key: string, address: string): seq<WalletInfo> {
    var i := FindKind(ws, kind);
    if i >= 0 then ws[i := WalletInfo(kind, ws[i].addresses[key := address])]
    else ws + [WalletInfo(kind, map[key := address])]
  }

  // Everything of other types, in order.
  function Without(ws: seq<WalletInfo>, kind: string): seq<WalletInfo> {
    if ws == [] then []
    else
      var n := |ws| - 1;
      if ws[n].kind == kind then Without(ws[..n], kind) else Without(ws[..n], kind) + [ws[n]]
  }

  // The removal overload with a key; the type is present.
  function RemoveKey(ws: seq<WalletInfo>, i: nat, key: string): seq<WalletInfo>
    requires i < |ws|
  {
    var left := ws[i].addresses - {key};
    if left == map[] then Without(ws, ws[i].kind) else ws[i := WalletInfo(ws[i].kind, left)]
  }

  lemma FindKindAfterPush(ws: seq<WalletInfo>, w: WalletInfo, kind: string)
    ensures FindKind(ws + [w], kind) ==
      if FindKind(ws, kind) >= 0 then FindKind(ws, kind) else if w.kind == kind then |ws| else -1
  {
    assert (ws + [w])[..|ws|] == ws;
  }

  lemma UnderAfterPush(ws: seq<WalletInfo>, w: WalletInfo, kind: string)
    ensures Under(ws + [w], kind) ==
      if FindKind(ws, kind) >= 0 then Under(ws, kind) else if w.kind == kind then w.addresses else map[]
  {
    FindKindAfterPush(ws, w, kind);
  }

  lemma {:induction false} WithoutUnder(ws: seq<WalletInfo>, kind: string, other: string)
    ensures Under(Without(ws, kind), other) == if other == kind then map[] else Under(ws, other)
    ensures other == kind ==> FindKind(Without(ws, kind), other) == -1
    ensures other != kind ==> (FindKind(Without(ws, kind), other) >= 0 <==> FindKind(ws, other) >= 0)
  {
    if ws != [] {
      var n := |ws| - 1;
      WithoutUnder(ws[..n], kind, other);
      assert ws == ws[..n] + [ws[n]];
      UnderAfterPush(ws[..n], ws[n], other);
      FindKindAfterPush(ws[..n], ws[n], other);
      if ws[n].kind != kind {
        UnderAfterPush(Without(ws[..n], kind), ws[n], other);
        FindKindAfterPush(Without(ws[..n], kind), ws[n], other);
      }
    }
  }

  lemma {:induction false} WithoutIn(ws: seq<WalletInfo>, kind: string)
    ensures forall w | w in Without(ws, kind) :: w in ws && w.kind != kind
  {
    if ws != [] {
      WithoutIn(ws[..|ws| - 1], kind);
    }
  }

  lemma {:induction false} WithoutDistinct(ws: seq<WalletInfo>, kind: string)
    requires DistinctKinds(ws)
    ensures DistinctKinds(Without(ws, kind))
  {
    if ws != [] {
      var n := |ws| - 1;
      WithoutDistinct(ws[..n], kind);
      WithoutIn(ws[..n], kind);
      var front := Without(ws[..n], kind);
      forall i | 0 <= i < |front| ensures front[i].kind != ws[n].kind {
        assert front[i] in ws[..n];
      }
    }
  }

  lemma WithoutOk(ws: seq<WalletInfo>, kind: string)
    requires WalletsOk(ws)
    ensures WalletsOk(Without(ws, kind))
  {
    WithoutIn(ws, kind);
    WithoutDistinct(ws, kind);
  }

  lemma SetAddressWallets(ws: seq<WalletInfo>, kind: string, key: string, address: string)
    requires WalletsOk(ws)
    ensures WalletsOk(SetAddress(ws, kind, key, address))
  {
    var i := FindKind(ws, kind);
    if i >= 0 {
      assert ws[i].addresses[key := address][key] == address;
    } else {
      forall j | 0 <= j < |ws| ensures ws[j].kind != kind {
        if ws[j].kind == kind { FirstIsFirst(ws, WalletKind, kind, j); }
      }
      assert map[key := address][key] == address;
    }
  }

  lemma SetAddressUnder(ws: seq<WalletInfo>, kind: string, key: string, address: string, k: string)
    ensures Under(SetAddress(ws, kind, key, address), k)
         == if k == kind then Under(ws, k)[key := address] else Under(ws, k)
  {
    var i := FindKind(ws, kind);
    if i >= 0 {
      FirstAfterUpdate(ws, WalletKind, k, i, WalletInfo(kind, ws[i].addresses[key := address]));
    } else {
      UnderAfterPush(ws, WalletInfo(kind, map[key := address]), k);
    }
  }

  // Setting an address adds or replaces one pair of the abstract map.
  lemma SetAddressOk(ws: seq<WalletInfo>, kind: string, key: string, address: string)
    requires WalletsOk(ws)
    ensures WalletsOk(SetAddress(ws, kind, key, address))
    ensures AddressesOf(SetAddress(ws, kind, key, address)) == AddressesOf(ws)[(kind, key) := address]
  {
    SetAddressWallets(ws, kind, key, address);
    var ws', m' := SetAddress(ws, kind, key, address), AddressesOf(ws)[(kind, key) := address];
    forall k, a ensures ReadsAs(ws', m', k, a) {
      SetAddressUnder(ws, kind, key, address, k);
      ReadsItself(ws, k, a);
    }
    Represents(ws', m');
  }

  // Removing a type removes its pairs and no others.
  lemma WithoutAddresses(ws: seq<WalletInfo>, kind: string)
    requires WalletsOk(ws)
    ensures WalletsOk(Without(ws, kind))
    ensures AddressesOf(Without(ws, kind)) == map p | p in AddressesOf(ws) && p.0 != kind :: AddressesOf(ws)[p]
  {
    WithoutOk(ws, kind);
    var m := AddressesOf(ws);
    var m' := map p | p in m && p.0 != kind :: m[p];
    forall k, a ensures ReadsAs(Without(ws, kind), m', k, a) {
      WithoutUnder(ws, kind, k);
      ReadsItself(ws, k, a);
    }
    Represents(Without(ws, kind), m');
  }

  lemma RemoveKeyUnder(ws: seq<WalletInfo>, kind: string, key: string, k: string)
    requires FindKind(ws, kind) >= 0
    ensures Under(RemoveKey(ws, FindKind(ws, kind), key), k)
         == if k == kind then Under(ws, k) - {key} else Under(ws, k)
  {
    var i := FindKind(ws, kind);
    var left := ws[i].addresses - {key};
    if left == map[] {
      WithoutUnder(ws, kind, k);
    } else {
      FirstAfterUpdate(ws, WalletKind, k, i, WalletInfo(kind, left));
    }
  }

  // Removing a key removes one pair; its wallet info goes with the last one.
  lemma RemoveKeyOk(ws: seq<WalletInfo>, kind: string, key: string)
    requires WalletsOk(ws) && FindKind(ws, kind) >= 0
    ensures WalletsOk(RemoveKey(ws, FindKind(ws, kind), key))
    ensures AddressesOf(RemoveKey(ws, FindKind(ws, kind), key)) == AddressesOf(ws) - {(kind, key)}
  {
    var i := FindKind(ws, kind);
    WithoutOk(ws, kind);
    var ws', m' := RemoveKey(ws, i, key), AddressesOf(ws) - {(kind, key)};
    forall k, a ensures ReadsAs(ws', m', k, a) {
      RemoveKeyUnder(ws, kind, key, k);
      ReadsItself(ws, k, a);
    }
    Represents(ws', m');
  }

  // Where an address is set: in the first wallet info of its type, the others staying
  // as they are and in place, or in a new one behind them.
  lemma SetAddressInPlace(
      a: seq<WalletInfo>, w: WalletInfo, b: seq<WalletInfo>, kind: string, key: string, address: string)
    requires forall v | v in a :: v.kind != kind
    ensures SetAddress(a, kind, key, address) == a + [WalletInfo(kind, map[key := address])]
    ensures w.kind == kind ==>
      SetAddress(a + [w] + b, kind, key, address) == a + [WalletInfo(kind, w.addresses[key := address])] + b
  {
    FirstAbsent(a, WalletKind, kind);
    if w.kind == kind { FirstBetween(a, w, b, WalletKind, kind); }
  }

  lemma {:induction false} WithoutAppend(a: seq<WalletInfo>, b: seq<WalletInfo>, kind: string)
    ensures Without(a + b, kind) == Without(a, kind) + Without(b, kind)
  {
    if b == [] {
      assert a + b == a;
    } else {
      var n := |b| - 1;
      assert (a + b)[..|a + b| - 1] == a + b[..n];
      WithoutAppend(a, b[..n], kind);
    }
  }

  lemma {:induction false} WithoutNone(ws: seq<WalletInfo>, kind: string)
    requires forall w | w in ws :: w.kind != kind
    ensures Without(ws, kind) == ws
  {
    if ws != [] {
      WithoutNone(ws[..|ws| - 1], kind);
    }
  }

  // Removing a type takes out the one wallet info that has it, the others staying in
  // their order; removing a key changes that one alone, or takes it out as its last.
  lemma RemoveInPlace(a: seq<WalletInfo>, w: WalletInfo, b: seq<WalletInfo>, key: string)
    requires forall v | v in a || v in b :: v.kind != w.kind
    ensures Without(a + [w] + b, w.kind) == a + b
    ensures FindKind(a + [w] + b, w.kind) == |a|
    ensures RemoveKey(a + [w] + b, |a|, key) ==
      if w.addresses - {key} == map[] then a + b else a + [WalletInfo(w.kind, w.addresses - {key})] + b
  {
    WithoutNone(a, w.kind);
    WithoutNone(b, w.kind);
    WithoutAppend(a, [w], w.kind);
    WithoutAppend(a + [w], b, w.kind);
    assert [w][..0] == [] && a + [] == a;
    FirstBetween(a, w, b, WalletKind, w.kind);
  }

  // -------------------------------------------------------------------- categories

  function Itself(s: string): string {
    s
  }

  // First position, or -1.
  function Position(cs: seq<string>, c: string): (i: int)
    ensures -1 <= i < |cs| && (i >= 0 ==> cs[i] == c) && (i == -1 <==> c !in cs)
  {
    FirstAbsent(cs, Itself, c);
    First(cs, Itself, c)
  }

  function EraseFirst(cs: seq<string>, c: string): seq<string> {
    var i := Position(cs, c);
    if i >= 0 then cs[..i] + cs[i + 1..] else cs
  }

  function AddIfNew(cs: seq<string>, c: string): seq<string> {
    if c in cs then cs else cs + [c]
  }

  function Dropping(cs: seq<string>, c: string): seq<string> {
    if cs == [] then []
    else
      var n := |cs| - 1;
      if cs[n] == c then Dropping(cs[..n], c) else Dropping(cs[..n], c) + [cs[n]]
  }

  lemma {:induction false} DroppingAbsent(cs: seq<string>, c: string)
    requires c !in cs
    ensures Dropping(cs, c) == cs
  {
    if cs != [] { DroppingAbsent(cs[..|cs| - 1], c); }
  }

  lemma PositionSnoc(front: seq<string>, last: string, c: string)
    ensures Position(front + [last], c) ==
      if Position(front, c) >= 0 then Position(front, c) else if last == c then |front| else -1
  {
    assert (front + [last])[..|front|] == front;
  }

  lemma EraseFirstSnoc(front: seq<string>, last: string, c: string)
    ensures EraseFirst(front + [last], c) ==
      if c in front then EraseFirst(front, c) + [last] else if last == c then front else front + [last]
  {
    PositionSnoc(front, last, c);
    var cs, i := front + [last], Position(front, c);
    if i >= 0 {
      EraseSnoc(front, last, i);
    } else if last == c {
      assert cs[..|front|] + cs[|front| + 1..] == front;
    }
  }

  lemma EraseSnoc(front: seq<string>, last: string, i: nat)
    requires i < |front|
    ensures (front + [last])[..i] + (front + [last])[i + 1..] == front[..i] + front[i + 1..] + [last]
  {
  }

  lemma {:induction false} DroppingOk(cs: seq<string>, c: string)
    requires NoRepeats(cs)
    ensures NoRepeats(Dropping(cs, c)) && forall x | x in Dropping(cs, c) :: x in cs && x != c
  {
    if cs != [] {
      var n := |cs| - 1;
      DroppingOk(cs[..n], c);
      var front := Dropping(cs[..n], c);
      forall i | 0 <= i < |front| ensures front[i] != cs[n] {
        assert front[i] in cs[..n];
      }
    }
  }

  // Without repeats, erasing the first occurrence erases the category.
  lemma {:induction false} EraseFirstDrops(cs: seq<string>, c: string)
    requires NoRepeats(cs)
    ensures EraseFirst(cs, c) == Dropping(cs, c)
  {
    if cs != [] {
      var front, last := cs[..|cs| - 1], cs[|cs| - 1];
      assert cs == front + [last];
      EraseFirstSnoc(front, last, c);
      EraseFirstDrops(front, c);
      if c !in front { DroppingAbsent(front, c); }
    }
  }

  // Erasing takes out the first occurrence and moves nothing else; a category is new
  // behind the others.
  lemma CategoriesInPlace(a: seq<string>, c: string, b: seq<string>)
    requires c !in a
    ensures EraseFirst(a, c) == a && AddIfNew(a, c) == a + [c]
    ensures EraseFirst(a + [c] + b, c) == a + b && AddIfNew(a + [c] + b, c) == a + [c] + b
  {
    FirstAbsent(a, Itself, c);
    FirstBetween(a, c, b, Itself, c);
    var cs := a + [c] + b;
    assert cs[..|a|] == a && cs[|a| + 1..] == b && cs[|a|] == c;
  }

  // ------------------------------------------------------------- the modifiers

  datatype Op =
    | AddContact(name: string)
    | RemoveContact(name: string)
    | RemoveAllContacts
    | ChangeName(name: string, newName: string)
    | SetInfo(name: string, kind: string, key: string, address: string)
    | RemoveKind(name: string, kind: string)
    | RemoveInfo(name: string, kind: string, key: string)
    | RemoveEveryInfo(name: string)
    | AddCategory(name: string, category: string)
    | RemoveCategory(name: string, category: string)
    | ResetCategories(name: string)

  // Threw: an exception left the method; nothing has changed.
  datatype Outcome<T> = Threw | Done(value: T)

  function ChangeContact(op: Op, c: Contact): Outcome<Contact> {
    match op
    case ChangeName(_, newName) => Done(c.(name := newName))
    case SetInfo(_, kind, key, address) => Done(c.(wallets := SetAddress(c.wallets, kind, key, address)))
    case RemoveKind(_, kind) => Done(c.(wallets := Without(c.wallets, kind)))
    case RemoveInfo(_, kind, key) =>
      var i := FindKind(c.wallets, kind);
      if i < 0 then Threw else Done(c.(wallets := RemoveKey(c.wallets, i, key)))
    case RemoveEveryInfo(_) => Done(c.(wallets := []))
    case AddCategory(_, category) => Done(c.(categories := AddIfNew(c.categories, category)))
    case RemoveCategory(_, category) => Done(c.(categories := EraseFirst(c.categories, category)))
    case ResetCategories(_) => Done(c.(categories := []))
    case _ => Done(c)
  }

  // A change to the contact found under a name; an exception if there is none.
  function ApplyAt(data: seq<Contact>, name: string, op: Op): Outcome<seq<Contact>> {
    var i := Find(data, name);
    if i < 0 then Threw
    else PutContact(data, i, ChangeContact(op, data[i]))
  }

  function PutContact(data: seq<Contact>, i: nat, change: Outcome<Contact>): Outcome<seq<Contact>>
    requires i < |data|
  {
    match change case Threw => Threw case Done(c) => Done(data[i := c])
  }

  function Apply(data: seq<Contact>, op: Op): Outcome<seq<Contact>> {
    match op
    case AddContact(name) => Done(data + [Contact(name, [], [])])
    case RemoveContact(name) =>
      var i := Find(data, name);
      Done(if i >= 0 then data[..i] + data[i + 1..] else data)
    case RemoveAllContacts => Done([])
    case _ => ApplyAt(data, op.name, op)
  }

  // Where in the book a modifier acts: an added contact comes last; any other change
  // is to the first contact of the name, the others staying as they are and in their
  // order; without one it throws, but for a removal, which does nothing.
  lemma ApplyInPlace(a: seq<Contact>, c: Contact, b: seq<Contact>, op: Op)
    requires !op.RemoveAllContacts? && (op.AddContact? || forall d | d in a :: d.name != op.name)
    ensures op.AddContact? ==> Apply(a, op) == Done(a + [Contact(op.name, [], [])])
    ensures op.RemoveContact? ==> Apply(a, op) == Done(a)
    ensures !op.AddContact? && !op.RemoveContact? ==> Apply(a, op) == Threw
    ensures !op.AddContact? && c.name == op.name ==>
      Apply(a + [c] + b, op) ==
        if op.RemoveContact? then Done(a + b)
        else match ChangeContact(op, c) case Threw => Threw case Done(d) => Done(a + [d] + b)
  {
    FirstAbsent(a, ContactName, op.name);
    if op.AddContact? {
      return;
    }
    if c.name == op.name {
      FirstBetween(a, c, b, ContactName, op.name);
      var data := a + [c] + b;
      assert data[..|a|] == a && data[|a| + 1..] == b && data[|a|] == c;
      match ChangeContact(op, c) {
        case Threw =>
        case Done(d) => assert data[|a| := d] == a + [d] + b;
      }
    }
  }

  // The caller's part: erasing a type that is not there is undefined in the source.
  predicate Defined(data: seq<Contact>, op: Op) {
    op.RemoveKind? && Find(data, op.name) >= 0 ==> FindKind(data[Find(data, op.name)].wallets, op.kind) >= 0
  }

  // Additions and renames use a name not in use.
  predicate Fresh(data: seq<Contact>, op: Op) {
    match op
    case AddContact(name) => Find(data, name) < 0
    case ChangeName(name, newName) => newName == name || Find(data, newName) < 0
    case _ => true
  }

  predicate FreshIfDone(data: seq<Contact>, op: Op) {
    Apply(data, op).Done? ==> Fresh(data, op)
  }

  // -------------------------------------------------- the same on abstract cards

  ghost function ChangeCard(op: Op, c: Card): Outcome<Card> {
    match op
    case SetInfo(_, kind, key, address) => Done(c.(addresses := c.addresses[(kind, key) := address]))
    case RemoveKind(_, kind) => Done(c.(addresses := map p | p in c.addresses && p.0 != kind :: c.addresses[p]))
    case RemoveInfo(_, kind, key) =>
      if exists k :: (kind, k) in c.addresses then Done(c.(addresses := c.addresses - {(kind, key)})) else Threw
    case RemoveEveryInfo(_) => Done(c.(addresses := map[]))
    case AddCategory(_, category) =>
      Done(if category in c.categories then c else c.(categories := c.categories + [category]))
    case RemoveCategory(_, category) => Done(c.(categories := Dropping(c.categories, category)))
    case ResetCategories(_) => Done(c.(categories := []))
    case _ => Done(c)
  }

  ghost function ApplyCards(cards: map<string, Card>, op: Op): Outcome<map<string, Card>> {
    match op
    case AddContact(name) => Done(cards[name := Card([], map[])])
    case RemoveContact(name) => Done(cards - {name})
    case RemoveAllContacts => Done(map[])
    case ChangeName(name, newName) =>
      if name in cards then Done((cards - {name})[newName := cards[name]]) else Threw
    case _ => ApplyCardAt(cards, op.name, op)
  }

  ghost function ApplyCardAt(cards: map<string, Card>, name: string, op: Op): Outcome<map<string, Card>> {
    if name !in cards then Threw
    else PutCard(cards, name, ChangeCard(op, cards[name]))
  }

  ghost function PutCard(cards: map<string, Card>, name: string, change: Outcome<Card>): Outcome<map<string, Card>> {
    match change case Threw => Threw case Done(c) => Done(cards[name := c])
  }

  // ------------------------------------------------------------------ refinement

  lemma FindUnique(data: seq<Contact>, j: nat)
    requires DistinctNames(data) && j < |data|
    ensures Find(data, data[j].name) == j
  {
    FirstIsFirst(data, ContactName, data[j].name, j);
  }

  lemma CardsRepresent(data: seq<Contact>, m: map<string, Card>)
    requires DistinctNames(data)
    requires forall j | 0 <= j < |data| :: Carded(m, data[j])
    requires forall name | name in m :: Find(data, name) >= 0
    ensures CardsOf(data) == m
  {
    forall name ensures name in CardsOf(data) <==> name in m
      ensures name in m ==> CardsOf(data)[name] == m[name]
    {
      CardsAt(data, name);
    }
  }

  lemma CardsListed(data: seq<Contact>, j: nat)
    requires DistinctNames(data) && j < |data|
    ensures data[j].name in CardsOf(data) && CardsOf(data)[data[j].name] == CardOf(data[j])
  {
    FindUnique(data, j);
    CardsAt(data, data[j].name);
  }

  lemma ChangeContactOk(op: Op, c: Contact)
    requires ContactOk(c)
    ensures ChangeContact(op, c).Threw? <==> ChangeCard(op, CardOf(c)).Threw?
    ensures ChangeContact(op, c).Done? ==> ContactOk(ChangeContact(op, c).value)
    ensures ChangeContact(op, c).Done? ==> CardOf(ChangeContact(op, c).value) == ChangeCard(op, CardOf(c)).value
    ensures ChangeContact(op, c).Done? && !op.ChangeName? ==> ChangeContact(op, c).value.name == c.name
  {
    match op
    case SetInfo(_, kind, key, address) => SetAddressOk(c.wallets, kind, key, address);
    case RemoveKind(_, kind) => WithoutAddresses(c.wallets, kind);
    case RemoveInfo(_, kind, key) => ChangeInfoOk(c, kind, key);
    case RemoveCategory(_, category) =>
      EraseFirstDrops(c.categories, category);
      DroppingOk(c.categories, category);
    case RemoveEveryInfo(_) => assert AddressesOf([]) == map[];
    case _ =>
  }

  lemma ChangeInfoOk(c: Contact, kind: string, key: string)
    requires ContactOk(c)
    ensures FindKind(c.wallets, kind) < 0 <==> !exists k :: (kind, k) in CardOf(c).addresses
    ensures var i := FindKind(c.wallets, kind); i >= 0 ==>
      WalletsOk(RemoveKey(c.wallets, i, key)) &&
      AddressesOf(RemoveKey(c.wallets, i, key)) == CardOf(c).addresses - {(kind, key)}
  {
    KindPresent(c.wallets, kind);
    if FindKind(c.wallets, kind) >= 0 { RemoveKeyOk(c.wallets, kind, key); }
  }

  lemma ReplaceContact(data: seq<Contact>, i: nat, c: Contact)
    requires BookOk(data) && i < |data| && ContactOk(c)
    requires c.name == data[i].name || Find(data, c.name) < 0
    ensures BookOk(data[i := c])
    ensures CardsOf(data[i := c]) == (CardsOf(data) - {data[i].name})[c.name := CardOf(c)]
  {
    var data', name := data[i := c], data[i].name;
    forall j | 0 <= j < |data| && j != i ensures data[j].name != c.name {
      if data[j].name == c.name { FirstIsFirst(data, ContactName, c.name, j); }
    }
    assert DistinctNames(data');
    var m := (CardsOf(data) - {name})[c.name := CardOf(c)];
    forall j | 0 <= j < |data'| ensures Carded(m, data'[j]) {
      if j != i { CardsListed(data, j); }
    }
    forall n | n in m ensures Find(data', n) >= 0 {
      CardsAt(data, n);
      FirstIsFirst(data', ContactName, n, if n == c.name then i else Find(data, n));
    }
    CardsRepresent(data', m);
  }

  lemma FindNone(data: seq<Contact>, name: string)
    requires Find(data, name) < 0
    ensures forall j | 0 <= j < |data| :: data[j].name != name
  {
    forall j | 0 <= j < |data| ensures data[j].name != name {
      if data[j].name == name { FirstIsFirst(data, ContactName, name, j); }
    }
  }

  // Which card a contact of a changed list is, contact by contact.
  ghost predicate Carded(m: map<string, Card>, c: Contact) {
    c.name in m && m[c.name] == CardOf(c)
  }

  lemma AddContactOk(data: seq<Contact>, name: string)
    requires BookOk(data) && Find(data, name) < 0
    ensures var data' := data + [Contact(name, [], [])];
      BookOk(data') && CardsOf(data') == CardsOf(data)[name := Card([], map[])]
  {
    var c := Contact(name, [], []);
    var data' := data + [c];
    FindNone(data, name);
    assert BookOk(data');
    var m := CardsOf(data)[name := Card([], map[])];
    assert Carded(m, c);
    forall j | 0 <= j < |data'| ensures Carded(m, data'[j]) {
      if j < |data| { CardsListed(data, j); }
    }
    forall n | n in m ensures Find(data', n) >= 0 {
      CardsAt(data, n);
      assert data'[|data|] == c;
      FirstIsFirst(data', ContactName, n, if n == name then |data| else Find(data, n));
    }
    CardsRepresent(data', m);
  }

  lemma RemoveContactOk(data: seq<Contact>, i: nat)
    requires BookOk(data) && i < |data|
    ensures var data' := data[..i] + data[i + 1..];
      BookOk(data') && CardsOf(data') == CardsOf(data) - {data[i].name}
  {
    var data' := data[..i] + data[i + 1..];
    assert forall j | i < j < |data| :: data'[j - 1] == data[j];
    ShiftedOk(data, i, data');
  }

  lemma ShiftedOk(data: seq<Contact>, i: nat, data': seq<Contact>)
    requires BookOk(data) && i < |data| && |data'| == |data| - 1
    requires forall j | 0 <= j < i :: data'[j] == data[j]
    requires forall j | i < j < |data| :: data'[j - 1] == data[j]
    ensures BookOk(data') && CardsOf(data') == CardsOf(data) - {data[i].name}
  {
    forall j | i <= j < |data'| ensures data'[j] == data[j + 1] {
      assert data'[(j + 1) - 1] == data[j + 1];
    }
    var m := CardsOf(data) - {data[i].name};
    forall j | 0 <= j < |data'| ensures Carded(m, data'[j]) {
      CardsListed(data, if j < i then j else j + 1);
    }
    forall n | n in m ensures Find(data', n) >= 0 {
      ShiftedFinds(data, i, data', n);
    }
    CardsRepresent(data', m);
  }

  lemma ShiftedFinds(data: seq<Contact>, i: nat, data': seq<Contact>, n: string)
    requires i < |data| && |data'| == |data| - 1 && n in CardsOf(data) && n != data[i].name
    requires forall j | 0 <= j < i :: data'[j] == data[j]
    requires forall j | i < j < |data| :: data'[j - 1] == data[j]
    ensures Find(data', n) >= 0
  {
    CardsAt(data, n);
    var k := Find(data, n);
    FirstIsFirst(data', ContactName, n, if k < i then k else k - 1);
  }

  // The list and the cards have the same outcome.
  ghost predicate Agree(r: Outcome<seq<Contact>>, cards: Outcome<map<string, Card>>) {
    (r.Threw? <==> cards.Threw?) && (r.Done? ==> BookOk(r.value) && CardsOf(r.value) == cards.value)
  }

  // Every modifier, given a fresh name unless it throws, keeps the book well-formed
  // and does to the abstract cards exactly what its name says: it throws exactly when
  // they say so, changes the named card as they say, and no other card.
  lemma Refines(data: seq<Contact>, op: Op)
    requires BookOk(data) && FreshIfDone(data, op) && Defined(data, op)
    ensures Agree(Apply(data, op), ApplyCards(CardsOf(data), op))
  {
    match op
    case AddContact(name) => AddContactOk(data, name);
    case RemoveContact(name) => RefinesRemove(data, name);
    case RemoveAllContacts =>
    case ChangeName(name, newName) => RefinesRename(data, name, newName);
    case _ => RefinesAt(data, op.name, op);
  }

  lemma RefinesRemove(data: seq<Contact>, name: string)
    requires BookOk(data)
    ensures Agree(Apply(data, RemoveContact(name)), Done(CardsOf(data) - {name}))
  {
    var i, after := Find(data, name), Apply(data, RemoveContact(name)).value;
    if i >= 0 {
      RemoveContactOk(data, i);
      assert data[i].name == name && after == data[..i] + data[i + 1..];
    } else {
      CardsAt(data, name);
      MinusAbsent(CardsOf(data), name);
    }
    assert BookOk(after) && CardsOf(after) == CardsOf(data) - {name};
  }

  lemma MinusAbsent<T>(m: map<string, T>, name: string)
    requires name !in m
    ensures m - {name} == m
  {
  }

  lemma RefinesRename(data: seq<Contact>, name: string, newName: string)
    requires BookOk(data) && (Find(data, name) < 0 || newName == name || Find(data, newName) < 0)
    ensures Agree(ApplyAt(data, name, ChangeName(name, newName)), ApplyCards(CardsOf(data), ChangeName(name, newName)))
  {
    CardsAt(data, name);
    var i := Find(data, name);
    if i >= 0 { ReplaceContact(data, i, data[i].(name := newName)); }
  }

  lemma RefinesAt(data: seq<Contact>, name: string, op: Op)
    requires BookOk(data) && !op.ChangeName?
    ensures Agree(ApplyAt(data, name, op), ApplyCardAt(CardsOf(data), name, op))
  {
    var i := Find(data, name);
    CardsAt(data, name);
    if i >= 0 {
      ChangeContactOk(op, data[i]);
      PutRefines(data, i, ChangeContact(op, data[i]), ChangeCard(op, CardOf(data[i])));
    }
  }

  lemma PutRefines(data: seq<Contact>, i: nat, r: Outcome<Contact>, card: Outcome<Card>)
    requires BookOk(data) && i < |data| && (r.Threw? <==> card.Threw?)
    requires r.Done? ==> ContactOk(r.value) && r.value.name == data[i].name && CardOf(r.value) == card.value
    ensures Agree(PutContact(data, i, r), PutCard(CardsOf(data), data[i].name, card))
  {
    if r.Done? {
      var name, cards := data[i].name, CardsOf(data);
      ReplaceContact(data, i, r.value);
      assert (cards - {name})[name := card.value] == cards[name := card.value];
    }
  }

  // An addition or a rename keeps names distinct only if the name is fresh.
  lemma FreshnessIsExact(data: seq<Contact>, op: Op)
    requires BookOk(data) && (op.AddContact? || op.ChangeName?) && Apply(data, op).Done?
    ensures BookOk(Apply(data, op).value) <==> Fresh(data, op)
  {
    if Fresh(data, op) {
      Refines(data, op);
    } else {
      var data' := Apply(data, op).value;
      if op.AddContact? {
        var j := Find(data, op.name);
        assert data'[j].name == data'[|data|].name;
      } else {
        var i, j := Find(data, op.name), Find(data, op.newName);
        assert data'[i].name == data'[j].name && i != j;
      }
    }
  }

  function RunOps(data: seq<Contact>, ops: seq<Op>): seq<Contact> {
    if ops == [] then data
    else
      var before := RunOps(data, ops[..|ops| - 1]);
      match Apply(before, ops[|ops| - 1]) case Threw => before case Done(after) => after
  }

  ghost function RunCards(cards: map<string, Card>, ops: seq<Op>): map<string, Card> {
    if ops == [] then cards
    else
      var before := RunCards(cards, ops[..|ops| - 1]);
      match ApplyCards(before, ops[|ops| - 1]) case Threw => before case Done(after) => after
  }

  // No call of the run is undefined in the source.
  predicate DefinedRun(data: seq<Contact>, ops: seq<Op>) {
    ops == [] || (DefinedRun(data, ops[..|ops| - 1]) && Defined(RunOps(data, ops[..|ops| - 1]), ops[|ops| - 1]))
  }

  // Every addition and rename of the run that does not throw uses a fresh name.
  predicate FreshRun(data: seq<Contact>, ops: seq<Op>) {
    ops == [] || (FreshRun(data, ops[..|ops| - 1]) && FreshIfDone(RunOps(data, ops[..|ops| - 1]), ops[|ops| - 1]))
  }

  // The book is well-formed at every point of the run.
  predicate OkThroughout(data: seq<Contact>, ops: seq<Op>) {
    BookOk(RunOps(data, ops)) && (ops == [] || OkThroughout(data, ops[..|ops| - 1]))
  }

  // Over any run of modifiers the book stays well-formed throughout exactly if every
  // addition and rename that does not throw is fresh, and then the run is one on the
  // abstract cards.
  lemma {:induction false} RunRefines(data: seq<Contact>, ops: seq<Op>)
    requires BookOk(data) && DefinedRun(data, ops)
    ensures OkThroughout(data, ops) <==> FreshRun(data, ops)
    ensures FreshRun(data, ops) ==> CardsOf(RunOps(data, ops)) == RunCards(CardsOf(data), ops)
  {
    if ops != [] {
      var n := |ops| - 1;
      RunRefines(data, ops[..n]);
      if FreshRun(data, ops[..n]) {
        NextRefines(RunOps(data, ops[..n]), ops[n]);
      }
    }
  }

  lemma NextRefines(data: seq<Contact>, op: Op)
    requires BookOk(data) && Defined(data, op)
    ensures Apply(data, op).Done? ==> (BookOk(Apply(data, op).value) <==> Fresh(data, op))
    ensures FreshIfDone(data, op) ==> Agree(Apply(data, op), ApplyCards(CardsOf(data), op))
  {
    if FreshIfDone(data, op) {
      Refines(data, op);
    } else {
      FreshnessIsExact(data, op);
    }
  }
}
