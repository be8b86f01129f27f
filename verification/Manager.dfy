// addressbook_manager as a class: linear searches and in-place changes, proved
// against the functions of AddressBook.
module Manager {
  import opened AddressBook
  import opened Lists

  // ------------------------------------------------- std::remove_if, then erase(it)

  // A list element, or what std::move leaves behind in one.
  datatype Cell = Info(info: WalletInfo) | MovedFrom

  function Cells(ws: seq<WalletInfo>): (cs: seq<Cell>)
    ensures |cs| == |ws| && forall i | 0 <= i < |ws| :: cs[i] == Info(ws[i])
  {
    if ws == [] then [] else Cells(ws[..|ws| - 1]) + [Info(ws[|ws| - 1])]
  }

  function Count(ws: seq<WalletInfo>, kind: string): nat {
    if ws == [] then 0 else Count(ws[..|ws| - 1], kind) + if ws[|ws| - 1].kind == kind then 1 else 0
  }

  lemma {:induction false} WithoutLength(ws: seq<WalletInfo>, kind: string)
    ensures |Without(ws, kind)| == |ws| - Count(ws, kind)
    ensures Count(ws, kind) == 0 <==> FindKind(ws, kind) == -1
    ensures DistinctKinds(ws) ==> Count(ws, kind) <= 1
  {
    if ws != [] {
      var n := |ws| - 1;
      WithoutLength(ws[..n], kind);
    }
  }

  ghost predicate Holds(a: array<Cell>, lo: nat, hi: nat, ws: seq<WalletInfo>)
    requires lo <= hi <= a.Length && hi <= |ws|
    reads a
  {
    forall i | lo <= i < hi :: a[i] == Info(ws[i])
  }

  lemma WithoutNext(ws: seq<WalletInfo>, i: nat, kind: string)
    requires i < |ws|
    ensures Without(ws[..i + 1], kind) == Without(ws[..i], kind) + if ws[i].kind == kind then [] else [ws[i]]
  {
    assert ws[..i + 1][..i] == ws[..i];
  }

  // Its std::find_if: the first element to remove.
  method FirstOf(a: array<Cell>, ghost ws: seq<WalletInfo>, kind: string) returns (end: nat)
    requires a.Length == |ws| && Holds(a, 0, |ws|, ws)
    ensures end <= |ws| && Without(ws[..end], kind) == ws[..end]
    ensures end < |ws| ==> ws[end].kind == kind
  {
    end := 0;
    while end < a.Length && a[end].info.kind != kind
      invariant 0 <= end <= a.Length && Without(ws[..end], kind) == ws[..end]
    {
      WithoutNext(ws, end, kind);
      assert ws[..end + 1] == ws[..end] + [ws[end]];
      end := end + 1;
    }
  }

  // One round of the moving loop.
  method MoveOne(a: array<Cell>, ghost ws: seq<WalletInfo>, kind: string, first: nat, end0: nat) returns (end: nat)
    requires a.Length == |ws| && end0 < first < a.Length && Holds(a, first, |ws|, ws)
    requires end0 == |Without(ws[..first], kind)| && Holds(a, 0, end0, Without(ws[..first], kind))
    modifies a
    ensures end <= first && Holds(a, first + 1, |ws|, ws)
    ensures end == |Without(ws[..first + 1], kind)| && Holds(a, 0, end, Without(ws[..first + 1], kind))
  {
    WithoutNext(ws, first, kind);
    end := end0;
    if a[first].info.kind != kind {
      a[end], a[first] := a[first], MovedFrom;
      end := end + 1;
    }
  }

  // Moves the elements to keep to the front and returns their end; what lies
  // beyond it is unspecified.
  method RemoveIf(a: array<Cell>, ghost ws: seq<WalletInfo>, kind: string) returns (end: nat)
    requires a.Length == |ws| && Holds(a, 0, |ws|, ws)
    modifies a
    ensures end == |Without(ws, kind)| <= a.Length && Holds(a, 0, end, Without(ws, kind))
  {
    end := FirstOf(a, ws, kind);
    if end == a.Length {
      assert ws[..end] == ws;
      return;
    }
    WithoutNext(ws, end, kind);
    end := MoveRest(a, ws, kind, end);
  }

  // Its loop over what follows the first element to remove.
  method MoveRest(a: array<Cell>, ghost ws: seq<WalletInfo>, kind: string, found: nat) returns (end: nat)
    requires a.Length == |ws| && found < |ws| && Holds(a, 0, |ws|, ws)
    requires found == |Without(ws[..found + 1], kind)| && Without(ws[..found + 1], kind) == ws[..found]
    modifies a
    ensures end == |Without(ws, kind)| <= a.Length && Holds(a, 0, end, Without(ws, kind))
  {
    end := found;
    var first := end + 1;
    while first < a.Length
      invariant end < first <= a.Length && Holds(a, first, |ws|, ws)
      invariant end == |Without(ws[..first], kind)| && Holds(a, 0, end, Without(ws[..first], kind))
    {
      end := MoveOne(a, ws, kind, first, end);
      first := first + 1;
    }
    assert ws[..first] == ws;
  }

  // What remains after erasing the one element at the returned position.  Erasing
  // at the end is undefined, so the type must be present.  The result is the list
  // without the type exactly when the type occurs once.
  method RemoveIfAndErase(ws: seq<WalletInfo>, kind: string) returns (r: seq<Cell>)
    requires FindKind(ws, kind) >= 0
    ensures |r| == |ws| - 1 && Cells(Without(ws, kind)) <= r
    ensures r == Cells(Without(ws, kind)) <==> Count(ws, kind) == 1
  {
    WithoutLength(ws, kind);
    var cells := Cells(ws);
    var a := new Cell[|ws|](i requires 0 <= i < |cells| => cells[i]);
    var end := RemoveIf(a, ws, kind);
    r := a[..end] + a[end + 1..];
    assert r[..end] == Cells(Without(ws, kind));
  }

  function Infos(cells: seq<Cell>): (ws: seq<WalletInfo>)
    requires forall c | c in cells :: c.Info?
    ensures |ws| == |cells| && forall i | 0 <= i < |ws| :: ws[i] == cells[i].info
  {
    if cells == [] then [] else Infos(cells[..|cells| - 1]) + [cells[|cells| - 1].info]
  }

  // --------------------------------------------------------------------- the class

  // ok is false when an exception left the method.
  ghost predicate Did(was: seq<Contact>, op: Op, now: seq<Contact>, ok: bool) {
    match Apply(was, op)
    case Threw => !ok && now == was
    case Done(after) => ok && now == after
  }

  // The card of that name has become `card`, and no other has changed.
  ghost predicate Recarded(was: seq<Contact>, now: seq<Contact>, name: string, card: Card) {
    BookOk(now) && CardsOf(now) == CardsOf(was)[name := card]
  }

  // What a change to a well-formed book does to its cards.
  lemma CardChanged(was: seq<Contact>, op: Op, now: seq<Contact>, ok: bool)
    requires BookOk(was) && Did(was, op, now, ok) && FreshIfDone(was, op) && Defined(was, op)
    requires !op.AddContact? && !op.RemoveContact? && !op.RemoveAllContacts? && !op.ChangeName?
    ensures BookOk(now) && (ok ==> op.name in CardsOf(was))
    ensures op.name in CardsOf(was) ==>
      var change := ChangeCard(op, CardsOf(was)[op.name]);
      if change.Done? then ok && Recarded(was, now, op.name, change.value) else !ok && now == was
  {
    Refines(was, op);
  }

  class AddressBookManager {
    var data: seq<Contact>

    constructor ()
      ensures data == [] && BookOk(data)
    {
      data := [];
    }

    // ----------------------------------------------------------------- lookups

    // get_contact: the position of the first contact of that name.
    method GetContact(name: string) returns (r: Outcome<nat>)
      ensures r == if Find(data, name) >= 0 then Done(Find(data, name)) else Threw
    {
      var i := 0;
      while i < |data|
        invariant 0 <= i <= |data| && Find(data[..i], name) < 0
      {
        assert data[..i + 1][..i] == data[..i];
        if data[i].name == name {
          FirstPrefix(data, ContactName, name, i + 1);
          return Done(i);
        }
        i := i + 1;
      }
      assert data[..i] == data;
      return Threw;
    }

    method HasContact(name: string) returns (b: bool)
      ensures b <==> name in CardsOf(data)
    {
      CardsAt(data, name);
      var r := GetContact(name);
      b := r.Done?;
    }

    // has_wallet_info(name, type)
    method HasWalletInfo(name: string, kind: string) returns (r: Outcome<bool>)
      ensures r == if Find(data, name) < 0 then Threw else Done(FindKind(data[Find(data, name)].wallets, kind) >= 0)
      ensures BookOk(data) ==> (r.Threw? <==> name !in CardsOf(data))
      ensures BookOk(data) && r.Done? ==> (r.value <==> exists key :: (kind, key) in CardsOf(data)[name].addresses)
    {
      CardsAt(data, name);
      var c := GetContact(name);
      if c.Threw? {
        return Threw;
      }
      var ws := data[c.value].wallets;
      var i := SearchKind(ws, kind);
      if BookOk(data) { KindPresent(ws, kind); }
      return Done(i >= 0);
    }

    // std::find_if over the wallet infos
    method SearchKind(ws: seq<WalletInfo>, kind: string) returns (i: int)
      ensures i == FindKind(ws, kind)
    {
      i := 0;
      while i < |ws|
        invariant 0 <= i <= |ws| && FindKind(ws[..i], kind) < 0
      {
        assert ws[..i + 1][..i] == ws[..i];
        if ws[i].kind == kind {
          FirstPrefix(ws, WalletKind, kind, i + 1);
          return;
        }
        i := i + 1;
      }
      assert ws[..i] == ws;
      i := -1;
    }

    // get_wallet_info(name, type).at("addresses")
    method GetWalletAddresses(name: string, kind: string) returns (r: Outcome<map<string, string>>)
      ensures r == if Find(data, name) >= 0 && FindKind(data[Find(data, name)].wallets, kind) >= 0
                   then Done(Under(data[Find(data, name)].wallets, kind)) else Threw
    {
      var c := GetContact(name);
      if c.Threw? {
        return Threw;
      }
      var ws := data[c.value].wallets;
      var i := SearchKind(ws, kind);
      if i < 0 {
        return Threw;
      }
      return Done(ws[i].addresses);
    }

    // get_wallet_info_address: an exception unless contact, type and key exist.
    method GetWalletInfoAddress(name: string, kind: string, key: string) returns (r: Outcome<string>)
      ensures Find(data, name) < 0 ==> r == Threw
      ensures Find(data, name) >= 0 ==>
        var under := Under(data[Find(data, name)].wallets, kind);
        r == if key in under then Done(under[key]) else Threw
      ensures BookOk(data) ==>
        r == if name in CardsOf(data) && (kind, key) in CardsOf(data)[name].addresses
             then Done(CardsOf(data)[name].addresses[(kind, key)]) else Threw
    {
      CardsAt(data, name);
      var c := GetContact(name);
      if c.Threw? {
        return Threw;
      }
      var ws := data[c.value].wallets;
      AddressesAt(ws, kind, key);
      var i := SearchKind(ws, kind);
      if i < 0 {
        return Threw;
      }
      if key in ws[i].addresses {
        return Done(ws[i].addresses[key]);
      } else {
        return Threw;
      }
    }

    // has_wallet_info(name, type, key)
    method HasWalletInfoKey(name: string, kind: string, key: string) returns (r: Outcome<bool>)
      ensures r == if Find(data, name) < 0 then Threw else Done(key in Under(data[Find(data, name)].wallets, kind))
      ensures BookOk(data) ==>
        r == if name in CardsOf(data) then Done((kind, key) in CardsOf(data)[name].addresses) else Threw
    {
      CardsAt(data, name);
      var c := GetContact(name);
      if c.Threw? {
        return Threw;
      }
      var ws := data[c.value].wallets;
      AddressesAt(ws, kind, key);
      var i := SearchKind(ws, kind);
      return Done(i >= 0 && key in ws[i].addresses);
    }

    method HasCategory(name: string, category: string) returns (r: Outcome<bool>)
      ensures r == if name in CardsOf(data) then Done(category in CardsOf(data)[name].categories) else Threw
    {
      CardsAt(data, name);
      var c := GetContact(name);
      if c.Threw? {
        return Threw;
      }
      var cs := data[c.value].categories;
      var i := 0;
      while i < |cs|
        invariant 0 <= i <= |cs| && category !in cs[..i]
      {
        if cs[i] == category {
          return Done(true);
        }
        assert cs[..i + 1] == cs[..i] + [cs[i]];
        i := i + 1;
      }
      assert cs[..i] == cs;
      return Done(false);
    }

    // --------------------------------------------------------------- modifiers

    method AddContact(name: string)
      modifies this
      ensures Did(old(data), Op.AddContact(name), data, true) && data == old(data) + [Contact(name, [], [])]
      ensures BookOk(old(data)) && name !in CardsOf(old(data)) ==> Recarded(old(data), data, name, Card([], map[]))
    {
      data := data + [Contact(name, [], [])];
      if BookOk(old(data)) && Find(old(data), name) < 0 {
        Refines(old(data), Op.AddContact(name));
      }
    }

    method RemoveContact(name: string)
      modifies this
      ensures Did(old(data), Op.RemoveContact(name), data, true)
      ensures BookOk(old(data)) ==> BookOk(data) && CardsOf(data) == CardsOf(old(data)) - {name}
    {
      var c := GetContact(name);
      if c.Done? {
        data := data[..c.value] + data[c.value + 1..];
      }
      if BookOk(old(data)) {
        Refines(old(data), Op.RemoveContact(name));
      }
    }

    method RemoveAllContacts()
      modifies this
      ensures Did(old(data), Op.RemoveAllContacts, data, true) && data == []
    {
      data := [];
    }

    method ChangeContactName(name: string, newName: string) returns (ok: bool)
      modifies this
      ensures Did(old(data), ChangeName(name, newName), data, ok)
      ensures BookOk(old(data)) && (newName == name || newName !in CardsOf(old(data))) ==>
                var cards := CardsOf(old(data));
                BookOk(data) && (ok <==> name in cards) &&
                CardsOf(data) == if ok then (cards - {name})[newName := cards[name]] else cards
    {
      var c := GetContact(name);
      ok := c.Done?;
      if ok {
        data := data[c.value := data[c.value].(name := newName)];
      }
      if BookOk(old(data)) && (newName == name || Find(old(data), newName) < 0) {
        Refines(old(data), ChangeName(name, newName));
      }
    }

    method SetContactWalletInfo(name: string, kind: string, key: string, address: string) returns (ok: bool)
      modifies this
      ensures Did(old(data), SetInfo(name, kind, key, address), data, ok)
      ensures BookOk(old(data)) ==> BookOk(data) && (ok <==> name in CardsOf(old(data)))
      ensures BookOk(old(data)) && ok ==>
                var card := CardsOf(old(data))[name];
                Recarded(old(data), data, name, card.(addresses := card.addresses[(kind, key) := address]))
    {
      var c := GetContact(name);
      ok := c.Done?;
      if ok {
        var ws := PutAddress(data[c.value].wallets, kind, key, address);
        data := data[c.value := data[c.value].(wallets := ws)];
      }
      if BookOk(old(data)) {
        CardChanged(old(data), SetInfo(name, kind, key, address), data, ok);
      }
    }

    // A wallet info is pushed for a new type, then looked up again and written to.
    method PutAddress(ws0: seq<WalletInfo>, kind: string, key: string, address: string) returns (ws: seq<WalletInfo>)
      ensures ws == SetAddress(ws0, kind, key, address)
    {
      ws := ws0;
      var i := SearchKind(ws, kind);
      if i < 0 {
        FindKindAfterPush(ws, WalletInfo(kind, map[]), kind);
        ws := ws + [WalletInfo(kind, map[])];
        assert map[][key := address] == map[key := address];
      }
      i := SearchKind(ws, kind);
      ws := ws[i := WalletInfo(kind, ws[i].addresses[key := address])];
    }

    // The overload without a key.  The type must be there, or the erase is undefined.
    method RemoveContactWalletKind(name: string, kind: string) returns (ok: bool)
      requires Find(data, name) >= 0 ==> DistinctKinds(data[Find(data, name)].wallets)
      requires Defined(data, RemoveKind(name, kind))
      modifies this
      ensures Did(old(data), RemoveKind(name, kind), data, ok)
      ensures BookOk(old(data)) ==> BookOk(data) && (ok <==> name in CardsOf(old(data)))
      ensures BookOk(old(data)) && ok ==>
                var card := CardsOf(old(data))[name];
                var left := map p | p in card.addresses && p.0 != kind :: card.addresses[p];
                Recarded(old(data), data, name, card.(addresses := left))
    {
      var c := GetContact(name);
      ok := c.Done?;
      if ok {
        var ws := EraseKind(data[c.value].wallets, kind);
        data := data[c.value := data[c.value].(wallets := ws)];
      }
      if BookOk(old(data)) {
        CardChanged(old(data), RemoveKind(name, kind), data, ok);
      }
    }

    method EraseKind(was: seq<WalletInfo>, kind: string) returns (ws: seq<WalletInfo>)
      requires FindKind(was, kind) >= 0 && DistinctKinds(was)
      ensures ws == Without(was, kind)
    {
      WithoutLength(was, kind);
      var cells := RemoveIfAndErase(was, kind);
      assert Infos(cells) == Without(was, kind);
      ws := Infos(cells);
    }

    // What it does once the i-th wallet info has been emptied.
    method EraseEmptied(was: seq<WalletInfo>, i: nat, kind: string) returns (ws: seq<WalletInfo>)
      requires i < |was| && i == FindKind(was, kind) && DistinctKinds(was)
      ensures ws == Without(was, kind)
    {
      FirstAfterUpdate(was, WalletKind, kind, i, WalletInfo(kind, map[]));
      WithoutAfterUpdate(was, i, WalletInfo(kind, map[]));
      ws := EraseKind(was[i := WalletInfo(kind, map[])], kind);
    }

    // The overload with a key: its call of the other one always finds the type.
    method RemoveContactWalletInfo(name: string, kind: string, key: string) returns (ok: bool)
      requires Find(data, name) >= 0 ==> DistinctKinds(data[Find(data, name)].wallets)
      modifies this
      ensures Did(old(data), RemoveInfo(name, kind, key), data, ok)
      ensures BookOk(old(data)) ==>
                (ok <==> name in CardsOf(old(data)) && exists k :: (kind, k) in CardsOf(old(data))[name].addresses)
      ensures BookOk(old(data)) && ok ==>
                var card := CardsOf(old(data))[name];
                Recarded(old(data), data, name, card.(addresses := card.addresses - {(kind, key)}))
    {
      if BookOk(data) {
        Refines(data, RemoveInfo(name, kind, key));
      }
      var c := GetContact(name);
      if c.Threw? {
        return false;
      }
      var ws := data[c.value].wallets;
      var i := SearchKind(ws, kind);
      if i < 0 {
        return false;
      }
      var left := ws[i].addresses - {key};
      ws := ws[i := WalletInfo(kind, left)];
      if left == map[] {
        ws := EraseEmptied(data[c.value].wallets, i, kind);
      }
      data := data[c.value := data[c.value].(wallets := ws)];
      return true;
    }

    lemma WithoutAfterUpdate(ws: seq<WalletInfo>, i: nat, w: WalletInfo)
      requires i < |ws| && w.kind == ws[i].kind
      ensures Without(ws[i := w], w.kind) == Without(ws, w.kind)
    {
      var n := |ws| - 1;
      if i < n {
        assert ws[i := w][..n] == ws[..n][i := w];
        WithoutAfterUpdate(ws[..n], i, w);
      } else {
        assert ws[i := w][..n] == ws[..n];
      }
    }

    method RemoveEveryWalletInfo(name: string) returns (ok: bool)
      modifies this
      ensures Did(old(data), RemoveEveryInfo(name), data, ok)
      ensures BookOk(old(data)) ==> BookOk(data) && (ok <==> name in CardsOf(old(data)))
      ensures BookOk(old(data)) && ok ==>
                var card := CardsOf(old(data))[name];
                Recarded(old(data), data, name, card.(addresses := map[]))
    {
      var c := GetContact(name);
      ok := c.Done?;
      if ok {
        data := data[c.value := data[c.value].(wallets := [])];
      }
      if BookOk(old(data)) {
        CardChanged(old(data), RemoveEveryInfo(name), data, ok);
      }
    }

    // added: the source's return value
    method AddContactCategory(name: string, category: string) returns (ok: bool, added: bool)
      modifies this
      ensures Did(old(data), AddCategory(name, category), data, ok)
      ensures ok ==> (added <==> category !in CardsOf(old(data))[name].categories)
      ensures BookOk(old(data)) ==> BookOk(data) && (ok <==> name in CardsOf(old(data)))
      ensures BookOk(old(data)) && ok ==>
                var card := CardsOf(old(data))[name];
                var cs := if added then card.categories + [category] else card.categories;
                Recarded(old(data), data, name, card.(categories := cs))
    {
      CardsAt(data, name);
      var has := HasCategory(name, category);
      added := false;
      ok := has.Done?;
      if ok {
        var c := GetContact(name);
        var cs := data[c.value].categories;
        if !has.value {
          added := true;
          cs := cs + [category];
        }
        data := data[c.value := data[c.value].(categories := cs)];
      }
      if BookOk(old(data)) {
        CardChanged(old(data), AddCategory(name, category), data, ok);
      }
    }

    method RemoveContactCategory(name: string, category: string) returns (ok: bool)
      modifies this
      ensures Did(old(data), RemoveCategory(name, category), data, ok)
      ensures BookOk(old(data)) ==> BookOk(data) && (ok <==> name in CardsOf(old(data)))
      ensures BookOk(old(data)) && ok ==>
                var card := CardsOf(old(data))[name];
                Recarded(old(data), data, name, card.(categories := Dropping(card.categories, category)))
    {
      var c := GetContact(name);
      ok := c.Done?;
      if ok {
        var cs := EraseCategory(data[c.value].categories, category);
        data := data[c.value := data[c.value].(categories := cs)];
      }
      if BookOk(old(data)) {
        CardChanged(old(data), RemoveCategory(name, category), data, ok);
      }
    }

    method EraseCategory(cs: seq<string>, category: string) returns (r: seq<string>)
      ensures r == EraseFirst(cs, category)
    {
      var i := 0;
      while i < |cs|
        invariant 0 <= i <= |cs| && category !in cs[..i]
      {
        if cs[i] == category {
          PositionAt(cs, i, category);
          return cs[..i] + cs[i + 1..];
        }
        assert cs[..i + 1] == cs[..i] + [cs[i]];
        i := i + 1;
      }
      return cs;
    }

    lemma PositionAt(cs: seq<string>, i: nat, c: string)
      requires i < |cs| && cs[i] == c && c !in cs[..i]
      ensures Position(cs, c) == i
    {
      var n := |cs| - 1;
      if i < n {
        assert cs[..n][..i] == cs[..i];
        PositionAt(cs[..n], i, c);
      }
    }

    method ResetContactCategories(name: string) returns (ok: bool)
      modifies this
      ensures Did(old(data), ResetCategories(name), data, ok)
      ensures BookOk(old(data)) ==> BookOk(data) && (ok <==> name in CardsOf(old(data)))
      ensures BookOk(old(data)) && ok ==>
                var card := CardsOf(old(data))[name];
                Recarded(old(data), data, name, card.(categories := []))
    {
      var c := GetContact(name);
      ok := c.Done?;
      if ok {
        data := data[c.value := data[c.value].(categories := [])];
      }
      if BookOk(old(data)) {
        CardChanged(old(data), ResetCategories(name), data, ok);
      }
    }
  }
}
