// addressbook_contact_model: an editable copy of one contact, looked up by the
// concatenation of type and key.
module ContactModel {
  import opened AddressBook
  import opened Lists
  import opened Entries
  import opened Manager

  // AddressTypeAndKeyRole
  function TypeAndKey(e: Entry): string {
    e.kind + e.key
  }

  // The first row whose type and key concatenate to s, or -1.
  function Match(es: seq<Entry>, s: string): (i: int)
    ensures -1 <= i < |es| && (i >= 0 ==> TypeAndKey(es[i]) == s)
    ensures i == -1 <==> forall e | e in es :: TypeAndKey(e) != s
  {
    FirstAbsent(es, TypeAndKey, s);
    First(es, TypeAndKey, s)
  }

  function Added(es: seq<Entry>, e: Entry): seq<Entry> {
    if Match(es, TypeAndKey(e)) >= 0 then es else es + [e]
  }

  function Removed(es: seq<Entry>, kind: string, key: string): seq<Entry> {
    var i := Match(es, kind + key);
    if i >= 0 then es[..i] + es[i + 1..] else es
  }

  predicate ConcatDistinct(es: seq<Entry>) {
    forall i, j | 0 <= i < j < |es| :: TypeAndKey(es[i]) != TypeAndKey(es[j])
  }

  ghost predicate ConcatDistinctPairs(m: Addresses) {
    forall p, q | p in m && q in m && p.0 + p.1 == q.0 + q.1 :: p == q
  }

  lemma ConcatDistinctIsPairsDistinct(es: seq<Entry>)
    requires ConcatDistinct(es)
    ensures PairsDistinct(es)
  {
    forall i, j | 0 <= i < j < |es| ensures (es[i].kind, es[i].key) != (es[j].kind, es[j].key) {
      assert TypeAndKey(es[i]) != TypeAndKey(es[j]);
    }
  }

  // ... but not the other way round: an entry is refused although its pair is new.
  lemma PairsDistinctIsWeaker()
    ensures var es := [Entry("A", "BC", "x"), Entry("AB", "C", "y")]; PairsDistinct(es) && !ConcatDistinct(es)
    ensures Added([Entry("A", "BC", "x")], Entry("AB", "C", "y")) == [Entry("A", "BC", "x")]
  {
    assert "A" + "BC" == "AB" + "C";
    var es := [Entry("A", "BC", "x"), Entry("AB", "C", "y")];
    assert TypeAndKey(es[0]) == TypeAndKey(es[1]);
    assert Match([es[0]], TypeAndKey(es[1])) != -1 by { assert es[0] in [es[0]]; }
  }

  // Refused exactly when the concatenation is there; otherwise one row more, behind
  // the others.
  lemma AddIsExact(es: seq<Entry>, e: Entry)
    ensures Added(es, e) == es <==> exists o | o in es :: o.kind + o.key == e.kind + e.key
    ensures Added(es, e) != es ==> Added(es, e) == es + [e]
    ensures ConcatDistinct(es) ==> ConcatDistinct(Added(es, e))
  {
    if Match(es, TypeAndKey(e)) == -1 {
      assert |Added(es, e)| == |es| + 1;
      forall i | 0 <= i < |es| ensures TypeAndKey(es[i]) != TypeAndKey(e) {
        assert es[i] in es;
      }
    }
  }

  ghost predicate HasPair(es: seq<Entry>, kind: string, key: string) {
    exists e | e in es :: e.kind == kind && e.key == key
  }

  // Of the rows with the concatenation the first goes; the others stay in their order.
  lemma RemovesFirst(a: seq<Entry>, e: Entry, b: seq<Entry>, kind: string, key: string)
    requires forall d | d in a :: d.kind + d.key != kind + key
    ensures Removed(a, kind, key) == a
    ensures e.kind + e.key == kind + key ==> Removed(a + [e] + b, kind, key) == a + b
  {
    FirstAbsent(a, TypeAndKey, kind + key);
    if e.kind + e.key == kind + key {
      FirstBetween(a, e, b, TypeAndKey, kind + key);
      var es := a + [e] + b;
      assert es[..|a|] == a && es[|a| + 1..] == b;
    }
  }

  // With distinct concatenations: removing a pair that is present removes its row
  // and no other.
  lemma RemovePresent(es: seq<Entry>, e: Entry)
    requires ConcatDistinct(es) && e in es
    ensures var r := Removed(es, e.kind, e.key);
      ConcatDistinct(r) && multiset(r) == multiset(es) - multiset{e} && !HasPair(r, e.kind, e.key)
  {
    var i := Match(es, TypeAndKey(e));
    var j :| 0 <= j < |es| && es[j] == e;
    assert i == j by {
      assert TypeAndKey(es[j]) == TypeAndKey(es[i]);
    }
    RemoveRow(es, i);
  }

  // Removing an absent pair leaves the rows alone exactly when none of them has
  // its concatenation; otherwise the row that has it goes.
  lemma RemoveAbsent(es: seq<Entry>, kind: string, key: string)
    requires ConcatDistinct(es) && !HasPair(es, kind, key)
    ensures Removed(es, kind, key) == es <==> forall e | e in es :: TypeAndKey(e) != kind + key
    ensures ConcatDistinct(Removed(es, kind, key))
  {
    var i := Match(es, kind + key);
    if i >= 0 {
      RemoveRow(es, i);
      assert |Removed(es, kind, key)| == |es| - 1;
    }
  }

  lemma RemoveRow(es: seq<Entry>, i: nat)
    requires ConcatDistinct(es) && i < |es|
    ensures var r := es[..i] + es[i + 1..];
      ConcatDistinct(r) && multiset(r) == multiset(es) - multiset{es[i]} &&
      forall e | e in r :: TypeAndKey(e) != TypeAndKey(es[i])
  {
    var r := es[..i] + es[i + 1..];
    assert es == es[..i] + [es[i]] + es[i + 1..];
    assert forall j | 0 <= j < |r| :: r[j] == es[if j < i then j else j + 1];
  }

  // ---------------------------------------------------------------- every run

  // What the contact model and the book hold of one contact's addresses.
  datatype Work = Work(entries: seq<Entry>, wallets: seq<WalletInfo>)

  datatype Edit = Add(entry: Entry) | Remove(kind: string, key: string) | Save | Reload

  ghost function Edited(w: Work, e: Edit, scan: seq<string>): Work {
    match e
    case Add(entry) => w.(entries := Added(w.entries, entry))
    case Remove(kind, key) => w.(entries := Removed(w.entries, kind, key))
    case Save => w.(wallets := SavedWallets(w.entries))
    case Reload => w.(entries := Populated(w.wallets, scan))
  }

  ghost function EditRun(edits: seq<Edit>, scan: seq<string>): Work {
    if edits == [] then Work([], []) else Edited(EditRun(edits[..|edits| - 1], scan), edits[|edits| - 1], scan)
  }

  lemma SaveKeepsConcat(es: seq<Entry>)
    requires ConcatDistinct(es)
    ensures ConcatDistinctPairs(AddressesOf(SavedWallets(es)))
  {
    SavedWalletsOk(es);
    var m := PairsIn(es);
    forall p, q | p in m && q in m && p.0 + p.1 == q.0 + q.1 ensures p == q {
      PairsInFrom(es, p);
      PairsInFrom(es, q);
      var i :| 0 <= i < |es| && es[i] == Entry(p.0, p.1, m[p]);
      var j :| 0 <= j < |es| && es[j] == Entry(q.0, q.1, m[q]);
      assert TypeAndKey(es[i]) == TypeAndKey(es[j]);
      assert p == (p.0, p.1) && q == (q.0, q.1);
    }
  }

  lemma CountTwice(es: seq<Entry>, i: nat, j: nat)
    requires i < j < |es| && es[i] == es[j]
    ensures multiset(es)[es[i]] >= 2
  {
    assert es == es[..j] + es[j..];
    assert es[i] == es[..j][i] && es[j] == es[j..][0];
    assert multiset(es) == multiset(es[..j]) + multiset(es[j..]);
    assert es[i] in multiset(es[..j]) && es[i] in multiset(es[j..]);
  }

  lemma ReloadKeepsConcat(ws: seq<WalletInfo>, scan: seq<string>)
    requires WalletsOk(ws) && ConcatDistinctPairs(AddressesOf(ws)) && NoRepeats(scan)
    ensures ConcatDistinct(Populated(ws, scan))
  {
    var es, a := Populated(ws, scan), AddressesOf(ws);
    forall i, j | 0 <= i < j < |es| ensures TypeAndKey(es[i]) != TypeAndKey(es[j]) {
      PopulatedCount(ws, scan, es[i]);
      PopulatedCount(ws, scan, es[j]);
      assert es[i] in multiset(es) && es[j] in multiset(es);
      if TypeAndKey(es[i]) == TypeAndKey(es[j]) {
        assert (es[i].kind, es[i].key) == (es[j].kind, es[j].key);
        CountTwice(es, i, j);
        ScannedOnce(scan, es[i].kind);
      }
    }
  }

  lemma {:induction false} ScannedOnce(scan: seq<string>, t: string)
    requires NoRepeats(scan)
    ensures Occurrences(scan, t) == if t in scan then 1 else 0
  {
    if scan != [] {
      var n := |scan| - 1;
      ScannedOnce(scan[..n], t);
      assert scan == scan[..n] + [scan[n]];
      assert multiset(scan) == multiset(scan[..n]) + multiset{scan[n]};
    }
  }

  // From an empty contact, every run of adding, removing, saving and reloading
  // keeps the concatenations distinct, on screen and on disk.
  lemma {:induction false} EditsKeepConcat(edits: seq<Edit>, scan: seq<string>)
    requires NoRepeats(scan)
    ensures var w := EditRun(edits, scan);
      ConcatDistinct(w.entries) && WalletsOk(w.wallets) && ConcatDistinctPairs(AddressesOf(w.wallets))
  {
    if edits != [] {
      var n := |edits| - 1;
      EditsKeepConcat(edits[..n], scan);
      var w := EditRun(edits[..n], scan);
      match edits[n]
      case Add(entry) => AddIsExact(w.entries, entry);
      case Remove(kind, key) =>
        var i := Match(w.entries, kind + key);
        if i >= 0 { RemoveRow(w.entries, i); }
      case Save =>
        SavedWalletsOk(w.entries);
        SaveKeepsConcat(w.entries);
      case Reload => ReloadKeepsConcat(w.wallets, scan);
    }
  }

  // A type scanned twice brings its entries back twice: saving one and reloading
  // is enough.
  lemma RepeatedScan(scan: seq<string>, i: nat, j: nat)
    requires i < j < |scan| && scan[i] == scan[j]
    ensures !ConcatDistinct(EditRun([Add(Entry(scan[i], "", "")), Save, Reload], scan).entries)
  {
    var e := Entry(scan[i], "", "");
    AddSaveReload(e, scan);
    SavedWalletsOk([e]);
    assert [e][..0] == [] && (e.kind, e.key) in PairsIn([e]);
    PopulatedCount(SavedWallets([e]), scan, e);
    ScannedTwice(scan, i, j);
    TwoRows(Populated(SavedWallets([e]), scan), e);
  }

  lemma AddSaveReload(e: Entry, scan: seq<string>)
    ensures EditRun([Add(e), Save, Reload], scan).entries == Populated(SavedWallets([e]), scan)
  {
    var edits := [Add(e), Save, Reload];
    assert edits[..2] == [Add(e), Save] && edits[..2][..1] == [Add(e)] && edits[..2][..1][..0] == [];
    assert Match([], TypeAndKey(e)) == -1 && [] + [e] == [e];
    assert EditRun([Add(e)], scan) == Work([e], []);
    assert EditRun([Add(e), Save], scan) == Work([e], SavedWallets([e]));
  }

  lemma ScannedTwice(scan: seq<string>, i: nat, j: nat)
    requires i < j < |scan| && scan[i] == scan[j]
    ensures Occurrences(scan, scan[i]) >= 2
  {
    assert scan == scan[..j] + scan[j..];
    assert scan[i] == scan[..j][i] && scan[j] == scan[j..][0];
    assert multiset(scan) == multiset(scan[..j]) + multiset(scan[j..]);
    assert scan[i] in multiset(scan[..j]) && scan[i] in multiset(scan[j..]);
  }

  lemma {:induction false} TwoRows(es: seq<Entry>, e: Entry)
    requires multiset(es)[e] >= 2
    ensures !ConcatDistinct(es)
  {
    var n := |es| - 1;
    assert es == es[..n] + [es[n]];
    assert multiset(es) == multiset(es[..n]) + multiset{es[n]};
    if es[n] == e {
      assert e in multiset(es[..n]);
      var i :| 0 <= i < n && es[..n][i] == e;
      assert TypeAndKey(es[i]) == TypeAndKey(es[n]);
    } else {
      TwoRows(es[..n], e);
      var i, j :| 0 <= i < j < n && TypeAndKey(es[..n][i]) == TypeAndKey(es[..n][j]);
      assert TypeAndKey(es[i]) == TypeAndKey(es[j]);
    }
  }

  // Every run keeps the concatenations distinct exactly if populate scans no type
  // twice.
  lemma EditsKeepConcatExactly(scan: seq<string>)
    ensures (forall edits :: ConcatDistinct(EditRun(edits, scan).entries)) <==> NoRepeats(scan)
  {
    if NoRepeats(scan) {
      forall edits ensures ConcatDistinct(EditRun(edits, scan).entries) {
        EditsKeepConcat(edits, scan);
      }
    } else {
      var i, j :| 0 <= i < j < |scan| && scan[i] == scan[j];
      RepeatedScan(scan, i, j);
    }
  }

  // A save at any moment of any run is lossless, reloading bringing the same
  // entries back, exactly if each is the last of its pair and is there as often as
  // its type is scanned; where no type is scanned twice, if its type is scanned.
  lemma SaveIsLossless(edits: seq<Edit>, scan: seq<string>)
    ensures var w := EditRun(edits, scan);
      multiset(Edited(Edited(w, Save, scan), Reload, scan).entries) == multiset(w.entries)
      <==> forall e | e in w.entries :: LastOfPair(w.entries, e) && multiset(w.entries)[e] == Occurrences(scan, e.kind)
    ensures NoRepeats(scan) ==>
      var w := EditRun(edits, scan);
      (multiset(Edited(Edited(w, Save, scan), Reload, scan).entries) == multiset(w.entries)
       <==> forall e | e in w.entries :: e.kind in scan)
  {
    var w := EditRun(edits, scan);
    SaveReloadExactly(w.entries, scan);
    if NoRepeats(scan) {
      EditsKeepConcat(edits, scan);
      ConcatDistinctIsPairsDistinct(w.entries);
      SaveThenReload(w.entries, scan);
      forall e | e in w.entries ensures Occurrences(scan, e.kind) == 1 <==> e.kind in scan {
        ScannedOnce(scan, e.kind);
      }
    }
  }

  // ------------------------------------------------------------------ the class

  class ContactModel {
    var name: string
    var categories: seq<string>
    var entries: seq<Entry>
    const book: AddressBookManager
    const coins: seq<string>
    const coinTypes: seq<string>

    // Populates itself; without a contact of that name that throws, and the model
    // built so far, which is empty, is lost.
    constructor (book: AddressBookManager, name: string, coins: seq<string>, coinTypes: seq<string>)
      ensures this.book == book && this.name == name && this.coins == coins && this.coinTypes == coinTypes
      ensures if Find(book.data, name) >= 0
              then categories == book.data[Find(book.data, name)].categories &&
                   entries == Populated(book.data[Find(book.data, name)].wallets, Scan(coins, coinTypes))
              else categories == [] && entries == []
    {
      this.book, this.name, this.coins, this.coinTypes := book, name, coins, coinTypes;
      categories, entries := [], [];
      new;
      var _ := Populate();
      assert [] + entries == entries;
    }

    // What a run of edits works on: the entries here, and what the book has of them.
    ghost function Editing(): Work
      reads this, book
    {
      Work(entries, if Find(book.data, name) >= 0 then book.data[Find(book.data, name)].wallets else [])
    }

    // The book's contact of this name: only its categories and wallet infos change.
    ghost predicate Wrote(was: seq<Contact>, now: seq<Contact>, cs: seq<string>, ws: seq<WalletInfo>)
      reads this
    {
      Find(was, name) >= 0 && now == was[Find(was, name) := Contact(name, cs, ws)]
    }

    // set_name, which renames the contact in the book as well unless this model
    // was nameless; false when that throws.
    method SetName(newName: string) returns (ok: bool)
      modifies `name, book
      ensures newName == old(name) || old(name) == "" ==> ok && book.data == old(book.data)
      ensures newName != old(name) && old(name) != "" ==>
                Did(old(book.data), ChangeName(old(name), newName), book.data, ok)
      ensures name == if ok then newName else old(name)
    {
      ok := true;
      if newName != name {
        if name != "" {
          ok := book.ChangeContactName(name, newName);
        }
        if ok {
          name := newName;
        }
      }
    }

    method AddCategory(category: string) returns (added: bool)
      modifies `categories
      ensures categories == AddIfNew(old(categories), category) && (added <==> category !in old(categories))
    {
      if category in categories {
        return false;
      }
      categories := categories + [category];
      return true;
    }

    method RemoveCategory(category: string)
      modifies `categories
      ensures categories == EraseFirst(old(categories), category)
    {
      categories := EraseFirst(categories, category);
    }

    // QAbstractItemModel::match from row 0, exactly, one hit
    method MatchRow(s: string) returns (i: int)
      ensures i == Match(entries, s)
    {
      i := 0;
      while i < |entries|
        invariant 0 <= i <= |entries| && Match(entries[..i], s) == -1
      {
        assert entries[..i + 1][..i] == entries[..i];
        if TypeAndKey(entries[i]) == s {
          FirstPrefix(entries, TypeAndKey, s, i + 1);
          return;
        }
        i := i + 1;
      }
      assert entries[..i] == entries;
      i := -1;
    }

    method AddAddressEntry(kind: string, key: string, value: string) returns (added: bool)
      modifies `entries
      ensures entries == Added(old(entries), Entry(kind, key, value))
      ensures added <==> forall e | e in old(entries) :: TypeAndKey(e) != kind + key
      ensures entries == old(entries) + if added then [Entry(kind, key, value)] else []
      ensures Editing() == Edited(old(Editing()), Add(Entry(kind, key, value)), Scan(coins, coinTypes))
    {
      var row := MatchRow(kind + key);
      if row >= 0 {
        return false;
      }
      entries := entries + [Entry(kind, key, value)];
      return true;
    }

    method RemoveAddressEntry(kind: string, key: string)
      modifies `entries
      ensures entries == Removed(old(entries), kind, key)
      ensures Editing() == Edited(old(Editing()), Remove(kind, key), Scan(coins, coinTypes))
    {
      var row := MatchRow(kind + key);
      RemoveRowAt(row);
    }

    // beginRemoveRows, erase, endRemoveRows; nothing for no row
    method RemoveRowAt(row: int)
      requires -1 <= row < |entries|
      modifies `entries
      ensures entries == if row >= 0 then old(entries)[..row] + old(entries)[row + 1..] else old(entries)
    {
      if row >= 0 {
        entries := entries[..row] + entries[row + 1..];
      }
    }

    method Clear()
      modifies `categories, `entries
      ensures categories == [] && entries == []
    {
      categories := [];
      entries := [];
    }

    // save; false when the book has no such contact, an exception in the source.
    method Save() returns (ok: bool)
      modifies book
      ensures ok <==> Find(old(book.data), name) >= 0
      ensures if ok then Wrote(old(book.data), book.data, SavedCategories(categories), SavedWallets(entries))
              else book.data == old(book.data)
      ensures ok ==> Editing() == Edited(old(Editing()), Edit.Save, Scan(coins, coinTypes))
    {
      ghost var was := book.data;
      ok := SaveCategories();
      if !ok {
        return;
      }
      WroteFind(was, book.data, SavedCategories(categories), was[Find(was, name)].wallets);
      ok := SaveEntries();
      WroteFind(was, book.data, SavedCategories(categories), SavedWallets(entries));
    }

    lemma WroteFind(was: seq<Contact>, now: seq<Contact>, cs: seq<string>, ws: seq<WalletInfo>)
      requires Wrote(was, now, cs, ws)
      ensures Find(now, name) == Find(was, name)
    {
      var i := Find(was, name);
      FirstAfterUpdate(was, ContactName, name, i, Contact(name, cs, ws));
    }

    method SaveCategories() returns (ok: bool)
      modifies book
      ensures ok <==> Find(old(book.data), name) >= 0
      ensures var was := old(book.data);
        if ok then Wrote(was, book.data, SavedCategories(categories), was[Find(was, name)].wallets)
        else book.data == was
    {
      ghost var was := book.data;
      ok := book.ResetContactCategories(name);
      if !ok {
        return;
      }
      ghost var ws := was[Find(was, name)].wallets;
      var i := 0;
      assert categories[..0] == [];
      while i < |categories|
        invariant 0 <= i <= |categories| && Find(was, name) >= 0
        invariant Wrote(was, book.data, SavedCategories(categories[..i]), ws)
      {
        assert categories[..i + 1][..i] == categories[..i];
        SaveCategory(was, SavedCategories(categories[..i]), ws, categories[i]);
        i := i + 1;
      }
      assert categories[..i] == categories;
    }

    // one round of that loop
    method SaveCategory(ghost was: seq<Contact>, ghost cs: seq<string>, ghost ws: seq<WalletInfo>, category: string)
      requires Wrote(was, book.data, cs, ws)
      modifies book
      ensures Wrote(was, book.data, AddIfNew(cs, category), ws)
    {
      ghost var before := book.data;
      var done, _ := book.AddContactCategory(name, category);
      WroteCategory(was, before, book.data, cs, ws, category, done);
    }

    lemma WroteCategory(
        was: seq<Contact>, before: seq<Contact>, now: seq<Contact>, cs: seq<string>, ws: seq<WalletInfo>,
        category: string, ok: bool)
      requires Wrote(was, before, cs, ws) && Did(before, Op.AddCategory(name, category), now, ok)
      ensures Wrote(was, now, AddIfNew(cs, category), ws)
    {
      WroteFind(was, before, cs, ws);
    }

    method SaveEntries() returns (ok: bool)
      modifies book
      ensures ok <==> Find(old(book.data), name) >= 0
      ensures var was := old(book.data);
        if ok then Wrote(was, book.data, was[Find(was, name)].categories, SavedWallets(entries)) else book.data == was
    {
      ghost var was := book.data;
      ok := book.RemoveEveryWalletInfo(name);
      if !ok {
        return;
      }
      ghost var cs := was[Find(was, name)].categories;
      var i := 0;
      assert entries[..0] == [];
      while i < |entries|
        invariant 0 <= i <= |entries| && Find(was, name) >= 0
        invariant Wrote(was, book.data, cs, SavedWallets(entries[..i]))
      {
        assert entries[..i + 1][..i] == entries[..i];
        SaveEntry(was, cs, SavedWallets(entries[..i]), entries[i]);
        i := i + 1;
      }
      assert entries[..i] == entries;
    }

    // one round of that loop
    method SaveEntry(ghost was: seq<Contact>, ghost cs: seq<string>, ghost ws: seq<WalletInfo>, e: Entry)
      requires Wrote(was, book.data, cs, ws)
      modifies book
      ensures Wrote(was, book.data, cs, SetAddress(ws, e.kind, e.key, e.value))
    {
      ghost var before := book.data;
      var done := book.SetContactWalletInfo(name, e.kind, e.key, e.value);
      WroteEntry(was, before, book.data, cs, ws, e, done);
    }

    lemma WroteEntry(
        was: seq<Contact>, before: seq<Contact>, now: seq<Contact>, cs: seq<string>, ws: seq<WalletInfo>,
        e: Entry, ok: bool)
      requires Wrote(was, before, cs, ws) && Did(before, SetInfo(name, e.kind, e.key, e.value), now, ok)
      ensures Wrote(was, now, cs, SetAddress(ws, e.kind, e.key, e.value))
    {
      WroteFind(was, before, cs, ws);
    }

    // reload; false when the book has no such contact: the model is left cleared.
    method Reload() returns (ok: bool)
      modifies `categories, `entries
      ensures ok <==> Find(book.data, name) >= 0
      ensures if ok
              then categories == book.data[Find(book.data, name)].categories &&
                   entries == Populated(book.data[Find(book.data, name)].wallets, Scan(coins, coinTypes))
              else categories == [] && entries == []
      ensures ok ==> Editing() == Edited(old(Editing()), Edit.Reload, Scan(coins, coinTypes))
    {
      Clear();
      ok := Populate();
      assert [] + entries == entries;
    }

    // populate, which appends to the entries it finds
    method Populate() returns (ok: bool)
      modifies `categories, `entries
      ensures ok <==> Find(book.data, name) >= 0
      ensures if ok
              then categories == book.data[Find(book.data, name)].categories &&
                   entries == old(entries) + Populated(book.data[Find(book.data, name)].wallets, Scan(coins, coinTypes))
              else categories == old(categories) && entries == old(entries)
    {
      var c := book.GetContact(name);
      if c.Threw? {
        return false;
      }
      categories := book.data[c.value].categories;
      PopulateEntries(book.data[c.value].wallets);
      return true;
    }

    ghost predicate HasWallets(ws: seq<WalletInfo>)
      reads this, book
    {
      Find(book.data, name) >= 0 && book.data[Find(book.data, name)].wallets == ws
    }

    method PopulateEntries(ghost ws: seq<WalletInfo>)
      requires HasWallets(ws)
      modifies `entries
      ensures entries == old(entries) + Populated(ws, Scan(coins, coinTypes))
    {
      ghost var a, b := Populated(ws, Kept(coins, "All")), Populated(ws, Kept(coinTypes, "UTXO"));
      PopulateFrom(coins, "All", ws);
      PopulateFrom(coinTypes, "UTXO", ws);
      PopulatedAppend(ws, Kept(coins, "All"), Kept(coinTypes, "UTXO"));
      Associate(old(entries), a, b);
    }

    lemma {:induction false} PopulatedAppend(ws: seq<WalletInfo>, a: seq<string>, b: seq<string>)
      ensures Populated(ws, a + b) == Populated(ws, a) + Populated(ws, b)
    {
      if b == [] {
        assert a + b == a;
      } else {
        var n, last := |b| - 1, b[|b| - 1];
        assert (a + b)[..|a + b| - 1] == a + b[..n];
        PopulatedAppend(ws, a, b[..n]);
        var more := Listed(last, Under(ws, last));
        assert Populated(ws, a) + Populated(ws, b[..n]) + more == Populated(ws, a) + (Populated(ws, b[..n]) + more);
      }
    }

    // one of populate's two loops over the types it knows
    method PopulateFrom(types: seq<string>, skip: string, ghost ws: seq<WalletInfo>)
      requires HasWallets(ws)
      modifies `entries
      ensures entries == old(entries) + Populated(ws, Kept(types, skip))
    {
      var i := 0;
      assert types[..0] == [];
      while i < |types|
        invariant 0 <= i <= |types| && HasWallets(ws)
        invariant entries == old(entries) + Populated(ws, Kept(types[..i], skip))
      {
        assert types[..i + 1][..i] == types[..i];
        if types[i] != skip {
          CreateAddressEntries(types[i], ws);
          Associate(old(entries), Populated(ws, Kept(types[..i], skip)), Listed(types[i], Under(ws, types[i])));
        }
        i := i + 1;
      }
      assert types[..i] == types;
    }

    // create_address_entries
    method CreateAddressEntries(kind: string, ghost ws: seq<WalletInfo>)
      requires HasWallets(ws)
      modifies `entries
      ensures entries == old(entries) + Listed(kind, Under(ws, kind))
    {
      var has := book.HasWalletInfo(name, kind);
      if !has.value {
        return;
      }
      var found := book.GetWalletAddresses(name, kind);
      ListAddresses(kind, found.value);
    }

    // the loop over it, in the order of its keys
    method ListAddresses(kind: string, addresses: map<string, string>)
      modifies `entries
      ensures entries == old(entries) + Listed(kind, addresses)
    {
      var left := addresses;
      assert entries + Listed(kind, left) == old(entries) + Listed(kind, addresses);
      while left != map[]
        invariant entries + Listed(kind, left) == old(entries) + Listed(kind, addresses)
        decreases |left|
      {
        var key := FirstKey(left.Keys);
        assert |left.Keys| == |left|;
        assert (left - {key}).Keys == left.Keys - {key};
        LeastUnique(key, left.Keys);
        assert entries + ([Entry(kind, key, left[key])] + Listed(kind, left - {key}))
            == entries + [Entry(kind, key, left[key])] + Listed(kind, left - {key});
        entries := entries + [Entry(kind, key, left[key])];
        left := left - {key};
      }
      assert entries + [] == entries;
    }

    // where an iterator over a JSON object starts
    method FirstKey(keys: set<string>) returns (k: string)
      requires keys != {}
      ensures IsLeast(k, keys)
    {
      k :| k in keys;
      var left := keys - {k};
      while left != {}
        invariant left <= keys && k in keys && k !in left
        invariant forall j | j in keys && j !in left && j != k :: Less(k, j)
        decreases |left|
      {
        var j :| j in left;
        LessTotal(k, j);
        if Less(j, k) {
          forall i | i in keys && i !in left && i != k ensures Less(j, i) {
            LessTransitive(j, k, i);
          }
          k := j;
        }
        left := left - {j};
      }
    }
  }
}
