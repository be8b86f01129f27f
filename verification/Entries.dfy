// The contact model's list of entries against the persisted wallet infos: save
// flattens the one into the other, populate reads it back.
module Entries {
  import opened AddressBook
  import opened Lists

  datatype Entry = Entry(kind: string, key: string, value: string)

  // -------------------------------------------------- keys in ascending order

  // The order of the keys of a JSON object.
  predicate Less(a: string, b: string) {
    b != "" && (a == "" || a[0] < b[0] || (a[0] == b[0] && Less(a[1..], b[1..])))
  }

  lemma {:induction false} LessTotal(a: string, b: string)
    ensures a == b || Less(a, b) || Less(b, a)
    ensures !(Less(a, b) && Less(b, a)) && !Less(a, a)
  {
    if a != "" && b != "" {
      LessTotal(a[1..], b[1..]);
      assert a == [a[0]] + a[1..] && b == [b[0]] + b[1..];
    }
    if a != "" { LessTotal(a[1..], a[1..]); }
  }

  lemma {:induction false} LessTransitive(a: string, b: string, c: string)
    requires Less(a, b) && Less(b, c)
    ensures Less(a, c)
  {
    if a != "" && a[0] == b[0] == c[0] {
      LessTransitive(a[1..], b[1..], c[1..]);
    }
  }

  // Where the two first differ the earlier one has the lesser character, or has ended.
  lemma {:induction false} LessExactly(a: string, b: string)
    ensures Less(a, b) <==> exists k: nat :: Differ(a, b, k)
  {
    if b != "" && a != "" && a[0] == b[0] {
      LessExactly(a[1..], b[1..]);
      if k: nat :| Differ(a[1..], b[1..], k) {
        assert a[..k + 1] == [a[0]] + a[1..][..k] && b[..k + 1] == [b[0]] + b[1..][..k];
        assert Differ(a, b, k + 1);
      }
      if k: nat :| Differ(a, b, k) {
        assert k > 0 && a[1..][..k - 1] == a[..k][1..] && b[1..][..k - 1] == b[..k][1..];
        assert Differ(a[1..], b[1..], k - 1);
      }
    } else if Less(a, b) {
      assert Differ(a, b, 0);
    } else {
      forall k: nat ensures !Differ(a, b, k) {
        if 0 < k <= |a| && k < |b| { assert a[0] == a[..k][0] && b[0] == b[..k][0]; }
      }
    }
  }

  ghost predicate Differ(a: string, b: string, k: nat) {
    k <= |a| && k < |b| && a[..k] == b[..k] && (k == |a| || a[k] < b[k])
  }

  ghost predicate IsLeast(k: string, ks: set<string>) {
    k in ks && forall j | j in ks && j != k :: Less(k, j)
  }

  lemma {:induction false} LeastExists(ks: set<string>)
    requires ks != {}
    ensures exists k :: IsLeast(k, ks)
    decreases |ks|
  {
    var k :| k in ks;
    if ks == {k} {
      assert IsLeast(k, ks);
    } else {
      var rest := ks - {k};
      LeastExists(rest);
      var m :| IsLeast(m, rest);
      LessTotal(k, m);
      if Less(m, k) {
        assert IsLeast(m, ks);
      } else {
        forall j | j in ks && j != k ensures Less(k, j) {
          if j != m { LessTransitive(k, m, j); }
        }
        assert IsLeast(k, ks);
      }
    }
  }

  ghost function Least(ks: set<string>): (k: string)
    requires ks != {}
    ensures IsLeast(k, ks)
  {
    LeastExists(ks);
    var k :| IsLeast(k, ks);
    k
  }

  lemma LeastUnique(k: string, ks: set<string>)
    requires IsLeast(k, ks)
    ensures k == Least(ks)
  {
    LessTotal(k, Least(ks));
  }

  // The entries of one wallet info, in the order an iterator meets its keys.
  ghost function Listed(kind: string, m: map<string, string>): seq<Entry>
    decreases |m|
  {
    if m == map[] then []
    else
      var k := Least(m.Keys);
      assert |m.Keys| == |m|;
      assert (m - {k}).Keys == m.Keys - {k};
      [Entry(kind, k, m[k])] + Listed(kind, m - {k})
  }

  lemma {:induction false} ListedCount(kind: string, m: map<string, string>, e: Entry)
    ensures multiset(Listed(kind, m))[e] == if e.kind == kind && e.key in m && m[e.key] == e.value then 1 else 0
    decreases |m|
  {
    if m != map[] {
      var k := Least(m.Keys);
      assert (m - {k}).Keys == m.Keys - {k};
      ListedCount(kind, m - {k}, e);
      var head := Entry(kind, k, m[k]);
      assert multiset(Listed(kind, m)) == multiset{head} + multiset(Listed(kind, m - {k}));
    }
  }

  lemma {:induction false} ListedAscends(kind: string, m: map<string, string>)
    ensures forall e | e in Listed(kind, m) :: e.kind == kind && e.key in m && m[e.key] == e.value
    ensures forall i, j | 0 <= i < j < |Listed(kind, m)| :: Less(Listed(kind, m)[i].key, Listed(kind, m)[j].key)
    decreases |m|
  {
    if m != map[] {
      var k := Least(m.Keys);
      assert (m - {k}).Keys == m.Keys - {k};
      ListedAscends(kind, m - {k});
      var rest := Listed(kind, m - {k});
      forall j | 0 <= j < |rest| ensures Less(k, rest[j].key) {
        assert rest[j] in rest;
      }
    }
  }

  // ------------------------------------------------------------- populate, save

  // The types populate looks for: every coin but "All", every coin type but "UTXO".
  function Kept(ts: seq<string>, skip: string): seq<string> {
    if ts == [] then []
    else
      var n := |ts| - 1;
      if ts[n] == skip then Kept(ts[..n], skip) else Kept(ts[..n], skip) + [ts[n]]
  }

  function Scan(coins: seq<string>, coinTypes: seq<string>): seq<string> {
    Kept(coins, "All") + Kept(coinTypes, "UTXO")
  }

  lemma {:induction false} KeptCount(ts: seq<string>, skip: string, t: string)
    ensures multiset(Kept(ts, skip))[t] == if t == skip then 0 else multiset(ts)[t]
  {
    if ts != [] {
      KeptCount(ts[..|ts| - 1], skip, t);
      assert ts == ts[..|ts| - 1] + [ts[|ts| - 1]];
    }
  }

  lemma {:induction false} KeptNoRepeats(ts: seq<string>, skip: string)
    requires NoRepeats(ts)
    ensures NoRepeats(Kept(ts, skip))
  {
    if ts != [] {
      var n := |ts| - 1;
      KeptNoRepeats(ts[..n], skip);
      KeptIn(ts[..n], skip);
      var front := Kept(ts[..n], skip);
      forall i | 0 <= i < |front| ensures front[i] != ts[n] { assert front[i] in ts[..n]; }
    }
  }

  lemma {:induction false} KeptIn(ts: seq<string>, skip: string)
    ensures forall t :: t in Kept(ts, skip) <==> t in ts && t != skip
  {
    if ts != [] {
      KeptIn(ts[..|ts| - 1], skip);
      assert ts == ts[..|ts| - 1] + [ts[|ts| - 1]];
    }
  }

  // A type is scanned once for each mention of it as a coin or a coin type, the
  // two placeholders aside.
  lemma ScanIs(coins: seq<string>, coinTypes: seq<string>, t: string)
    ensures multiset(Scan(coins, coinTypes))[t] ==
      (if t == "All" then 0 else multiset(coins)[t]) + (if t == "UTXO" then 0 else multiset(coinTypes)[t])
  {
    KeptCount(coins, "All", t);
    KeptCount(coinTypes, "UTXO", t);
    assert multiset(Scan(coins, coinTypes)) == multiset(Kept(coins, "All")) + multiset(Kept(coinTypes, "UTXO"));
  }

  // Lists without repeats and without a common member are scanned without repeats.
  lemma ScanNoRepeats(coins: seq<string>, coinTypes: seq<string>)
    requires NoRepeats(coins) && NoRepeats(coinTypes) && forall c | c in coins :: c !in coinTypes
    ensures NoRepeats(Scan(coins, coinTypes))
  {
    KeptNoRepeats(coins, "All");
    KeptNoRepeats(coinTypes, "UTXO");
    KeptIn(coins, "All");
    KeptIn(coinTypes, "UTXO");
    var a, b := Kept(coins, "All"), Kept(coinTypes, "UTXO");
    forall i, j | 0 <= i < |a| && 0 <= j < |b| ensures a[i] != b[j] {
      assert a[i] in a && b[j] in b;
    }
  }

  // The coins come first, then the coin types, both in their own order; a placeholder
  // is passed over wherever it stands.
  lemma ScanInOrder(coins: seq<string>, coinTypes: seq<string>, more: seq<string>)
    ensures "All" !in coins && "UTXO" !in coinTypes ==> Scan(coins, coinTypes) == coins + coinTypes
    ensures Scan(coins + ["All"] + more, coinTypes) == Scan(coins + more, coinTypes)
    ensures Scan(coins, coinTypes + ["UTXO"] + more) == Scan(coins, coinTypes + more)
  {
    KeptPasses(coins, "All", more);
    KeptPasses(coinTypes, "UTXO", more);
    if "All" !in coins { KeptAll(coins, "All"); }
    if "UTXO" !in coinTypes { KeptAll(coinTypes, "UTXO"); }
  }

  lemma {:induction false} KeptAll(ts: seq<string>, skip: string)
    requires skip !in ts
    ensures Kept(ts, skip) == ts
  {
    if ts != [] {
      KeptAll(ts[..|ts| - 1], skip);
    }
  }

  lemma {:induction false} KeptPasses(a: seq<string>, skip: string, b: seq<string>)
    ensures Kept(a + [skip] + b, skip) == Kept(a + b, skip)
  {
    if b == [] {
      assert a + [skip] + b == a + [skip] && (a + [skip])[..|a|] == a && a + b == a;
    } else {
      var n := |b| - 1;
      assert (a + [skip] + b)[..|a + [skip] + b| - 1] == a + [skip] + b[..n];
      assert (a + b)[..|a + b| - 1] == a + b[..n];
      KeptPasses(a, skip, b[..n]);
    }
  }

  ghost function Populated(ws: seq<WalletInfo>, scan: seq<string>): seq<Entry> {
    if scan == [] then []
    else Populated(ws, scan[..|scan| - 1]) + Listed(scan[|scan| - 1], Under(ws, scan[|scan| - 1]))
  }

  function SavedWallets(es: seq<Entry>): seq<WalletInfo> {
    if es == [] then []
    else
      var e := es[|es| - 1];
      SetAddress(SavedWallets(es[..|es| - 1]), e.kind, e.key, e.value)
  }

  function SavedCategories(cs: seq<string>): seq<string> {
    if cs == [] then [] else AddIfNew(SavedCategories(cs[..|cs| - 1]), cs[|cs| - 1])
  }

  // Of two entries, which populate lists first: by place of the type in the scan,
  // then by key.
  ghost predicate Precedes(scan: seq<string>, d: Entry, e: Entry) {
    Position(scan, d.kind) < Position(scan, e.kind) || (d.kind == e.kind && Less(d.key, e.key))
  }

  lemma {:induction false} PopulatedKinds(ws: seq<WalletInfo>, scan: seq<string>)
    ensures forall e | e in Populated(ws, scan) :: e.kind in scan
  {
    if scan != [] {
      var n := |scan| - 1;
      PopulatedKinds(ws, scan[..n]);
      ListedAscends(scan[n], Under(ws, scan[n]));
      assert scan == scan[..n] + [scan[n]];
    }
  }

  ghost predicate Canonical(scan: seq<string>, es: seq<Entry>) {
    forall i, j | 0 <= i < j < |es| :: Precedes(scan, es[i], es[j])
  }

  lemma PositionEarly(scan: seq<string>, k: string)
    requires scan != [] && k in scan[..|scan| - 1]
    ensures Position(scan, k) == Position(scan[..|scan| - 1], k) < |scan| - 1
  {
  }

  lemma OrderExtends(scan: seq<string>, a: seq<Entry>, b: seq<Entry>)
    requires scan != [] && scan[|scan| - 1] !in scan[..|scan| - 1]
    requires Canonical(scan[..|scan| - 1], a) && forall e | e in a :: e.kind in scan[..|scan| - 1]
    requires forall e | e in b :: e.kind == scan[|scan| - 1]
    requires forall i, j | 0 <= i < j < |b| :: Less(b[i].key, b[j].key)
    ensures Canonical(scan, a + b)
  {
    var n := |scan| - 1;
    forall i, j | 0 <= i < j < |a + b| ensures Precedes(scan, (a + b)[i], (a + b)[j]) {
      if i < |a| {
        assert a[i] in a;
        PositionEarly(scan, a[i].kind);
      }
      if j < |a| {
        assert Precedes(scan[..n], a[i], a[j]);
        assert a[j] in a;
        PositionEarly(scan, a[j].kind);
      } else {
        assert b[j - |a|] in b;
        if i >= |a| { assert b[i - |a|] in b; }
      }
    }
  }

  // Entries come back in one canonical order.
  lemma {:induction false} PopulatedInOrder(ws: seq<WalletInfo>, scan: seq<string>)
    requires NoRepeats(scan)
    ensures Canonical(scan, Populated(ws, scan))
  {
    if scan != [] {
      var n := |scan| - 1;
      PopulatedInOrder(ws, scan[..n]);
      PopulatedKinds(ws, scan[..n]);
      ListedAscends(scan[n], Under(ws, scan[n]));
      OrderExtends(scan, Populated(ws, scan[..n]), Listed(scan[n], Under(ws, scan[n])));
    }
  }

  // Of two types, which comes first in a list.
  ghost predicate Earlier(ts: seq<string>, t: string, u: string) {
    exists i, j :: 0 <= i < j < |ts| && ts[i] == t && ts[j] == u
  }

  // Of two entries, which is read back first: those of coins before those of coin
  // types, both by their place in the list; those of one type by key.
  ghost predicate Ahead(coins: seq<string>, coinTypes: seq<string>, d: Entry, e: Entry) {
    (d.kind == e.kind && Less(d.key, e.key)) ||
    (d.kind in coins && e.kind in coinTypes) ||
    Earlier(coins, d.kind, e.kind) || Earlier(coinTypes, d.kind, e.kind)
  }

  lemma {:induction false} KeptEarlier(ts: seq<string>, skip: string, i: nat, j: nat)
    requires i < j < |Kept(ts, skip)|
    ensures Earlier(ts, Kept(ts, skip)[i], Kept(ts, skip)[j])
  {
    var n, kept := |ts| - 1, Kept(ts, skip);
    var front := Kept(ts[..n], skip);
    if j < |front| {
      KeptEarlier(ts[..n], skip, i, j);
      var k, l :| 0 <= k < l < n && ts[..n][k] == front[i] && ts[..n][l] == front[j];
      assert ts[k] == kept[i] && ts[l] == kept[j];
    } else {
      KeptIn(ts[..n], skip);
      assert front[i] in front;
      var k :| 0 <= k < n && ts[..n][k] == front[i];
      assert ts[k] == kept[i] && ts[n] == kept[j];
    }
  }

  lemma ScannedAhead(coins: seq<string>, coinTypes: seq<string>, i: nat, j: nat)
    requires i < j < |Scan(coins, coinTypes)|
    ensures var scan := Scan(coins, coinTypes);
      (scan[i] in coins && scan[j] in coinTypes) ||
      Earlier(coins, scan[i], scan[j]) || Earlier(coinTypes, scan[i], scan[j])
  {
    var a, b := Kept(coins, "All"), Kept(coinTypes, "UTXO");
    if j < |a| {
      KeptEarlier(coins, "All", i, j);
    } else if |a| <= i {
      KeptEarlier(coinTypes, "UTXO", i - |a|, j - |a|);
    } else {
      KeptIn(coins, "All");
      KeptIn(coinTypes, "UTXO");
      assert a[i] in a && b[j - |a|] in b;
    }
  }

  // What is read back: the entries of every coin but "All", then those of every coin
  // type but "UTXO", each in the order of its list, and under one type by key.
  lemma ReadBackInOrder(ws: seq<WalletInfo>, coins: seq<string>, coinTypes: seq<string>)
    requires NoRepeats(coins) && NoRepeats(coinTypes) && forall c | c in coins :: c !in coinTypes
    ensures var es := Populated(ws, Scan(coins, coinTypes));
      (forall i, j | 0 <= i < j < |es| :: Ahead(coins, coinTypes, es[i], es[j])) &&
      forall e | e in es :: (e.kind in coins && e.kind != "All") || (e.kind in coinTypes && e.kind != "UTXO")
  {
    var scan := Scan(coins, coinTypes);
    var es := Populated(ws, scan);
    ScanNoRepeats(coins, coinTypes);
    PopulatedInOrder(ws, scan);
    PopulatedKinds(ws, scan);
    KeptIn(coins, "All");
    KeptIn(coinTypes, "UTXO");
    forall i, j | 0 <= i < j < |es| ensures Ahead(coins, coinTypes, es[i], es[j]) {
      assert es[i] in es && es[j] in es && Precedes(scan, es[i], es[j]);
      if es[i].kind != es[j].kind {
        ScannedAhead(coins, coinTypes, Position(scan, es[i].kind), Position(scan, es[j].kind));
      }
    }
  }

  lemma {:induction false} EarlierIsStrict(ts: seq<string>, t: string, u: string)
    requires NoRepeats(ts)
    ensures Earlier(ts, t, u) ==> t in ts && u in ts && t != u && !Earlier(ts, u, t)
  {
  }

  // No two entries are ahead of one another, so this order is the only one.
  lemma {:induction false} AheadIsStrict(coins: seq<string>, coinTypes: seq<string>, d: Entry, e: Entry)
    requires NoRepeats(coins) && NoRepeats(coinTypes) && forall c | c in coins :: c !in coinTypes
    ensures !(Ahead(coins, coinTypes, d, e) && Ahead(coins, coinTypes, e, d))
  {
    LessTotal(d.key, e.key);
    EarlierIsStrict(coins, d.kind, e.kind);
    EarlierIsStrict(coins, e.kind, d.kind);
    EarlierIsStrict(coinTypes, d.kind, e.kind);
    EarlierIsStrict(coinTypes, e.kind, d.kind);
  }

  // ------------------------------------------------- what they do to abstract maps

  ghost function PairsIn(es: seq<Entry>): Addresses {
    if es == [] then map[]
    else
      var e := es[|es| - 1];
      PairsIn(es[..|es| - 1])[(e.kind, e.key) := e.value]
  }

  lemma {:induction false} SavedWalletsOk(es: seq<Entry>)
    ensures WalletsOk(SavedWallets(es)) && AddressesOf(SavedWallets(es)) == PairsIn(es)
  {
    if es != [] {
      var n := |es| - 1;
      SavedWalletsOk(es[..n]);
      SetAddressOk(SavedWallets(es[..n]), es[n].kind, es[n].key, es[n].value);
    }
  }

  predicate PairsDistinct(es: seq<Entry>) {
    forall i, j | 0 <= i < j < |es| :: (es[i].kind, es[i].key) != (es[j].kind, es[j].key)
  }

  lemma {:induction false} PairsInFrom(es: seq<Entry>, p: (string, string))
    ensures p in PairsIn(es) ==> Entry(p.0, p.1, PairsIn(es)[p]) in es
    ensures p !in PairsIn(es) ==> forall v :: Entry(p.0, p.1, v) !in es
  {
    if es != [] {
      var n := |es| - 1;
      PairsInFrom(es[..n], p);
      assert es == es[..n] + [es[n]];
    }
  }

  lemma {:induction false} PairsInOf(es: seq<Entry>, e: Entry)
    requires PairsDistinct(es) && e in es
    ensures (e.kind, e.key) in PairsIn(es) && PairsIn(es)[(e.kind, e.key)] == e.value
  {
    var n := |es| - 1;
    if e != es[n] {
      PairsInOf(es[..n], e);
      var i :| 0 <= i < n && es[i] == e;
      assert (es[i].kind, es[i].key) != (es[n].kind, es[n].key);
    }
  }

  // Of the entries for one pair the last counts.
  lemma {:induction false} LastCounts(a: seq<Entry>, e: Entry, b: seq<Entry>)
    requires forall d | d in b :: (d.kind, d.key) != (e.kind, e.key)
    ensures var m := PairsIn(a + [e] + b); (e.kind, e.key) in m && m[(e.kind, e.key)] == e.value
  {
    if b == [] {
      assert (a + [e] + b)[..|a|] == a && a + [e] + b == a + [e];
    } else {
      var n := |b| - 1;
      assert (a + [e] + b)[..|a + [e] + b| - 1] == a + [e] + b[..n];
      assert b[n] in b;
      LastCounts(a, e, b[..n]);
    }
  }

  function EntryKind(e: Entry): string {
    e.kind
  }

  // The types of saved wallet infos, in the order in which they first occur.
  ghost predicate KindsInOrder(es: seq<Entry>, ws: seq<WalletInfo>) {
    (forall i | 0 <= i < |ws| :: First(es, EntryKind, ws[i].kind) >= 0) &&
    (forall i, j | 0 <= i < j < |ws| :: First(es, EntryKind, ws[i].kind) < First(es, EntryKind, ws[j].kind))
  }

  lemma FirstKindSnoc(es: seq<Entry>, e: Entry, t: string)
    ensures First(es + [e], EntryKind, t) ==
      if First(es, EntryKind, t) >= 0 then First(es, EntryKind, t) else if e.kind == t then |es| else -1
  {
    assert (es + [e])[..|es|] == es;
  }

  lemma {:induction false} SetKeepsOrder(es: seq<Entry>, e: Entry, ws: seq<WalletInfo>)
    requires KindsInOrder(es, ws) && (First(es, EntryKind, e.kind) >= 0 ==> FindKind(ws, e.kind) >= 0)
    ensures KindsInOrder(es + [e], SetAddress(ws, e.kind, e.key, e.value))
  {
    KindsStay(es, e, ws);
    var at := FindKind(ws, e.kind);
    if at >= 0 {
      KindsSame(es + [e], ws, at, WalletInfo(e.kind, ws[at].addresses[e.key := e.value]));
    } else {
      FirstKindSnoc(es, e, e.kind);
      KindsPush(es + [e], ws, WalletInfo(e.kind, map[e.key := e.value]));
    }
  }

  lemma {:induction false} KindsSame(es: seq<Entry>, ws: seq<WalletInfo>, i: nat, w: WalletInfo)
    requires KindsInOrder(es, ws) && i < |ws| && w.kind == ws[i].kind
    ensures KindsInOrder(es, ws[i := w])
  {
  }

  lemma {:induction false} KindsPush(es: seq<Entry>, ws: seq<WalletInfo>, w: WalletInfo)
    requires KindsInOrder(es, ws) && es != [] && First(es, EntryKind, w.kind) == |es| - 1
    requires forall v | v in ws :: First(es, EntryKind, v.kind) < |es| - 1
    ensures KindsInOrder(es, ws + [w])
  {
  }

  lemma {:induction false} KindsStay(es: seq<Entry>, e: Entry, ws: seq<WalletInfo>)
    requires KindsInOrder(es, ws)
    ensures KindsInOrder(es + [e], ws) && forall w | w in ws :: First(es + [e], EntryKind, w.kind) < |es|
  {
    forall i | 0 <= i < |ws| ensures First(es + [e], EntryKind, ws[i].kind) == First(es, EntryKind, ws[i].kind) {
      FirstKindSnoc(es, e, ws[i].kind);
    }
  }

  lemma {:induction false} SavedKinds(es: seq<Entry>, t: string)
    ensures FindKind(SavedWallets(es), t) >= 0 <==> First(es, EntryKind, t) >= 0
  {
    if es != [] {
      var n, e := |es| - 1, es[|es| - 1];
      SavedKinds(es[..n], t);
      var before := SavedWallets(es[..n]);
      var at := FindKind(before, e.kind);
      if at >= 0 {
        FirstAfterUpdate(before, WalletKind, t, at, WalletInfo(e.kind, before[at].addresses[e.key := e.value]));
      } else {
        FindKindAfterPush(before, WalletInfo(e.kind, map[e.key := e.value]), t);
      }
      FirstKindSnoc(es[..n], e, t);
      assert es == es[..n] + [e];
    }
  }

  // Wallet infos are saved in the order in which their types first occur.
  lemma {:induction false} SavedInOrder(es: seq<Entry>)
    ensures KindsInOrder(es, SavedWallets(es))
  {
    if es != [] {
      var n := |es| - 1;
      SavedInOrder(es[..n]);
      SavedKinds(es[..n], es[n].kind);
      SetKeepsOrder(es[..n], es[n], SavedWallets(es[..n]));
      assert es == es[..n] + [es[n]];
    }
  }

  function Occurrences(ts: seq<string>, t: string): nat {
    multiset(ts)[t]
  }

  // How often an entry comes back: as often as its type is scanned.
  lemma {:induction false} PopulatedCount(ws: seq<WalletInfo>, scan: seq<string>, e: Entry)
    requires DistinctKinds(ws)
    ensures multiset(Populated(ws, scan))[e] ==
      if (e.kind, e.key) in AddressesOf(ws) && AddressesOf(ws)[(e.kind, e.key)] == e.value
      then Occurrences(scan, e.kind) else 0
  {
    if scan != [] {
      var n := |scan| - 1;
      PopulatedCount(ws, scan[..n], e);
      ListedCount(scan[n], Under(ws, scan[n]), e);
      AddressesAt(ws, e.kind, e.key);
      assert scan == scan[..n] + [scan[n]];
      assert multiset(scan) == multiset(scan[..n]) + multiset{scan[n]};
    }
  }

  lemma {:induction false} EntryCount(es: seq<Entry>, e: Entry)
    requires PairsDistinct(es)
    ensures multiset(es)[e] == if e in es then 1 else 0
  {
    if es != [] {
      var n := |es| - 1;
      EntryCount(es[..n], e);
      assert es == es[..n] + [es[n]];
      assert multiset(es) == multiset(es[..n]) + multiset{es[n]};
      assert es[n] !in es[..n];
    }
  }

  lemma SameCounts(a: multiset<Entry>, b: multiset<Entry>)
    requires forall e :: a[e] == b[e]
    ensures a == b
  {
  }

  lemma BackCount(es: seq<Entry>, scan: seq<string>, e: Entry)
    requires PairsDistinct(es)
    ensures multiset(Populated(SavedWallets(es), scan))[e] == if e in es then Occurrences(scan, e.kind) else 0
    ensures multiset(es)[e] == if e in es then 1 else 0
  {
    SavedWalletsOk(es);
    PopulatedCount(SavedWallets(es), scan, e);
    EntryCount(es, e);
    PairsInFrom(es, (e.kind, e.key));
    if e in es { PairsInOf(es, e); }
  }

  // Save then reload loses nothing and invents nothing, up to order, exactly when
  // every entry's type is scanned once.
  lemma SaveThenReload(es: seq<Entry>, scan: seq<string>)
    requires PairsDistinct(es)
    ensures multiset(Populated(SavedWallets(es), scan)) == multiset(es)
       <==> forall e | e in es :: Occurrences(scan, e.kind) == 1
  {
    var back, was := multiset(Populated(SavedWallets(es), scan)), multiset(es);
    if forall e | e in es :: Occurrences(scan, e.kind) == 1 {
      forall e ensures back[e] == was[e] { BackCount(es, scan, e); }
      SameCounts(back, was);
    }
    if back == was {
      forall e | e in es ensures Occurrences(scan, e.kind) == 1 { BackCount(es, scan, e); }
    }
  }

  // For any entries, repeated or contradicting one another: exactly when each has
  // the value saved last for its pair and is there as often as its type is scanned.
  lemma SaveReloadExactly(es: seq<Entry>, scan: seq<string>)
    ensures multiset(Populated(SavedWallets(es), scan)) == multiset(es)
       <==> forall e | e in es :: LastOfPair(es, e) && multiset(es)[e] == Occurrences(scan, e.kind)
  {
    var back, was := multiset(Populated(SavedWallets(es), scan)), multiset(es);
    SavedWalletsOk(es);
    forall e ensures back[e] == if LastOfPair(es, e) then Occurrences(scan, e.kind) else 0 {
      PopulatedCount(SavedWallets(es), scan, e);
    }
    forall e ensures was[e] == 0 <==> e !in es {}
    if forall e | e in es :: LastOfPair(es, e) && was[e] == Occurrences(scan, e.kind) {
      forall e ensures back[e] == was[e] {
        PairsInFrom(es, (e.kind, e.key));
      }
      SameCounts(back, was);
    }
  }

  // e is what save leaves under its type and key.
  ghost predicate LastOfPair(es: seq<Entry>, e: Entry) {
    (e.kind, e.key) in PairsIn(es) && PairsIn(es)[(e.kind, e.key)] == e.value
  }

  // Strings in the order in which they first occur in cs.
  ghost predicate ByFirst(cs: seq<string>, saved: seq<string>) {
    (forall i | 0 <= i < |saved| :: saved[i] in cs) &&
    forall i, j | 0 <= i < j < |saved| :: Position(cs, saved[i]) < Position(cs, saved[j])
  }

  lemma AddKeepsOrder(cs: seq<string>, c: string, saved: seq<string>)
    requires ByFirst(cs, saved) && (c in cs ==> c in saved)
    ensures ByFirst(cs + [c], AddIfNew(saved, c))
  {
    var after := AddIfNew(saved, c);
    forall i | 0 <= i < |after|
      ensures Position(cs + [c], after[i]) == if i < |saved| then Position(cs, saved[i]) else |cs|
    {
      PositionSnoc(cs, c, after[i]);
    }
  }

  // Categories are saved once each, in the order in which they first occur.
  lemma {:induction false} CategoriesInOrder(cs: seq<string>)
    ensures (forall c :: c in SavedCategories(cs) <==> c in cs) && ByFirst(cs, SavedCategories(cs))
  {
    if cs != [] {
      var n := |cs| - 1;
      CategoriesInOrder(cs[..n]);
      AddKeepsOrder(cs[..n], cs[n], SavedCategories(cs[..n]));
      assert cs == cs[..n] + [cs[n]];
    }
  }

  // They come back unchanged exactly when none is repeated.
  lemma {:induction false} CategoriesComeBack(cs: seq<string>)
    ensures NoRepeats(SavedCategories(cs)) && (forall c :: c in SavedCategories(cs) <==> c in cs)
    ensures SavedCategories(cs) == cs <==> NoRepeats(cs)
  {
    if cs != [] {
      var n := |cs| - 1;
      CategoriesComeBack(cs[..n]);
      assert cs == cs[..n] + [cs[n]];
      var saved := SavedCategories(cs[..n]);
      if cs[n] in saved {
        SavedNotLonger(cs[..n]);
        var i :| 0 <= i < n && cs[..n][i] == cs[n];
        assert cs[i] == cs[n];
      } else {
        assert NoRepeats(cs) ==> NoRepeats(cs[..n]);
        if saved + [cs[n]] == cs {
          assert saved == (saved + [cs[n]])[..|saved|];
        }
      }
    }
  }

  lemma {:induction false} SavedNotLonger(cs: seq<string>)
    ensures |SavedCategories(cs)| <= |cs|
  {
    if cs != [] { SavedNotLonger(cs[..|cs| - 1]); }
  }

  // ------------------------------------------------------- reload, save, reload

  // What populate reads depends on the abstract map alone.
  lemma {:induction false} PopulatedCanonical(ws: seq<WalletInfo>, ws': seq<WalletInfo>, scan: seq<string>)
    requires forall t | t in scan :: Under(ws, t) == Under(ws', t)
    ensures Populated(ws, scan) == Populated(ws', scan)
  {
    if scan != [] {
      assert forall t | t in scan[..|scan| - 1] :: t in scan;
      PopulatedCanonical(ws, ws', scan[..|scan| - 1]);
    }
  }

  lemma {:induction false} PairsAppend(es: seq<Entry>, more: seq<Entry>)
    ensures PairsIn(es + more) == PairsIn(es) + PairsIn(more)
  {
    if more == [] {
      assert es + more == es;
    } else {
      var n := |more| - 1;
      assert (es + more)[..|es + more| - 1] == es + more[..n];
      PairsAppend(es, more[..n]);
    }
  }

  lemma ListedPairs(kind: string, m: map<string, string>)
    ensures PairsIn(Listed(kind, m)) == map k | k in m :: (kind, k) := m[k]
  {
    var es := Listed(kind, m);
    var expected: Addresses := map k | k in m :: (kind, k) := m[k];
    ListedAscends(kind, m);
    forall i, j | 0 <= i < j < |es| ensures es[i].key != es[j].key {
      LessTotal(es[i].key, es[j].key);
    }
    forall p ensures p in PairsIn(es) <==> p in expected
      ensures p in expected ==> PairsIn(es)[p] == expected[p]
    {
      PairsInFrom(es, p);
      if p in expected {
        var e := Entry(kind, p.1, m[p.1]);
        ListedCount(kind, m, e);
        assert e in multiset(es);
        PairsInOf(es, e);
        assert p == (p.0, p.1);
      }
    }
  }

  lemma {:induction false} PopulatedPairsAt(ws: seq<WalletInfo>, scan: seq<string>, kind: string, key: string)
    requires DistinctKinds(ws)
    ensures (kind, key) in PairsIn(Populated(ws, scan)) <==> (kind, key) in AddressesOf(ws) && kind in scan
    ensures (kind, key) in PairsIn(Populated(ws, scan)) ==>
              PairsIn(Populated(ws, scan))[(kind, key)] == AddressesOf(ws)[(kind, key)]
  {
    if scan != [] {
      var n := |scan| - 1;
      PopulatedPairsAt(ws, scan[..n], kind, key);
      PairsAppend(Populated(ws, scan[..n]), Listed(scan[n], Under(ws, scan[n])));
      ListedPairs(scan[n], Under(ws, scan[n]));
      AddressesAt(ws, kind, key);
      assert kind in scan <==> kind in scan[..n] || kind == scan[n];
    }
  }

  // A reload sees the pairs whose type is scanned.
  lemma PopulatedPairs(ws: seq<WalletInfo>, scan: seq<string>)
    requires DistinctKinds(ws)
    ensures PairsIn(Populated(ws, scan)) == map p | p in AddressesOf(ws) && p.0 in scan :: AddressesOf(ws)[p]
  {
    var m, a := PairsIn(Populated(ws, scan)), AddressesOf(ws);
    forall p ensures p in m <==> p in a && p.0 in scan
      ensures p in m ==> m[p] == a[p]
    {
      PopulatedPairsAt(ws, scan, p.0, p.1);
      assert p == (p.0, p.1);
    }
  }

  // Reload followed by save drops exactly the addresses of unscanned types.
  lemma ReloadThenSave(ws: seq<WalletInfo>, scan: seq<string>)
    requires WalletsOk(ws)
    ensures var ws' := SavedWallets(Populated(ws, scan));
      WalletsOk(ws') && AddressesOf(ws') == map p | p in AddressesOf(ws) && p.0 in scan :: AddressesOf(ws)[p]
  {
    SavedWalletsOk(Populated(ws, scan));
    PopulatedPairs(ws, scan);
  }

  // Reload, save, reload: the second reload reads the entry sequence of the first.
  lemma ReloadSaveReload(ws: seq<WalletInfo>, scan: seq<string>)
    requires WalletsOk(ws)
    ensures Populated(SavedWallets(Populated(ws, scan)), scan) == Populated(ws, scan)
  {
    var ws' := SavedWallets(Populated(ws, scan));
    ReloadThenSave(ws, scan);
    forall t | t in scan ensures Under(ws', t) == Under(ws, t) {
      SameUnder(ws', ws, t);
    }
    PopulatedCanonical(ws', ws, scan);
  }

  lemma SameUnder(ws': seq<WalletInfo>, ws: seq<WalletInfo>, t: string)
    requires DistinctKinds(ws') && DistinctKinds(ws)
    requires forall k :: (t, k) in AddressesOf(ws') <==> (t, k) in AddressesOf(ws)
    requires forall k | (t, k) in AddressesOf(ws) :: AddressesOf(ws')[(t, k)] == AddressesOf(ws)[(t, k)]
    ensures Under(ws', t) == Under(ws, t)
  {
    forall k ensures k in Under(ws', t) <==> k in Under(ws, t)
      ensures k in Under(ws, t) ==> Under(ws', t)[k] == Under(ws, t)[k]
    {
      AddressesAt(ws', t, k);
      AddressesAt(ws, t, k);
    }
  }
}
