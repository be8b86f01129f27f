// The lists enable_coins and disable_coins build for mm2.
module CoinLists {
  import opened Lists
  import Lifecycle

  const PRIMARY := Lifecycle.PRIMARY
  const SECONDARY := Lifecycle.SECONDARY

  // get_coin_info: the fields these two functions read.
  datatype CoinInfo = CoinInfo(ticker: string, hasParentFees: bool, feesTicker: string, enabled: bool, active: bool)

  // ------------------------------------------------------------------ enable_coins

  // The coin pays its fees in another one that is neither enabled nor about to be.
  predicate NeedsParent(info: string -> CoinInfo, coin: string) {
    var c := info(coin);
    c.hasParentFees && c.ticker != c.feesTicker && !info(c.feesTicker).enabled && !info(c.feesTicker).active
  }

  // The missing fee parents of a list of coins.
  function MissingParents(info: string -> CoinInfo, coins: seq<string>): set<string> {
    if coins == [] then {}
    else
      var n := |coins| - 1;
      var more := if NeedsParent(info, coins[n]) then {info(info(coins[n]).feesTicker).ticker} else {};
      MissingParents(info, coins[..n]) + more
  }

  lemma {:induction false} MissingParentsAre(info: string -> CoinInfo, coins: seq<string>, t: string)
    ensures t in MissingParents(info, coins) <==>
      exists c :: c in coins && info(c).hasParentFees && info(c).ticker != info(c).feesTicker &&
        var p := info(info(c).feesTicker); !p.enabled && !p.active && p.ticker == t
  {
    if coins != [] {
      var n := |coins| - 1;
      MissingParentsAre(info, coins[..n], t);
      assert coins == coins[..n] + [coins[n]];
    }
  }

  // `limit` is MaximumNbCoinsEnabled, `enabledCount` the coins enabled already.
  // The requested coins are passed on in order, followed by each missing fee
  // parent once, so every requested coin's parent is enabled, active or listed.
  // The limit is only checked against the requested coins: the list keeps to it
  // exactly when the parents fit as well.
  method EnableCoins(coins: seq<string>, info: string -> CoinInfo, enabledCount: nat, limit: nat)
    returns (ok: bool, list: seq<string>)
    ensures ok <==> |coins| + enabledCount <= limit
    ensures !ok ==> list == []
    ensures ok ==> coins <= list && NoRepeats(list[|coins|..])
    ensures ok ==> forall t ::
      t in list[|coins|..] <==>
      exists c :: c in coins && info(c).hasParentFees && info(c).ticker != info(c).feesTicker &&
        var p := info(info(c).feesTicker); !p.enabled && !p.active && p.ticker == t
    ensures ok ==> forall c | c in coins && info(c).hasParentFees && info(c).ticker != info(c).feesTicker ::
      var p := info(info(c).feesTicker); p.enabled || p.active || p.ticker in list
    ensures ok && (forall t :: info(t).ticker == t) ==>
      forall c | c in coins && info(c).hasParentFees && info(c).feesTicker != c ::
        var p := info(info(c).feesTicker); p.enabled || p.active || info(c).feesTicker in list
    ensures ok ==> (enabledCount + |list| <= limit <==> |MissingParents(info, coins)| <= limit - enabledCount - |coins|)
  {
    list := [];
    if limit < |coins| + enabledCount {
      return false, [];
    }
    var parents: set<string> := {};
    var i := 0;
    while i < |coins|
      invariant 0 <= i <= |coins| && list == coins[..i]
      invariant parents == MissingParents(info, coins[..i])
    {
      assert coins[..i + 1] == coins[..i] + [coins[i]];
      assert coins[..i + 1][..i] == coins[..i];
      var coin := info(coins[i]);
      if coin.hasParentFees && coin.ticker != coin.feesTicker {
        var parent := info(coin.feesTicker);
        if !parent.enabled && !parent.active {
          parents := parents + {parent.ticker};
        }
      }
      list := list + [coins[i]];
      i := i + 1;
    }
    assert coins[..i] == coins;
    list := AppendAll(list, parents);
    forall t ensures t in list[|coins|..] <==> t in MissingParents(info, coins) {}
    ParentsListed(coins, info, list);
    ok := true;
  }

  // What it means for the list that behind the coins it has their missing parents.
  lemma ParentsListed(coins: seq<string>, info: string -> CoinInfo, list: seq<string>)
    requires coins <= list && forall t :: t in list[|coins|..] <==> t in MissingParents(info, coins)
    ensures forall t ::
      t in list[|coins|..] <==>
      exists c :: c in coins && info(c).hasParentFees && info(c).ticker != info(c).feesTicker &&
        var p := info(info(c).feesTicker); !p.enabled && !p.active && p.ticker == t
    ensures forall c | c in coins && info(c).hasParentFees && info(c).ticker != info(c).feesTicker ::
      var p := info(info(c).feesTicker); p.enabled || p.active || p.ticker in list
  {
    forall t ensures t in list[|coins|..] <==> t in MissingParents(info, coins)
      ensures t in MissingParents(info, coins) <==>
        exists c :: c in coins && info(c).hasParentFees && info(c).ticker != info(c).feesTicker &&
          var p := info(info(c).feesTicker); !p.enabled && !p.active && p.ticker == t
    {
      MissingParentsAre(info, coins, t);
    }
    forall c | c in coins && info(c).hasParentFees && info(c).ticker != info(c).feesTicker
      ensures var p := info(info(c).feesTicker); p.enabled || p.active || p.ticker in list
    {
      var p := info(info(c).feesTicker);
      if !p.enabled && !p.active {
        assert p.ticker in list[|coins|..];
      }
    }
  }

  // for each element of an unordered_set: push_back
  method AppendAll(list: seq<string>, s: set<string>) returns (r: seq<string>)
    ensures list <= r && |r| == |list| + |s| && NoRepeats(r[|list|..])
    ensures forall t :: t in r[|list|..] <==> t in s
  {
    var tail: seq<string> := [];
    var left := s;
    while left != {}
      invariant left <= s && |tail| + |left| == |s| && NoRepeats(tail)
      invariant forall t :: t in tail <==> t in s && t !in left
      decreases |left|
    {
      var t :| t in left;
      tail := tail + [t];
      left := left - {t};
    }
    r := list + tail;
    assert r[|list|..] == tail;
  }

  // ----------------------------------------------------------------- disable_coins

  predicate Eligible(swapping: string -> bool, coin: string) {
    !swapping(coin) && coin != PRIMARY && coin != SECONDARY
  }

  // The eligible coins whose parent-fee flag is `flag`, in order.
  function Selected(coins: seq<string>, info: string -> CoinInfo, swapping: string -> bool, flag: bool): seq<string> {
    if coins == [] then []
    else
      var front, last := Selected(coins[..|coins| - 1], info, swapping, flag), coins[|coins| - 1];
      if Eligible(swapping, last) && info(last).hasParentFees == flag then front + [last] else front
  }

  function Reverse(s: seq<string>): seq<string> {
    if s == [] then [] else [s[|s| - 1]] + Reverse(s[..|s| - 1])
  }

  function DisableList(coins: seq<string>, info: string -> CoinInfo, swapping: string -> bool): seq<string> {
    Reverse(Selected(coins, info, swapping, true)) + Selected(coins, info, swapping, false)
  }

  // The first loop: push_front for a coin with the flag, push_back for another.
  method BuildDisableList(coins: seq<string>, info: string -> CoinInfo, swapping: string -> bool)
    returns (list: seq<string>)
    ensures list == DisableList(coins, info, swapping)
  {
    list := [];
    var i := 0;
    while i < |coins|
      invariant 0 <= i <= |coins| && list == DisableList(coins[..i], info, swapping)
    {
      assert coins[..i + 1][..i] == coins[..i];
      if !swapping(coins[i]) && coins[i] != PRIMARY && coins[i] != SECONDARY {
        if info(coins[i]).hasParentFees {
          ReverseSnoc(Selected(coins[..i], info, swapping, true), coins[i]);
          list := [coins[i]] + list;
        } else {
          list := list + [coins[i]];
        }
      }
      i := i + 1;
    }
    assert coins[..i] == coins;
  }

  // `current` is the ticker on display: it is moved off the disabled coins, to the
  // primary one, whenever that is enabled.
  method DisableCoins(
      coins: seq<string>, info: string -> CoinInfo, swapping: string -> bool, primaryEnabled: bool, current: string)
    returns (list: seq<string>, current': string)
    ensures list == DisableList(coins, info, swapping)
    ensures current' == if primaryEnabled && current in list then PRIMARY else current
    ensures primaryEnabled ==> current' !in list
  {
    list := BuildDisableList(coins, info, swapping);
    DisabledAreEligible(coins, info, swapping, PRIMARY);
    current' := SwitchTicker(list, primaryEnabled, current);
  }

  // the loop over the list, which reads the current ticker afresh each time
  method SwitchTicker(list: seq<string>, primaryEnabled: bool, current: string) returns (current': string)
    requires PRIMARY !in list
    ensures current' == if primaryEnabled && current in list then PRIMARY else current
  {
    current' := current;
    var i := 0;
    while i < |list|
      invariant 0 <= i <= |list|
      invariant current' == if primaryEnabled && current in list[..i] then PRIMARY else current
    {
      assert list[..i + 1] == list[..i] + [list[i]];
      assert list[i] in list;
      if current' == list[i] && primaryEnabled {
        current' := PRIMARY;
      }
      i := i + 1;
    }
    assert list[..i] == list;
  }

  lemma ReverseSnoc(s: seq<string>, x: string)
    ensures Reverse(s + [x]) == [x] + Reverse(s)
  {
    assert (s + [x])[..|s|] == s;
  }

  lemma {:induction false} ReverseSame(s: seq<string>)
    ensures multiset(Reverse(s)) == multiset(s)
  {
    if s != [] {
      var n := |s| - 1;
      ReverseSame(s[..n]);
      assert s == s[..n] + [s[n]];
    }
  }

  lemma {:induction false} SelectedCount(
      coins: seq<string>, info: string -> CoinInfo, swapping: string -> bool, flag: bool, c: string)
    ensures multiset(Selected(coins, info, swapping, flag))[c] ==
      if !swapping(c) && c != PRIMARY && c != SECONDARY && info(c).hasParentFees == flag then multiset(coins)[c] else 0
  {
    if coins != [] {
      var n := |coins| - 1;
      SelectedCount(coins[..n], info, swapping, flag, c);
      assert coins == coins[..n] + [coins[n]];
      assert multiset(coins) == multiset(coins[..n]) + multiset{coins[n]};
    }
  }

  lemma {:induction false} SelectedFlag(
      coins: seq<string>, info: string -> CoinInfo, swapping: string -> bool, flag: bool)
    ensures forall c | c in Selected(coins, info, swapping, flag) :: info(c).hasParentFees == flag
  {
    if coins != [] {
      SelectedFlag(coins[..|coins| - 1], info, swapping, flag);
    }
  }

  // Each coin is disabled as often as asked for, a default coin or one with a swap in
  // progress never.
  lemma DisabledAreEligible(coins: seq<string>, info: string -> CoinInfo, swapping: string -> bool, c: string)
    ensures multiset(DisableList(coins, info, swapping))[c] ==
      if swapping(c) || c == PRIMARY || c == SECONDARY then 0 else multiset(coins)[c]
    ensures c in DisableList(coins, info, swapping) <==> c in coins && !swapping(c) && c != PRIMARY && c != SECONDARY
  {
    var a, b := Selected(coins, info, swapping, true), Selected(coins, info, swapping, false);
    ReverseSame(a);
    SelectedCount(coins, info, swapping, true, c);
    SelectedCount(coins, info, swapping, false, c);
    var list := Reverse(a) + b;
    assert multiset(list) == multiset(a) + multiset(b);
    assert c in list <==> multiset(list)[c] > 0;
    assert c in coins <==> multiset(coins)[c] > 0;
  }

  // The coins that carry the parent-fee flag come before those that do not.
  lemma FlaggedFirst(coins: seq<string>, info: string -> CoinInfo, swapping: string -> bool)
    ensures var list, flagged := DisableList(coins, info, swapping), |Selected(coins, info, swapping, true)|;
      flagged <= |list| && (forall i | 0 <= i < |list| :: info(list[i]).hasParentFees <==> i < flagged) &&
      forall i, j | 0 <= i < j < |list| && info(list[j]).hasParentFees :: info(list[i]).hasParentFees
  {
    var a, b := Selected(coins, info, swapping, true), Selected(coins, info, swapping, false);
    SelectedFlag(coins, info, swapping, true);
    SelectedFlag(coins, info, swapping, false);
    ReverseSame(a);
    assert |multiset(Reverse(a))| == |multiset(a)|;
    var list := DisableList(coins, info, swapping);
    forall i | 0 <= i < |list| ensures info(list[i]).hasParentFees <==> i < |a| {
      if i < |a| {
        assert list[i] in multiset(Reverse(a));
        assert list[i] in a;
      } else {
        assert list[i] == b[i - |a|];
      }
    }
  }

  ghost predicate ComesBefore(list: seq<string>, x: string, y: string) {
    exists i, j :: 0 <= i < j < |list| && list[i] == x && list[j] == y
  }

  ghost predicate Once(list: seq<string>, x: string) {
    x in list && forall i, j | 0 <= i < |list| && 0 <= j < |list| && list[i] == x && list[j] == x :: i == j
  }

  // One coin more: to the front if flagged, to the back if not.
  lemma DisableNext(coins: seq<string>, info: string -> CoinInfo, swapping: string -> bool)
    requires coins != []
    ensures var front, last := DisableList(coins[..|coins| - 1], info, swapping), coins[|coins| - 1];
      DisableList(coins, info, swapping) ==
        if swapping(last) || last == PRIMARY || last == SECONDARY then front
        else if info(last).hasParentFees then [last] + front
        else front + [last]
  {
    ReverseSnoc(Selected(coins[..|coins| - 1], info, swapping, true), coins[|coins| - 1]);
  }

  lemma BeforeCons(z: string, list: seq<string>, x: string, y: string)
    requires z != y
    ensures ComesBefore([z] + list, x, y) <==> (z == x && y in list) || ComesBefore(list, x, y)
  {
    var all := [z] + list;
    if ComesBefore(all, x, y) {
      var i, j :| 0 <= i < j < |all| && all[i] == x && all[j] == y;
      assert list[j - 1] == y;
      if i > 0 { assert list[i - 1] == x; }
    }
    if z == x && y in list {
      var j :| 0 <= j < |list| && list[j] == y;
      assert all[0] == x && all[j + 1] == y;
    }
    if ComesBefore(list, x, y) {
      var i, j :| 0 <= i < j < |list| && list[i] == x && list[j] == y;
      assert all[i + 1] == x && all[j + 1] == y;
    }
  }

  lemma BeforeSnoc(list: seq<string>, z: string, x: string, y: string)
    requires z != x
    ensures ComesBefore(list + [z], x, y) <==> (z == y && x in list) || ComesBefore(list, x, y)
  {
    var all := list + [z];
    if ComesBefore(all, x, y) {
      var i, j :| 0 <= i < j < |all| && all[i] == x && all[j] == y;
      assert list[i] == x;
      if j < |list| { assert list[j] == y; }
    }
    if z == y && x in list {
      var i :| 0 <= i < |list| && list[i] == x;
      assert all[i] == x && all[|list|] == y;
    }
    if ComesBefore(list, x, y) {
      var i, j :| 0 <= i < j < |list| && list[i] == x && list[j] == y;
      assert all[i] == x && all[j] == y;
    }
  }

  lemma OnceNext(list: seq<string>, x: string)
    requires list != [] && Once(list, x)
    ensures if list[|list| - 1] == x then x !in list[..|list| - 1] else Once(list[..|list| - 1], x)
  {
    var n := |list| - 1;
    assert list == list[..n] + [list[n]];
    if list[n] == x {
      forall i | 0 <= i < n ensures list[..n][i] != x {
        assert list[..n][i] == list[i];
      }
    }
  }

  lemma NotBefore(list: seq<string>, x: string, y: string)
    requires x !in list || y !in list
    ensures !ComesBefore(list, x, y)
  {
    forall i, j | 0 <= i < j < |list| ensures list[i] != x || list[j] != y {
      assert list[i] in list && list[j] in list;
    }
  }

  // Of two coins, each asked for once and disabled, the first is the one with the
  // flag if only one has it; the one asked for later if both have it; the one asked
  // for earlier if neither has.
  lemma {:induction false} OrderExactly(
      coins: seq<string>, info: string -> CoinInfo, swapping: string -> bool, x: string, y: string)
    requires x != y && Once(coins, x) && Once(coins, y)
    requires !swapping(x) && x != PRIMARY && x != SECONDARY && !swapping(y) && y != PRIMARY && y != SECONDARY
    ensures ComesBefore(DisableList(coins, info, swapping), x, y) <==>
      if info(x).hasParentFees then !info(y).hasParentFees || ComesBefore(coins, y, x)
      else !info(y).hasParentFees && ComesBefore(coins, x, y)
  {
    var n := |coins| - 1;
    var front, last, list := coins[..n], coins[n], DisableList(coins[..n], info, swapping);
    assert coins == front + [last];
    DisableNext(coins, info, swapping);
    OnceNext(coins, x);
    OnceNext(coins, y);
    DisabledAreEligible(front, info, swapping, x);
    DisabledAreEligible(front, info, swapping, y);
    if last == x {
      LastPlaced(list, front, x, y);
    } else if last == y {
      LastPlaced(list, front, y, x);
    } else {
      OrderExactly(front, info, swapping, x, y);
      BeforeCons(last, list, x, y);
      BeforeSnoc(list, last, x, y);
      BeforeSnoc(front, last, y, x);
      BeforeSnoc(front, last, x, y);
    }
  }

  // Where x comes to stand, against y, at the front of the list or at its end.
  lemma LastPlaced(list: seq<string>, front: seq<string>, x: string, y: string)
    requires x != y && x !in front && y in front && x !in list && y in list
    ensures ComesBefore([x] + list, x, y) && !ComesBefore([x] + list, y, x)
    ensures ComesBefore(list + [x], y, x) && !ComesBefore(list + [x], x, y)
    ensures ComesBefore(front + [x], y, x) && !ComesBefore(front + [x], x, y)
  {
    NotBefore(list, x, y);
    BeforeCons(x, list, x, y);
    FirstIsNotAfter(list, x, y);
    LastIsAfter(list, y, x);
    LastIsNotBefore(list, x, y);
    LastIsAfter(front, y, x);
    LastIsNotBefore(front, x, y);
  }

  // A token and the other coin it pays its fees in: the token is disabled first
  // exactly if its parent does not carry the flag, or was asked for before it.
  lemma TokenBeforeParent(
      coins: seq<string>, info: string -> CoinInfo, swapping: string -> bool, token: string, parent: string)
    requires info(token).hasParentFees && token != parent && Once(coins, token) && Once(coins, parent)
    requires !swapping(token) && token != PRIMARY && token != SECONDARY
    requires !swapping(parent) && parent != PRIMARY && parent != SECONDARY
    ensures ComesBefore(DisableList(coins, info, swapping), token, parent)
            <==> !info(parent).hasParentFees || ComesBefore(coins, parent, token)
  {
    OrderExactly(coins, info, swapping, token, parent);
  }

  lemma LastIsAfter(list: seq<string>, x: string, y: string)
    requires x in list
    ensures ComesBefore(list + [y], x, y)
  {
    var i :| 0 <= i < |list| && list[i] == x;
    assert (list + [y])[i] == x && (list + [y])[|list|] == y;
  }

  // What is first, and nowhere else, has nothing before it.
  lemma FirstIsNotAfter(list: seq<string>, x: string, y: string)
    requires x !in list
    ensures !ComesBefore([x] + list, y, x)
  {
    var all := [x] + list;
    forall j | 0 < j < |all| ensures all[j] != x {
      assert all[j] == list[j - 1] && list[j - 1] in list;
    }
  }

  // What is last, and nowhere else, has nothing after it.
  lemma LastIsNotBefore(list: seq<string>, x: string, y: string)
    requires x !in list
    ensures !ComesBefore(list + [x], x, y)
  {
    var all := list + [x];
    forall i | 0 <= i < |list| ensures all[i] != x {
      assert all[i] == list[i] && list[i] in list;
    }
  }

  // A coin can carry the flag and still be its own fee coin, as the base coin of
  // a token protocol does: asked for after its token, it is disabled before it.
  lemma ParentBeforeToken()
    ensures var info := (c: string) => CoinInfo(c, true, "ETH", true, true);
      info("USDT-ERC20").feesTicker == info("ETH").feesTicker == "ETH" &&
      DisableList(["USDT-ERC20", "ETH"], info, _ => false) == ["ETH", "USDT-ERC20"]
  {
    var info := (c: string) => CoinInfo(c, true, "ETH", true, true);
    var coins := ["USDT-ERC20", "ETH"];
    assert coins[..1] == ["USDT-ERC20"] && coins[..1][..0] == [];
    DisableNext(coins[..1], info, _ => false);
    DisableNext(coins, info, _ => false);
    assert DisableList([], info, _ => false) == [];
  }
}
