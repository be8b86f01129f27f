// What several components share about lists.
module Lists {

  predicate NoRepeats(s: seq<string>) {
    forall i, j | 0 <= i < j < |s| :: s[i] != s[j]
  }

  // The first position whose element has key k, or -1.
  function First<T>(s: seq<T>, key: T -> string, k: string): (i: int)
    ensures -1 <= i < |s| && (i >= 0 ==> key(s[i]) == k)
  {
    if s == [] then -1
    else
      var n := |s| - 1;
      var i := First(s[..n], key, k);
      if i >= 0 then i else if key(s[n]) == k then n else -1
  }

  lemma {:induction false} FirstIsFirst<T>(s: seq<T>, key: T -> string, k: string, j: nat)
    requires j < |s| && key(s[j]) == k
    ensures 0 <= First(s, key, k) <= j
  {
    var n := |s| - 1;
    if j < n {
      FirstIsFirst(s[..n], key, k, j);
    }
  }

  lemma {:induction false} FirstAbsent<T>(s: seq<T>, key: T -> string, k: string)
    ensures First(s, key, k) == -1 <==> forall x | x in s :: key(x) != k
  {
    if s != [] {
      var n := |s| - 1;
      assert s == s[..n] + [s[n]];
      FirstAbsent(s[..n], key, k);
    }
  }

  // What a loop has found in the first n elements it has found in all.
  lemma {:induction false} FirstPrefix<T>(s: seq<T>, key: T -> string, k: string, n: nat)
    requires n <= |s| && First(s[..n], key, k) >= 0
    ensures First(s, key, k) == First(s[..n], key, k)
  {
    if n == |s| {
      assert s[..n] == s;
    } else {
      assert s[..|s| - 1][..n] == s[..n];
      FirstPrefix(s[..|s| - 1], key, k, n);
    }
  }

  lemma FirstBetween<T>(a: seq<T>, x: T, b: seq<T>, key: T -> string, k: string)
    requires key(x) == k && forall y | y in a :: key(y) != k
    ensures First(a + [x] + b, key, k) == |a| && (a + [x] + b)[|a|] == x
  {
    var all := a + [x] + b;
    FirstAbsent(a, key, k);
    assert all[..|a|] == a && all[..|a| + 1][..|a|] == a;
    assert First(all[..|a| + 1], key, k) == |a|;
    FirstPrefix(all, key, k, |a| + 1);
  }

  // Replacing an element by one of the same key moves nothing.
  lemma {:induction false} FirstAfterUpdate<T>(s: seq<T>, key: T -> string, k: string, i: nat, x: T)
    requires i < |s| && key(x) == key(s[i])
    ensures First(s[i := x], key, k) == First(s, key, k)
  {
    var n := |s| - 1;
    if i < n {
      assert s[i := x][..n] == s[..n][i := x];
      FirstAfterUpdate(s[..n], key, k, i, x);
    } else {
      assert s[i := x][..n] == s[..n];
    }
  }

  // The lists of a list, one after the other.
  function Flat<T>(parts: seq<seq<T>>): seq<T> {
    if parts == [] then [] else Flat(parts[..|parts| - 1]) + parts[|parts| - 1]
  }

  lemma Associate<T>(a: seq<T>, b: seq<T>, c: seq<T>)
    ensures a + b + c == a + (b + c)
  {
  }

  lemma {:induction false} FlatAppend<T>(a: seq<seq<T>>, b: seq<seq<T>>)
    ensures Flat(a + b) == Flat(a) + Flat(b)
  {
    if b == [] {
      assert a + b == a;
    } else {
      var n := |b| - 1;
      FlatAppend(a, b[..n]);
      var all := a + b;
      assert all[..|all| - 1] == a + b[..n] && all[|all| - 1] == b[n];
      Associate(Flat(a), Flat(b[..n]), b[n]);
    }
  }

  lemma FlatSnoc<T>(parts: seq<seq<T>>, last: seq<T>)
    ensures Flat(parts + [last]) == Flat(parts) + last
  {
    assert (parts + [last])[..|parts|] == parts;
  }
}
