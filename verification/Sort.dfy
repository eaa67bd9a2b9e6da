/** Comb sort and binary search over any array whose elements have keys. */
module Sort {

  ghost predicate Sorted<T>(s: seq<T>, key: T -> int) {
    forall i, j :: 0 <= i < j < |s| ==> key(s[i]) <= key(s[j])
  }

  ghost predicate Unique<T>(s: seq<T>, key: T -> int) {
    forall i, j :: 0 <= i < j < |s| ==> key(s[i]) != key(s[j])
  }

  function Swapped<T>(s: seq<T>, i: nat, j: nat): seq<T>
    requires i < |s| && j < |s|
  {
    s[i := s[j]][j := s[i]]
  }

  lemma SwapPermutes<T>(s: seq<T>, i: nat, j: nat)
    requires i < |s| && j < |s|
    ensures multiset(Swapped(s, i, j)) == multiset(s)
  {
  }

  /** Keys are unique or not whatever the order. */
  lemma UniquePermutes<T>(s: seq<T>, t: seq<T>, key: T -> int)
    requires multiset(s) == multiset(t) && Unique(s, key)
    ensures Unique(t, key)
  {
    forall i, j | 0 <= i < j < |t| ensures key(t[i]) != key(t[j]) {
      var x, y := t[i], t[j];
      assert t == t[..i] + [x] + t[i + 1..j] + [y] + t[j + 1..];
      assert multiset(t)[x] >= 1 && multiset(t)[y] >= 1;
      assert x in multiset(s) && y in multiset(s);
      if x == y {
        assert multiset(s)[x] >= 2;
        Twice(s, x);
      } else {
        var a :| 0 <= a < |s| && s[a] == x;
        var b :| 0 <= b < |s| && s[b] == y;
        if a < b { assert key(s[a]) != key(s[b]); } else { assert key(s[b]) != key(s[a]); }
      }
    }
  }

  lemma {:induction false} Twice<T>(s: seq<T>, x: T)
    requires multiset(s)[x] >= 2
    ensures exists i, j :: 0 <= i < j < |s| && s[i] == x && s[j] == x
  {
    var n := |s| - 1;
    assert s == s[..n] + [s[n]];
    if s[n] == x {
      assert x in multiset(s[..n]);
      var i :| 0 <= i < n && s[..n][i] == x;
      assert s[i] == x && s[n] == x;
    } else {
      Twice(s[..n], x);
      var i, j :| 0 <= i < j < n && s[..n][i] == x && s[..n][j] == x;
      assert s[i] == x && s[j] == x;
    }
  }

  // ---------------------------------------------------------------------------
  // Inversions
  // ---------------------------------------------------------------------------

  /** How many elements have a key above `k`. */
  ghost function Above<T>(s: seq<T>, k: int, key: T -> int): nat {
    if s == [] then 0
    else
      var n := |s| - 1;
      Above(s[..n], k, key) + if key(s[n]) > k then 1 else 0
  }

  /** How many pairs are out of order. */
  ghost function Inversions<T>(s: seq<T>, key: T -> int): nat {
    if s == [] then 0
    else
      var n := |s| - 1;
      Inversions(s[..n], key) + Above(s[..n], key(s[n]), key)
  }

  lemma {:induction false} AboveSwap<T>(s: seq<T>, i: nat, k: int, key: T -> int)
    requires i + 1 < |s|
    ensures Above(Swapped(s, i, i + 1), k, key) == Above(s, k, key)
  {
    var n, t := |s| - 1, Swapped(s, i, i + 1);
    if i + 1 == n {
      assert s[..n][..i] == t[..n][..i];
    } else {
      assert t[..n] == Swapped(s[..n], i, i + 1);
      AboveSwap(s[..n], i, k, key);
    }
  }

  /** Putting two neighbours in order removes one inversion. */
  lemma {:induction false} SwapNeighbours<T>(s: seq<T>, i: nat, key: T -> int)
    requires i + 1 < |s| && key(s[i]) > key(s[i + 1])
    ensures Inversions(Swapped(s, i, i + 1), key) == Inversions(s, key) - 1
  {
    var n, t := |s| - 1, Swapped(s, i, i + 1);
    if i + 1 == n {
      assert s[..n][..i] == t[..n][..i];
    } else {
      assert t[..n] == Swapped(s[..n], i, i + 1);
      SwapNeighbours(s[..n], i, key);
      AboveSwap(s[..n], i, key(s[n]), key);
    }
  }

  // ---------------------------------------------------------------------------
  // Sorting
  // ---------------------------------------------------------------------------

  /** The first `n` elements are in order with those `gap` further on. */
  ghost predicate InOrder<T>(s: seq<T>, gap: nat, n: nat, unique: bool, key: T -> int) {
    forall k :: 0 <= k < n && k + gap < |s| ==>
      key(s[k]) <= key(s[k + gap]) && (unique ==> key(s[k]) != key(s[k + gap]))
  }

  lemma InOrderNone<T>(s: seq<T>, gap: nat, unique: bool, key: T -> int)
    ensures InOrder(s, gap, 0, unique, key)
  {
  }

  lemma InOrderMore<T>(s: seq<T>, gap: nat, n: nat, unique: bool, key: T -> int)
    requires InOrder(s, gap, n, unique, key) && n + gap < |s|
    requires key(s[n]) <= key(s[n + gap]) && (unique ==> key(s[n]) != key(s[n + gap]))
    ensures InOrder(s, gap, n + 1, unique, key)
  {
  }

  lemma Same<T>(s: seq<T>, i: nat, j: nat, key: T -> int)
    requires i < j < |s| && key(s[i]) == key(s[j])
    ensures !Unique(s, key)
  {
  }

  /** One pass: compare, and put in order, all elements `gap` apart. */
  method Pass<T>(a: array<T>, gap: nat, unique: bool, key: T -> int) returns (ok: bool, swapped: bool)
    requires gap >= 1
    modifies a
    ensures multiset(a[..]) == multiset(old(a[..]))
    ensures !ok ==> unique && !Unique(a[..], key)
    ensures ok && !swapped ==> a[..] == old(a[..]) && forall n: nat :: n + gap <= a.Length ==>
            InOrder(a[..], gap, n, unique, key)
    ensures gap == 1 && ok && swapped ==> Inversions(a[..], key) < Inversions(old(a[..]), key)
  {
    hide Inversions, Unique, InOrder, Swapped;
    ok, swapped := true, false;
    var i, j := 0, gap;
    InOrderNone(a[..], gap, unique, key);
    while j < a.Length
      invariant j == i + gap && multiset(a[..]) == multiset(old(a[..]))
      invariant !swapped ==> a[..] == old(a[..]) && InOrder(a[..], gap, i, unique, key)
      invariant gap == 1 ==> Inversions(a[..], key) <= Inversions(old(a[..]), key) - if swapped then 1 else 0
    {
      ghost var s := a[..];
      if key(a[i]) == key(a[j]) && unique {
        Same(s, i, j, key);
        ok := false;
        return;
      }
      if key(a[i]) > key(a[j]) {
        a[i], a[j] := a[j], a[i];
        SwapIs(s, a[..], i, j);
        SwapPermutes(s, i, j);
        if gap == 1 { SwapNeighbours(s, i, key); }
        swapped := true;
      } else if !swapped {
        InOrderMore(s, gap, i, unique, key);
      }
      i, j := i + 1, j + 1;
    }
    if !swapped {
      forall n: nat | n + gap <= a.Length
        ensures InOrder(a[..], gap, n, unique, key) { InOrderLess(a[..], gap, i, n, unique, key); }
    }
  }

  lemma InOrderLess<T>(s: seq<T>, gap: nat, n: nat, m: nat, unique: bool, key: T -> int)
    requires InOrder(s, gap, n, unique, key) && (m <= n || n + gap >= |s|)
    ensures InOrder(s, gap, m, unique, key)
  {
  }

  lemma SwapIs<T>(s: seq<T>, t: seq<T>, i: nat, j: nat)
    requires i < |s| && j < |s| && t == s[i := s[j]][j := s[i]]
    ensures t == Swapped(s, i, j)
  {
  }

  /** Neighbours in order make the whole in order. */
  lemma {:induction false} NeighboursSorted<T>(s: seq<T>, key: T -> int, i: nat, j: nat)
    requires i <= j < |s| && forall k :: 0 <= k < |s| - 1 ==> key(s[k]) <= key(s[k + 1])
    ensures key(s[i]) <= key(s[j])
    decreases j - i
  {
    if i < j { NeighboursSorted(s, key, i + 1, j); }
  }

  lemma NeighboursUnique<T>(s: seq<T>, key: T -> int)
    requires forall k :: 0 <= k < |s| - 1 ==> key(s[k]) < key(s[k + 1])
    ensures Unique(s, key)
  {
    forall i, j | 0 <= i < j < |s| ensures key(s[i]) != key(s[j]) { NeighboursSorted(s, key, i + 1, j); }
  }

  /** Sort the array; with `unique`, fail if two elements have the same key. */
  method ArraySort<T>(a: array<T>, unique: bool, key: T -> int) returns (ok: bool)
    modifies a
    ensures multiset(a[..]) == multiset(old(a[..]))
    ensures ok <==> unique ==> Unique(old(a[..]), key)
    ensures ok ==> Sorted(a[..], key)
  {
    hide Inversions, Unique;
    var gap, swapped := a.Length, true;
    while gap > 1 || swapped
      invariant gap >= 0 && multiset(a[..]) == multiset(old(a[..]))
      invariant gap <= 1 && !swapped && a.Length >= 1 ==> InOrder(a[..], 1, a.Length - 1, unique, key)
      decreases if gap > 1 then gap else 1, if swapped then 1 + Inversions(a[..], key) else 0
    {
      gap := gap * 10 / 13;
      if gap == 9 || gap == 10 {
        gap := 11;
      }
      if gap < 1 {
        gap := 1;
      }
      ok, swapped := Pass(a, gap, unique, key);
      if !ok {
        if Unique(old(a[..]), key) { UniquePermutes(old(a[..]), a[..], key); }
        return;
      }
    }
    ok := true;
    assert forall k :: 0 <= k < |a[..]| - 1 ==>
             key(a[..][k]) <= key(a[..][k + 1]) && (unique ==> key(a[..][k]) != key(a[..][k + 1]));
    forall i, j | 0 <= i < j < |a[..]| ensures key(a[..][i]) <= key(a[..][j]) { NeighboursSorted(a[..], key, i, j); }
    if unique {
      NeighboursUnique(a[..], key);
      UniquePermutes(a[..], old(a[..]), key);
    }
  }

  // ---------------------------------------------------------------------------
  // Searching
  // ---------------------------------------------------------------------------

  /** The first element with key `k`, or -1. */
  method ArrayFind<T>(a: array<T>, k: int, key: T -> int) returns (at: int)
    requires a.Length > 0 && Sorted(a[..], key)
    ensures -1 <= at < a.Length
    ensures at >= 0 ==> key(a[at]) == k && forall i :: 0 <= i < at ==> key(a[i]) != k
    ensures at < 0 ==> forall i :: 0 <= i < a.Length ==> key(a[i]) != k
  {
    assert forall i, j :: 0 <= i < j < a.Length ==> a[..][i] == a[i] && a[..][j] == a[j] && key(a[i]) <= key(a[j]);
    var start, end, cur := 0, a.Length - 1, 0;
    var found := false;
    while start <= end
      invariant 0 <= start <= a.Length && -1 <= end < a.Length && 0 <= cur < a.Length
      invariant forall i :: 0 <= i < start ==> key(a[i]) < k
      invariant forall i :: end < i < a.Length ==> key(a[i]) > k
      invariant !found
      decreases end - start
    {
      cur := (start + end) / 2;
      if key(a[cur]) == k {
        found := true;
        break;
      }
      if key(a[cur]) < k {
        start := cur + 1;
      } else {
        end := cur - 1;
      }
    }
    if !found {
      return -1;
    }
    while cur > 0
      invariant 0 <= cur < a.Length && key(a[cur]) == k
    {
      if key(a[cur - 1]) != k {
        break;
      }
      cur := cur - 1;
    }
    at := cur;
  }
}
