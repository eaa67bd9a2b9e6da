/** A cache of reference-counted items: busy ones are held, idle ones are kept in the order
    of their last release until the cache is full. */
module Lru {
  import opened Sequences

  type Id = nat
  type Key = nat

  /** One reference is the hash table's, the others are holders'. */
  datatype Item = Item(key: Key, ref: nat, evicted: bool)

  datatype Rc = Ok | NonExist | NoMem

  datatype Op = DoHold(key: Key, create: bool, memory: bool) | DoRelease(x: Id) | DoRefEvict(x: Id)
      | DoEvict(xs: set<Id>)

  function Without(s: seq<Id>, x: Id): (r: seq<Id>)
    ensures forall y :: y in r <==> y in s && y != x
    ensures |r| <= |s|
  {
    if s == [] then [] else if s[0] == x then Without(s[1..], x) else [s[0]] + Without(s[1..], x)
  }

  lemma {:induction false} WithoutDistinct(s: seq<Id>, x: Id)
    requires Distinct(s)
    ensures Distinct(Without(s, x)) && |Without(s, x)| == |s| - if x in s then 1 else 0
  {
    if s != [] {
      assert Distinct(s[1..]);
      WithoutDistinct(s[1..], x);
      var r := Without(s[1..], x);
      assert s == [s[0]] + s[1..];
      if s[0] == x {
        assert x !in s[1..];
      } else {
        forall i, j | 0 <= i < j < |[s[0]] + r| ensures ([s[0]] + r)[i] != ([s[0]] + r)[j] {
          if i == 0 { assert r[j - 1] in s[1..]; }
        }
      }
    }
  }

  /** Each release is later than those before: `last` descends along the idle list. */
  ghost predicate Recent(s: seq<Id>, last: map<Id, nat>) {
    && (forall x :: x in s ==> x in last)
    && forall i, j :: 0 <= i < j < |s| ==> last[s[i]] > last[s[j]]
  }

  lemma {:induction false} WithoutRecent(s: seq<Id>, x: Id, last: map<Id, nat>)
    requires Recent(s, last)
    ensures Recent(Without(s, x), last)
  {
    if s != [] {
      assert Recent(s[1..], last) by { assert forall y :: y in s[1..] ==> y in s; }
      WithoutRecent(s[1..], x, last);
      if s[0] != x {
        LatestFirst(s, last);
        RecentMore(s[0], Without(s[1..], x), last);
      }
    }
  }

  lemma LatestFirst(s: seq<Id>, last: map<Id, nat>)
    requires Recent(s, last) && s != []
    ensures s[0] in last && forall y :: y in s[1..] ==> y in last && last[y] < last[s[0]]
  {
    forall y | y in s[1..] ensures y in last && last[y] < last[s[0]] {
      var k :| 0 <= k < |s[1..]| && s[1..][k] == y;
      assert s[k + 1] == y;
    }
  }

  lemma RecentMore(x: Id, s: seq<Id>, last: map<Id, nat>)
    requires Recent(s, last) && x in last && forall y :: y in s ==> y in last && last[y] < last[x]
    ensures Recent([x] + s, last)
  {
    var t := [x] + s;
    forall i, j | 0 <= i < j < |t| ensures last[t[i]] > last[t[j]] {
      assert t[j] == s[j - 1];
      if i > 0 { assert t[i] == s[i - 1]; }
    }
  }

  lemma {:induction false} WithoutNone(s: seq<Id>, x: Id)
    ensures x !in s ==> Without(s, x) == s
  {
    if s != [] { WithoutNone(s[1..], x); }
  }

  // ---------------------------------------------------------------------------
  // The invariant
  // ---------------------------------------------------------------------------

  /** `items` is the hash table; `holders` is who holds what, and `last` when an item was
      last released. */
  datatype State = State(items: map<Id, Item>, busy: seq<Id>, idle: seq<Id>, next: Id,
                         holders: multiset<Id>, last: map<Id, nat>, clock: nat)

  /** Every item is on one of the lists, once. */
  ghost predicate Listed(s: State) {
    && Distinct(s.busy) && Distinct(s.idle)
    && (forall x :: x in s.items <==> x in s.busy || x in s.idle)
    && (forall x :: x in s.busy ==> x !in s.idle)
  }

  /** References are one for the table and one for each holder; held items are the busy ones. */
  ghost predicate Counted(s: State) {
    && (forall x :: x in s.items ==> x < s.next && s.items[x].ref == 1 + s.holders[x])
    && (forall x :: x in s.busy ==> s.holders[x] > 0)
    && (forall x :: x in s.idle ==> s.holders[x] == 0)
    && (forall x :: x in s.holders ==> x in s.items)
  }

  /** Idle items are not evicted, and a key has one item that is not. */
  ghost predicate Keyed(s: State) {
    && (forall x :: x in s.idle && x in s.items ==> !s.items[x].evicted)
    && (forall x, y ::
          x in s.items && y in s.items && !s.items[x].evicted && !s.items[y].evicted && s.items[x].key == s.items[y].key
          ==> x == y)
  }

  /** The idle list is in the order of release, the latest first. */
  ghost predicate Ordered(s: State) {
    Recent(s.idle, s.last) && forall x :: x in s.last ==> s.last[x] < s.clock
  }

  ghost predicate Inv(s: State) {
    Listed(s) && Counted(s) && Keyed(s) && Ordered(s)
  }

  /** What a lookup by key is to find. */
  ghost predicate Finds(s: State, key: Key, x: Id) {
    x in s.items && s.items[x].key == key && !s.items[x].evicted
  }

  lemma OneFound(s: State, key: Key, x: Id, y: Id)
    requires Inv(s) && Finds(s, key, x) && Finds(s, key, y)
    ensures x == y
  {
  }

  // ---------------------------------------------------------------------------
  // Steps
  // ---------------------------------------------------------------------------

  /** What the invariant says of one item. */
  lemma ItemFacts(s: State, x: Id)
    requires Inv(s) && x in s.items
    ensures x < s.next && s.items[x].ref == 1 + s.holders[x] && (x in s.busy <==> s.holders[x] > 0) &&
            (x in s.idle <==> s.holders[x] == 0)
    ensures x in s.busy <==> x !in s.idle
  {
  }

  /** Changing the references of `x` along with its holders and its list. */
  lemma Recounted(s: State, t: State, x: Id)
    requires Counted(s) && x in s.items && x in t.items && t.items == s.items[x := t.items[x]] && t.next == s.next
    requires t.items[x].ref == 1 + t.holders[x] && forall y :: y != x ==> t.holders[y] == s.holders[y]
    requires forall y :: y != x ==> (y in t.busy <==> y in s.busy) && (y in t.idle <==> y in s.idle)
    requires (x in t.busy ==> t.holders[x] > 0) && (x in t.idle ==> t.holders[x] == 0)
    ensures Counted(t)
  {
    forall y | y in t.items ensures y < t.next && t.items[y].ref == 1 + t.holders[y] { assert y in s.items; }
    forall y | y in t.busy ensures t.holders[y] > 0 { if y != x { assert y in s.busy; } }
    forall y | y in t.idle ensures t.holders[y] == 0 { if y != x { assert y in s.idle; } }
    forall y | y in t.holders ensures y in t.items { if y != x { assert y in s.holders; } }
  }

  lemma Uncounted(s: State, t: State, x: Id)
    requires Counted(s) && t.items == s.items - {x} && t.next == s.next
    requires t.holders[x] == 0 && forall y :: y != x ==> t.holders[y] == s.holders[y]
    requires forall y :: (y in t.busy ==> y in s.busy && y != x) && (y in t.idle ==> y in s.idle && y != x)
    ensures Counted(t)
  {
    forall y | y in t.items ensures y < t.next && t.items[y].ref == 1 + t.holders[y] { assert y in s.items; }
    forall y | y in t.holders ensures y in t.items { assert y in s.holders; }
  }

  /** Keys stay unique as long as nothing becomes less evicted. */
  lemma Rekeyed(s: State, t: State)
    requires Keyed(s)
    requires forall y :: y in t.items ==>
               y in s.items && t.items[y].key == s.items[y].key && (s.items[y].evicted ==> t.items[y].evicted)
    requires forall y :: y in t.idle && y in t.items ==> !t.items[y].evicted
    ensures Keyed(t)
  {
  }

  ghost function Held(s: State, x: Id): State
    requires x in s.items
  {
    s.(items := s.items[x := s.items[x].(ref := s.items[x].ref + 1)], holders := s.holders + multiset{x},
       busy := if x in s.idle then [x] + s.busy else s.busy, idle := Without(s.idle, x))
  }

  /** One more holder. */
  lemma HeldInv(s: State, x: Id)
    requires Inv(s) && x in s.items
    ensures Inv(Held(s, x)) && (s.items[x].ref == 1 <==> x in s.idle)
    ensures |Held(s, x).idle| == |s.idle| - (if x in s.idle then 1 else 0) &&
            |Held(s, x).busy| == |s.busy| + (if x in s.idle then 1 else 0)
  {
    hide Listed, Counted, Keyed, Ordered, Distinct;
    ItemFacts(s, x);
    HeldLists(s, x);
    var t := Held(s, x);
    hide Without;
    Recounted(s, t, x);
    HeldIdle(s, x);
    Rekeyed(s, t);
  }

  lemma HeldLists(s: State, x: Id)
    requires Listed(s) && Ordered(s) && x in s.items && (x in s.busy <==> x !in s.idle)
    ensures Listed(Held(s, x)) && Ordered(Held(s, x))
    ensures |Held(s, x).idle| == |s.idle| - (if x in s.idle then 1 else 0)
    ensures forall y :: y in Held(s, x).busy <==> y in s.busy || y == x
    ensures forall y :: y in Held(s, x).idle <==> y in s.idle && y != x
  {
    WithoutDistinct(s.idle, x);
    WithoutRecent(s.idle, x, s.last);
    if x in s.idle { Prepended(s.busy, x); }
    hide Recent, Without, Distinct;
  }

  lemma HeldIdle(s: State, x: Id)
    requires Keyed(s) && x in s.items
    ensures forall y :: y in Held(s, x).idle && y in Held(s, x).items ==> !Held(s, x).items[y].evicted
  {
  }

  lemma Prepended(s: seq<Id>, x: Id)
    requires Distinct(s) && x !in s
    ensures Distinct([x] + s) && forall y :: y in [x] + s <==> y == x || y in s
  {
  }

  ghost function Made(s: State, key: Key): State {
    s.(items := s.items[s.next := Item(key, 2, false)], next := s.next + 1, holders := s.holders + multiset{s.next},
      busy := [s.next] + s.busy)
  }

  /** A new item, held once. */
  lemma MadeInv(s: State, key: Key)
    requires Inv(s) && forall y :: !Finds(s, key, y)
    ensures Inv(Made(s, key)) && s.next !in s.items && s.next !in s.idle
  {
    var x := s.next;
    assert x !in s.items;
    assert x !in s.busy && x !in s.idle && s.holders[x] == 0;
    Prepended(s.busy, x);
    hide Recent, Distinct;
    var t := Made(s, key);
    assert Listed(t);
    MadeCounted(s, key);
    MadeKeyed(s, key);
  }

  lemma MadeCounted(s: State, key: Key)
    requires Counted(s) && s.next !in s.items && s.next !in s.idle && s.holders[s.next] == 0
    ensures Counted(Made(s, key))
  {
    var t := Made(s, key);
    forall y | y in t.holders ensures y in t.items { if y != s.next { assert y in s.holders; } }
  }

  lemma MadeKeyed(s: State, key: Key)
    requires Keyed(s) && s.next !in s.items && s.next !in s.idle && forall y :: !Finds(s, key, y)
    ensures Keyed(Made(s, key))
  {
    forall y | y in s.items && !s.items[y].evicted ensures s.items[y].key != key { assert !Finds(s, key, y); }
  }

  /** One holder less, of several. */
  ghost function Shared(s: State, x: Id): State
    requires x in s.items && s.items[x].ref > 0
  {
    s.(items := s.items[x := s.items[x].(ref := s.items[x].ref - 1)], holders := s.holders - multiset{x})
  }

  lemma SharedInv(s: State, x: Id)
    requires Inv(s) && x in s.items && s.holders[x] > 1
    ensures Inv(Shared(s, x))
  {
    hide Recent;
    ItemFacts(s, x);
    var t := Shared(s, x);
    assert Listed(t);
    Recounted(s, t, x);
    hide Listed, Counted;
    Rekeyed(s, t);
  }

  /** The last holder leaves an evicted item. */
  ghost function Gone(s: State, x: Id): State {
    s.(items := s.items - {x}, holders := s.holders - multiset{x}, busy := Without(s.busy, x))
  }

  lemma GoneInv(s: State, x: Id)
    requires Inv(s) && x in s.items && s.holders[x] == 1
    ensures Inv(Gone(s, x)) && x in s.busy && |Gone(s, x).busy| == |s.busy| - 1
  {
    ItemFacts(s, x);
    WithoutDistinct(s.busy, x);
    hide Recent, Without;
    var t := Gone(s, x);
    assert Listed(t);
    Uncounted(s, t, x);
    hide Listed, Counted;
    Rekeyed(s, t);
  }

  /** The last holder leaves. */
  ghost function Rested(s: State, x: Id): State
    requires x in s.items
  {
    s.(items := s.items[x := s.items[x].(ref := 1)], holders := s.holders - multiset{x}, busy := Without(s.busy, x),
      idle := [x] + s.idle,
       last := s.last[x := s.clock], clock := s.clock + 1)
  }

  lemma RestedInv(s: State, x: Id)
    requires Inv(s) && x in s.items && s.holders[x] == 1 && !s.items[x].evicted
    ensures Inv(Rested(s, x)) && x in s.busy && |Rested(s, x).busy| == |s.busy| - 1
  {
    InvLists(s);
    hide Listed, Counted, Keyed, Ordered, Distinct;
    ItemFacts(s, x);
    RestedLists(s, x);
    var t := Rested(s, x);
    hide Without;
    Recounted(s, t, x);
    IdleKept(s, t, x);
    Rekeyed(s, t);
  }

  lemma RestedLists(s: State, x: Id)
    requires Listed(s) && Ordered(s) && x in s.items && x in s.busy
    ensures Listed(Rested(s, x)) && Ordered(Rested(s, x)) && |Rested(s, x).busy| == |s.busy| - 1
    ensures forall y :: y in Rested(s, x).busy <==> y in s.busy && y != x
    ensures forall y :: y in Rested(s, x).idle <==> y in s.idle || y == x
  {
    WithoutDistinct(s.busy, x);
    Prepended(s.idle, x);
    RecentFirst(s.idle, s.last, x, s.clock);
    hide Recent, Without, Distinct;
  }

  lemma IdleKept(s: State, t: State, x: Id)
    requires Keyed(s) && x in t.items && !t.items[x].evicted
    requires forall y :: y in t.idle ==>
             y == x || (y in s.idle && y in s.items && y in t.items && t.items[y] == s.items[y])
    ensures forall y :: y in t.idle && y in t.items ==> !t.items[y].evicted
  {
  }

  lemma RecentFirst(idle: seq<Id>, last: map<Id, nat>, x: Id, clock: nat)
    requires Recent(idle, last) && x !in idle && forall y :: y in last ==> last[y] < clock
    ensures Recent([x] + idle, last[x := clock])
  {
    RecentMore(x, idle, last[x := clock]);
  }

  /** An idle item is freed. */
  ghost function Dropped(s: State, x: Id): State {
    s.(items := s.items - {x}, idle := Without(s.idle, x))
  }

  lemma DroppedInv(s: State, x: Id)
    requires Inv(s) && x in s.idle
    ensures Inv(Dropped(s, x)) && |Dropped(s, x).idle| == |s.idle| - 1 && x in s.items && x !in s.holders
  {
    WithoutDistinct(s.idle, x);
    WithoutRecent(s.idle, x, s.last);
    hide Recent, Without;
    var t := Dropped(s, x);
    assert x in s.items;
    ItemFacts(s, x);
    assert Listed(t);
    Uncounted(s, t, x);
    hide Listed, Counted;
    Rekeyed(s, t);
  }

  /** The tail of the idle list is the item released longest ago. */
  lemma TailOldest(s: State, y: Id)
    requires Inv(s) && s.idle != [] && y in s.idle
    ensures var x := s.idle[|s.idle| - 1]; x in s.last && y in s.last && (y != x ==> s.last[x] < s.last[y])
    ensures Without(s.idle, s.idle[|s.idle| - 1]) == s.idle[..|s.idle| - 1]
  {
    WithoutLast(s.idle);
    var i :| 0 <= i < |s.idle| && s.idle[i] == y;
  }

  lemma {:induction false} WithoutLast(s: seq<Id>)
    requires Distinct(s) && s != []
    ensures Without(s, s[|s| - 1]) == s[..|s| - 1]
  {
    if |s| == 1 {
      assert s[1..] == [];
    } else {
      assert Distinct(s[1..]);
      WithoutLast(s[1..]);
      assert s[..|s| - 1] == [s[0]] + s[1..][..|s| - 2];
    }
  }

  ghost function Marked(s: State, x: Id): State
    requires x in s.items
  {
    s.(items := s.items[x := s.items[x].(evicted := true)])
  }

  lemma MarkedIdle(s: State, x: Id)
    requires Inv(s) && x in s.items && x !in s.holders
    ensures !Inv(Marked(s, x))
  {
    hide Recent;
    ItemFacts(s, x);
    assert x in Marked(s, x).idle;
  }

  lemma MarkedInv(s: State, x: Id)
    requires Inv(s) && x in s.busy
    ensures x in s.items && Inv(Marked(s, x))
  {
    hide Recent;
    assert x in s.items;
    ItemFacts(s, x);
    var t := Marked(s, x);
    assert Listed(t);
    Recounted(s, t, x);
    hide Listed, Counted;
    Rekeyed(s, t);
  }

  // ---------------------------------------------------------------------------
  // The cache
  // ---------------------------------------------------------------------------

  class Cache {
    const csize: nat
    var items: map<Id, Item>
    var busy: seq<Id>
    var idle: seq<Id>
    var busyNr: int
    var idleNr: int
    var next: Id
    ghost var holders: multiset<Id>
    ghost var last: map<Id, nat>
    ghost var clock: nat

    ghost function V(): State
      reads this
    {
      State(items, busy, idle, next, holders, last, clock)
    }

    ghost predicate Valid()
      reads this
    {
      Inv(V()) && busyNr == |busy| && idleNr == |idle| && (idleNr == 0 || idleNr < csize)
    }

    constructor (csize: nat)
      ensures Valid() && this.csize == csize && items == map[] && holders == multiset{}
    {
      this.csize := csize;
      items, busy, idle, busyNr, idleNr, next := map[], [], [], 0, 0, 0;
      holders, last, clock := multiset{}, map[], 0;
    }

    /** Look at the first item of a list only. */
    method FastSearch(list: seq<Id>, key: Key) returns (found: bool, x: Id)
      requires forall y :: y in list ==> y in items
      ensures found ==> Finds(V(), key, x)
    {
      found, x := false, 0;
      if |list| == 0 {
        return;
      }
      x := list[0];
      if items[x].evicted {
        return;
      }
      if items[x].key == key {
        found := true;
      }
    }

    /** Look in the hash table. */
    method HashSearch(key: Key) returns (found: bool, x: Id)
      ensures found ==> Finds(V(), key, x)
      ensures !found ==> forall y :: !Finds(V(), key, y)
    {
      found, x := false, 0;
      var left := items.Keys;
      while left != {}
        invariant left <= items.Keys && forall y :: Finds(V(), key, y) ==> y in left
        decreases |left|
      {
        var y :| y in left;
        left := left - {y};
        if !items[y].evicted && items[y].key == key {
          return true, y;
        }
      }
    }

    /** Put an item with its first holder on the busy list. */
    method MarkBusy(x: Id)
      modifies this`busy, this`busyNr, this`idle, this`idleNr
      ensures busy == [x] + old(busy) && busyNr == old(busyNr) + 1
      ensures idle == Without(old(idle), x) && idleNr == old(idleNr) - if x in old(idle) then 1 else 0
    {
      WithoutNone(idle, x);
      if x !in idle {
        busy := [x] + busy;
      } else {
        idleNr := idleNr - 1;
        idle := Without(idle, x);
        busy := [x] + busy;
      }
      busyNr := busyNr + 1;
    }

    /** Find the item of a key, or make it if `create`, and hold it.  `memory` is whether a
        new item can be allocated. */
    method Hold(key: Key, create: bool, memory: bool) returns (rc: Rc, x: Id)
      requires Valid()
      modifies this
      ensures Valid()
      ensures forall y :: old(Finds(V(), key, y)) ==> rc == Ok && x == y && V() == old(Held(V(), y))
      ensures (forall y :: !old(Finds(V(), key, y))) ==>
              rc == (if !create then NonExist else if !memory then NoMem else Ok)
      ensures rc != Ok ==> V() == old(V())
      ensures holders == old(holders) + if rc == Ok then multiset{x} else multiset{}
      ensures (forall y :: !old(Finds(V(), key, y))) && rc == Ok ==> x == old(next) && V() == old(Made(V(), key))
      ensures rc == Ok ==>
                && Finds(V(), key, x) && items.Keys == old(items).Keys + {x}
                && (forall y :: y in old(items) && y != x ==> items[y] == old(items[y]))
                && (x !in old(holders) ==> busy == [x] + old(busy))
    {
      hide Inv, Held, Made, Without, Finds;
      var found;
      found, x := Search(key);
      if found {
        ghost var s := V();
        HeldIs(s, key, x);
        Take(x);
        HeldFinds(s, key, x);
      } else {
        if !create {
          return NonExist, 0;
        }
        if !memory {
          return NoMem, 0;
        }
        ghost var s := V();
        x := Make(key);
        MadeFinds(s, key);
      }
      rc := Ok;
    }

    /** The fast searches, then the hash table. */
    method Search(key: Key) returns (found: bool, x: Id)
      requires Inv(V())
      ensures found ==> Finds(V(), key, x)
      ensures !found ==> forall y :: !Finds(V(), key, y)
    {
      InvLists(V());
      found, x := FastSearch(busy, key);
      if found {
        return;
      }
      found, x := FastSearch(idle, key);
      if found {
        return;
      }
      found, x := HashSearch(key);
    }

    /** One more holder of an item. */
    method Take(x: Id)
      requires Valid() && x in items
      modifies this
      ensures Valid() && V() == old(Held(V(), x)) && holders == old(holders) + multiset{x}
    {
      hide Inv, Without;
      ghost var s := V();
      HeldInv(s, x);
      WithoutNone(idle, x);
      items := items[x := items[x].(ref := items[x].ref + 1)];
      holders := holders + multiset{x};
      if items[x].ref == 2 {
        MarkBusy(x);
      }
    }

    /** A new item with its first holder. */
    method Make(key: Key) returns (x: Id)
      requires Valid() && forall y :: !Finds(V(), key, y)
      modifies this
      ensures Valid() && x == old(next) && V() == old(Made(V(), key)) && holders == old(holders) + multiset{x}
    {
      hide Inv, Without, Finds;
      ghost var s := V();
      MadeIs(s, key);
      x := next;
      next := next + 1;
      items := items[x := Item(key, 1, false)];
      // the hash table takes its reference
      items := items[x := items[x].(ref := 2)];
      holders := holders + multiset{x};
      MarkBusy(x);
      assert items == s.items[x := Item(key, 2, false)];
    }

    /** Free idle items from the tail while the cache is full. */
    method Shrink()
      requires Inv(V()) && busyNr == |busy| && idleNr == |idle|
      modifies this`items, this`idle, this`idleNr
      ensures Inv(V()) && idleNr == |idle|
      ensures idle <= old(idle) && (idle == [] || |busy| + |idle| < csize) &&
              (idle == old(idle) || |busy| + |idle| + 1 >= csize)
      ensures forall y :: y in items <==> y in old(items) && (y in busy || y in idle)
      ensures forall y :: y in items ==> items[y] == old(items[y])
    {
      hide Inv, Without;
      InvLists(V());
      while idleNr != 0 && busyNr + idleNr >= csize
        invariant Inv(V()) && idleNr == |idle| && idle <= old(idle)
        invariant idle == old(idle) || |busy| + |idle| + 1 >= csize
        invariant forall y :: y in items <==> y in old(items) && (y in busy || y in idle)
        invariant forall y :: y in items ==> items[y] == old(items[y])
        decreases |idle|
      {
        var x := idle[|idle| - 1];
        DroppedInv(V(), x);
        TailOldest(V(), x);
        OffLists(V(), x);
        items := items - {x};
        idle := idle[..|idle| - 1];
        idleNr := idleNr - 1;
      }
    }

    /** Let go of an item. */
    method Release(x: Id)
      requires Valid() && x in holders
      modifies this
      ensures Valid() && holders == old(holders) - multiset{x}
      ensures if old(holders[x]) > 1 then Shrunk(old(Shared(V(), x)), V(), csize)
              else if old(items[x]).evicted then Shrunk(old(Gone(V(), x)), V(), csize)
              else Shrunk(old(Rested(V(), x)), V(), csize)
      ensures forall y :: y in items ==>
                y in old(items) && items[y].key == old(items[y]).key && items[y].evicted == old(items[y]).evicted
      ensures forall y :: y in old(items) && y !in items ==>
                y in old(idle) || (y == x && old(holders[x]) == 1)
      ensures old(holders[x]) == 1 && old(items[x]).evicted ==> x !in items
      ensures old(holders[x]) == 1 && !old(items[x]).evicted ==> idle == [] || idle[0] == x
    {
      hide Inv, Without, Shared, Gone, Rested;
      ghost var s := V();
      Holding(s, x);
      LetGo(x);
      ghost var s1 := V();
      LetGoIs(s, s1, x);
      Shrink();
      ReleaseIs(s, s1, V(), x, csize);
    }

    /** One holder less; the last one leaves the item idle, or frees it if it is evicted. */
    method LetGo(x: Id)
      requires Inv(V()) && busyNr == |busy| && idleNr == |idle| && x in holders && x in items &&
               items[x].ref == 1 + holders[x] && holders[x] >= 1
      modifies this
      ensures Inv(V()) && busyNr == |busy| && idleNr == |idle| && holders == old(holders) - multiset{x}
      ensures V() == if old(holders[x]) > 1 then old(Shared(V(), x))
              else if old(items[x]).evicted then old(Gone(V(), x)) else old(Rested(V(), x))
    {
      hide Inv, Without, Gone, Rested;
      ghost var s := V();
      items := items[x := items[x].(ref := items[x].ref - 1)];
      holders := holders - multiset{x};
      if items[x].ref == 1 {
        Retire(x, s);
      } else {
        SharedInv(s, x);
      }
    }

    /** Only the hash table refers to item `x` any more; in state `s` it had one holder. */
    method Retire(x: Id, ghost s: State)
      requires Inv(s) && x in s.items && s.items[x].ref == 2 && s.holders[x] == 1
      requires V() == Shared(s, x) && busyNr == |busy| && idleNr == |idle|
      modifies this`items, this`busy, this`busyNr, this`idle, this`idleNr, this`last, this`clock
      ensures Inv(V()) && busyNr == |busy| && idleNr == |idle|
      ensures V() == if s.items[x].evicted then Gone(s, x) else Rested(s, x)
    {
      hide Inv, Without;
      busyNr := busyNr - 1;
      if items[x].evicted {
        GoneInv(s, x);
        busy := Without(busy, x);
        items := items - {x};
        assert items == s.items - {x};
      } else {
        RestedInv(s, x);
        idleNr := idleNr + 1;
        busy := Without(busy, x);
        idle := [x] + idle;
        last, clock := last[x := clock], clock + 1;
      }
    }

    /** Evict what satisfies a condition: idle items at once, busy ones with their last release. */
    method Evict(cond: Id -> bool)
      requires Valid()
      modifies this`items, this`idle, this`idleNr
      ensures Valid()
      ensures forall y :: y in items <==> y in old(items) && (y in busy || !cond(y))
      ensures forall y :: y in items ==>
              items[y] == if y in busy && cond(y) then old(items[y]).(evicted := true) else old(items[y])
    {
      hide Inv;
      InvLists(V());
      MarkBusyEvicted(cond);
      DropIdle(cond);
    }

    /** Have an item evicted with the last release.  Only a holder may do this: an idle item
        would stay in the cache with no way to find it. */
    method RefEvict(x: Id)
      requires Valid() && x in items
      modifies this`items
      ensures items == old(items)[x := old(items[x]).(evicted := true)] && (Valid() <==> x in holders)
    {
      hide Inv;
      ghost var s := V();
      items := items[x := items[x].(evicted := true)];
      if x in holders {
        Holding(s, x);
        MarkedInv(s, x);
      } else {
        MarkedIdle(s, x);
      }
    }

    /** Any sequence of operations; items are only released and evicted by their holders.
        An item is never freed under a holder that does not release it. */
    method Run(ops: seq<Op>)
      requires Valid()
      modifies this
      ensures Valid()
      ensures forall x :: x in old(holders) && DoRelease(x) !in ops ==> x in holders && x in items
    {
      hide Inv, Shrunk, Finds, Held, Made;
      for i := 0 to |ops|
        invariant Valid()
        invariant forall x :: x in old(holders) && DoRelease(x) !in ops[..i] ==> x in holders
      {
        assert ops[..i + 1] == ops[..i] + [ops[i]];
        match ops[i] {
          case DoHold(key, create, memory) => var _, _ := Hold(key, create, memory);
          case DoRelease(x) => if x in items && items[x].ref > 1 { ItemFacts(V(), x); Release(x); }
          case DoRefEvict(x) => if x in items && items[x].ref > 1 { ItemFacts(V(), x); RefEvict(x); }
          case DoEvict(xs) => Evict(x => x in xs);
        }
      }
      assert ops[..|ops|] == ops;
      forall x | x in holders ensures x in items { Holding(V(), x); }
    }

    method MarkBusyEvicted(cond: Id -> bool)
      requires Inv(V())
      modifies this`items
      ensures Inv(V()) && items.Keys == old(items).Keys
      ensures forall y :: y in items ==>
              items[y] == if y in busy && cond(y) then old(items[y]).(evicted := true) else old(items[y])
    {
      hide Inv;
      InvLists(V());
      for i := 0 to |busy|
        invariant Inv(V()) && items.Keys == old(items).Keys
        invariant forall y :: y in items ==>
                  items[y] == if y in busy[..i] && cond(y) then old(items[y]).(evicted := true) else old(items[y])
      {
        assert busy[..i + 1] == busy[..i] + [busy[i]];
        if cond(busy[i]) {
          MarkedInv(V(), busy[i]);
          items := items[busy[i] := items[busy[i]].(evicted := true)];
        }
      }
      assert busy[..|busy|] == busy;
    }

    method DropIdle(cond: Id -> bool)
      requires Inv(V()) && idleNr == |idle|
      modifies this`items, this`idle, this`idleNr
      ensures Inv(V()) && idleNr == |idle| <= |old(idle)|
      ensures forall y :: y in items <==> y in old(items) && (y in busy || !cond(y))
      ensures forall y :: y in items ==> items[y] == old(items[y])
    {
      hide Inv, Without;
      InvLists(V());
      var todo := idle;
      TodoDistinct(V());
      for i := 0 to |todo|
        invariant Inv(V()) && idleNr == |idle| <= |todo|
        invariant forall y :: y in idle <==> y in todo && (y in todo[i..] || !cond(y))
        invariant forall y :: y in items <==> y in old(items) && (y in busy || y in idle)
        invariant forall y :: y in items ==> items[y] == old(items[y])
      {
        var x := todo[i];
        assert todo[i..] == [x] + todo[i + 1..];
        if cond(x) {
          NotAgain(todo, i);
          DroppedInv(V(), x);
          OffLists(V(), x);
          idle := Without(idle, x);
          items := items - {x};
          idleNr := idleNr - 1;
        }
      }
    }
  }

  /** From `s` to `s'` only idle items went, the ones released longest ago, and just enough
      of them to make room. */
  ghost predicate Shrunk(s: State, s': State, csize: nat) {
    && s' == s.(items := s'.items, idle := s'.idle)
    && s'.idle <= s.idle && (s'.idle == [] || |s'.busy| + |s'.idle| < csize) &&
      (s'.idle == s.idle || |s'.busy| + |s'.idle| + 1 >= csize)
    && (forall y :: y in s'.items <==> y in s.items && (y in s'.busy || y in s'.idle))
    && (forall y :: y in s'.items ==> s'.items[y] == s.items[y])
  }

  /** What a full cache drops was released before anything it keeps. */
  lemma ShrinkTakesOldest(s: State, s': State, csize: nat, kept: Id, dropped: Id)
    requires Inv(s) && Shrunk(s, s', csize) && kept in s'.idle && dropped in s.idle && dropped !in s'.idle
    ensures kept in s.last && dropped in s.last && s.last[dropped] < s.last[kept]
  {
    var i :| 0 <= i < |s'.idle| && s'.idle[i] == kept;
    var j :| 0 <= j < |s.idle| && s.idle[j] == dropped;
    assert s.idle[i] == kept;
    assert forall k :: 0 <= k < |s'.idle| ==> s.idle[k] == s'.idle[k];
  }

  lemma InvLists(s: State)
    requires Inv(s)
    ensures forall x :: x in s.items <==> x in s.busy || x in s.idle
    ensures forall x :: x in s.busy ==> x !in s.idle
  {
  }

  lemma OffLists(s: State, x: Id)
    requires Inv(s) && x in s.idle
    ensures x in s.items && x !in s.busy && forall y :: y in Without(s.idle, x) <==> y in s.idle && y != x
  {
  }

  lemma Holding(s: State, x: Id)
    requires Inv(s) && x in s.holders
    ensures x in s.items && s.items[x].ref == 1 + s.holders[x] && s.holders[x] >= 1 && x in s.busy
  {
  }

  lemma HeldIs(s: State, key: Key, x: Id)
    requires Inv(s) && Finds(s, key, x)
    ensures x in s.items && Inv(Held(s, x)) && (s.items[x].ref == 1 <==> x in s.idle)
    ensures forall y :: Finds(s, key, y) ==> y == x
    ensures |Held(s, x).idle| == |s.idle| - (if x in s.idle then 1 else 0) &&
            |Held(s, x).busy| == |s.busy| + (if x in s.idle then 1 else 0)
    ensures Held(s, x) ==
            s.(items := s.items[x := s.items[x].(ref := s.items[x].ref + 1)], holders := s.holders + multiset{x},
               busy := if x in s.idle then [x] + s.busy else s.busy, idle := Without(s.idle, x))
    ensures x !in s.idle ==> Without(s.idle, x) == s.idle
  {
    HeldInv(s, x);
    WithoutNone(s.idle, x);
    hide Inv, Held;
    forall y | Finds(s, key, y) ensures y == x { OneFound(s, key, x, y); }
  }

  lemma MadeIs(s: State, key: Key)
    requires Inv(s) && forall y :: !Finds(s, key, y)
    ensures Inv(Made(s, key)) && s.next !in s.idle && Without(s.idle, s.next) == s.idle
    ensures Made(s, key) ==
            s.(items := s.items[s.next := Item(key, 2, false)], next := s.next + 1,
               holders := s.holders + multiset{s.next}, busy := [s.next] + s.busy)
  {
    MadeInv(s, key);
    WithoutNone(s.idle, s.next);
  }

  lemma HeldFinds(s: State, key: Key, x: Id)
    requires Inv(s) && Finds(s, key, x)
    ensures Finds(Held(s, x), key, x) && Held(s, x).items.Keys == s.items.Keys + {x}
    ensures forall y :: y in s.items && y != x ==> Held(s, x).items[y] == s.items[y]
    ensures x !in s.holders ==> Held(s, x).busy == [x] + s.busy
  {
    hide Without, Distinct, Recent;
    ItemFacts(s, x);
  }

  lemma MadeFinds(s: State, key: Key)
    requires Inv(s)
    ensures s.next !in s.items && s.next !in s.holders
    ensures Finds(Made(s, key), key, s.next) && Made(s, key).items.Keys == s.items.Keys + {s.next}
    ensures forall y :: y in s.items && y != s.next ==> Made(s, key).items[y] == s.items[y]
    ensures Made(s, key).busy == [s.next] + s.busy
  {
    hide Distinct, Recent;
  }

  /** One holder less, in the fields of the items. */
  ghost predicate Loosened(s: State, t: State, x: Id) {
    && x in s.items
    && (forall y :: y in t.items ==>
          y in s.items && t.items[y].key == s.items[y].key && t.items[y].evicted == s.items[y].evicted)
    && (forall y :: y in s.items && y !in t.items ==> y == x && s.holders[x] == 1)
    && (s.holders[x] == 1 && s.items[x].evicted ==> x !in t.items)
    && t.idle == (if s.holders[x] == 1 && !s.items[x].evicted then [x] else []) + s.idle
    && (forall y :: y in t.busy <==> y in s.busy && (y != x || s.holders[x] > 1))
  }

  lemma LetGoIs(s: State, t: State, x: Id)
    requires Inv(s) && x in s.items && s.holders[x] >= 1 && s.items[x].ref > 0
    requires t == if s.holders[x] > 1 then Shared(s, x) else if s.items[x].evicted then Gone(s, x) else Rested(s, x)
    ensures Loosened(s, t, x)
  {
    hide Inv, Without, Distinct;
    TodoBusy(s);
    WithoutDistinct(s.busy, x);
    assert Without(s.busy, x) == t.busy || s.busy == t.busy;
    if s.holders[x] > 1 {
      hide Gone, Rested;
    } else if s.items[x].evicted {
      hide Shared, Rested;
    } else {
      hide Shared, Gone;
    }
  }

  lemma TodoBusy(s: State)
    requires Inv(s)
    ensures Distinct(s.busy)
  {
  }

  lemma ReleaseIs(s: State, s1: State, s2: State, x: Id, csize: nat)
    requires Inv(s) && Inv(s1) && Loosened(s, s1, x) && Shrunk(s1, s2, csize)
    ensures forall y :: y in s2.items ==>
              y in s.items && s2.items[y].key == s.items[y].key && s2.items[y].evicted == s.items[y].evicted
    ensures forall y :: y in s.items && y !in s2.items ==> y in s.idle || (y == x && s.holders[x] == 1)
    ensures s.holders[x] == 1 && s.items[x].evicted ==> x !in s2.items
    ensures s.holders[x] == 1 && !s.items[x].evicted ==> s2.idle == [] || s2.idle[0] == x
  {
    InvLists(s);
    InvLists(s1);
    hide Inv;
  }

  lemma TodoDistinct(s: State)
    requires Inv(s)
    ensures Distinct(s.idle)
  {
  }

  lemma NotAgain(todo: seq<Id>, i: nat)
    requires Distinct(todo) && i < |todo|
    ensures todo[i] !in todo[i + 1..]
  {
  }
}
