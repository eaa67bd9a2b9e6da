/** The B+ tree seen as a value: what a pool of nodes stands for.

    A tree is either a leaf holding records or an inner node holding a first child
    and a sequence of (separator, child) branches, exactly the layout of a node's
    `tn_child` and record array.  `Freed` marks a child that a merge has emptied and
    that its parent has still to drop. */
module BTreeShape {

  type Mmid = nat

  /** One slot of a node: `mmid` is a child node in an inner node and the record
      body in a leaf. */
  datatype Record = Record(hkey: int, mmid: Mmid)

  datatype Branch = Branch(key: int, kid: Tree)

  datatype Tree =
    | Leaf(id: Mmid, recs: seq<Record>)
    | Inner(id: Mmid, first: Tree, rest: seq<Branch>)
    | Freed(id: Mmid)

  /** Recursion over branches terminates: a branch's child is part of the sequence. */
  lemma HeadKidSmaller(rest: seq<Branch>)
    requires rest != []
    ensures rest decreases to rest[0].kid
  {
    assert rest decreases to rest[0];
    assert rest[0] decreases to rest[0].kid;
  }

  // ---------------------------------------------------------------------------
  // Records, in order
  // ---------------------------------------------------------------------------

  /** The leaf records of a tree from left to right. */
  ghost function Contents(t: Tree): seq<Record>
    decreases t, 1
  {
    match t
    case Leaf(_, recs) => recs
    case Inner(_, first, rest) => Contents(first) + BranchContents(rest)
    case Freed(_) => []
  }

  ghost function BranchContents(rest: seq<Branch>): seq<Record>
    decreases rest, 0
  {
    if rest == [] then []
    else HeadKidSmaller(rest); Contents(rest[0].kid) + BranchContents(rest[1..])
  }

  lemma {:induction false} BranchContentsAppend(a: seq<Branch>, b: seq<Branch>)
    ensures BranchContents(a + b) == BranchContents(a) + BranchContents(b)
  {
    if a == [] {
      assert a + b == b;
    } else {
      assert (a + b)[1..] == a[1..] + b;
      BranchContentsAppend(a[1..], b);
    }
  }

  predicate Ascending(recs: seq<Record>) {
    forall i, j :: 0 <= i < j < |recs| ==> recs[i].hkey < recs[j].hkey
  }

  predicate Within(recs: seq<Record>, lo: int, hi: int) {
    forall i :: 0 <= i < |recs| ==> lo <= recs[i].hkey < hi
  }

  // ---------------------------------------------------------------------------
  // Nodes, counted
  // ---------------------------------------------------------------------------

  /** Every node of a tree, with multiplicity: a tree without sharing has each node once. */
  ghost function Ids(t: Tree): multiset<Mmid>
    decreases t, 1
  {
    match t
    case Leaf(id, _) => multiset{id}
    case Inner(id, first, rest) => multiset{id} + Ids(first) + BranchIds(rest)
    case Freed(id) => multiset{id}
  }

  ghost function BranchIds(rest: seq<Branch>): multiset<Mmid>
    decreases rest, 0
  {
    if rest == [] then multiset{}
    else HeadKidSmaller(rest); Ids(rest[0].kid) + BranchIds(rest[1..])
  }

  lemma {:induction false} BranchIdsAppend(a: seq<Branch>, b: seq<Branch>)
    ensures BranchIds(a + b) == BranchIds(a) + BranchIds(b)
  {
    if a == [] {
      assert a + b == b;
    } else {
      assert (a + b)[1..] == a[1..] + b;
      BranchIdsAppend(a[1..], b);
    }
  }

  /** What one branch adds to a sequence of branches. */
  lemma AroundBranch(a: seq<Branch>, b: Branch, c: seq<Branch>)
    ensures BranchContents(a + [b] + c) == BranchContents(a) + Contents(b.kid) + BranchContents(c)
    ensures BranchIds(a + [b] + c) == BranchIds(a) + Ids(b.kid) + BranchIds(c)
  {
    BranchContentsAppend(a + [b], c);
    BranchContentsAppend(a, [b]);
    BranchIdsAppend(a + [b], c);
    BranchIdsAppend(a, [b]);
    OneBranch(b);
  }

  lemma OneBranch(b: Branch)
    ensures BranchContents([b]) == Contents(b.kid) && BranchIds([b]) == Ids(b.kid)
  {
    assert BranchContents([b]) == Contents(b.kid) + BranchContents([]);
    assert BranchIds([b]) == Ids(b.kid) + BranchIds([]);
  }

  lemma InnerParts(id: Mmid, first: Tree, rest: seq<Branch>)
    ensures Contents(Inner(id, first, rest)) == Contents(first) + BranchContents(rest)
    ensures Ids(Inner(id, first, rest)) == multiset{id} + Ids(first) + BranchIds(rest)
  {
  }

  lemma IdInIds(t: Tree)
    ensures t.id in Ids(t)
  {
  }

  lemma {:induction false} KidIdsInBranchIds(rest: seq<Branch>, i: nat)
    requires i < |rest|
    ensures Ids(rest[i].kid) <= BranchIds(rest)
  {
    if i != 0 {
      KidIdsInBranchIds(rest[1..], i - 1);
      assert rest[1..][i - 1] == rest[i];
    }
  }

  // ---------------------------------------------------------------------------
  // Shape: depth, fill and separators
  // ---------------------------------------------------------------------------

  /** `t` has every leaf at depth `d`, every node with 1..order-1 keys, and all its
      keys in [lo, hi); each separator is above its left subtree and at or below its
      right one. */
  ghost predicate WF(t: Tree, d: nat, order: nat, lo: int, hi: int)
    decreases t, 1
  {
    match t
    case Leaf(_, recs) =>
      d == 1 && 1 <= |recs| < order && Ascending(recs) && Within(recs, lo, hi)
    case Inner(_, first, rest) =>
      && d >= 2 && 1 <= |rest| < order
      && WF(first, d - 1, order, lo, rest[0].key)
      && BranchesWF(rest, d - 1, order, hi)
    case Freed(_) => false
  }

  ghost predicate BranchesWF(rest: seq<Branch>, d: nat, order: nat, hi: int)
    decreases rest, 0
  {
    rest == [] ||
    (HeadKidSmaller(rest);
     && WF(rest[0].kid, d, order, rest[0].key, HeadKey(rest[1..], hi))
     && BranchesWF(rest[1..], d, order, hi))
  }

  /** The first separator of `rest`, or `hi` when there is none. */
  function HeadKey(rest: seq<Branch>, hi: int): int {
    if rest == [] then hi else rest[0].key
  }

  lemma {:induction false} BranchesWFAppend(a: seq<Branch>, b: seq<Branch>, d: nat, order: nat, hi: int)
    ensures BranchesWF(a + b, d, order, hi) <==>
            BranchesWF(a, d, order, HeadKey(b, hi)) && BranchesWF(b, d, order, hi)
  {
    if a == [] {
      assert a + b == b;
    } else {
      assert (a + b)[1..] == a[1..] + b;
      BranchesWFAppend(a[1..], b, d, order, hi);
      assert HeadKey((a + b)[1..], hi) == HeadKey(a[1..], HeadKey(b, hi));
    }
  }

  /** A well-formed tree lists its records in strictly ascending order, inside its bounds. */
  lemma {:induction false} WFAscending(t: Tree, d: nat, order: nat, lo: int, hi: int)
    requires WF(t, d, order, lo, hi)
    ensures Ascending(Contents(t)) && Within(Contents(t), lo, hi)
    ensures |Contents(t)| >= 1
    ensures lo < hi
    decreases t, 1
  {
    match t
    case Leaf(_, recs) => assert lo <= recs[0].hkey < hi;
    case Inner(_, first, rest) =>
      WFAscending(first, d - 1, order, lo, rest[0].key);
      BranchesAscending(rest, d - 1, order, hi);
  }

  lemma {:induction false} BranchesAscending(rest: seq<Branch>, d: nat, order: nat, hi: int)
    requires BranchesWF(rest, d, order, hi)
    ensures Ascending(BranchContents(rest))
    ensures rest != [] ==> Within(BranchContents(rest), rest[0].key, hi) && rest[0].key < hi
    ensures |BranchContents(rest)| >= |rest|
    decreases rest, 0
  {
    if rest != [] {
      HeadKidSmaller(rest);
      WFAscending(rest[0].kid, d, order, rest[0].key, HeadKey(rest[1..], hi));
      BranchesAscending(rest[1..], d, order, hi);
    }
  }

  /** Bounds may be widened. */
  lemma {:induction false} WFWiden(t: Tree, d: nat, order: nat, lo: int, hi: int, lo': int, hi': int)
    requires WF(t, d, order, lo, hi) && lo' <= lo && hi <= hi'
    ensures WF(t, d, order, lo', hi')
    decreases t, 1
  {
    match t
    case Leaf(_, _) =>
    case Inner(_, first, rest) =>
      WFWiden(first, d - 1, order, lo, rest[0].key, lo', rest[0].key);
      BranchesWFWiden(rest, d - 1, order, hi, hi');
  }

  lemma {:induction false} BranchesWFWiden(rest: seq<Branch>, d: nat, order: nat, hi: int, hi': int)
    requires BranchesWF(rest, d, order, hi) && hi <= hi'
    ensures BranchesWF(rest, d, order, hi')
    decreases rest, 0
  {
    if rest != [] {
      HeadKidSmaller(rest);
      WFWiden(rest[0].kid, d, order, rest[0].key, HeadKey(rest[1..], hi), rest[0].key, HeadKey(rest[1..], hi'));
      BranchesWFWiden(rest[1..], d, order, hi, hi');
    }
  }

  function Pow2(n: nat): (p: nat)
    ensures p >= 1
  {
    if n == 0 then 1 else 2 * Pow2(n - 1)
  }

  lemma {:induction false} Pow2Monotone(a: nat, b: nat)
    requires a <= b
    ensures Pow2(a) <= Pow2(b)
  {
    if a < b { Pow2Monotone(a, b - 1); }
  }

  /** Minimum fill is one key per node, so depth grows at most with the logarithm
      of the number of records. */
  lemma {:induction false} WFSize(t: Tree, d: nat, order: nat, lo: int, hi: int)
    requires WF(t, d, order, lo, hi)
    ensures d >= 1 && |Contents(t)| >= Pow2(d - 1)
  {
    match t
    case Leaf(_, _) =>
    case Inner(_, first, rest) =>
      WFSize(first, d - 1, order, lo, rest[0].key);
      WFSize(rest[0].kid, d - 1, order, rest[0].key, HeadKey(rest[1..], hi));
  }

  // ---------------------------------------------------------------------------
  // Children by index: child 0 is `first`, child i is branch i - 1
  // ---------------------------------------------------------------------------

  function Kid(t: Tree, at: nat): Tree
    requires t.Inner? && at <= |t.rest|
  {
    if at == 0 then t.first else t.rest[at - 1].kid
  }

  lemma KidSmaller(t: Tree, at: nat)
    requires t.Inner? && at <= |t.rest|
    ensures t decreases to Kid(t, at)
  {
    if at > 0 {
      assert t decreases to t.rest;
      assert t.rest decreases to t.rest[at - 1];
      assert t.rest[at - 1] decreases to t.rest[at - 1].kid;
    }
  }

  function SetKid(t: Tree, at: nat, s: Tree): (r: Tree)
    requires t.Inner? && at <= |t.rest|
    ensures r.Inner? && r.id == t.id && |r.rest| == |t.rest| && Kid(r, at) == s
  {
    if at == 0 then Inner(t.id, s, t.rest)
    else Inner(t.id, t.first, t.rest[at - 1 := Branch(t.rest[at - 1].key, s)])
  }

  lemma SetKidSame(t: Tree, at: nat)
    requires t.Inner? && at <= |t.rest|
    ensures SetKid(t, at, Kid(t, at)) == t
  {
    if at > 0 {
      assert t.rest[at - 1 := Branch(t.rest[at - 1].key, Kid(t, at))] == t.rest;
    }
  }

  /** The records left and right of child `at`. */
  ghost function Before(t: Tree, at: nat): seq<Record>
    requires t.Inner? && at <= |t.rest|
  {
    if at == 0 then [] else Contents(t.first) + BranchContents(t.rest[..at - 1])
  }

  ghost function After(t: Tree, at: nat): seq<Record>
    requires t.Inner? && at <= |t.rest|
  {
    BranchContents(t.rest[at..])
  }

  lemma SetKidContents(t: Tree, at: nat, s: Tree)
    requires t.Inner? && at <= |t.rest|
    ensures Contents(SetKid(t, at, s)) == Before(t, at) + Contents(s) + After(t, at)
  {
    if at == 0 {
      assert t.rest[0..] == t.rest;
    } else {
      var b := Branch(t.rest[at - 1].key, s);
      assert SetKid(t, at, s).rest == t.rest[..at - 1] + ([b] + t.rest[at..]);
      BranchContentsAppend(t.rest[..at - 1], [b] + t.rest[at..]);
      BranchContentsAppend([b], t.rest[at..]);
      assert BranchContents([b]) == Contents(s);
    }
  }

  lemma SetKidAround(t: Tree, at: nat, s: Tree)
    requires t.Inner? && at <= |t.rest|
    ensures Before(SetKid(t, at, s), at) == Before(t, at) && After(SetKid(t, at, s), at) == After(t, at)
  {
    var r := SetKid(t, at, s);
    assert r.rest[at..] == t.rest[at..];
    if at > 0 { assert r.rest[..at - 1] == t.rest[..at - 1]; }
  }

  lemma KidContents(t: Tree, at: nat)
    requires t.Inner? && at <= |t.rest|
    ensures Contents(t) == Before(t, at) + Contents(Kid(t, at)) + After(t, at)
  {
    SetKidContents(t, at, Kid(t, at));
    SetKidSame(t, at);
  }

  ghost function OffIds(t: Tree, at: nat): multiset<Mmid>
    requires t.Inner? && at <= |t.rest|
  {
    if at == 0 then multiset{t.id} + BranchIds(t.rest)
    else multiset{t.id} + Ids(t.first) + BranchIds(t.rest[..at - 1]) + BranchIds(t.rest[at..])
  }

  lemma MoveOut(t: multiset<Mmid>, f: multiset<Mmid>, l: multiset<Mmid>, s: multiset<Mmid>, r: multiset<Mmid>)
    ensures t + f + (l + (s + r)) == t + f + l + r + s
  {
  }

  lemma SetKidIds(t: Tree, at: nat, s: Tree)
    requires t.Inner? && at <= |t.rest|
    ensures Ids(SetKid(t, at, s)) == OffIds(t, at) + Ids(s)
  {
    if at > 0 {
      hide Ids, BranchIds;
      var b := Branch(t.rest[at - 1].key, s);
      var l, r := t.rest[..at - 1], t.rest[at..];
      assert SetKid(t, at, s) == Inner(t.id, t.first, l + ([b] + r));
      InnerParts(t.id, t.first, l + ([b] + r));
      BranchIdsAppend(l, [b] + r);
      BranchIdsAppend([b], r);
      OneBranch(b);
      MoveOut(multiset{t.id}, Ids(t.first), BranchIds(l), Ids(s), BranchIds(r));
    }
  }

  lemma KidIds(t: Tree, at: nat)
    requires t.Inner? && at <= |t.rest|
    ensures Ids(t) == OffIds(t, at) + Ids(Kid(t, at))
  {
    SetKidIds(t, at, Kid(t, at));
    SetKidSame(t, at);
  }

  /** The bounds child `at` must respect. */
  function KidLo(t: Tree, at: nat, lo: int): int
    requires t.Inner? && at <= |t.rest|
  {
    if at == 0 then lo else t.rest[at - 1].key
  }

  function KidHi(t: Tree, at: nat, hi: int): int
    requires t.Inner? && at <= |t.rest|
  {
    if at == |t.rest| then hi else t.rest[at].key
  }

  /** Everything about `t` being well formed except child `at`. */
  ghost predicate OffWF(t: Tree, at: nat, d: nat, order: nat, lo: int, hi: int)
  {
    && t.Inner? && at <= |t.rest| && d >= 2 && 1 <= |t.rest| < order
    && BranchesWF(t.rest[at..], d - 1, order, hi)
    && (at > 0 ==> && WF(t.first, d - 1, order, lo, t.rest[0].key)
                   && BranchesWF(t.rest[..at - 1], d - 1, order, t.rest[at - 1].key))
  }

  lemma SetKidWF(t: Tree, at: nat, s: Tree, d: nat, order: nat, lo: int, hi: int)
    requires OffWF(t, at, d, order, lo, hi)
    requires WF(s, d - 1, order, KidLo(t, at, lo), KidHi(t, at, hi))
    ensures WF(SetKid(t, at, s), d, order, lo, hi)
  {
    if at == 0 {
      assert t.rest[0..] == t.rest;
    } else {
      var b := Branch(t.rest[at - 1].key, s);
      var r := SetKid(t, at, s);
      assert r.rest == t.rest[..at - 1] + ([b] + t.rest[at..]);
      assert ([b] + t.rest[at..])[1..] == t.rest[at..];
      BranchesWFAppend(t.rest[..at - 1], [b] + t.rest[at..], d - 1, order, hi);
      assert r.rest[0].key == t.rest[0].key;
    }
  }

  lemma KidWF(t: Tree, at: nat, d: nat, order: nat, lo: int, hi: int)
    requires WF(t, d, order, lo, hi) && t.Inner? && at <= |t.rest|
    ensures OffWF(t, at, d, order, lo, hi)
    ensures WF(Kid(t, at), d - 1, order, KidLo(t, at, lo), KidHi(t, at, hi))
  {
    if at == 0 {
      assert t.rest[0..] == t.rest;
    } else {
      var b := t.rest[at - 1];
      assert t.rest == t.rest[..at - 1] + ([b] + t.rest[at..]);
      assert ([b] + t.rest[at..])[1..] == t.rest[at..];
      BranchesWFAppend(t.rest[..at - 1], [b] + t.rest[at..], d - 1, order, hi);
    }
  }

  /** Records off the path through child `at` lie outside that child's bounds. */
  lemma OffOrder(t: Tree, at: nat, d: nat, order: nat, lo: int, hi: int)
    requires OffWF(t, at, d, order, lo, hi)
    ensures forall r :: r in Before(t, at) ==> lo <= r.hkey < KidLo(t, at, lo)
    ensures forall r :: r in After(t, at) ==> KidHi(t, at, hi) <= r.hkey < hi
    ensures lo <= KidLo(t, at, lo) && KidHi(t, at, hi) <= hi
  {
    BranchesAscending(t.rest[at..], d - 1, order, hi);
    if at > 0 {
      WFAscending(t.first, d - 1, order, lo, t.rest[0].key);
      BranchesAscending(t.rest[..at - 1], d - 1, order, t.rest[at - 1].key);
    }
  }
}
