/** Deletion on trees: a record, or an emptied child, leaves a node; a node left without
    keys borrows from a sibling or is merged with it. */
module BTreeDelete {
  import opened BTreeShape
  import opened BTreeNode
  import opened BTreePool
  import opened BTreeInsert

  /** `s` without record `at` of a leaf, or without child `at` of an inner node. */
  ghost function Without(s: Tree, at: nat): (t: Tree)
    requires CanDrop(s, at)
    ensures t.id == s.id && KeyCount(t) == KeyCount(s) - 1 && t.Leaf? == s.Leaf? && t.Inner? == s.Inner?
  {
    if s.Leaf? then Leaf(s.id, RemoveAt(s.recs, at))
    else if at == 0 then Inner(s.id, s.rest[0].kid, s.rest[1..])
    else Inner(s.id, s.first, RemoveAt(s.rest, at - 1))
  }

  ghost predicate CanDrop(s: Tree, at: nat) {
    match s
    case Leaf(_, recs) => at < |recs|
    case Inner(_, _, rest) => at <= |rest| && rest != []
    case Freed(_) => false
  }

  /** Well formed but for a possible lack of keys. */
  ghost predicate Thin(t: Tree, d: nat, order: nat, lo: int, hi: int) {
    match t
    case Leaf(_, recs) => d == 1 && |recs| < order && Ascending(recs) && Within(recs, lo, hi)
    case Inner(_, first, rest) =>
      && d >= 2 && |rest| < order
      && WF(first, d - 1, order, lo, HeadKey(rest, hi))
      && BranchesWF(rest, d - 1, order, hi)
    case Freed(_) => false
  }

  lemma ThinWF(t: Tree, d: nat, order: nat, lo: int, hi: int)
    ensures WF(t, d, order, lo, hi) <==> Thin(t, d, order, lo, hi) && KeyCount(t) >= 1
  {
  }

  /** Node `s` waits to lose record or child `at`; a child that goes has been emptied. */
  ghost predicate Doomed(s: Tree, at: nat, d: nat, order: nat, lo: int, hi: int) {
    && CanDrop(s, at) && KeyCount(s) < order && lo < hi
    && (s.Inner? ==> Kid(s, at).Freed?)
    && Thin(Without(s, at), d, order, lo, hi)
  }

  /** The nodes that go with the deletion. */
  ghost function Gone(s: Tree, at: nat): set<Mmid>
    requires CanDrop(s, at)
  {
    if s.Inner? then {Kid(s, at).id} else {}
  }

  lemma WithoutContents(s: Tree, at: nat)
    requires CanDrop(s, at) && s.Inner? && Kid(s, at).Freed?
    ensures Contents(Without(s, at)) == Contents(s)
  {
    assert Contents(Kid(s, at)) == [];
    if at == 0 {
      AroundBranch([], s.rest[0], s.rest[1..]);
      assert s.rest == [] + [s.rest[0]] + s.rest[1..];
    } else {
      hide Contents, BranchContents;
      var l, b, r := s.rest[..at - 1], s.rest[at - 1], s.rest[at..];
      assert s.rest == l + [b] + r;
      AroundBranch(l, b, r);
      BranchContentsAppend(l, r);
      assert BranchContents(l) + [] == BranchContents(l);
      InnerParts(s.id, s.first, s.rest);
      InnerParts(s.id, s.first, l + r);
    }
  }

  lemma WithoutIds(s: Tree, at: nat)
    requires CanDrop(s, at) && s.Inner? && Kid(s, at).Freed?
    ensures Ids(Without(s, at)) + multiset(Gone(s, at)) == Ids(s)
  {
    var x := Kid(s, at);
    assert multiset(Gone(s, at)) == multiset{x.id} == Ids(x);
    if at == 0 {
      AroundBranch([], s.rest[0], s.rest[1..]);
      assert s.rest == [] + [s.rest[0]] + s.rest[1..];
    } else {
      hide Ids, BranchIds;
      var l, b, r := s.rest[..at - 1], s.rest[at - 1], s.rest[at..];
      assert s.rest == l + [b] + r;
      AroundBranch(l, b, r);
      BranchIdsAppend(l, r);
      InnerParts(s.id, s.first, s.rest);
      InnerParts(s.id, s.first, l + r);
      MoveLast(multiset{s.id} + Ids(s.first), BranchIds(l), Ids(x), BranchIds(r));
    }
  }

  lemma MoveLast(a: multiset<Mmid>, b: multiset<Mmid>, c: multiset<Mmid>, d: multiset<Mmid>)
    ensures a + (b + c + d) == a + (b + d) + c
  {
  }

  // ---------------------------------------------------------------------------
  // Neighbours: two nodes and the separator between them
  // ---------------------------------------------------------------------------

  ghost predicate SameKind(l: Tree, r: Tree) {
    (l.Leaf? && r.Leaf?) || (l.Inner? && r.Inner?)
  }

  /** Merge `r` into `l`; between inner nodes the separator comes down. */
  ghost function Joined(l: Tree, key: int, r: Tree): Tree
    requires SameKind(l, r)
  {
    if l.Leaf? then Leaf(l.id, l.recs + r.recs)
    else Inner(l.id, l.first, l.rest + [Branch(key, r.first)] + r.rest)
  }

  /** Move the first record or child of `r` to `l`. */
  ghost function FromRight(l: Tree, key: int, r: Tree): (Tree, int, Tree)
    requires SameKind(l, r) && KeyCount(r) >= 2
  {
    if l.Leaf? then (Leaf(l.id, l.recs + [r.recs[0]]), r.recs[1].hkey, Leaf(r.id, r.recs[1..]))
    else (Inner(l.id, l.first, l.rest + [Branch(key, r.first)]), r.rest[0].key,
          Inner(r.id, r.rest[0].kid, r.rest[1..]))
  }

  /** Move the last record or child of `l` to `r`. */
  ghost function FromLeft(l: Tree, key: int, r: Tree): (Tree, int, Tree)
    requires SameKind(l, r) && KeyCount(l) >= 2
  {
    var n := KeyCount(l) - 1;
    if l.Leaf? then (Leaf(l.id, l.recs[..n]), l.recs[n].hkey, Leaf(r.id, [l.recs[n]] + r.recs))
    else (Inner(l.id, l.first, l.rest[..n]), l.rest[n].key,
          Inner(r.id, l.rest[n].kid, [Branch(key, r.first)] + r.rest))
  }

  lemma JoinedWF(l: Tree, key: int, r: Tree, d: nat, order: nat, lo: int, hi: int)
    requires Thin(l, d, order, lo, key) && Thin(r, d, order, key, hi)
    requires 1 <= KeyCount(l) + KeyCount(r) < order - 1 && lo <= key <= hi
    ensures SameKind(l, r) && WF(Joined(l, key, r), d, order, lo, hi)
  {
    if l.Inner? {
      var tail := [Branch(key, r.first)] + r.rest;
      assert tail[1..] == r.rest;
      assert l.rest + [Branch(key, r.first)] + r.rest == l.rest + tail;
      BranchesWFAppend(l.rest, tail, d - 1, order, hi);
    }
  }

  lemma FromRightWF(l: Tree, key: int, r: Tree, d: nat, order: nat, lo: int, hi: int)
    requires Thin(l, d, order, lo, key) && Thin(r, d, order, key, hi)
    requires KeyCount(r) >= 2 && KeyCount(l) == 0 && order >= 3 && lo <= key
    ensures SameKind(l, r)
    ensures var (l', key', r') := FromRight(l, key, r);
            WF(l', d, order, lo, key') && WF(r', d, order, key', hi)
  {
    if l.Inner? {
      var b := Branch(key, r.first);
      assert l.rest + [b] == [b];
      assert [b][1..] == [];
    }
  }

  lemma FromLeftWF(l: Tree, key: int, r: Tree, d: nat, order: nat, lo: int, hi: int)
    requires Thin(l, d, order, lo, key) && Thin(r, d, order, key, hi)
    requires KeyCount(l) >= 2 && KeyCount(r) == 0 && order >= 3 && key <= hi
    ensures SameKind(l, r)
    ensures var (l', key', r') := FromLeft(l, key, r);
            WF(l', d, order, lo, key') && WF(r', d, order, key', hi)
  {
    var n := KeyCount(l) - 1;
    if l.Inner? {
      var b := Branch(key, r.first);
      assert [b] + r.rest == [b];
      assert [b][1..] == [];
      assert l.rest == l.rest[..n] + [l.rest[n]];
      assert [l.rest[n]][1..] == [];
      BranchesWFAppend(l.rest[..n], [l.rest[n]], d - 1, order, key);
    }
  }

  lemma JoinedContents(l: Tree, key: int, r: Tree)
    requires SameKind(l, r)
    ensures Contents(Joined(l, key, r)) == Contents(l) + Contents(r)
    ensures Ids(Joined(l, key, r)) + multiset{r.id} == Ids(l) + Ids(r)
  {
    if l.Inner? {
      var b := Branch(key, r.first);
      assert l.rest + [b] + r.rest == l.rest + ([b] + r.rest);
      BranchContentsAppend(l.rest, [b] + r.rest);
      BranchContentsAppend([b], r.rest);
      BranchIdsAppend(l.rest, [b] + r.rest);
      BranchIdsAppend([b], r.rest);
      assert BranchContents([b]) == Contents(r.first) + BranchContents([]) == Contents(r.first);
      assert BranchIds([b]) == Ids(r.first) + BranchIds([]) == Ids(r.first);
    }
  }

  lemma FromRightContents(l: Tree, key: int, r: Tree)
    requires SameKind(l, r) && KeyCount(r) >= 2
    ensures var (l', _, r') := FromRight(l, key, r); Contents(l') + Contents(r') == Contents(l) + Contents(r)
  {
    if l.Inner? {
      hide Contents, BranchContents;
      var b, c, tail := Branch(key, r.first), r.rest[0], r.rest[1..];
      BranchContentsAppend(l.rest, [b]);
      OneBranch(b);
      AroundBranch([], c, tail);
      OneBranch(c);
      BranchContentsAppend([c], tail);
      assert r.rest == [c] + tail;
      InnerParts(l.id, l.first, l.rest);
      InnerParts(l.id, l.first, l.rest + [b]);
      InnerParts(r.id, r.first, r.rest);
      InnerParts(r.id, c.kid, tail);
      SeqHand(Contents(l.first), BranchContents(l.rest), Contents(r.first), Contents(c.kid) + BranchContents(tail));
    }
  }

  lemma SeqHand<T>(a: seq<T>, b: seq<T>, c: seq<T>, d: seq<T>)
    ensures (a + (b + c)) + d == (a + b) + (c + d)
  {
  }

  lemma FromRightIds(l: Tree, key: int, r: Tree)
    requires SameKind(l, r) && KeyCount(r) >= 2
    ensures var (l', _, r') := FromRight(l, key, r); Ids(l') + Ids(r') == Ids(l) + Ids(r)
  {
    if l.Inner? {
      hide Ids, BranchIds;
      var b, c, tail := Branch(key, r.first), r.rest[0], r.rest[1..];
      BranchIdsAppend(l.rest, [b]);
      OneBranch(b);
      OneBranch(c);
      BranchIdsAppend([c], tail);
      assert r.rest == [c] + tail;
      InnerParts(l.id, l.first, l.rest);
      InnerParts(l.id, l.first, l.rest + [b]);
      InnerParts(r.id, r.first, r.rest);
      InnerParts(r.id, c.kid, tail);
      Hand(multiset{l.id} + Ids(l.first), BranchIds(l.rest), multiset{r.id}, Ids(r.first), Ids(c.kid), BranchIds(tail));
    }
  }

  lemma Hand(a: multiset<Mmid>, b: multiset<Mmid>, c: multiset<Mmid>, d: multiset<Mmid>, e: multiset<Mmid>,
      f: multiset<Mmid>)
    ensures (a + b) + (c + d + (e + f)) == (a + (b + d)) + (c + e + f)
  {
  }

  lemma FromLeftContents(l: Tree, key: int, r: Tree)
    requires SameKind(l, r) && KeyCount(l) >= 2
    ensures var (l', _, r') := FromLeft(l, key, r); Contents(l') + Contents(r') == Contents(l) + Contents(r)
  {
    if l.Inner? {
      hide Contents, BranchContents;
      var n := KeyCount(l) - 1;
      var b, c, head := Branch(key, r.first), l.rest[n], l.rest[..n];
      assert l.rest == head + [c];
      BranchContentsAppend(head, [c]);
      OneBranch(c);
      OneBranch(b);
      BranchContentsAppend([b], r.rest);
      InnerParts(l.id, l.first, l.rest);
      InnerParts(l.id, l.first, head);
      InnerParts(r.id, r.first, r.rest);
      InnerParts(r.id, c.kid, [b] + r.rest);
      SeqHand(Contents(l.first), BranchContents(head), Contents(c.kid), Contents(r.first) + BranchContents(r.rest));
    }
  }

  lemma FromLeftIds(l: Tree, key: int, r: Tree)
    requires SameKind(l, r) && KeyCount(l) >= 2
    ensures var (l', _, r') := FromLeft(l, key, r); Ids(l') + Ids(r') == Ids(l) + Ids(r)
  {
    if l.Inner? {
      hide Ids, BranchIds;
      var n := KeyCount(l) - 1;
      var b, c, head := Branch(key, r.first), l.rest[n], l.rest[..n];
      assert l.rest == head + [c];
      BranchIdsAppend(head, [c]);
      OneBranch(c);
      OneBranch(b);
      BranchIdsAppend([b], r.rest);
      InnerParts(l.id, l.first, l.rest);
      InnerParts(l.id, l.first, head);
      InnerParts(r.id, r.first, r.rest);
      InnerParts(r.id, c.kid, [b] + r.rest);
      HandBack(multiset{l.id} + Ids(l.first), BranchIds(head), Ids(c.kid), multiset{r.id}, Ids(r.first),
        BranchIds(r.rest));
    }
  }

  lemma HandBack(a: multiset<Mmid>, b: multiset<Mmid>, c: multiset<Mmid>, d: multiset<Mmid>, e: multiset<Mmid>,
      f: multiset<Mmid>)
    ensures (a + (b + c)) + (d + e + f) == (a + b) + (d + c + (e + f))
  {
  }

  // ---------------------------------------------------------------------------
  // A parent with two neighbouring children rebuilt
  // ---------------------------------------------------------------------------

  /** `p` with children i and i + 1 replaced and a new separator between them. */
  ghost function Paired(p: Tree, i: nat, l: Tree, key: int, r: Tree): (q: Tree)
    requires p.Inner? && i < |p.rest|
    ensures q.Inner? && q.id == p.id && |q.rest| == |p.rest| && Kid(q, i) == l && Kid(q, i + 1) == r
  {
    var q := SetKid(p, i, l);
    Inner(p.id, q.first, q.rest[i := Branch(key, r)])
  }

  /** `p` is well formed but for children i and i + 1. */
  ghost predicate OffPairWF(p: Tree, i: nat, d: nat, order: nat, lo: int, hi: int) {
    && p.Inner? && i < |p.rest| && d >= 2 && |p.rest| < order
    && BranchesWF(p.rest[i + 1..], d - 1, order, hi)
    && (i > 0 ==> && WF(p.first, d - 1, order, lo, p.rest[0].key)
                  && BranchesWF(p.rest[..i - 1], d - 1, order, p.rest[i - 1].key))
  }

  lemma OffPair(p: Tree, at: nat, i: nat, d: nat, order: nat, lo: int, hi: int)
    requires OffWF(p, at, d, order, lo, hi) && (at == i || at == i + 1) && i < |p.rest|
    ensures OffPairWF(p, i, d, order, lo, hi)
    ensures at == i ==> WF(Kid(p, i + 1), d - 1, order, p.rest[i].key, KidHi(p, i + 1, hi))
    ensures at == i + 1 ==> WF(Kid(p, i), d - 1, order, KidLo(p, i, lo), p.rest[i].key)
  {
    if at == i {
      assert p.rest[i..][1..] == p.rest[i + 1..];
    } else if i > 0 {
      assert p.rest[..i] == p.rest[..i - 1] + [p.rest[i - 1]];
      assert [p.rest[i - 1]][1..] == [];
      BranchesWFAppend(p.rest[..i - 1], [p.rest[i - 1]], d - 1, order, p.rest[i].key);
    }
  }

  lemma PairedWF(p: Tree, i: nat, l: Tree, key: int, r: Tree, d: nat, order: nat, lo: int, hi: int)
    requires OffPairWF(p, i, d, order, lo, hi)
    requires WF(l, d - 1, order, KidLo(p, i, lo), key)
    requires WF(r, d - 1, order, key, KidHi(p, i + 1, hi))
    ensures WF(Paired(p, i, l, key, r), d, order, lo, hi)
  {
    var q := Paired(p, i, l, key, r);
    var tail := [Branch(key, r)] + p.rest[i + 1..];
    assert tail[1..] == p.rest[i + 1..];
    if i == 0 {
      assert q.rest == tail;
    } else {
      var mid := [Branch(p.rest[i - 1].key, l)] + tail;
      assert mid[1..] == tail;
      assert q.rest == p.rest[..i - 1] + mid;
      BranchesWFAppend(p.rest[..i - 1], mid, d - 1, order, hi);
    }
  }

  lemma PairBounds(p: Tree, i: nat, m: Tree, d: nat, order: nat, lo: int, hi: int)
    requires OffPairWF(p, i, d, order, lo, hi)
    requires WF(m, d - 1, order, KidLo(p, i, lo), KidHi(p, i + 1, hi))
    ensures lo < hi
  {
    WFAscending(m, d - 1, order, KidLo(p, i, lo), KidHi(p, i + 1, hi));
    BranchesAscending(p.rest[i + 1..], d - 1, order, hi);
    if i > 0 {
      WFAscending(p.first, d - 1, order, lo, p.rest[0].key);
      BranchesAscending(p.rest[..i - 1], d - 1, order, p.rest[i - 1].key);
    }
  }

  /** Merging into the left node dooms the right one. */
  lemma PairedDoomed(p: Tree, i: nat, m: Tree, id: Mmid, d: nat, order: nat, lo: int, hi: int)
    requires OffPairWF(p, i, d, order, lo, hi)
    requires WF(m, d - 1, order, KidLo(p, i, lo), KidHi(p, i + 1, hi))
    ensures Doomed(Paired(p, i, m, p.rest[i].key, Freed(id)), i + 1, d, order, lo, hi)
  {
    var q := Paired(p, i, m, p.rest[i].key, Freed(id));
    var t := Without(q, i + 1);
    PairBounds(p, i, m, d, order, lo, hi);
    if i == 0 {
      assert t.rest == p.rest[1..];
    } else {
      var tail := [Branch(p.rest[i - 1].key, m)] + p.rest[i + 1..];
      assert tail[1..] == p.rest[i + 1..];
      assert t.rest == p.rest[..i - 1] + tail;
      BranchesWFAppend(p.rest[..i - 1], tail, d - 1, order, hi);
    }
  }

  ghost function OffPairIds(p: Tree, i: nat): multiset<Mmid>
    requires p.Inner? && i < |p.rest|
  {
    if i == 0 then multiset{p.id} + BranchIds(p.rest[1..])
    else multiset{p.id} + Ids(p.first) + BranchIds(p.rest[..i - 1]) + BranchIds(p.rest[i + 1..])
  }

  lemma PairedContents(p: Tree, i: nat, l: Tree, key: int, r: Tree)
    requires p.Inner? && i < |p.rest|
    ensures Contents(Paired(p, i, l, key, r)) == Before(p, i) + (Contents(l) + Contents(r)) + After(p, i + 1)
    ensures Ids(Paired(p, i, l, key, r)) == OffPairIds(p, i) + Ids(l) + Ids(r)
  {
    hide Contents, Ids, BranchContents, BranchIds;
    var q := Paired(p, i, l, key, r);
    var b, tail := Branch(key, r), p.rest[i + 1..];
    InnerParts(q.id, q.first, q.rest);
    NoBranch();
    if i == 0 {
      AroundBranch([], b, tail);
      assert q.rest == [] + [b] + tail;
      SpreadRecords([], [], Contents(l), Contents(r), BranchContents(tail));
    } else {
      var c, head := Branch(p.rest[i - 1].key, l), p.rest[..i - 1];
      assert q.rest == (head + [c]) + [b] + tail;
      AroundBranch(head + [c], b, tail);
      AroundBranch(head, c, []);
      assert head + [c] + [] == head + [c];
      Spread(multiset{p.id} + Ids(p.first), BranchIds(head), Ids(l), Ids(r), BranchIds(tail));
      SpreadRecords(Contents(p.first), BranchContents(head), Contents(l), Contents(r), BranchContents(tail));
    }
  }

  lemma NoBranch()
    ensures BranchContents([]) == [] && BranchIds([]) == multiset{}
  {
  }

  lemma SpreadRecords(f: seq<Record>, h: seq<Record>, l: seq<Record>, r: seq<Record>, t: seq<Record>)
    ensures f + ((h + l + []) + r + t) == f + h + (l + r) + t
    ensures l + ([] + r + t) == [] + (l + r) + t
  {
  }

  lemma Spread(a: multiset<Mmid>, h: multiset<Mmid>, l: multiset<Mmid>, r: multiset<Mmid>, t: multiset<Mmid>)
    ensures a + ((h + l + multiset{}) + r + t) == a + h + t + l + r
  {
  }

  lemma PairSame(p: Tree, i: nat)
    requires p.Inner? && i < |p.rest|
    ensures Paired(p, i, Kid(p, i), p.rest[i].key, Kid(p, i + 1)) == p
  {
    SetKidSame(p, i);
  }

  // ---------------------------------------------------------------------------
  // Nodes after a deletion
  // ---------------------------------------------------------------------------

  lemma WithoutSlots(s: Tree, at: nat)
    requires CanDrop(s, at) && s.Inner?
    ensures var t := Without(s, at);
            WithoutChild(s.first.id, Slots(s.rest), at) == (t.first.id, Slots(t.rest))
  {
    var t := Without(s, at);
    if at == 0 {
      assert Slots(t.rest) == Slots(s.rest)[1..];
    } else {
      assert Slots(t.rest) == RemoveAt(Slots(s.rest), at - 1);
    }
  }

  /** The node of `s` once its record or child `at` is dropped. */
  lemma DroppedNodeFor(order: nat, s: Tree, at: nat, n: Node, n': Node, root: bool)
    requires CanDrop(s, at) && NodeFor(n, s, root, order)
    requires n' == n.(keyn := n.keyn - 1, child := n'.child, recs := n'.recs) && |n'.recs| == |n.recs|
    requires s.Leaf? ==> Live(n') == RemoveAt(Live(n), at)
    requires s.Inner? ==> (n'.child, Live(n')) == WithoutChild(n.child, Live(n), at)
    ensures NodeFor(n', Without(s, at), root, order)
  {
    if s.Inner? { WithoutSlots(s, at); }
  }

  /** The pair after borrowing: the new left node, separator and right node. */
  ghost function Borrowed(cur: Tree, sib: Tree, at: nat, sibOnRight: bool, parKey: int): (Tree, int, Tree)
    requires CanDrop(cur, at) && SameKind(cur, sib) && KeyCount(sib) >= 2
  {
    if sibOnRight then FromRight(Without(cur, at), parKey, sib) else FromLeft(sib, parKey, Without(cur, at))
  }

  /** The pair after merging: the left node, now holding everything. */
  ghost function Merged(cur: Tree, sib: Tree, at: nat, sibOnRight: bool, parKey: int): Tree
    requires CanDrop(cur, at) && SameKind(cur, sib)
  {
    if sibOnRight then Joined(Without(cur, at), parKey, sib) else Joined(sib, parKey, Without(cur, at))
  }

  lemma RebalNodesFor(order: nat, cur: Tree, sib: Tree, at: nat, sibOnRight: bool, parKey: int,
                      nc: Node, ns: Node, c: Node, s: Node, hkey: int)
    requires CanDrop(cur, at) && SameKind(cur, sib) && KeyCount(sib) >= 2
    requires NodeFor(nc, cur, false, order) && NodeFor(ns, sib, false, order)
    requires cur.Leaf? ==> LeafRebalanced(nc, ns, at, sibOnRight, c, s, hkey)
    requires cur.Inner? ==> ChildRebalanced(nc, ns, at, sibOnRight, parKey, c, s, hkey)
    ensures var (l, k, r) := Borrowed(cur, sib, at, sibOnRight, parKey);
            && k == hkey
            && NodeFor(if sibOnRight then c else s, l, false, order)
            && NodeFor(if sibOnRight then s else c, r, false, order)
  {
    if cur.Inner? {
      WithoutSlots(cur, at);
      var t := Without(cur, at);
      if sibOnRight {
        assert Slots(t.rest + [Branch(parKey, sib.first)]) == Slots(t.rest) + [Record(parKey, sib.first.id)];
        assert Slots(sib.rest[1..]) == Slots(sib.rest)[1..];
      } else {
        var n := |sib.rest| - 1;
        assert Slots([Branch(parKey, t.first)] + t.rest) == [Record(parKey, t.first.id)] + Slots(t.rest);
        assert Slots(sib.rest[..n]) == Slots(sib.rest)[..n];
      }
    }
  }

  lemma MergeNodesFor(order: nat, cur: Tree, sib: Tree, at: nat, sibOnRight: bool, parKey: int,
                      nc: Node, ns: Node, c: Node, s: Node)
    requires CanDrop(cur, at) && SameKind(cur, sib)
    requires NodeFor(nc, cur, false, order) && NodeFor(ns, sib, false, order)
    requires cur.Leaf? ==> LeafMerged(nc, ns, at, sibOnRight, c, s)
    requires cur.Inner? ==> ChildMerged(nc, ns, at, sibOnRight, parKey, c, s)
    ensures NodeFor(if sibOnRight then c else s, Merged(cur, sib, at, sibOnRight, parKey), false, order)
    ensures var r := if sibOnRight then sib.id else cur.id;
            NodeFor(if sibOnRight then s else c, Freed(r), false, order)
  {
    if cur.Inner? {
      WithoutSlots(cur, at);
      var t := Without(cur, at);
      if sibOnRight {
        assert Slots(t.rest + [Branch(parKey, sib.first)] + sib.rest)
            == Slots(t.rest) + [Record(parKey, sib.first.id)] + Slots(sib.rest);
      } else {
        assert Slots(sib.rest + [Branch(parKey, t.first)] + t.rest)
            == Slots(sib.rest) + [Record(parKey, t.first.id)] + Slots(t.rest);
      }
    }
  }
}
