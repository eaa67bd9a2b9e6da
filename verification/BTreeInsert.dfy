/** Insertion on trees: a record, or a new right sibling, enters a node at a slot; a
    full node is cut in two. */
module BTreeInsert {
  import opened BTreeShape
  import opened BTreePath
  import opened BTreeNode
  import opened BTreePool

  ghost function KeyCount(s: Tree): nat {
    match s
    case Leaf(_, recs) => |recs|
    case Inner(_, _, rest) => |rest|
    case Freed(_) => 0
  }

  /** `s` with `rec` in slot `at`; in an inner node the record brings the subtree `pend`.
      The result may hold one key too many. */
  ghost function Inserted(s: Tree, at: nat, rec: Record, pend: Tree): Tree
    requires !s.Freed? && at <= KeyCount(s)
  {
    if s.Leaf? then Leaf(s.id, InsertAt(s.recs, at, rec))
    else Inner(s.id, s.first, InsertAt(s.rest, at, Branch(rec.hkey, pend)))
  }

  /** Slot `at` is where `rec` belongs: between its neighbours in a leaf, and right
      behind the child it was split from in an inner node. */
  ghost predicate Belongs(s: Tree, at: nat, rec: Record, pend: Tree, d: nat, order: nat, lo: int, hi: int) {
    match s
    case Leaf(_, recs) =>
      && at <= |recs| && lo <= rec.hkey < hi
      && (forall i :: 0 <= i < at ==> recs[i].hkey < rec.hkey)
      && (forall i :: at <= i < |recs| ==> rec.hkey < recs[i].hkey)
    case Inner(_, _, rest) =>
      && at <= |rest| && d >= 2 && rec.mmid == pend.id
      && WF(Kid(s, at), d - 1, order, KidLo(s, at, lo), rec.hkey)
      && WF(pend, d - 1, order, rec.hkey, KidHi(s, at, hi))
    case Freed(_) => false
  }

  lemma InsertedBranches(s: Tree, at: nat, rec: Record, pend: Tree, d: nat, order: nat, lo: int, hi: int)
    requires WF(s, d, order, lo, hi) && Belongs(s, at, rec, pend, d, order, lo, hi) && s.Inner?
    ensures var t := Inserted(s, at, rec, pend);
            && WF(t.first, d - 1, order, lo, t.rest[0].key)
            && BranchesWF(t.rest, d - 1, order, hi)
  {
    var b := Branch(rec.hkey, pend);
    var tail := [b] + s.rest[at..];
    var t := Inserted(s, at, rec, pend);
    assert t.rest == s.rest[..at] + tail;
    KidWF(s, at, d, order, lo, hi);
    assert tail[1..] == s.rest[at..];
    assert BranchesWF(tail, d - 1, order, hi);
    if at > 0 {
      assert s.rest[..at] == s.rest[..at - 1] + [s.rest[at - 1]];
      BranchesWFAppend(s.rest[..at - 1], [s.rest[at - 1]], d - 1, order, rec.hkey);
      assert [s.rest[at - 1]][1..] == [];
    }
    BranchesWFAppend(s.rest[..at], tail, d - 1, order, hi);
  }

  /** Insertion into a node with room keeps it well formed. */
  lemma InsertedFits(s: Tree, at: nat, rec: Record, pend: Tree, d: nat, order: nat, lo: int, hi: int)
    requires WF(s, d, order, lo, hi) && Belongs(s, at, rec, pend, d, order, lo, hi)
    requires KeyCount(s) < order - 1
    ensures WF(Inserted(s, at, rec, pend), d, order, lo, hi)
  {
    if s.Inner? {
      InsertedBranches(s, at, rec, pend, d, order, lo, hi);
    }
  }

  ghost function SpareOf(s: Tree, pend: Tree): multiset<Mmid> {
    if s.Inner? then Ids(pend) else multiset{}
  }

  lemma InsertedIds(s: Tree, at: nat, rec: Record, pend: Tree)
    requires !s.Freed? && at <= KeyCount(s)
    ensures Ids(Inserted(s, at, rec, pend)) == Ids(s) + SpareOf(s, pend)
  {
    if s.Inner? {
      var b := Branch(rec.hkey, pend);
      assert s.rest == s.rest[..at] + s.rest[at..];
      BranchIdsAppend(s.rest[..at], s.rest[at..]);
      assert InsertAt(s.rest, at, b) == s.rest[..at] + ([b] + s.rest[at..]);
      BranchIdsAppend(s.rest[..at], [b] + s.rest[at..]);
      BranchIdsAppend([b], s.rest[at..]);
      assert BranchIds([b]) == Ids(pend);
    }
  }

  /** The records up to the end of child `at`. */
  lemma ThroughKid(s: Tree, at: nat)
    requires s.Inner? && at <= |s.rest|
    ensures Contents(s.first) + BranchContents(s.rest[..at]) == Before(s, at) + Contents(Kid(s, at))
  {
    if at == 0 {
      assert s.rest[..0] == [];
    } else {
      hide Contents, BranchContents;
      assert s.rest[..at] == s.rest[..at - 1] + [s.rest[at - 1]];
      BranchContentsAppend(s.rest[..at - 1], [s.rest[at - 1]]);
      OneBranch(s.rest[at - 1]);
    }
  }

  lemma Reassociate<T>(f: seq<T>, x: seq<T>, b: seq<T>, k: seq<T>, d: seq<T>, e: seq<T>)
    requires f + x == b + k
    ensures f + (x + d + e) == b + (k + d) + e
  {
    assert f + (x + d + e) == (f + x) + d + e;
    assert b + (k + d) + e == (b + k) + d + e;
  }

  lemma InsertedContents(s: Tree, at: nat, rec: Record, pend: Tree)
    requires s.Inner? && at <= |s.rest|
    ensures Contents(Inserted(s, at, rec, pend)) ==
            Before(s, at) + (Contents(Kid(s, at)) + Contents(pend)) + After(s, at)
  {
    hide Contents, BranchContents, Before, Kid;
    var b := Branch(rec.hkey, pend);
    InnerParts(s.id, s.first, InsertAt(s.rest, at, b));
    AroundBranch(s.rest[..at], b, s.rest[at..]);
    ThroughKid(s, at);
    Reassociate(Contents(s.first), BranchContents(s.rest[..at]), Before(s, at), Contents(Kid(s, at)), Contents(pend),
      After(s, at));
  }

  /** The two halves of an overfull node cut at `m`. */
  ghost function LeftHalf(t: Tree, m: nat): Tree
    requires !t.Freed? && m < KeyCount(t)
  {
    if t.Leaf? then Leaf(t.id, t.recs[..m]) else Inner(t.id, t.first, t.rest[..m])
  }

  ghost function RightHalf(t: Tree, m: nat, id: Mmid): Tree
    requires !t.Freed? && m < KeyCount(t)
  {
    if t.Leaf? then Leaf(id, t.recs[m..]) else Inner(id, t.rest[m].kid, t.rest[m + 1..])
  }

  ghost function CutKey(t: Tree, m: nat): int
    requires !t.Freed? && m < KeyCount(t)
  {
    if t.Leaf? then t.recs[m].hkey else t.rest[m].key
  }

  lemma CutBranches(first: Tree, rest: seq<Branch>, m: nat, d: nat, order: nat, lo: int, hi: int)
    requires m < |rest| && WF(first, d, order, lo, rest[0].key) && BranchesWF(rest, d, order, hi)
    ensures WF(first, d, order, lo, HeadKey(rest[..m], rest[m].key))
    ensures BranchesWF(rest[..m], d, order, rest[m].key)
    ensures WF(rest[m].kid, d, order, rest[m].key, HeadKey(rest[m + 1..], hi))
    ensures BranchesWF(rest[m + 1..], d, order, hi)
  {
    assert rest == rest[..m] + rest[m..];
    assert rest[m..][1..] == rest[m + 1..];
    BranchesWFAppend(rest[..m], rest[m..], d, order, hi);
  }

  lemma CutRecords(recs: seq<Record>, at: nat, rec: Record, m: nat, lo: int, hi: int)
    requires Ascending(recs) && Within(recs, lo, hi) && at <= |recs| && lo <= rec.hkey < hi && m <= |recs|
    requires forall i :: 0 <= i < at ==> recs[i].hkey < rec.hkey
    requires forall i :: at <= i < |recs| ==> rec.hkey < recs[i].hkey
    ensures var big := InsertAt(recs, at, rec);
            && Ascending(big[..m]) && Within(big[..m], lo, big[m].hkey)
            && Ascending(big[m..]) && Within(big[m..], big[m].hkey, hi)
  {
    var big := InsertAt(recs, at, rec);
    assert Ascending(big);
  }

  lemma CutLeafWF(s: Tree, at: nat, rec: Record, pend: Tree, m: nat, id: Mmid, d: nat, order: nat, lo: int, hi: int)
    requires order >= 3 && WF(s, d, order, lo, hi) && Belongs(s, at, rec, pend, d, order, lo, hi) && s.Leaf?
    requires KeyCount(s) == order - 1 && m == SplitPoint(order, s.Leaf?, at)
    ensures var t := Inserted(s, at, rec, pend);
            && m < KeyCount(t)
            && WF(LeftHalf(t, m), d, order, lo, CutKey(t, m))
            && WF(RightHalf(t, m, id), d, order, CutKey(t, m), hi)
  {
    CutRecords(s.recs, at, rec, m, lo, hi);
  }

  lemma CutInnerWF(s: Tree, at: nat, rec: Record, pend: Tree, m: nat, id: Mmid, d: nat, order: nat, lo: int, hi: int)
    requires order >= 3 && WF(s, d, order, lo, hi) && Belongs(s, at, rec, pend, d, order, lo, hi) && s.Inner?
    requires KeyCount(s) == order - 1 && m == SplitPoint(order, s.Leaf?, at)
    ensures var t := Inserted(s, at, rec, pend);
            && m < KeyCount(t)
            && WF(LeftHalf(t, m), d, order, lo, CutKey(t, m))
            && WF(RightHalf(t, m, id), d, order, CutKey(t, m), hi)
  {
    var t := Inserted(s, at, rec, pend);
    InsertedBranches(s, at, rec, pend, d, order, lo, hi);
    CutBranches(t.first, t.rest, m, d - 1, order, lo, hi);
  }

  /** Cutting an overfull node leaves two well-formed nodes around the cut key. */
  lemma CutWF(s: Tree, at: nat, rec: Record, pend: Tree, m: nat, id: Mmid, d: nat, order: nat, lo: int, hi: int)
    requires order >= 3 && WF(s, d, order, lo, hi) && Belongs(s, at, rec, pend, d, order, lo, hi)
    requires KeyCount(s) == order - 1 && m == SplitPoint(order, s.Leaf?, at)
    ensures var t := Inserted(s, at, rec, pend);
            && m < KeyCount(t)
            && WF(LeftHalf(t, m), d, order, lo, CutKey(t, m))
            && WF(RightHalf(t, m, id), d, order, CutKey(t, m), hi)
  {
    hide Belongs, Inserted, LeftHalf, RightHalf, CutKey, SplitPoint;
    if s.Inner? {
      CutInnerWF(s, at, rec, pend, m, id, d, order, lo, hi);
    } else {
      CutLeafWF(s, at, rec, pend, m, id, d, order, lo, hi);
    }
  }

  lemma CutContents(t: Tree, m: nat, id: Mmid)
    requires !t.Freed? && m < KeyCount(t)
    ensures Contents(LeftHalf(t, m)) + Contents(RightHalf(t, m, id)) == Contents(t)
    ensures Ids(LeftHalf(t, m)) + Ids(RightHalf(t, m, id)) == Ids(t) + multiset{id}
  {
    if t.Inner? {
      var b := t.rest[m];
      assert t.rest == t.rest[..m] + ([b] + t.rest[m + 1..]);
      BranchContentsAppend(t.rest[..m], [b] + t.rest[m + 1..]);
      BranchContentsAppend([b], t.rest[m + 1..]);
      BranchIdsAppend(t.rest[..m], [b] + t.rest[m + 1..]);
      BranchIdsAppend([b], t.rest[m + 1..]);
      assert BranchContents([b]) == Contents(b.kid);
      assert BranchIds([b]) == Ids(b.kid);
    }
  }

  /** One level up, the cut key and the right half belong behind the left half. */
  lemma CutBelongsAbove(t: Tree, at: nat, l: Tree, r: Tree, rec: Record, d: nat, order: nat, lo: int, hi: int)
    requires OffWF(t, at, d, order, lo, hi)
    requires WF(l, d - 1, order, KidLo(t, at, lo), rec.hkey)
    requires WF(r, d - 1, order, rec.hkey, KidHi(t, at, hi)) && rec.mmid == r.id
    ensures WF(SetKid(t, at, l), d, order, lo, hi)
    ensures Belongs(SetKid(t, at, l), at, rec, r, d, order, lo, hi)
  {
    WFAscending(r, d - 1, order, rec.hkey, KidHi(t, at, hi));
    WFWiden(l, d - 1, order, KidLo(t, at, lo), rec.hkey, KidLo(t, at, lo), KidHi(t, at, hi));
    SetKidWF(t, at, l, d, order, lo, hi);
  }

  // ---------------------------------------------------------------------------
  // Insertion in the pool
  // ---------------------------------------------------------------------------

  /** The node buffers produced by a split hold the two halves. */
  lemma SplitNodesFor(order: nat, s: Tree, n: Node, at: nat, rec: Record, pend: Tree, l: Node, r: Node, up: int,
      id: Mmid)
    requires order >= 3 && !s.Freed? && NodeFor(n, s, n.root, order) && (s.Inner? ==> rec.mmid == pend.id)
    requires SplitInto(order, n, at, rec, l, r, up)
    ensures KeyCount(s) == order - 1 && at <= KeyCount(s)
    ensures var t, m := Inserted(s, at, rec, pend), SplitPoint(order, s.Leaf?, at);
            && m < KeyCount(t)
            && NodeFor(l, LeftHalf(t, m), n.root, order)
            && NodeFor(r, RightHalf(t, m, id), false, order)
            && up == CutKey(t, m)
  {
    if s.Inner? {
      var t, m := Inserted(s, at, rec, pend), SplitPoint(order, s.Leaf?, at);
      SlotsInserted(s, at, rec, pend);
      SlotsCut(t.rest, m);
    }
  }

  lemma SlotsInserted(s: Tree, at: nat, rec: Record, pend: Tree)
    requires s.Inner? && at <= |s.rest| && rec.mmid == pend.id
    ensures var t := Inserted(s, at, rec, pend); t.Inner? && Slots(t.rest) == InsertAt(Slots(s.rest), at, rec)
  {
  }

  lemma SlotsCut(rest: seq<Branch>, m: nat)
    requires m < |rest|
    ensures |Slots(rest)| == |rest| && Slots(rest)[m] == Record(rest[m].key, rest[m].kid.id)
    ensures Slots(rest[..m]) == Slots(rest)[..m] && Slots(rest[m + 1..]) == Slots(rest)[m + 1..]
  {
  }

  /** Adding a slot and its subtree to a node held by the pool. */
  lemma InsertedRepresents(h: Pool, h': Pool, s: Tree, at: nat, rec: Record, pend: Tree, root: bool, order: nat)
    requires !s.Freed? && at <= KeyCount(s) && s.id in h && NodeFor(h[s.id], s, root, order)
    requires s.Inner? ==> rec.mmid == pend.id && Represents(h', pend, false, order)
    requires (s.Inner? ==> KidsRepresented(h', s, order)) && s.id in h'
    requires var n, n' := h[s.id], h'[s.id];
             && n' == n.(keyn := n.keyn + 1, recs := n'.recs) && n'.keyn <= |n'.recs| == order
             && Live(n') == InsertAt(Live(n), at, rec)
    ensures Represents(h', Inserted(s, at, rec, pend), root, order)
  {
    var t := Inserted(s, at, rec, pend);
    if s.Inner? {
      assert Slots(t.rest) == InsertAt(Slots(s.rest), at, rec);
      assert KidsRepresented(h', t, order);
    }
    FromKids(h', t, root, order);
  }

  /** The halves of a node whose children, the new one included, the pool holds. */
  lemma HalvesRepresent(h: Pool, s: Tree, at: nat, rec: Record, pend: Tree, m: nat, id: Mmid, root: bool, order: nat)
    requires !s.Freed? && at <= KeyCount(s) && (s.Inner? ==> KidsRepresented(h, s, order))
    requires s.Inner? ==> Represents(h, pend, false, order)
    requires m < KeyCount(Inserted(s, at, rec, pend)) && s.id in h && id in h
    requires NodeFor(h[s.id], LeftHalf(Inserted(s, at, rec, pend), m), root, order)
    requires NodeFor(h[id], RightHalf(Inserted(s, at, rec, pend), m, id), false, order)
    ensures Represents(h, LeftHalf(Inserted(s, at, rec, pend), m), root, order)
    ensures Represents(h, RightHalf(Inserted(s, at, rec, pend), m, id), false, order)
  {
    var t := Inserted(s, at, rec, pend);
    assert KidsRepresented(h, t, order);
    FromKids(h, LeftHalf(t, m), root, order);
    FromKids(h, RightHalf(t, m, id), false, order);
  }

  // ---------------------------------------------------------------------------
  // Steps of an insertion
  // ---------------------------------------------------------------------------

  /** `rec` waits to enter node `s`, below `path`, in the slot the trace names; `pend` is
      the subtree it brings into an inner node. */
  ghost predicate Pending(v: View, path: seq<Frame>, s: Tree, rec: Record, pend: Tree, lo: int, hi: int) {
    && Focus(v, path, s, SpareOf(s, pend), lo, hi)
    && WF(s, v.depth - |path|, v.order, PathLo(path, lo), PathHi(path, hi))
    && v.trace[|path|].node == s.id
    && Belongs(s, v.trace[|path|].at, rec, pend, v.depth - |path|, v.order, PathLo(path, lo), PathHi(path, hi))
    && (s.Inner? ==> Represents(v.pool, pend, false, v.order))
  }

  lemma PendingNode(v: View, path: seq<Frame>, s: Tree, rec: Record, pend: Tree, lo: int, hi: int)
    requires Pending(v, path, s, rec, pend, lo, hi)
    ensures Bounded(v) && Framed(path) && |path| < v.depth == |v.trace| && v.trace[|path|].node == s.id
    ensures WF(s, v.depth - |path|, v.order, PathLo(path, lo), PathHi(path, hi))
    ensures Belongs(s, v.trace[|path|].at, rec, pend, v.depth - |path|, v.order, PathLo(path, lo), PathHi(path, hi))
    ensures !s.Freed? && s.id in v.pool && var n := v.pool[s.id];
            && Sized(n, v.order) && n.keyn == KeyCount(s) < v.order && n.leaf == s.Leaf?
            && v.trace[|path|].at <= KeyCount(s) && NodeFor(n, s, n.root, v.order) && n.root == (path == [])
  {
    ToKids(v.pool, s, path == [], v.order);
  }

  /** `w` is `v` after `rec` has been stored in the node of `s`. */
  ghost predicate Stored(v: View, w: View, path: seq<Frame>, s: Tree, rec: Record)
    requires s.id in v.pool && |path| < |v.trace|
  {
    && s.id in w.pool && w == v.(pool := v.pool[s.id := w.pool[s.id]])
    && var n, n' := v.pool[s.id], w.pool[s.id];
    && Sized(n, v.order)
    && n' == n.(keyn := n.keyn + 1, recs := n'.recs) && n'.keyn <= |n'.recs| == v.order
    && v.trace[|path|].at <= n.keyn && Live(n') == InsertAt(Live(n), v.trace[|path|].at, rec)
  }

  lemma StoredFocus(v: View, w: View, path: seq<Frame>, s: Tree, rec: Record, pend: Tree, lo: int, hi: int)
    requires Pending(v, path, s, rec, pend, lo, hi) && KeyCount(s) < v.order - 1
    requires Stored(v, w, path, s, rec)
    ensures w.depth == v.depth && w.order == v.order
    ensures v.trace[|path|].at <= KeyCount(s) &&
            Focus(w, path, Inserted(s, v.trace[|path|].at, rec, pend), multiset{}, lo, hi)
  {
    hide WF, Represents, Ids, PathWF, PathRepresents, NodeFor, Contents, PathIds, TraceOf, Belongs, PathLo, PathHi;
    var at := v.trace[|path|].at;
    PendingNode(v, path, s, rec, pend, lo, hi);
    var t := Inserted(s, at, rec, pend);
    FocusKids(v, w.pool, path, s, pend, SpareOf(s, pend), {s.id}, lo, hi);
    InsertedRepresents(v.pool, w.pool, s, at, rec, pend, path == [], v.order);
    InsertedIds(s, at, rec, pend);
    IdInIds(s);
    FocusIds(v, path, s, SpareOf(s, pend), lo, hi);
    assert w.pool.Keys == v.pool.Keys;
    FocusReplace(v, w, path, s, t, SpareOf(s, pend), multiset{}, {s.id}, lo, hi);
  }

  /** Storing the record in a node with room completes the insertion. */
  lemma InsertedHere(v: View, w: View, path: seq<Frame>, s: Tree, rec: Record, pend: Tree, lo: int, hi: int)
    requires Pending(v, path, s, rec, pend, lo, hi) && KeyCount(s) < v.order - 1
    requires Stored(v, w, path, s, rec)
    ensures v.trace[|path|].at <= KeyCount(s)
    ensures var t := Inserted(s, v.trace[|path|].at, rec, pend);
            && Holds(w, Plug(path, t), lo, hi)
            && Contents(Plug(path, t)) == PathBefore(path) + Contents(t) + PathAfter(path)
  {
    hide *;
    PendingNode(v, path, s, rec, pend, lo, hi);
    var at := v.trace[|path|].at;
    StoredFocus(v, w, path, s, rec, pend, lo, hi);
    InsertedFits(s, at, rec, pend, v.depth - |path|, v.order, PathLo(path, lo), PathHi(path, hi));
    FocusDone(w, path, Inserted(s, at, rec, pend), lo, hi);
  }

  /** After a split, the left half `l` is in place and the right half `r` waits with its record `up`. */
  ghost predicate SplitDone(v: View, path: seq<Frame>, l: Tree, r: Tree, up: Record, lo: int, hi: int) {
    && Focus(v, path, l, Ids(r), lo, hi) && Represents(v.pool, r, false, v.order)
    && up.mmid == r.id
    && WF(l, v.depth - |path|, v.order, PathLo(path, lo), up.hkey)
    && WF(r, v.depth - |path|, v.order, up.hkey, PathHi(path, hi))
  }

  lemma Recount(p: multiset<Mmid>, s: multiset<Mmid>, spare: multiset<Mmid>, k: multiset<Mmid>, all: multiset<Mmid>,
                l: multiset<Mmid>, r: multiset<Mmid>, more: multiset<Mmid>)
    requires p + s + spare + k == all && l + r == s + spare + more
    ensures p + l + r + k == all + more
  {
    assert p + l + r + k == p + (l + r) + k;
    assert p + (s + spare + more) + k == (p + s + spare + k) + more;
  }

  lemma SplitFocus(v: View, w: View, path: seq<Frame>, s: Tree, rec: Record, pend: Tree, up: Record, lo: int, hi: int)
    returns (l: Tree, r: Tree)
    requires Pending(v, path, s, rec, pend, lo, hi) && Bounded(w)
    requires s.id in w.pool && up.mmid in w.pool && up.mmid !in v.pool
    requires w == v.(pool := v.pool[s.id := w.pool[s.id]][up.mmid := w.pool[up.mmid]], next := w.next, trace := w.trace)
    requires w.trace[..|path|] == v.trace[..|path|]
    requires SplitInto(v.order, v.pool[s.id], v.trace[|path|].at, rec, w.pool[s.id], w.pool[up.mmid], up.hkey)
    ensures l.id == s.id && SplitDone(w, path, l, r, up, lo, hi)
    ensures v.trace[|path|].at <= KeyCount(s)
    ensures Contents(l) + Contents(r) == Contents(Inserted(s, v.trace[|path|].at, rec, pend))
  {
    hide WF, Represents, Ids, PathWF, PathRepresents, NodeFor, Contents, PathIds, TraceOf, Belongs, PathLo, PathHi;
    var at, right := v.trace[|path|].at, up.mmid;
    PendingNode(v, path, s, rec, pend, lo, hi);
    var n := v.pool[s.id];
    SplitNodesFor(v.order, s, n, at, rec, pend, w.pool[s.id], w.pool[right], up.hkey, right);
    var t, m := Inserted(s, at, rec, pend), SplitPoint(v.order, s.Leaf?, at);
    l, r := LeftHalf(t, m), RightHalf(t, m, right);
    CutWF(s, at, rec, pend, m, right, v.depth - |path|, v.order, PathLo(path, lo), PathHi(path, hi));
    CutContents(t, m, right);
    InsertedIds(s, at, rec, pend);
    FocusKids(v, w.pool, path, s, pend, SpareOf(s, pend), {s.id, right}, lo, hi);
    HalvesRepresent(w.pool, s, at, rec, pend, m, right, path == [], v.order);
    IdInIds(s);
    assert w.pool.Keys == v.pool.Keys + {right};
    OneMore(v.pool.Keys, right);
    FocusIds(v, path, s, SpareOf(s, pend), lo, hi);
    Recount(PathIds(path), Ids(s), SpareOf(s, pend), multiset(v.leaked), multiset(v.pool.Keys), Ids(l), Ids(r),
      multiset{right});
    assert PathIds(path) + Ids(l) + Ids(r) + multiset(v.leaked) == multiset(w.pool.Keys);
    FocusReplace(v, w, path, s, l, SpareOf(s, pend), Ids(r), {s.id, right}, lo, hi);
  }

  /** One level up, the waiting right half is again a pending insertion. */
  lemma PendingUp(v: View, path: seq<Frame>, l: Tree, r: Tree, up: Record, lo: int, hi: int)
    requires SplitDone(v, path, l, r, up, lo, hi) && path != []
    ensures Framed(path) && |path| <= |v.trace|
    ensures var f := Last(path);
            && Pending(v, Up(path), SetKid(f.t, f.at, l), up, r, lo, hi)
            && v.trace[|path| - 1].at == f.at
  {
    hide WF, Represents, Ids, OffWF, PathRepresents, TraceOf, PathIds;
    var f := Last(path);
    FocusUp(v, path, l, Ids(r), lo, hi);
    CutBelongsAbove(f.t, f.at, l, r, up, v.depth - |path| + 1, v.order, PathLo(Up(path), lo), PathHi(Up(path), hi));
  }

  lemma InsertedAbove(path: seq<Frame>, l: Tree, r: Tree, up: Record)
    requires Framed(path) && path != []
    ensures var f := Last(path);
            PathBefore(Up(path)) + Contents(Inserted(SetKid(f.t, f.at, l), f.at, up, r)) + PathAfter(Up(path)) ==
            PathBefore(path) + (Contents(l) + Contents(r)) + PathAfter(path)
  {
    var f := Last(path);
    var u := SetKid(f.t, f.at, l);
    InsertedContents(u, f.at, up, r);
    SetKidAround(f.t, f.at, l);
    Regroup(PathBefore(Up(path)), Before(f.t, f.at), Contents(l) + Contents(r), After(f.t, f.at), PathAfter(Up(path)));
  }

  // ---------------------------------------------------------------------------
  // A new root
  // ---------------------------------------------------------------------------

  lemma GrownShape(nd: Mmid, l: Tree, r: Tree, key: int, d: nat, order: nat, lo: int, hi: int)
    requires order >= 3 && WF(l, d, order, lo, key) && WF(r, d, order, key, hi)
    ensures var t := Inner(nd, l, [Branch(key, r)]);
            && WF(t, d + 1, order, lo, hi)
            && Contents(t) == Contents(l) + Contents(r)
            && Ids(t) == multiset{nd} + Ids(l) + Ids(r)
  {
    var rest := [Branch(key, r)];
    assert rest[1..] == [];
    assert BranchContents(rest) == Contents(r) + BranchContents([]);
    assert BranchIds(rest) == Ids(r) + BranchIds([]);
    WFSize(l, d, order, lo, key);
  }

  lemma GrownNode(h: Pool, t: Tree, order: nat)
    requires t.Inner? && |t.rest| == 1 && t.id in h && NodeFor(h[t.id], t, true, order)
    requires Represents(h, t.first, false, order) && Represents(h, t.rest[0].kid, false, order)
    ensures Represents(h, t, true, order)
  {
  }

  lemma FocusTop(v: View, s: Tree, spare: multiset<Mmid>, lo: int, hi: int)
    requires Focus(v, [], s, spare, lo, hi)
    ensures s.id in v.pool && NodeFor(v.pool[s.id], s, true, v.order) && KidsRepresented(v.pool, s, v.order)
    ensures Ids(s) + spare + multiset(v.leaked) == multiset(v.pool.Keys)
  {
    ToKids(v.pool, s, true, v.order);
  }

  lemma GrownRepresents(v: View, h': Pool, l: Tree, r: Tree, rec: Record, nd: Mmid, lo: int, hi: int)
    requires Focus(v, [], l, Ids(r), lo, hi) && Represents(v.pool, r, false, v.order)
    requires nd !in v.pool && nd in h' && rec.mmid == r.id && l.id in v.pool && l.id in h'
    requires h' == v.pool[l.id := v.pool[l.id].(root := false)][nd := h'[nd]]
    requires var n := h'[nd];
             n.keyn == 1 && n.root && !n.leaf && n.child == l.id && |n.recs| == v.order && n.recs[0] == rec
    ensures Represents(h', Inner(nd, l, [Branch(rec.hkey, r)]), true, v.order)
  {
    hide Represents, Ids, KidsRepresented, KidsIds, WF, Contents;
    var t := Inner(nd, l, [Branch(rec.hkey, r)]);
    FocusTop(v, l, Ids(r), lo, hi);
    IdsSplit(l);
    Untouched(v.pool.Keys, KidsIds(l) + Ids(r), multiset{l.id}, {l.id, nd});
    RepresentsFrame(v.pool, h', r, false, v.order);
    KidsFrame(v.pool, h', l, v.order);
    FromKids(h', l, false, v.order);
    assert Live(h'[nd]) == [rec] == Slots(t.rest);
    GrownNode(h', t, v.order);
  }
}
