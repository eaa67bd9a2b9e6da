/** Steps of a deletion in the pool: each level either finishes the deletion or passes
    an emptied child up. */
module BTreeDeleteStep {
  import opened BTreeCursor
  import opened BTreeShape
  import opened BTreePath
  import opened BTreeNode
  import opened BTreePool
  import opened BTreeInsert
  import opened BTreeDelete

  /** Node `s` below `path` waits to lose what the trace points at. */
  ghost predicate DoomedAt(v: View, path: seq<Frame>, s: Tree, lo: int, hi: int) {
    && Focus(v, path, s, multiset{}, lo, hi)
    && v.trace[|path|].node == s.id
    && Doomed(s, v.trace[|path|].at, v.depth - |path|, v.order, PathLo(path, lo), PathHi(path, hi))
  }

  /** The records that remain once the deletion at `at` is carried out. */
  ghost function Remaining(path: seq<Frame>, s: Tree, at: nat): seq<Record>
    requires Framed(path) && CanDrop(s, at)
  {
    PathBefore(path) + Contents(Without(s, at)) + PathAfter(path)
  }

  lemma DoomedNode(v: View, path: seq<Frame>, s: Tree, lo: int, hi: int)
    requires DoomedAt(v, path, s, lo, hi)
    ensures Bounded(v) && Framed(path) && |path| < v.depth == |v.trace| && v.trace[|path|].node == s.id &&
            s.id in v.pool
    ensures !s.Freed? && CanDrop(s, v.trace[|path|].at) && (s.Inner? ==> Kid(s, v.trace[|path|].at).Freed?)
    ensures Thin(Without(s, v.trace[|path|].at), v.depth - |path|, v.order, PathLo(path, lo), PathHi(path, hi))
    ensures var n := v.pool[s.id];
            && NodeFor(n, s, path == [], v.order) && Sized(n, v.order)
            && 1 <= n.keyn == KeyCount(s) < v.order && n.leaf == s.Leaf?
            && (s.Leaf? ==> v.trace[|path|].at < n.keyn) && (s.Inner? ==> v.trace[|path|].at <= n.keyn)
    ensures KidsRepresented(v.pool, s, v.order)
    ensures PathIds(path) + Ids(s) + multiset(v.leaked) == multiset(v.pool.Keys)
    ensures v.rootNode == (if path == [] then s.id else path[0].t.id)
  {
    hide WF, Represents, Ids, PathWF, PathRepresents, Contents, PathIds, PathLo, PathHi, Thin, Without, TraceOf,
      KidsRepresented, Kid;
    ToKids(v.pool, s, path == [], v.order);
  }

  /** What dropping `at` leaves of the ids of `s`. */
  lemma DroppedIds(s: Tree, at: nat)
    requires CanDrop(s, at) && (s.Inner? ==> Kid(s, at).Freed?)
    ensures Ids(s) == multiset{s.id} + KidsIds(Without(s, at)) + multiset(Gone(s, at))
    ensures Ids(s) == Ids(Without(s, at)) + multiset(Gone(s, at))
  {
    IdsSplit(Without(s, at));
    if s.Inner? { WithoutIds(s, at); }
  }

  lemma DroppedKids(h: Pool, s: Tree, at: nat, order: nat)
    requires CanDrop(s, at) && KidsRepresented(h, s, order)
    ensures KidsRepresented(h, Without(s, at), order)
  {
  }

  /** A child's id as its parent's node records it. */
  lemma ChildId(t: Tree, at: nat, n: Node, root: bool, order: nat)
    requires t.Inner? && at <= |t.rest| && NodeFor(n, t, root, order)
    ensures n.keyn == |t.rest| <= |n.recs| && Kid(t, at).id == ChildAt(n, at)
  {
    if at > 0 {
      assert n.recs[at - 1] == Live(n)[at - 1] == Slots(t.rest)[at - 1];
    }
  }

  /** `w` is `v` with the nodes in `gone` freed and only the nodes in `changed` rewritten. */
  ghost predicate Rewritten(v: View, w: View, gone: set<Mmid>, changed: set<Mmid>) {
    && w == v.(pool := w.pool, trace := w.trace) && |w.trace| == |v.trace|
    && w.pool.Keys == v.pool.Keys - gone
    && forall x :: x in w.pool && x !in changed ==> w.pool[x] == v.pool[x]
  }

  // ---------------------------------------------------------------------------
  // Dropping from one node
  // ---------------------------------------------------------------------------

  lemma GoneApart(v: View, path: seq<Frame>, s: Tree, x: nat, lo: int, hi: int)
    requires DoomedAt(v, path, s, lo, hi) && |path| < |v.trace| && v.trace[|path|].at == x && s.Inner? && CanDrop(s, x)
    ensures Kid(s, x).id in v.pool && Kid(s, x).id != s.id
  {
    hide Ids, PathIds;
    DoomedNode(v, path, s, lo, hi);
    DroppedIds(s, x);
    var g := Kid(s, x).id;
    assert multiset(Gone(s, x))[g] == 1;
    assert (PathIds(path) + Ids(s) + multiset(v.leaked))[g] == PathIds(path)[g] + Ids(s)[g] + multiset(v.leaked)[g];
    assert multiset(v.pool.Keys)[g] <= 1;
    assert Ids(s)[g] == multiset{s.id}[g] + KidsIds(Without(s, x))[g] + multiset(Gone(s, x))[g];
  }

  lemma DropFocus(v: View, w: View, path: seq<Frame>, s: Tree, at: nat, lo: int, hi: int)
    requires DoomedAt(v, path, s, lo, hi) && v.trace[|path|].at == at
    requires CanDrop(s, at) && Rewritten(v, w, Gone(s, at), {s.id}) && w.trace[..|path|] == v.trace[..|path|]
    requires s.id in w.pool && NodeFor(w.pool[s.id], Without(s, at), path == [], v.order)
    ensures Focus(w, path, Without(s, at), multiset{}, lo, hi)
  {
    hide WF, Represents, Ids, PathWF, PathRepresents, NodeFor, Contents, PathIds, KidsRepresented, KidsIds, Without,
      TraceOf;
    DoomedNode(v, path, s, lo, hi);
    DroppedIds(s, at);
    DroppedKids(v.pool, s, at, v.order);
    var t, gone := Without(s, at), Gone(s, at);
    Untouched(v.pool.Keys, KidsIds(t), multiset{s.id} + multiset(gone), {s.id} + gone);
    KidsFrame(v.pool, w.pool, t, v.order);
    FromKids(w.pool, t, path == [], v.order);
    GoneKeys(v.pool.Keys, gone, PathIds(path), Ids(s), Ids(t), multiset(v.leaked));
    FocusReplace(v, w, path, s, t, multiset{}, multiset{}, {s.id} + gone, lo, hi);
  }

  lemma GoneKeys(keys: set<Mmid>, gone: set<Mmid>, p: multiset<Mmid>, s: multiset<Mmid>, t: multiset<Mmid>,
      k: multiset<Mmid>)
    requires p + s + k == multiset(keys) && s == t + multiset(gone)
    ensures p + t + multiset{} + k == multiset(keys - gone)
    ensures gone <= keys
  {
    forall x | x in gone ensures x in keys {
      assert multiset(gone)[x] == 1;
      assert (p + s + k)[x] == p[x] + s[x] + k[x] && s[x] == t[x] + multiset(gone)[x];
    }
    forall x ensures (p + t + k)[x] == multiset(keys - gone)[x] {
      assert multiset(keys)[x] == p[x] + t[x] + multiset(gone)[x] + k[x];
    }
  }

  /** With keys to spare, dropping completes the deletion. */
  lemma DropDone(v: View, w: View, path: seq<Frame>, s: Tree, at: nat, lo: int, hi: int)
    requires DoomedAt(v, path, s, lo, hi) && v.trace[|path|].at == at && KeyCount(s) > 1
    requires CanDrop(s, at) && Rewritten(v, w, Gone(s, at), {s.id}) && w.trace[..|path|] == v.trace[..|path|]
    requires s.id in w.pool && NodeFor(w.pool[s.id], Without(s, at), path == [], v.order)
    ensures Holds(w, Plug(path, Without(s, at)), lo, hi)
    ensures Contents(Plug(path, Without(s, at))) == Remaining(path, s, at)
  {
    hide *;
    DoomedNode(v, path, s, lo, hi);
    DropFocus(v, w, path, s, at, lo, hi);
    var t := Without(s, at);
    ThinWF(t, v.depth - |path|, v.order, PathLo(path, lo), PathHi(path, hi));
    RewrittenFields(v, w, Gone(s, at), {s.id});
    FocusDone(w, path, t, lo, hi);
    RemainingIs(path, s, at);
  }

  lemma RewrittenFields(v: View, w: View, gone: set<Mmid>, changed: set<Mmid>)
    requires Rewritten(v, w, gone, changed)
    ensures w.depth == v.depth && w.order == v.order
  {
  }

  lemma RemainingIs(path: seq<Frame>, s: Tree, at: nat)
    requires Framed(path) && CanDrop(s, at)
    ensures Remaining(path, s, at) == PathBefore(path) + Contents(Without(s, at)) + PathAfter(path)
  {
  }

  // ---------------------------------------------------------------------------
  // Rebuilding two neighbours
  // ---------------------------------------------------------------------------

  ghost function OffPairKidIds(p: Tree, i: nat): multiset<Mmid>
    requires p.Inner? && i < |p.rest|
  {
    if i == 0 then BranchIds(p.rest[1..])
    else Ids(p.first) + BranchIds(p.rest[..i - 1]) + BranchIds(p.rest[i + 1..])
  }

  lemma PairIds(p: Tree, i: nat)
    requires p.Inner? && i < |p.rest|
    ensures Ids(p) == multiset{p.id} + OffPairKidIds(p, i) + Ids(Kid(p, i)) + Ids(Kid(p, i + 1))
    ensures OffPairIds(p, i) == multiset{p.id} + OffPairKidIds(p, i)
  {
    PairedContents(p, i, Kid(p, i), p.rest[i].key, Kid(p, i + 1));
    PairSame(p, i);
  }

  /** The children of `p` other than i and i + 1. */
  ghost predicate OffPairRepresented(h: Pool, p: Tree, i: nat, order: nat)
    requires p.Inner? && i < |p.rest|
  {
    && (i > 0 ==> Represents(h, p.first, false, order))
    && forall j | 0 <= j < |p.rest| && j != i - 1 && j != i :: Represents(h, p.rest[j].kid, false, order)
  }

  lemma OffPairFrame(h: Pool, h': Pool, p: Tree, i: nat, order: nat)
    requires p.Inner? && i < |p.rest| && OffPairRepresented(h, p, i, order)
    requires forall x :: x in OffPairKidIds(p, i) ==> x in h' && x in h && h'[x] == h[x]
    ensures OffPairRepresented(h', p, i, order)
  {
    hide Represents, Ids, BranchIds;
    if i > 0 { RepresentsFrame(h, h', p.first, false, order); }
    forall j | 0 <= j < |p.rest| && j != i - 1 && j != i ensures Represents(h', p.rest[j].kid, false, order) {
      if j < i {
        KidIdsInBranchIds(p.rest[..i - 1], j);
        assert p.rest[..i - 1][j] == p.rest[j];
      } else {
        KidIdsInBranchIds(p.rest[i + 1..], j - i - 1);
        assert p.rest[i + 1..][j - i - 1] == p.rest[j];
      }
      RepresentsFrame(h, h', p.rest[j].kid, false, order);
    }
  }

  lemma PairedRepresents(h: Pool, p: Tree, i: nat, l: Tree, key: int, r: Tree, root: bool, order: nat)
    requires p.Inner? && i < |p.rest| && OffPairRepresented(h, p, i, order)
    requires Represents(h, l, false, order) && Represents(h, r, false, order)
    requires p.id in h && NodeFor(h[p.id], Paired(p, i, l, key, r), root, order)
    ensures Represents(h, Paired(p, i, l, key, r), root, order)
  {
    var q := Paired(p, i, l, key, r);
    assert KidsRepresented(h, q, order) by {
      hide Represents;
      forall j | 0 <= j < |q.rest| ensures Represents(h, q.rest[j].kid, false, order) {
        if j == i || j == i - 1 {
        } else {
          assert q.rest[j] == p.rest[j];
        }
      }
    }
    FromKids(h, q, root, order);
  }

  lemma FocusedPair(v: View, up: seq<Frame>, p: Tree, i: nat, lo: int, hi: int)
    requires Focus(v, up, p, multiset{}, lo, hi) && p.Inner? && i < |p.rest|
    ensures Framed(up) && |up| < v.depth == |v.trace| && Bounded(v)
    ensures NodeFor(v.pool[p.id], p, up == [], v.order) && OffPairRepresented(v.pool, p, i, v.order)
    ensures Represents(v.pool, Kid(p, i), false, v.order) && Represents(v.pool, Kid(p, i + 1), false, v.order)
    ensures PathIds(up) + Ids(p) + multiset(v.leaked) == multiset(v.pool.Keys)
  {
    ToKids(v.pool, p, up == [], v.order);
  }

  /** Rebuild children i and i + 1 of `p` out of their own nodes. */
  lemma PairFocus(v: View, w: View, up: seq<Frame>, p: Tree, i: nat, l: Tree, key: int, r: Tree, gone: set<Mmid>,
                  lo: int, hi: int)
    requires Focus(v, up, p, multiset{}, lo, hi) && p.Inner? && i < |p.rest|
    requires Rewritten(v, w, gone, {p.id, l.id, r.id}) && w.trace[..|up|] == v.trace[..|up|]
    requires l.id == Kid(p, i).id && r.id == Kid(p, i + 1).id
    requires Ids(l) + Ids(r) + multiset(gone) == Ids(Kid(p, i)) + Ids(Kid(p, i + 1))
    requires Represents(w.pool, l, false, v.order) && Represents(w.pool, r, false, v.order)
    requires p.id in w.pool && NodeFor(w.pool[p.id], Paired(p, i, l, key, r), up == [], v.order)
    ensures Focus(w, up, Paired(p, i, l, key, r), multiset{}, lo, hi)
  {
    hide WF, Represents, Ids, PathWF, PathRepresents, NodeFor, Contents, PathIds, KidsRepresented, KidsIds, TraceOf,
      OffPairKidIds, OffPairRepresented, OffPairIds, Paired;
    FocusedPair(v, up, p, i, lo, hi);
    PairIds(p, i);
    PairedContents(p, i, l, key, r);
    IdInIds(l);
    IdInIds(r);
    var q := Paired(p, i, l, key, r);
    var changed := {p.id, l.id, r.id} + gone;
    var inner := Ids(Kid(p, i)) + Ids(Kid(p, i + 1));
    forall x | x in changed ensures x in multiset{p.id} + inner {
      if x in gone { assert multiset(gone)[x] == 1; }
    }
    PairCount(PathIds(up), multiset{p.id}, OffPairKidIds(p, i), Ids(Kid(p, i)), Ids(Kid(p, i + 1)), multiset(v.leaked),
              Ids(l), Ids(r), v.pool.Keys, gone, Ids(p), Ids(q));
    Untouched(v.pool.Keys, OffPairKidIds(p, i), multiset{p.id} + inner, changed);
    OffPairFrame(v.pool, w.pool, p, i, v.order);
    PairedRepresents(w.pool, p, i, l, key, r, up == [], v.order);
    FocusReplace(v, w, up, p, q, multiset{}, multiset{}, changed, lo, hi);
  }

  lemma PairCount(up: multiset<Mmid>, p: multiset<Mmid>, off: multiset<Mmid>, a: multiset<Mmid>, b: multiset<Mmid>,
                  k: multiset<Mmid>, l: multiset<Mmid>, r: multiset<Mmid>, keys: set<Mmid>, gone: set<Mmid>,
                  was: multiset<Mmid>, now: multiset<Mmid>)
    requires was == p + off + a + b && up + was + k == multiset(keys)
    requires l + r + multiset(gone) == a + b && now == p + off + l + r
    ensures off + (p + (a + b)) <= multiset(keys)
    ensures up + now + multiset{} + k == multiset(keys - gone)
  {
    assert was == now + multiset(gone) by {
      assert p + off + a + b == p + off + (a + b);
      assert p + off + (l + r + multiset(gone)) == p + off + l + r + multiset(gone);
    }
    GoneKeys(keys, gone, up, was, now, k);
    assert off + (p + (a + b)) == was;
  }

  /** The nodes of a pair and of their parent are distinct and live; what hangs below them is apart. */
  lemma PairApart(v: View, up: seq<Frame>, p: Tree, i: nat, cur: Tree, sib: Tree, at: nat, lo: int, hi: int)
    requires Focus(v, up, p, multiset{}, lo, hi) && p.Inner? && i < |p.rest|
    requires (cur, sib) == (Kid(p, i), Kid(p, i + 1)) || (sib, cur) == (Kid(p, i), Kid(p, i + 1))
    requires CanDrop(cur, at) && (cur.Inner? ==> Kid(cur, at).Freed?)
    ensures var tops := multiset{p.id} + multiset{cur.id} + multiset{sib.id} + multiset(Gone(cur, at));
            && KidsIds(Without(cur, at)) + KidsIds(sib) + tops <= multiset(v.pool.Keys)
            && tops <= multiset(v.pool.Keys)
  {
    hide *;
    FocusedPair(v, up, p, i, lo, hi);
    PairIds(p, i);
    DroppedIds(cur, at);
    IdsSplit(sib);
    KidCount(PathIds(up), p.id, OffPairKidIds(p, i), cur.id, KidsIds(Without(cur, at)), multiset(Gone(cur, at)), sib.id,
             KidsIds(sib), multiset(v.leaked), v.pool.Keys, Ids(p), Ids(cur), Ids(sib));
  }

  /** What is left of the children of the pair survives the rewriting. */
  lemma PairKids(v: View, w: View, up: seq<Frame>, p: Tree, i: nat, cur: Tree, sib: Tree, at: nat, lo: int, hi: int)
    requires Focus(v, up, p, multiset{}, lo, hi) && p.Inner? && i < |p.rest|
    requires (cur, sib) == (Kid(p, i), Kid(p, i + 1)) || (sib, cur) == (Kid(p, i), Kid(p, i + 1))
    requires CanDrop(cur, at) && (cur.Inner? ==> Kid(cur, at).Freed?)
    requires Rewritten(v, w, Gone(cur, at), {p.id, cur.id, sib.id})
    ensures KidsRepresented(w.pool, Without(cur, at), v.order) && KidsRepresented(w.pool, sib, v.order)
    ensures p.id in w.pool && cur.id in w.pool && sib.id in w.pool
    ensures p.id != cur.id && cur.id != sib.id && p.id != sib.id
  {
    hide *;
    FocusedPair(v, up, p, i, lo, hi);
    PairApart(v, up, p, i, cur, sib, at, lo, hi);
    var gone, t := Gone(cur, at), Without(cur, at);
    ToKids(v.pool, cur, false, v.order);
    ToKids(v.pool, sib, false, v.order);
    DroppedKids(v.pool, cur, at, v.order);
    Survives(v, w, p.id, cur.id, sib.id, gone, KidsIds(t) + KidsIds(sib));
    KidsFrame(v.pool, w.pool, t, v.order);
    KidsFrame(v.pool, w.pool, sib, v.order);
  }

  lemma Survives(v: View, w: View, p: Mmid, c: Mmid, s: Mmid, gone: set<Mmid>, kept: multiset<Mmid>)
    requires Rewritten(v, w, gone, {p, c, s})
    requires var tops := multiset{p} + multiset{c} + multiset{s} + multiset(gone);
             kept + tops <= multiset(v.pool.Keys) && tops <= multiset(v.pool.Keys)
    ensures forall x :: x in kept ==> x in w.pool && x in v.pool && w.pool[x] == v.pool[x]
    ensures p in w.pool && c in w.pool && s in w.pool && p != c && c != s && p != s
  {
    var tops := multiset{p} + multiset{c} + multiset{s} + multiset(gone);
    Untouched(v.pool.Keys, kept, tops, {p, c, s} + gone);
    Single(v.pool.Keys, multiset{p}, multiset{c}, multiset{s}, multiset(gone));
  }

  lemma KidCount(up: multiset<Mmid>, p: Mmid, off: multiset<Mmid>, c: Mmid, ck: multiset<Mmid>, gone: multiset<Mmid>,
                 s: Mmid, sk: multiset<Mmid>, k: multiset<Mmid>, keys: set<Mmid>,
                 pids: multiset<Mmid>, cids: multiset<Mmid>, sids: multiset<Mmid>)
    requires up + pids + k == multiset(keys)
    requires pids == multiset{p} + off + cids + sids || pids == multiset{p} + off + sids + cids
    requires cids == multiset{c} + ck + gone && sids == multiset{s} + sk
    ensures ck + sk + (multiset{p} + multiset{c} + multiset{s} + gone) <= multiset(keys)
    ensures multiset{p} + multiset{c} + multiset{s} + gone <= multiset(keys)
  {
    var all := ck + sk + (multiset{p} + multiset{c} + multiset{s} + gone);
    assert up + off + k + all == multiset(keys);
  }

  lemma Single(keys: set<Mmid>, a: multiset<Mmid>, b: multiset<Mmid>, c: multiset<Mmid>, g: multiset<Mmid>)
    requires a + b + c + g <= multiset(keys)
    ensures forall x :: x in a ==> x !in b && x !in c && x !in g && x in keys
    ensures forall x :: x in b ==> x !in c && x !in g && x in keys
    ensures forall x :: x in c ==> x !in g && x in keys
  {
    forall x ensures a[x] + b[x] + c[x] + g[x] <= multiset(keys)[x] <= 1 {
      assert (a + b + c + g)[x] == a[x] + b[x] + c[x] + g[x];
    }
  }

  // ---------------------------------------------------------------------------
  // One step up
  // ---------------------------------------------------------------------------

  /** The doomed child `at` of `t` has a sibling on the chosen side; `i` is the left index of the pair. */
  ghost predicate Sibling(t: Tree, at: nat, sibOnRight: bool, i: nat) {
    && t.Inner? && at <= |t.rest| && i < |t.rest|
    && (if sibOnRight then at == i else at == i + 1)
  }

  ghost function SiblingOf(t: Tree, at: nat, sibOnRight: bool, i: nat): Tree
    requires Sibling(t, at, sibOnRight, i)
  {
    if sibOnRight then Kid(t, i + 1) else Kid(t, i)
  }

  /** Seen from the parent, the doomed node and its sibling are neighbours around a separator. */
  lemma ParentPair(t: Tree, at: nat, s: Tree, sibOnRight: bool, i: nat)
    requires Sibling(t, at, sibOnRight, i)
    ensures var p, sib := SetKid(t, at, s), SiblingOf(t, at, sibOnRight, i);
            && i < |p.rest| && p.rest[i].key == t.rest[i].key
            && Kid(p, i) == (if sibOnRight then s else sib) && Kid(p, i + 1) == (if sibOnRight then sib else s)
            && Before(p, i) + (Contents(Kid(p, i)) + Contents(Kid(p, i + 1))) + After(p, i + 1)
               == Before(t, at) + Contents(s) + After(t, at)
  {
    var p := SetKid(t, at, s);
    PairedContents(p, i, Kid(p, i), p.rest[i].key, Kid(p, i + 1));
    PairSame(p, i);
    SetKidContents(t, at, s);
  }

  /** The sibling's records are the first after, or the last before, the doomed node's. */
  lemma AroundPair(t: Tree, at: nat, s: Tree, sibOnRight: bool, i: nat)
    requires Sibling(t, at, sibOnRight, i)
    ensures var p, sib := SetKid(t, at, s), SiblingOf(t, at, sibOnRight, i);
            && i < |p.rest|
            && (if sibOnRight then Before(t, at) == Before(p, i) && After(t, at) == Contents(sib) + After(p, i + 1)
                else Before(t, at) == Before(p, i) + Contents(sib) && After(t, at) == After(p, i + 1))
  {
    var p := SetKid(t, at, s);
    assert p.rest[i + 1..] == t.rest[i + 1..];
    if i > 0 { assert p.rest[..i - 1] == t.rest[..i - 1]; }
    if sibOnRight {
      assert t.rest[i..] == [t.rest[i]] + t.rest[i + 1..];
    } else if i > 0 {
      assert t.rest[..i] == t.rest[..i - 1] + [t.rest[i - 1]];
      BranchContentsAppend(t.rest[..i - 1], [t.rest[i - 1]]);
      OneBranch(t.rest[i - 1]);
    }
  }

  lemma RegroupRight<T>(a: seq<T>, b: seq<T>, c: seq<T>, d: seq<T>, e: seq<T>, f: seq<T>)
    ensures a + (b + (c + d) + e) + f == (a + b) + c + ((d + e) + f)
  {
  }

  lemma RegroupLeft<T>(a: seq<T>, b: seq<T>, c: seq<T>, d: seq<T>, e: seq<T>, f: seq<T>)
    ensures a + (b + (c + d) + e) + f == (a + (b + c)) + d + (e + f)
  {
  }

  /** The rebuilt parent holds the remaining records. */
  lemma PairRemaining(path: seq<Frame>, s: Tree, x: nat, sibOnRight: bool, i: nat, l: Tree, key: int, r: Tree)
    requires Framed(path) && path != [] && CanDrop(s, x)
    requires Sibling(Last(path).t, Last(path).at, sibOnRight, i)
    requires var f := Last(path); var sib := SiblingOf(f.t, f.at, sibOnRight, i);
             Contents(l) + Contents(r) == (if sibOnRight then Contents(Without(s, x)) + Contents(sib)
                                           else Contents(sib) + Contents(Without(s, x)))
    ensures var f := Last(path);
            PathBefore(Up(path)) + Contents(Paired(SetKid(f.t, f.at, s), i, l, key, r)) + PathAfter(Up(path))
            == Remaining(path, s, x)
  {
    hide Contents, Before, After, SetKid, Paired, Without, SiblingOf, Ids, WF;
    var f := Last(path);
    var p, sib := SetKid(f.t, f.at, s), SiblingOf(f.t, f.at, sibOnRight, i);
    AroundPair(f.t, f.at, s, sibOnRight, i);
    PairedContents(p, i, l, key, r);
    if sibOnRight {
      RegroupRight(PathBefore(Up(path)), Before(p, i), Contents(Without(s, x)), Contents(sib), After(p, i + 1),
        PathAfter(Up(path)));
    } else {
      RegroupLeft(PathBefore(Up(path)), Before(p, i), Contents(sib), Contents(Without(s, x)), After(p, i + 1),
        PathAfter(Up(path)));
    }
  }

  lemma ParentShape(t: Tree, at: nat, s: Tree, sibOnRight: bool, i: nat, d: nat, order: nat, lo: int, hi: int)
    requires Sibling(t, at, sibOnRight, i) && OffWF(t, at, d, order, lo, hi)
    ensures var p, sib := SetKid(t, at, s), SiblingOf(t, at, sibOnRight, i);
            && OffPairWF(p, i, d, order, lo, hi)
            && (if sibOnRight then
                  && WF(sib, d - 1, order, t.rest[i].key, KidHi(p, i + 1, hi))
                  && KidLo(p, i, lo) == KidLo(t, at, lo) && t.rest[i].key == KidHi(t, at, hi)
                else
                  && WF(sib, d - 1, order, KidLo(p, i, lo), t.rest[i].key)
                  && KidHi(p, i + 1, hi) == KidHi(t, at, hi) && t.rest[i].key == KidLo(t, at, lo))
  {
    var p := SetKid(t, at, s);
    OffPair(t, at, i, d, order, lo, hi);
    assert p.rest[i + 1..] == t.rest[i + 1..];
    if i > 0 { assert p.rest[..i - 1] == t.rest[..i - 1]; }
  }

  lemma ParentNodeFor(order: nat, p: Tree, i: nat, l: Tree, key: int, r: Tree, n: Node, n': Node, root: bool)
    requires p.Inner? && i < |p.rest| && NodeFor(n, p, root, order)
    requires l.id == Kid(p, i).id && r.id == Kid(p, i + 1).id
    requires i < |n.recs| && n' == n.(recs := n.recs[i := n.recs[i].(hkey := key)])
    ensures NodeFor(n', Paired(p, i, l, key, r), root, order)
  {
    var q := Paired(p, i, l, key, r);
    assert Live(n') == Live(n)[i := Live(n)[i].(hkey := key)];
    assert Slots(q.rest) == Slots(p.rest)[i := Record(key, r.id)];
  }

  /** Borrowing keeps the parent well formed. */
  lemma BorrowedShape(t: Tree, at: nat, s: Tree, x: nat, sibOnRight: bool, i: nat, d: nat, order: nat, lo: int, hi: int)
    requires order >= 3 && Sibling(t, at, sibOnRight, i) && OffWF(t, at, d, order, lo, hi)
    requires Doomed(s, x, d - 1, order, KidLo(t, at, lo), KidHi(t, at, hi)) && KeyCount(s) == 1
    requires KeyCount(SiblingOf(t, at, sibOnRight, i)) >= 2
    ensures var p, sib, key := SetKid(t, at, s), SiblingOf(t, at, sibOnRight, i), t.rest[i].key;
            && SameKind(s, sib)
            && var (l, k, r) := Borrowed(s, sib, x, sibOnRight, key);
            WF(Paired(p, i, l, k, r), d, order, lo, hi)
  {
    hide WF, BranchesWF;
    var p, sib, key := SetKid(t, at, s), SiblingOf(t, at, sibOnRight, i), t.rest[i].key;
    ParentShape(t, at, s, sibOnRight, i, d, order, lo, hi);
    var c := Without(s, x);
    if sibOnRight {
      ThinWF(sib, d - 1, order, key, KidHi(p, i + 1, hi));
      FromRightWF(c, key, sib, d - 1, order, KidLo(p, i, lo), KidHi(p, i + 1, hi));
    } else {
      ThinWF(sib, d - 1, order, KidLo(p, i, lo), key);
      FromLeftWF(sib, key, c, d - 1, order, KidLo(p, i, lo), KidHi(p, i + 1, hi));
    }
    var (l, k, r) := Borrowed(s, sib, x, sibOnRight, key);
    PairedWF(p, i, l, k, r, d, order, lo, hi);
  }

  /** Merging dooms the right node of the pair in the parent. */
  lemma MergedShape(t: Tree, at: nat, s: Tree, x: nat, sibOnRight: bool, i: nat, d: nat, order: nat, lo: int, hi: int)
    requires order >= 3 && Sibling(t, at, sibOnRight, i) && OffWF(t, at, d, order, lo, hi)
    requires Doomed(s, x, d - 1, order, KidLo(t, at, lo), KidHi(t, at, hi)) && KeyCount(s) == 1
    requires KeyCount(SiblingOf(t, at, sibOnRight, i)) == 1
    ensures var p, sib, key := SetKid(t, at, s), SiblingOf(t, at, sibOnRight, i), t.rest[i].key;
            && SameKind(s, sib)
            && Doomed(Paired(p, i, Merged(s, sib, x, sibOnRight, key), key, Freed(Kid(p, i + 1).id)), i + 1, d, order,
              lo, hi)
  {
    hide WF, BranchesWF;
    var p, sib, key := SetKid(t, at, s), SiblingOf(t, at, sibOnRight, i), t.rest[i].key;
    ParentShape(t, at, s, sibOnRight, i, d, order, lo, hi);
    var c := Without(s, x);
    if sibOnRight {
      ThinWF(sib, d - 1, order, key, KidHi(p, i + 1, hi));
      WFAscending(sib, d - 1, order, key, KidHi(p, i + 1, hi));
      JoinedWF(c, key, sib, d - 1, order, KidLo(p, i, lo), KidHi(p, i + 1, hi));
    } else {
      ThinWF(sib, d - 1, order, KidLo(p, i, lo), key);
      WFAscending(sib, d - 1, order, KidLo(p, i, lo), key);
      JoinedWF(sib, key, c, d - 1, order, KidLo(p, i, lo), KidHi(p, i + 1, hi));
    }
    PairedDoomed(p, i, Merged(s, sib, x, sibOnRight, key), Kid(p, i + 1).id, d, order, lo, hi);
  }

  /** Borrowing keeps records and nodes; dropping loses only what is gone. */
  lemma BorrowedSame(s: Tree, sib: Tree, x: nat, sibOnRight: bool, key: int)
    requires CanDrop(s, x) && SameKind(s, sib) && KeyCount(sib) >= 2 && (s.Inner? ==> Kid(s, x).Freed?)
    ensures var (l, _, r) := Borrowed(s, sib, x, sibOnRight, key);
            && Contents(l) + Contents(r) == (if sibOnRight then Contents(Without(s, x)) + Contents(sib)
                                             else Contents(sib) + Contents(Without(s, x)))
            && Ids(l) + Ids(r) + multiset(Gone(s, x)) == Ids(s) + Ids(sib)
  {
    hide Contents, Ids, Without, Gone, CanDrop;
    var c := Without(s, x);
    DroppedIds(s, x);
    if sibOnRight {
      FromRightContents(c, key, sib);
      FromRightIds(c, key, sib);
      Commute(Ids(c), multiset(Gone(s, x)), Ids(sib));
    } else {
      FromLeftContents(sib, key, c);
      FromLeftIds(sib, key, c);
      Commute(Ids(c), multiset(Gone(s, x)), Ids(sib));
    }
  }

  lemma Commute(a: multiset<Mmid>, b: multiset<Mmid>, c: multiset<Mmid>)
    ensures a + c + b == (a + b) + c
    ensures c + a + b == (a + b) + c
  {
  }

  lemma MergedSame(s: Tree, sib: Tree, x: nat, sibOnRight: bool, key: int)
    requires CanDrop(s, x) && SameKind(s, sib) && (s.Inner? ==> Kid(s, x).Freed?)
    ensures var m, r := Merged(s, sib, x, sibOnRight, key), if sibOnRight then sib.id else s.id;
            && Contents(m) == (if sibOnRight then Contents(Without(s, x)) + Contents(sib)
                               else Contents(sib) + Contents(Without(s, x)))
            && Ids(m) + Ids(Freed(r)) + multiset(Gone(s, x)) == Ids(s) + Ids(sib)
  {
    var c := Without(s, x);
    DroppedIds(s, x);
    if sibOnRight {
      JoinedContents(c, key, sib);
    } else {
      JoinedContents(sib, key, c);
    }
    hide Contents, Without, Gone, CanDrop;
    Commute(Ids(c), multiset(Gone(s, x)), Ids(sib));
  }

  /** `w` is `v` after the nodes of `s` and its sibling have been rebalanced. */
  ghost predicate Rebalanced(v: View, w: View, path: seq<Frame>, p: Tree, s: Tree, x: nat, sib: Tree,
      sibOnRight: bool, i: nat, hkey: int)
    requires CanDrop(s, x) && p.Inner? && i < |p.rest| && {p.id, s.id, sib.id} <= v.pool.Keys
  {
    && Rewritten(v, w, Gone(s, x), {p.id, s.id, sib.id})
    && 0 < |path| <= |v.trace| && |w.trace| == |v.trace| && w.trace[..|path|] == v.trace[..|path|]
    && {p.id, s.id, sib.id} <= w.pool.Keys
    && (s.Leaf? ==> LeafRebalanced(v.pool[s.id], v.pool[sib.id], x, sibOnRight, w.pool[s.id], w.pool[sib.id], hkey))
    && (s.Inner? ==> ChildRebalanced(v.pool[s.id], v.pool[sib.id], x, sibOnRight, p.rest[i].key,
                                     w.pool[s.id], w.pool[sib.id], hkey))
    && var n := v.pool[p.id];
    i < |n.recs| && w.pool[p.id] == n.(recs := n.recs[i := n.recs[i].(hkey := hkey)])
  }

  /** The frame of a doomed node, its sibling included. */
  lemma DoomedParent(v: View, path: seq<Frame>, s: Tree, sibOnRight: bool, i: nat, lo: int, hi: int)
    requires DoomedAt(v, path, s, lo, hi) && path != []
    ensures Framed(path)
    requires Sibling(Last(path).t, Last(path).at, sibOnRight, i)
    ensures var f := Last(path); var p, sib := SetKid(f.t, f.at, s), SiblingOf(f.t, f.at, sibOnRight, i);
            && Framed(Up(path)) && v.order >= 3 && |path| < v.depth == |v.trace|
            && Focus(v, Up(path), p, multiset{}, lo, hi) && v.trace[|path| - 1] == Trace(p.id, f.at)
            && OffWF(f.t, f.at, v.depth - |path| + 1, v.order, PathLo(Up(path), lo), PathHi(Up(path), hi))
            && PathLo(path, lo) == KidLo(f.t, f.at, PathLo(Up(path), lo))
            && PathHi(path, hi) == KidHi(f.t, f.at, PathHi(Up(path), hi))
            && Doomed(s, v.trace[|path|].at, v.depth - |path|, v.order, PathLo(path, lo), PathHi(path, hi))
            && {p.id, s.id, sib.id} <= v.pool.Keys
            && NodeFor(v.pool[p.id], p, Up(path) == [], v.order)
            && NodeFor(v.pool[s.id], s, false, v.order) && NodeFor(v.pool[sib.id], sib, false, v.order)
  {
    hide WF, Represents, Ids, PathIds, NodeFor, Doomed, OffWF, Contents, Without, Thin, PathRepresents;
    var f := Last(path); var p, sib := SetKid(f.t, f.at, s), SiblingOf(f.t, f.at, sibOnRight, i);
    FocusUp(v, path, s, multiset{}, lo, hi);
    DoomedNode(v, path, s, lo, hi);
    ParentPair(f.t, f.at, s, sibOnRight, i);
    FocusedPair(v, Up(path), p, i, lo, hi);
    ToKids(v.pool, sib, false, v.order);
  }

  lemma SamePrefix<T>(a: seq<T>, b: seq<T>, m: nat, n: nat)
    requires m <= n <= |a| == |b| && a[..n] == b[..n]
    ensures a[..m] == b[..m]
  {
    assert a[..m] == a[..n][..m];
  }

  lemma LastSlot<T>(a: seq<T>, b: seq<T>, n: nat, x: T)
    requires 0 < n <= |a| == |b| && b[..n] == a[..n][n - 1 := x]
    ensures b[n - 1] == x && b[..n - 1] == a[..n - 1]
  {
    assert b[n - 1] == b[..n][n - 1];
    assert b[..n - 1] == b[..n][..n - 1];
  }

  lemma RebalFocus(v: View, w: View, path: seq<Frame>, s: Tree, x: nat, sibOnRight: bool, i: nat, hkey: int, lo: int,
      hi: int)
    requires DoomedAt(v, path, s, lo, hi) && path != [] && x == v.trace[|path|].at && CanDrop(s, x)
    requires Sibling(Last(path).t, Last(path).at, sibOnRight, i) && {Last(path).t.id, s.id} <= v.pool.Keys
    requires var f := Last(path); var sib := SiblingOf(f.t, f.at, sibOnRight, i);
             && sib.id in v.pool && SameKind(s, sib) && KeyCount(sib) >= 2
             && Rebalanced(v, w, path, SetKid(f.t, f.at, s), s, x, sib, sibOnRight, i, hkey)
    ensures Framed(path)
    ensures var f := Last(path); var sib := SiblingOf(f.t, f.at, sibOnRight, i);
            var (l, k, r) := Borrowed(s, sib, x, sibOnRight, f.t.rest[i].key);
            Focus(w, Up(path), Paired(SetKid(f.t, f.at, s), i, l, k, r), multiset{}, lo, hi)
  {
    hide WF, Represents, Ids, PathIds, NodeFor, Doomed, OffWF, Contents, Focus, KidsRepresented, Gone, Rewritten,
      LeafRebalanced, ChildRebalanced, Slots, DoomedAt;
    DoomedNode(v, path, s, lo, hi);
    var f := Last(path); var p, sib := SetKid(f.t, f.at, s), SiblingOf(f.t, f.at, sibOnRight, i);
    DoomedParent(v, path, s, sibOnRight, i, lo, hi);
    ParentPair(f.t, f.at, s, sibOnRight, i);
    PairKids(v, w, Up(path), p, i, s, sib, x, lo, hi);
    var key := p.rest[i].key;
    RebalNodesFor(v.order, s, sib, x, sibOnRight, key, v.pool[s.id], v.pool[sib.id], w.pool[s.id], w.pool[sib.id],
      hkey);
    var (l, k, r) := Borrowed(s, sib, x, sibOnRight, key);
    BorrowedKids(w.pool, s, sib, x, sibOnRight, key, v.order);
    FromKids(w.pool, l, false, v.order);
    FromKids(w.pool, r, false, v.order);
    BorrowedSame(s, sib, x, sibOnRight, key);
    ParentNodeFor(v.order, p, i, l, k, r, v.pool[p.id], w.pool[p.id], Up(path) == []);
    assert {p.id, l.id, r.id} == {p.id, s.id, sib.id};
    assert Ids(Kid(p, i)) + Ids(Kid(p, i + 1)) == Ids(s) + Ids(sib);
    SamePrefix(v.trace, w.trace, |path| - 1, |path|);
    PairFocus(v, w, Up(path), p, i, l, k, r, Gone(s, x), lo, hi);
  }

  lemma BorrowedKids(h: Pool, s: Tree, sib: Tree, x: nat, sibOnRight: bool, key: int, order: nat)
    requires CanDrop(s, x) && SameKind(s, sib) && KeyCount(sib) >= 2
    requires KidsRepresented(h, Without(s, x), order) && KidsRepresented(h, sib, order)
    ensures var (l, _, r) := Borrowed(s, sib, x, sibOnRight, key);
            && KidsRepresented(h, l, order) && KidsRepresented(h, r, order)
            && l.id == (if sibOnRight then s.id else sib.id) && r.id == (if sibOnRight then sib.id else s.id)
  {
    hide Represents;
  }

  /** Borrowing from the sibling completes the deletion. */
  lemma RebalDone(v: View, w: View, path: seq<Frame>, s: Tree, x: nat, sibOnRight: bool, i: nat, hkey: int, lo: int,
      hi: int)
    returns (t: Tree)
    requires DoomedAt(v, path, s, lo, hi) && path != [] && x == v.trace[|path|].at && CanDrop(s, x) && KeyCount(s) == 1
    requires Sibling(Last(path).t, Last(path).at, sibOnRight, i) && {Last(path).t.id, s.id} <= v.pool.Keys
    requires var f := Last(path); var sib := SiblingOf(f.t, f.at, sibOnRight, i);
             && sib.id in v.pool && SameKind(s, sib) && KeyCount(sib) >= 2
             && Rebalanced(v, w, path, SetKid(f.t, f.at, s), s, x, sib, sibOnRight, i, hkey)
    ensures Framed(path) && Holds(w, t, lo, hi) && Contents(t) == Remaining(path, s, x)
  {
    hide WF, Represents, Ids, PathIds, NodeFor, Doomed, OffWF, Contents, Focus, KidsRepresented, Gone, Rewritten,
      LeafRebalanced, ChildRebalanced, Slots, DoomedAt, Holds, Without, CanDrop, Before, After;
    DoomedNode(v, path, s, lo, hi);
    var f := Last(path); var p, sib, d := SetKid(f.t, f.at, s), SiblingOf(f.t, f.at, sibOnRight, i), v.depth - |path|
      + 1;
    DoomedParent(v, path, s, sibOnRight, i, lo, hi);
    RebalFocus(v, w, path, s, x, sibOnRight, i, hkey, lo, hi);
    BorrowedShape(f.t, f.at, s, x, sibOnRight, i, d, v.order, PathLo(Up(path), lo), PathHi(Up(path), hi));
    var (l, k, r) := Borrowed(s, sib, x, sibOnRight, f.t.rest[i].key);
    var q := Paired(p, i, l, k, r);
    t := Plug(Up(path), q);
    RewrittenFields(v, w, Gone(s, x), {p.id, s.id, sib.id});
    FocusDone(w, Up(path), q, lo, hi);
    BorrowedSame(s, sib, x, sibOnRight, f.t.rest[i].key);
    PairRemaining(path, s, x, sibOnRight, i, l, k, r);
  }

  /** `w` is `v` after the right node of the pair has been merged into the left one; the
      trace points at the emptied node in the parent. */
  ghost predicate MergedPair(v: View, w: View, path: seq<Frame>, p: Tree, s: Tree, x: nat, sib: Tree,
      sibOnRight: bool, i: nat)
    requires CanDrop(s, x) && p.Inner? && i < |p.rest| && {p.id, s.id, sib.id} <= v.pool.Keys
  {
    && Rewritten(v, w, Gone(s, x), {p.id, s.id, sib.id})
    && 0 < |path| <= |v.trace| && |w.trace| == |v.trace| &&
      w.trace[..|path|] == v.trace[..|path|][|path| - 1 := Trace(p.id, i + 1)]
    && {p.id, s.id, sib.id} <= w.pool.Keys && w.pool[p.id] == v.pool[p.id]
    && (s.Leaf? ==> LeafMerged(v.pool[s.id], v.pool[sib.id], x, sibOnRight, w.pool[s.id], w.pool[sib.id]))
    && (s.Inner? ==> ChildMerged(v.pool[s.id], v.pool[sib.id], x, sibOnRight, p.rest[i].key,
                                 w.pool[s.id], w.pool[sib.id]))
  }

  lemma MergedKids(h: Pool, s: Tree, sib: Tree, x: nat, sibOnRight: bool, key: int, order: nat)
    requires CanDrop(s, x) && SameKind(s, sib)
    requires KidsRepresented(h, Without(s, x), order) && KidsRepresented(h, sib, order)
    ensures var m := Merged(s, sib, x, sibOnRight, key);
            KidsRepresented(h, m, order) && m.id == if sibOnRight then s.id else sib.id
  {
    hide Represents;
  }

  lemma FreedParentNodeFor(order: nat, p: Tree, i: nat, m: Tree, n: Node, root: bool)
    requires p.Inner? && i < |p.rest| && NodeFor(n, p, root, order) && m.id == Kid(p, i).id
    ensures NodeFor(n, Paired(p, i, m, p.rest[i].key, Freed(Kid(p, i + 1).id)), root, order)
  {
    var q := Paired(p, i, m, p.rest[i].key, Freed(Kid(p, i + 1).id));
    assert Slots(q.rest) == Slots(p.rest);
  }

  lemma MergeFocus(v: View, w: View, path: seq<Frame>, s: Tree, x: nat, sibOnRight: bool, i: nat, lo: int, hi: int)
    requires DoomedAt(v, path, s, lo, hi) && path != [] && x == v.trace[|path|].at && CanDrop(s, x)
    requires Sibling(Last(path).t, Last(path).at, sibOnRight, i) && {Last(path).t.id, s.id} <= v.pool.Keys
    requires var f := Last(path); var sib := SiblingOf(f.t, f.at, sibOnRight, i);
             && sib.id in v.pool && SameKind(s, sib)
             && MergedPair(v, w, path, SetKid(f.t, f.at, s), s, x, sib, sibOnRight, i)
    ensures Framed(path)
    ensures var f := Last(path); var sib, key := SiblingOf(f.t, f.at, sibOnRight, i), f.t.rest[i].key;
            var p := SetKid(f.t, f.at, s);
            Focus(w, Up(path), Paired(p, i, Merged(s, sib, x, sibOnRight, key), key, Freed(Kid(p, i + 1).id)),
              multiset{}, lo, hi)
  {
    hide WF, Represents, Ids, PathIds, NodeFor, Doomed, OffWF, Contents, Focus, KidsRepresented, Gone, Rewritten,
      LeafMerged, ChildMerged, Slots, DoomedAt, Joined, Without, Thin, PathWF, PathRepresents, PathLo, PathHi,
      TraceOf, Merged, Paired, Framed;
    DoomedNode(v, path, s, lo, hi);
    var f := Last(path); var p, sib := SetKid(f.t, f.at, s), SiblingOf(f.t, f.at, sibOnRight, i);
    DoomedParent(v, path, s, sibOnRight, i, lo, hi);
    ParentPair(f.t, f.at, s, sibOnRight, i);
    PairKids(v, w, Up(path), p, i, s, sib, x, lo, hi);
    var key := p.rest[i].key;
    MergeNodesFor(v.order, s, sib, x, sibOnRight, key, v.pool[s.id], v.pool[sib.id], w.pool[s.id], w.pool[sib.id]);
    var m, r := Merged(s, sib, x, sibOnRight, key), Freed(Kid(p, i + 1).id);
    MergedKids(w.pool, s, sib, x, sibOnRight, key, v.order);
    FromKids(w.pool, m, false, v.order);
    FreedRepresents(w.pool, r.id, v.order);
    MergedSame(s, sib, x, sibOnRight, key);
    FreedParentNodeFor(v.order, p, i, m, v.pool[p.id], Up(path) == []);
    assert {p.id, m.id, r.id} == {p.id, s.id, sib.id};
    assert Ids(Kid(p, i)) + Ids(Kid(p, i + 1)) == Ids(s) + Ids(sib);
    LastSlot(v.trace, w.trace, |path|, Trace(p.id, i + 1));
    PairFocus(v, w, Up(path), p, i, m, key, r, Gone(s, x), lo, hi);
  }

  lemma FreedRepresents(h: Pool, id: Mmid, order: nat)
    requires id in h && NodeFor(h[id], Freed(id), false, order)
    ensures Represents(h, Freed(id), false, order)
  {
  }

  /** Merging passes the emptied node up: the parent is doomed to lose it. */
  lemma MergeUp(v: View, w: View, path: seq<Frame>, s: Tree, x: nat, sibOnRight: bool, i: nat, lo: int, hi: int)
    returns (q: Tree)
    requires DoomedAt(v, path, s, lo, hi) && path != [] && x == v.trace[|path|].at && CanDrop(s, x) && KeyCount(s) == 1
    requires Sibling(Last(path).t, Last(path).at, sibOnRight, i) && {Last(path).t.id, s.id} <= v.pool.Keys
    requires var f := Last(path); var sib := SiblingOf(f.t, f.at, sibOnRight, i);
             && sib.id in v.pool && SameKind(s, sib) && KeyCount(sib) == 1
             && MergedPair(v, w, path, SetKid(f.t, f.at, s), s, x, sib, sibOnRight, i)
    ensures Framed(path) && Framed(Up(path)) && DoomedAt(w, Up(path), q, lo, hi)
    ensures CanDrop(q, w.trace[|path| - 1].at) &&
            Remaining(Up(path), q, w.trace[|path| - 1].at) == Remaining(path, s, x)
  {
    hide WF, Represents, Ids, PathIds, NodeFor, Doomed, OffWF, Contents, Focus, KidsRepresented, Gone, Rewritten,
      LeafMerged, ChildMerged, Slots, Holds, Without, CanDrop, Before, After, Joined, Paired, Kid, SetKid, PathBefore,
      PathAfter, PathLo, PathHi, DoomedAt, Remaining, Framed, OffPairWF, Merged;
    DoomedFacts(v, path, s, lo, hi);
    var f := Last(path); var p, sib, d := SetKid(f.t, f.at, s), SiblingOf(f.t, f.at, sibOnRight, i), v.depth - |path|
      + 1;
    DoomedParent(v, path, s, sibOnRight, i, lo, hi);
    MergeFocus(v, w, path, s, x, sibOnRight, i, lo, hi);
    MergedShape(f.t, f.at, s, x, sibOnRight, i, d, v.order, PathLo(Up(path), lo), PathHi(Up(path), hi));
    var key := f.t.rest[i].key;
    LastSlot(v.trace, w.trace, |path|, Trace(p.id, i + 1));
    var m, r := Merged(s, sib, x, sibOnRight, key), Freed(Kid(p, i + 1).id);
    q := Paired(p, i, m, key, r);
    RewrittenFields(v, w, Gone(s, x), {p.id, s.id, sib.id});
    MergedSame(s, sib, x, sibOnRight, key);
    FreedContents(m, r);
    PairRemaining(path, s, x, sibOnRight, i, m, key, r);
    MakeDoomed(w, Up(path), q, i + 1, lo, hi);
  }

  lemma MakeDoomed(w: View, up: seq<Frame>, q: Tree, x: nat, lo: int, hi: int)
    requires Framed(up) && |up| < |w.trace| == w.depth
    requires Focus(w, up, q, multiset{}, lo, hi) && w.trace[|up|] == Trace(q.id, x) && q.Inner?
    requires Doomed(q, x, w.depth - |up|, w.order, PathLo(up, lo), PathHi(up, hi))
    ensures DoomedAt(w, up, q, lo, hi) && CanDrop(q, x)
    ensures Remaining(up, q, x) == PathBefore(up) + Contents(q) + PathAfter(up)
  {
    hide Focus, Doomed, Contents, Without, CanDrop, PathBefore, PathAfter, PathLo, PathHi, Framed, Remaining, Kid;
    DoomedDrop(q, x, w.depth - |up|, w.order, PathLo(up, lo), PathHi(up, hi));
    WithoutContents(q, x);
    RemainingIs(up, q, x);
  }

  lemma DoomedFacts(v: View, path: seq<Frame>, s: Tree, lo: int, hi: int)
    requires DoomedAt(v, path, s, lo, hi)
    ensures Framed(path) && |path| < v.depth == |v.trace| && !s.Freed? && CanDrop(s, v.trace[|path|].at)
    ensures s.Inner? ==> Kid(s, v.trace[|path|].at).Freed?
  {
  }

  lemma DoomedDrop(s: Tree, x: nat, d: nat, order: nat, lo: int, hi: int)
    requires Doomed(s, x, d, order, lo, hi)
    ensures CanDrop(s, x) && (s.Inner? ==> Kid(s, x).Freed?)
  {
  }

  lemma FreedContents(m: Tree, r: Tree)
    requires r.Freed?
    ensures Contents(m) + Contents(r) == Contents(m)
  {
  }

  // ---------------------------------------------------------------------------
  // At the root
  // ---------------------------------------------------------------------------

  /** A root left with a single child gives way to it. */
  lemma ShrinkDone(v: View, w: View, s: Tree, x: nat, lo: int, hi: int)
    requires DoomedAt(v, [], s, lo, hi) && x == v.trace[0].at && CanDrop(s, x) && KeyCount(s) == 1 && s.Inner?
    requires var c := Without(s, x).first;
             && c.id in v.pool && c.id in w.pool
             && w.pool == (v.pool - Gone(s, x) - {s.id})[c.id := v.pool[c.id].(root := true)]
             && w == v.(pool := w.pool, rootNode := c.id, depth := v.depth - 1, trace := w.trace) &&
               |w.trace| == w.depth
    ensures Holds(w, Without(s, x).first, lo, hi)
    ensures Contents(Without(s, x).first) == Remaining([], s, x)
  {
    hide WF, Represents, Ids, NodeFor, Doomed, OffWF, Contents, KidsRepresented, Without, Gone, DoomedAt, KidsIds,
      Remaining, Thin, BranchesWF;
    var t := Without(s, x);
    var c := t.first;
    assert KeyCount(t) == 0;
    DoomedNode(v, [], s, lo, hi);
    ShrinkShape(t, v.depth, v.order, lo, hi);
    DroppedIds(s, x);
    DroppedKids(v.pool, s, x, v.order);
    OnlyKid(v.pool, t, v.order);
    var gone := Gone(s, x) + {s.id};
    IdsSplit(c);
    RootCount(v.pool.Keys, Gone(s, x), s.id, Ids(s), Ids(c), multiset(v.leaked), c.id, KidsIds(c));
    Untouched(v.pool.Keys, KidsIds(c), multiset{c.id} + multiset{s.id} + multiset(Gone(s, x)), {c.id} + gone);
    KidsFrame(v.pool, w.pool, c, v.order);
    FlagNode(v.pool[c.id], c, v.order);
    FromKids(w.pool, c, true, v.order);
    assert w.pool.Keys == v.pool.Keys - gone;
    RemainingTop(s, x);
  }

  lemma ShrinkReady(v: View, s: Tree, x: nat, lo: int, hi: int)
    requires DoomedAt(v, [], s, lo, hi) && |v.trace| > 0 && x == v.trace[0].at && CanDrop(s, x) && KeyCount(s) == 1 &&
             s.Inner?
    ensures var c := Without(s, x).first.id; c in v.pool && c !in Gone(s, x) && c != s.id
  {
    hide WF, Represents, Ids, NodeFor, Doomed, OffWF, Contents, KidsRepresented, Without, Gone, DoomedAt, KidsIds,
      Remaining, Thin, BranchesWF;
    var t := Without(s, x);
    assert KeyCount(t) == 0;
    DoomedNode(v, [], s, lo, hi);
    ShrinkShape(t, v.depth, v.order, lo, hi);
    DroppedIds(s, x);
    DroppedKids(v.pool, s, x, v.order);
    OnlyKid(v.pool, t, v.order);
    IdsSplit(t.first);
    RootCount(v.pool.Keys, Gone(s, x), s.id, Ids(s), Ids(t.first), multiset(v.leaked), t.first.id, KidsIds(t.first));
  }

  lemma InnerNode(n: Node, t: Tree, root: bool, order: nat)
    requires NodeFor(n, t, root, order) && t.Inner?
    ensures n.keyn == |t.rest| && n.child == t.first.id
  {
  }

  lemma ShrinkShape(t: Tree, d: nat, order: nat, lo: int, hi: int)
    requires Thin(t, d, order, lo, hi) && t.Inner? && t.rest == []
    ensures WF(t.first, d - 1, order, lo, hi) && Contents(t) == Contents(t.first)
    ensures d >= 2 && KidsIds(t) == Ids(t.first)
  {
  }

  lemma OnlyKid(h: Pool, t: Tree, order: nat)
    requires KidsRepresented(h, t, order) && t.Inner?
    ensures t.first.id in h && NodeFor(h[t.first.id], t.first, false, order) && KidsRepresented(h, t.first, order)
  {
    ToKids(h, t.first, false, order);
  }

  lemma FlagNode(n: Node, t: Tree, order: nat)
    requires NodeFor(n, t, false, order)
    ensures NodeFor(n.(root := true), t, true, order)
  {
  }

  lemma RemainingTop(s: Tree, x: nat)
    requires CanDrop(s, x)
    ensures Remaining([], s, x) == Contents(Without(s, x))
  {
  }

  lemma RootCount(keys: set<Mmid>, gone: set<Mmid>, s: Mmid, sids: multiset<Mmid>, cids: multiset<Mmid>,
      k: multiset<Mmid>,
                  c: Mmid, ck: multiset<Mmid>)
    requires multiset{} + sids + k == multiset(keys)
    requires sids == multiset{s} + cids + multiset(gone) && cids == multiset{c} + ck
    ensures cids + k == multiset(keys - (gone + {s}))
    ensures ck + (multiset{c} + multiset{s} + multiset(gone)) <= multiset(keys)
    ensures c !in gone && c != s
  {
    forall x ensures (cids + k)[x] == multiset(keys - (gone + {s}))[x] {
      assert multiset(keys)[x] == sids[x] + k[x];
      assert sids[x] == multiset{s}[x] + cids[x] + multiset(gone)[x];
    }
    assert ck + (multiset{c} + multiset{s} + multiset(gone)) == sids;
    assert sids[c] == multiset{s}[c] + cids[c] + multiset(gone)[c] && cids[c] >= 1;
    assert multiset(keys)[c] == sids[c] + k[c];
  }

  // ---------------------------------------------------------------------------
  // Choosing a sibling
  // ---------------------------------------------------------------------------

  /** The single-keyed doomed node and the sibling it will be rebalanced or merged with. */
  ghost predicate Paired1(v: View, path: seq<Frame>, s: Tree, sibNode: Mmid, sibOnRight: bool, i: nat, lo: int,
      hi: int) {
    && path != [] && DoomedAt(v, path, s, lo, hi) && KeyCount(s) == 1
    && Sibling(Last(path).t, Last(path).at, sibOnRight, i)
    && sibNode in v.pool && sibNode == SiblingOf(Last(path).t, Last(path).at, sibOnRight, i).id
  }

  lemma ParentNode(v: View, path: seq<Frame>, s: Tree, lo: int, hi: int)
    requires DoomedAt(v, path, s, lo, hi) && path != []
    ensures Framed(path) && |path| < v.depth == |v.trace|
    ensures var f := Last(path);
            && f.t.id in v.pool && v.trace[|path| - 1] == Trace(f.t.id, f.at)
            && NodeFor(v.pool[f.t.id], f.t, Up(path) == [], v.order)
            && 1 <= |f.t.rest| == v.pool[f.t.id].keyn <= |v.pool[f.t.id].recs|
  {
    FocusUp(v, path, s, multiset{}, lo, hi);
  }

  lemma ChooseSibling(v: View, path: seq<Frame>, s: Tree, sibNode: Mmid, sibOnRight: bool, i: nat, lo: int, hi: int)
    requires DoomedAt(v, path, s, lo, hi) && path != [] && KeyCount(s) == 1 && Framed(path)
    requires Sibling(Last(path).t, Last(path).at, sibOnRight, i) && Last(path).t.id in v.pool
    requires var n := v.pool[Last(path).t.id];
             && n.keyn == |Last(path).t.rest| <= |n.recs|
             && sibNode == ChildAt(n, if sibOnRight then i + 1 else i)
    ensures sibNode in v.pool && Paired1(v, path, s, sibNode, sibOnRight, i, lo, hi)
  {
    hide WF, Represents, Ids, PathIds, Doomed, OffWF, Contents, NodeFor;
    ParentNode(v, path, s, lo, hi);
    DoomedParent(v, path, s, sibOnRight, i, lo, hi);
    ChildId(Last(path).t, if sibOnRight then i + 1 else i, v.pool[Last(path).t.id], Up(path) == [], v.order);
  }

  /** Everything the rebalancing and merging routines rely on. */
  lemma PairedFacts(v: View, path: seq<Frame>, s: Tree, sibNode: Mmid, sibOnRight: bool, i: nat, lo: int, hi: int)
    requires Paired1(v, path, s, sibNode, sibOnRight, i, lo, hi)
    ensures Framed(path) && path != [] && DoomedAt(v, path, s, lo, hi) && |path| < v.depth == |v.trace| &&
            KeyCount(s) == 1
    ensures Bounded(v) && Sibling(Last(path).t, Last(path).at, sibOnRight, i)
    ensures !s.Freed? && CanDrop(s, v.trace[|path|].at) && (s.Inner? ==> Kid(s, v.trace[|path|].at).Freed?)
    ensures v.trace[|path|].node == s.id
    ensures var f, x := Last(path), v.trace[|path|].at;
            var sib, p := SiblingOf(f.t, f.at, sibOnRight, i), SetKid(f.t, f.at, s);
            && sib.id == sibNode && SameKind(s, sib)
            && p.id == f.t.id && v.trace[|path| - 1] == Trace(p.id, f.at) && i < |p.rest|
            && {p.id, s.id, sib.id} <= v.pool.Keys
            && p.id != s.id && p.id != sib.id && s.id != sib.id
            && (forall x :: x in Gone(s, v.trace[|path|].at) ==> x in v.pool && x !in {p.id, s.id, sib.id})
            && NodeFor(v.pool[s.id], s, false, v.order)
            && var n, ns, np := v.pool[s.id], v.pool[sib.id], v.pool[p.id];
            && Sized(n, v.order) && Sized(ns, v.order) && Sized(np, v.order)
            && n.keyn == 1 && ns.keyn == KeyCount(sib) >= 1 && n.leaf == s.Leaf?
            && (s.Leaf? ==> x < n.keyn) && (s.Inner? ==> x <= n.keyn)
            && i < np.keyn && np.recs[i].hkey == p.rest[i].key
  {
    hide WF, Represents, Ids, PathIds, Doomed, OffWF, Contents, NodeFor, Gone, Focus, KidsRepresented, DoomedAt,
      Without, Thin, PathWF, PathRepresents, PathLo, PathHi, TraceOf, KidLo, KidHi;
    DoomedNode(v, path, s, lo, hi);
    var f, x := Last(path), v.trace[|path|].at; var sib, p := SiblingOf(f.t, f.at, sibOnRight, i), SetKid(f.t, f.at, s);
    DoomedParent(v, path, s, sibOnRight, i, lo, hi);
    ParentPair(f.t, f.at, s, sibOnRight, i);
    ParentShape(f.t, f.at, s, sibOnRight, i, v.depth - |path| + 1, v.order, PathLo(Up(path), lo), PathHi(Up(path), hi));
    PairApart(v, Up(path), p, i, s, sib, x, lo, hi);
    Single(v.pool.Keys, multiset{p.id}, multiset{s.id}, multiset{sib.id}, multiset(Gone(s, x)));
    SiblingNode(v, s, sib, x, v.depth - |path|, PathLo(path, lo), PathHi(path, hi),
                if sibOnRight then f.t.rest[i].key else KidLo(p, i, PathLo(Up(path), lo)),
                if sibOnRight then KidHi(p, i + 1, PathHi(Up(path), hi)) else f.t.rest[i].key);
    SeparatorAt(v.pool[p.id], p, i, Up(path) == [], v.order);
    forall y | y in Gone(s, x) ensures y in v.pool && y !in {p.id, s.id, sib.id} {
      assert y in multiset(Gone(s, x));
      assert (multiset{p.id} + multiset{s.id} + multiset{sib.id} + multiset(Gone(s, x)))[y] >= 1;
    }
  }

  lemma SeparatorAt(n: Node, p: Tree, i: nat, root: bool, order: nat)
    requires NodeFor(n, p, root, order) && p.Inner? && i < |p.rest|
    ensures Sized(n, order) && i < n.keyn && n.recs[i].hkey == p.rest[i].key
  {
    assert n.recs[i] == Live(n)[i] == Slots(p.rest)[i];
  }

  lemma SiblingNode(v: View, s: Tree, sib: Tree, x: nat, d: nat, lo: int, hi: int, lo': int, hi': int)
    requires s.id in v.pool && sib.id in v.pool
    requires NodeFor(v.pool[s.id], s, false, v.order) && NodeFor(v.pool[sib.id], sib, false, v.order)
    requires Doomed(s, x, d, v.order, lo, hi) && WF(sib, d, v.order, lo', hi')
    ensures SameKind(s, sib) && Sized(v.pool[sib.id], v.order) && v.pool[sib.id].keyn == KeyCount(sib) >= 1
  {
  }

  // ---------------------------------------------------------------------------
  // Starting a deletion
  // ---------------------------------------------------------------------------

  /** The record under the cursor is doomed. */
  lemma DoomedStart(v: View, t: Tree, path: seq<Frame>, s: Tree, i: nat, lo: int, hi: int)
    requires On(v, t, path, s, lo, hi) && s.Leaf? && Framed(path) && |path| + 1 == v.depth == |v.trace|
    requires v.trace[|path|].node == s.id && InSlots(s, v.trace[|path|].at)
    requires |PathBefore(path)| + Start(s, v.trace[|path|].at) == i
    ensures DoomedAt(v, path, s, lo, hi) && CanDrop(s, v.trace[|path|].at) && i < |Contents(t)|
    ensures Remaining(path, s, v.trace[|path|].at) == RemoveAt(Contents(t), i)
  {
    hide Represents, Ids, PathWF, PathRepresents, NodeFor, PathIds, Focus, On, Plug, PathBefore, PathAfter, Framed,
      TraceOf, PathLo, PathHi;
    var at := v.trace[|path|].at;
    LeafAt(v, t, path, s, i, lo, hi);
    OnParts(v, t, path, s, lo, hi);
    OnFacts(v, t, path, s, lo, hi);
    RemoveWithin(PathBefore(path), s.recs, PathAfter(path), at);
    assert PathLo(path, lo) <= s.recs[at].hkey < PathHi(path, hi);
  }

  lemma RemoveWithin<T>(a: seq<T>, b: seq<T>, c: seq<T>, at: nat)
    requires at < |b|
    ensures a + RemoveAt(b, at) + c == RemoveAt(a + b + c, |a| + at)
  {
  }
}
