/** The memory pool: nodes addressed by memory id, with fixed-size record buffers,
    and what it means for a pool to hold a tree. */
module BTreePool {
  import opened BTreeShape
  import opened BTreePath
  import opened BTreeNode

  type Pool = map<Mmid, Node>

  // ---------------------------------------------------------------------------
  // Representation
  // ---------------------------------------------------------------------------

  /** The record slots of an inner node. */
  ghost function Slots(rest: seq<Branch>): (r: seq<Record>)
    ensures |r| == |rest|
  {
    seq(|rest|, i requires 0 <= i < |rest| => Record(rest[i].key, rest[i].kid.id))
  }

  ghost predicate NodeFor(n: Node, t: Tree, root: bool, order: nat) {
    && |n.recs| == order && n.keyn <= order && n.root == root
    && match t {
         case Leaf(_, recs) => n.leaf && Live(n) == recs
         case Inner(_, first, rest) => !n.leaf && n.child == first.id && Live(n) == Slots(rest)
         case Freed(_) => true
       }
  }

  /** The pool holds the tree `t`, whose top node carries the root flag iff `root`. */
  ghost predicate Represents(h: Pool, t: Tree, root: bool, order: nat)
    decreases t
  {
    && t.id in h && NodeFor(h[t.id], t, root, order)
    && (t.Inner? ==>
          && Represents(h, t.first, false, order)
          && forall i | 0 <= i < |t.rest| :: (KidSmaller(t, i + 1); Represents(h, t.rest[i].kid, false, order)))
  }

  lemma {:induction false} RepresentsFrame(h: Pool, h': Pool, t: Tree, root: bool, order: nat)
    requires Represents(h, t, root, order)
    requires forall x :: x in Ids(t) ==> x in h' && x in h && h'[x] == h[x]
    ensures Represents(h', t, root, order)
    decreases t
  {
    IdInIds(t);
    if t.Inner? {
      RepresentsFrame(h, h', t.first, false, order);
      forall i | 0 <= i < |t.rest| ensures Represents(h', t.rest[i].kid, false, order) {
        KidSmaller(t, i + 1);
        KidIdsInBranchIds(t.rest, i);
        RepresentsFrame(h, h', t.rest[i].kid, false, order);
      }
    }
  }

  /** The children of a node, ignoring the node itself. */
  ghost predicate KidsRepresented(h: Pool, t: Tree, order: nat) {
    t.Inner? ==>
      && Represents(h, t.first, false, order)
      && forall i | 0 <= i < |t.rest| :: Represents(h, t.rest[i].kid, false, order)
  }

  ghost function KidsIds(t: Tree): multiset<Mmid> {
    if t.Inner? then Ids(t.first) + BranchIds(t.rest) else multiset{}
  }

  lemma KidsFrame(h: Pool, h': Pool, t: Tree, order: nat)
    requires KidsRepresented(h, t, order)
    requires forall x :: x in KidsIds(t) ==> x in h' && x in h && h'[x] == h[x]
    ensures KidsRepresented(h', t, order)
  {
    if t.Inner? {
      RepresentsFrame(h, h', t.first, false, order);
      forall i | 0 <= i < |t.rest| ensures Represents(h', t.rest[i].kid, false, order) {
        KidIdsInBranchIds(t.rest, i);
        RepresentsFrame(h, h', t.rest[i].kid, false, order);
      }
    }
  }

  lemma IdsSplit(t: Tree)
    ensures Ids(t) == multiset{t.id} + KidsIds(t)
  {
  }

  lemma FromKids(h: Pool, t: Tree, root: bool, order: nat)
    requires t.id in h && NodeFor(h[t.id], t, root, order) && KidsRepresented(h, t, order)
    ensures Represents(h, t, root, order)
  {
  }

  lemma ToKids(h: Pool, t: Tree, root: bool, order: nat)
    requires Represents(h, t, root, order)
    ensures t.id in h && NodeFor(h[t.id], t, root, order) && KidsRepresented(h, t, order)
  {
  }

  /** All of node `t` but child `at`. */
  ghost predicate OffRepresents(h: Pool, t: Tree, at: nat, root: bool, order: nat) {
    && t.Inner? && at <= |t.rest|
    && t.id in h && NodeFor(h[t.id], t, root, order)
    && (at > 0 ==> Represents(h, t.first, false, order))
    && forall i | 0 <= i < |t.rest| && i != at - 1 :: Represents(h, t.rest[i].kid, false, order)
  }

  lemma OffRepresentsFrame(h: Pool, h': Pool, t: Tree, at: nat, root: bool, order: nat)
    requires OffRepresents(h, t, at, root, order)
    requires forall x :: x in OffIds(t, at) ==> x in h' && x in h && h'[x] == h[x]
    ensures OffRepresents(h', t, at, root, order)
  {
    hide Represents, Ids, BranchIds;
    if at > 0 { RepresentsFrame(h, h', t.first, false, order); }
    forall i | 0 <= i < |t.rest| && i != at - 1 ensures Represents(h', t.rest[i].kid, false, order) {
      if at == 0 {
        KidIdsInBranchIds(t.rest, i);
      } else if i < at - 1 {
        KidIdsInBranchIds(t.rest[..at - 1], i);
      } else {
        KidIdsInBranchIds(t.rest[at..], i - at);
      }
      RepresentsFrame(h, h', t.rest[i].kid, false, order);
    }
  }

  lemma SetKidRepresents(h: Pool, t: Tree, at: nat, s: Tree, root: bool, order: nat)
    requires OffRepresents(h, t, at, root, order)
    requires Represents(h, s, false, order) && s.id == Kid(t, at).id
    ensures Represents(h, SetKid(t, at, s), root, order)
  {
    var r := SetKid(t, at, s);
    assert Slots(r.rest) == Slots(t.rest);
  }

  lemma KidRepresents(h: Pool, t: Tree, at: nat, root: bool, order: nat)
    requires Represents(h, t, root, order) && t.Inner? && at <= |t.rest|
    ensures OffRepresents(h, t, at, root, order) && Represents(h, Kid(t, at), false, order)
  {
  }

  /** The pool holds every node off the path, and the frames are linked to one another
      down to node `id`. */
  ghost predicate PathRepresents(h: Pool, path: seq<Frame>, id: Mmid, order: nat)
  {
    path == [] ||
    (var f := Last(path);
     && OffRepresents(h, f.t, f.at, |path| == 1, order)
     && Kid(f.t, f.at).id == id
     && PathRepresents(h, Up(path), f.t.id, order))
  }

  lemma {:induction false} PathRepresentsFrame(h: Pool, h': Pool, path: seq<Frame>, id: Mmid, order: nat)
    requires Framed(path) && PathRepresents(h, path, id, order)
    requires forall x :: x in PathIds(path) ==> x in h' && x in h && h'[x] == h[x]
    ensures PathRepresents(h', path, id, order)
  {
    if path != [] {
      var f := Last(path);
      OffRepresentsFrame(h, h', f.t, f.at, |path| == 1, order);
      PathRepresentsFrame(h, h', Up(path), f.t.id, order);
    }
  }

  lemma {:induction false} PlugRepresents(h: Pool, path: seq<Frame>, s: Tree, order: nat)
    requires Framed(path) && PathRepresents(h, path, s.id, order)
    requires Represents(h, s, path == [], order)
    ensures Represents(h, Plug(path, s), true, order)
  {
    if path != [] {
      var f := Last(path);
      SetKidRepresents(h, f.t, f.at, s, |path| == 1, order);
      PlugRepresents(h, Up(path), SetKid(f.t, f.at, s), order);
    }
  }

  lemma {:induction false} PlugId(path: seq<Frame>, s: Tree)
    requires Framed(path)
    ensures Plug(path, s).id == if path == [] then s.id else path[0].t.id
  {
    if path != [] { PlugId(Up(path), SetKid(Last(path).t, Last(path).at, s)); }
  }

  /** In a pool without sharing, a node of one part is not a node of another. */
  lemma Apart(a: multiset<Mmid>, b: multiset<Mmid>, keys: set<Mmid>, x: Mmid)
    requires a + b <= multiset(keys) && x in a
    ensures x !in b
  {
    assert multiset(keys)[x] <= 1;
    assert (a + b)[x] == a[x] + b[x];
  }

  /** A change confined to `changed` leaves every node of `a` alone when `changed` lies
      in another part of the pool or outside it. */
  lemma Untouched(keys: set<Mmid>, a: multiset<Mmid>, b: multiset<Mmid>, changed: set<Mmid>)
    requires a + b <= multiset(keys)
    requires forall x :: x in changed ==> x in b || x !in keys
    ensures forall x :: x in a ==> x in keys && x !in changed
  {
    forall x | x in a ensures x in keys && x !in changed {
      assert (a + b)[x] == a[x] + b[x];
      assert multiset(keys)[x] <= 1;
    }
  }

  lemma OneMore(keys: set<Mmid>, x: Mmid)
    requires x !in keys
    ensures multiset(keys + {x}) == multiset(keys) + multiset{x}
  {
  }

  // ---------------------------------------------------------------------------
  // The state of a tree context
  // ---------------------------------------------------------------------------

  datatype View = View(order: nat, pool: Pool, next: Mmid, rootNode: Mmid, depth: nat, trace: seq<Trace>,
                       leaked: set<Mmid>)

  ghost predicate Bounded(v: View) {
    && v.order >= 3 && v.next > 0
    && (forall x :: x in v.pool ==> 0 < x < v.next)
    && |v.trace| == v.depth
  }

  /** The pool holds exactly the tree `t`, in bounds [lo, hi), and the leaked nodes. */
  ghost predicate Holds(v: View, t: Tree, lo: int, hi: int) {
    && Bounded(v) && v.depth >= 1 && v.rootNode == t.id
    && Represents(v.pool, t, true, v.order)
    && WF(t, v.depth, v.order, lo, hi)
    && Ids(t) + multiset(v.leaked) == multiset(v.pool.Keys)
  }

  /** The pool holds the nodes around `path`, the subtree `s` below it and `spare`
      nodes besides; the trace leads along `path`. */
  ghost predicate Focus(v: View, path: seq<Frame>, s: Tree, spare: multiset<Mmid>, lo: int, hi: int) {
    && Bounded(v) && Framed(path) && |path| < v.depth && s.id in v.pool
    && PathWF(path, v.depth, v.order, lo, hi)
    && PathRepresents(v.pool, path, s.id, v.order)
    && Represents(v.pool, s, path == [], v.order)
    && PathIds(path) + Ids(s) + spare + multiset(v.leaked) == multiset(v.pool.Keys)
    && v.trace[..|path|] == TraceOf(path)
    && v.rootNode == (if path == [] then s.id else path[0].t.id)
  }

  lemma FocusIds(v: View, path: seq<Frame>, s: Tree, spare: multiset<Mmid>, lo: int, hi: int)
    requires Focus(v, path, s, spare, lo, hi)
    ensures PathIds(path) + Ids(s) + spare + multiset(v.leaked) == multiset(v.pool.Keys)
  {
  }

  lemma FocusDone(v: View, path: seq<Frame>, s: Tree, lo: int, hi: int)
    requires Focus(v, path, s, multiset{}, lo, hi)
    requires WF(s, v.depth - |path|, v.order, PathLo(path, lo), PathHi(path, hi))
    ensures Holds(v, Plug(path, s), lo, hi)
    ensures Contents(Plug(path, s)) == PathBefore(path) + Contents(s) + PathAfter(path)
  {
    PlugWF(path, s, v.depth, v.order, lo, hi);
    PlugRepresents(v.pool, path, s, v.order);
    PlugId(path, s);
    PlugIds(path, s);
    PlugContents(path, s);
  }

  lemma FocusUp(v: View, path: seq<Frame>, s: Tree, spare: multiset<Mmid>, lo: int, hi: int)
    requires Focus(v, path, s, spare, lo, hi) && path != []
    ensures var f := Last(path);
            && Focus(v, Up(path), SetKid(f.t, f.at, s), spare, lo, hi)
            && v.trace[|path| - 1] == Trace(f.t.id, f.at)
  {
    var f := Last(path);
    SetKidRepresents(v.pool, f.t, f.at, s, |path| == 1, v.order);
    SetKidIds(f.t, f.at, s);
    assert v.trace[|path| - 1] == v.trace[..|path|][|path| - 1] == TraceOf(path)[|path| - 1];
    assert TraceOf(Up(path)) == TraceOf(path)[..|path| - 1];
    assert v.trace[..|path| - 1] == v.trace[..|path|][..|path| - 1];
  }

  /** Rebuild the subtree below the path, touching only its nodes, spare nodes and new ones. */
  lemma FocusReplace(v: View, w: View, path: seq<Frame>, s: Tree, s': Tree,
                     spare: multiset<Mmid>, spare': multiset<Mmid>, changed: set<Mmid>, lo: int, hi: int)
    requires Focus(v, path, s, spare, lo, hi) && Bounded(w)
    requires w == v.(pool := w.pool, next := w.next, trace := w.trace) && w.trace[..|path|] == v.trace[..|path|]
    requires forall x :: x in v.pool && x !in changed ==> x in w.pool && w.pool[x] == v.pool[x]
    requires forall x :: x in changed ==> x in Ids(s) + spare || x !in v.pool
    requires s'.id == s.id && Represents(w.pool, s', path == [], v.order)
    requires PathIds(path) + Ids(s') + spare' + multiset(v.leaked) == multiset(w.pool.Keys)
    ensures Focus(w, path, s', spare', lo, hi)
  {
    Untouched(v.pool.Keys, PathIds(path), Ids(s) + spare + multiset(v.leaked), changed);
    PathRepresentsFrame(v.pool, w.pool, path, s.id, v.order);
  }

  /** The children of `s` and the spare subtree `pend` survive a change of `s` itself. */
  lemma FocusKids(v: View, h': Pool, path: seq<Frame>, s: Tree, pend: Tree, spare: multiset<Mmid>, changed: set<Mmid>,
                  lo: int, hi: int)
    requires Focus(v, path, s, spare, lo, hi)
    requires s.Inner? ==> spare == Ids(pend) && Represents(v.pool, pend, false, v.order)
    requires forall x :: x in v.pool && x !in changed ==> x in h' && h'[x] == v.pool[x]
    requires forall x :: x in changed ==> x == s.id || x !in v.pool
    ensures s.Inner? ==> KidsRepresented(h', s, v.order)
    ensures s.Inner? ==> Represents(h', pend, false, v.order)
  {
    hide PathWF, PathRepresents, Represents, NodeFor, KidsRepresented, Ids, PathIds, TraceOf;
    ToKids(v.pool, s, path == [], v.order);
    IdsSplit(s);
    if s.Inner? {
      Untouched(v.pool.Keys, KidsIds(s) + Ids(pend), multiset{s.id} + PathIds(path) + multiset(v.leaked), changed);
      KidsFrame(v.pool, h', s, v.order);
      RepresentsFrame(v.pool, h', pend, false, v.order);
    }
  }
}
