/** Moving through a tree held by a pool: from the root to a record and between
    neighbouring records. */
module BTreeCursor {
  import opened BTreeShape
  import opened BTreePath
  import opened BTreeNode
  import opened BTreePool
  import opened BTreeInsert

  /** The walk through tree `t` stands at subtree `s` below `path`, the way the trace led. */
  ghost predicate On(v: View, t: Tree, path: seq<Frame>, s: Tree, lo: int, hi: int) {
    && Focus(v, path, s, multiset{}, lo, hi)
    && WF(s, v.depth - |path|, v.order, PathLo(path, lo), PathHi(path, hi))
    && Plug(path, s) == t
  }

  lemma MakeOn(v: View, t: Tree, path: seq<Frame>, s: Tree, lo: int, hi: int)
    requires Focus(v, path, s, multiset{}, lo, hi)
    requires WF(s, v.depth - |path|, v.order, PathLo(path, lo), PathHi(path, hi))
    requires Plug(path, s) == t
    ensures On(v, t, path, s, lo, hi)
  {
  }

  lemma OnParts(v: View, t: Tree, path: seq<Frame>, s: Tree, lo: int, hi: int)
    requires On(v, t, path, s, lo, hi)
    ensures Framed(path) && |path| < v.depth == |v.trace| && Bounded(v) && s.id in v.pool
    ensures Focus(v, path, s, multiset{}, lo, hi) && PathWF(path, v.depth, v.order, lo, hi)
    ensures WF(s, v.depth - |path|, v.order, PathLo(path, lo), PathHi(path, hi))
    ensures Plug(path, s) == t && v.trace[..|path|] == TraceOf(path)
  {
  }

  /** Everything one level up. */
  lemma PathUp(path: seq<Frame>, s: Tree, d: nat, order: nat, lo: int, hi: int)
    requires PathWF(path, d, order, lo, hi) && path != []
    ensures Framed(path) && Framed(Up(path)) && PathWF(Up(path), d, order, lo, hi) && |path| < d
    ensures var f := Last(path);
            && OffWF(f.t, f.at, d - |path| + 1, order, PathLo(Up(path), lo), PathHi(Up(path), hi))
            && PathLo(path, lo) == KidLo(f.t, f.at, PathLo(Up(path), lo))
            && PathHi(path, hi) == KidHi(f.t, f.at, PathHi(Up(path), hi))
            && Plug(path, s) == Plug(Up(path), SetKid(f.t, f.at, s))
            && PathBefore(path) == PathBefore(Up(path)) + Before(f.t, f.at)
  {
  }

  lemma ThinNode(s: Tree, d: nat, order: nat, lo: int, hi: int)
    requires WF(s, d, order, lo, hi)
    ensures !s.Freed? && 1 <= KeyCount(s) < order && (s.Leaf? ==> d == 1) && (s.Inner? ==> d >= 2)
    ensures s.Leaf? ==> Ascending(s.recs)
    ensures s.Inner? ==> BranchesWF(s.rest, d - 1, order, hi)
  {
  }

  lemma OnFacts(v: View, t: Tree, path: seq<Frame>, s: Tree, lo: int, hi: int)
    requires On(v, t, path, s, lo, hi)
    ensures Bounded(v) && Framed(path) && |path| < v.depth == |v.trace| && s.id in v.pool && !s.Freed?
    ensures PathWF(path, v.depth, v.order, lo, hi)
    ensures WF(s, v.depth - |path|, v.order, PathLo(path, lo), PathHi(path, hi))
    ensures var n := v.pool[s.id];
            && NodeFor(n, s, path == [], v.order) && n.leaf == s.Leaf? && n.root == (path == [])
            && 1 <= n.keyn == KeyCount(s) < v.order == |n.recs|
            && (s.Leaf? ==> Live(n) == s.recs && v.depth == |path| + 1) &&
              (s.Inner? ==> Live(n) == Slots(s.rest) && |path| + 1 < v.depth)
    ensures Contents(t) == PathBefore(path) + Contents(s) + PathAfter(path)
    ensures |Contents(s)| >= 1
  {
    hide On, WF, Represents, Ids, Contents, PathRepresents, PathIds, TraceOf, Plug, PathBefore, PathAfter, PathLo,
      PathHi, OffWF, PathWF, KidsRepresented, Framed;
    OnParts(v, t, path, s, lo, hi);
    ThinNode(s, v.depth - |path|, v.order, PathLo(path, lo), PathHi(path, hi));
    ToKids(v.pool, s, path == [], v.order);
    PlugContents(path, s);
    WFAscending(s, v.depth - |path|, v.order, PathLo(path, lo), PathHi(path, hi));
  }

  lemma OnTop(v: View, t: Tree, lo: int, hi: int)
    requires Holds(v, t, lo, hi)
    ensures On(v, t, [], t, lo, hi) && PathBefore([]) == [] && PathLo([], lo) == lo && PathHi([], hi) == hi
  {
    assert t.id in v.pool;
    hide WF, Represents, Ids, Contents;
    assert v.trace[..0] == TraceOf([]);
  }

  lemma OnHolds(v: View, t: Tree, path: seq<Frame>, s: Tree, lo: int, hi: int)
    requires On(v, t, path, s, lo, hi)
    ensures Holds(v, t, lo, hi)
  {
    FocusDone(v, path, s, lo, hi);
  }

  /** Only the trace above `s` matters to where the walk stands. */
  lemma OnTrace(v: View, w: View, t: Tree, path: seq<Frame>, s: Tree, lo: int, hi: int)
    requires On(v, t, path, s, lo, hi) && w == v.(trace := w.trace) && |w.trace| == |v.trace|
    requires |path| <= |v.trace| && w.trace[..|path|] == v.trace[..|path|]
    ensures On(w, t, path, s, lo, hi)
  {
  }

  lemma OnDown(v: View, t: Tree, path: seq<Frame>, s: Tree, at: nat, lo: int, hi: int)
    requires On(v, t, path, s, lo, hi) && s.Inner? && at <= |s.rest| && |path| < |v.trace|
    requires v.trace[|path|] == Trace(s.id, at)
    ensures Framed(path)
    ensures var p := path + [Frame(s, at)];
            && Framed(p)
            && On(v, t, p, Kid(s, at), lo, hi)
            && PathBefore(p) == PathBefore(path) + Before(s, at)
            && PathLo(p, lo) == KidLo(s, at, PathLo(path, lo)) && PathHi(p, hi) == KidHi(s, at, PathHi(path, hi))
  {
    hide *;
    var p := path + [Frame(s, at)];
    OnParts(v, t, path, s, lo, hi);
    PathWFDown(path, s, at, v.depth, v.order, lo, hi);
    BoundsDown(path, s, at, lo, hi);
    PlugDown(path, s, at);
    BeforeDown(path, s, at);
    FocusDown(v, path, s, at, lo, hi);
    MakeOn(v, t, p, Kid(s, at), lo, hi);
  }

  lemma BeforeDown(path: seq<Frame>, s: Tree, at: nat)
    requires Framed(path) && s.Inner? && at <= |s.rest|
    ensures Framed(path + [Frame(s, at)]) && PathBefore(path + [Frame(s, at)]) == PathBefore(path) + Before(s, at)
    ensures TraceOf(path + [Frame(s, at)]) == TraceOf(path) + [Trace(s.id, at)]
    ensures PathIds(path + [Frame(s, at)]) == PathIds(path) + OffIds(s, at)
  {
    hide Before, OffIds, Contents, Ids;
    assert Up(path + [Frame(s, at)]) == path;
  }

  lemma FocusDown(v: View, path: seq<Frame>, s: Tree, at: nat, lo: int, hi: int)
    requires Focus(v, path, s, multiset{}, lo, hi) && s.Inner? && at <= |s.rest|
    requires v.trace[|path|] == Trace(s.id, at) && PathWF(path + [Frame(s, at)], v.depth, v.order, lo, hi)
    ensures Focus(v, path + [Frame(s, at)], Kid(s, at), multiset{}, lo, hi)
  {
    hide WF, Represents, Ids, Contents, NodeFor, OffWF, PathWF, PathRepresents, PathIds, TraceOf, OffIds,
      OffRepresents;
    var p := path + [Frame(s, at)];
    FocusIds(v, path, s, multiset{}, lo, hi);
    BeforeDown(path, s, at);
    KidIds(s, at);
    FocusRep(v, path, s, lo, hi);
    DownRepresents(v.pool, path, s, at, v.order);
    DownPool(v.pool, path, s, at, v.order);
    ProperDepth(p, v.depth, v.order, lo, hi);
    assert v.trace[..|p|] == v.trace[..|path|] + [v.trace[|path|]];
    assert PathIds(path) + OffIds(s, at) + Ids(Kid(s, at)) + multiset{} + multiset(v.leaked)
        == PathIds(path) + (OffIds(s, at) + Ids(Kid(s, at))) + multiset{} + multiset(v.leaked);
  }

  lemma FocusRep(v: View, path: seq<Frame>, s: Tree, lo: int, hi: int)
    requires Focus(v, path, s, multiset{}, lo, hi)
    ensures PathRepresents(v.pool, path, s.id, v.order) && Represents(v.pool, s, path == [], v.order)
    ensures v.trace[..|path|] == TraceOf(path)
  {
  }

  lemma ProperDepth(path: seq<Frame>, d: nat, order: nat, lo: int, hi: int)
    requires PathWF(path, d, order, lo, hi)
    ensures Framed(path) && |path| < d
  {
  }

  lemma DownRepresents(h: Pool, path: seq<Frame>, s: Tree, at: nat, order: nat)
    requires PathRepresents(h, path, s.id, order) && Represents(h, s, path == [], order) && s.Inner? && at <= |s.rest|
    ensures PathRepresents(h, path + [Frame(s, at)], Kid(s, at).id, order)
  {
    KidRepresents(h, s, at, path == [], order);
    assert Up(path + [Frame(s, at)]) == path;
  }

  lemma DownPool(h: Pool, path: seq<Frame>, s: Tree, at: nat, order: nat)
    requires Represents(h, s, path == [], order) && s.Inner? && at <= |s.rest|
    ensures Represents(h, Kid(s, at), false, order) && Kid(s, at).id in h
    ensures var n := h[s.id]; at <= n.keyn <= |n.recs| && Kid(s, at).id == ChildAt(n, at)
  {
    if at > 0 {
      assert h[s.id].recs[at - 1] == Live(h[s.id])[at - 1] == Slots(s.rest)[at - 1];
    }
  }

  lemma OnChild(v: View, t: Tree, path: seq<Frame>, s: Tree, at: nat, lo: int, hi: int)
    requires On(v, t, path, s, lo, hi) && s.Inner? && at <= |s.rest|
    ensures at <= v.pool[s.id].keyn <= |v.pool[s.id].recs| && Kid(s, at).id == ChildAt(v.pool[s.id], at)
  {
    OnFacts(v, t, path, s, lo, hi);
    DownPool(v.pool, path, s, at, v.order);
  }

  lemma OnUp(v: View, t: Tree, path: seq<Frame>, s: Tree, lo: int, hi: int)
    requires On(v, t, path, s, lo, hi) && path != []
    ensures Framed(path) && Framed(Up(path)) && |path| <= |v.trace|
    ensures var f := Last(path);
            && f.t.Inner? && f.at <= |f.t.rest|
            && On(v, t, Up(path), SetKid(f.t, f.at, s), lo, hi)
            && v.trace[|path| - 1] == Trace(f.t.id, f.at)
            && PathBefore(path) == PathBefore(Up(path)) + Before(f.t, f.at)
  {
    hide *;
    OnParts(v, t, path, s, lo, hi);
    PathUp(path, s, v.depth, v.order, lo, hi);
    UpLength(path);
    var f, d := Last(path), v.depth - |Up(path)|;
    assert d - 1 == v.depth - |path|;
    FocusUp(v, path, s, multiset{}, lo, hi);
    SetKidWF(f.t, f.at, s, d, v.order, PathLo(Up(path), lo), PathHi(Up(path), hi));
    MakeOn(v, t, Up(path), SetKid(f.t, f.at, s), lo, hi);
  }

  lemma UpLength<T>(path: seq<T>)
    requires path != []
    ensures |Up(path)| == |path| - 1
  {
  }

  /** Standing at slot `at` of a leaf, the trace is the trace to that record. */
  lemma OnRecord(v: View, t: Tree, path: seq<Frame>, s: Tree, lo: int, hi: int)
    requires On(v, t, path, s, lo, hi) && s.Leaf? && |path| < |v.trace|
    requires v.trace[|path|].node == s.id && v.trace[|path|].at < |s.recs|
    ensures Framed(path) && |PathBefore(path)| + v.trace[|path|].at < |Contents(t)|
    ensures v.trace == TraceTo(t, |PathBefore(path)| + v.trace[|path|].at)
    ensures Contents(t)[|PathBefore(path)| + v.trace[|path|].at] == s.recs[v.trace[|path|].at]
  {
    hide *;
    OnParts(v, t, path, s, lo, hi);
    OnFacts(v, t, path, s, lo, hi);
    LeafTrace(s, v.trace[|path|].at);
    PlugTraceTo(path, s, v.trace[|path|].at);
    assert v.trace == v.trace[..|path|] + [v.trace[|path|]];
  }

  lemma LeafTrace(s: Tree, i: nat)
    requires s.Leaf?
    ensures TraceTo(s, i) == [Trace(s.id, i)] && Contents(s) == s.recs
  {
  }

  /** The walk a trace records can be retraced. */
  lemma {:induction false} Retrace(v: View, t: Tree, path: seq<Frame>, s: Tree, i: nat, lo: int, hi: int)
    returns (full: seq<Frame>, leaf: Tree, at: nat)
    requires On(v, t, path, s, lo, hi) && Framed(path)
    requires i < |Contents(s)| && v.trace == TraceTo(t, |PathBefore(path)| + i)
    ensures On(v, t, full, leaf, lo, hi) && leaf.Leaf? && at < |leaf.recs| && Framed(full)
    ensures |full| < |v.trace| && v.trace[|full|] == Trace(leaf.id, at)
    ensures |PathBefore(full)| + at == |PathBefore(path)| + i
    decreases s
  {
    hide *;
    PlugTraceTo(path, s, i);
    OnParts(v, t, path, s, lo, hi);
    OnFacts(v, t, path, s, lo, hi);
    if s.Leaf? {
      LeafTrace(s, i);
      full, leaf, at := path, s, i;
    } else {
      var j := LocateKid(s, i);
      KidTraceTo(s, j, i - |Before(s, j)|);
      assert v.trace[|path|] == TraceTo(s, i)[0] == Trace(s.id, j);
      OnDown(v, t, path, s, j, lo, hi);
      KidSmaller(s, j);
      full, leaf, at := Retrace(v, t, path + [Frame(s, j)], Kid(s, j), i - |Before(s, j)|, lo, hi);
    }
  }

  // ---------------------------------------------------------------------------
  // Positions inside a subtree
  // ---------------------------------------------------------------------------

  /** Slot `at` names a record of a leaf or a child of an inner node. */
  ghost predicate InSlots(s: Tree, at: nat) {
    match s
    case Leaf(_, recs) => at < |recs|
    case Inner(_, _, rest) => at <= |rest|
    case Freed(_) => false
  }

  /** How many records of `s` lie before slot `at`. */
  ghost function Start(s: Tree, at: nat): nat
    requires InSlots(s, at)
  {
    if s.Leaf? then at else |Before(s, at)|
  }

  /** How many records of `s` lie before the end of slot `at`. */
  ghost function End(s: Tree, at: nat): nat
    requires InSlots(s, at)
  {
    if s.Leaf? then at + 1 else |Before(s, at)| + |Contents(Kid(s, at))|
  }

  lemma FirstSlot(s: Tree)
    requires InSlots(s, 0)
    ensures Start(s, 0) == 0
  {
  }

  lemma LastSlotEnds(s: Tree, at: nat)
    requires InSlots(s, at) && !InSlots(s, at + 1)
    ensures End(s, at) == |Contents(s)|
  {
    if s.Inner? {
      KidContents(s, at);
      assert s.rest[at..] == [];
    }
  }

  /** The next slot starts where this one ends. */
  lemma NextSlot(s: Tree, at: nat)
    requires InSlots(s, at + 1)
    ensures InSlots(s, at) && Start(s, at + 1) == End(s, at)
  {
    if s.Inner? { ThroughKid(s, at); }
  }

  /** Seen from one level up, a subtree is one slot. */
  lemma SlotUp(t: Tree, at: nat, s: Tree)
    requires t.Inner? && at <= |t.rest|
    ensures var u := SetKid(t, at, s); Start(u, at) == |Before(t, at)| && End(u, at) == |Before(t, at)| + |Contents(s)|
  {
    SetKidAround(t, at, s);
  }

  lemma SlotsOf(v: View, t: Tree, path: seq<Frame>, s: Tree, at: nat, lo: int, hi: int)
    requires On(v, t, path, s, lo, hi)
    ensures s.id in v.pool && (var n := v.pool[s.id]; InSlots(s, at) <==> at <= n.keyn - if n.leaf then 1 else 0)
  {
    OnFacts(v, t, path, s, lo, hi);
  }

  lemma LeafSlot(s: Tree, at: nat)
    requires s.Leaf? && at < |s.recs|
    ensures InSlots(s, at) && Start(s, at) == at && End(s, at) == at + 1
  {
  }

  lemma LeafEnd(s: Tree, at: nat)
    requires InSlots(s, at)
    ensures s.Leaf? ==> End(s, at) == Start(s, at) + 1
  {
  }

  lemma InnerSlot(s: Tree, at: nat)
    requires s.Inner? && InSlots(s, at)
    ensures at <= |s.rest|
    ensures Start(s, at) == |Before(s, at)| && End(s, at) == |Before(s, at)| + |Contents(Kid(s, at))|
  {
  }

  lemma KidInSlots(t: Tree, at: nat, s: Tree)
    requires t.Inner? && at <= |t.rest|
    ensures InSlots(SetKid(t, at, s), at) && SetKid(t, at, s).id == t.id
  {
  }

  /** At the root the subtree is the tree. */
  lemma OnWhole(v: View, t: Tree, s: Tree, lo: int, hi: int)
    requires On(v, t, [], s, lo, hi)
    ensures s == t && Holds(v, t, lo, hi) && PathBefore([]) == []
  {
    OnHolds(v, t, [], s, lo, hi);
  }

  /** No slot of a well-formed node is empty. */
  lemma SlotNonempty(v: View, t: Tree, path: seq<Frame>, s: Tree, at: nat, lo: int, hi: int)
    requires On(v, t, path, s, lo, hi) && InSlots(s, at)
    ensures End(s, at) > Start(s, at)
  {
    hide *;
    OnFacts(v, t, path, s, lo, hi);
    if s.Leaf? {
      LeafEnd(s, at);
    } else {
      InnerSlot(s, at);
      var d, l, h := v.depth - |path|, PathLo(path, lo), PathHi(path, hi);
      KidWF(s, at, d, v.order, l, h);
      WFAscending(Kid(s, at), d - 1, v.order, KidLo(s, at, l), KidHi(s, at, h));
    }
  }

  /** The walk stands in slot `at` of `s`, one level or more below the root: one level up. */
  lemma ClimbFromEnd(v: View, t: Tree, path: seq<Frame>, s: Tree, at: nat, k: nat, lo: int, hi: int)
    returns (p: seq<Frame>, u: Tree)
    requires On(v, t, path, s, lo, hi) && Framed(path) && path != [] && InSlots(s, at) && !InSlots(s, at + 1)
    requires |PathBefore(path)| + End(s, at) == k
    ensures |p| == |path| - 1 < |v.trace| && Framed(p) && On(v, t, p, u, lo, hi)
    ensures v.trace[|p|].node == u.id && InSlots(u, v.trace[|p|].at) && |PathBefore(p)| + End(u, v.trace[|p|].at) == k
  {
    hide *;
    var f := Last(path);
    LastSlotEnds(s, at);
    OnUp(v, t, path, s, lo, hi);
    SlotUp(f.t, f.at, s);
    KidInSlots(f.t, f.at, s);
    UpLength(path);
    p, u := Up(path), SetKid(f.t, f.at, s);
  }

  lemma ClimbFromStart(v: View, t: Tree, path: seq<Frame>, s: Tree, k: nat, lo: int, hi: int)
    returns (p: seq<Frame>, u: Tree)
    requires On(v, t, path, s, lo, hi) && Framed(path) && path != [] && InSlots(s, 0)
    requires |PathBefore(path)| + Start(s, 0) == k
    ensures |p| == |path| - 1 < |v.trace| && Framed(p) && On(v, t, p, u, lo, hi)
    ensures v.trace[|p|].node == u.id && InSlots(u, v.trace[|p|].at) && |PathBefore(p)| + Start(u, v.trace[|p|].at) == k
  {
    hide *;
    var f := Last(path);
    FirstSlot(s);
    OnUp(v, t, path, s, lo, hi);
    SlotUp(f.t, f.at, s);
    KidInSlots(f.t, f.at, s);
    UpLength(path);
    p, u := Up(path), SetKid(f.t, f.at, s);
  }

  /** Where a cursor stands. */
  lemma Stand(v: View, t: Tree, i: nat, lo: int, hi: int) returns (path: seq<Frame>, s: Tree)
    requires Holds(v, t, lo, hi) && i < |Contents(t)| && v.trace == TraceTo(t, i)
    ensures |path| + 1 == v.depth == |v.trace| && Framed(path) && On(v, t, path, s, lo, hi) && s.Leaf?
    ensures v.trace[|path|].node == s.id && InSlots(s, v.trace[|path|].at)
    ensures |PathBefore(path)| + Start(s, v.trace[|path|].at) == i &&
            |PathBefore(path)| + End(s, v.trace[|path|].at) == i + 1
  {
    hide *;
    OnTop(v, t, lo, hi);
    var at;
    EmptyFramed();
    path, s, at := Retrace(v, t, [], t, i, lo, hi);
    OnFacts(v, t, path, s, lo, hi);
    LeafSlot(s, at);
  }

  lemma OnEmptyPath(v: View, t: Tree, lo: int, hi: int)
    requires On(v, t, [], t, lo, hi)
    ensures PathBefore([]) == [] && PathAfter([]) == [] && PathLo([], lo) == lo && PathHi([], hi) == hi
    ensures t.id == v.rootNode && 0 < v.depth == |v.trace|
  {
  }

  lemma EmptyFramed()
    ensures Framed([])
  {
  }

  /** At the bottom the walk has reached its record. */
  lemma AtLeaf(v: View, t: Tree, path: seq<Frame>, s: Tree, i: nat, lo: int, hi: int)
    requires On(v, t, path, s, lo, hi) && |path| + 1 == |v.trace| && Framed(path)
    requires v.trace[|path|].node == s.id && InSlots(s, v.trace[|path|].at)
    requires |PathBefore(path)| + Start(s, v.trace[|path|].at) == i
    ensures Holds(v, t, lo, hi) && i < |Contents(t)| && v.trace == TraceTo(t, i)
  {
    hide Focus, WF, Contents, TraceTo, PathBefore, Plug, On, Holds;
    OnFacts(v, t, path, s, lo, hi);
    OnRecord(v, t, path, s, lo, hi);
    OnHolds(v, t, path, s, lo, hi);
  }

  /** Separators ascend. */
  lemma {:induction false} SlotsAscend(rest: seq<Branch>, d: nat, order: nat, hi: int)
    requires BranchesWF(rest, d, order, hi)
    ensures Ascending(Slots(rest))
  {
    forall i, j | 0 <= i < j < |rest| ensures rest[i].key < rest[j].key {
      SlotsAscendAt(rest, i, j, d, order, hi);
    }
  }

  lemma {:induction false} SlotsAscendAt(rest: seq<Branch>, i: nat, j: nat, d: nat, order: nat, hi: int)
    requires BranchesWF(rest, d, order, hi) && i < j < |rest|
    ensures rest[i].key < rest[j].key
  {
    assert rest == rest[..j] + rest[j..];
    BranchesWFAppend(rest[..j], rest[j..], d, order, hi);
    assert rest[..j] == rest[..i] + rest[i..j];
    BranchesWFAppend(rest[..i], rest[i..j], d, order, rest[j].key);
    BranchesAscending(rest[i..j], d, order, rest[j].key);
  }

  lemma LiveAscends(v: View, t: Tree, path: seq<Frame>, s: Tree, lo: int, hi: int)
    requires On(v, t, path, s, lo, hi)
    ensures s.id in v.pool && v.pool[s.id].keyn <= |v.pool[s.id].recs| && Ascending(Live(v.pool[s.id]))
  {
    hide WF, On, Framed, BranchesWF, PathLo, PathHi, Contents, PathWF;
    OnFacts(v, t, path, s, lo, hi);
    ThinNode(s, v.depth - |path|, v.order, PathLo(path, lo), PathHi(path, hi));
    if s.Inner? { SlotsAscend(s.rest, v.depth - |path| - 1, v.order, PathHi(path, hi)); }
  }

  // ---------------------------------------------------------------------------
  // Searching by key
  // ---------------------------------------------------------------------------

  lemma HoldsWiden(v: View, t: Tree, lo: int, hi: int, lo': int, hi': int)
    requires Holds(v, t, lo, hi) && lo' <= lo && hi <= hi'
    ensures Holds(v, t, lo', hi')
  {
    WFWiden(t, v.depth, v.order, lo, hi, lo', hi');
  }

  /** Following the separators keeps the key inside the bounds below the path. */
  lemma RouteDown(s: Tree, hkey: int, at: nat, cmp: int, lo: int, hi: int)
    requires s.Inner? && Located(Slots(s.rest), hkey, at, cmp) && lo <= hkey < hi && s.rest != []
    requires Ascending(Slots(s.rest))
    ensures var a := if cmp <= 0 then at + 1 else at;
            a <= |s.rest| && KidLo(s, a, lo) <= hkey < KidHi(s, a, hi)
  {
    var a := if cmp <= 0 then at + 1 else at;
    if a < |s.rest| { assert Slots(s.rest)[a].hkey == s.rest[a].key; }
    if a > 0 { assert Slots(s.rest)[a - 1].hkey == s.rest[a - 1].key; }
  }

  /** What a search finds in its leaf it has found in the tree. */
  lemma LocatedInTree(v: View, t: Tree, path: seq<Frame>, s: Tree, hkey: int, at: nat, cmp: int, lo: int, hi: int)
    requires On(v, t, path, s, lo, hi) && s.Leaf? && Framed(path)
    requires PathLo(path, lo) <= hkey < PathHi(path, hi) && Located(s.recs, hkey, at, cmp)
    ensures Located(Contents(t), hkey, |PathBefore(path)| + at, cmp)
  {
    hide Focus, WF, On, Plug, PathBefore, PathAfter, PathLo, PathHi, PathWF, Contents;
    OnFacts(v, t, path, s, lo, hi);
    LeafTrace(s, at);
    PathOrder(path, v.depth, v.order, lo, hi);
    LocatedWithin(PathBefore(path), s.recs, PathAfter(path), hkey, at, cmp);
  }

  lemma LocatedWithin(a: seq<Record>, b: seq<Record>, c: seq<Record>, hkey: int, at: nat, cmp: int)
    requires Located(b, hkey, at, cmp)
    requires forall r :: r in a ==> r.hkey < hkey
    requires forall r :: r in c ==> r.hkey > hkey
    ensures Located(a + b + c, hkey, |a| + at, cmp)
  {
  }

  /** The walk ends at the first or the last record of the tree. */
  lemma AtEnds(v: View, t: Tree, path: seq<Frame>, s: Tree, lo: int, hi: int)
    requires On(v, t, path, s, lo, hi) && s.Leaf? && Framed(path)
    ensures PathBefore(path) == [] ==> Contents(t) == s.recs + PathAfter(path)
    ensures PathAfter(path) == [] ==> Contents(t) == PathBefore(path) + s.recs
  {
    hide *;
    LeafTrace(s, 0);
    OnFacts(v, t, path, s, lo, hi);
  }

  lemma EndsDown(path: seq<Frame>, s: Tree, at: nat)
    requires Framed(path) && s.Inner? && at <= |s.rest|
    ensures Framed(path + [Frame(s, at)])
    ensures PathBefore(path) == [] && at == 0 ==> PathBefore(path + [Frame(s, at)]) == []
    ensures PathAfter(path) == [] && at == |s.rest| ==> PathAfter(path + [Frame(s, at)]) == []
  {
    assert Up(path + [Frame(s, at)]) == path;
    if at == |s.rest| { assert s.rest[at..] == []; }
  }

  /** The slot a new record of key `hkey` belongs into. */
  ghost predicate SlotFor(v: View, t: Tree, path: seq<Frame>, s: Tree, hkey: int, lo: int, hi: int) {
    && On(v, t, path, s, lo, hi) && s.Leaf? && Framed(path) && |path| + 1 == |v.trace| == v.depth
    && v.trace[|path|].node == s.id
    && Belongs(s, v.trace[|path|].at, Record(hkey, 0), s, 1, v.order, PathLo(path, lo), PathHi(path, hi))
  }

  lemma SlotFacts(v: View, t: Tree, path: seq<Frame>, s: Tree, hkey: int, lo: int, hi: int)
    requires SlotFor(v, t, path, s, hkey, lo, hi)
    ensures On(v, t, path, s, lo, hi) && s.Leaf? && Framed(path) && |path| + 1 == |v.trace| == v.depth
  {
  }

  lemma SlotPending(v: View, t: Tree, path: seq<Frame>, s: Tree, rec: Record, lo: int, hi: int)
    requires SlotFor(v, t, path, s, rec.hkey, lo, hi)
    ensures Pending(v, path, s, rec, s, lo, hi)
    ensures v.trace[|path|].at <= KeyCount(s) && |PathBefore(path)| + v.trace[|path|].at <= |Contents(t)|
    ensures PathBefore(path) + Contents(Inserted(s, v.trace[|path|].at, rec, s)) + PathAfter(path)
         == InsertAt(Contents(t), |PathBefore(path)| + v.trace[|path|].at, rec)
  {
    hide WF, Represents, Ids, PathWF, PathRepresents, PathIds, Plug, PathBefore, PathAfter, TraceOf;
    OnFacts(v, t, path, s, lo, hi);
    var at := v.trace[|path|].at;
    InsertWithin(PathBefore(path), s.recs, PathAfter(path), at, rec);
  }

  lemma InsertWithin<T>(a: seq<T>, b: seq<T>, c: seq<T>, at: nat, x: T)
    requires at <= |b|
    ensures a + InsertAt(b, at, x) + c == InsertAt(a + b + c, |a| + at, x)
  {
  }

  lemma MakeSlot(v: View, t: Tree, path: seq<Frame>, s: Tree, hkey: int, at: nat, cmp: int, lo: int, hi: int)
    requires On(v, t, path, s, lo, hi) && s.Leaf? && Framed(path) && |path| + 1 == |v.trace| == v.depth
    requires PathLo(path, lo) <= hkey < PathHi(path, hi) && Located(s.recs, hkey, at, cmp) && cmp != 0
    requires v.trace[|path|] == Trace(s.id, if cmp < 0 then at + 1 else at)
    ensures SlotFor(v, t, path, s, hkey, lo, hi)
  {
  }

  // ---------------------------------------------------------------------------
  // Acting at a cursor
  // ---------------------------------------------------------------------------

  /** The record under the cursor, in its node. */
  lemma LeafAt(v: View, t: Tree, path: seq<Frame>, s: Tree, i: nat, lo: int, hi: int)
    requires On(v, t, path, s, lo, hi) && s.Leaf? && Framed(path) && |path| + 1 == v.depth == |v.trace|
    requires v.trace[|path|].node == s.id && InSlots(s, v.trace[|path|].at)
    requires |PathBefore(path)| + Start(s, v.trace[|path|].at) == i
    ensures var at := v.trace[|path|].at;
            && s.id in v.pool && at < |s.recs| && at < v.pool[s.id].keyn <= |v.pool[s.id].recs|
            && i < |Contents(t)| && v.pool[s.id].recs[at] == s.recs[at] == Contents(t)[i]
            && Contents(t) == PathBefore(path) + s.recs + PathAfter(path) && i == |PathBefore(path)| + at
  {
    hide Focus, WF, On, Plug, PathBefore, PathAfter;
    OnFacts(v, t, path, s, lo, hi);
    assert v.pool[s.id].recs[v.trace[|path|].at] == Live(v.pool[s.id])[v.trace[|path|].at];
  }

  /** Overwriting a record under its own key. */
  lemma Overwritten(v: View, w: View, t: Tree, path: seq<Frame>, s: Tree, at: nat, rec: Record, lo: int, hi: int)
    returns (t': Tree)
    requires On(v, t, path, s, lo, hi) && s.Leaf? && Framed(path) && at < |s.recs| && s.recs[at].hkey == rec.hkey
    requires s.id in v.pool && at < v.pool[s.id].keyn <= |v.pool[s.id].recs|
    requires w == v.(pool := v.pool[s.id := v.pool[s.id].(recs := v.pool[s.id].recs[at := rec])])
    ensures Holds(w, t', lo, hi) && |PathBefore(path)| + at < |Contents(t)|
    ensures Contents(t') == Contents(t)[|PathBefore(path)| + at := rec]
  {
    var s' := Leaf(s.id, s.recs[at := rec]);
    OverwrittenNode(v, w, t, path, s, at, rec, lo, hi);
    hide WF, Represents, Ids, PathWF, PathRepresents, NodeFor, PathIds, Focus, Holds, On, Plug, PathBefore, PathAfter,
      Framed, TraceOf;
    OnParts(v, t, path, s, lo, hi);
    OnFacts(v, t, path, s, lo, hi);
    FocusDone(w, path, s', lo, hi);
    t' := Plug(path, s');
    SetWithin(PathBefore(path), s.recs, PathAfter(path), at, rec);
  }

  lemma SetWithin<T>(a: seq<T>, b: seq<T>, c: seq<T>, at: nat, x: T)
    requires at < |b|
    ensures a + b[at := x] + c == (a + b + c)[|a| + at := x]
  {
  }

  lemma OverwrittenNode(v: View, w: View, t: Tree, path: seq<Frame>, s: Tree, at: nat, rec: Record, lo: int, hi: int)
    requires On(v, t, path, s, lo, hi) && s.Leaf? && Framed(path) && at < |s.recs| && s.recs[at].hkey == rec.hkey
    requires s.id in v.pool && at < v.pool[s.id].keyn <= |v.pool[s.id].recs|
    requires w == v.(pool := v.pool[s.id := v.pool[s.id].(recs := v.pool[s.id].recs[at := rec])])
    ensures Focus(w, path, Leaf(s.id, s.recs[at := rec]), multiset{}, lo, hi)
    ensures |path| < v.depth
    ensures WF(Leaf(s.id, s.recs[at := rec]), v.depth - |path|, v.order, PathLo(path, lo), PathHi(path, hi))
  {
    hide Represents, PathWF, PathRepresents, PathIds, Plug, PathBefore, PathAfter, Framed, TraceOf, Contents, Focus,
      On;
    var s' := Leaf(s.id, s.recs[at := rec]);
    OnParts(v, t, path, s, lo, hi);
    OnFacts(v, t, path, s, lo, hi);
    assert Live(w.pool[s.id]) == Live(v.pool[s.id])[at := rec];
    FromKids(w.pool, s', path == [], v.order);
    FocusIds(v, path, s, multiset{}, lo, hi);
    assert w.pool.Keys == v.pool.Keys;
    assert Bounded(w) && Ids(s') == Ids(s) == multiset{s.id};
    FocusReplace(v, w, path, s, s', multiset{}, multiset{}, {s.id}, lo, hi);
  }
}
