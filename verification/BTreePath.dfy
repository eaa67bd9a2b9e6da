/** Paths through a B+ tree: the trace a probe leaves behind, seen as a zipper.

    A path is a sequence of frames from the root downwards; frame (t, at) stands for
    node `t` entered through child `at`, and the child stored there is ignored. */
module BTreePath {
  import opened BTreeShape

  datatype Trace = Trace(node: Mmid, at: nat)

  datatype Frame = Frame(t: Tree, at: nat)

  ghost predicate Framed(path: seq<Frame>) {
    forall i :: 0 <= i < |path| ==> path[i].t.Inner? && path[i].at <= |path[i].t.rest|
  }

  function Up<T>(path: seq<T>): seq<T>
    requires path != []
  {
    path[..|path| - 1]
  }

  function Last<T>(path: seq<T>): T
    requires path != []
  {
    path[|path| - 1]
  }

  /** The whole tree, with `s` below the path. */
  ghost function Plug(path: seq<Frame>, s: Tree): Tree
    requires Framed(path)
  {
    if path == [] then s else Plug(Up(path), SetKid(Last(path).t, Last(path).at, s))
  }

  lemma PlugDown(path: seq<Frame>, t: Tree, at: nat)
    requires Framed(path) && t.Inner? && at <= |t.rest|
    ensures Framed(path + [Frame(t, at)])
    ensures Plug(path + [Frame(t, at)], Kid(t, at)) == Plug(path, t)
  {
    SetKidSame(t, at);
    assert Up(path + [Frame(t, at)]) == path;
  }

  /** The trace of a path: node and child index at each level. */
  ghost function TraceOf(path: seq<Frame>): (tr: seq<Trace>)
    ensures |tr| == |path|
  {
    seq(|path|, i requires 0 <= i < |path| => Trace(path[i].t.id, path[i].at))
  }

  lemma TraceOfStep(path: seq<Frame>, tail: seq<Trace>)
    requires path != []
    ensures TraceOf(path) == TraceOf(Up(path)) + [Trace(Last(path).t.id, Last(path).at)]
    ensures TraceOf(path) + tail == TraceOf(Up(path)) + ([Trace(Last(path).t.id, Last(path).at)] + tail)
  {
  }

  // ---------------------------------------------------------------------------
  // Records around a path
  // ---------------------------------------------------------------------------

  ghost function PathBefore(path: seq<Frame>): seq<Record>
    requires Framed(path)
  {
    if path == [] then [] else PathBefore(Up(path)) + Before(Last(path).t, Last(path).at)
  }

  ghost function PathAfter(path: seq<Frame>): seq<Record>
    requires Framed(path)
  {
    if path == [] then [] else After(Last(path).t, Last(path).at) + PathAfter(Up(path))
  }

  lemma Regroup<T>(a: seq<T>, b: seq<T>, c: seq<T>, d: seq<T>, e: seq<T>)
    ensures a + (b + c + d) + e == (a + b) + c + (d + e)
  {
  }

  lemma {:induction false} PlugContents(path: seq<Frame>, s: Tree)
    requires Framed(path)
    ensures Contents(Plug(path, s)) == PathBefore(path) + Contents(s) + PathAfter(path)
  {
    if path != [] {
      var f := Last(path);
      PlugContents(Up(path), SetKid(f.t, f.at, s));
      SetKidContents(f.t, f.at, s);
      Regroup(PathBefore(Up(path)), Before(f.t, f.at), Contents(s), After(f.t, f.at), PathAfter(Up(path)));
    }
  }

  // ---------------------------------------------------------------------------
  // Nodes around a path
  // ---------------------------------------------------------------------------

  ghost function PathIds(path: seq<Frame>): multiset<Mmid>
    requires Framed(path)
  {
    if path == [] then multiset{} else PathIds(Up(path)) + OffIds(Last(path).t, Last(path).at)
  }

  lemma {:induction false} PlugIds(path: seq<Frame>, s: Tree)
    requires Framed(path)
    ensures Ids(Plug(path, s)) == PathIds(path) + Ids(s)
  {
    if path != [] {
      PlugIds(Up(path), SetKid(Last(path).t, Last(path).at, s));
      SetKidIds(Last(path).t, Last(path).at, s);
    }
  }

  // ---------------------------------------------------------------------------
  // Shape around a path
  // ---------------------------------------------------------------------------

  /** The bounds in force below a path. */
  ghost function PathLo(path: seq<Frame>, lo: int): int
    requires Framed(path)
  {
    if path == [] then lo else KidLo(Last(path).t, Last(path).at, PathLo(Up(path), lo))
  }

  ghost function PathHi(path: seq<Frame>, hi: int): int
    requires Framed(path)
  {
    if path == [] then hi else KidHi(Last(path).t, Last(path).at, PathHi(Up(path), hi))
  }

  /** Everything off the path is well formed in a tree of depth `d`. */
  ghost predicate PathWF(path: seq<Frame>, d: nat, order: nat, lo: int, hi: int) {
    && Framed(path)
    && |path| < d
    && (path != [] ==>
          && PathWF(Up(path), d, order, lo, hi)
          && OffWF(Last(path).t, Last(path).at, d - |path| + 1, order, PathLo(Up(path), lo), PathHi(Up(path), hi)))
  }

  lemma {:induction false} PlugWF(path: seq<Frame>, s: Tree, d: nat, order: nat, lo: int, hi: int)
    requires PathWF(path, d, order, lo, hi)
    requires WF(s, d - |path|, order, PathLo(path, lo), PathHi(path, hi))
    ensures WF(Plug(path, s), d, order, lo, hi)
  {
    if path != [] {
      var f := Last(path);
      SetKidWF(f.t, f.at, s, d - |path| + 1, order, PathLo(Up(path), lo), PathHi(Up(path), hi));
      PlugWF(Up(path), SetKid(f.t, f.at, s), d, order, lo, hi);
    }
  }

  lemma {:induction false} BoundsDown(path: seq<Frame>, t: Tree, at: nat, lo: int, hi: int)
    requires Framed(path) && t.Inner? && at <= |t.rest|
    ensures var p := path + [Frame(t, at)];
            && Framed(p) && Up(p) == path && Last(p) == Frame(t, at)
            && PathLo(p, lo) == KidLo(t, at, PathLo(path, lo))
            && PathHi(p, hi) == KidHi(t, at, PathHi(path, hi))
  {
    var p := path + [Frame(t, at)];
    assert Up(p) == path;
  }

  /** Entering a child of a well-formed node keeps both halves well formed. */
  lemma {:induction false} PathWFDown(path: seq<Frame>, t: Tree, at: nat, d: nat, order: nat, lo: int, hi: int)
    requires PathWF(path, d, order, lo, hi) && t.Inner? && at <= |t.rest|
    requires WF(t, d - |path|, order, PathLo(path, lo), PathHi(path, hi))
    ensures PathWF(path + [Frame(t, at)], d, order, lo, hi)
    ensures WF(Kid(t, at), d - |path| - 1, order,
               PathLo(path + [Frame(t, at)], lo), PathHi(path + [Frame(t, at)], hi))
  {
    BoundsDown(path, t, at, lo, hi);
    KidWF(t, at, d - |path|, order, PathLo(path, lo), PathHi(path, hi));
  }

  /** Records off the path lie outside the bounds below it. */
  lemma {:induction false} PathOrder(path: seq<Frame>, d: nat, order: nat, lo: int, hi: int)
    requires PathWF(path, d, order, lo, hi)
    ensures forall r :: r in PathBefore(path) ==> r.hkey < PathLo(path, lo)
    ensures forall r :: r in PathAfter(path) ==> PathHi(path, hi) <= r.hkey
    ensures lo <= PathLo(path, lo) && PathHi(path, hi) <= hi
  {
    if path != [] {
      PathOrder(Up(path), d, order, lo, hi);
      OffOrder(Last(path).t, Last(path).at, d - |path| + 1, order, PathLo(Up(path), lo), PathHi(Up(path), hi));
    }
  }

  // ---------------------------------------------------------------------------
  // Cursors
  // ---------------------------------------------------------------------------

  /** The trace that leads to record number `i`. */
  ghost function TraceTo(t: Tree, i: nat): seq<Trace>
    decreases t, 1
  {
    match t
    case Leaf(id, _) => [Trace(id, i)]
    case Inner(id, first, rest) =>
      if i < |Contents(first)| then [Trace(id, 0)] + TraceTo(first, i)
      else BranchTraceTo(id, rest, 1, i - |Contents(first)|)
    case Freed(_) => []
  }

  ghost function BranchTraceTo(id: Mmid, rest: seq<Branch>, at: nat, i: nat): seq<Trace>
    decreases rest, 0
  {
    if rest == [] then []
    else
      HeadKidSmaller(rest);
      if i < |Contents(rest[0].kid)| then [Trace(id, at)] + TraceTo(rest[0].kid, i)
      else BranchTraceTo(id, rest[1..], at + 1, i - |Contents(rest[0].kid)|)
  }

  lemma {:induction false} BranchTraceToAt(id: Mmid, rest: seq<Branch>, j: nat, at: nat, i: nat)
    requires j < |rest| && i < |Contents(rest[j].kid)|
    ensures BranchTraceTo(id, rest, at, |BranchContents(rest[..j])| + i) ==
            [Trace(id, at + j)] + TraceTo(rest[j].kid, i)
  {
    if j > 0 {
      BranchTraceToAt(id, rest[1..], j - 1, at + 1, i);
      assert rest[..j] == [rest[0]] + rest[1..][..j - 1];
      BranchContentsAppend([rest[0]], rest[1..][..j - 1]);
      assert BranchContents([rest[0]]) == Contents(rest[0].kid);
    }
  }

  lemma KidTraceTo(t: Tree, at: nat, i: nat)
    requires t.Inner? && at <= |t.rest| && i < |Contents(Kid(t, at))|
    ensures TraceTo(t, |Before(t, at)| + i) == [Trace(t.id, at)] + TraceTo(Kid(t, at), i)
  {
    if at > 0 {
      BranchTraceToAt(t.id, t.rest, at - 1, 1, i);
    }
  }

  lemma PlugLast(path: seq<Frame>, s: Tree)
    requires Framed(path) && path != []
    ensures var f := Last(path);
            Plug(path, s) == Plug(Up(path), SetKid(f.t, f.at, s)) &&
              |PathBefore(path)| == |PathBefore(Up(path))| + |Before(f.t, f.at)|
  {
  }

  /** A path followed to a record of the subtree below it is the trace to that record of the whole tree. */
  lemma {:induction false} PlugTraceTo(path: seq<Frame>, s: Tree, i: nat)
    requires Framed(path) && i < |Contents(s)|
    ensures TraceTo(Plug(path, s), |PathBefore(path)| + i) == TraceOf(path) + TraceTo(s, i)
  {
    if path != [] {
      hide Contents, TraceTo, SetKid, Before, TraceOf, Kid, Plug, PathBefore;
      var f := Last(path);
      var up := SetKid(f.t, f.at, s);
      PlugLast(path, s);
      SetKidContents(f.t, f.at, s);
      PlugTraceTo(Up(path), up, |Before(f.t, f.at)| + i);
      SetKidAround(f.t, f.at, s);
      KidTraceTo(up, f.at, i);
      TraceOfStep(path, TraceTo(s, i));
    }
  }

  /** Some child holds record number `i`. */
  lemma LocateKid(t: Tree, i: nat) returns (at: nat)
    requires t.Inner? && i < |Contents(t)|
    ensures at <= |t.rest| && |Before(t, at)| <= i < |Before(t, at)| + |Contents(Kid(t, at))|
  {
    at := 0;
    if i >= |Contents(t.first)| {
      at := 1;
      while !(|Before(t, at)| <= i < |Before(t, at)| + |Contents(Kid(t, at))|)
        invariant 1 <= at <= |t.rest| + 1
        invariant at == |t.rest| + 1 ==> i >= |Contents(t)|
        invariant at <= |t.rest| ==> |Before(t, at)| <= i
        decreases |t.rest| - at
      {
        KidContents(t, at);
        assert t.rest[..at] == t.rest[..at - 1] + [t.rest[at - 1]];
        BranchContentsAppend(t.rest[..at - 1], [t.rest[at - 1]]);
        assert BranchContents([t.rest[at - 1]]) == Contents(Kid(t, at));
        at := at + 1;
      }
    }
  }
}
