/** The B+ tree: a context over a pool of nodes, with the trace of the last probe. */
module BTree {
  import opened BTreeShape
  import opened BTreePath
  import opened BTreeNode
  import opened BTreePool
  import opened BTreeInsert
  import opened BTreeDelete
  import opened BTreeDeleteStep
  import opened BTreeCursor
  import opened BTreeMap

  const NULL: Mmid := 0
  const ORDER_MIN: nat := 3
  const ORDER_MAX: nat := 4096
  const TRACE_MAX: nat := 40

  datatype Op = Put(hkey: int, val: Mmid) | Drop(hkey: int)

  /** What a sequence of updates and deletes does to a map. */
  ghost function Applied(m: map<int, Mmid>, ops: seq<Op>): map<int, Mmid> {
    if ops == [] then m
    else
      var before := Applied(m, Up(ops));
      match Last(ops)
      case Put(hkey, val) => before[hkey := val]
      case Drop(hkey) => before - {hkey}
  }

  lemma Overwrite<K, V>(m: map<K, V>, a: K, x: V, b: K, y: V, z: V)
    ensures m[a := x][b := y][a := z] == m[b := y][a := z]
  {
  }

  lemma AppliedMore(m: map<int, Mmid>, ops: seq<Op>, k: nat)
    requires k < |ops|
    ensures Applied(m, ops[..k + 1]) ==
            match ops[k]
            case Put(hkey, val) => Applied(m, ops[..k])[hkey := val]
            case Drop(hkey) => Applied(m, ops[..k]) - {hkey}
  {
    assert Up(ops[..k + 1]) == ops[..k];
  }

  datatype ProbeOpc = ProbeFirst | ProbeLast | ProbeEQ | ProbeGE | ProbeLE | ProbeUpdate {
    predicate ByKey() { !ProbeFirst? && !ProbeLast? }
  }

  datatype ProbeRc = RcNone | RcEq | RcOk

  datatype FetchResult = Missing | Fetched(rc: ProbeRc, rec: Record)

  /** What a probe of the ascending records `recs` must answer. */
  ghost predicate Finds(recs: seq<Record>, opc: ProbeOpc, hkey: int, rc: ProbeRc, i: nat) {
    && (rc != RcNone ==> i < |recs|)
    && match opc {
         case ProbeFirst => (rc == RcOk && i == 0) || (recs == [] && rc == RcNone)
         case ProbeLast => (rc == RcOk && i == |recs| - 1) || (recs == [] && rc == RcNone)
         case ProbeEQ =>
           || (rc == RcEq && recs[i].hkey == hkey)
           || (rc == RcNone && forall j :: 0 <= j < |recs| ==> recs[j].hkey != hkey)
         case ProbeGE =>
           || (rc == RcEq && recs[i].hkey == hkey)
           || (rc == RcOk && recs[i].hkey > hkey && forall j :: 0 <= j < i ==> recs[j].hkey < hkey)
           || (rc == RcNone && forall j :: 0 <= j < |recs| ==> recs[j].hkey < hkey)
         case ProbeLE =>
           || (rc == RcEq && recs[i].hkey == hkey)
           || (rc == RcOk && recs[i].hkey < hkey && forall j :: i < j < |recs| ==> recs[j].hkey > hkey)
           || (rc == RcNone && forall j :: 0 <= j < |recs| ==> recs[j].hkey > hkey)
         case ProbeUpdate =>
           || (rc == RcEq && recs[i].hkey == hkey)
           || (&& rc == RcNone && i <= |recs|
               && (forall j :: 0 <= j < i ==> recs[j].hkey < hkey)
               && (forall j :: i <= j < |recs| ==> recs[j].hkey > hkey))
       }
  }

  /** A record the opcode allows for. */
  ghost predicate Asked(opc: ProbeOpc, hkey: int, rec: Record) {
    match opc
    case ProbeEQ => rec.hkey == hkey
    case ProbeGE => rec.hkey >= hkey
    case ProbeLE => rec.hkey <= hkey
    case _ => true
  }

  /** What is found is asked for, and the first or last such record. */
  lemma FindsMeans(recs: seq<Record>, opc: ProbeOpc, hkey: int, rc: ProbeRc, i: nat)
    requires Ascending(recs) && Finds(recs, opc, hkey, rc, i) && !opc.ProbeUpdate?
    ensures rc == RcNone ==> Finds(recs, opc, hkey, rc, 0) && forall rec :: rec in recs ==> !Asked(opc, hkey, rec)
    ensures rc != RcNone ==>
              && i < |recs| && recs[i] in recs && Asked(opc, hkey, recs[i])
              && (opc.ProbeFirst? || opc.ProbeGE? ==>
                    forall rec :: rec in recs && Asked(opc, hkey, rec) ==> recs[i].hkey <= rec.hkey)
              && (opc.ProbeLast? || opc.ProbeLE? ==>
                    forall rec :: rec in recs && Asked(opc, hkey, rec) ==> rec.hkey <= recs[i].hkey)
  {
  }

  lemma FindsNothing(opc: ProbeOpc, hkey: int)
    ensures Finds([], opc, hkey, RcNone, 0)
  {
  }

  /** From where the search ends to what the probe answers. */
  lemma FindsLocated(recs: seq<Record>, opc: ProbeOpc, hkey: int, at: nat, cmp: int, rc: ProbeRc, i: nat)
    requires opc.ProbeFirst? ==> recs != [] && at == 0 && rc == RcOk && i == at
    requires opc.ProbeLast? ==> recs != [] && at == |recs| - 1 && rc == RcOk && i == at
    requires opc.ByKey() ==>
               if opc.ProbeUpdate? && cmp < 0 then at > 0 && Located(recs, hkey, at - 1, cmp)
                 else Located(recs, hkey, at, cmp)
    requires opc.ProbeEQ? || opc.ProbeUpdate? ==> i == at && rc == if cmp == 0 then RcEq else RcNone
    requires opc.ProbeGE? && cmp >= 0 ==> i == at && rc == if cmp == 0 then RcEq else RcOk
    requires opc.ProbeGE? && cmp < 0 ==> if at + 1 < |recs| then i == at + 1 && rc == RcOk else rc == RcNone
    requires opc.ProbeLE? && cmp <= 0 ==> i == at && rc == if cmp == 0 then RcEq else RcOk
    requires opc.ProbeLE? && cmp > 0 ==> if at > 0 then i == at - 1 && rc == RcOk else rc == RcNone
    ensures Finds(recs, opc, hkey, rc, i)
  {
  }

  /** The view holds `t`, in some bounds. */
  ghost predicate Sound(v: View, t: Tree) {
    exists lo, hi :: Holds(v, t, lo, hi)
  }

  lemma SoundTree(v: View, t: Tree, lo: int, hi: int)
    requires Holds(v, t, lo, hi)
    ensures Sound(v, t) && v.depth > 0 && Bounded(v) && Contents(t) != []
  {
    WFSize(t, v.depth, v.order, lo, hi);
  }

  lemma LastLeaf(v: View, s: Tree, x: nat, lo: int, hi: int)
    requires DoomedAt(v, [], s, lo, hi) && v.trace[0].at == x && s.Leaf? && KeyCount(s) == 1 && CanDrop(s, x)
    ensures v.pool.Keys == v.leaked + {s.id} && Contents(Without(s, x)) == []
  {
    assert Ids(s) == multiset{s.id};
    forall y ensures y in v.pool.Keys <==> y in v.leaked + {s.id} {
      assert multiset(v.pool.Keys)[y] == multiset{s.id}[y] + multiset(v.leaked)[y];
    }
  }

  class Context {
    const order: nat
    var pool: Pool
    /** every memory id handed out so far is below `next` */
    var next: Mmid
    /** the tree root: its node, NULL for an empty tree, and the tree depth */
    var rootNode: Mmid
    var depth: nat
    /** one entry per level, root first */
    var trace: seq<Trace>
    /** the tree the pool holds, and the nodes that are allocated but unreachable */
    ghost var tree: Tree
    ghost var leaked: set<Mmid>

    ghost function V(): View
      reads this
    {
      View(order, pool, next, rootNode, depth, trace, leaked)
    }

    method NodeAlloc() returns (nd: Mmid)
      requires Bounded(V())
      modifies this`pool, this`next
      ensures Bounded(V()) && nd !in old(pool) && nd != NULL
      ensures nd in pool && pool == old(pool)[nd := pool[nd]]
      ensures pool[nd] == Node(false, false, 0, NULL, pool[nd].recs) && |pool[nd].recs| == order
    {
      nd := next;
      pool := pool[nd := Node(false, false, 0, NULL, seq(order, _ => Record(0, 0)))];
      next := next + 1;
    }

    /** The new root holds the old root on the left and `rec` with the new node on the right. */
    method RootGrow(left: Mmid, rec: Record, ghost l: Tree, ghost r: Tree, ghost lo: int, ghost hi: int)
      returns (ghost t: Tree)
      requires Focus(V(), [], l, Ids(r), lo, hi) && Represents(pool, r, false, order)
      requires WF(l, depth, order, lo, rec.hkey) && WF(r, depth, order, rec.hkey, hi)
      requires left == l.id && rec.mmid == r.id
      modifies this`pool, this`next, this`rootNode, this`depth, this`trace
      ensures Holds(V(), t, lo, hi) && depth == old(depth) + 1
      ensures Contents(t) == Contents(l) + Contents(r)
    {
      hide WF, Represents, Ids, PathWF, PathRepresents, NodeFor, Contents;
      ghost var v := V();
      var nd := NodeAlloc();
      var old1 := pool[left].(root := false);
      var new1 := pool[nd].(root := true, recs := RecCopy(pool[nd].recs, 0, [rec], 0, 1), child := left, keyn := 1);
      pool := pool[left := old1][nd := new1];
      var at := if left == trace[0].node then 0 else 1;
      rootNode := nd;
      depth := depth + 1;
      trace := [Trace(nd, at)] + trace;

      t := Inner(nd, l, [Branch(rec.hkey, r)]);
      GrownRepresents(v, pool, l, r, rec, nd, lo, hi);
      GrownShape(nd, l, r, rec.hkey, old(depth), order, lo, hi);
      assert pool.Keys == v.pool.Keys + {nd};
      OneMore(v.pool.Keys, nd);
    }

    /** Put `rec` into the node at `level`, splitting full nodes on the way up. */
    method InsertRec(level: nat, rec: Record,
                     ghost path: seq<Frame>, ghost s: Tree, ghost pend: Tree, ghost lo: int, ghost hi: int)
      returns (ghost t: Tree)
      requires level == |path| && Pending(V(), path, s, rec, pend, lo, hi)
      modifies this`pool, this`next, this`rootNode, this`depth, this`trace
      ensures Holds(V(), t, lo, hi)
      ensures Contents(t) == PathBefore(path) + Contents(Inserted(s, old(trace)[level].at, rec, pend)) + PathAfter(path)
      decreases level, 1
    {
      if pool[trace[level].node].keyn == order - 1 {
        t := SplitAndInsert(level, rec, path, s, pend, lo, hi);
      } else {
        t := InsertHere(level, rec, path, s, pend, lo, hi);
      }
    }

    method InsertHere(level: nat, rec: Record,
                      ghost path: seq<Frame>, ghost s: Tree, ghost pend: Tree, ghost lo: int, ghost hi: int)
      returns (ghost t: Tree)
      requires level == |path| && Pending(V(), path, s, rec, pend, lo, hi)
      requires pool[s.id].keyn != order - 1
      modifies this`pool
      ensures Holds(V(), t, lo, hi)
      ensures Contents(t) == PathBefore(path) + Contents(Inserted(s, trace[level].at, rec, pend)) + PathAfter(path)
    {
      hide WF, Represents, Ids, PathWF, PathRepresents, NodeFor, Contents, PathIds, Pending, Focus, Holds, Belongs;
      ghost var v := V();
      PendingNode(v, path, s, rec, pend, lo, hi);
      var at := trace[level].at;
      var nd := InsertRecOnly(pool[trace[level].node], at, rec);
      pool := pool[trace[level].node := nd];

      InsertedHere(v, V(), path, s, rec, pend, lo, hi);
      t := Plug(path, Inserted(s, at, rec, pend));
    }

    method SplitAndInsert(level: nat, rec: Record,
                          ghost path: seq<Frame>, ghost s: Tree, ghost pend: Tree, ghost lo: int, ghost hi: int)
      returns (ghost t: Tree)
      requires level == |path| && Pending(V(), path, s, rec, pend, lo, hi)
      requires pool[s.id].keyn == order - 1
      modifies this`pool, this`next, this`rootNode, this`depth, this`trace
      ensures Holds(V(), t, lo, hi)
      ensures Contents(t) == PathBefore(path) + Contents(Inserted(s, old(trace)[level].at, rec, pend)) + PathAfter(path)
      decreases level, 0
    {
      hide WF, Represents, Ids, PathWF, PathRepresents, NodeFor, Contents, PathIds, Belongs, Inserted, Pending, Focus;
      var left: Mmid, up: Record;
      ghost var l: Tree, r: Tree;
      left, up, l, r := SplitNode(level, rec, path, s, pend, lo, hi);
      if level == 0 {
        t := RootGrow(left, up, l, r, lo, hi);
      } else {
        ghost var f := Last(path);
        PendingUp(V(), path, l, r, up, lo, hi);
        t := InsertRec(level - 1, up, Up(path), SetKid(f.t, f.at, l), r, lo, hi);
        InsertedAbove(path, l, r, up);
      }
    }

    /** Split the full node at `level` around `rec`: `up` is the record of the new right
        node, still to be put one level up. */
    method SplitNode(level: nat, rec: Record,
                     ghost path: seq<Frame>, ghost s: Tree, ghost pend: Tree, ghost lo: int, ghost hi: int)
      returns (left: Mmid, up: Record, ghost l: Tree, ghost r: Tree)
      requires level == |path| && Pending(V(), path, s, rec, pend, lo, hi)
      requires pool[s.id].keyn == order - 1
      modifies this`pool, this`next, this`trace
      ensures left == l.id && SplitDone(V(), path, l, r, up, lo, hi)
      ensures Contents(l) + Contents(r) == Contents(Inserted(s, old(trace)[level].at, rec, pend))
    {
      hide WF, Represents, Ids, PathWF, PathRepresents, NodeFor, Contents, PathIds, Belongs, Inserted, Pending, Focus,
        SplitDone, SplitInto;
      ghost var v := V();
      PendingNode(v, path, s, rec, pend, lo, hi);
      left := trace[level].node;
      var right: Mmid := NodeAlloc();
      var at := trace[level].at;
      var nl: Node, nr: Node, toRight: bool, pos: nat, hkey: int;
      if pool[left].leaf {
        nl, nr, toRight, pos, hkey := SplitLeaf(order, pool[left], pool[right].(leaf := true), at, rec);
      } else {
        nl, nr, toRight, pos, hkey := SplitInner(order, pool[left], pool[right], at, rec);
      }
      Overwrite(v.pool, right, pool[right], left, nl, nr);
      pool := pool[left := nl][right := nr];
      trace := trace[level := Trace(if toRight then right else left, pos)];
      up := Record(hkey, right);
      l, r := SplitFocus(v, V(), path, s, rec, pend, up, lo, hi);
    }

    // -------------------------------------------------------------------------
    // Deletion
    // -------------------------------------------------------------------------

    /** Drop the record or child the trace points at from the node at `level`. */
    method DropHere(level: nat, ghost path: seq<Frame>, ghost s: Tree, ghost lo: int, ghost hi: int)
      requires level == |path| && DoomedAt(V(), path, s, lo, hi)
      modifies this`pool, this`trace
      ensures level < |trace| == |old(trace)| && trace[..level] == old(trace)[..level] &&
              CanDrop(s, old(trace)[level].at)
      ensures Rewritten(old(V()), V(), Gone(s, old(trace)[level].at), {s.id})
      ensures s.id in pool && NodeFor(pool[s.id], Without(s, old(trace)[level].at), path == [], order)
    {
      hide WF, Represents, Ids, PathWF, PathRepresents, NodeFor, Contents, PathIds, DoomedAt, Without, Focus;
      DoomedNode(V(), path, s, lo, hi);
      var cur := trace[level];
      var nd := pool[cur.node];
      var n: Node;
      if nd.leaf {
        n := DelLeafOnly(nd, cur.at, true);
        pool := pool[cur.node := n];
      } else {
        ChildId(s, cur.at, nd, path == [], order);
        GoneApart(V(), path, s, cur.at, lo, hi);
        var child := ChildAt(nd, cur.at);
        n := DelChildOnly(nd, cur.at, true);
        pool := (pool - {child})[cur.node := n];
        if cur.at != 0 {
          trace := trace[level := Trace(cur.node, cur.at - 1)];
        }
      }
      DroppedNodeFor(order, s, cur.at, nd, n, path == []);
    }

    /** Rebalance the single-keyed node at `level` with a sibling that has keys to spare. */
    method Rebalance(level: nat, sibNode: Mmid, sibOnRight: bool,
                     ghost path: seq<Frame>, ghost s: Tree, ghost i: nat, ghost lo: int, ghost hi: int)
      returns (ghost t: Tree)
      requires level == |path| && level > 0 && Paired1(V(), path, s, sibNode, sibOnRight, i, lo, hi)
      requires pool[sibNode].keyn > 1
      modifies this`pool, this`trace
      ensures |trace| == |old(trace)| && Holds(V(), t, lo, hi) && CanDrop(s, old(trace)[level].at)
      ensures Framed(path) && Contents(t) == Remaining(path, s, old(trace)[level].at)
    {
      hide WF, Represents, Ids, PathWF, PathRepresents, NodeFor, Contents, PathIds, DoomedAt, Without, Focus, Paired1,
        Holds, LeafRebalanced, ChildRebalanced, Remaining, OffWF, Doomed, KidsRepresented;
      ghost var v := V();
      PairedFacts(v, path, s, sibNode, sibOnRight, i, lo, hi);
      var cur, par := trace[level], trace[level - 1];
      var slot := if sibOnRight then par.at else par.at - 1;
      var parNd, nd, sib := pool[par.node], pool[cur.node], pool[sibNode];
      var parKey := parNd.recs[slot].hkey;
      var c: Node, s1: Node, hkey: int;
      if nd.leaf {
        c, s1, hkey := DelLeafRebal(nd, sib, cur.at, sibOnRight);
        pool := pool[cur.node := c][sibNode := s1];
      } else {
        ChildId(s, cur.at, nd, false, order);
        var child := ChildAt(nd, cur.at);
        c, s1, hkey := DelChildRebal(nd, sib, cur.at, sibOnRight, parKey);
        pool := (pool - {child})[cur.node := c][sibNode := s1];
        if sibOnRight && cur.at != 0 {
          trace := trace[level := Trace(cur.node, cur.at - 1)];
        }
      }
      pool := pool[par.node := parNd.(recs := parNd.recs[slot := parNd.recs[slot].(hkey := hkey)])];
      t := RebalDone(v, V(), path, s, cur.at, sibOnRight, i, hkey, lo, hi);
    }

    /** Merge the single-keyed node at `level` with a single-keyed sibling; the trace of the
        parent then points at the emptied node. */
    method Merge(level: nat, sibNode: Mmid, sibOnRight: bool,
                 ghost path: seq<Frame>, ghost s: Tree, ghost i: nat, ghost lo: int, ghost hi: int)
      returns (ghost q: Tree)
      requires level == |path| && level > 0 && Paired1(V(), path, s, sibNode, sibOnRight, i, lo, hi)
      requires pool[sibNode].keyn <= 1
      modifies this`pool, this`trace
      ensures Framed(path) && Framed(Up(path)) && DoomedAt(V(), Up(path), q, lo, hi)
      ensures level <= |trace| && CanDrop(q, trace[level - 1].at) && CanDrop(s, old(trace)[level].at)
      ensures Remaining(Up(path), q, trace[level - 1].at) == Remaining(path, s, old(trace)[level].at)
    {
      hide WF, Represents, Ids, PathWF, PathRepresents, NodeFor, Contents, PathIds, DoomedAt, Without, Focus, Paired1,
        Holds, LeafMerged, ChildMerged, Remaining, OffWF, Doomed, KidsRepresented;
      ghost var v := V();
      PairedFacts(v, path, s, sibNode, sibOnRight, i, lo, hi);
      var cur, par := trace[level], trace[level - 1];
      var slot := if sibOnRight then par.at else par.at - 1;
      var nd, sib := pool[cur.node], pool[sibNode];
      var parKey := pool[par.node].recs[slot].hkey;
      var c: Node, s1: Node;
      if nd.leaf {
        c, s1 := DelLeafMerge(nd, sib, cur.at, sibOnRight);
        pool := pool[cur.node := c][sibNode := s1];
      } else {
        ChildId(s, cur.at, nd, false, order);
        var child := ChildAt(nd, cur.at);
        c, s1 := DelChildMerge(nd, sib, cur.at, sibOnRight, parKey);
        pool := (pool - {child})[cur.node := c][sibNode := s1];
        if cur.at != 0 {
          trace := trace[level := Trace(cur.node, cur.at - 1)];
        }
      }
      if sibOnRight {
        trace := trace[level - 1 := Trace(par.node, par.at + 1)];
      }
      q := MergeUp(v, V(), path, s, cur.at, sibOnRight, i, lo, hi);
    }

    /** Delete what the trace points at in the node at `level`; true when the deletion
        empties a node that the parent has to drop in turn. */
    method DelRec(level: nat, ghost path: seq<Frame>, ghost s: Tree, ghost lo: int, ghost hi: int)
      returns (bubbleUp: bool, ghost t: Tree)
      requires level == |path| && level > 0 && DoomedAt(V(), path, s, lo, hi)
      modifies this`pool, this`trace
      ensures Framed(path) && level <= |trace| && CanDrop(s, old(trace)[level].at)
      ensures !bubbleUp ==> Holds(V(), t, lo, hi) && Contents(t) == Remaining(path, s, old(trace)[level].at)
      ensures bubbleUp ==>
                && Framed(Up(path)) && DoomedAt(V(), Up(path), t, lo, hi) && CanDrop(t, trace[level - 1].at)
                && Remaining(Up(path), t, trace[level - 1].at) == Remaining(path, s, old(trace)[level].at)
    {
      hide WF, Represents, Ids, PathWF, PathRepresents, NodeFor, Contents, PathIds, DoomedAt, Without, Focus, Holds,
        Remaining, KidsRepresented, Paired1;
      ghost var v := V();
      DoomedNode(v, path, s, lo, hi);
      var cur, par := trace[level], trace[level - 1];
      if pool[cur.node].keyn > 1 {
        DropHere(level, path, s, lo, hi);
        DropDone(v, V(), path, s, cur.at, lo, hi);
        return false, Plug(path, Without(s, cur.at));
      }
      ParentNode(v, path, s, lo, hi);
      var parNd := pool[par.node];
      var sibNode: Mmid, sibOnRight: bool;
      if par.at == 0 {
        sibNode, sibOnRight := ChildAt(parNd, 1), true;
      } else if par.at == parNd.keyn {
        sibNode, sibOnRight := ChildAt(parNd, par.at - 1), false;
      } else {
        sibNode, sibOnRight := ChildAt(parNd, par.at + 1), true;
        ChooseSibling(v, path, s, sibNode, true, par.at, lo, hi);
        if pool[sibNode].keyn <= 1 {
          sibNode, sibOnRight := ChildAt(parNd, par.at - 1), false;
        }
      }
      ghost var i: nat := if sibOnRight then par.at else par.at - 1;
      ChooseSibling(v, path, s, sibNode, sibOnRight, i, lo, hi);
      if pool[sibNode].keyn > 1 {
        t := Rebalance(level, sibNode, sibOnRight, path, s, i, lo, hi);
        bubbleUp := false;
      } else {
        t := Merge(level, sibNode, sibOnRight, path, s, i, lo, hi);
        bubbleUp := true;
      }
    }

    /** Delete what the trace points at from the root node.  An emptied leaf root is
        forgotten without being freed. */
    method RootDelRec(ghost s: Tree, ghost lo: int, ghost hi: int)
      requires DoomedAt(V(), [], s, lo, hi)
      modifies this
      ensures CanDrop(s, old(trace)[0].at)
      ensures Valid() && Records() == Contents(Without(s, old(trace)[0].at))
      ensures leaked == old(leaked) + if Records() == [] then {s.id} else {}
    {
      hide WF, Represents, Ids, PathWF, PathRepresents, NodeFor, Contents, PathIds, DoomedAt, Without, Focus, Holds,
        Remaining, KidsRepresented;
      ghost var v := V();
      DoomedNode(v, [], s, lo, hi);
      RemainingTop(s, trace[0].at);
      var cur := trace[0];
      var node := pool[cur.node];
      if node.leaf {
        if node.keyn > 1 {
          DropHere(0, [], s, lo, hi);
          DropDone(v, V(), [], s, cur.at, lo, hi);
          tree := Without(s, cur.at);
          SoundTree(V(), tree, lo, hi);
        } else {
          depth, rootNode, trace := 0, NULL, [];
          leaked := leaked + {s.id};
          LastLeaf(v, s, cur.at, lo, hi);
        }
      } else {
        DropHere(0, [], s, lo, hi);
        InnerNode(pool[cur.node], Without(s, cur.at), true, order);
        if pool[cur.node].keyn == 0 {
          ShrinkReady(v, s, cur.at, lo, hi);
          var child := pool[cur.node].child;
          depth, rootNode, trace := depth - 1, child, trace[1..];
          pool := pool[child := pool[child].(root := true)] - {cur.node};
          ShrinkDone(v, V(), s, cur.at, lo, hi);
          tree := Without(s, cur.at).first;
        } else {
          DropDone(v, V(), [], s, cur.at, lo, hi);
          tree := Without(s, cur.at);
        }
        SoundTree(V(), tree, lo, hi);
      }
    }

    // -------------------------------------------------------------------------
    // The tree as a whole
    // -------------------------------------------------------------------------

    ghost predicate Valid()
      reads this
    {
      && Bounded(V())
      && (if depth == 0 then rootNode == NULL && pool.Keys == leaked else Sound(V(), tree))
    }

    /** The records of the tree, in order. */
    ghost function Records(): seq<Record>
      reads this
    {
      if depth == 0 then [] else Contents(tree)
    }

    /** The trace leads to record number `i`. */
    ghost predicate CursorAt(i: nat)
      reads this
    {
      depth > 0 && i < |Records()| && trace == TraceTo(tree, i)
    }

    /** From the node at `level`, follow first children down to record number `i`. */
    method DescendFirst(start: nat, ghost path0: seq<Frame>, ghost s0: Tree, ghost i: nat, ghost lo: int, ghost hi: int)
      requires start < depth == |trace| && start == |path0| && On(V(), tree, path0, s0, lo, hi)
      requires Framed(path0) && trace[start].node == s0.id && InSlots(s0, trace[start].at)
      requires |PathBefore(path0)| + Start(s0, trace[start].at) == i
      modifies this`trace
      ensures Valid() && CursorAt(i)
    {
      hide WF, Represents, Ids, PathWF, PathRepresents, NodeFor, Contents, PathIds, Focus, Holds, On, TraceTo,
        InSlots, SetKid, Kid, Before, Start;
      ghost var path, s := path0, s0;
      var level := start;
      while level < depth - 1
        invariant level < depth == |trace| && level == |path| && On(V(), tree, path, s, lo, hi)
        invariant Framed(path) && trace[level].node == s.id && InSlots(s, trace[level].at)
        invariant |PathBefore(path)| + Start(s, trace[level].at) == i
      {
        OnFacts(V(), tree, path, s, lo, hi);
        ghost var at := trace[level].at;
        InnerSlot(s, at);
        OnChild(V(), tree, path, s, at, lo, hi);
        var tmp := ChildAt(pool[trace[level].node], trace[level].at);
        OnDown(V(), tree, path, s, at, lo, hi);
        ghost var v := V();
        level := level + 1;
        trace := trace[level := Trace(tmp, 0)];
        path, s := path + [Frame(s, at)], Kid(s, at);
        OnTrace(v, V(), tree, path, s, lo, hi);
        SlotsOf(V(), tree, path, s, 0, lo, hi);
        OnFacts(V(), tree, path, s, lo, hi);
        FirstSlot(s);
      }
      AtLeaf(V(), tree, path, s, i, lo, hi);
      SoundTree(V(), tree, lo, hi);
    }

    /** From the node at `level`, follow last children down to record number `i`. */
    method DescendLast(start: nat, ghost path0: seq<Frame>, ghost s0: Tree, ghost i: nat, ghost lo: int, ghost hi: int)
      requires start < depth == |trace| && start == |path0| && On(V(), tree, path0, s0, lo, hi)
      requires Framed(path0) && trace[start].node == s0.id && InSlots(s0, trace[start].at)
      requires |PathBefore(path0)| + End(s0, trace[start].at) == i + 1
      modifies this`trace
      ensures Valid() && CursorAt(i)
    {
      hide WF, Represents, Ids, PathWF, PathRepresents, NodeFor, Contents, PathIds, Focus, Holds, On, TraceTo,
        InSlots, SetKid, Kid, Before, End;
      ghost var path, s := path0, s0;
      var level := start;
      while level < depth - 1
        invariant level < depth == |trace| && level == |path| && On(V(), tree, path, s, lo, hi)
        invariant Framed(path) && trace[level].node == s.id && InSlots(s, trace[level].at)
        invariant |PathBefore(path)| + End(s, trace[level].at) == i + 1
      {
        OnFacts(V(), tree, path, s, lo, hi);
        ghost var at := trace[level].at;
        InnerSlot(s, at);
        OnChild(V(), tree, path, s, at, lo, hi);
        var tmp := ChildAt(pool[trace[level].node], trace[level].at);
        OnDown(V(), tree, path, s, at, lo, hi);
        ghost var v := V();
        ghost var p, k := path + [Frame(s, at)], Kid(s, at);
        OnFacts(v, tree, p, k, lo, hi);
        level := level + 1;
        var nd := pool[tmp];
        trace := trace[level := Trace(tmp, nd.keyn - if nd.leaf then 1 else 0)];
        path, s := p, k;
        OnTrace(v, V(), tree, path, s, lo, hi);
        SlotsOf(V(), tree, path, s, trace[level].at, lo, hi);
        SlotsOf(V(), tree, path, s, trace[level].at + 1, lo, hi);
        LastSlotEnds(s, trace[level].at);
      }
      OnFacts(V(), tree, path, s, lo, hi);
      LeafEnd(s, trace[level].at);
      AtLeaf(V(), tree, path, s, i, lo, hi);
      SoundTree(V(), tree, lo, hi);
    }

    /** Move the cursor to the next record; false, with the cursor unmoved, at the end. */
    method ProbeNext(ghost i: nat) returns (found: bool)
      requires Valid() && (depth > 0 ==> CursorAt(i))
      modifies this`trace
      ensures Valid() && found == (depth > 0 && i + 1 < |Records()|)
      ensures found ==> CursorAt(i + 1)
      ensures !found ==> trace == old(trace)
    {
      hide WF, Represents, Ids, PathWF, PathRepresents, NodeFor, Contents, PathIds, Focus, Holds, On, TraceTo, Start,
        End, InSlots, SetKid, Kid, Before, PathBefore, Framed, KeyCount, Slots, PathAfter, PathLo, PathHi, Bounded;
      if depth == 0 { return false; }
      ghost var lo, hi :| Holds(V(), tree, lo, hi);
      ghost var path, s := Stand(V(), tree, i, lo, hi);
      var level := depth - 1;
      while true
        invariant level < depth && level == |path| && On(V(), tree, path, s, lo, hi) && trace == old(trace) &&
                  |trace| == depth
        invariant Framed(path) && trace[level].node == s.id && InSlots(s, trace[level].at)
        invariant |PathBefore(path)| + End(s, trace[level].at) == i + 1
        decreases level
      {
        OnFacts(V(), tree, path, s, lo, hi);
        SlotsOf(V(), tree, path, s, trace[level].at, lo, hi);
        SlotsOf(V(), tree, path, s, trace[level].at + 1, lo, hi);
        var nd := pool[trace[level].node];
        var leaf := if nd.leaf then 1 else 0;
        if nd.root && trace[level].at == nd.keyn - leaf {
          LastSlotEnds(s, trace[level].at);
          OnWhole(V(), tree, s, lo, hi);
          SoundTree(V(), tree, lo, hi);
          return false;
        }
        if trace[level].at == nd.keyn - leaf {
          path, s := ClimbFromEnd(V(), tree, path, s, trace[level].at, i + 1, lo, hi);
          level := level - 1;
        } else {
          NextSlot(s, trace[level].at);
          ghost var v := V();
          trace := trace[level := Trace(trace[level].node, trace[level].at + 1)];
          OnTrace(v, V(), tree, path, s, lo, hi);
          break;
        }
      }
      DescendFirst(level, path, s, i + 1, lo, hi);
      found := true;
    }

    /** Move the cursor to the previous record; false, with the cursor unmoved, at the start. */
    method ProbePrev(ghost i: nat) returns (found: bool)
      requires Valid() && (depth > 0 ==> CursorAt(i))
      modifies this`trace
      ensures Valid() && found == (depth > 0 && i > 0)
      ensures found ==> CursorAt(i - 1)
      ensures !found ==> trace == old(trace)
    {
      hide WF, Represents, Ids, PathWF, PathRepresents, NodeFor, Contents, PathIds, Focus, Holds, On, TraceTo, Start,
        End, InSlots, SetKid, Kid, Before, PathBefore, Framed, KeyCount, Slots, PathAfter, PathLo, PathHi, Bounded;
      if depth == 0 { return false; }
      ghost var lo, hi :| Holds(V(), tree, lo, hi);
      ghost var path, s := Stand(V(), tree, i, lo, hi);
      var level := depth - 1;
      while true
        invariant level < depth && level == |path| && On(V(), tree, path, s, lo, hi) && trace == old(trace) &&
                  |trace| == depth
        invariant Framed(path) && trace[level].node == s.id && InSlots(s, trace[level].at)
        invariant |PathBefore(path)| + Start(s, trace[level].at) == i
        decreases level
      {
        OnFacts(V(), tree, path, s, lo, hi);
        var nd := pool[trace[level].node];
        if nd.root && trace[level].at == 0 {
          FirstSlot(s);
          OnWhole(V(), tree, s, lo, hi);
          SoundTree(V(), tree, lo, hi);
          return false;
        }
        if trace[level].at == 0 {
          path, s := ClimbFromStart(V(), tree, path, s, i, lo, hi);
          level := level - 1;
        } else {
          ghost var v := V();
          var at := trace[level].at - 1;
          NextSlot(s, at);
          SlotNonempty(v, tree, path, s, at, lo, hi);
          trace := trace[level := Trace(trace[level].node, at)];
          assert |PathBefore(path)| + End(s, at) == i;
          OnTrace(v, V(), tree, path, s, lo, hi);
          break;
        }
      }
      DescendLast(level, path, s, i - 1, lo, hi);
      found := true;
    }

    // -------------------------------------------------------------------------
    // Probing
    // -------------------------------------------------------------------------

    /** Walk from the root to the leaf where `opc` ends its search; `cmp` compares the
        record at `at` of that leaf with `hkey`. */
    method ProbeLeaf(opc: ProbeOpc, hkey: int)
      returns (nd: Mmid, at: nat, cmp: int, ghost path: seq<Frame>, ghost s: Tree, ghost lo: int, ghost hi: int)
      requires Valid() && depth > 0
      modifies this`trace
      ensures On(V(), tree, path, s, lo, hi) && s.Leaf? && Framed(path) && |path| + 1 == depth == |trace|
      ensures nd == s.id && at < |s.recs|
      ensures opc.ProbeFirst? ==> PathBefore(path) == [] && at == 0
      ensures opc.ProbeLast? ==> PathAfter(path) == [] && at == |s.recs| - 1
      ensures opc.ByKey() ==> PathLo(path, lo) <= hkey < PathHi(path, hi) && Located(s.recs, hkey, at, cmp)
    {
      hide WF, Represents, Ids, PathWF, PathRepresents, NodeFor, Contents, PathIds, Focus, Holds, On, SetKid, Kid,
        PathBefore, PathAfter, PathLo, PathHi, Framed, KidLo, KidHi, BranchesWF, Located, Slots, Ascending;
      ghost var lo0, hi0 :| Holds(V(), tree, lo0, hi0);
      lo, hi := if hkey < lo0 then hkey else lo0, if hkey < hi0 then hi0 else hkey + 1;
      HoldsWiden(V(), tree, lo0, hi0, lo, hi);
      OnTop(V(), tree, lo, hi);
      EmptyFramed();
      path, s := [], tree;
      OnEmptyPath(V(), tree, lo, hi);
      nd := rootNode;
      var level := 0;
      while true
        invariant level == |path| && level < depth == |trace| && On(V(), tree, path, s, lo, hi) && nd == s.id &&
                  Framed(path)
        invariant opc.ProbeFirst? ==> PathBefore(path) == []
        invariant opc.ProbeLast? ==> PathAfter(path) == []
        invariant opc.ByKey() ==> PathLo(path, lo) <= hkey < PathHi(path, hi)
        decreases depth - level
      {
        OnFacts(V(), tree, path, s, lo, hi);
        LiveAscends(V(), tree, path, s, lo, hi);
        if opc.ByKey() {
          at, cmp := Search(pool[nd], hkey);
        } else if opc.ProbeFirst? {
          at, cmp := 0, 1;
        } else {
          at, cmp := pool[nd].keyn - 1, -1;
        }
        if pool[nd].leaf {
          break;
        }
        var child := if cmp <= 0 then at + 1 else at;
        ghost var v := V();
        trace := trace[level := Trace(nd, child)];
        OnTrace(v, V(), tree, path, s, lo, hi);
        if opc.ByKey() { RouteDown(s, hkey, at, cmp, PathLo(path, lo), PathHi(path, hi)); }
        OnDown(V(), tree, path, s, child, lo, hi);
        OnChild(V(), tree, path, s, child, lo, hi);
        EndsDown(path, s, child);
        nd := ChildAt(pool[nd], child);
        path, s := path + [Frame(s, child)], Kid(s, child);
        level := level + 1;
        OnFacts(V(), tree, path, s, lo, hi);
      }
    }

    /** Set the trace to the slot where the search for `opc` ends. */
    method ProbeSlot(opc: ProbeOpc, hkey: int)
      returns (cmp: int, ghost i: nat, ghost path: seq<Frame>, ghost s: Tree, ghost lo: int, ghost hi: int)
      requires Valid() && depth > 0
      modifies this`trace
      ensures Valid()
      ensures opc.ProbeUpdate? && cmp != 0 ==>
                SlotFor(V(), tree, path, s, hkey, lo, hi) && i == |PathBefore(path)| + trace[|path|].at <= |Records()|
      ensures !(opc.ProbeUpdate? && cmp != 0) ==> CursorAt(i)
      ensures opc.ProbeFirst? ==> i == 0
      ensures opc.ProbeLast? ==> i == |Records()| - 1
      ensures opc.ByKey() ==>
                if opc.ProbeUpdate? && cmp < 0 then i > 0 && Located(Records(), hkey, i - 1, cmp)
                else Located(Records(), hkey, i, cmp)
    {
      hide WF, Represents, Ids, PathWF, PathRepresents, NodeFor, Contents, PathIds, Focus, Holds, On, PathBefore,
        PathAfter, PathLo, PathHi, Framed, SlotFor, TraceTo, Belongs, Located;
      var nd, at;
      nd, at, cmp, path, s, lo, hi := ProbeLeaf(opc, hkey);
      ghost var v := V();
      var slot := if opc.ProbeUpdate? && cmp < 0 then at + 1 else at;
      trace := trace[depth - 1 := Trace(nd, slot)];
      OnTrace(v, V(), tree, path, s, lo, hi);
      SoundTree(V(), tree, lo, hi) by { OnHolds(V(), tree, path, s, lo, hi); }
      i := |PathBefore(path)| + slot;
      AtEnds(V(), tree, path, s, lo, hi);
      if opc.ByKey() { LocatedInTree(V(), tree, path, s, hkey, at, cmp, lo, hi); }
      if opc.ProbeUpdate? && cmp != 0 {
        MakeSlot(V(), tree, path, s, hkey, at, cmp, lo, hi);
        SlotPending(V(), tree, path, s, Record(hkey, 0), lo, hi);
      } else {
        OnRecord(V(), tree, path, s, lo, hi);
      }
    }

    /** Find the record `opc` asks for, leaving the trace at it: record number `i`.  For an
        update that finds nothing, the trace is left at the slot for the new record. */
    method Probe(opc: ProbeOpc, hkey: int)
      returns (rc: ProbeRc, ghost i: nat, ghost path: seq<Frame>, ghost s: Tree, ghost lo: int, ghost hi: int)
      requires Valid()
      modifies this`trace
      ensures Valid() && Finds(Records(), opc, hkey, rc, i)
      ensures rc != RcNone ==> CursorAt(i)
      ensures depth > 0 && opc.ProbeUpdate? && rc == RcNone ==>
                SlotFor(V(), tree, path, s, hkey, lo, hi) && i == |PathBefore(path)| + trace[|path|].at
    {
      hide WF, Represents, Ids, PathWF, PathRepresents, NodeFor, Contents, PathIds, Focus, Holds, On, PathBefore,
        PathAfter, PathLo, PathHi, Framed, SlotFor, TraceTo, Belongs, Located, Finds;
      i, path, s, lo, hi := 0, [], Freed(0), 0, 0;
      if depth == 0 {
        FindsNothing(opc, hkey);
        return RcNone, 0, [], Freed(0), 0, 0;
      }
      var cmp;
      cmp, i, path, s, lo, hi := ProbeSlot(opc, hkey);
      ghost var at := i;
      match opc {
        case ProbeFirst | ProbeLast => rc := RcOk;
        case ProbeUpdate | ProbeEQ => rc := if cmp == 0 then RcEq else RcNone;
        case ProbeGE =>
          if cmp == 0 {
            rc := RcEq;
          } else if cmp > 0 {
            rc := RcOk;
          } else {
            var found := ProbeNext(i);
            i := if found then i + 1 else i;
            rc := if found then RcOk else RcNone;
          }
        case ProbeLE =>
          if cmp == 0 {
            rc := RcEq;
          } else if cmp < 0 {
            rc := RcOk;
          } else {
            var found := ProbePrev(i);
            i := if found then i - 1 else i;
            rc := if found then RcOk else RcNone;
          }
      }
      AscendingRecords();
      FindsLocated(Records(), opc, hkey, at, cmp, rc, i);
    }

    lemma AscendingRecords()
      requires Valid()
      ensures Ascending(Records())
    {
      if depth > 0 {
        var lo, hi :| Holds(V(), tree, lo, hi);
        WFAscending(tree, depth, order, lo, hi);
      }
    }

    // -------------------------------------------------------------------------
    // The public operations
    // -------------------------------------------------------------------------

    /** An empty tree. */
    constructor (order: nat)
      requires ORDER_MIN <= order <= ORDER_MAX
      ensures Valid() && Records() == [] && this.order == order && leaked == {}
    {
      this.order := order;
      pool, next, rootNode, depth, trace := map[], 1, NULL, 0, [];
      tree, leaked := Freed(0), {};
    }

    /** Put the first record into a new root, which is also a leaf. */
    method RootStart(rec: Record)
      requires Valid() && depth == 0
      modifies this
      ensures Valid() && Records() == [rec] && leaked == old(leaked) && depth == 1
    {
      ghost var v := V();
      var nd := NodeAlloc();
      pool := pool[nd := pool[nd].(root := true, leaf := true, keyn := 1,
        recs := RecCopy(pool[nd].recs, 0, [rec], 0, 1))];
      rootNode := nd;
      depth := 1;
      trace := [Trace(nd, 0)];
      tree := Leaf(nd, [rec]);
      assert Live(pool[nd]) == [rec];
      assert pool.Keys == v.pool.Keys + {nd};
      OneMore(v.pool.Keys, nd);
      assert WF(tree, 1, order, rec.hkey, rec.hkey + 1);
      assert Holds(V(), tree, rec.hkey, rec.hkey + 1);
    }

    /** Overwrite the record the trace points at. */
    method UpdateOnly(rec: Record, ghost i: nat)
      requires Valid() && CursorAt(i) && Records()[i].hkey == rec.hkey
      modifies this`pool, this`tree
      ensures Valid() && Records() == old(Records())[i := rec]
    {
      hide WF, Represents, Ids, PathWF, PathRepresents, NodeFor, Contents, PathIds, Focus, Holds, On, PathBefore,
        PathAfter, Framed, TraceTo, InSlots, Start, End;
      ghost var v := V();
      ghost var lo, hi :| Holds(V(), tree, lo, hi);
      ghost var path, s := Stand(V(), tree, i, lo, hi);
      OnFacts(V(), tree, path, s, lo, hi);
      LeafAt(v, tree, path, s, i, lo, hi);
      var cur := trace[depth - 1];
      var nd := pool[cur.node];
      pool := pool[cur.node := nd.(recs := nd.recs[cur.at := rec])];
      tree := Overwritten(v, V(), tree, path, s, cur.at, rec, lo, hi);
      SoundTree(V(), tree, lo, hi);
    }

    /** Insert or overwrite the record of key `hkey`. */
    method Update(hkey: int, val: Mmid)
      requires Valid()
      modifies this
      ensures Valid() && leaked == old(leaked)
      ensures AsMap(Records()) == AsMap(old(Records()))[hkey := val]
    {
      hide WF, Represents, Ids, PathWF, PathRepresents, NodeFor, Contents, PathIds, Focus, Holds, On, PathBefore,
        PathAfter, Framed, TraceTo, SlotFor, Pending, Belongs, Inserted, InSlots, Start, End;
      var rec := Record(hkey, val);
      var rc;
      ghost var i, path, s, lo, hi;
      rc, i, path, s, lo, hi := Probe(ProbeUpdate, hkey);
      AscendingRecords();
      if rc == RcEq {
        UpdateOnly(rec, i);
        AsMapSet(old(Records()), i, rec);
      } else if depth != 0 {
        SlotFacts(V(), tree, path, s, hkey, lo, hi);
        SlotPending(V(), tree, path, s, rec, lo, hi);
        ghost var recs := Records();
        tree := InsertRec(depth - 1, rec, path, s, s, lo, hi);
        SoundTree(V(), tree, lo, hi);
        AsMapInsert(recs, i, rec);
      } else {
        RootStart(rec);
      }
    }

    /** Delete the record the trace points at, record number `i`. */
    method DeleteAtCursor(ghost i: nat)
      requires Valid() && CursorAt(i)
      modifies this
      ensures Valid() && Records() == RemoveAt(old(Records()), i)
      ensures leaked == old(leaked) + if Records() == [] then {old(rootNode)} else {}
    {
      hide WF, Represents, Ids, PathWF, PathRepresents, NodeFor, Contents, PathIds, Focus, Holds, On, PathBefore,
        PathAfter, Framed, TraceTo, InSlots, Start, End, DoomedAt, Without, CanDrop, Remaining;
      ghost var target := RemoveAt(Records(), i);
      ghost var lo, hi :| Holds(V(), tree, lo, hi);
      ghost var path, s := Stand(V(), tree, i, lo, hi);
      DoomedStart(V(), tree, path, s, i, lo, hi);
      var level := depth - 1;
      while true
        invariant level == |path| && level < |trace| && Framed(path) && DoomedAt(V(), path, s, lo, hi)
        invariant CanDrop(s, trace[level].at) && Remaining(path, s, trace[level].at) == target
        invariant leaked == old(leaked) && rootNode == old(rootNode)
        decreases level
      {
        if level == 0 {
          RemainingTop(s, trace[0].at);
          DoomedNode(V(), path, s, lo, hi);
          RootDelRec(s, lo, hi);
          return;
        }
        var bubbleUp;
        ghost var t;
        bubbleUp, t := DelRec(level, path, s, lo, hi);
        if !bubbleUp {
          tree := t;
          SoundTree(V(), tree, lo, hi);
          return;
        }
        path, s := Up(path), t;
        level := level - 1;
      }
    }

    /** Delete the record of key `hkey`, if there is one. */
    method Delete(hkey: int) returns (found: bool)
      requires Valid()
      modifies this
      ensures Valid() && found == (hkey in AsMap(old(Records())))
      ensures AsMap(Records()) == AsMap(old(Records())) - {hkey}
      ensures leaked == old(leaked) + if found && Records() == [] then {old(rootNode)} else {}
    {
      var rc;
      ghost var i, path, s, lo, hi;
      rc, i, path, s, lo, hi := Probe(ProbeEQ, hkey);
      AscendingRecords();
      if rc != RcEq {
        AsMapMissing(Records(), hkey);
        return false;
      }
      AsMapRemove(Records(), i);
      DeleteAtCursor(i);
      found := true;
    }

    /** Fetch the value of the record `opc` finds for `hkey`. */
    method Fetch(opc: ProbeOpc, hkey: int) returns (r: FetchResult)
      requires Valid() && !opc.ProbeUpdate?
      modifies this`trace
      ensures Valid()
      ensures r.Missing? ==> Finds(Records(), opc, hkey, RcNone, 0)
      ensures r.Fetched? ==> exists i: nat ::
                i < |Records()| && Records()[i] == r.rec && Finds(Records(), opc, hkey, r.rc, i)
      ensures r.Fetched? <==> exists rec :: rec in Records() && Asked(opc, hkey, rec)
      ensures r.Fetched? ==> r.rec in Records() && Asked(opc, hkey, r.rec)
      ensures r.Fetched? && (opc.ProbeFirst? || opc.ProbeGE?) ==>
                forall rec :: rec in Records() && Asked(opc, hkey, rec) ==> r.rec.hkey <= rec.hkey
      ensures r.Fetched? && (opc.ProbeLast? || opc.ProbeLE?) ==>
                forall rec :: rec in Records() && Asked(opc, hkey, rec) ==> rec.hkey <= r.rec.hkey
    {
      AscendingRecords();
      hide Valid, Finds, Asked, CursorAt;
      var rc;
      ghost var i, path, s, lo, hi;
      rc, i, path, s, lo, hi := Probe(opc, hkey);
      FindsMeans(Records(), opc, hkey, rc, i);
      if rc == RcNone {
        return Missing;
      }
      var rec := Current(i);
      r := Fetched(rc, rec);
    }

    // -------------------------------------------------------------------------
    // Runs
    // -------------------------------------------------------------------------

    /** The record under the cursor, where the trace points in the pool. */
    lemma CursorRecord(i: nat)
      requires Valid() && CursorAt(i)
      ensures |trace| == depth && var cur := trace[depth - 1];
              cur.node in pool && cur.at < |pool[cur.node].recs| && pool[cur.node].recs[cur.at] == Records()[i]
    {
      hide WF, Represents, Ids, PathWF, PathRepresents, NodeFor, Contents, PathIds, Focus, Holds, On, PathBefore,
        PathAfter, Framed, TraceTo, InSlots, Start, End;
      var lo, hi :| Holds(V(), tree, lo, hi);
      var path, s := Stand(V(), tree, i, lo, hi);
      LeafAt(V(), tree, path, s, i, lo, hi);
    }

    /** A trace names one record only. */
    lemma CursorUnique(i: nat, j: nat)
      requires Valid() && CursorAt(i) && CursorAt(j)
      ensures i == j
    {
      CursorRecord(i);
      CursorRecord(j);
      AscendingRecords();
      hide Valid, CursorAt;
      assert Records()[i].hkey == Records()[j].hkey;
    }

    /** The trace slots a tree of this size needs. */
    lemma TraceFits()
      requires Valid()
      ensures depth > 0 ==> |Records()| >= Pow2(depth - 1)
      ensures |Records()| < Pow2(TRACE_MAX) ==> depth <= TRACE_MAX
    {
      if depth > 0 {
        hide Represents, Ids, Pow2, Contents;
        var lo, hi :| Holds(V(), tree, lo, hi);
        WFSize(tree, depth, order, lo, hi);
        if depth > TRACE_MAX { Pow2Monotone(TRACE_MAX, depth - 1); }
      }
    }

    /** A step forward and a step back restore the trace. */
    method StepAndBack(ghost i: nat) returns (moved: bool)
      requires Valid() && CursorAt(i)
      modifies this`trace
      ensures Valid() && CursorAt(i) && trace == old(trace) && moved == (i + 1 < |Records()|)
    {
      moved := ProbeNext(i);
      if moved {
        var back := ProbePrev(i + 1);
      }
    }

    /** Visit the records from the first forwards or from the last backwards. */
    method Iterate(backward: bool) returns (visited: seq<Record>)
      requires Valid()
      modifies this`trace
      ensures Valid()
      ensures |visited| == |Records()|
      ensures forall j :: 0 <= j < |visited| ==> visited[j] == Records()[if backward then |visited| - 1 - j else j]
    {
      hide WF, Represents, Ids, PathWF, PathRepresents, NodeFor, Contents, PathIds, Focus, Holds, On, PathBefore,
        PathAfter, Framed, TraceTo, SlotFor, InSlots, Start, End;
      visited := [];
      var rc;
      ghost var i, path, s, lo, hi;
      rc, i, path, s, lo, hi := Probe(if backward then ProbeLast else ProbeFirst, 0);
      if rc == RcNone { return; }
      ghost var n := |Records()|;
      while true
        invariant Valid() && CursorAt(i) && |Records()| == n && tree == old(tree) && depth == old(depth)
        invariant i == (if backward then n - 1 - |visited| else |visited|)
        invariant forall j :: 0 <= j < |visited| ==> visited[j] == Records()[if backward then n - 1 - j else j]
        decreases n - |visited|
      {
        var rec := Current(i);
        visited := visited + [rec];
        var found;
        if backward {
          found := ProbePrev(i);
          i := if found then i - 1 else i;
        } else {
          found := ProbeNext(i);
          i := if found then i + 1 else i;
        }
        if !found { break; }
      }
    }

    /** The record the trace points at. */
    method Current(ghost i: nat) returns (rec: Record)
      requires Valid() && CursorAt(i)
      ensures rec == Records()[i]
    {
      CursorRecord(i);
      var cur := trace[depth - 1];
      rec := pool[cur.node].recs[cur.at];
    }

    /** Any sequence of updates and deletes: the tree holds the map they build, in order. */
    method Run(ops: seq<Op>)
      requires Valid()
      modifies this
      ensures Valid() && Ascending(Records())
      ensures AsMap(Records()) == Applied(AsMap(old(Records())), ops)
      ensures forall recs :: Ascending(recs) && AsMap(recs) == Applied(AsMap(old(Records())), ops) ==> recs == Records()
    {
      assert Applied(AsMap(Records()), ops[..0]) == AsMap(Records());
      hide AsMap, Ascending, Applied, Contents, WF, Represents, Ids, Holds;
      var k := 0;
      while k < |ops|
        invariant 0 <= k <= |ops| && Valid()
        invariant AsMap(Records()) == Applied(AsMap(old(Records())), ops[..k])
      {
        AppliedMore(AsMap(old(Records())), ops, k);
        match ops[k] {
          case Put(hkey, val) => Update(hkey, val);
          case Drop(hkey) => var found := Delete(hkey);
        }
        k := k + 1;
      }
      assert ops[..k] == ops;
      AscendingRecords();
      forall recs | Ascending(recs) && AsMap(recs) == Applied(AsMap(old(Records())), ops) ensures recs == Records() {
        SortedUnique(recs, Records());
      }
    }

    /** Create a tree; null for an order out of range. */
    static method Create(order: nat) returns (tcx: Context?)
      ensures tcx != null <==> ORDER_MIN <= order <= ORDER_MAX
      ensures tcx != null ==> fresh(tcx) && tcx.Valid() && tcx.Records() == [] && tcx.order == order
    {
      if order < ORDER_MIN || order > ORDER_MAX {
        return null;
      }
      tcx := new Context(order);
    }
  }
}
