/** Changing the status of components leaves the layers and the tree as they are. */
module PoolActivate {
  import opened Sequences
  import opened PoolLayers

  /** A new component is up once it is part of a map. */
  function Up(c: Comp): Comp {
    if c.status == ST_NEW then c.(status := ST_UP) else c
  }

  ghost function UpAll(cs: seq<Comp>): (s: seq<Comp>)
    ensures |s| == |cs| && forall k :: 0 <= k < |cs| ==> s[k] == Up(cs[k])
  {
    seq(|cs|, k requires 0 <= k < |cs| => Up(cs[k]))
  }

  /** The first `n` layers up. */
  ghost function UpLayers(ls: Layers, n: nat): (s: Layers)
    ensures |s| == |ls| && forall l :: 0 <= l < |ls| ==> s[l] == if l < n then UpAll(ls[l]) else ls[l]
  {
    seq(|ls|, l requires 0 <= l < |ls| => if l < n then UpAll(ls[l]) else ls[l])
  }

  /** The same components but for their status. */
  ghost predicate Alike(a: seq<Comp>, b: seq<Comp>) {
    |a| == |b| && forall k :: 0 <= k < |a| ==> a[k] == b[k].(status := a[k].status)
  }

  ghost predicate AlikeLayers(a: Layers, b: Layers) {
    |a| == |b| && forall l :: 0 <= l < |a| ==> Alike(a[l], b[l])
  }

  lemma {:induction false} AlikeOff(a: Layers, b: Layers, l: nat)
    requires AlikeLayers(a, b) && l <= |a|
    ensures Off(a, l) == Off(b, l)
  {
    if l > 0 {
      AlikeOff(a, b, l - 1);
      assert Alike(a[l - 1], b[l - 1]);
    }
  }

  lemma AlikeNrs(a: seq<Comp>, b: seq<Comp>)
    requires Alike(a, b)
    ensures Nrs(a) == Nrs(b) && forall j :: 0 <= j <= |a| ==> Before(a, j) == Before(b, j)
  {
    assert Nrs(a) == Nrs(b);
  }

  lemma AlikeLayered(a: Layers, b: Layers, ta: seq<Comp>, tb: seq<Comp>)
    requires AlikeLayers(a, b) && Alike(ta, tb) && Layered(b, tb) && a[0] == b[0]
    ensures Layered(a, ta)
  {
    hide Before;
    forall l | 0 <= l < |a|
      ensures a[l] != [] && SameType(a[l]) && |a[l]| == |b[l]| && a[l][0].ty == b[l][0].ty &&
              Before(a[l], |a[l]|) == Before(b[l], |b[l]|)
    {
      assert Alike(a[l], b[l]);
      assert b[l] != [] && SameType(b[l]);
      AlikeNrs(a[l], b[l]);
    }
    forall l, j | 0 <= l < |a| && 0 <= j < |a[l]| ensures a[l][j].nr >= 1 {
      assert Alike(a[l], b[l]);
      assert b[l][j].nr >= 1;
    }
  }

  lemma {:induction false} AlikeCounts(a: Layers, b: Layers, ta: seq<Comp>, tb: seq<Comp>, l: nat)
    requires AlikeLayers(a, b) && Layered(a, ta) && Layered(b, tb) && l < |a|
    ensures |a[l]| == |b[l]| && Counts(a, ta, l) == Counts(b, tb, l)
    decreases |a| - l
  {
    assert Alike(a[l], b[l]);
    AlikeNrs(a[l], b[l]);
    if l < |a| - 1 {
      AlikeCounts(a, b, ta, tb, l + 1);
      AlikeGather(a[l], b[l], Counts(a, ta, l + 1));
    }
  }

  lemma AlikeGather(a: seq<Comp>, b: seq<Comp>, below: seq<nat>)
    requires Alike(a, b) && Before(a, |a|) == |below|
    ensures Before(b, |b|) == |below| && Gather(a, below) == Gather(b, below)
  {
    AlikeNrs(a, b);
    assert Gather(a, below) == Gather(b, below) by {
      forall j | 0 <= j < |a| ensures Gather(a, below)[j] == Gather(b, below)[j] {
        GatherSum(a, below, j);
        GatherSum(a, below, j + 1);
      }
    }
  }

  /** Domains that differ from those of a tree only as their components do. */
  lemma AlikeTree(a: Layers, b: Layers, ta: seq<Comp>, tb: seq<Comp>, tree: seq<Dom>, t: seq<Dom>)
    requires AlikeLayers(a, b) && Layered(a, ta) && Layered(b, tb) && IsTree(b, tb, tree) && |t| == |tree|
    requires forall l, j {:trigger a[l][j]} :: 0 <= l < |a| && 0 <= j < |a[l]| && Off(b, l) + j < |tree| ==>
               t[Off(b, l) + j] == tree[Off(b, l) + j].(comp := tree[Off(b, l) + j].comp.(status := a[l][j].status))
    ensures IsTree(a, ta, t)
  {
    hide Layered, Expected, Off;
    AlikeOff(a, b, |a|);
    forall l, j | 0 <= l < |a| && 0 <= j < |a[l]| ensures TreeHas(a, ta, t, l, j) {
      AlikeOff(a, b, l);
      assert Alike(a[l], b[l]);
      assert b[l][j] == b[l][j] && a[l][j] == a[l][j];
      assert TreeHas(b, tb, tree, l, j);
      AlikeExpected(a, b, ta, tb, l, j);
    }
  }

  lemma AlikeExpected(a: Layers, b: Layers, ta: seq<Comp>, tb: seq<Comp>, l: nat, j: nat)
    requires AlikeLayers(a, b) && Layered(a, ta) && Layered(b, tb) && l < |a| && j < |a[l]| == |b[l]|
    ensures var e := Expected(b, tb, l, j); Expected(a, ta, l, j) == e.(comp := e.comp.(status := a[l][j].status))
  {
    hide Layered, Sum, Off, Before, Counts;
    assert Alike(a[l], b[l]);
    AlikeNrs(a[l], b[l]);
    AlikeCounts(a, b, ta, tb, l);
    if l + 1 < |a| { AlikeOff(a, b, l + 1); }
  }

  lemma UpAlike(ls: Layers, n: nat, targets: seq<Comp>, up: bool)
    requires Layered(ls, targets) && n <= |ls|
    ensures AlikeLayers(UpLayers(ls, n), ls) && Alike(UpAll(targets), targets)
    ensures Layered(UpLayers(ls, n), if up then UpAll(targets) else targets)
  {
    var a := UpLayers(ls, n);
    forall l | 0 <= l < |ls| ensures Alike(a[l], ls[l]) {}
    assert UpAll(ls[0]) == ls[0];
    assert Alike(targets, targets);
    AlikeLayered(a, ls, if up then UpAll(targets) else targets, targets);
  }

  lemma UpNone(ls: Layers)
    ensures UpLayers(ls, 0) == ls
  {
  }

  lemma {:induction false} FlatUp(ls: Layers)
    ensures Flat(UpLayers(ls, |ls|)) == UpAll(Flat(ls))
    decreases |ls|
  {
    if ls != [] {
      var n := |ls| - 1;
      FlatUp(ls[..n]);
      assert UpLayers(ls, |ls|)[..n] == UpLayers(ls[..n], n);
      assert UpAll(Flat(ls[..n]) + ls[n]) == UpAll(Flat(ls[..n])) + UpAll(ls[n]);
    }
  }
}
