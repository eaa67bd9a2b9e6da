/** The components of a pool in layers, and the counts that tie the layers together. */
module PoolLayers {
  import opened Sequences

  const ROOT: nat := 1
  const TARGET: nat := 50

  const ST_NEW: nat := 1
  const ST_UP: nat := 2

  /** `nr` is the number of children, or of targets for a domain of the last layer. */
  datatype Comp = Comp(ty: nat, status: nat, id: nat, rank: nat, ver: nat, fseq: nat, nr: nat)

  const Blank := Comp(0, 0, 0, 0, 0, 0, 0)

  const NULL: int := -1

  /** A domain of the tree: `children` is the index of its first child domain, `targets`
      that of its first target. */
  datatype Dom = Dom(comp: Comp, targetNr: nat, children: int, targets: int)

  type Layers = seq<seq<Comp>>

  ghost function Nrs(layer: seq<Comp>): (s: seq<nat>)
    ensures |s| == |layer|
  {
    seq(|layer|, j requires 0 <= j < |layer| => layer[j].nr)
  }

  /** How many children, or targets, come before those of domain `j` of a layer. */
  ghost function Before(layer: seq<Comp>, j: nat): nat
    requires j <= |layer|
  {
    Sum(Nrs(layer)[..j])
  }

  // ---------------------------------------------------------------------------
  // Layers
  // ---------------------------------------------------------------------------

  /** Where layer `l` begins in the tree. */
  ghost function Off(ls: Layers, l: nat): nat
    requires l <= |ls|
  {
    if l == 0 then 0 else Off(ls, l - 1) + |ls[l - 1]|
  }

  ghost function Flat(ls: Layers): seq<Comp> {
    if ls == [] then [] else Flat(ls[..|ls| - 1]) + ls[|ls| - 1]
  }

  lemma {:induction false} OffPrefix(ls: Layers, l: nat, m: nat)
    requires l <= m <= |ls|
    ensures Off(ls[..m], l) == Off(ls, l)
  {
    if l > 0 { OffPrefix(ls, l - 1, m); }
  }

  lemma {:induction false} FlatAt(ls: Layers, l: nat, j: nat)
    requires l < |ls| && j < |ls[l]|
    ensures Off(ls, l) + j < |Flat(ls)| == Off(ls, |ls|) && Flat(ls)[Off(ls, l) + j] == ls[l][j]
    decreases |ls|
  {
    var n := |ls| - 1;
    FlatLen(ls[..n]);
    OffPrefix(ls, n, n);
    if l < n {
      FlatAt(ls[..n], l, j);
      OffPrefix(ls, l, n);
    }
  }

  lemma {:induction false} FlatLen(ls: Layers)
    ensures |Flat(ls)| == Off(ls, |ls|)
    decreases |ls|
  {
    if ls != [] {
      var n := |ls| - 1;
      FlatLen(ls[..n]);
      OffPrefix(ls, n, n);
    }
  }

  lemma {:induction false} OffLess(ls: Layers, l: nat, m: nat)
    requires l <= m <= |ls|
    ensures Off(ls, l) <= Off(ls, m) && (l < m ==> Off(ls, l) + |ls[l]| <= Off(ls, m))
    decreases m - l
  {
    if l < m { OffLess(ls, l, m - 1); }
  }

  ghost predicate SameType(layer: seq<Comp>) {
    forall j :: 0 <= j < |layer| ==> layer[j].ty == layer[0].ty
  }

  /** The root, then layers of domains, each layer of one type, types ascending
      from the root to the targets; every domain has children, and the children of a layer
      are the next one. */
  ghost predicate Layered(ls: Layers, targets: seq<Comp>) {
    && |ls| >= 1 && |ls[0]| == 1 && ls[0][0] == Comp(ROOT, ST_UP, 0, 0, 0, 0, ls[0][0].nr)
    && (forall l :: 0 <= l < |ls| ==> ls[l] != [] && SameType(ls[l]))
    && (forall l, j :: 0 <= l < |ls| && 0 <= j < |ls[l]| ==> ls[l][j].nr >= 1)
    && (forall l :: 0 <= l < |ls| - 1 ==> ls[l][0].ty < ls[l + 1][0].ty && Before(ls[l], |ls[l]|) == |ls[l + 1]|)
    && ls[|ls| - 1][0].ty < TARGET && Before(ls[|ls| - 1], |ls[|ls| - 1]|) == |targets|
    && (forall k :: 0 <= k < |targets| ==> targets[k].ty == TARGET)
  }

  // ---------------------------------------------------------------------------
  // Targets under each domain
  // ---------------------------------------------------------------------------

  /** Adding up what is below each domain of a layer. */
  ghost function Gather(layer: seq<Comp>, below: seq<nat>): (s: seq<nat>)
    requires Before(layer, |layer|) == |below|
    ensures |s| == |layer|
  {
    seq(|layer|, j requires 0 <= j < |layer| =>
        SumLess(Nrs(layer), j, |layer|);
        SumLess(Nrs(layer), j + 1, |layer|);
        SumMore(Nrs(layer), j);
        assert Nrs(layer)[..|layer|] == Nrs(layer);
        Sum(below[Before(layer, j)..Before(layer, j + 1)]))
  }

  /** How many targets each domain of layer `l` has. */
  ghost function Counts(ls: Layers, targets: seq<Comp>, l: nat): (s: seq<nat>)
    requires Layered(ls, targets) && l < |ls|
    ensures |s| == |ls[l]|
    decreases |ls| - l
  {
    if l == |ls| - 1 then Nrs(ls[l]) else Gather(ls[l], Counts(ls, targets, l + 1))
  }

  /** The targets of the first `j` domains are those of all their children. */
  lemma {:induction false} GatherSum(layer: seq<Comp>, below: seq<nat>, j: nat)
    requires Before(layer, |layer|) == |below| && j <= |layer|
    ensures Before(layer, j) <= |below| && Sum(Gather(layer, below)[..j]) == Sum(below[..Before(layer, j)])
    decreases j
  {
    SumLess(Nrs(layer), j, |layer|);
    assert Nrs(layer)[..|layer|] == Nrs(layer);
    if j == 0 {
      assert below[..0] == [];
    } else {
      GatherSum(layer, below, j - 1);
      SumMore(Gather(layer, below), j - 1);
      SumMore(Nrs(layer), j - 1);
      SumLess(below, Before(layer, j - 1), Before(layer, j));
    }
  }

  /** Each layer has all the targets. */
  lemma {:induction false} CountsAll(ls: Layers, targets: seq<Comp>, l: nat)
    requires Layered(ls, targets) && l < |ls|
    ensures Sum(Counts(ls, targets, l)) == |targets|
    decreases |ls| - l
  {
    var c := Counts(ls, targets, l);
    assert c[..|c|] == c;
    if l < |ls| - 1 {
      var below := Counts(ls, targets, l + 1);
      GatherSum(ls[l], below, |ls[l]|);
      assert below[..|below|] == below;
      CountsAll(ls, targets, l + 1);
    }
  }

  /** No domain is without targets. */
  lemma {:induction false} CountsPositive(ls: Layers, targets: seq<Comp>, l: nat)
    requires Layered(ls, targets) && l < |ls|
    ensures forall j :: 0 <= j < |ls[l]| ==> Counts(ls, targets, l)[j] >= 1
    decreases |ls| - l
  {
    if l < |ls| - 1 {
      var below := Counts(ls, targets, l + 1);
      CountsPositive(ls, targets, l + 1);
      forall j | 0 <= j < |ls[l]| ensures Counts(ls, targets, l)[j] >= 1 {
        assert ls[l][j].nr >= 1;
        GatherPositive(ls[l], below, j);
      }
    }
  }

  lemma GatherPositive(layer: seq<Comp>, below: seq<nat>, j: nat)
    requires Before(layer, |layer|) == |below| && j < |layer| && layer[j].nr >= 1 && forall k :: 0 <= k < |below| ==>
             below[k] >= 1
    ensures Gather(layer, below)[j] >= 1
  {
    GatherSum(layer, below, j);
    GatherSum(layer, below, j + 1);
    SumMore(Nrs(layer), j);
    var b, e := Before(layer, j), Before(layer, j + 1);
    SumLess(below[b..e], e - b - 1, e - b);
    assert below[b..e][..e - b] == below[b..e];
    assert below[b..e][e - b - 1] == below[e - 1];
  }

  /** Domain `j` of layer `l` of a finished tree. */
  ghost function Expected(ls: Layers, targets: seq<Comp>, l: nat, j: nat): Dom
    requires Layered(ls, targets) && l < |ls| && j < |ls[l]|
  {
    var cs := Counts(ls, targets, l);
    var last := l == |ls| - 1;
    Dom(if last then ls[l][j].(nr := 0) else ls[l][j], cs[j],
      if last then NULL else Off(ls, l + 1) + Before(ls[l], j), Sum(cs[..j]))
  }

  ghost predicate TreeHas(ls: Layers, targets: seq<Comp>, tree: seq<Dom>, l: nat, j: nat)
    requires Layered(ls, targets) && l < |ls| && j < |ls[l]|
  {
    Off(ls, l) + j < |tree| && tree[Off(ls, l) + j] == Expected(ls, targets, l, j)
  }

  ghost predicate IsTree(ls: Layers, targets: seq<Comp>, tree: seq<Dom>)
    requires Layered(ls, targets)
  {
    && |tree| == Off(ls, |ls|)
    && forall l, j :: 0 <= l < |ls| && 0 <= j < |ls[l]| ==> TreeHas(ls, targets, tree, l, j)
  }
}
